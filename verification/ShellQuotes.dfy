/** Blanks and quotes, which both shells read alike. */
module ShellQuotes {
  /** The quote a character stands in. */
  datatype Quote = Bare | Single | Double

  predicate Blank(c: char)
  {
    c == ' ' || c == '\t'
  }

  predicate Opens(c: char)
  {
    c == '\'' || c == '"'
  }

  function QuoteOf(c: char): (q: Quote)
    requires Opens(c)
  {
    if c == '"' then Double else Single
  }

  /** Character `c` closes quote `q`. */
  predicate Closes(c: char, q: Quote)
  {
    Opens(c) && QuoteOf(c) == q
  }
}
