/** Decimal text of 64-bit integers. */
module Int64Text {
  import opened Basics

  const INT64_MIN: int := -0x8000_0000_0000_0000
  const INT64_MAX: int := 0x7FFF_FFFF_FFFF_FFFF
  const UINT64_MAX: int := 0xFFFF_FFFF_FFFF_FFFF

  predicate InRange(v: int)
  {
    INT64_MIN <= v <= INT64_MAX
  }

  predicate IsDigit(c: char)
  {
    '0' <= c <= '9'
  }

  function DigitValue(c: char): (d: nat)
    requires IsDigit(c)
    ensures d < 10
  {
    (c - '0') as nat
  }

  function DigitOf(d: nat): (c: char)
    requires d < 10
    ensures IsDigit(c) && DigitValue(c) == d
  {
    '0' + d as char
  }

  predicate AllDigits(s: string)
  {
    forall i :: 0 <= i < |s| ==> IsDigit(s[i])
  }

  /** The number a string of digits denotes. */
  function Value(s: string): (v: nat)
    requires AllDigits(s)
  {
    if s == "" then 0 else 10 * Value(s[..|s| - 1]) + DigitValue(s[|s| - 1])
  }

  predicate Signed(text: string)
  {
    text != "" && (text[0] == '-' || text[0] == '+')
  }

  /** The text without its sign. */
  function Body(text: string): (s: string)
  {
    if Signed(text) then text[1..] else text
  }

  predicate Negative(text: string)
  {
    text != "" && text[0] == '-'
  }

  /** An optional sign and at least one digit. */
  predicate IsNumeral(text: string)
  {
    Body(text) != "" && AllDigits(Body(text))
  }

  function Meaning(text: string): (v: int)
    requires IsNumeral(text)
  {
    if Negative(text) then 0 - Value(Body(text)) else Value(Body(text))
  }

  /** Reading a text as a 64-bit integer. */
  function Parsed(text: string): (r: Option<int>)
  {
    if IsNumeral(text) && InRange(Meaning(text)) then Some(Meaning(text)) else None
  }

  /** The decimal digits of a number, without leading zeros. */
  function Decimal(v: nat): (s: string)
    ensures s != ""
  {
    if v < 10 then [DigitOf(v)] else Decimal(v / 10) + [DigitOf(v % 10)]
  }

  function Numeral(v: int): (s: string)
  {
    if v < 0 then "-" + Decimal(-v) else Decimal(v)
  }

  // ----- writing and reading are inverse -----

  lemma {:induction false} DecimalDigits(v: nat)
    ensures AllDigits(Decimal(v)) && Value(Decimal(v)) == v
  {
    if v >= 10 {
      DecimalDigits(v / 10);
      var s := Decimal(v);
      assert s[..|s| - 1] == Decimal(v / 10) && s[|s| - 1] == DigitOf(v % 10);
    }
  }

  /** Every integer reads back from its text as itself. */
  lemma {:induction false} NumeralReads(v: int)
    ensures IsNumeral(Numeral(v)) && Meaning(Numeral(v)) == v
    ensures InRange(v) ==> Parsed(Numeral(v)) == Some(v)
  {
    if v < 0 {
      DecimalDigits(-v);
      assert Body(Numeral(v)) == Decimal(-v);
    } else {
      DecimalDigits(v);
      assert IsDigit(Decimal(v)[0]);
    }
  }

  /** Text in the form the formatter writes: no plus sign, no superfluous zeros, no minus zero. */
  predicate Canonical(text: string)
  {
    && IsNumeral(text)
    && (Signed(text) ==> text[0] == '-' && Body(text)[0] != '0')
    && (Body(text)[0] == '0' ==> |Body(text)| == 1)
  }

  lemma {:induction false} DecimalOfValue(s: string)
    requires AllDigits(s) && s != "" && (s[0] == '0' ==> |s| == 1)
    ensures Decimal(Value(s)) == s
    ensures s[0] != '0' ==> Value(s) > 0
    decreases |s|
  {
    var front, last := s[..|s| - 1], s[|s| - 1];
    if front == "" {
      assert Value(front) == 0;
      assert s == [last];
    } else {
      DecimalOfValue(front);
      assert Value(s) / 10 == Value(front) && Value(s) % 10 == DigitValue(last);
      assert s == front + [last];
    }
  }

  lemma {:induction false} DecimalLeads(v: nat)
    ensures Decimal(v)[0] == '0' ==> v == 0
    ensures v == 0 ==> |Decimal(v)| == 1
  {
    if v >= 10 { DecimalLeads(v / 10); }
  }

  lemma {:induction false} NumeralCanonical(v: int)
    ensures Canonical(Numeral(v))
  {
    NumeralReads(v);
    var n := if v < 0 then -v else v;
    DecimalLeads(n);
    DecimalDigits(n);
    assert v < 0 ==> Body(Numeral(v)) == Decimal(n);
  }

  /** The formatter's texts are exactly the canonical ones, and reading and writing one leaves it
      as it was. */
  lemma {:induction false} CanonicalIff(text: string)
    ensures Canonical(text) <==> IsNumeral(text) && Numeral(Meaning(text)) == text
  {
    if Canonical(text) {
      DecimalOfValue(Body(text));
      if Negative(text) {
        assert text == "-" + Body(text);
      }
    }
    if IsNumeral(text) {
      NumeralCanonical(Meaning(text));
    }
  }

  // ----- the loops -----

  lemma {:induction false} ValueRises(s: string, i: nat)
    requires i <= |s| && AllDigits(s)
    ensures Value(s[..i]) <= Value(s)
    decreases |s|
  {
    if i < |s| {
      var front := s[..|s| - 1];
      ValueRises(front, i);
      assert front[..i] == s[..i];
    } else {
      assert s[..i] == s;
    }
  }

  /** The guard against overflow is exact. */
  lemma {:induction false} GuardExact(number: int, digit: int, limit: int)
    ensures number > (limit - digit) / 10 <==> number * 10 + digit > limit
  {
  }

  /** One more digit. */
  lemma {:induction false} DigitMore(s: string, i: nat)
    requires i < |s| && AllDigits(s[..i]) && IsDigit(s[i])
    ensures AllDigits(s[..i + 1]) && Value(s[..i + 1]) == Value(s[..i]) * 10 + DigitValue(s[i])
  {
    assert s[..i + 1][..i] == s[..i];
  }

  /** Reads digits; fails exactly at another character or beyond the limit. */
  method ReadDigits(s: string, limit: nat) returns (r: Option<nat>)
    ensures r == if AllDigits(s) && Value(s) <= limit then Some(Value(s)) else None
  {
    var number := 0;
    for i := 0 to |s|
      invariant AllDigits(s[..i]) && number == Value(s[..i]) <= limit
    {
      if !IsDigit(s[i]) {
        return None;
      }
      var digit := DigitValue(s[i]);
      DigitMore(s, i);
      GuardExact(number, digit, limit);
      if number > (limit - digit) / 10 {
        if AllDigits(s) { ValueRises(s, i + 1); }
        return None;
      }
      number := number * 10 + digit;
    }
    assert s[..|s|] == s;
    r := Some(number);
  }

  /** Reads a text; fails exactly for text that is no numeral or out of range. */
  method ParseInteger(text: string) returns (r: Option<int>)
    ensures r == Parsed(text)
  {
    var negative := false;
    var body := text;
    if text != "" && (text[0] == '-' || text[0] == '+') {
      negative := text[0] == '-';
      body := text[1..];
    }
    if body == "" {
      return None;
    }
    var number := ReadDigits(body, if negative then INT64_MAX + 1 else INT64_MAX);
    if number.None? {
      return None;
    }
    var value: int := number.value;
    r := Some(if negative then -value else value);
  }

  /** The digits of `v`, last first. */
  function Backwards(v: nat): (s: string)
    ensures s != ""
  {
    if v < 10 then [DigitOf(v)] else [DigitOf(v % 10)] + Backwards(v / 10)
  }

  lemma {:induction false} BackwardsAt(v: nat, i: nat)
    requires i < |Backwards(v)|
    ensures |Backwards(v)| == |Decimal(v)|
    ensures Backwards(v)[i] == Decimal(v)[|Decimal(v)| - 1 - i]
    decreases v
  {
    if v >= 10 {
      BackwardsAt(v / 10, if i == 0 then 0 else i - 1);
    }
  }

  function Pow10(k: nat): (p: nat)
    ensures p > 0
  {
    if k == 0 then 1 else 10 * Pow10(k - 1)
  }

  lemma {:induction false} BackwardsLength(v: nat, k: nat)
    requires k > 0 && v < Pow10(k)
    ensures |Backwards(v)| <= k
    decreases v
  {
    if v >= 10 {
      assert v < 10 * Pow10(k - 1);
      BackwardsLength(v / 10, k - 1);
    }
  }

  lemma {:induction false} DecimalLength(v: nat)
    requires v <= UINT64_MAX
    ensures |Backwards(v)| <= 20
  {
    assert Pow10(4) == 10000;
    assert Pow10(8) == 100000000 by { assert Pow10(6) == 1000000; }
    assert Pow10(12) == 1000000000000 by { assert Pow10(10) == 10000000000; }
    assert Pow10(16) == 10000000000000000 by { assert Pow10(14) == 100000000000000; }
    assert Pow10(20) == 100000000000000000000 by { assert Pow10(18) == 1000000000000000000; }
    BackwardsLength(v, 20);
  }

  /** Reverses the first `n` characters in place. */
  method Reverse(str: array<char>, n: nat)
    requires 0 < n <= str.Length
    modifies str
    ensures forall k :: 0 <= k < n ==> str[k] == old(str[n - 1 - k])
    ensures forall k :: n <= k < str.Length ==> str[k] == old(str[k])
  {
    var start, end := 0, n - 1;
    while start < end
      invariant 0 <= start && end == n - 1 - start && start <= end + 1
      invariant forall k :: 0 <= k < start ==> str[k] == old(str[n - 1 - k])
      invariant forall k :: end < k < n ==> str[k] == old(str[n - 1 - k])
      invariant forall k :: start <= k <= end || n <= k < str.Length ==> str[k] == old(str[k])
    {
      str[start], str[end] := str[end], str[start];
      start, end := start + 1, end - 1;
    }
  }

  /** The digits still to be written when `v` is left. */
  function Left(v: nat): (s: string)
  {
    if v == 0 then "" else Backwards(v)
  }

  lemma {:induction false} LeftStep(v: nat, next: nat)
    requires next == v / 10
    ensures Backwards(v) == [DigitOf(v % 10)] + Left(next)
    ensures v > 0 ==> next < v
  {
  }

  /** Writes the digits of `value` into `str`, last first. */
  method PutDigits(value: nat, str: array<char>) returns (n: nat)
    requires value <= UINT64_MAX && str.Length >= 21
    modifies str
    ensures n == |Backwards(value)| <= 20 && str[..n] == Backwards(value)
  {
    DecimalLength(value);
    LeftStep(value, value / 10);
    str[0] := DigitOf(value % 10);
    n := 1;
    var v: nat := value / 10;
    while v != 0
      invariant 1 <= n <= |Backwards(value)|
      invariant Backwards(value) == str[..n] + Left(v)
      decreases v
    {
      n, v := PutDigit(v, str, n);
    }
  }

  method PutDigit(v: nat, str: array<char>, n: nat) returns (more: nat, next: nat)
    requires v > 0 && n < str.Length
    modifies str
    ensures more == n + 1 && next < v && str[..more] + Left(next) == old(str[..n]) + Left(v)
  {
    next := v / 10;
    LeftStep(v, next);
    str[n] := DigitOf(v % 10);
    more := n + 1;
    assert str[..more] == old(str[..n]) + [DigitOf(v % 10)];
  }

  /** Writes `value` in decimal, terminated. */
  method U64ToA(value: nat, str: array<char>) returns (n: nat)
    requires value <= UINT64_MAX && str.Length >= 21
    modifies str
    ensures n == |Decimal(value)| <= 20 && str[..n] == Decimal(value) && str[n] == '\0'
  {
    n := PutDigits(value, str);
    str[n] := '\0';
    ghost var back := str[..n];
    BackwardsAt(value, 0);
    Reverse(str, n);
    forall k | 0 <= k < n ensures str[k] == Decimal(value)[k] {
      BackwardsAt(value, n - 1 - k);
      assert back[n - 1 - k] == Backwards(value)[n - 1 - k];
    }
  }

  /** As much of a text as fits, with its terminator. */
  function Cut(text: string, capacity: nat): (s: string)
    requires capacity > 0
  {
    if |text| < capacity then text else text[..capacity - 1]
  }

  /** Appends the terminated text in `digits`, as much of it as fits. */
  method AppendDigits(sign: string, digits: array<char>, n: nat, capacity: nat)
      returns (buffer: string)
    requires |sign| < capacity && n < digits.Length
    requires AllDigits(digits[..n]) && digits[n] == '\0'
    ensures buffer == Cut(sign + digits[..n], capacity)
  {
    buffer := sign;
    var i := 0;
    while digits[i] != '\0' && |buffer| + 1 < capacity
      invariant i <= n && buffer == sign + digits[..i] && |buffer| < capacity
      decreases n - i
    {
      buffer := buffer + [digits[i]];
      i := i + 1;
    }
    if i < n {
      assert IsDigit(digits[..n][i]);
      assert digits[..i] == digits[..n][..i];
    }
  }

  /** The text of `value`, as much of it as fits. */
  method FormatInteger(capacity: nat, value: int) returns (buffer: string)
    requires capacity > 0 && InRange(value)
    ensures buffer == Cut(Numeral(value), capacity)
  {
    var magnitude := if value < 0 then -(value + 1) + 1 else value;
    var digits := new char[21];
    var n := U64ToA(magnitude, digits);
    DecimalDigits(magnitude);
    var sign := if value < 0 && 1 < capacity then "-" else "";
    buffer := AppendDigits(sign, digits, n, capacity);
    assert "" + Decimal(magnitude) == Decimal(magnitude);
  }
}
