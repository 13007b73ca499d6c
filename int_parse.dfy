/** Conversion between a query-string value and an integer, as the
    lookup's `int(id)` does it for ASCII digits: surrounding white space is
    ignored, one optional sign, then decimal digits in which single
    underscores may separate two digits. `ShowInt`, the decimal rendering
    of an integer, is the partner the round trip is proved against. */
module IntParse {
  import opened Wrappers

  /** The characters Python's string-to-integer conversion skips around
      the number. Characters below code point 127 reach its parser
      unchanged, and the parser skips only tab, line feed, vertical tab,
      form feed, carriage return and space among them; so the information
      separators U+001C to U+001F are not skipped, although Unicode counts
      them as white space. From code point 127 up, every Unicode
      white-space character is turned into a space first. */
  predicate IsSpace(c: char) {
    || ('\t' <= c <= '\r')
    || c == ' ' || c == '\U{85}' || c == '\U{A0}' || c == '\U{1680}'
    || ('\U{2000}' <= c <= '\U{200A}')
    || c == '\U{2028}' || c == '\U{2029}' || c == '\U{202F}' || c == '\U{205F}'
    || c == '\U{3000}'
  }

  predicate IsDigit(c: char) {
    '0' <= c <= '9'
  }

  function DigitValue(c: char): (d: nat)
    requires IsDigit(c)
    ensures d < 10
  {
    (c as int) - ('0' as int)
  }

  function DigitChar(d: nat): (c: char)
    requires d < 10
    ensures IsDigit(c) && DigitValue(c) == d
  {
    (('0' as int) + d) as char
  }

  /** Drops the leading white space. */
  function TrimStart(s: string): (r: string)
    ensures |r| <= |s| && r == s[|s| - |r|..]
    ensures r == [] || !IsSpace(r[0])
    ensures forall i :: 0 <= i < |s| - |r| ==> IsSpace(s[i])
  {
    if s != [] && IsSpace(s[0]) then TrimStart(s[1..]) else s
  }

  /** Drops the trailing white space. */
  function TrimEnd(s: string): (r: string)
    ensures |r| <= |s| && r == s[..|r|]
    ensures r == [] || !IsSpace(r[|r| - 1])
    ensures forall i :: |r| <= i < |s| ==> IsSpace(s[i])
  {
    if s != [] && IsSpace(s[|s| - 1]) then TrimEnd(s[..|s| - 1]) else s
  }

  predicate DigitsOrUnderscores(d: string) {
    forall i :: 0 <= i < |d| ==> IsDigit(d[i]) || d[i] == '_'
  }

  /** A digit run: starts and ends with a digit, and never has two
      underscores in a row. */
  predicate WellFormedDigits(d: string) {
    && |d| > 0
    && IsDigit(d[0])
    && IsDigit(d[|d| - 1])
    && DigitsOrUnderscores(d)
    && forall i :: 0 <= i < |d| - 1 ==> !(d[i] == '_' && d[i + 1] == '_')
  }

  /** The value of a digit run read in base ten, underscores skipped. */
  function DigitsValue(d: string): nat
    requires DigitsOrUnderscores(d)
  {
    if d == [] then 0
    else if d[|d| - 1] == '_' then DigitsValue(d[..|d| - 1])
    else DigitsValue(d[..|d| - 1]) * 10 + DigitValue(d[|d| - 1])
  }

  function ParseUnsigned(d: string): Option<nat> {
    if WellFormedDigits(d) then Some(DigitsValue(d)) else None
  }

  function ParseSigned(t: string): Option<int> {
    if |t| > 0 && t[0] == '-' then
      match ParseUnsigned(t[1..])
      case Some(v) => Some(-(v as int))
      case None => None
    else if |t| > 0 && t[0] == '+' then
      match ParseUnsigned(t[1..])
      case Some(v) => Some(v)
      case None => None
    else
      match ParseUnsigned(t)
      case Some(v) => Some(v)
      case None => None
  }

  /** The conversion `int(id)`: `None` stands for the ValueError it raises.
      Anything it accepts holds at least one digit, so in particular the
      empty string is refused. */
  function ParseInt(s: string): (r: Option<int>)
    ensures r.Some? ==> exists i :: 0 <= i < |s| && IsDigit(s[i])
  {
    var t := TrimEnd(TrimStart(s));
    var r := ParseSigned(t);
    if r.Some? then
      var k := if t[0] == '-' || t[0] == '+' then 1 else 0;
      assert IsDigit(t[k]);
      assert IsDigit(s[|s| - |TrimStart(s)| + k]);
      r
    else r
  }

  /** Decimal rendering of a natural number, most significant digit first,
      without leading zeros. */
  function ShowNat(n: nat): (r: string)
    ensures |r| > 0 && forall i :: 0 <= i < |r| ==> IsDigit(r[i])
    ensures r[0] != '0' || n == 0
  {
    if n < 10 then [DigitChar(n)] else ShowNat(n / 10) + [DigitChar(n % 10)]
  }

  /** Decimal rendering of an integer, as `str(n)`. */
  function ShowInt(n: int): string {
    if n < 0 then "-" + ShowNat(-n) else ShowNat(n)
  }

  lemma {:induction false} DigitsValueShowNat(n: nat)
    ensures DigitsOrUnderscores(ShowNat(n)) && DigitsValue(ShowNat(n)) == n
  {
    if n >= 10 {
      DigitsValueShowNat(n / 10);
      var s := ShowNat(n);
      assert s[..|s| - 1] == ShowNat(n / 10);
    }
  }

  lemma ShowNatParses(n: nat)
    ensures ParseUnsigned(ShowNat(n)) == Some(n)
  {
    DigitsValueShowNat(n);
  }

  /** An information separator (U+001C to U+001F) in front is not
      padding, so the conversion refuses the string whatever follows. */
  lemma SeparatorIsNotPadding(c: char, rest: string)
    requires '\U{1C}' <= c <= '\U{1F}'
    ensures ParseInt([c] + rest) == None
  {
    var s := [c] + rest;
    assert !IsSpace(s[0]);
    assert TrimStart(s) == s;
    var t := TrimEnd(s);
    assert |t| > 0 by {
      assert !IsSpace(s[0]);
    }
    assert t[0] == c;
    assert !IsDigit(t[0]) && t[0] != '-' && t[0] != '+';
    assert !WellFormedDigits(t);
    assert ParseSigned(t) == None;
  }

  /** Reading back the decimal rendering of any integer gives that integer. */
  lemma ParseShowRoundTrip(n: int)
    ensures ParseInt(ShowInt(n)) == Some(n)
  {
    var s := ShowInt(n);
    assert ParseSigned(s) == Some(n) by {
      if n < 0 {
        ShowNatParses(-n);
        assert s[0] == '-' && s[1..] == ShowNat(-n);
      } else {
        ShowNatParses(n);
        assert IsDigit(s[0]);
      }
    }
    assert !IsSpace(s[0]) && !IsSpace(s[|s| - 1]);
    ParseIgnoresPadding("", s, "");
    assert "" + s + "" == s;
  }

  lemma {:induction false} TrimStartSkipsSpaces(before: string, t: string)
    requires forall i :: 0 <= i < |before| ==> IsSpace(before[i])
    requires t == [] || !IsSpace(t[0])
    ensures TrimStart(before + t) == t
  {
    if before != [] {
      assert (before + t)[1..] == before[1..] + t;
      TrimStartSkipsSpaces(before[1..], t);
    } else {
      assert before + t == t;
    }
  }

  lemma {:induction false} TrimEndSkipsSpaces(t: string, after: string)
    requires forall i :: 0 <= i < |after| ==> IsSpace(after[i])
    requires t == [] || !IsSpace(t[|t| - 1])
    ensures TrimEnd(t + after) == t
  {
    if after != [] {
      var s := t + after;
      assert s[..|s| - 1] == t + after[..|after| - 1];
      TrimEndSkipsSpaces(t, after[..|after| - 1]);
    } else {
      assert t + after == t;
    }
  }

  /** White space around the value does not change what it parses to. */
  lemma ParseIgnoresPadding(before: string, t: string, after: string)
    requires forall i :: 0 <= i < |before| ==> IsSpace(before[i])
    requires forall i :: 0 <= i < |after| ==> IsSpace(after[i])
    requires t != [] && !IsSpace(t[0]) && !IsSpace(t[|t| - 1])
    ensures ParseInt(before + t + after) == ParseSigned(t)
  {
    assert before + t + after == before + (t + after);
    TrimStartSkipsSpaces(before, t + after);
    TrimEndSkipsSpaces(t, after);
  }
}
