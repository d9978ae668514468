/** Text utilities shared by the codec and the header parsing: prefix test,
    search, a reversible field encoding and decimal numerals. */
module Text {
  import opened Wrappers

  predicate StartsWith(s: string, prefix: string) {
    |prefix| <= |s| && s[..|prefix|] == prefix
  }

  /** Index of the first occurrence of `x` in `xs`. */
  function FirstIndex<T(==)>(xs: seq<T>, x: T): (r: Option<nat>)
    ensures r.Some? ==> r.value < |xs| && xs[r.value] == x && x !in xs[..r.value]
    ensures r.None? <==> x !in xs
  {
    if xs == [] then None
    else if xs[0] == x then Some(0)
    else match FirstIndex(xs[1..], x)
      case None => None
      case Some(i) =>
        assert xs[..i + 1] == [xs[0]] + xs[1..][..i];
        Some(i + 1)
  }

  lemma {:induction false} FirstIndexAfter<T>(a: seq<T>, x: T, b: seq<T>)
    requires x !in a
    ensures FirstIndex(a + [x] + b, x) == Some(|a|)
  {
    if a != [] {
      assert (a + [x] + b)[1..] == a[1..] + [x] + b;
      FirstIndexAfter(a[1..], x, b);
    }
  }

  // ---------------------------------------------------------------------
  // Fields: a string escaped so that it holds no ';' and no '.', then
  // terminated by ';'. A field therefore ends at the first ';'.

  function EscapeChar(c: char): string {
    if c == '\\' then ['\\', '\\']
    else if c == ';' then ['\\', 's']
    else if c == '.' then ['\\', 'd']
    else [c]
  }

  function Escape(s: string): (r: string)
    ensures ';' !in r && '.' !in r
  {
    if s == [] then [] else EscapeChar(s[0]) + Escape(s[1..])
  }

  function UnescapeChar(c: char): Option<char> {
    if c == '\\' then Some('\\')
    else if c == 's' then Some(';')
    else if c == 'd' then Some('.')
    else None
  }

  function Unescape(t: string): Option<string>
    decreases |t|
  {
    if t == [] then Some([])
    else if t[0] == '\\' then
      if |t| < 2 then None
      else
        var c :- UnescapeChar(t[1]);
        var rest :- Unescape(t[2..]);
        Some([c] + rest)
    else if t[0] == ';' || t[0] == '.' then None
    else
      var rest :- Unescape(t[1..]);
      Some([t[0]] + rest)
  }

  lemma {:induction false} UnescapeEscape(s: string)
    ensures Unescape(Escape(s)) == Some(s)
  {
    if s != [] {
      var e, tail := EscapeChar(s[0]), Escape(s[1..]);
      UnescapeEscape(s[1..]);
      assert Escape(s) == e + tail;
      if |e| == 2 {
        var t := e + tail;
        assert t[0] == '\\' && UnescapeChar(t[1]) == Some(s[0]);
        assert t[2..] == tail;
      } else {
        assert (e + tail)[1..] == tail;
      }
      assert [s[0]] + s[1..] == s;
    }
  }

  function Field(s: string): (r: string)
    ensures '.' !in r
  {
    Escape(s) + [';']
  }

  /** Reads one field off the front of `t`: its unescaped content and the rest. */
  function ReadField(t: string): (r: Option<(string, string)>)
    ensures r.Some? ==> |r.value.1| < |t|
  {
    match FirstIndex(t, ';')
    case None => None
    case Some(i) =>
      var v :- Unescape(t[..i]);
      Some((v, t[i + 1..]))
  }

  lemma ReadFieldOfField(s: string, rest: string)
    ensures ReadField(Field(s) + rest) == Some((s, rest))
  {
    var e := Escape(s);
    assert Field(s) + rest == e + [';'] + rest;
    FirstIndexAfter(e, ';', rest);
    assert (e + [';'] + rest)[..|e|] == e;
    assert (e + [';'] + rest)[|e| + 1..] == rest;
    UnescapeEscape(s);
  }

  // ---------------------------------------------------------------------
  // Decimal numerals, as Java's Long.toString writes them.

  predicate IsDigit(c: char) { '0' as int <= c as int <= '9' as int }

  function DigitChar(d: nat): (c: char)
    requires d < 10
    ensures IsDigit(c) && c as int - '0' as int == d
  {
    ('0' as int + d) as char
  }

  function NatToDecimal(n: nat): (r: string)
    ensures |r| > 0 && forall i | 0 <= i < |r| :: IsDigit(r[i])
  {
    if n < 10 then [DigitChar(n)] else NatToDecimal(n / 10) + [DigitChar(n % 10)]
  }

  /** The value of a non-empty string of digits. */
  function DigitsValue(s: string): nat
    requires |s| > 0 && forall i | 0 <= i < |s| :: IsDigit(s[i])
  {
    assert IsDigit(s[|s| - 1]);
    var d := s[|s| - 1] as int - '0' as int;
    if |s| == 1 then d else DigitsValue(s[..|s| - 1]) * 10 + d
  }

  function DecimalToNat(s: string): (r: Option<nat>)
    ensures r.Some? <==> |s| > 0 && forall i | 0 <= i < |s| :: IsDigit(s[i])
  {
    if |s| > 0 && forall i | 0 <= i < |s| :: IsDigit(s[i]) then Some(DigitsValue(s)) else None
  }

  lemma {:induction false} DecimalRoundTrip(n: nat)
    ensures DecimalToNat(NatToDecimal(n)) == Some(n)
  {
    if n >= 10 {
      var p := NatToDecimal(n / 10);
      DecimalRoundTrip(n / 10);
      assert (p + [DigitChar(n % 10)])[..|p|] == p;
    }
  }

  function IntToDecimal(n: int): (r: string)
    ensures '.' !in r
  {
    if n < 0 then ['-'] + NatToDecimal(-n) else NatToDecimal(n)
  }

  function DecimalToInt(s: string): Option<int> {
    if |s| > 0 && s[0] == '-' then
      var v :- DecimalToNat(s[1..]);
      Some(-(v as int))
    else
      var v :- DecimalToNat(s);
      Some(v as int)
  }

  lemma IntDecimalRoundTrip(n: int)
    ensures DecimalToInt(IntToDecimal(n)) == Some(n)
  {
    if n < 0 {
      assert (['-'] + NatToDecimal(-n))[1..] == NatToDecimal(-n);
      DecimalRoundTrip(-n);
    } else {
      assert IsDigit(NatToDecimal(n)[0]);
      DecimalRoundTrip(n);
    }
  }
}
