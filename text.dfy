/** The few Python `str` operations the scorers apply to parsed fields:
    `strip()`, `split()`, `split(sep)`, `lower()`, `replace(a, b)`, `startswith`,
    the substring test `sub in s`, `int(s)`, `int(float(s))` and `str(n)`.
    Characters are compared by code point; `lower()` folds ASCII letters only. */
module Text {

  import opened Wrappers

  /** Whitespace as Python 2 `str.split()` and `str.strip()` see it. */
  predicate IsSpace(c: char) {
    c == ' ' || c == '\t' || c == '\n' || c == '\r' || c as int == 11 || c as int == 12
  }

  predicate AllSpace(s: string) {
    forall i :: 0 <= i < |s| ==> IsSpace(s[i])
  }

  predicate NoSpace(s: string) {
    forall i :: 0 <= i < |s| ==> !IsSpace(s[i])
  }

  /** Number of leading whitespace characters. */
  function LeadingSpaces(s: string): (n: nat)
    ensures n <= |s| && AllSpace(s[..n])
    ensures n < |s| ==> !IsSpace(s[n])
  {
    if |s| == 0 || !IsSpace(s[0]) then 0
    else
      var k := LeadingSpaces(s[1..]);
      assert forall i :: 1 <= i < k + 1 ==> s[i] == s[1..][i - 1];
      1 + k
  }

  /** Length of `s` with its trailing whitespace removed. */
  function TrailingEnd(s: string): (n: nat)
    ensures n <= |s| && AllSpace(s[n..])
    ensures n > 0 ==> !IsSpace(s[n - 1])
  {
    if |s| == 0 || !IsSpace(s[|s| - 1]) then |s|
    else
      var k := TrailingEnd(s[..|s| - 1]);
      assert forall i :: k <= i < |s| - 1 ==> s[i] == s[..|s| - 1][i];
      k
  }

  /** Python `s.strip()`. */
  function Strip(s: string): (r: string)
    ensures |r| <= |s|
  {
    var a := LeadingSpaces(s);
    if a == |s| then []
    else s[a..TrailingEnd(s)]
  }

  /** `s` is whitespace, then `strip(s)`, then whitespace; the result is
      empty iff `s` is all whitespace, and otherwise neither starts nor
      ends with whitespace. */
  lemma StripMeaning(s: string)
    ensures Strip(s) == [] <==> AllSpace(s)
    ensures Strip(s) != [] ==> !IsSpace(Strip(s)[0]) && !IsSpace(Strip(s)[|Strip(s)| - 1])
    ensures exists a :: (0 <= a <= |s| - |Strip(s)| && s[a..a + |Strip(s)|] == Strip(s)
                         && AllSpace(s[..a]) && AllSpace(s[a + |Strip(s)|..]))
  {
    var a := LeadingSpaces(s);
    if a == |s| {
      assert s[0..0] == [] && s[..0] == [] && s[0..] == s[..a];
    } else {
      var b := TrailingEnd(s);
      assert forall i :: b <= i < |s| ==> IsSpace(s[i]) by {
        forall i | b <= i < |s| ensures IsSpace(s[i]) { assert s[i] == s[b..][i - b]; }
      }
      assert a < b;
      var r := s[a..b];
      assert Strip(s) == r;
      assert s[a..a + |r|] == r && s[a + |r|..] == s[b..];
    }
  }

  /** Index of the first whitespace character of `s`, or `|s|`. */
  function TokenEnd(s: string): (k: nat)
    ensures k <= |s| && NoSpace(s[..k])
    ensures k < |s| ==> IsSpace(s[k])
  {
    if |s| == 0 || IsSpace(s[0]) then 0
    else
      var k := TokenEnd(s[1..]);
      assert forall i :: 1 <= i < k + 1 ==> s[i] == s[1..][i - 1];
      1 + k
  }

  function Concat(ss: seq<string>): string {
    if |ss| == 0 then [] else ss[0] + Concat(ss[1..])
  }

  /** The characters of `s` that are not whitespace, in order. */
  function RemoveSpaces(s: string): string {
    if |s| == 0 then []
    else if IsSpace(s[0]) then RemoveSpaces(s[1..])
    else [s[0]] + RemoveSpaces(s[1..])
  }

  lemma {:induction false} RemoveSpacesAppend(a: string, b: string)
    ensures RemoveSpaces(a + b) == RemoveSpaces(a) + RemoveSpaces(b)
  {
    if |a| > 0 {
      assert (a + b)[1..] == a[1..] + b;
      RemoveSpacesAppend(a[1..], b);
    } else {
      assert a + b == b;
    }
  }

  lemma {:induction false} RemoveSpacesOfAllSpace(s: string)
    requires AllSpace(s)
    ensures RemoveSpaces(s) == []
  {
    if |s| > 0 { RemoveSpacesOfAllSpace(s[1..]); }
  }

  lemma {:induction false} RemoveSpacesOfNoSpace(s: string)
    requires NoSpace(s)
    ensures RemoveSpaces(s) == s
  {
    if |s| > 0 { RemoveSpacesOfNoSpace(s[1..]); }
  }

  /** When `s` starts with `k` non-whitespace characters, those characters
      are where its non-whitespace characters begin. */
  lemma RemoveSpacesToken(s: string, k: nat)
    requires k <= |s| && NoSpace(s[..k])
    ensures RemoveSpaces(s) == s[..k] + RemoveSpaces(s[k..])
  {
    assert s == s[..k] + s[k..];
    RemoveSpacesAppend(s[..k], s[k..]);
    RemoveSpacesOfNoSpace(s[..k]);
  }

  /** Python `s.split()` with no separator: the maximal runs of
      non-whitespace characters.  Every token is non-empty and has no
      whitespace, and the tokens put back together are exactly the
      non-whitespace characters of `s`. */
  function SplitWhitespace(s: string): (r: seq<string>)
    ensures forall i :: 0 <= i < |r| ==> r[i] != [] && NoSpace(r[i])
    ensures Concat(r) == RemoveSpaces(s)
    ensures r == [] <==> AllSpace(s)
    decreases |s|
  {
    if |s| == 0 then []
    else if IsSpace(s[0]) then
      var r := SplitWhitespace(s[1..]);
      assert AllSpace(s) <==> AllSpace(s[1..]) by {
        assert forall i :: 1 <= i < |s| ==> s[i] == s[1..][i - 1];
      }
      r
    else
      var k := TokenEnd(s);
      var rest := SplitWhitespace(s[k..]);
      RemoveSpacesToken(s, k);
      var r := [s[..k]] + rest;
      assert r[1..] == rest;
      r
  }

  /** Python `s.split(sep)` with an explicit one-character separator:
      always at least one piece, no piece contains `sep`, and joining the
      pieces with `sep` gives `s` back. */
  function SplitOn(s: string, sep: char): (r: seq<string>)
    ensures |r| >= 1
    ensures forall i :: 0 <= i < |r| ==> sep !in r[i]
    ensures Join(r, sep) == s
  {
    if |s| == 0 then [[]]
    else
      var rest := SplitOn(s[1..], sep);
      if s[0] == sep then
        assert ([[]] + rest)[1..] == rest;
        [[]] + rest
      else
        var r := [[s[0]] + rest[0]] + rest[1..];
        assert r[1..] == rest[1..];
        assert Join(r, sep) == [s[0]] + Join(rest, sep) by {
          if |rest| > 1 {
            assert Join(r, sep) == ([s[0]] + rest[0]) + [sep] + Join(rest[1..], sep);
          }
        }
        r
  }

  /** Inverse of `SplitOn`: the pieces separated by `sep`. */
  function Join(ss: seq<string>, sep: char): string
    requires |ss| >= 1
  {
    if |ss| == 1 then ss[0] else ss[0] + [sep] + Join(ss[1..], sep)
  }

  /** Splitting the join of separator-free pieces gives the pieces back. */
  lemma {:induction false} SplitJoin(ss: seq<string>, sep: char)
    requires |ss| >= 1
    requires forall i :: 0 <= i < |ss| ==> sep !in ss[i]
    ensures SplitOn(Join(ss, sep), sep) == ss
  {
    if |ss| == 1 {
      SplitNoSep(ss[0], sep);
    } else {
      SplitJoin(ss[1..], sep);
      SplitAfterPiece(ss[0], Join(ss[1..], sep), sep);
      assert [ss[0]] + ss[1..] == ss;
    }
  }

  lemma {:induction false} SplitNoSep(s: string, sep: char)
    requires sep !in s
    ensures SplitOn(s, sep) == [s]
  {
    if |s| > 0 {
      assert sep !in s[1..] by { assert forall i :: 0 <= i < |s| - 1 ==> s[1..][i] == s[i + 1]; }
      SplitNoSep(s[1..], sep);
      assert [s[0]] + s[1..] == s;
    }
  }

  lemma {:induction false} SplitAfterPiece(p: string, rest: string, sep: char)
    requires sep !in p
    ensures SplitOn(p + [sep] + rest, sep) == [p] + SplitOn(rest, sep)
  {
    if |p| == 0 {
      assert p + [sep] + rest == [sep] + rest;
      assert ([sep] + rest)[1..] == rest;
    } else {
      assert (p + [sep] + rest)[1..] == p[1..] + [sep] + rest;
      assert sep !in p[1..] by { assert forall i :: 0 <= i < |p| - 1 ==> p[1..][i] == p[i + 1]; }
      SplitAfterPiece(p[1..], rest, sep);
      assert [p[0]] + p[1..] == p;
    }
  }

  function LowerChar(c: char): char {
    if 'A' <= c <= 'Z' then (c as int + 32) as char else c
  }

  /** Python `s.lower()` on ASCII letters. */
  function Lower(s: string): (r: string)
    ensures |r| == |s|
    ensures forall i :: 0 <= i < |s| ==> r[i] == LowerChar(s[i])
  {
    seq(|s|, i requires 0 <= i < |s| => LowerChar(s[i]))
  }

  /** Python `s.replace(from, to)` for one-character `old` and `new`. */
  function ReplaceChar(s: string, from: char, to: char): (r: string)
    ensures |r| == |s|
    ensures forall i :: 0 <= i < |s| ==> r[i] == (if s[i] == from then to else s[i])
  {
    seq(|s|, i requires 0 <= i < |s| => if s[i] == from then to else s[i])
  }

  predicate StartsWith(s: string, prefix: string) {
    |prefix| <= |s| && s[..|prefix|] == prefix
  }

  /** Python `sub in s` for strings. */
  predicate Contains(s: string, sub: string) {
    exists i | 0 <= i <= |s| - |sub| :: OccursAt(s, sub, i)
  }

  predicate OccursAt(s: string, sub: string, i: int) {
    0 <= i <= |s| - |sub| && s[i..i + |sub|] == sub
  }

  /** A text holds every piece of it: `sub in pre + sub + post`. */
  lemma ContainsInfix(pre: string, sub: string, post: string)
    ensures Contains(pre + sub + post, sub)
  {
    var s := pre + sub + post;
    assert s[|pre|..|pre| + |sub|] == sub;
    assert OccursAt(s, sub, |pre|);
  }

  predicate IsDigit(c: char) {
    '0' <= c <= '9'
  }

  predicate AllDigits(s: string) {
    forall i :: 0 <= i < |s| ==> IsDigit(s[i])
  }

  /** Value of a string of decimal digits, most significant first. */
  function DigitsValue(s: string): nat
    requires AllDigits(s)
  {
    if |s| == 0 then 0
    else
      assert IsDigit(s[|s| - 1]);
      10 * DigitsValue(s[..|s| - 1]) + (s[|s| - 1] as int - '0' as int)
  }

  /** Python `str(n)` for a natural number. */
  function NatToString(n: nat): (r: string)
    ensures |r| >= 1 && AllDigits(r)
    ensures DigitsValue(r) == n
  {
    var d := [(('0' as int) + n % 10) as char];
    if n < 10 then d
    else
      var p := NatToString(n / 10);
      var r := p + d;
      assert r[..|r| - 1] == p;
      r
  }

  /** Python `str(n)` for an integer. */
  function IntToString(n: int): (r: string)
    ensures |r| >= 1 && NoSpace(r)
    ensures n >= 0 ==> AllDigits(r)
    ensures n < 0 ==> r[0] == '-' && AllDigits(r[1..])
  {
    if n >= 0 then NatToString(n)
    else
      var p := NatToString(-n);
      assert ("-" + p)[1..] == p;
      "-" + p
  }

  /** An optionally signed run of digits, with no surrounding whitespace. */
  function ParseSigned(t: string): (r: Option<int>)
    ensures r.Some? ==> |t| >= 1
  {
    if |t| >= 1 && (t[0] == '-' || t[0] == '+') then
      var d := t[1..];
      if |d| >= 1 && AllDigits(d) then
        var v: int := DigitsValue(d);
        Some(if t[0] == '-' then -v else v)
      else None
    else if |t| >= 1 && AllDigits(t) then Some(DigitsValue(t) as int)
    else None
  }

  /** Python 2 `int(s)` on a base-10 string: surrounding whitespace, an
      optional sign, whitespace between the sign and the digits (Python 2's
      `strtol` skips it again after the sign), and at least one digit;
      `None` where `int` raises `ValueError`. */
  function PyInt(s: string): Option<int> {
    var t := Strip(s);
    if |t| >= 1 && (t[0] == '-' || t[0] == '+') then
      ParseSigned([t[0]] + t[1..][LeadingSpaces(t[1..])..])
    else ParseSigned(t)
  }

  lemma StripNoSpace(s: string)
    requires |s| >= 1 && NoSpace(s)
    ensures Strip(s) == s
  {
    assert LeadingSpaces(s) == 0;
    assert TrailingEnd(s) == |s|;
  }

  /** `int(str(n)) == n`. */
  lemma PyIntOfIntToString(n: int)
    ensures PyInt(IntToString(n)) == Some(n)
  {
    var s := IntToString(n);
    StripNoSpace(s);
    if n < 0 {
      assert s[1..] == NatToString(-n);
    }
  }

  /** Whitespace after the sign is skipped: `int("- 1") == -1` and
      `int("+ 7") == 7` in Python 2, for any run of whitespace. */
  lemma PyIntSpacedSign(sign: char, w: string, n: nat)
    requires sign == '-' || sign == '+'
    requires AllSpace(w)
    ensures PyInt([sign] + w + NatToString(n)) == Some(if sign == '-' then -(n as int) else n)
  {
    var d := NatToString(n);
    var s := [sign] + w + d;
    assert s[0] == sign && s[|s| - 1] == d[|d| - 1];
    assert Strip(s) == s by {
      assert LeadingSpaces(s) == 0;
      assert TrailingEnd(s) == |s|;
      assert s[0..|s|] == s;
    }
    assert s[1..] == w + d;
    LeadingSpacesOf(w, d);
    assert (w + d)[|w|..] == d;
  }

  lemma {:induction false} LeadingSpacesOf(w: string, d: string)
    requires AllSpace(w)
    requires |d| >= 1 && !IsSpace(d[0])
    ensures LeadingSpaces(w + d) == |w|
    decreases |w|
  {
    if |w| > 0 {
      assert (w + d)[1..] == w[1..] + d;
      LeadingSpacesOf(w[1..], d);
    } else {
      assert w + d == d;
    }
  }

  /** The concrete cases: `int("- 1") == -1` and `int("+ 7") == 7`. */
  lemma PyIntSpacedExamples()
    ensures PyInt("- 1") == Some(-1)
    ensures PyInt("+ 7") == Some(7)
    ensures PyInt("-") == None && PyInt("- ") == None
  {
    PyIntSpacedSign('-', " ", 1);
    assert NatToString(1) == "1";
    assert ['-'] + " " + "1" == "- 1";
    PyIntSpacedSign('+', " ", 7);
    assert NatToString(7) == "7";
    assert ['+'] + " " + "7" == "+ 7";
    assert Strip("- ") == "-" by {
      assert LeadingSpaces("- ") == 0;
      assert TrailingEnd("- ") == 1;
    }
  }

  /** Python `int(float(s))`: surrounding whitespace, an optional sign,
      digits with an optional fractional part (at least one digit in
      all), then an optional exponent `e` or `E` with an optional sign and
      at least one digit.  The result is the exact value truncated toward
      zero, as `int` truncates; `None` where `float` or `int` raises (the
      text is not a number, or it is `inf` or `nan`). */
  function PyIntOfFloat(s: string): (r: Option<int>) {
    var t := Strip(s);
    var neg := |t| >= 1 && t[0] == '-';
    var body := if |t| >= 1 && (t[0] == '-' || t[0] == '+') then t[1..] else t;
    match DecimalValue(body)
    case None => None
    case Some(v) => Some(if neg then -(v as int) else v as int)
  }

  /** Index of the first character of `s` that is in `cs`; `|s|` when none is. */
  function FirstIndex(s: string, cs: set<char>): (i: nat)
    ensures i <= |s|
  {
    if |s| == 0 || s[0] in cs then 0 else 1 + FirstIndex(s[1..], cs)
  }

  /** The truncated value of unsigned decimal notation with an optional
      exponent. */
  function DecimalValue(body: string): Option<nat> {
    var i := FirstIndex(body, {'e', 'E'});
    if i == |body| then MantissaValue(body, 0)
    else
      match ParseSigned(body[i + 1..])
      case None => None
      case Some(x) => MantissaValue(body[..i], x)
  }

  /** Digits with an optional fractional part, times `10^x`, truncated. */
  function MantissaValue(m: string, x: int): Option<nat> {
    var i := FirstIndex(m, {'.'});
    if i == |m| then
      if |m| >= 1 && AllDigits(m) then Some(Scaled(DigitsValue(m), x)) else None
    else
      var p := m[..i];
      var q := m[i + 1..];
      if AllDigits(p) && AllDigits(q) && |p| + |q| >= 1 then
        AllDigitsConcat(p, q);
        Some(Scaled(DigitsValue(p + q), x - |q|))
      else None
  }

  function Pow10(k: nat): (p: nat)
    ensures p >= 1
  {
    if k == 0 then 1 else 10 * Pow10(k - 1)
  }

  /** `d * 10^x`, truncated toward zero when `x` is negative. */
  function Scaled(d: nat, x: int): nat
    decreases if x >= 0 then x else -x
  {
    if x == 0 then d
    else if x > 0 then Scaled(10 * d, x - 1)
    else Scaled(d / 10, x + 1)
  }

  lemma AllDigitsConcat(a: string, b: string)
    requires AllDigits(a) && AllDigits(b)
    ensures AllDigits(a + b)
  {
    assert forall i :: |a| <= i < |a + b| ==> (a + b)[i] == b[i - |a|];
  }

  /** No character from `cs`: the index is the length. */
  lemma {:induction false} FirstIndexAbsent(s: string, cs: set<char>)
    requires forall j :: 0 <= j < |s| ==> s[j] !in cs
    ensures FirstIndex(s, cs) == |s|
  {
    if |s| > 0 {
      assert forall j :: 0 <= j < |s| - 1 ==> s[1..][j] == s[j + 1];
      FirstIndexAbsent(s[1..], cs);
    }
  }

  /** The first character from `cs` ends a prefix free of them. */
  lemma {:induction false} FirstIndexAfter(p: string, c: char, rest: string, cs: set<char>)
    requires forall j :: 0 <= j < |p| ==> p[j] !in cs
    requires c in cs
    ensures FirstIndex(p + [c] + rest, cs) == |p|
  {
    if |p| > 0 {
      assert (p + [c] + rest)[1..] == p[1..] + [c] + rest;
      assert forall j :: 0 <= j < |p| - 1 ==> p[1..][j] == p[j + 1];
      FirstIndexAfter(p[1..], c, rest, cs);
    }
  }

  /** Digits are not spaces, '.', 'e' or 'E'. */
  lemma {:induction false} DigitsFree(s: string)
    requires AllDigits(s)
    ensures NoSpace(s)
    ensures forall j :: 0 <= j < |s| ==> s[j] !in {'e', 'E'} && s[j] !in {'.'}
  {
  }

  /** A non-negative exponent multiplies by the power of ten. */
  lemma {:induction false} ScaledUp(d: nat, k: nat)
    ensures Scaled(d, k) == d * Pow10(k)
    decreases k
  {
    if k > 0 {
      ScaledUp(10 * d, k - 1);
      assert (10 * d) * Pow10(k - 1) == d * (10 * Pow10(k - 1));
    }
  }

  /** A negative exponent drops as many trailing digits of the value. */
  lemma {:induction false} ScaledDown(q: nat, r: nat, k: nat)
    requires r < Pow10(k)
    ensures Scaled(q * Pow10(k) + r, -(k as int)) == q
    decreases k
  {
    if k > 0 {
      var q' := q * Pow10(k - 1);
      assert q * Pow10(k) == 10 * q';
      assert (10 * q' + r) / 10 == q' + r / 10;
      ScaledDown(q, r / 10, k - 1);
    }
  }

  /** Digits have no exponent and no point, so DecimalValue reads them as they are. */
  lemma DigitsPlain(d: string)
    requires |d| >= 1 && AllDigits(d)
    ensures DecimalValue(d) == Some(DigitsValue(d))
  {
    DigitsFree(d);
    FirstIndexAbsent(d, {'e', 'E'});
    FirstIndexAbsent(d, {'.'});
  }

  /** Digits, 'e' and digits: the first digits scaled by the second. */
  lemma DecimalExponent(d: string, e: string)
    requires |d| >= 1 && AllDigits(d) && |e| >= 1 && AllDigits(e)
    ensures DecimalValue(d + "e" + e) == Some(Scaled(DigitsValue(d), DigitsValue(e)))
  {
    var body := d + "e" + e;
    DigitsFree(d);
    FirstIndexAfter(d, 'e', e, {'e', 'E'});
    assert body[|d| + 1..] == e;
    assert body[..|d|] == d;
    assert IsDigit(e[0]);
    FirstIndexAbsent(d, {'.'});
  }

  /** Without an 'e' or 'E' the text is a mantissa alone. */
  lemma NoExponent(body: string)
    requires forall j :: 0 <= j < |body| ==> body[j] !in {'e', 'E'}
    ensures DecimalValue(body) == MantissaValue(body, 0)
  {
    FirstIndexAbsent(body, {'e', 'E'});
  }

  /** Unsigned notation without whitespace: DecimalValue is the value. */
  lemma PyIntOfFloatPlain(body: string, v: nat)
    requires |body| >= 1 && body[0] != '-' && body[0] != '+' && NoSpace(body)
    requires DecimalValue(body) == Some(v)
    ensures PyIntOfFloat(body) == Some(v)
  {
    StripNoSpace(body);
  }

  /** A leading '-' negates the value of the rest. */
  lemma PyIntOfFloatMinus(body: string, v: nat)
    requires |body| >= 1 && NoSpace(body)
    requires DecimalValue(body) == Some(v)
    ensures PyIntOfFloat("-" + body) == Some(-(v as int))
  {
    MinusShape(body);
  }

  lemma MinusShape(body: string)
    requires NoSpace(body)
    ensures var s := "-" + body; Strip(s) == s && s[0] == '-' && s[1..] == body
  {
    var s := "-" + body;
    assert NoSpace(s) by {
      assert forall i :: 1 <= i < |s| ==> s[i] == body[i - 1];
    }
    StripNoSpace(s);
  }

  /** `int(float(str(n))) == n`: integers read back unchanged. */
  lemma PyIntOfFloatOfIntToString(n: int)
    ensures PyIntOfFloat(IntToString(n)) == Some(n)
  {
    var m: nat := if n < 0 then -n else n;
    var d := NatToString(m);
    DigitsPlain(d);
    DigitsFree(d);
    if n < 0 {
      assert IntToString(n) == "-" + d;
      PyIntOfFloatMinus(d, m);
    } else {
      assert IsDigit(d[0]);
      PyIntOfFloatPlain(d, m);
    }
  }

  /** Two digit runs around one character that is not a space: no space,
      a digit first, and any 'e', 'E' or '.' is that character. */
  lemma AroundShape(d: string, c: char, e: string)
    requires |d| >= 1 && AllDigits(d) && AllDigits(e) && !IsSpace(c)
    ensures var body := d + [c] + e; NoSpace(body) && IsDigit(body[0])
    ensures c !in {'e', 'E'} ==> forall j :: 0 <= j < |d + [c] + e| ==> (d + [c] + e)[j] !in {'e', 'E'}
  {
    var body := d + [c] + e;
    DigitsFree(d);
    DigitsFree(e);
    assert forall i :: 0 <= i < |d| ==> body[i] == d[i];
    assert forall i :: |d| + 1 <= i < |body| ==> body[i] == e[i - |d| - 1];
  }

  /** `int(float("<d>e<e>"))` is d times 10^e: exponent notation scales. */
  lemma PyIntOfFloatExponent(d: string, e: string)
    requires |d| >= 1 && AllDigits(d) && |e| >= 1 && AllDigits(e)
    ensures PyIntOfFloat(d + "e" + e) == Some(DigitsValue(d) * Pow10(DigitsValue(e)))
  {
    AroundShape(d, 'e', e);
    DecimalExponent(d, e);
    ScaledUp(DigitsValue(d), DigitsValue(e));
    PyIntOfFloatPlain(d + "e" + e, DigitsValue(d) * Pow10(DigitsValue(e)));
  }

  /** Appending digits shifts the value left by their count. */
  lemma {:induction false} DigitsAppend(a: string, b: string)
    requires AllDigits(a) && AllDigits(b)
    ensures AllDigits(a + b)
    ensures DigitsValue(a + b) == DigitsValue(a) * Pow10(|b|) + DigitsValue(b)
    decreases |b|
  {
    AllDigitsConcat(a, b);
    if |b| == 0 {
      assert a + b == a;
    } else {
      var b' := b[..|b| - 1];
      DigitsAppend(a, b');
      var c := b[|b| - 1] as int - '0' as int;
      assert (a + b)[..|a + b| - 1] == a + b';
      DigitsLast(a + b, a + b', c);
      DigitsLast(b, b', c);
      ShiftStep(DigitsValue(a), Pow10(|b'|), DigitsValue(b'), c);
    }
  }

  /** The value of a digit run is ten times that of all but its last digit, plus that digit. */
  lemma DigitsLast(s: string, init: string, c: int)
    requires AllDigits(s) && |s| >= 1 && s[..|s| - 1] == init && c == s[|s| - 1] as int - '0' as int
    ensures AllDigits(init) && DigitsValue(s) == 10 * DigitsValue(init) + c
  {
  }

  lemma ShiftStep(x: nat, p: nat, w: nat, c: int)
    ensures 10 * (x * p + w) + c == x * (10 * p) + (10 * w + c)
  {
  }

  /** A run of k digits is worth less than 10^k. */
  lemma {:induction false} DigitsBound(b: string)
    requires AllDigits(b)
    ensures DigitsValue(b) < Pow10(|b|)
    decreases |b|
  {
    if |b| > 0 {
      DigitsBound(b[..|b| - 1]);
      assert IsDigit(b[|b| - 1]);
    }
  }

  /** Dropping the last |f| digits of d + f leaves d. */
  lemma TruncateDigits(d: string, f: string)
    requires AllDigits(d) && AllDigits(f)
    ensures AllDigits(d + f) && Scaled(DigitsValue(d + f), 0 - |f|) == DigitsValue(d)
  {
    DigitsAppend(d, f);
    DigitsBound(f);
    ScaledDown(DigitsValue(d), DigitsValue(f), |f|);
  }

  /** The mantissa "<d>.<f>" is the digits of d and f together, shifted right by |f|. */
  lemma MantissaDigits(d: string, f: string)
    requires AllDigits(d) && AllDigits(f) && |d| + |f| >= 1
    ensures AllDigits(d + f) && MantissaValue(d + "." + f, 0) == Some(Scaled(DigitsValue(d + f), 0 - |f|))
  {
    FractionParts(d, f);
    AllDigitsConcat(d, f);
  }

  lemma FractionParts(d: string, f: string)
    requires AllDigits(d)
    ensures var m := d + "." + f; FirstIndex(m, {'.'}) == |d| && m[..|d|] == d && m[|d| + 1..] == f
  {
    var m := d + "." + f;
    DigitsFree(d);
    FirstIndexAfter(d, '.', f, {'.'});
    assert m[..|d|] == d;
    assert m[|d| + 1..] == f;
  }

  /** `int(float("<d>.<f>"))` is d: the fractional digits are truncated. */
  lemma PyIntOfFloatFraction(d: string, f: string)
    requires |d| >= 1 && AllDigits(d) && AllDigits(f)
    ensures PyIntOfFloat(d + "." + f) == Some(DigitsValue(d))
  {
    var body := d + "." + f;
    AroundShape(d, '.', f);
    NoExponent(body);
    MantissaDigits(d, f);
    TruncateDigits(d, f);
    PyIntOfFloatPlain(body, DigitsValue(d));
  }

  /** Python slicing `s[b:e]` with step 1, negative bounds counting from the end. */
  function PySlice(s: string, b: int, e: int): (r: string)
    ensures |r| <= |s|
    ensures 0 <= b <= e <= |s| ==> r == s[b..e]
  {
    var lo := if b < 0 then (if |s| + b < 0 then 0 else |s| + b) else (if b > |s| then |s| else b);
    var hi := if e < 0 then (if |s| + e < 0 then 0 else |s| + e) else (if e > |s| then |s| else e);
    if lo < hi then s[lo..hi] else []
  }
}
