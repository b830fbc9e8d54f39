/** How a row of a KBA 2014 SSF run file becomes slot-value text: the
    per-run configuration, the offset list, the begin/end bounds, the
    span cut from the document's clean_visible text, and the path of the
    stream item a stream id names (scorer2/ssf.py and scorer_2/profile.py
    apply the same rules). */
module Spans {
  import opened Wrappers
  import opened Text

  // ---------------------------------------------------------------------
  // Configurations

  /** The keyword arguments of profiles_from_runfile that a configuration
      may set. */
  datatype Config = Config(cPrepended: bool, inclusive: bool, decodeUtf: bool)

  /** A configs entry: the keywords it sets; the others keep their
      defaults. */
  datatype Overrides = Overrides(cPrepended: Option<bool>, inclusive: Option<bool>, decodeUtf: Option<bool>)

  const NoOverrides := Overrides(None, None, None)

  function OrDefault(o: Option<bool>, d: bool): bool {
    if o.Some? then o.value else d
  }

  /** The configuration profiles_from_runfile runs with: no 'c' prefix,
      inclusive offsets and no up-front decoding unless overridden. */
  function Effective(o: Overrides): Config {
    Config(OrDefault(o.cPrepended, false), OrDefault(o.inclusive, true), OrDefault(o.decodeUtf, false))
  }

  /** The configs table of scorer2/ssf.py, keyed by run file name. */
  function ScorerConfigByName(name: string): Overrides {
    if name == "BUPT_PRIS-ssf1.gz" || name == "BUPT_PRIS-ssf2.gz" then Overrides(None, Some(false), Some(true))
    else if name == "ecnu-ssf_run.gz" || name == "baseline-ssf.gz" || name == "baseline-ssf_oracle.gz" then
      Overrides(Some(true), Some(false), Some(true))
    else NoOverrides
  }

  /** The configs table of scorer_2/profile.py, keyed by run name. */
  function EarlyConfigByName(name: string): Overrides {
    if name == "BUPT_PRIS-ssf1" || name == "BUPT_PRIS-ssf2" then Overrides(None, Some(false), Some(true))
    else if name == "ecnu-ssf_run" then Overrides(Some(true), Some(false), Some(true))
    else NoOverrides
  }

  const ScorerConfigNames: set<string> :=
    {"BUPT_PRIS-ssf1.gz", "BUPT_PRIS-ssf2.gz", "ecnu-ssf_run.gz", "baseline-ssf.gz", "baseline-ssf_oracle.gz"}
  const CPrependedNames: set<string> := {"ecnu-ssf_run.gz", "baseline-ssf.gz", "baseline-ssf_oracle.gz"}

  /** An unknown run gets the defaults; every listed run uses exclusive
      offsets and decodes up front, and the three listed with the 'c'
      prefix are exactly those that set it. */
  lemma ScorerConfigMeaning(name: string)
    ensures name !in ScorerConfigNames ==> ScorerConfigByName(name) == NoOverrides
    ensures name !in ScorerConfigNames ==> Effective(ScorerConfigByName(name)) == Config(false, true, false)
    ensures name in ScorerConfigNames ==>
      Effective(ScorerConfigByName(name)) == Config(name in CPrependedNames, false, true)
  {
  }

  /** The earlier table is the later one's first three entries, named
      without '.gz'; the earlier scorer knows no other run. */
  lemma EarlyConfigsAgree(name: string)
    ensures name in {"BUPT_PRIS-ssf1", "BUPT_PRIS-ssf2", "ecnu-ssf_run"} ==>
      EarlyConfigByName(name) == ScorerConfigByName(name + ".gz")
    ensures name !in {"BUPT_PRIS-ssf1", "BUPT_PRIS-ssf2", "ecnu-ssf_run"} ==> EarlyConfigByName(name) == NoOverrides
  {
  }

  // ---------------------------------------------------------------------
  // Offsets and bounds

  /** Python `s[1:]`. */
  function DropFirst(s: string): (r: string)
    ensures |s| >= 1 ==> r == s[1..]
    ensures |s| == 0 ==> r == []
  {
    if |s| == 0 then [] else s[1..]
  }

  /** The offsets of a row: with the 'c' prefix the comma-separated items
      each without their first character, otherwise the one offset. */
  function OffsetList(offsetStr: string, cPrepended: bool): (r: seq<string>) {
    if cPrepended then
      var items := SplitOn(offsetStr, ',');
      seq(|items|, i requires 0 <= i < |items| => DropFirst(items[i]))
    else [offsetStr]
  }

  lemma OffsetListMeaning(offsetStr: string, cPrepended: bool)
    ensures |OffsetList(offsetStr, cPrepended)| >= 1
    ensures !cPrepended ==> OffsetList(offsetStr, cPrepended) == [offsetStr]
    ensures cPrepended ==> |OffsetList(offsetStr, cPrepended)| == |SplitOn(offsetStr, ',')|
    ensures cPrepended ==> forall i :: 0 <= i < |SplitOn(offsetStr, ',')| ==>
      OffsetList(offsetStr, cPrepended)[i] == DropFirst(SplitOn(offsetStr, ',')[i])
  {
  }

  /** What makes a row's offsets unusable: `int()` refusing a piece, an
      offset without a second piece, or a single offset that is not two
      pieces. */
  datatype SpanError = BadOffset

  /** The `int()` of every piece of a single offset, before unpacking. */
  function ParseAll(pieces: seq<string>): Option<seq<int>> {
    if pieces == [] then Some([])
    else
      match PyInt(pieces[0])
      case None => None
      case Some(v) =>
        match ParseAll(pieces[1..])
        case None => None
        case Some(vs) => Some([v] + vs)
  }

  /** Every piece parses and the values are theirs, or some piece does
      not parse. */
  lemma {:induction false} ParseAllMeaning(pieces: seq<string>)
    ensures ParseAll(pieces).Some? ==> (|ParseAll(pieces).value| == |pieces|
      && forall i :: 0 <= i < |pieces| ==> PyInt(pieces[i]) == Some(ParseAll(pieces).value[i]))
    ensures ParseAll(pieces).None? <==> exists i :: 0 <= i < |pieces| && PyInt(pieces[i]).None?
  {
    if pieces != [] {
      ParseAllMeaning(pieces[1..]);
      assert forall i :: 1 <= i < |pieces| ==> pieces[i] == pieces[1..][i - 1];
      if ParseAll(pieces[1..]).None? {
        var i :| 0 <= i < |pieces[1..]| && PyInt(pieces[1..][i]).None?;
        assert PyInt(pieces[i + 1]).None?;
      }
      if ParseAll(pieces).Some? {
        var vs := ParseAll(pieces).value;
        assert vs[1..] == ParseAll(pieces[1..]).value;
        assert forall i :: 1 <= i < |pieces| ==> vs[i] == vs[1..][i - 1];
      }
    }
  }

  /** begin and end as the row gives them: from the first and the last of
      several offsets, or from the one offset; then end one further for
      inclusive offsets. */
  function Bounds(offsets: seq<string>, inclusive: bool): Result<(int, int), SpanError>
    requires |offsets| >= 1
  {
    Adjusted(RawBounds(offsets), inclusive)
  }

  /** end one further for inclusive offsets. */
  function Adjusted(raw: Result<(int, int), SpanError>, inclusive: bool): Result<(int, int), SpanError> {
    match raw
    case Failure(err) => Failure(err)
    case Success((b, e)) => Success((b, if inclusive then e + 1 else e))
  }

  /** begin and end before the inclusive adjustment. */
  function RawBounds(offsets: seq<string>): Result<(int, int), SpanError>
    requires |offsets| >= 1
  {
    if |offsets| > 1 then OuterBounds(offsets[0], offsets[|offsets| - 1]) else SingleBounds(offsets[0])
  }

  /** Several offsets: begin is the first piece of the first one, end the
      second piece of the last one. */
  function OuterBounds(first: string, last: string): Result<(int, int), SpanError> {
    var f := SplitOn(first, '-');
    var l := SplitOn(last, '-');
    match PyInt(f[0])
    case None => Failure(BadOffset)
    case Some(b) =>
      if |l| < 2 then Failure(BadOffset)
      else
        match PyInt(l[1])
        case None => Failure(BadOffset)
        case Some(e) => Success((b, e))
  }

  /** One offset: exactly two pieces, both integers. */
  function SingleBounds(o: string): Result<(int, int), SpanError> {
    match ParseAll(SplitOn(o, '-'))
    case None => Failure(BadOffset)
    case Some(vs) => if |vs| != 2 then Failure(BadOffset) else Success((vs[0], vs[1]))
  }

  /** A written-back single offset "b-e" of non-negative bounds reads
      back, with end moved one further when inclusive. */
  lemma BoundsOfSingle(b: nat, e: nat, inclusive: bool)
    ensures Bounds([IntToString(b) + "-" + IntToString(e)], inclusive) == Success((b, if inclusive then e + 1 else e))
  {
    var sb := IntToString(b);
    var se := IntToString(e);
    NoDash(b);
    NoDash(e);
    SplitPair(sb, se);
    PyIntOfIntToString(b);
    PyIntOfIntToString(e);
    ParsePair(sb, se, b, e);
    BoundsSingleShape(sb + "-" + se, b, e, inclusive);
  }

  /** The text of a non-negative integer has no '-'. */
  lemma NoDash(n: nat)
    ensures '-' !in IntToString(n)
  {
    var s := IntToString(n);
    assert forall i :: 0 <= i < |s| ==> s[i] != '-';
  }

  /** "x-y" splits into x and y when neither holds a '-'. */
  lemma SplitPair(x: string, y: string)
    requires '-' !in x && '-' !in y
    ensures SplitOn(x + "-" + y, '-') == [x, y]
  {
    SplitNoSep(y, '-');
    SplitAfterPiece(x, y, '-');
    assert x + "-" + y == x + ['-'] + y;
  }

  /** Two pieces that parse give the pair of their values. */
  lemma ParsePair(x: string, y: string, b: int, e: int)
    requires PyInt(x) == Some(b) && PyInt(y) == Some(e)
    ensures ParseAll([x, y]) == Some([b, e])
  {
    assert [x, y][0] == x && [x, y][1..] == [y];
    assert [y][0] == y && [y][1..] == [];
    assert ParseAll([]) == Some([]);
    var one: seq<int> := [e];
    assert [e] + [] == one;
    assert ParseAll([y]) == Some(one);
    assert [b] + one == [b, e];
  }

  /** A single offset whose pieces parse to exactly [b, e]. */
  lemma BoundsSingleShape(o: string, b: int, e: int, inclusive: bool)
    requires ParseAll(SplitOn(o, '-')) == Some([b, e])
    ensures Bounds([o], inclusive) == Success((b, if inclusive then e + 1 else e))
  {
    var vs: seq<int> := [b, e];
    assert |vs| == 2 && vs[0] == b && vs[1] == e;
    assert SingleBounds(o) == Success((b, e));
    RawSingle(o);
    BoundsOfRaw([o], b, e, inclusive);
  }

  lemma BoundsOfRaw(offsets: seq<string>, b: int, e: int, inclusive: bool)
    requires |offsets| >= 1 && RawBounds(offsets) == Success((b, e))
    ensures Bounds(offsets, inclusive) == Success((b, if inclusive then e + 1 else e))
  {
    AdjustedSuccess(b, e, inclusive);
  }

  lemma AdjustedSuccess(b: int, e: int, inclusive: bool)
    ensures Adjusted(Success((b, e)), inclusive) == Success((b, if inclusive then e + 1 else e))
  {
  }

  lemma RawSingle(o: string)
    ensures RawBounds([o]) == SingleBounds(o)
  {
    var offsets := [o];
    assert |offsets| == 1 && offsets[0] == o;
  }

  /** Several offsets whose first begins with b and whose last has e as
      its second piece. */
  lemma BoundsSeveralShape(offsets: seq<string>, b: int, e: int, inclusive: bool)
    requires |offsets| > 1
    requires PyInt(SplitOn(offsets[0], '-')[0]) == Some(b)
    requires |SplitOn(offsets[|offsets| - 1], '-')| >= 2
    requires PyInt(SplitOn(offsets[|offsets| - 1], '-')[1]) == Some(e)
    ensures Bounds(offsets, inclusive) == Success((b, if inclusive then e + 1 else e))
  {
    AdjustedSuccess(b, e, inclusive);
  }

  /** Several offsets take begin from the first and end from the last;
      the ones between do not matter. */
  lemma BoundsOfSeveral(b: nat, e: nat, first: string, middle: seq<string>, last: string, inclusive: bool)
    requires '-' !in first && '-' !in last
    ensures Bounds([IntToString(b) + "-" + first] + middle + [last + "-" + IntToString(e)], inclusive)
      == Success((b, if inclusive then e + 1 else e))
  {
    var sb := IntToString(b);
    var se := IntToString(e);
    NoDash(b);
    NoDash(e);
    var offs := [sb + "-" + first] + middle + [last + "-" + se];
    assert offs[0] == sb + "-" + first;
    assert offs[|offs| - 1] == last + "-" + se;
    SplitPair(sb, first);
    SplitPair(last, se);
    PyIntOfIntToString(b);
    PyIntOfIntToString(e);
    BoundsSeveralShape(offs, b, e, inclusive);
  }

  /** A single offset with a third piece is refused. */
  lemma BoundsRefuseThreePieces(x: string, y: string, z: string, inclusive: bool)
    requires '-' !in x && '-' !in y && '-' !in z
    ensures Bounds([x + "-" + y + "-" + z], inclusive) == Failure(BadOffset)
  {
    SplitNoSep(z, '-');
    SplitAfterPiece(y, z, '-');
    assert y + ['-'] + z == y + "-" + z;
    SplitAfterPiece(x, y + "-" + z, '-');
    assert x + "-" + y + "-" + z == x + ['-'] + (y + "-" + z);
    assert |SplitOn(x + "-" + y + "-" + z, '-')| == 3;
    ParseAllMeaning(SplitOn(x + "-" + y + "-" + z, '-'));
  }

  // ---------------------------------------------------------------------
  // The slot-value text

  /** clean_visible[begin:end], lower-cased, '_' turned into ' ', stripped. */
  function SlotText(clean: string, begin: int, end: int): (r: string)
    ensures |r| <= |clean|
  {
    Strip(ReplaceChar(Lower(PySlice(clean, begin, end)), '_', ' '))
  }

  predicate CleanChar(c: char) {
    c != '_' && !('A' <= c <= 'Z')
  }

  predicate CleanText(s: string) {
    forall i :: 0 <= i < |s| ==> CleanChar(s[i])
  }

  lemma {:induction false} CleanRemoveSpaces(s: string)
    requires CleanText(s)
    ensures CleanText(RemoveSpaces(s))
  {
    if |s| > 0 {
      assert CleanText(s[1..]) by { assert forall i :: 0 <= i < |s| - 1 ==> s[1..][i] == s[i + 1]; }
      CleanRemoveSpaces(s[1..]);
    }
  }

  lemma {:induction false} CleanConcat(ts: seq<string>)
    requires CleanText(Concat(ts))
    ensures forall k :: 0 <= k < |ts| ==> CleanText(ts[k])
  {
    if |ts| > 0 {
      var c := Concat(ts);
      assert c == ts[0] + Concat(ts[1..]);
      assert CleanText(ts[0]) by { assert forall i :: 0 <= i < |ts[0]| ==> ts[0][i] == c[i]; }
      assert CleanText(Concat(ts[1..])) by {
        assert forall i :: 0 <= i < |Concat(ts[1..])| ==> Concat(ts[1..])[i] == c[|ts[0]| + i];
      }
      CleanConcat(ts[1..]);
      assert forall k :: 1 <= k < |ts| ==> ts[k] == ts[1..][k - 1];
    }
  }

  lemma CleanStrip(s: string)
    requires CleanText(s)
    ensures CleanText(Strip(s))
  {
    var a := LeadingSpaces(s);
    if a < |s| {
      var t := Strip(s);
      assert t == s[a..TrailingEnd(s)];
      assert forall i :: 0 <= i < |t| ==> t[i] == s[a + i];
    }
  }

  /** The tokens a span contributes to a profile are non-empty, hold no
      whitespace, no '_' and no upper-case ASCII letter, and together they
      are the span's non-whitespace characters in order. */
  lemma SpanTokens(clean: string, begin: int, end: int)
    ensures forall k :: 0 <= k < |SplitWhitespace(SlotText(clean, begin, end))| ==>
      var t := SplitWhitespace(SlotText(clean, begin, end))[k];
      t != [] && NoSpace(t) && CleanText(t)
    ensures Concat(SplitWhitespace(SlotText(clean, begin, end))) == RemoveSpaces(SlotText(clean, begin, end))
  {
    var u := ReplaceChar(Lower(PySlice(clean, begin, end)), '_', ' ');
    assert CleanText(u);
    CleanStrip(u);
    CleanRemoveSpaces(SlotText(clean, begin, end));
    CleanConcat(SplitWhitespace(SlotText(clean, begin, end)));
  }

  /** Inside the text, the span is the plain slice. */
  lemma SlotTextInside(clean: string, begin: nat, end: nat)
    requires begin <= end <= |clean|
    ensures SlotText(clean, begin, end) == Strip(ReplaceChar(Lower(clean[begin..end]), '_', ' '))
  {
  }

  // ---------------------------------------------------------------------
  // Stream-item paths

  /** A place where `.*-(..)(..).*` can match: a '-' followed by four
      characters, with no newline up to the fourth (`.` does not match a
      newline). */
  predicate DashAt(id: string, i: int) {
    0 <= i && i + 5 <= |id| && id[i] == '-' && '\n' !in id[..i + 5]
  }

  /** The greedy first `.*` gives the last such place. */
  function LastDash(id: string, k: int): (r: Option<nat>)
    requires k <= |id|
    ensures r.Some? ==> r.value < k && DashAt(id, r.value) && forall j :: r.value < j < k ==> !DashAt(id, j)
    ensures r.None? ==> forall j :: 0 <= j < k ==> !DashAt(id, j)
    decreases k
  {
    if k <= 0 then None
    else if DashAt(id, k - 1) then Some(k - 1)
    else LastDash(id, k - 1)
  }

  /** The path of the stream item's chunk below the stream-items
      directory: the two two-character groups, then the id with
      '.sc.xz.gpg'; an id the pattern does not match is refused. */
  function StreamItemPath(id: string): (r: Option<string>) {
    match LastDash(id, |id|)
    case None => None
    case Some(i) => Some(id[i + 1..i + 3] + "/" + id[i + 3..i + 5] + "/" + id + ".sc.xz.gpg")
  }

  /** The path exists exactly when the pattern matches somewhere; it is
      then built from the four characters after the last matching '-'. */
  lemma StreamItemPathMeaning(id: string)
    ensures StreamItemPath(id).Some? <==> exists i :: DashAt(id, i)
    ensures StreamItemPath(id).Some? ==> exists i :: (DashAt(id, i)
      && (forall j :: i < j < |id| ==> !DashAt(id, j))
      && StreamItemPath(id).value == id[i + 1..i + 3] + "/" + id[i + 3..i + 5] + "/" + id + ".sc.xz.gpg")
  {
  }

  /** Places after the last matching one can be skipped. */
  lemma {:induction false} LastDashSkip(id: string, i: nat, k: int)
    requires i < k <= |id| && forall j :: i < j < k ==> !DashAt(id, j)
    ensures LastDash(id, k) == LastDash(id, i + 1)
    decreases k
  {
    if k > i + 1 {
      LastDashSkip(id, i, k - 1);
    }
  }

  /** A short stream id in the shape of the source's example. */
  lemma StreamItemPathExample()
    ensures StreamItemPath("9-abcdef") == Some("ab/cd/9-abcdef.sc.xz.gpg")
  {
    var id := "9-abcdef";
    ExampleLastDash();
    assert id[2..4] == "ab" && id[4..6] == "cd";
    ExamplePath();
  }

  /** The example's only matching '-' is at index 1. */
  lemma ExampleLastDash()
    ensures LastDash("9-abcdef", 8) == Some(1)
  {
    var id := "9-abcdef";
    assert id[..6] == "9-abcd";
    assert DashAt(id, 1);
    forall j | 1 < j < |id| ensures !DashAt(id, j) { assert id[j] != '-'; }
    LastDashSkip(id, 1, |id|);
  }

  lemma ExamplePath()
    ensures "ab" + "/" + "cd" + "/" + "9-abcdef" + ".sc.xz.gpg" == "ab/cd/9-abcdef.sc.xz.gpg"
  {
    var p := "ab" + "/" + "cd" + "/" + "9-abcdef" + ".sc.xz.gpg";
    assert |p| == |"ab/cd/9-abcdef.sc.xz.gpg"|;
    assert forall i :: 0 <= i < |p| ==> p[i] == "ab/cd/9-abcdef.sc.xz.gpg"[i];
  }

  /** Without a '-' followed by four characters there is no path. */
  lemma NoDashNoPath(id: string)
    requires '-' !in id
    ensures StreamItemPath(id) == None
  {
    forall i | 0 <= i < |id| ensures !DashAt(id, i) { assert id[i] != '-'; }
  }
}
