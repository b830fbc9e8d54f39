/** The metric arithmetic shared by the 2013 scorers: precision, recall,
    F-score and scaled utility of one confusion-matrix cell, the median,
    per-cell compilation of a whole matrix, micro and macro averaging over
    targets and the maximum of each metric over the cutoff ladder.
    Python floats are modelled as exact reals. */
module Metrics {

  import opened Wrappers
  import opened Sets

  /** One confusion-matrix cell: true positives, false positives, false
      negatives and true negatives.  FN is back-filled as positives - TP,
      so it can go negative when a run repeats a positive. */
  datatype Cell = Cell(tp: int, fp: int, fn: int, tn: int)

  /** The four metrics of one cell. */
  datatype CellScores = CellScores(p: real, r: real, f: real, su: real)

  const ZeroCell: Cell := Cell(0, 0, 0, 0)

  /** Default lower bound of normalised utility. */
  const MinNU: real := -0.5

  predicate NonNeg(c: Cell) {
    c.tp >= 0 && c.fp >= 0 && c.fn >= 0 && c.tn >= 0
  }

  predicate InUnit(x: real) {
    0.0 <= x <= 1.0
  }

  predicate ScoresInUnit(s: CellScores) {
    InUnit(s.p) && InUnit(s.r) && InUnit(s.f) && InUnit(s.su)
  }

  function MinReal(a: real, b: real): real {
    if a <= b then a else b
  }

  function MaxReal(a: real, b: real): real {
    if a >= b then a else b
  }

  // ---------------------------------------------------------------------
  // Cell metrics

  /** TP / (TP + FP), or 0.0 when no positive was predicted. */
  function Precision(tp: int, fp: int): (p: real)
    ensures tp + fp <= 0 ==> p == 0.0
    ensures tp + fp > 0 ==> p * (tp + fp) as real == tp as real
    ensures tp >= 0 && fp >= 0 ==> InUnit(p)
  {
    if tp + fp > 0 then tp as real / (tp + fp) as real else 0.0
  }

  /** TP / (TP + FN), or 0.0 when there is nothing to recall. */
  function Recall(tp: int, fn: int): (r: real)
    ensures tp + fn <= 0 ==> r == 0.0
    ensures tp + fn > 0 ==> r * (tp + fn) as real == tp as real
    ensures tp >= 0 && fn >= 0 ==> InUnit(r)
  {
    if tp + fn > 0 then tp as real / (tp + fn) as real else 0.0
  }

  /** The harmonic mean of precision and recall, 0.0 when both are 0. */
  function FScore(p: real, r: real): (f: real)
    ensures p + r <= 0.0 ==> f == 0.0
    ensures p + r > 0.0 ==> f * (p + r) == 2.0 * p * r
  {
    if p + r > 0.0 then 2.0 * p * r / (p + r) else 0.0
  }

  /** For P and R in [0, 1] the F-score is in [0, 1] and lies between them. */
  lemma FScoreBetween(p: real, r: real)
    requires InUnit(p) && InUnit(r)
    ensures InUnit(FScore(p, r))
    ensures MinReal(p, r) <= FScore(p, r) <= MaxReal(p, r)
  {
    var f := FScore(p, r);
    if p + r > 0.0 {
      assert f * (p + r) == 2.0 * (p * r);
      if p <= r {
        HarmonicBetween(p, r, f);
      } else {
        assert f * (r + p) == 2.0 * (r * p);
        HarmonicBetween(r, p, f);
      }
    }
  }

  /** A value `f` with f (lo + hi) = 2 lo hi lies between lo and hi. */
  lemma HarmonicBetween(lo: real, hi: real, f: real)
    requires 0.0 <= lo <= hi && lo + hi > 0.0
    requires f * (lo + hi) == 2.0 * (lo * hi)
    ensures lo <= f <= hi
  {
    var d := lo + hi;
    assert lo * d == lo * lo + lo * hi && hi * d == lo * hi + hi * hi;
    MulLe(lo, lo, hi);
    MulLe(hi, lo, hi);
    assert hi * lo == lo * hi;
    assert lo * hi <= hi * hi;
    assert lo * d <= f * d;
    calc {
      f * d;
      2.0 * (lo * hi);
    <= lo * hi + hi * hi;
      hi * d;
    }
    LeOfMulLe(lo, f, d);
    LeOfMulLe(f, hi, d);
  }

  lemma LeOfMulLe(a: real, b: real, d: real)
    requires d > 0.0 && a * d <= b * d
    ensures a <= b
  {
  }

  lemma MulLe(a: real, b: real, c: real)
    requires 0.0 <= a && b <= c
    ensures a * b <= a * c
  {
  }

  /** The normalised utility (2 TP - FP) / (2 (TP + FN)). */
  function NormalizedUtility(tp: int, fp: int, fn: int): (nu: real)
    requires tp + fn > 0
    ensures nu * (2 * (tp + fn)) as real == (2 * tp - fp) as real
  {
    (2 * tp - fp) as real / (2 * (tp + fn)) as real
  }

  /** Scaled utility after the TREC 2002 filtering track: the normalised
      utility floored at `minNU` and rescaled to [0, 1]; 0.0 when
      TP + FN = 0.  Python divides by 1 - MinNU, so `minNU` may not be 1. */
  function ScaledUtility(tp: int, fp: int, fn: int, minNU: real): (su: real)
    requires tp + fn > 0 ==> minNU != 1.0
    ensures tp + fn <= 0 ==> su == 0.0
    ensures tp + fn > 0 ==> su * (1.0 - minNU) == MaxReal(NormalizedUtility(tp, fp, fn), minNU) - minNU
  {
    if tp + fn > 0 then
      (MaxReal(NormalizedUtility(tp, fp, fn), minNU) - minNU) / (1.0 - minNU)
    else 0.0
  }

  /** For non-negative counts a normalised utility is at most 1. */
  lemma NormalizedUtilityAtMostOne(tp: int, fp: int, fn: int)
    requires tp >= 0 && fp >= 0 && fn >= 0 && tp + fn > 0
    ensures NormalizedUtility(tp, fp, fn) <= 1.0
    ensures NormalizedUtility(tp, fp, fn) == 1.0 <==> fp == 0 && fn == 0
  {
    var a := 2 * tp - fp;
    var b := 2 * (tp + fn);
    assert a <= b;
    assert a == b <==> fp == 0 && fn == 0;
    RatioAtMostOne(a as real, b as real);
  }

  /** A quotient of a number by a larger positive one is at most 1, and is
      1 exactly when the two are equal. */
  lemma RatioAtMostOne(a: real, b: real)
    requires b > 0.0 && a <= b
    ensures a / b <= 1.0
    ensures a / b == 1.0 <==> a == b
  {
    var q := a / b;
    assert q * b == a;
    if q > 1.0 {
      MulLt(b, 1.0, q);
    }
    if q == 1.0 {
      assert a == 1.0 * b;
    }
  }

  lemma MulLt(a: real, b: real, c: real)
    requires 0.0 < a && b < c
    ensures a * b < a * c
  {
  }

  /** Scaled utility lies in [0, 1] for non-negative counts and MinNU < 1. */
  lemma ScaledUtilityInUnit(tp: int, fp: int, fn: int, minNU: real)
    requires tp >= 0 && fp >= 0 && fn >= 0 && minNU < 1.0
    ensures InUnit(ScaledUtility(tp, fp, fn, minNU))
  {
    if tp + fn > 0 {
      var su := ScaledUtility(tp, fp, fn, minNU);
      var m := MaxReal(NormalizedUtility(tp, fp, fn), minNU);
      NormalizedUtilityAtMostOne(tp, fp, fn);
      assert minNU <= m <= 1.0;
      assert su * (1.0 - minNU) == m - minNU;
      LeOfMulLe(0.0, su, 1.0 - minNU);
      LeOfMulLe(su, 1.0, 1.0 - minNU);
    }
  }

  /** Scaled utility is 0 whenever the normalised utility is at or below MinNU. */
  lemma ScaledUtilityFloor(tp: int, fp: int, fn: int, minNU: real)
    requires tp + fn > 0 && minNU < 1.0
    requires NormalizedUtility(tp, fp, fn) <= minNU
    ensures ScaledUtility(tp, fp, fn, minNU) == 0.0
  {
    var su := ScaledUtility(tp, fp, fn, minNU);
    assert MaxReal(NormalizedUtility(tp, fp, fn), minNU) == minNU;
    assert su * (1.0 - minNU) == 0.0;
    assert 0.0 * (1.0 - minNU) == 0.0;
    LeOfMulLe(su, 0.0, 1.0 - minNU);
    LeOfMulLe(0.0, su, 1.0 - minNU);
  }

  /** Scaled utility reaches 1 exactly for a perfect cell: some true
      positive, no false positive, no false negative. */
  lemma ScaledUtilityPerfect(tp: int, fp: int, fn: int, minNU: real)
    requires tp >= 0 && fp >= 0 && fn >= 0 && minNU < 1.0
    ensures ScaledUtility(tp, fp, fn, minNU) == 1.0 <==> tp > 0 && fp == 0 && fn == 0
  {
    if tp + fn > 0 {
      var su := ScaledUtility(tp, fp, fn, minNU);
      var nu := NormalizedUtility(tp, fp, fn);
      NormalizedUtilityAtMostOne(tp, fp, fn);
      assert su * (1.0 - minNU) == MaxReal(nu, minNU) - minNU;
      if fp == 0 && fn == 0 {
        assert MaxReal(nu, minNU) == 1.0;
        assert su * (1.0 - minNU) == 1.0 * (1.0 - minNU);
        LeOfMulLe(su, 1.0, 1.0 - minNU);
        LeOfMulLe(1.0, su, 1.0 - minNU);
      }
    }
  }

  /** The metrics of one cell, as `performance_metrics` computes them:
      F from the cell's own P and R, scaled utility with the default MinNU. */
  function ScoreOf(c: Cell): CellScores {
    var p := Precision(c.tp, c.fp);
    var r := Recall(c.tp, c.fn);
    CellScores(p, r, FScore(p, r), ScaledUtility(c.tp, c.fp, c.fn, MinNU))
  }

  /** Every metric of a cell with non-negative counts lies in [0, 1]. */
  lemma ScoreOfInUnit(c: Cell)
    requires NonNeg(c)
    ensures ScoresInUnit(ScoreOf(c))
  {
    FScoreBetween(Precision(c.tp, c.fp), Recall(c.tp, c.fn));
    ScaledUtilityInUnit(c.tp, c.fp, c.fn, MinNU);
  }

  // ---------------------------------------------------------------------
  // Median

  predicate SortedReals(s: seq<real>) {
    forall i, j :: 0 <= i < j < |s| ==> s[i] <= s[j]
  }

  function InsertSorted(x: real, s: seq<real>): (r: seq<real>)
    requires SortedReals(s)
    ensures SortedReals(r)
    ensures multiset(r) == multiset(s) + multiset{x}
  {
    if |s| == 0 then [x]
    else if x <= s[0] then [x] + s
    else
      var rest := InsertSorted(x, s[1..]);
      assert s == [s[0]] + s[1..];
      InsertedAbove(x, s, rest);
      [s[0]] + rest
  }

  /** Putting the head back in front of the insertion into the tail keeps
      the order, since every value there is at least the head. */
  lemma InsertedAbove(x: real, s: seq<real>, rest: seq<real>)
    requires SortedReals(s) && |s| > 0 && s[0] < x
    requires SortedReals(rest) && multiset(rest) == multiset(s[1..]) + multiset{x}
    ensures SortedReals([s[0]] + rest)
  {
    forall k | 0 <= k < |rest| ensures s[0] <= rest[k] {
      assert rest[k] in multiset(rest);
      if rest[k] != x {
        assert rest[k] in multiset(s[1..]);
        var j :| 0 <= j < |s[1..]| && s[1..][j] == rest[k];
        assert s[j + 1] == rest[k];
      }
    }
    var r := [s[0]] + rest;
    forall i, j | 0 <= i < j < |r| ensures r[i] <= r[j] {
      if i > 0 {
        assert r[i] == rest[i - 1] && r[j] == rest[j - 1];
      } else {
        assert r[j] == rest[j - 1];
      }
    }
  }

  /** Python `sorted` on a list of numbers. */
  function SortReals(v: seq<real>): (r: seq<real>)
    ensures SortedReals(r)
    ensures multiset(r) == multiset(v)
  {
    if |v| == 0 then []
    else
      assert v == [v[0]] + v[1..];
      InsertSorted(v[0], SortReals(v[1..]))
  }

  /** `getMedian`: the middle element of the sorted list for odd length,
      the mean of the two middle elements for even length; `None` for the
      empty list, where the indexing raises. */
  function Median(v: seq<real>): (m: Option<real>)
    ensures m.None? <==> |v| == 0
    ensures m.Some? ==> exists i | 0 <= i < |v| :: v[i] <= m.value
    ensures m.Some? ==> exists j | 0 <= j < |v| :: m.value <= v[j]
  {
    var s := SortReals(v);
    MiddleBetween(v, s);
    MiddleOfSorted(s)
  }

  lemma MiddleBetween(v: seq<real>, s: seq<real>)
    requires SortedReals(s) && multiset(s) == multiset(v)
    ensures MiddleOfSorted(s).None? <==> |v| == 0
    ensures MiddleOfSorted(s).Some? ==> exists i | 0 <= i < |v| :: v[i] <= MiddleOfSorted(s).value
    ensures MiddleOfSorted(s).Some? ==> exists j | 0 <= j < |v| :: MiddleOfSorted(s).value <= v[j]
  {
    assert |s| == |v| by { assert |multiset(s)| == |multiset(v)|; }
    var n := |s|;
    if n > 0 {
      if n % 2 == 1 {
        InSortedIsInInput(v, s, (n + 1) / 2 - 1);
      } else {
        InSortedIsInInput(v, s, n / 2 - 1);
        InSortedIsInInput(v, s, n / 2);
      }
    }
  }

  /** The median of an already sorted list. */
  function MiddleOfSorted(s: seq<real>): Option<real> {
    var n := |s|;
    if n == 0 then None
    else if n % 2 == 1 then Some(s[(n + 1) / 2 - 1])
    else Some((s[n / 2 - 1] + s[n / 2]) / 2.0)
  }

  lemma InSortedIsInInput(v: seq<real>, s: seq<real>, k: int)
    requires multiset(s) == multiset(v) && 0 <= k < |s|
    ensures exists i | 0 <= i < |v| :: v[i] == s[k]
  {
    assert s[k] in multiset(s);
    assert s[k] in v;
  }

  lemma SortedHeadIsLeast(s: seq<real>, x: real)
    requires SortedReals(s) && x in multiset(s)
    ensures |s| > 0 && s[0] <= x
  {
    assert x in s;
    var i :| 0 <= i < |s| && s[i] == x;
    assert s[0] <= s[i];
  }

  /** Two sorted lists holding the same values are equal. */
  lemma {:induction false} SortedUnique(x: seq<real>, y: seq<real>)
    requires SortedReals(x) && SortedReals(y) && multiset(x) == multiset(y)
    ensures x == y
  {
    assert |x| == |multiset(x)| == |multiset(y)| == |y|;
    if |x| > 0 {
      SortedHeadIsLeast(y, x[0]);
      SortedHeadIsLeast(x, y[0]);
      assert x[0] == y[0];
      SortedTail(x);
      SortedTail(y);
      assert multiset(x[1..]) == multiset(y[1..]);
      SortedUnique(x[1..], y[1..]);
      SameHeadAndTail(x, y);
    }
  }

  lemma SameHeadAndTail(x: seq<real>, y: seq<real>)
    requires |x| == |y| > 0 && x[0] == y[0] && x[1..] == y[1..]
    ensures x == y
  {
    assert x == [x[0]] + x[1..] && y == [y[0]] + y[1..];
  }

  /** The tail of a sorted list is sorted and holds the rest of its values. */
  lemma SortedTail(s: seq<real>)
    requires SortedReals(s) && |s| > 0
    ensures SortedReals(s[1..])
    ensures multiset(s[1..]) == multiset(s) - multiset{s[0]}
  {
    assert s == [s[0]] + s[1..];
  }

  /** The median does not depend on the order of the list. */
  lemma MedianPermutation(a: seq<real>, b: seq<real>)
    requires multiset(a) == multiset(b)
    ensures Median(a) == Median(b)
  {
    SortedUnique(SortReals(a), SortReals(b));
    assert Median(a) == MiddleOfSorted(SortReals(a));
  }

  // ---------------------------------------------------------------------
  // Whole matrices

  /** Scores of one row of cells, keyed like the row. */
  function RowScores<C>(row: map<C, Cell>): map<C, CellScores> {
    map c | c in row :: ScoreOf(row[c])
  }

  /** Every score of a row of non-negative cells lies in [0, 1]. */
  lemma RowScoresInUnit<C>(row: map<C, Cell>)
    requires forall c | c in row :: NonNeg(row[c])
    ensures forall c | c in RowScores(row) :: ScoresInUnit(RowScores(row)[c])
  {
    forall c | c in row ensures ScoresInUnit(ScoreOf(row[c])) {
      ScoreOfInUnit(row[c]);
    }
  }

  method ScoreRow<C>(row: map<C, Cell>) returns (scores: map<C, CellScores>)
    ensures scores == RowScores(row)
  {
    scores := map[];
    var todo := row.Keys;
    while todo != {}
      invariant todo <= row.Keys
      invariant scores.Keys == row.Keys - todo
      invariant forall c | c in scores :: scores[c] == ScoreOf(row[c])
      decreases todo
    {
      var c := Choose(todo);
      scores := scores[c := ScoreOf(row[c])];
      todo := todo - {c};
    }
    assert scores.Keys == RowScores(row).Keys;
  }

  /** `performance_metrics`: exactly the (target, cutoff) keys of the
      matrix, each with the metrics of that cell (F from the cell's own P
      and R). */
  method PerformanceMetrics<K, C>(cm: map<K, map<C, Cell>>) returns (scores: map<K, map<C, CellScores>>)
    ensures scores.Keys == cm.Keys
    ensures forall t | t in cm :: scores[t] == RowScores(cm[t])
  {
    scores := map[];
    var todo := cm.Keys;
    while todo != {}
      invariant todo <= cm.Keys
      invariant scores.Keys == cm.Keys - todo
      invariant forall t | t in scores :: scores[t] == RowScores(cm[t])
      decreases todo
    {
      var t := Choose(todo);
      var row := ScoreRow(cm[t]);
      scores := scores[t := row];
      todo := todo - {t};
    }
  }

  /** The cutoffs that occur for some target of `m`. */
  ghost function CutoffsOf<K, C, V>(m: map<K, map<C, V>>): set<C> {
    set t, c | t in m && c in m[t] :: c
  }

  /** The targets of `m` that have cutoff `c`. */
  ghost function TargetsWith<K, C, V>(m: map<K, map<C, V>>, c: C): set<K> {
    set t | t in m && c in m[t]
  }

  /** `f` is `m` with its two key levels swapped: `f[c][t] == m[t][c]`
      for exactly the pairs present in `m`. */
  ghost predicate IsFlipOf<K, C, V>(m: map<K, map<C, V>>, f: map<C, map<K, V>>) {
    && (forall c | c in f :: |f[c]| > 0)
    && (forall c, t | c in f && t in f[c] :: t in m && c in m[t] && f[c][t] == m[t][c])
    && (forall t, c | t in m && c in m[t] :: c in f && t in f[c])
  }

  /** The keys of a flipped map are the cutoffs, and under each cutoff the
      targets having it. */
  lemma FlipKeys<K, C, V>(m: map<K, map<C, V>>, f: map<C, map<K, V>>)
    requires IsFlipOf(m, f)
    ensures FlippedKeys(m, f)
  {
    forall c | c in f ensures c in CutoffsOf(m) {
      assert |f[c].Keys| > 0;
      var t := Pick(f[c].Keys);
      assert t in m && c in m[t];
    }
    forall c | c in CutoffsOf(m) ensures c in f {
      var t, c' :| t in m && c' in m[t] && c' == c;
    }
  }

  /** The key structure of a flipped map: its keys are the cutoffs of `m`,
      and under each cutoff the targets having it. */
  ghost predicate FlippedKeys<K, C, V>(m: map<K, map<C, V>>, f: map<C, map<K, V>>) {
    f.Keys == CutoffsOf(m) && forall c | c in f :: f[c].Keys == TargetsWith(m, c)
  }

  /** `f` holds the swapped pairs of the targets outside `todo`. */
  ghost predicate FlipDone<K, C, V>(m: map<K, map<C, V>>, f: map<C, map<K, V>>, todo: set<K>) {
    && (forall c | c in f :: |f[c]| > 0)
    && (forall c, u | c in f && u in f[c] :: u in m && u !in todo && c in m[u] && f[c][u] == m[u][c])
    && (forall u, c | u in m && u !in todo && c in m[u] :: c in f && u in f[c])
  }

  /** `f` holds the swapped pairs of the targets outside `todo`, and those
      of target `t` whose cutoff is outside `sub`. */
  ghost predicate FlipPartial<K, C, V>(m: map<K, map<C, V>>, f: map<C, map<K, V>>, todo: set<K>, t: K, sub: set<C>) {
    && (forall c | c in f :: |f[c]| > 0)
    && (forall c, u | c in f && u in f[c] :: u in m && c in m[u] && f[c][u] == m[u][c] && (u !in todo || (u == t && c !in sub)))
    && (forall u, c | u in m && c in m[u] && (u !in todo || (u == t && c !in sub)) :: c in f && u in f[c])
  }

  /** The first loop of `full_run_metrics`: swap target and cutoff. */
  method Flip<K, C, V>(m: map<K, map<C, V>>) returns (f: map<C, map<K, V>>)
    ensures IsFlipOf(m, f)
  {
    f := map[];
    var todo := m.Keys;
    while todo != {}
      invariant todo <= m.Keys
      invariant FlipDone(m, f, todo)
      decreases todo
    {
      var t := Choose(todo);
      f := FlipTarget(m, f, todo, t);
      todo := todo - {t};
    }
  }

  /** The inner loop: the cutoffs of one target. */
  method FlipTarget<K, C, V>(m: map<K, map<C, V>>, f: map<C, map<K, V>>, todo: set<K>, t: K)
    returns (f2: map<C, map<K, V>>)
    requires todo <= m.Keys && t in todo && FlipDone(m, f, todo)
    ensures FlipDone(m, f2, todo - {t})
  {
    f2 := f;
    var sub := m[t].Keys;
    FlipBegin(m, f, todo, t);
    while sub != {}
      invariant sub <= m[t].Keys
      invariant FlipPartial(m, f2, todo, t, sub)
      decreases sub
    {
      var c := Choose(sub);
      var row := if c in f2 then f2[c] else map[];
      FlipStep(m, f2, todo, t, sub, c);
      f2 := f2[c := row[t := m[t][c]]];
      sub := sub - {c};
    }
    FlipEnd(m, f2, todo, t);
  }

  lemma FlipBegin<K, C, V>(m: map<K, map<C, V>>, f: map<C, map<K, V>>, todo: set<K>, t: K)
    requires t in todo && t in m && FlipDone(m, f, todo)
    ensures FlipPartial(m, f, todo, t, m[t].Keys)
  {
  }

  lemma FlipEnd<K, C, V>(m: map<K, map<C, V>>, f: map<C, map<K, V>>, todo: set<K>, t: K)
    requires t in todo && FlipPartial(m, f, todo, t, {})
    ensures FlipDone(m, f, todo - {t})
  {
  }

  /** One pair swapped into place. */
  lemma FlipStep<K, C, V>(m: map<K, map<C, V>>, f: map<C, map<K, V>>, todo: set<K>, t: K, sub: set<C>, c: C)
    requires t in todo && t in m && c in sub && sub <= m[t].Keys && FlipPartial(m, f, todo, t, sub)
    ensures var row := if c in f then f[c] else map[];
      FlipPartial(m, f[c := row[t := m[t][c]]], todo, t, sub - {c})
  {
  }

  // ---------------------------------------------------------------------
  // Sums over sets of targets

  function AddCells(a: Cell, b: Cell): Cell {
    Cell(a.tp + b.tp, a.fp + b.fp, a.fn + b.fn, a.tn + b.tn)
  }

  function AddScores(a: CellScores, b: CellScores): CellScores {
    CellScores(a.p + b.p, a.r + b.r, a.f + b.f, a.su + b.su)
  }

  /** Cell-wise sum of `cm[t][c]` over the targets `t` in `ts`. */
  ghost function CellSum<K, C>(cm: map<K, map<C, Cell>>, c: C, ts: set<K>): Cell
    requires forall t | t in ts :: t in cm && c in cm[t]
    decreases ts
  {
    if ts == {} then ZeroCell
    else
      var t := Pick(ts);
      AddCells(cm[t][c], CellSum(cm, c, ts - {t}))
  }

  lemma {:induction false} CellSumRemove<K, C>(cm: map<K, map<C, Cell>>, c: C, ts: set<K>, k: K)
    requires forall t | t in ts :: t in cm && c in cm[t]
    requires k in ts
    ensures CellSum(cm, c, ts) == AddCells(cm[k][c], CellSum(cm, c, ts - {k}))
    decreases ts
  {
    var t := Pick(ts);
    if t != k {
      CellSumRemove(cm, c, ts - {t}, k);
      CellSumRemove(cm, c, ts - {k}, t);
      assert ts - {t} - {k} == ts - {k} - {t};
    }
  }

  /** Component-wise sum of `scores[t][c]` over the targets `t` in `ts`. */
  ghost function ScoreSum<K, C>(scores: map<K, map<C, CellScores>>, c: C, ts: set<K>): CellScores
    requires forall t | t in ts :: t in scores && c in scores[t]
    decreases ts
  {
    if ts == {} then CellScores(0.0, 0.0, 0.0, 0.0)
    else
      var t := Pick(ts);
      AddScores(scores[t][c], ScoreSum(scores, c, ts - {t}))
  }

  lemma {:induction false} ScoreSumRemove<K, C>(scores: map<K, map<C, CellScores>>, c: C, ts: set<K>, k: K)
    requires forall t | t in ts :: t in scores && c in scores[t]
    requires k in ts
    ensures ScoreSum(scores, c, ts) == AddScores(scores[k][c], ScoreSum(scores, c, ts - {k}))
    decreases ts
  {
    var t := Pick(ts);
    if t != k {
      ScoreSumRemove(scores, c, ts - {t}, k);
      ScoreSumRemove(scores, c, ts - {k}, t);
      assert ts - {t} - {k} == ts - {k} - {t};
    }
  }

  /** Sum of `pos[t]` over the targets `t` in `ts`. */
  ghost function IntSum<K>(pos: map<K, int>, ts: set<K>): int
    requires ts <= pos.Keys
    decreases ts
  {
    if ts == {} then 0
    else
      var t := Pick(ts);
      pos[t] + IntSum(pos, ts - {t})
  }

  // ---------------------------------------------------------------------
  // Totals and averages over targets

  /** `CM_total`: for each cutoff that occurs, the cell-wise sum over the
      targets that have that cutoff. */
  ghost function TotalCM<K, C>(cm: map<K, map<C, Cell>>): map<C, Cell> {
    map c | c in CutoffsOf(cm) :: CellSum(cm, c, TargetsWith(cm, c))
  }

  function DivideScores(s: CellScores, n: nat): CellScores {
    if n == 0 then s
    else CellScores(s.p / n as real, s.r / n as real, s.f / n as real, s.su / n as real)
  }

  /** Macro averaging: for each cutoff that occurs, the sum of each metric
      over the targets having that cutoff divided by the number of all
      targets; F is averaged like the others, not recomputed. */
  ghost function MacroAverage<K, C>(scores: map<K, map<C, CellScores>>): map<C, CellScores> {
    map c | c in CutoffsOf(scores) :: DivideScores(ScoreSum(scores, c, TargetsWith(scores, c)), |scores.Keys|)
  }

  /** Micro averaging: the metrics of the summed matrix. */
  ghost function MicroAverage<K, C>(cm: map<K, map<C, Cell>>): map<C, CellScores> {
    RowScores(TotalCM(cm))
  }

  /** The cells of one cutoff summed over the targets having it. */
  method SumCells<K, C>(cm: map<K, map<C, Cell>>, targets: set<K>, c: C) returns (acc: Cell)
    requires forall t | t in targets :: t in cm && c in cm[t]
    ensures acc == CellSum(cm, c, targets)
  {
    acc := ZeroCell;
    var ts := targets;
    while ts != {}
      invariant ts <= targets
      invariant acc == CellSum(cm, c, targets - ts)
      decreases ts
    {
      var t := Choose(ts);
      CellSumRemove(cm, c, targets - (ts - {t}), t);
      assert targets - (ts - {t}) - {t} == targets - ts;
      acc := AddCells(cm[t][c], acc);
      ts := ts - {t};
    }
    assert targets - ts == targets;
  }

  /** Sums the cells of each cutoff of a flipped matrix. */
  method TotalCells<K, C>(cm: map<K, map<C, Cell>>, flipped: map<C, map<K, Cell>>) returns (total: map<C, Cell>)
    requires FlippedKeys(cm, flipped)
    ensures total == TotalCM(cm)
  {
    total := map[];
    var todo := flipped.Keys;
    while todo != {}
      invariant todo <= flipped.Keys
      invariant total.Keys == flipped.Keys - todo
      invariant forall c | c in total :: total[c] == CellSum(cm, c, TargetsWith(cm, c))
      decreases todo
    {
      var c := Choose(todo);
      var acc := SumCells(cm, flipped[c].Keys, c);
      total := total[c := acc];
      todo := todo - {c};
    }
    assert total.Keys == TotalCM(cm).Keys;
  }

  /** The scores of one cutoff summed over the targets having it. */
  method SumScores<K, C>(scores: map<K, map<C, CellScores>>, targets: set<K>, c: C) returns (acc: CellScores)
    requires forall t | t in targets :: t in scores && c in scores[t]
    ensures acc == ScoreSum(scores, c, targets)
  {
    acc := CellScores(0.0, 0.0, 0.0, 0.0);
    var ts := targets;
    while ts != {}
      invariant ts <= targets
      invariant acc == ScoreSum(scores, c, targets - ts)
      decreases ts
    {
      var t := Choose(ts);
      ScoreSumRemove(scores, c, targets - (ts - {t}), t);
      assert targets - (ts - {t}) - {t} == targets - ts;
      acc := AddScores(scores[t][c], acc);
      ts := ts - {t};
    }
    assert targets - ts == targets;
  }

  /** Sums each metric over the targets of each cutoff. */
  method SumPerCutoff<K, C>(scores: map<K, map<C, CellScores>>, flipped: map<C, map<K, CellScores>>)
    returns (sums: map<C, CellScores>)
    requires FlippedKeys(scores, flipped)
    ensures sums.Keys == CutoffsOf(scores)
    ensures forall c | c in sums :: sums[c] == ScoreSum(scores, c, TargetsWith(scores, c))
  {
    sums := map[];
    var todo := flipped.Keys;
    while todo != {}
      invariant todo <= flipped.Keys
      invariant sums.Keys == flipped.Keys - todo
      invariant forall c | c in sums :: sums[c] == ScoreSum(scores, c, TargetsWith(scores, c))
      decreases todo
    {
      var c := Choose(todo);
      var acc := SumScores(scores, flipped[c].Keys, c);
      sums := sums[c := acc];
      todo := todo - {c};
    }
  }

  /** Sums each metric over the targets of each cutoff, then divides by
      the number of targets. */
  method MacroAverageOf<K, C>(scores: map<K, map<C, CellScores>>, flipped: map<C, map<K, CellScores>>)
    returns (average: map<C, CellScores>)
    requires FlippedKeys(scores, flipped)
    ensures average == MacroAverage(scores)
  {
    var sums := SumPerCutoff(scores, flipped);
    average := DivideAll(sums, |scores.Keys|);
  }

  /** The division loop of the macro average, cutoff by cutoff. */
  method DivideAll<C>(sums: map<C, CellScores>, n: nat) returns (average: map<C, CellScores>)
    ensures average == map c | c in sums :: DivideScores(sums[c], n)
  {
    average := map[];
    var todo := sums.Keys;
    while todo != {}
      invariant todo <= sums.Keys
      invariant average.Keys == sums.Keys - todo
      invariant forall c | c in average :: average[c] == DivideScores(sums[c], n)
      decreases todo
    {
      var c := Choose(todo);
      average := average[c := DivideScores(sums[c], n)];
      todo := todo - {c};
    }
  }

  /** `full_run_metrics`: the summed matrix, and the macro average of
      `scores` or, with micro averaging, the metrics of the summed matrix. */
  method FullRunMetrics<K, C>(cm: map<K, map<C, Cell>>, scores: map<K, map<C, CellScores>>, micro: bool)
    returns (total: map<C, Cell>, average: map<C, CellScores>)
    ensures total == TotalCM(cm)
    ensures micro ==> average == MicroAverage(cm)
    ensures !micro ==> average == MacroAverage(scores)
  {
    var flipped := Flip(cm);
    FlipKeys(cm, flipped);
    total := TotalCells(cm, flipped);
    var flippedScores := Flip(scores);
    FlipKeys(scores, flippedScores);
    if !micro {
      average := MacroAverageOf(scores, flippedScores);
    } else {
      average := ScoreRow(total);
    }
  }

  /** The summed matrix has non-negative cells when all cells are. */
  lemma {:induction false} CellSumNonNeg<K, C>(cm: map<K, map<C, Cell>>, c: C, ts: set<K>)
    requires forall t | t in ts :: t in cm && c in cm[t] && NonNeg(cm[t][c])
    ensures NonNeg(CellSum(cm, c, ts))
    decreases ts
  {
    if ts != {} {
      CellSumNonNeg(cm, c, ts - {Pick(ts)});
    }
  }

  /** TP + FN summed over targets is the sum of the targets' positives:
      when every cell satisfies FN + TP = positives of its target, so does
      every cell of the total. */
  lemma {:induction false} CellSumFnTp<K, C>(cm: map<K, map<C, Cell>>, pos: map<K, int>, c: C, ts: set<K>)
    requires forall t | t in ts :: t in cm && c in cm[t] && t in pos && cm[t][c].fn + cm[t][c].tp == pos[t]
    ensures CellSum(cm, c, ts).fn + CellSum(cm, c, ts).tp == IntSum(pos, ts)
    decreases ts
  {
    if ts != {} {
      var t := Pick(ts);
      CellSumFnTp(cm, pos, c, ts - {t});
    }
  }

  /** FN + TP of the total at each cutoff is the sum of the positives of
      the targets having that cutoff. */
  lemma TotalFnTp<K, C>(cm: map<K, map<C, Cell>>, pos: map<K, int>)
    requires forall t, c | t in cm && c in cm[t] :: t in pos && cm[t][c].fn + cm[t][c].tp == pos[t]
    ensures forall c | c in TotalCM(cm) :: TotalCM(cm)[c].fn + TotalCM(cm)[c].tp == IntSum(pos, TargetsWith(cm, c))
  {
    forall c | c in TotalCM(cm)
      ensures TotalCM(cm)[c].fn + TotalCM(cm)[c].tp == IntSum(pos, TargetsWith(cm, c))
    {
      CellSumFnTp(cm, pos, c, TargetsWith(cm, c));
    }
  }

  /** Micro-averaged metrics of non-negative matrices lie in [0, 1]. */
  lemma MicroAverageInUnit<K, C>(cm: map<K, map<C, Cell>>)
    requires forall t, c | t in cm && c in cm[t] :: NonNeg(cm[t][c])
    ensures forall c | c in MicroAverage(cm) :: ScoresInUnit(MicroAverage(cm)[c])
  {
    var total := TotalCM(cm);
    forall c | c in total ensures NonNeg(total[c]) {
      CellSumNonNeg(cm, c, TargetsWith(cm, c));
    }
    RowScoresInUnit(total);
  }

  /** Summing n scores from [0, 1] gives components in [0, n]. */
  lemma {:induction false} ScoreSumBounds<K, C>(scores: map<K, map<C, CellScores>>, c: C, ts: set<K>)
    requires forall t | t in ts :: t in scores && c in scores[t] && ScoresInUnit(scores[t][c])
    ensures var s := ScoreSum(scores, c, ts);
      var n := |ts| as real;
      0.0 <= s.p <= n && 0.0 <= s.r <= n && 0.0 <= s.f <= n && 0.0 <= s.su <= n
    decreases ts
  {
    if ts != {} {
      ScoreSumBounds(scores, c, ts - {Pick(ts)});
    }
  }

  lemma DivideInUnit(x: real, n: nat, m: nat)
    requires 0.0 <= x <= n as real && n <= m && m > 0
    ensures InUnit(x / m as real)
  {
    assert x / m as real <= n as real / m as real;
  }

  /** Macro averages of metrics from [0, 1] lie in [0, 1]: at most
      `len(Scores)` targets contribute to a cutoff. */
  lemma MacroAverageInUnit<K, C>(scores: map<K, map<C, CellScores>>)
    requires forall t, c | t in scores && c in scores[t] :: ScoresInUnit(scores[t][c])
    ensures forall c | c in MacroAverage(scores) :: ScoresInUnit(MacroAverage(scores)[c])
  {
    forall c | c in MacroAverage(scores) ensures ScoresInUnit(MacroAverage(scores)[c]) {
      var ts := TargetsWith(scores, c);
      ScoreSumBounds(scores, c, ts);
      assert ts <= scores.Keys;
      var n := |ts|;
      var m := |scores.Keys|;
      assert n <= m by { SubsetCard(ts, scores.Keys); }
      var t :| t in scores && c in scores[t];
      assert t in ts;
      var s := ScoreSum(scores, c, ts);
      DivideInUnit(s.p, n, m);
      DivideInUnit(s.r, n, m);
      DivideInUnit(s.f, n, m);
      DivideInUnit(s.su, n, m);
    }
  }

  // ---------------------------------------------------------------------
  // Maximum over cutoffs

  /** A metric, or the F-score recomputed from a cell's averaged P and R. */
  datatype Measure = P | R | F | SU | FRecomputed

  function MeasureOf(s: CellScores, m: Measure): real {
    match m
    case P => s.p
    case R => s.r
    case F => s.f
    case SU => s.su
    case FRecomputed => FScore(s.p, s.r)
  }

  /** `v` is the maximum of measure `m` over the cutoffs of `row`. */
  ghost predicate IsMaxOf<C>(row: map<C, CellScores>, m: Measure, v: real) {
    && (exists c | c in row :: MeasureOf(row[c], m) == v)
    && (forall c | c in row :: MeasureOf(row[c], m) <= v)
  }

  /** Python `max` over the cutoffs of one target. */
  method MaxOverCutoffs<C>(row: map<C, CellScores>, m: Measure) returns (v: real)
    requires |row| > 0
    ensures IsMaxOf(row, m, v)
  {
    assert row.Keys != {} by { assert |row.Keys| > 0; }
    var c0 := Choose(row.Keys);
    v := MeasureOf(row[c0], m);
    var todo := row.Keys - {c0};
    while todo != {}
      invariant todo <= row.Keys
      invariant c0 in row && c0 !in todo
      invariant exists c | c in row :: MeasureOf(row[c], m) == v
      invariant forall c | c in row && c !in todo :: MeasureOf(row[c], m) <= v
      decreases todo
    {
      var c := Choose(todo);
      if MeasureOf(row[c], m) > v {
        v := MeasureOf(row[c], m);
      }
      todo := todo - {c};
    }
  }

  /** The best value of each metric for one target, taken independently. */
  ghost predicate IsBest<C>(row: map<C, CellScores>, b: CellScores) {
    IsMaxOf(row, P, b.p) && IsMaxOf(row, R, b.r) && IsMaxOf(row, F, b.f) && IsMaxOf(row, SU, b.su)
  }

  /** One target's maxima of P, R, F and SU over its cutoffs. */
  method BestOf<C>(row: map<C, CellScores>) returns (b: CellScores)
    requires |row| > 0
    ensures IsBest(row, b)
  {
    var p := MaxOverCutoffs(row, P);
    var rr := MaxOverCutoffs(row, R);
    var f := MaxOverCutoffs(row, F);
    var su := MaxOverCutoffs(row, SU);
    b := CellScores(p, rr, f, su);
  }

  datatype MaxScores<K> = MaxScores(best: map<K, CellScores>, fRecomputed: real)

  /** Why `find_max_scores` raises: `max` of an empty list, or no
      'average' entry. */
  datatype MaxError = NoCutoffs | NoAverage

  /** `find_max_scores`: for each target and each of P, R, F, SU, its
      maximum over that target's cutoffs; and for the average entry the
      maximum over cutoffs of F recomputed from the averaged P and R. */
  method FindMaxScores<K, C>(scores: map<K, map<C, CellScores>>, average: K) returns (r: Result<MaxScores<K>, MaxError>)
    ensures r == Failure(NoCutoffs) <==> exists t | t in scores :: |scores[t]| == 0
    ensures r == Failure(NoAverage) <==> (forall t | t in scores :: |scores[t]| > 0) && average !in scores
    ensures r.Success? ==> r.value.best.Keys == scores.Keys
    ensures r.Success? ==> forall t | t in scores :: IsBest(scores[t], r.value.best[t])
    ensures r.Success? ==> average in scores && IsMaxOf(scores[average], FRecomputed, r.value.fRecomputed)
  {
    var best := AllBest(scores);
    if best.Failure? {
      return Failure(NoCutoffs);
    }
    if average !in scores {
      return Failure(NoAverage);
    }
    var fr := MaxOverCutoffs(scores[average], FRecomputed);
    r := Success(MaxScores(best.value, fr));
  }

  /** The loop of `find_max_scores` over the targets: it raises at the
      first target without cutoffs. */
  method AllBest<K, C>(scores: map<K, map<C, CellScores>>) returns (r: Result<map<K, CellScores>, MaxError>)
    ensures r.Failure? <==> exists t | t in scores :: |scores[t]| == 0
    ensures r.Failure? ==> r.error == NoCutoffs
    ensures r.Success? ==> r.value.Keys == scores.Keys
    ensures r.Success? ==> forall t | t in scores :: IsBest(scores[t], r.value[t])
  {
    var best: map<K, CellScores> := map[];
    var todo := scores.Keys;
    while todo != {}
      invariant todo <= scores.Keys
      invariant best.Keys == scores.Keys - todo
      invariant forall t | t in best :: |scores[t]| > 0 && IsBest(scores[t], best[t])
      decreases todo
    {
      var t := Choose(todo);
      if |scores[t]| == 0 {
        return Failure(NoCutoffs);
      }
      var b := BestOf(scores[t]);
      best := best[t := b];
      todo := todo - {t};
    }
    return Success(best);
  }
}
