/** The similarity kernels of the KBA 2014 profile scorer
    (scorer2/metrics.py) on StringCounters, and the lookup of a kernel by
    name.  Counts are integers and the kernels' float results are exact
    reals here. */
module Kernels {
  import opened Wrappers
  import opened Sets
  import opened Sums

  /** A StringCounter: a missing key reads as 0. */
  type Counter = map<string, int>

  function Get(sc: Counter, k: string): int {
    if k in sc then sc[k] else 0
  }

  datatype Metric = SokalSneath | Cosine | Dot | CTT

  /** `available_metrics`, in the source's order. */
  const AvailableMetrics: seq<string> := ["sokalsneath", "cosine", "dot", "c_TT"]

  function MetricName(m: Metric): string {
    match m
    case SokalSneath => "sokalsneath"
    case Cosine => "cosine"
    case Dot => "dot"
    case CTT => "c_TT"
  }

  /** An unknown kernel name, and the branch of cosine that takes a
      square root, which is not modelled. */
  datatype KernelError = NoSuchMetric(name: string) | SqrtNotModelled

  /** get_metric_by_name. */
  function MetricByName(name: string): Result<Metric, KernelError> {
    if name == "sokalsneath" then Success(SokalSneath)
    else if name == "cosine" then Success(Cosine)
    else if name == "dot" then Success(Dot)
    else if name == "c_TT" then Success(CTT)
    else Failure(NoSuchMetric(name))
  }

  /** The lookup succeeds exactly for the names in `available_metrics`,
      and it is the inverse of naming a kernel. */
  lemma MetricByNameMeaning(name: string)
    ensures MetricByName(name).Success? <==> name in AvailableMetrics
    ensures MetricByName(name).Success? ==> MetricName(MetricByName(name).value) == name
    ensures MetricByName(name).Failure? ==> MetricByName(name).error == NoSuchMetric(name)
  {
  }

  lemma MetricNameRoundTrip(m: Metric)
    ensures MetricByName(MetricName(m)) == Success(m)
    ensures MetricName(m) in AvailableMetrics
  {
  }

  // ---------------------------------------------------------------------
  // c_TT

  /** c_TT: the number of keys of `sc1` that `sc2` has too. */
  method CountBoth(sc1: Counter, sc2: Counter) returns (both: nat)
    ensures both == |sc1.Keys * sc2.Keys|
    ensures both <= |sc1.Keys| && both == |sc2.Keys * sc1.Keys|
  {
    both := 0;
    var todo := sc1.Keys;
    while todo != {}
      invariant both + CountIn(todo, sc2.Keys) == CountIn(sc1.Keys, sc2.Keys)
      decreases todo
    {
      var key := Choose(todo);
      CountRemove(todo, key, sc2.Keys);
      if key in sc2 {
        both := both + 1;
      }
      todo := todo - {key};
    }
    CountsAreCards(sc1.Keys, sc2.Keys);
    SharedBounds(sc1, sc2);
  }

  lemma SharedBounds(sc1: Counter, sc2: Counter)
    ensures |sc1.Keys * sc2.Keys| <= |sc1.Keys|
    ensures |sc1.Keys * sc2.Keys| == |sc2.Keys * sc1.Keys|
  {
    SubsetCard(sc1.Keys * sc2.Keys, sc1.Keys);
    assert sc1.Keys * sc2.Keys == sc2.Keys * sc1.Keys;
  }

  /** Either count may take out any key first, not only the one `Pick`
      chooses. */
  lemma CountRemove(keys: set<string>, key: string, t: set<string>)
    requires key in keys
    ensures CountIn(keys, t) == (if key in t then 1 else 0) + CountIn(keys - {key}, t)
    ensures CountOut(keys, t) == (if key in t then 0 else 1) + CountOut(keys - {key}, t)
  {
    CountInRemove(keys, key, t);
    CountOutRemove(keys, key, t);
  }

  lemma CountInRemove(keys: set<string>, key: string, t: set<string>)
    requires key in keys
    ensures CountIn(keys, t) == (if key in t then 1 else 0) + CountIn(keys - {key}, t)
  {
    var rest := keys - {key};
    CountInIsCard(keys, t);
    CountInIsCard(rest, t);
    if key in t {
      assert keys * t == rest * t + {key};
    } else {
      assert keys * t == rest * t;
    }
  }

  lemma CountOutRemove(keys: set<string>, key: string, t: set<string>)
    requires key in keys
    ensures CountOut(keys, t) == (if key in t then 0 else 1) + CountOut(keys - {key}, t)
  {
    var rest := keys - {key};
    CountOutIsCard(keys, t);
    CountOutIsCard(rest, t);
    if key in t {
      assert keys - t == rest - t;
    } else {
      assert keys - t == (rest - t) + {key};
    }
  }

  // ---------------------------------------------------------------------
  // sokalsneath

  /** The closing formula: 0 when all three counts are 0, otherwise
      both / (both + 2 (anotb + bnota)). */
  function SokalRatio(both: nat, anotb: nat, bnota: nat): real {
    var r := 2 * (anotb + bnota);
    if both + r == 0 then 0.0 else both as real / (both + r) as real
  }

  /** The number of elements of `keys` that `t` has, taken one at a time
      as the kernels' loops take them. */
  ghost function CountIn(keys: set<string>, t: set<string>): nat
    decreases |keys|
  {
    if keys == {} then 0
    else
      var k := Pick(keys);
      (if k in t then 1 else 0) + CountIn(keys - {k}, t)
  }

  /** The number of elements of `keys` that `t` lacks. */
  ghost function CountOut(keys: set<string>, t: set<string>): nat
    decreases |keys|
  {
    if keys == {} then 0
    else
      var k := Pick(keys);
      (if k in t then 0 else 1) + CountOut(keys - {k}, t)
  }

  /** The counts are the sizes of the intersection and the difference. */
  lemma CountsAreCards(keys: set<string>, t: set<string>)
    ensures CountIn(keys, t) == |keys * t|
    ensures CountOut(keys, t) == |keys - t|
  {
    CountInIsCard(keys, t);
    CountOutIsCard(keys, t);
  }

  lemma {:induction false} CountInIsCard(keys: set<string>, t: set<string>)
    ensures CountIn(keys, t) == |keys * t|
    decreases |keys|
  {
    if keys != {} {
      var k := Pick(keys);
      var rest := keys - {k};
      CountInIsCard(rest, t);
      if k in t {
        assert keys * t == rest * t + {k};
      } else {
        assert keys * t == rest * t;
      }
    }
  }

  lemma {:induction false} CountOutIsCard(keys: set<string>, t: set<string>)
    ensures CountOut(keys, t) == |keys - t|
    decreases |keys|
  {
    if keys != {} {
      var k := Pick(keys);
      var rest := keys - {k};
      CountOutIsCard(rest, t);
      if k in t {
        assert keys - t == rest - t;
      } else {
        assert keys - t == (rest - t) + {k};
      }
    }
  }


  /** sokalsneath as the source computes it: `both` and `anotb` count the
      keys of `sc1` that `sc2` has and lacks; the second loop tests the
      keys of `sc2` against `sc2` itself, so `bnota` stays 0. */
  ghost function SokalScore(sc1: Counter, sc2: Counter): real {
    SokalRatio(CountIn(sc1.Keys, sc2.Keys), CountOut(sc1.Keys, sc2.Keys), 0)
  }

  method SokalSneathKernel(sc1: Counter, sc2: Counter) returns (score: real)
    ensures score == SokalScore(sc1, sc2)
  {
    var both, anotb := SplitCount(sc1, sc2);
    var bnota := 0;
    var rest := sc2.Keys;
    while rest != {}
      invariant rest <= sc2.Keys
      invariant bnota == 0
      decreases rest
    {
      var key := Choose(rest);
      if key !in sc2 {
        bnota := bnota + 1;
      }
      rest := rest - {key};
    }
    score := SokalRatio(both, anotb, bnota);
  }

  /** The first loop of sokalsneath: the keys of `sc1` that `sc2` has
      (`both`) and lacks (`anotb`). */
  method SplitCount(sc1: Counter, sc2: Counter) returns (both: nat, anotb: nat)
    ensures both == CountIn(sc1.Keys, sc2.Keys) && anotb == CountOut(sc1.Keys, sc2.Keys)
  {
    both, anotb := 0, 0;
    var todo := sc1.Keys;
    while todo != {}
      invariant both + CountIn(todo, sc2.Keys) == CountIn(sc1.Keys, sc2.Keys)
      invariant anotb + CountOut(todo, sc2.Keys) == CountOut(sc1.Keys, sc2.Keys)
      decreases todo
    {
      var key := Choose(todo);
      CountRemove(todo, key, sc2.Keys);
      if key in sc2 {
        both := both + 1;
      } else {
        anotb := anotb + 1;
      }
      todo := todo - {key};
    }
  }

  /** The keys of `sc1` split into those `sc2` has and those it lacks. */
  lemma SplitKeys(sc1: Counter, sc2: Counter)
    ensures |sc1.Keys * sc2.Keys| + |sc1.Keys - sc2.Keys| == |sc1.Keys|
  {
    assert sc1.Keys == (sc1.Keys * sc2.Keys) + (sc1.Keys - sc2.Keys);
    assert (sc1.Keys * sc2.Keys) !! (sc1.Keys - sc2.Keys);
  }

  /** The score lies in [0, 1]; it is 1 exactly when `sc1` has a key and
      all its keys are in `sc2`, and 0 exactly when no key is shared. */
  lemma SokalMeaning(sc1: Counter, sc2: Counter)
    ensures 0.0 <= SokalScore(sc1, sc2) <= 1.0
    ensures SokalScore(sc1, sc2) == 1.0 <==> sc1.Keys != {} && sc1.Keys <= sc2.Keys
    ensures SokalScore(sc1, sc2) == 0.0 <==> sc1.Keys * sc2.Keys == {}
  {
    CountsAreCards(sc1.Keys, sc2.Keys);
    RatioMeaning(|sc1.Keys * sc2.Keys|, |sc1.Keys - sc2.Keys|);
    if !(sc1.Keys <= sc2.Keys) {
      var k :| k in sc1.Keys && k !in sc2.Keys;
      assert k in sc1.Keys - sc2.Keys;
    }
    if sc1.Keys != {} && sc1.Keys <= sc2.Keys {
      var k :| k in sc1.Keys;
      assert k in sc1.Keys * sc2.Keys;
    }
    assert sc1.Keys == (sc1.Keys * sc2.Keys) + (sc1.Keys - sc2.Keys);
  }

  /** The formula with `bnota` at 0: in [0, 1], 1 exactly when something
      is shared and nothing is not, 0 exactly when nothing is shared. */
  lemma RatioMeaning(both: nat, anotb: nat)
    ensures 0.0 <= SokalRatio(both, anotb, 0) <= 1.0
    ensures SokalRatio(both, anotb, 0) == 1.0 <==> both > 0 && anotb == 0
    ensures SokalRatio(both, anotb, 0) == 0.0 <==> both == 0
  {
    if both + 2 * anotb > 0 {
      var d := (both + 2 * anotb) as real;
      var q := both as real / d;
      assert q * d == both as real;
      assert both as real <= d;
      assert q <= 1.0;
      assert q == 1.0 <==> anotb == 0;
    }
  }

  /** Keys that only `sc2` has do not change the score (the effect of the
      second loop testing `sc2` against itself). */
  lemma SokalIgnoresExtraKeys(sc1: Counter, sc2: Counter, k: string, v: int)
    requires k !in sc1
    ensures SokalScore(sc1, sc2[k := v]) == SokalScore(sc1, sc2)
  {
    CountsAgree(sc1.Keys, sc2[k := v].Keys, sc2.Keys);
  }

  /** The counts depend only on which elements of `keys` each set holds. */
  lemma {:induction false} CountsAgree(keys: set<string>, t1: set<string>, t2: set<string>)
    requires forall k | k in keys :: (k in t1) == (k in t2)
    ensures CountIn(keys, t1) == CountIn(keys, t2)
    ensures CountOut(keys, t1) == CountOut(keys, t2)
    decreases |keys|
  {
    if keys != {} {
      var k := Pick(keys);
      CountsAgree(keys - {k}, t1, t2);
    }
  }

  // ---------------------------------------------------------------------
  // dot and cosine

  /** One term of the dot product. */
  function Term(sc1: Counter, sc2: Counter): string -> real {
    k => (Get(sc1, k) * Get(sc2, k)) as real
  }

  /** The sum over `keys` of sc1[k] * sc2[k]. */
  ghost function DotOver(sc1: Counter, sc2: Counter, keys: set<string>): real
    decreases |keys|
  {
    if keys == {} then 0.0
    else
      var k := Pick(keys);
      (Get(sc1, k) * Get(sc2, k)) as real + DotOver(sc1, sc2, keys - {k})
  }

  /** Against an empty counter every term of the dot product is 0. */
  lemma {:induction false} DotOverEmpty(sc: Counter, keys: set<string>)
    ensures DotOver(sc, map[], keys) == 0.0
    decreases |keys|
  {
    if keys != {} {
      DotOverEmpty(sc, keys - {Pick(keys)});
    }
  }

  /** No key is shared with the empty set. */
  lemma {:induction false} CountInEmpty(keys: set<string>)
    ensures CountIn(keys, {}) == 0
    decreases |keys|
  {
    if keys != {} {
      CountInEmpty(keys - {Pick(keys)});
    }
  }

  /** DotOver is the sum of Term, so the lemmas about sums apply. */
  lemma {:induction false} DotOverIsSum(sc1: Counter, sc2: Counter, keys: set<string>)
    ensures DotOver(sc1, sc2, keys) == SumOf(keys, Term(sc1, sc2))
    decreases |keys|
  {
    if keys != {} {
      DotOverIsSum(sc1, sc2, keys - {Pick(keys)});
    }
  }

  /** dot: the sum over the keys of `sc1` of sc1[k] * sc2[k]. */
  ghost function DotValue(sc1: Counter, sc2: Counter): real {
    DotOver(sc1, sc2, sc1.Keys)
  }

  method DotKernel(sc1: Counter, sc2: Counter) returns (dotSum: real)
    ensures dotSum == DotValue(sc1, sc2)
  {
    dotSum := 0.0;
    var todo := sc1.Keys;
    ghost var all := todo;
    ghost var done: set<string> := {};
    while todo != {}
      invariant todo <= all && done == all - todo
      invariant dotSum == SumOf(done, Term(sc1, sc2))
      decreases todo
    {
      var key := Choose(todo);
      SumInsert(done, Term(sc1, sc2), key);
      dotSum := dotSum + (sc1[key] * Get(sc2, key)) as real;
      todo := todo - {key};
      done := done + {key};
    }
    assert done == sc1.Keys;
    DotOverIsSum(sc1, sc2, sc1.Keys);
  }

  /** The sum runs over `sc1`'s keys only, yet dot is symmetric: the
      terms of keys one counter lacks are 0. */
  lemma DotSymmetric(sc1: Counter, sc2: Counter)
    ensures DotValue(sc1, sc2) == DotValue(sc2, sc1)
  {
    DotOverIsSum(sc1, sc2, sc1.Keys);
    DotOverIsSum(sc2, sc1, sc2.Keys);
    SumRestrict(sc1.Keys, sc2.Keys, Term(sc1, sc2));
    SumRestrict(sc2.Keys, sc1.Keys, Term(sc2, sc1));
    assert sc1.Keys * sc2.Keys == sc2.Keys * sc1.Keys;
    SumExt(sc1.Keys * sc2.Keys, Term(sc1, sc2), Term(sc2, sc1));
  }

  /** dot(sc, sc) is a sum of squares: never negative, and 0 exactly when
      every count is 0. */
  lemma DotSelf(sc: Counter)
    ensures DotValue(sc, sc) >= 0.0
    ensures DotValue(sc, sc) == 0.0 <==> forall k | k in sc :: sc[k] == 0
  {
    forall k | k in sc.Keys
      ensures Term(sc, sc)(k) >= 0.0
      ensures Term(sc, sc)(k) == 0.0 <==> sc[k] == 0
    {
      Square(sc[k]);
    }
    SumNonneg(sc.Keys, Term(sc, sc));
    DotOverIsSum(sc, sc, sc.Keys);
  }

  lemma Square(x: int)
    ensures x * x >= 0
    ensures x * x == 0 <==> x == 0
  {
    if x != 0 {
      if x > 0 {
        assert x * x >= x;
      } else {
        assert x * x == (-x) * (-x);
        assert (-x) * (-x) >= -x;
      }
    }
  }

  /** cosine up to its zero-norm guard: 0 when either counter has a zero
      norm; the square root of the other branch is not modelled. */
  method CosineKernel(sc1: Counter, sc2: Counter) returns (r: Result<real, KernelError>)
    ensures r.Success? <==> DotValue(sc1, sc1) == 0.0 || DotValue(sc2, sc2) == 0.0
    ensures r.Success? ==> r.value == 0.0
    ensures r.Failure? ==> r.error == SqrtNotModelled
  {
    var product := DotKernel(sc1, sc2);
    var norm1 := DotKernel(sc1, sc1);
    var norm2 := DotKernel(sc2, sc2);
    if norm1 == 0.0 || norm2 == 0.0 {
      return Success(0.0);
    }
    return Failure(SqrtNotModelled);
  }

  // ---------------------------------------------------------------------
  // Dispatch

  /** What a kernel returns. */
  ghost function KernelValue(m: Metric, sc1: Counter, sc2: Counter): Result<real, KernelError> {
    match m
    case SokalSneath => Success(SokalScore(sc1, sc2))
    case Cosine =>
      if DotValue(sc1, sc1) == 0.0 || DotValue(sc2, sc2) == 0.0 then Success(0.0) else Failure(SqrtNotModelled)
    case Dot => Success(DotValue(sc1, sc2))
    case CTT => Success(CountIn(sc1.Keys, sc2.Keys) as real)
  }

  /** Calling the kernel that get_metric_by_name returned. */
  method ApplyKernel(m: Metric, sc1: Counter, sc2: Counter) returns (r: Result<real, KernelError>)
    ensures r == KernelValue(m, sc1, sc2)
  {
    match m {
      case SokalSneath =>
        var s := SokalSneathKernel(sc1, sc2);
        r := Success(s);
      case Cosine =>
        r := CosineKernel(sc1, sc2);
      case Dot =>
        var s := DotKernel(sc1, sc2);
        r := Success(s);
      case CTT =>
        var n := CountBoth(sc1, sc2);
        CountsAreCards(sc1.Keys, sc2.Keys);
        r := Success(n as real);
    }
  }

  /** Only cosine can fail, and only away from its guard. */
  lemma KernelDefined(m: Metric, sc1: Counter, sc2: Counter)
    ensures KernelValue(m, sc1, sc2).Failure? <==>
      m == Cosine && DotValue(sc1, sc1) != 0.0 && DotValue(sc2, sc2) != 0.0
  {
  }

  /** sokalsneath, and cosine where it is defined, give values in [0, 1]. */
  lemma KernelUnit(m: Metric, sc1: Counter, sc2: Counter)
    requires m == SokalSneath || m == Cosine
    requires KernelValue(m, sc1, sc2).Success?
    ensures 0.0 <= KernelValue(m, sc1, sc2).value <= 1.0
  {
    if m == SokalSneath {
      SokalMeaning(sc1, sc2);
    }
  }
}
