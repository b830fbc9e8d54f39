/** ComparableProfile of the KBA 2014 SSF profile scorer: per slot name a
    StringCounter of the slot's values, filled by add_value_for_slot and
    compared slot by slot with a kernel.  The class of scorer2/ssf.py and
    the earlier one of scorer_2/profile.py are the same class and differ
    only in the truncation default and in what compare does: `Compare` is
    the scorer2 method (it adds into the caller's scores), `CompareSum`
    the scorer_2 one (it returns the sum for one metric). */
module Profiles {
  import opened Wrappers
  import opened Sets
  import opened Sums
  import opened Kernels

  /** slot name -> StringCounter; a defaultdict(StringCounter). */
  type Slots = map<string, Counter>

  /** Reading a slot through the defaultdict: a missing slot is empty. */
  function SlotOf(slots: Slots, slot: string): Counter {
    if slot in slots then slots[slot] else map[]
  }

  /** truncate_counts when the constructor is not told: False in
      scorer2/ssf.py, True in scorer_2/profile.py. */
  const ScorerTruncateDefault := false
  const EarlyTruncateDefault := true

  // ---------------------------------------------------------------------
  // add_value_for_slot

  /** The slots after add_value_for_slot: the slot is created if missing;
      with truncation the count rises only from absent or 0. */
  function Added(slots: Slots, truncate: bool, slot: string, value: string): Slots {
    var sc := SlotOf(slots, slot);
    if truncate then
      if value !in sc then slots[slot := sc[value := Get(sc, value) + 1]]
      else if sc[value] == 0 then slots[slot := sc[value := Get(sc, value) + 1]]
      else slots[slot := sc]
    else slots[slot := sc[value := Get(sc, value) + 1]]
  }

  /** The slot exists afterwards and holds the value; with truncation the
      count becomes 1 unless it was already positive (negative counts,
      which the scorer never stores, are kept); without it the count rises
      by exactly 1; no other slot and no other value changes. */
  lemma AddedMeaning(slots: Slots, truncate: bool, slot: string, value: string)
    ensures Added(slots, truncate, slot, value).Keys == slots.Keys + {slot}
    ensures SlotOf(Added(slots, truncate, slot, value), slot).Keys == SlotOf(slots, slot).Keys + {value}
    ensures Get(SlotOf(Added(slots, truncate, slot, value), slot), value) ==
      if !truncate then Get(SlotOf(slots, slot), value) + 1
      else if Get(SlotOf(slots, slot), value) == 0 then 1
      else Get(SlotOf(slots, slot), value)
    ensures forall s | s != slot :: SlotOf(Added(slots, truncate, slot, value), s) == SlotOf(slots, s)
    ensures forall v | v != value ::
      Get(SlotOf(Added(slots, truncate, slot, value), slot), v) == Get(SlotOf(slots, slot), v)
  {
  }

  /** Every stored count is at least 1 (and exactly 1 when `one`). */
  ghost predicate CountsAtLeastOne(slots: Slots, one: bool) {
    forall s, v | s in slots && v in slots[s] :: slots[s][v] >= 1 && (one ==> slots[s][v] == 1)
  }

  /** add_value_for_slot keeps every count positive, and with truncation
      every count equal to 1. */
  lemma AddedKeepsCounts(slots: Slots, truncate: bool, slot: string, value: string)
    requires CountsAtLeastOne(slots, truncate)
    ensures CountsAtLeastOne(Added(slots, truncate, slot, value), truncate)
  {
    var r := Added(slots, truncate, slot, value);
    forall s, v | s in r && v in r[s]
      ensures r[s][v] >= 1 && (truncate ==> r[s][v] == 1)
    {
      AddedMeaning(slots, truncate, slot, value);
      assert r[s] == SlotOf(r, s);
      if s != slot || v != value {
        assert v in SlotOf(slots, s);
        assert r[s][v] == Get(SlotOf(slots, s), v);
      }
    }
  }

  /** The number of times `v` occurs in `vs`. */
  function Occurrences(vs: seq<string>, v: string): nat {
    if vs == [] then 0 else Occurrences(vs[..|vs| - 1], v) + (if vs[|vs| - 1] == v then 1 else 0)
  }

  /** Adding the values of `vs` to one slot, in order. */
  function AddedAll(slots: Slots, truncate: bool, slot: string, vs: seq<string>): Slots
    decreases |vs|
  {
    if vs == [] then slots
    else Added(AddedAll(slots, truncate, slot, vs[..|vs| - 1]), truncate, slot, vs[|vs| - 1])
  }

  /** From an empty profile: an empty token list adds nothing; otherwise
      the slot holds exactly the tokens, each counted once per occurrence,
      or once in all with truncation. */
  lemma {:induction false} AddedAllCounts(truncate: bool, slot: string, vs: seq<string>)
    ensures vs == [] ==> AddedAll(map[], truncate, slot, vs) == map[]
    ensures vs != [] ==> AddedAll(map[], truncate, slot, vs).Keys == {slot}
    ensures forall v :: v in SlotOf(AddedAll(map[], truncate, slot, vs), slot) <==> v in vs
    ensures forall v :: (Get(SlotOf(AddedAll(map[], truncate, slot, vs), slot), v) ==
      if truncate then (if v in vs then 1 else 0) else Occurrences(vs, v))
    decreases |vs|
  {
    if vs != [] {
      var init := vs[..|vs| - 1];
      var last := vs[|vs| - 1];
      AddedAllCounts(truncate, slot, init);
      AddedMeaning(AddedAll(map[], truncate, slot, init), truncate, slot, last);
      assert vs == init + [last];
      InInitOrLast(vs);
    }
  }

  /** An element of a non-empty list is in its front part or is its last. */
  lemma InInitOrLast(vs: seq<string>)
    requires vs != []
    ensures forall v :: v in vs <==> v in vs[..|vs| - 1] || v == vs[|vs| - 1]
  {
    forall v | v in vs ensures v in vs[..|vs| - 1] || v == vs[|vs| - 1] {
      var i :| 0 <= i < |vs| && vs[i] == v;
      if i < |vs| - 1 { assert vs[..|vs| - 1][i] == v; }
    }
  }

  // ---------------------------------------------------------------------
  // Padding and the score of two slot maps

  /** `other._slots[slot_name]` for every slot name in `keys`: each
      missing slot is inserted as an empty counter. */
  function Padded(slots: Slots, keys: set<string>): (r: Slots)
    ensures r.Keys == slots.Keys + keys
  {
    map s | s in slots.Keys + keys :: SlotOf(slots, s)
  }

  /** Padding is invisible through the defaultdict. */
  lemma PaddedReads(slots: Slots, keys: set<string>)
    ensures forall s :: SlotOf(Padded(slots, keys), s) == SlotOf(slots, s)
  {
  }

  lemma PaddedTwice(slots: Slots, k1: set<string>, k2: set<string>)
    ensures Padded(Padded(slots, k1), k2) == Padded(slots, k1 + k2)
  {
  }

  lemma PaddedOwnKeys(slots: Slots, keys: set<string>)
    requires keys <= slots.Keys
    ensures Padded(slots, keys) == slots
  {
  }

  /** The kernel's value on one slot, 0 where it is not defined. */
  ghost function SlotResult(m: Metric, mine: Slots, theirs: Slots, s: string): Result<real, KernelError> {
    KernelValue(m, SlotOf(mine, s), SlotOf(theirs, s))
  }

  ghost function SlotValue(m: Metric, mine: Slots, theirs: Slots, s: string): real {
    var v := SlotResult(m, mine, theirs, s); if v.Success? then v.value else 0.0
  }

  ghost function SlotTerm(m: Metric, mine: Slots, theirs: Slots): string -> real {
    s => SlotValue(m, mine, theirs, s)
  }

  /** The kernel summed over the slot names in `keys`. */
  ghost function SlotSum(m: Metric, mine: Slots, theirs: Slots, keys: set<string>): real
    decreases |keys|
  {
    if keys == {} then 0.0
    else
      var s := Pick(keys);
      SlotValue(m, mine, theirs, s) + SlotSum(m, mine, theirs, keys - {s})
  }

  /** SlotSum is the sum of SlotTerm, so the lemmas about sums apply. */
  lemma {:induction false} SlotSumIsSum(m: Metric, mine: Slots, theirs: Slots, keys: set<string>)
    ensures SlotSum(m, mine, theirs, keys) == SumOf(keys, SlotTerm(m, mine, theirs))
    decreases |keys|
  {
    if keys != {} {
      SlotSumIsSum(m, mine, theirs, keys - {Pick(keys)});
    }
  }

  ghost predicate DefinedOn(m: Metric, mine: Slots, theirs: Slots, keys: set<string>) {
    forall s | s in keys :: SlotResult(m, mine, theirs, s).Success?
  }

  /** What compare computes for one metric name: the kernel summed over
      this profile's slots against the other's (missing slots empty);
      an unknown name, or cosine off its zero guard, fails. */
  ghost function ProfileScore(name: string, mine: Slots, theirs: Slots): Result<real, KernelError> {
    match MetricByName(name)
    case Failure(e) => Failure(e)
    case Success(m) => MetricScore(m, mine, theirs)
  }

  /** The same for a metric already looked up. */
  ghost function MetricScore(m: Metric, mine: Slots, theirs: Slots): Result<real, KernelError> {
    if DefinedOn(m, mine, theirs, mine.Keys) then Success(SlotSum(m, mine, theirs, mine.Keys))
    else Failure(SqrtNotModelled)
  }

  /** Padding the other profile does not change any score. */
  lemma PaddingInvisible(name: string, mine: Slots, theirs: Slots, keys: set<string>)
    ensures ProfileScore(name, mine, Padded(theirs, keys)) == ProfileScore(name, mine, theirs)
  {
    if MetricByName(name).Success? {
      MetricPaddingInvisible(MetricByName(name).value, mine, theirs, keys);
    }
  }

  lemma MetricPaddingInvisible(m: Metric, mine: Slots, theirs: Slots, keys: set<string>)
    ensures MetricScore(m, mine, Padded(theirs, keys)) == MetricScore(m, mine, theirs)
  {
    PaddedReads(theirs, keys);
    DefinedOnSame(m, mine, Padded(theirs, keys), theirs, mine.Keys);
    SlotSumSame(m, mine, Padded(theirs, keys), theirs, mine.Keys);
  }

  /** Slot maps that read alike through the defaultdict score alike. */
  lemma DefinedOnSame(m: Metric, mine: Slots, t1: Slots, t2: Slots, ks: set<string>)
    requires forall s :: SlotOf(t1, s) == SlotOf(t2, s)
    ensures DefinedOn(m, mine, t1, ks) == DefinedOn(m, mine, t2, ks)
  {
    forall s ensures SlotResult(m, mine, t1, s) == SlotResult(m, mine, t2, s) {
      assert SlotOf(t1, s) == SlotOf(t2, s);
    }
  }

  lemma {:induction false} SlotSumSame(m: Metric, mine: Slots, t1: Slots, t2: Slots, ks: set<string>)
    requires forall s :: SlotOf(t1, s) == SlotOf(t2, s)
    ensures SlotSum(m, mine, t1, ks) == SlotSum(m, mine, t2, ks)
    decreases |ks|
  {
    if ks != {} {
      var s := Pick(ks);
      assert SlotResult(m, mine, t1, s) == SlotResult(m, mine, t2, s) by {
        assert SlotOf(t1, s) == SlotOf(t2, s);
      }
      SlotSumSame(m, mine, t1, t2, ks - {s});
    }
  }

  /** Every kernel gives 0 against an empty counter. */
  lemma KernelAgainstEmpty(m: Metric, sc: Counter)
    ensures KernelValue(m, sc, map[]) == Success(0.0)
  {
    var e: Counter := map[];
    assert e.Keys == {};
    match m {
      case SokalSneath =>
        CountInEmpty(sc.Keys);
      case Cosine =>
      case Dot =>
        DotOverEmpty(sc, sc.Keys);
      case CTT =>
        CountInEmpty(sc.Keys);
    }
  }

  /** Profiles with no slot names in common score 0 under every kernel. */
  lemma DisjointScoresZero(name: string, mine: Slots, theirs: Slots)
    requires name in AvailableMetrics
    requires mine.Keys !! theirs.Keys
    ensures ProfileScore(name, mine, theirs) == Success(0.0)
  {
    MetricByNameMeaning(name);
    var m := MetricByName(name).value;
    forall s | s in mine.Keys
      ensures KernelValue(m, SlotOf(mine, s), SlotOf(theirs, s)) == Success(0.0)
    {
      assert SlotOf(theirs, s) == map[];
      KernelAgainstEmpty(m, SlotOf(mine, s));
    }
    assert DefinedOn(m, mine, theirs, mine.Keys);
    SlotSumIsSum(m, mine, theirs, mine.Keys);
    SumRestrict(mine.Keys, {}, SlotTerm(m, mine, theirs));
    assert mine.Keys * {} == {};
  }

  /** A sokalsneath profile score lies between 0 and the number of slots. */
  lemma SokalProfileBounds(mine: Slots, theirs: Slots)
    ensures ProfileScore("sokalsneath", mine, theirs).Success?
    ensures 0.0 <= ProfileScore("sokalsneath", mine, theirs).value <= |mine.Keys| as real
  {
    forall s | s in mine.Keys ensures 0.0 <= SlotTerm(SokalSneath, mine, theirs)(s) <= 1.0 {
      SokalMeaning(SlotOf(mine, s), SlotOf(theirs, s));
    }
    SumUnitBounds(mine.Keys, SlotTerm(SokalSneath, mine, theirs));
    SlotSumIsSum(SokalSneath, mine, theirs, mine.Keys);
  }

  /** The scorer2 compare succeeds when every metric name succeeds. */
  ghost predicate ComparesOk(names: set<string>, mine: Slots, theirs: Slots) {
    forall n | n in names :: ProfileScore(n, mine, theirs).Success?
  }

  /** The other profile's slots are those before, padded by some of
      `keys` (where an exception stopped the padding part way). */
  ghost predicate PartlyPadded(before: Slots, after: Slots, keys: set<string>) {
    exists done: set<string> | done <= keys :: after == Padded(before, done)
  }

  lemma PaddedBy(theirs: Slots, read: set<string>, keys: set<string>)
    requires read <= keys
    ensures PartlyPadded(theirs, Padded(theirs, read), keys)
  {
  }

  /** Moving one element from the keys still to do to those done. */
  lemma DoneStep(all: set<string>, todo: set<string>, done: set<string>, s: string)
    requires todo <= all && done == all - todo && s in todo
    ensures todo - {s} <= all && done + {s} == all - (todo - {s}) && done + {s} <= all
  {
  }

  /** One more slot's kernel value joins the sum. */
  lemma TermStep(m: Metric, mine: Slots, theirs: Slots, done: set<string>, s: string, sum: real)
    requires s in mine && s !in done
    requires DefinedOn(m, mine, theirs, done) && sum == SlotSum(m, mine, theirs, done)
    requires KernelValue(m, mine[s], SlotOf(theirs, s)).Success?
    ensures DefinedOn(m, mine, theirs, done + {s})
    ensures sum + KernelValue(m, mine[s], SlotOf(theirs, s)).value == SlotSum(m, mine, theirs, done + {s})
  {
    SlotSumIsSum(m, mine, theirs, done);
    SlotSumIsSum(m, mine, theirs, done + {s});
    SumInsert(done, SlotTerm(m, mine, theirs), s);
  }

  lemma ScoreSuccess(m: Metric, mine: Slots, theirs: Slots, done: set<string>, sum: real)
    requires done == mine.Keys
    requires DefinedOn(m, mine, theirs, done) && sum == SlotSum(m, mine, theirs, done)
    ensures MetricScore(m, mine, theirs) == Success(sum)
  {
  }

  lemma ScoreFailure(m: Metric, mine: Slots, theirs: Slots, s: string)
    requires s in mine
    requires KernelValue(m, mine[s], SlotOf(theirs, s)).Failure?
    ensures KernelValue(m, mine[s], SlotOf(theirs, s)).error == SqrtNotModelled
    ensures MetricScore(m, mine, theirs) == Failure(SqrtNotModelled)
  {
  }

  /** The scores after the metric names in `done` were added in. */
  ghost predicate Accumulated(scores: map<string, real>, totals: map<string, real>, done: set<string>, mine: Slots, theirs: Slots) {
    && totals.Keys == scores.Keys
    && ComparesOk(done, mine, theirs)
    && (forall n | n in done && n in scores :: totals[n] == scores[n] + ProfileScore(n, mine, theirs).value)
    && (forall n | n in scores && n !in done :: totals[n] == scores[n])
  }

  lemma AccumulateStep(scores: map<string, real>, totals: map<string, real>, done: set<string>, n: string,
                       v: real, mine: Slots, theirs: Slots)
    requires Accumulated(scores, totals, done, mine, theirs) && n in scores && n !in done
    requires ProfileScore(n, mine, theirs) == Success(v)
    ensures Accumulated(scores, totals[n := totals[n] + v], done + {n}, mine, theirs)
  {
  }

  lemma AccumulateFails(scores: map<string, real>, done: set<string>, n: string, mine: Slots, theirs: Slots)
    requires n in scores && ProfileScore(n, mine, theirs).Failure?
    ensures !ComparesOk(scores.Keys, mine, theirs)
  {
  }

  lemma AccumulatedAll(scores: map<string, real>, totals: map<string, real>, done: set<string>, mine: Slots, theirs: Slots)
    requires Accumulated(scores, totals, done, mine, theirs) && done == scores.Keys
    ensures ComparesOk(scores.Keys, mine, theirs) && totals.Keys == scores.Keys
    ensures forall n | n in scores :: totals[n] == scores[n] + ProfileScore(n, mine, theirs).value
  {
  }

  /** A failing later metric pads a profile that the first metric already
      padded in full. */
  lemma PartlyPaddedStep(theirs: Slots, before: Slots, after: Slots, keys: set<string>, first: bool)
    requires before == if first then theirs else Padded(theirs, keys)
    requires PartlyPadded(before, after, keys)
    ensures PartlyPadded(theirs, after, keys)
  {
    var d :| d <= keys && after == Padded(before, d);
    if !first {
      PaddedTwice(theirs, keys, d);
      assert keys + d == keys;
      assert after == Padded(theirs, keys);
    }
  }

  // ---------------------------------------------------------------------
  // The class

  class ComparableProfile {
    const name: string
    const truncate: bool
    var slots: Slots

    constructor(name: string, truncate: bool)
      ensures this.name == name && this.truncate == truncate && slots == map[]
    {
      this.name := name;
      this.truncate := truncate;
      slots := map[];
    }

    /** add_value_for_slot. */
    method AddValueForSlot(slot: string, value: string)
      modifies this
      ensures slots == Added(old(slots), truncate, slot, value)
    {
      var sc := SlotOf(slots, slot);
      slots := slots[slot := sc];
      if truncate {
        if value !in slots[slot] {
          slots := slots[slot := sc[value := Get(sc, value) + 1]];
        } else if slots[slot][value] == 0 {
          slots := slots[slot := sc[value := Get(sc, value) + 1]];
        }
      } else {
        slots := slots[slot := sc[value := Get(sc, value) + 1]];
      }
    }

    /** compare of scorer_2/profile.py: the metric summed over this
        profile's slots; reading `other._slots` pads it with this
        profile's slot names. */
    method CompareSum(other: ComparableProfile, metricName: string) returns (r: Result<real, KernelError>)
      modifies other
      ensures r == ProfileScore(metricName, old(slots), old(other.slots))
      ensures r.Success? ==> other.slots == Padded(old(other.slots), old(slots).Keys)
      ensures r.Failure? ==> PartlyPadded(old(other.slots), other.slots, old(slots).Keys)
      ensures other != this ==> slots == old(slots)
      ensures other == this ==> other.slots == old(slots)
    {
      var metric := MetricByName(metricName);
      if metric.Failure? {
        assert other.slots == Padded(other.slots, {});
        return Failure(metric.error);
      }
      var padded;
      r, padded := PadAndSum(metric.value, slots, other.slots);
      other.slots := padded;
    }

    /** compare of scorer2/ssf.py: for each metric name in `scores`, adds
        the metric summed over this profile's slots to that entry. */
    method Compare(other: ComparableProfile, scores: map<string, real>) returns (r: Result<map<string, real>, KernelError>)
      modifies other
      ensures r.Success? <==> ComparesOk(scores.Keys, old(slots), old(other.slots))
      ensures r.Success? ==> r.value.Keys == scores.Keys
      ensures r.Success? ==> forall n | n in scores ::
        r.value[n] == scores[n] + ProfileScore(n, old(slots), old(other.slots)).value
      ensures r.Success? ==> other.slots == if scores == map[] then old(other.slots) else Padded(old(other.slots), old(slots).Keys)
      ensures r.Failure? ==> PartlyPadded(old(other.slots), other.slots, old(slots).Keys)
      ensures other != this ==> slots == old(slots)
      ensures other == this ==> other.slots == old(slots)
    {
      var mine := slots;
      ghost var theirs := other.slots;
      var totals := scores;
      var todo := scores.Keys;
      ghost var done: set<string> := {};
      while todo != {}
        invariant todo <= scores.Keys && done == scores.Keys - todo
        invariant other != this ==> slots == mine
        invariant other == this ==> other.slots == mine
        invariant other.slots == if done == {} then theirs else Padded(theirs, mine.Keys)
        invariant Accumulated(scores, totals, done, mine, theirs)
        decreases todo
      {
        var n := Choose(todo);
        ghost var before := other.slots;
        PaddingInvisible(n, mine, theirs, mine.Keys);
        var v := CompareSum(other, n);
        DoneStep(scores.Keys, todo, done, n);
        if v.Failure? {
          PartlyPaddedStep(theirs, before, other.slots, mine.Keys, done == {});
          AccumulateFails(scores, done, n, mine, theirs);
          return Failure(v.error);
        }
        if done != {} {
          PaddedTwice(theirs, mine.Keys, mine.Keys);
        }
        AccumulateStep(scores, totals, done, n, v.value, mine, theirs);
        totals := totals[n := totals[n] + v.value];
        todo := todo - {n};
        done := done + {n};
      }
      AccumulatedAll(scores, totals, done, mine, theirs);
      return Success(totals);
    }
  }

  /** The loop of compare (scorer_2): the kernel over `mine`'s slots
      against `theirs`. Each iteration reads one slot name from the other
      profile, which pads it; `padded` is the other profile's slots when
      the loop ends (at its end or at the kernel that raises), that is
      `theirs` padded by the slot names read so far. */
  method PadAndSum(m: Metric, mine: Slots, theirs: Slots) returns (r: Result<real, KernelError>, padded: Slots)
    ensures r == MetricScore(m, mine, theirs)
    ensures r.Success? ==> padded == Padded(theirs, mine.Keys)
    ensures r.Failure? ==> PartlyPadded(theirs, padded, mine.Keys)
  {
    var sum := 0.0;
    var todo := mine.Keys;
    var read: set<string> := {};
    while todo != {}
      invariant todo <= mine.Keys && read == mine.Keys - todo
      invariant DefinedOn(m, mine, theirs, read)
      invariant sum == SlotSum(m, mine, theirs, read)
      decreases todo
    {
      var v;
      v, todo, read := SlotStep(m, mine, theirs, todo, read, sum);
      if v.Failure? {
        PaddedBy(theirs, read, mine.Keys);
        return v, Padded(theirs, read);
      }
      sum := v.value;
    }
    ScoreSuccess(m, mine, theirs, read, sum);
    return Success(sum), Padded(theirs, mine.Keys);
  }

  /** One iteration of PadAndSum: some slot name still to do is read, and
      its kernel value added to `sum`; or the failure that ends compare. */
  method SlotStep(m: Metric, mine: Slots, theirs: Slots, todo: set<string>, read: set<string>, sum: real)
    returns (r: Result<real, KernelError>, todo': set<string>, read': set<string>)
    requires todo != {} && todo <= mine.Keys && read == mine.Keys - todo
    requires DefinedOn(m, mine, theirs, read) && sum == SlotSum(m, mine, theirs, read)
    ensures todo' < todo && todo' <= mine.Keys && read' == mine.Keys - todo'
    ensures r.Failure? ==> r == MetricScore(m, mine, theirs)
    ensures r.Success? ==> DefinedOn(m, mine, theirs, read') && r.value == SlotSum(m, mine, theirs, read')
  {
    var s := Choose(todo);
    DoneStep(mine.Keys, todo, read, s);
    todo', read' := todo - {s}, read + {s};
    var v := ApplyKernel(m, mine[s], SlotOf(theirs, s));
    if v.Failure? {
      ScoreFailure(m, mine, theirs, s);
      return Failure(v.error), todo', read';
    }
    TermStep(m, mine, theirs, read, s, sum);
    return Success(sum + v.value), todo', read';
  }
}
