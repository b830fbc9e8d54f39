/** The OVERLAP stage of the SSF scorer (scorer/ssf.py,
    score_confusion_matrix_OVERLAP): every DOCS record is expanded into one
    record per truth class of its (stream_id, target_id, slot_type), with
    field 7 set to (run's equiv_id, truth's equiv_id), whether or not the
    byte ranges overlap. */
module SsfOverlap {
  import opened Wrappers
  import opened Sets
  import opened SsfTruth
  import opened SsfMatrix
  import opened SsfDocs
  import Ladder

  /** The classes under a record's slot; the defaultdict reads an empty
      dict for a slot the index does not have. */
  function ClassesFor(idx: Index, r: Rec): map<string, Fill> {
    if SlotOf(r) in idx then idx[SlotOf(r)] else map[]
  }

  /** The overlap test: some assessor byte range meets the run's. */
  predicate Overlaps(start: int, end: int, offsets: seq<(int, int)>) {
    exists i | 0 <= i < |offsets| :: start <= offsets[i].1 && end >= offsets[i].0
  }

  /** The loop over a class's offsets, which stops at the first hit. */
  method AnyOverlap(start: int, end: int, offsets: seq<(int, int)>) returns (b: bool)
    ensures b <==> Overlaps(start, end, offsets)
  {
    b := false;
    var i := 0;
    while i < |offsets|
      invariant 0 <= i <= |offsets|
      invariant forall j | 0 <= j < i :: !(start <= offsets[j].1 && end >= offsets[j].0)
    {
      if start <= offsets[i].1 && end >= offsets[i].0 {
        b := true;
        break;
      }
      i := i + 1;
    }
  }

  /** The offsets a class gives for a stream. */
  function OffsetsOf(f: Fill, stream: string): seq<(int, int)> {
    if stream in f.streams then f.streams[stream].offsets else []
  }

  /** A record with field 7 replaced by (run's equiv_id, `truth`). */
  function Pair(r: Rec, truth: string): Rec
    requires r.equiv.Run?
  {
    r.(equiv := Paired(r.equiv.id, truth))
  }

  /** A dict iteration order over a key set: every key once. */
  ghost predicate Enumerates(order: seq<string>, keys: set<string>) {
    (forall i, j | 0 <= i < j < |order| :: order[i] != order[j])
    && (forall k :: k in order <==> k in keys)
  }

  /** The records one DOCS record yields, class by class in `order`. */
  function Expand(r: Rec, order: seq<string>): (out: seq<Rec>)
    requires r.equiv.Run?
    ensures |out| == |order|
    ensures forall i | 0 <= i < |order| :: out[i] == Pair(r, order[i])
  {
    seq(|order|, i requires 0 <= i < |order| => Pair(r, order[i]))
  }

  /** One (record, class) pair on the DOCS table: a negative at the flag's
      row when the ranges miss, then a positive there in any case. */
  function ClassStep(tab: Table, r: Rec, f: Fill, cutoffs: seq<nat>, flag: bool): Table {
    var tab1 := if Overlaps(r.start, r.end, OffsetsOf(f, r.stream)) then tab
      else Incremented(tab, false, r.conf, cutoffs, Flag(flag));
    Incremented(tab1, true, r.conf, cutoffs, Flag(flag))
  }

  /** One record's classes, in `order`, on the DOCS table. */
  function RecTable(tab: Table, r: Rec, classes: map<string, Fill>, order: seq<string>, cutoffs: seq<nat>, flag: bool): Table
    requires forall k | k in order :: k in classes
    decreases |order|
  {
    if |order| == 0 then tab
    else
      var n := |order| - 1;
      ClassStep(RecTable(tab, r, classes, order[..n], cutoffs, flag), r, classes[order[n]], cutoffs, flag)
  }

  /** The expanded records of `recs`, record by record. */
  function OverlapOut(recs: seq<Rec>, orders: seq<seq<string>>): seq<Rec>
    requires |orders| == |recs|
    requires forall i | 0 <= i < |recs| :: recs[i].equiv.Run?
    decreases |recs|
  {
    if |recs| == 0 then []
    else
      var n := |recs| - 1;
      OverlapOut(recs[..n], orders[..n]) + Expand(recs[n], orders[n])
  }

  ghost predicate OrdersFor(recs: seq<Rec>, orders: seq<seq<string>>, idx: Index) {
    |orders| == |recs|
    && forall i | 0 <= i < |recs| :: Enumerates(orders[i], ClassesFor(idx, recs[i]).Keys)
  }

  /** The DOCS table after the stage's increments. */
  function OverlapTable(tab: Table, recs: seq<Rec>, orders: seq<seq<string>>, idx: Index, cutoffs: seq<nat>, flag: bool): Table
    requires OrdersFor(recs, orders, idx)
    decreases |recs|
  {
    if |recs| == 0 then tab
    else
      var n := |recs| - 1;
      var tab1 := OverlapTable(tab, recs[..n], orders[..n], idx, cutoffs, flag);
      RecTable(tab1, recs[n], ClassesFor(idx, recs[n]), orders[n], cutoffs, flag)
  }

  /** The body of the loop over DOCS records: the classes of one record
      in some dict order. */
  method ExpandRec(cm: Matrices, r: Rec, classes: map<string, Fill>, cutoffs: seq<nat>, flag: bool)
    returns (cm2: Matrices, out: seq<Rec>, ghost order: seq<string>)
    requires r.equiv.Run?
    ensures Enumerates(order, classes.Keys)
    ensures out == Expand(r, order)
    ensures cm2 == cm.(docs := RecTable(cm.docs, r, classes, order, cutoffs, flag))
  {
    cm2 := cm;
    out := [];
    order := [];
    var todo := classes.Keys;
    while todo != {}
      invariant todo <= classes.Keys
      invariant forall k :: k in order <==> k in classes.Keys - todo
      invariant forall i, j | 0 <= i < j < |order| :: order[i] != order[j]
      invariant out == Expand(r, order)
      invariant cm2 == cm.(docs := RecTable(cm.docs, r, classes, order, cutoffs, flag))
      decreases todo
    {
      var eq := Choose(todo);
      OrderStep(order, todo, classes.Keys, eq);
      cm2 := ClassOnce(cm2, r, classes[eq], cutoffs, flag);
      RecTableStep(cm.docs, r, classes, order, eq, cutoffs, flag);
      assert Expand(r, order + [eq]) == Expand(r, order) + [Pair(r, eq)];
      out := out + [Pair(r, eq)];
      order := order + [eq];
      todo := todo - {eq};
    }
  }

  /** One class of a DOCS record: a negative when the ranges miss, then a
      positive. */
  method ClassOnce(cm: Matrices, r: Rec, f: Fill, cutoffs: seq<nat>, flag: bool) returns (cm2: Matrices)
    ensures cm2 == cm.(docs := ClassStep(cm.docs, r, f, cutoffs, flag))
  {
    cm2 := cm;
    var overlaps := AnyOverlap(r.start, r.end, OffsetsOf(f, r.stream));
    if !overlaps {
      cm2 := IncrementCM(cm2, false, r.conf, cutoffs, OVERLAPS, Flag(flag), false);
    }
    cm2 := IncrementCM(cm2, true, r.conf, cutoffs, OVERLAPS, Flag(flag), false);
  }

  /** Taking one more key from `todo` keeps `order` an enumeration without
      repeats of the keys taken. */
  lemma OrderStep(order: seq<string>, todo: set<string>, keys: set<string>, eq: string)
    requires todo <= keys && eq in todo
    requires forall k :: k in order <==> k in keys - todo
    requires forall i, j | 0 <= i < j < |order| :: order[i] != order[j]
    ensures eq !in order
    ensures forall k :: k in order + [eq] <==> k in keys - (todo - {eq})
    ensures forall i, j | 0 <= i < j < |order + [eq]| :: (order + [eq])[i] != (order + [eq])[j]
  {
  }

  lemma RecTableStep(tab: Table, r: Rec, classes: map<string, Fill>, order: seq<string>, eq: string, cutoffs: seq<nat>, flag: bool)
    requires forall k | k in order :: k in classes
    requires eq in classes
    ensures RecTable(tab, r, classes, order + [eq], cutoffs, flag)
      == ClassStep(RecTable(tab, r, classes, order, cutoffs, flag), r, classes[eq], cutoffs, flag)
  {
    assert (order + [eq])[..|order|] == order;
  }

  lemma OverlapOutStep(recs: seq<Rec>, orders: seq<seq<string>>, r: Rec, order: seq<string>)
    requires |orders| == |recs|
    requires forall i | 0 <= i < |recs| :: recs[i].equiv.Run?
    requires r.equiv.Run?
    ensures OverlapOut(recs + [r], orders + [order]) == OverlapOut(recs, orders) + Expand(r, order)
  {
    assert (recs + [r])[..|recs|] == recs;
    assert (orders + [order])[..|recs|] == orders;
  }

  lemma OverlapTableStep(tab: Table, recs: seq<Rec>, orders: seq<seq<string>>, r: Rec, order: seq<string>,
                         idx: Index, cutoffs: seq<nat>, flag: bool)
    requires OrdersFor(recs, orders, idx)
    requires Enumerates(order, ClassesFor(idx, r).Keys)
    ensures OrdersFor(recs + [r], orders + [order], idx)
    ensures OverlapTable(tab, recs + [r], orders + [order], idx, cutoffs, flag)
      == RecTable(OverlapTable(tab, recs, orders, idx, cutoffs, flag), r, ClassesFor(idx, r), order, cutoffs, flag)
  {
    assert (recs + [r])[..|recs|] == recs;
    assert (orders + [order])[..|recs|] == orders;
  }

  lemma SweepStep(cm: Matrices, cm1: Matrices, cm2: Matrices, recs: seq<Rec>, i: nat, orders: seq<seq<string>>,
                  order: seq<string>, out: seq<Rec>, more: seq<Rec>, idx: Index, cutoffs: seq<nat>, flag: bool)
    requires i < |recs|
    requires forall j | 0 <= j < |recs| :: recs[j].equiv.Run?
    requires OrdersFor(recs[..i], orders, idx)
    requires out == OverlapOut(recs[..i], orders)
    requires cm1 == cm.(docs := OverlapTable(cm.docs, recs[..i], orders, idx, cutoffs, flag))
    requires Enumerates(order, ClassesFor(idx, recs[i]).Keys)
    requires more == Expand(recs[i], order)
    requires cm2 == cm1.(docs := RecTable(cm1.docs, recs[i], ClassesFor(idx, recs[i]), order, cutoffs, flag))
    ensures OrdersFor(recs[..i + 1], orders + [order], idx)
    ensures out + more == OverlapOut(recs[..i + 1], orders + [order])
    ensures cm2 == cm.(docs := OverlapTable(cm.docs, recs[..i + 1], orders + [order], idx, cutoffs, flag))
  {
    assert recs[..i + 1] == recs[..i] + [recs[i]];
    OverlapOutStep(recs[..i], orders, recs[i], order);
    OverlapTableStep(cm.docs, recs[..i], orders, recs[i], order, idx, cutoffs, flag);
  }

  /** The pass over the DOCS records. */
  method SweepOverlap(cm: Matrices, recs: seq<Rec>, idx: Index, cutoffs: seq<nat>, flag: bool)
    returns (cm2: Matrices, out: seq<Rec>, ghost orders: seq<seq<string>>)
    requires forall i | 0 <= i < |recs| :: recs[i].equiv.Run?
    ensures OrdersFor(recs, orders, idx)
    ensures out == OverlapOut(recs, orders)
    ensures cm2 == cm.(docs := OverlapTable(cm.docs, recs, orders, idx, cutoffs, flag))
  {
    cm2 := cm;
    out := [];
    orders := [];
    for i := 0 to |recs|
      invariant OrdersFor(recs[..i], orders, idx)
      invariant out == OverlapOut(recs[..i], orders)
      invariant cm2 == cm.(docs := OverlapTable(cm.docs, recs[..i], orders, idx, cutoffs, flag))
    {
      var r := recs[i];
      var classes := if (r.stream, r.target, r.slot) in idx then idx[(r.stream, r.target, r.slot)] else map[];
      assert classes == ClassesFor(idx, r);
      var more: seq<Rec>;
      ghost var order: seq<string>;
      ghost var cm1 := cm2;
      cm2, more, order := ExpandRec(cm2, r, classes, cutoffs, flag);
      SweepStep(cm, cm1, cm2, recs, i, orders, order, out, more, idx, cutoffs, flag);
      out := out + more;
      orders := orders + [order];
    }
    assert recs[..|recs|] == recs;
  }

  /** What the stage returns for one choice of dict orders. */
  ghost predicate OverlapResult(cm: Matrices, recs: seq<Rec>, idx: Index, pos: Positives, cutoffs: seq<nat>, flag: bool,
                                orders: seq<seq<string>>, res: (Matrices, seq<Rec>))
    requires forall i | 0 <= i < |recs| :: recs[i].equiv.Run?
  {
    OrdersFor(recs, orders, idx)
    && res.1 == OverlapOut(recs, orders)
    && res.0 == WithTable(cm.(docs := OverlapTable(cm.docs, recs, orders, idx, cutoffs, flag)),
                          OVERLAPS, Corrected(cm.overlaps, pos, OVERLAPS))
  }

  /** score_confusion_matrix_OVERLAP.  The flag `unannTN` is what the
      stage passes as the target of its increments.  The dict order over
      each slot's classes is not fixed; `orders` is the one taken. */
  method ScoreOverlap(cm: Matrices, recs: seq<Rec>, idx: Index, pos: Positives, step: int, unannTN: bool)
    returns (r: Result<(Matrices, seq<Rec>), SsfError>, ghost orders: seq<seq<string>>)
    requires forall i | 0 <= i < |recs| :: recs[i].equiv.Run?
    ensures r.Failure? <==> step == 0
    ensures r.Failure? ==> r.error == BadStep
    ensures r.Success? ==> OverlapResult(cm, recs, idx, pos, Ladder.Cutoffs(step).value, unannTN, orders, r.value)
  {
    var ladder := Ladder.Cutoffs(step);
    if ladder.None? {
      return Failure(BadStep), [];
    }
    var cm1, out;
    cm1, out, orders := SweepOverlap(cm, recs, idx, ladder.value, unannTN);
    var cm2 := CorrectFN(cm1, OVERLAPS, pos);
    return Success((cm2, out)), orders;
  }

  // ---------------------------------------------------------------------
  // What the stage returns

  /** The number of classes under each record's slot, summed. */
  function ClassCount(recs: seq<Rec>, idx: Index): nat
    decreases |recs|
  {
    if |recs| == 0 then 0
    else ClassCount(recs[..|recs| - 1], idx) + |ClassesFor(idx, recs[|recs| - 1]).Keys|
  }

  lemma {:induction false} DistinctCard(order: seq<string>, keys: set<string>)
    requires Enumerates(order, keys)
    ensures |order| == |keys|
    decreases |order|
  {
    if |order| > 0 {
      var n := |order| - 1;
      var last := order[n];
      assert Enumerates(order[..n], keys - {last}) by {
        forall k ensures k in order[..n] <==> k in keys - {last} {
          if k in order[..n] {
            var i :| 0 <= i < n && order[..n][i] == k;
            assert order[i] == k;
          }
          if k in keys - {last} {
            var i :| 0 <= i < |order| && order[i] == k;
            assert i != n;
            assert order[..n][i] == k;
          }
        }
      }
      DistinctCard(order[..n], keys - {last});
    } else {
      assert keys == {};
    }
  }

  /** A record is some DOCS record with field 7 set to (its equiv_id, one
      of its slot's truth equiv_ids). */
  ghost predicate Emitted(recs: seq<Rec>, idx: Index, x: Rec)
    requires forall i | 0 <= i < |recs| :: recs[i].equiv.Run?
  {
    exists i, eq | 0 <= i < |recs| && eq in ClassesFor(idx, recs[i]) :: x == Pair(recs[i], eq)
  }

  /** One record per (DOCS record, truth class of its slot), whatever the
      overlap test says: a record is emitted exactly when it is some DOCS
      record paired with one of its slot's truth classes, and there are as
      many as there are such pairs. */
  lemma OverlapMeaning(recs: seq<Rec>, orders: seq<seq<string>>, idx: Index)
    requires forall i | 0 <= i < |recs| :: recs[i].equiv.Run?
    requires OrdersFor(recs, orders, idx)
    ensures |OverlapOut(recs, orders)| == ClassCount(recs, idx)
    ensures forall x :: x in OverlapOut(recs, orders) <==> Emitted(recs, idx, x)
  {
    OverlapCount(recs, orders, idx);
    OverlapMembers(recs, orders, idx);
  }

  lemma {:induction false} OverlapCount(recs: seq<Rec>, orders: seq<seq<string>>, idx: Index)
    requires forall i | 0 <= i < |recs| :: recs[i].equiv.Run?
    requires OrdersFor(recs, orders, idx)
    ensures |OverlapOut(recs, orders)| == ClassCount(recs, idx)
    decreases |recs|
  {
    if |recs| > 0 {
      var n := |recs| - 1;
      assert OrdersFor(recs[..n], orders[..n], idx);
      OverlapCount(recs[..n], orders[..n], idx);
      DistinctCard(orders[n], ClassesFor(idx, recs[n]).Keys);
    }
  }

  lemma {:induction false} OverlapMembers(recs: seq<Rec>, orders: seq<seq<string>>, idx: Index)
    requires forall i | 0 <= i < |recs| :: recs[i].equiv.Run?
    requires OrdersFor(recs, orders, idx)
    ensures forall x :: x in OverlapOut(recs, orders) <==> Emitted(recs, idx, x)
    decreases |recs|
  {
    if |recs| > 0 {
      var n := |recs| - 1;
      assert OrdersFor(recs[..n], orders[..n], idx);
      OverlapMembers(recs[..n], orders[..n], idx);
      ExpandMembers(recs[n], orders[n], ClassesFor(idx, recs[n]));
      forall x ensures x in OverlapOut(recs, orders) <==> Emitted(recs, idx, x) {
        EmittedSnoc(recs, idx, x);
      }
    }
  }

  /** The records one DOCS record yields are it paired with each class. */
  lemma ExpandMembers(r: Rec, order: seq<string>, classes: map<string, Fill>)
    requires r.equiv.Run? && Enumerates(order, classes.Keys)
    ensures forall x :: x in Expand(r, order) <==> exists eq | eq in classes :: x == Pair(r, eq)
  {
    var ex := Expand(r, order);
    forall x ensures x in ex <==> exists eq | eq in classes :: x == Pair(r, eq) {
      if x in ex {
        var j :| 0 <= j < |ex| && ex[j] == x;
        assert order[j] in classes;
      }
      if exists eq | eq in classes :: x == Pair(r, eq) {
        var eq :| eq in classes && x == Pair(r, eq);
        var j :| 0 <= j < |order| && order[j] == eq;
        assert ex[j] == x;
      }
    }
  }

  /** A record is `r` paired with one of its slot's truth classes. */
  ghost predicate PairedFrom(idx: Index, r: Rec, x: Rec)
    requires r.equiv.Run?
  {
    exists eq | eq in ClassesFor(idx, r) :: x == Pair(r, eq)
  }

  /** The records emitted from a list: those of its front part and those of
      its last record. */
  lemma EmittedSnoc(recs: seq<Rec>, idx: Index, x: Rec)
    requires |recs| > 0 && forall i | 0 <= i < |recs| :: recs[i].equiv.Run?
    ensures Emitted(recs, idx, x) <==> (Emitted(recs[..|recs| - 1], idx, x) || PairedFrom(idx, recs[|recs| - 1], x))
  {
    var n := |recs| - 1;
    if Emitted(recs[..n], idx, x) {
      var i, eq :| 0 <= i < n && eq in ClassesFor(idx, recs[..n][i]) && x == Pair(recs[..n][i], eq);
      assert recs[..n][i] == recs[i];
    }
    if Emitted(recs, idx, x) {
      var i, eq :| 0 <= i < |recs| && eq in ClassesFor(idx, recs[i]) && x == Pair(recs[i], eq);
      if i < n {
        assert recs[..n][i] == recs[i];
      }
    }
  }

  /** The stage's increments all land in the DOCS row keyed by the flag:
      every other DOCS row is as it was. */
  lemma {:induction false} OverlapTableFlagOnly(tab: Table, recs: seq<Rec>, orders: seq<seq<string>>, idx: Index,
                                                 cutoffs: seq<nat>, flag: bool, u: TargetKey)
    requires OrdersFor(recs, orders, idx)
    requires Ladder.Distinct(cutoffs)
    requires u != Flag(flag)
    ensures var tab2 := OverlapTable(tab, recs, orders, idx, cutoffs, flag);
      (u in tab2 <==> u in tab) && RowOf(tab2, u) == RowOf(tab, u)
    decreases |recs|
  {
    if |recs| > 0 {
      var n := |recs| - 1;
      assert OrdersFor(recs[..n], orders[..n], idx);
      OverlapTableFlagOnly(tab, recs[..n], orders[..n], idx, cutoffs, flag, u);
      var tab1 := OverlapTable(tab, recs[..n], orders[..n], idx, cutoffs, flag);
      RecTableFlagOnly(tab1, recs[n], ClassesFor(idx, recs[n]), orders[n], cutoffs, flag, u);
    }
  }

  lemma {:induction false} RecTableFlagOnly(tab: Table, r: Rec, classes: map<string, Fill>, order: seq<string>,
                                             cutoffs: seq<nat>, flag: bool, u: TargetKey)
    requires forall k | k in order :: k in classes
    requires Ladder.Distinct(cutoffs)
    requires u != Flag(flag)
    ensures var tab2 := RecTable(tab, r, classes, order, cutoffs, flag);
      (u in tab2 <==> u in tab) && RowOf(tab2, u) == RowOf(tab, u)
    decreases |order|
  {
    if |order| > 0 {
      var n := |order| - 1;
      RecTableFlagOnly(tab, r, classes, order[..n], cutoffs, flag, u);
      var tab1 := RecTable(tab, r, classes, order[..n], cutoffs, flag);
      IncrementedMeaning(tab1, false, r.conf, cutoffs, Flag(flag));
      var tab2 := if Overlaps(r.start, r.end, OffsetsOf(classes[order[n]], r.stream)) then tab1
        else Incremented(tab1, false, r.conf, cutoffs, Flag(flag));
      IncrementedMeaning(tab2, true, r.conf, cutoffs, Flag(flag));
    }
  }

  /** The stage's own table is only back-filled: when it arrives empty, as
      it does from DOCS, it leaves empty, and the FILLS and DATE_HOURS
      tables are untouched. */
  lemma OverlapLeavesOtherTables(cm: Matrices, recs: seq<Rec>, idx: Index, pos: Positives, cutoffs: seq<nat>, flag: bool,
                                 orders: seq<seq<string>>, res: (Matrices, seq<Rec>))
    requires forall i | 0 <= i < |recs| :: recs[i].equiv.Run?
    requires OverlapResult(cm, recs, idx, pos, cutoffs, flag, orders, res)
    ensures res.0.fills == cm.fills && res.0.dateHours == cm.dateHours
    ensures cm.overlaps == map[] ==> res.0.overlaps == map[]
  {
  }

  /** The DOCS stage hands OVERLAP what it needs: every record it
      returns carries the run's own equiv_id in field 7. */
  lemma DocsFeedsOverlap(lines: seq<string>, idx: Index, pos: Positives, step: int)
    requires DocsSpec(lines, idx, pos, step).Success?
    ensures var out := DocsSpec(lines, idx, pos, step).value.1;
      forall i | 0 <= i < |out| :: out[i].equiv.Run?
  {
    DocsMeaning(lines, idx, pos, step);
    var out := DocsSpec(lines, idx, pos, step).value.1;
    forall i | 0 <= i < |out|
      ensures out[i].equiv.Run?
    {
      assert out[i] in out;
      var j :| 0 <= j < |lines| && ParseRunLine(lines[j]) == Success(Data(out[i]));
      ParseRunLineMeaning(lines[j]);
    }
  }
}
