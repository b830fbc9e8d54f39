/** The DATE_HOURS stage of the SSF scorer (scorer/ssf.py,
    score_confusion_matrix_DATE_HOURS): of the FILLS records, which arrive
    in date_hour order, only the first per equiv_id is passed on. */
module SsfHours {
  import opened Wrappers
  import opened SsfTruth
  import opened SsfMatrix
  import opened SsfDocs
  import Ccr
  import Ladder

  datatype HoursState = HoursState(seen: set<Equiv>, kept: seq<Rec>, cm: Matrices)

  /** One record.  A repeat is a negative for its target.  A first
      occurrence is kept, is a positive on the row keyed by the flag (the
      stage passes the flag where the target belongs), and back-fills FN
      in the DATE_HOURS row of its target, which the defaultdict creates
      empty when it is absent. */
  function HoursStep(st: HoursState, r: Rec, pos: Positives, cutoffs: seq<nat>, flag: bool): HoursState {
    if r.equiv in st.seen then
      st.(cm := st.cm.(docs := Incremented(st.cm.docs, false, r.conf, cutoffs, Target(r.target))))
    else
      var t := Target(r.target);
      var docs := Incremented(st.cm.docs, true, r.conf, cutoffs, Flag(flag));
      var hours := st.cm.dateHours[t := Ccr.FilledRow(RowOf(st.cm.dateHours, t), PosOf(pos, DATE_HOURS, t))];
      HoursState(st.seen + {r.equiv}, st.kept + [r], st.cm.(docs := docs, dateHours := hours))
  }

  function HoursFold(cm: Matrices, recs: seq<Rec>, pos: Positives, cutoffs: seq<nat>, flag: bool): HoursState
    decreases |recs|
  {
    if |recs| == 0 then HoursState({}, [], cm)
    else
      var n := |recs| - 1;
      HoursStep(HoursFold(cm, recs[..n], pos, cutoffs, flag), recs[n], pos, cutoffs, flag)
  }

  /** score_confusion_matrix_DATE_HOURS as a function of the FILLS
      records; it ends without a back-fill of its own. */
  function HoursSpec(cm: Matrices, recs: seq<Rec>, pos: Positives, step: int, flag: bool): Result<(Matrices, seq<Rec>), SsfError> {
    match Ladder.Cutoffs(step)
    case None => Failure(BadStep)
    case Some(cutoffs) =>
      var st := HoursFold(cm, recs, pos, cutoffs, flag);
      Success((st.cm, st.kept))
  }

  /** score_confusion_matrix_DATE_HOURS. */
  method ScoreHours(cm: Matrices, recs: seq<Rec>, pos: Positives, step: int, unannTN: bool)
    returns (r: Result<(Matrices, seq<Rec>), SsfError>)
    ensures r == HoursSpec(cm, recs, pos, step, unannTN)
  {
    var ladder := Ladder.Cutoffs(step);
    if ladder.None? {
      return Failure(BadStep);
    }
    var cutoffs := ladder.value;
    var seen: set<Equiv> := {};
    var kept: seq<Rec> := [];
    var cm2 := cm;
    for i := 0 to |recs|
      invariant HoursState(seen, kept, cm2) == HoursFold(cm, recs[..i], pos, cutoffs, unannTN)
    {
      assert recs[..i + 1][..i] == recs[..i];
      var rec := recs[i];
      if rec.equiv in seen {
        cm2 := IncrementCM(cm2, false, rec.conf, cutoffs, DATE_HOURS, Target(rec.target), unannTN);
        continue;
      }
      seen := seen + {rec.equiv};
      kept := kept + [rec];
      cm2 := IncrementCM(cm2, true, rec.conf, cutoffs, FILLS, Flag(unannTN), false);
      var t := Target(rec.target);
      var row := Ccr.FillCells(RowOf(cm2.dateHours, t), PosOf(pos, DATE_HOURS, t));
      cm2 := cm2.(dateHours := cm2.dateHours[t := row]);
    }
    assert recs[..|recs|] == recs;
    return Success((cm2, kept));
  }

  // ---------------------------------------------------------------------
  // What the stage keeps

  /** The equiv_ids of some records. */
  function Equivs(recs: seq<Rec>): set<Equiv> {
    set i | 0 <= i < |recs| :: recs[i].equiv
  }

  /** The first record of each equiv_id, in their order (reference). */
  function Firsts(recs: seq<Rec>): seq<Rec>
    decreases |recs|
  {
    if |recs| == 0 then []
    else
      var n := |recs| - 1;
      if recs[n].equiv in Equivs(recs[..n]) then Firsts(recs[..n]) else Firsts(recs[..n]) + [recs[n]]
  }

  /** Record `i` is the first of its equiv_id. */
  predicate IsFirst(recs: seq<Rec>, i: int)
    requires 0 <= i < |recs|
  {
    forall j | 0 <= j < i :: recs[j].equiv != recs[i].equiv
  }

  lemma EquivsStep(recs: seq<Rec>)
    requires |recs| > 0
    ensures Equivs(recs) == Equivs(recs[..|recs| - 1]) + {recs[|recs| - 1].equiv}
  {
    var n := |recs| - 1;
    forall e | e in Equivs(recs)
      ensures e in Equivs(recs[..n]) + {recs[n].equiv}
    {
      var i :| 0 <= i < |recs| && recs[i].equiv == e;
      if i < n {
        assert recs[..n][i] == recs[i];
      }
    }
    forall e | e in Equivs(recs[..n])
      ensures e in Equivs(recs)
    {
      var i :| 0 <= i < n && recs[..n][i].equiv == e;
      assert recs[i] == recs[..n][i];
    }
  }

  /** The pass keeps exactly the first records, and its `seen` set is the
      set of all equiv_ids met. */
  lemma {:induction false} HoursFoldKept(cm: Matrices, recs: seq<Rec>, pos: Positives, cutoffs: seq<nat>, flag: bool)
    ensures HoursFold(cm, recs, pos, cutoffs, flag).seen == Equivs(recs)
    ensures HoursFold(cm, recs, pos, cutoffs, flag).kept == Firsts(recs)
    decreases |recs|
  {
    if |recs| > 0 {
      HoursFoldKept(cm, recs[..|recs| - 1], pos, cutoffs, flag);
      EquivsStep(recs);
    }
  }

  /** What the DATE_HOURS stage returns: it fails only for a cutoff step
      of 0, and passes on exactly the first record of each equiv_id. */
  lemma HoursMeaning(cm: Matrices, recs: seq<Rec>, pos: Positives, step: int, flag: bool)
    ensures HoursSpec(cm, recs, pos, step, flag).Failure? <==> step == 0
    ensures HoursSpec(cm, recs, pos, step, flag).Success? ==> HoursSpec(cm, recs, pos, step, flag).value.1 == Firsts(recs)
  {
    if Ladder.Cutoffs(step).Some? {
      HoursFoldKept(cm, recs, pos, Ladder.Cutoffs(step).value, flag);
    }
  }

  /** The first records: one per equiv_id met. */
  lemma {:induction false} FirstsCover(recs: seq<Rec>)
    ensures Equivs(Firsts(recs)) == Equivs(recs)
    ensures |Firsts(recs)| == |Equivs(recs)|
    decreases |recs|
  {
    if |recs| > 0 {
      var n := |recs| - 1;
      var init := recs[..n];
      FirstsCover(init);
      EquivsStep(recs);
      var f := Firsts(init);
      var last := recs[n];
      if last.equiv !in Equivs(init) {
        var f2 := f + [last];
        assert f2[..|f|] == f;
        EquivsStep(f2);
        assert |Equivs(recs)| == |Equivs(init)| + 1;
      }
    }
  }

  /** No two first records have the same equiv_id. */
  lemma {:induction false} FirstsDistinct(recs: seq<Rec>)
    ensures forall a, b | 0 <= a < b < |Firsts(recs)| :: Firsts(recs)[a].equiv != Firsts(recs)[b].equiv
    decreases |recs|
  {
    if |recs| > 0 {
      var n := |recs| - 1;
      var init := recs[..n];
      FirstsDistinct(init);
      FirstsCover(init);
      var f := Firsts(init);
      var last := recs[n];
      if last.equiv !in Equivs(init) {
        var f2 := f + [last];
        forall a, b | 0 <= a < b < |f2|
          ensures f2[a].equiv != f2[b].equiv
        {
          assert f2[a] == f[a];
          if b == |f| {
            assert f[a].equiv in Equivs(f);
          } else {
            assert f2[b] == f[b];
          }
        }
      }
    }
  }

  /** Each first record is taken from the input, where it is the earliest
      record with its equiv_id, and every such earliest record is taken. */
  lemma {:induction false} FirstsAreFirst(recs: seq<Rec>)
    ensures forall a | 0 <= a < |Firsts(recs)| ::
      exists i | 0 <= i < |recs| :: recs[i] == Firsts(recs)[a] && IsFirst(recs, i)
    ensures forall i | 0 <= i < |recs| && IsFirst(recs, i) :: recs[i] in Firsts(recs)
    decreases |recs|
  {
    if |recs| > 0 {
      var n := |recs| - 1;
      var init := recs[..n];
      FirstsAreFirst(init);
      var f := Firsts(init);
      var last := recs[n];
      forall a | 0 <= a < |f|
        ensures exists i | 0 <= i < |recs| :: recs[i] == f[a] && IsFirst(recs, i)
      {
        var i :| 0 <= i < n && init[i] == f[a] && IsFirst(init, i);
        PrefixFirst(recs, n, i);
      }
      forall i | 0 <= i < n && IsFirst(recs, i)
        ensures recs[i] in f
      {
        PrefixFirst(recs, n, i);
      }
      if last.equiv in Equivs(init) {
        var j :| 0 <= j < n && init[j].equiv == last.equiv;
        assert recs[j] == init[j];
        assert !IsFirst(recs, n);
        assert Firsts(recs) == f;
      } else {
        assert IsFirst(recs, n) by {
          forall j | 0 <= j < n
            ensures recs[j].equiv != last.equiv
          {
            assert recs[j] == init[j];
          }
        }
        var f2 := f + [last];
        assert Firsts(recs) == f2;
        forall a | 0 <= a < |f2|
          ensures exists i | 0 <= i < |recs| :: recs[i] == f2[a] && IsFirst(recs, i)
        {
          if a < |f| {
            assert f2[a] == f[a];
          } else {
            assert recs[n] == f2[a];
          }
        }
      }
    } else {
      assert Firsts(recs) == [];
    }
  }

  /** Being first does not depend on what comes later. */
  lemma PrefixFirst(recs: seq<Rec>, n: nat, i: nat)
    requires i < n <= |recs|
    ensures recs[..n][i] == recs[i]
    ensures IsFirst(recs[..n], i) <==> IsFirst(recs, i)
  {
    assert forall j | 0 <= j < i :: recs[..n][j] == recs[j];
  }

  /** The DATE_HOURS table: its rows are those it had plus one per
      target of a kept record, and no cell comes into being, so a table
      that arrives empty, as it does from FILLS, leaves with empty rows
      only. */
  lemma {:induction false} HoursTable(cm: Matrices, recs: seq<Rec>, pos: Positives, cutoffs: seq<nat>, flag: bool)
    ensures var st := HoursFold(cm, recs, pos, cutoffs, flag);
      (forall t :: t in st.cm.dateHours <==>
         t in cm.dateHours || exists x | x in st.kept :: t == Target(x.target))
      && (forall t | t in st.cm.dateHours :: st.cm.dateHours[t].Keys == RowOf(cm.dateHours, t).Keys)
      && st.cm.overlaps == cm.overlaps && st.cm.fills == cm.fills
  {
    var st := HoursFold(cm, recs, pos, cutoffs, flag);
    HoursRows(cm, recs, pos, cutoffs, flag);
    HoursCellKeys(cm, recs, pos, cutoffs, flag);
    HoursOthers(cm, recs, pos, cutoffs, flag);
    forall t | t in st.cm.dateHours
      ensures st.cm.dateHours[t].Keys == RowOf(cm.dateHours, t).Keys
    {
      assert st.cm.dateHours[t] == RowOf(st.cm.dateHours, t);
    }
  }

  /** The rows of DATE_HOURS: those it had plus the kept records' targets. */
  lemma {:induction false} HoursRows(cm: Matrices, recs: seq<Rec>, pos: Positives, cutoffs: seq<nat>, flag: bool)
    ensures var st := HoursFold(cm, recs, pos, cutoffs, flag);
      forall t :: t in st.cm.dateHours <==> t in cm.dateHours || exists x | x in st.kept :: t == Target(x.target)
    decreases |recs|
  {
    if |recs| > 0 {
      var n := |recs| - 1;
      HoursRows(cm, recs[..n], pos, cutoffs, flag);
      HoursRowStep(cm.dateHours, HoursFold(cm, recs[..n], pos, cutoffs, flag), recs[n], pos, cutoffs, flag);
    }
  }

  lemma HoursRowStep(base: Table, st: HoursState, r: Rec, pos: Positives, cutoffs: seq<nat>, flag: bool)
    requires forall t :: t in st.cm.dateHours <==> t in base || exists x | x in st.kept :: t == Target(x.target)
    ensures var st2 := HoursStep(st, r, pos, cutoffs, flag);
      forall t :: t in st2.cm.dateHours <==> t in base || exists x | x in st2.kept :: t == Target(x.target)
  {
    var st2 := HoursStep(st, r, pos, cutoffs, flag);
    if r.equiv !in st.seen {
      forall t
        ensures t in st2.cm.dateHours <==> t in base || exists x | x in st2.kept :: t == Target(x.target)
      {
        if t in st2.cm.dateHours && t !in base && t != Target(r.target) {
          var x :| x in st.kept && t == Target(x.target);
          assert x in st2.kept;
        }
        if exists x | x in st2.kept :: t == Target(x.target) {
          var x :| x in st2.kept && t == Target(x.target);
          if x != r {
            assert x in st.kept;
          }
        }
      }
    }
  }

  /** Back-filling creates no cell: every row keeps the cells it had. */
  lemma {:induction false} HoursCellKeys(cm: Matrices, recs: seq<Rec>, pos: Positives, cutoffs: seq<nat>, flag: bool)
    ensures var st := HoursFold(cm, recs, pos, cutoffs, flag);
      forall t :: RowOf(st.cm.dateHours, t).Keys == RowOf(cm.dateHours, t).Keys
    decreases |recs|
  {
    if |recs| > 0 {
      HoursCellKeys(cm, recs[..|recs| - 1], pos, cutoffs, flag);
    }
  }

  /** The stage writes neither OVERLAPS nor FILLS. */
  lemma {:induction false} HoursOthers(cm: Matrices, recs: seq<Rec>, pos: Positives, cutoffs: seq<nat>, flag: bool)
    ensures var st := HoursFold(cm, recs, pos, cutoffs, flag);
      st.cm.overlaps == cm.overlaps && st.cm.fills == cm.fills
    decreases |recs|
  {
    if |recs| > 0 {
      HoursOthers(cm, recs[..|recs| - 1], pos, cutoffs, flag);
    }
  }

  /** Hence with the stage's own input every DATE_HOURS row is empty. */
  lemma HoursTableEmpty(cm: Matrices, recs: seq<Rec>, pos: Positives, cutoffs: seq<nat>, flag: bool)
    requires cm.dateHours == map[]
    ensures var st := HoursFold(cm, recs, pos, cutoffs, flag);
      forall t | t in st.cm.dateHours :: st.cm.dateHours[t] == map[]
  {
    HoursTable(cm, recs, pos, cutoffs, flag);
  }
}
