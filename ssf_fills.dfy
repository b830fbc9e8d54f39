/** The FILLS stage of the SSF scorer (scorer/ssf.py,
    score_confusion_matrix_FILLS): the run's equiv_ids are matched to the
    truth's equiv_ids first come first served, through two dicts that are
    each other's inverse; a record that breaks the matching is a negative,
    one that keeps to it a positive, and one that starts a new pair is
    passed on without a count. */
module SsfFills {
  import opened Wrappers
  import opened SsfTruth
  import opened SsfMatrix
  import opened SsfDocs
  import SsfOverlap
  import Ladder

  /** FILLS_correct: None, True or False. */
  datatype Verdict = Undecided | Right | Wrong

  /** Every record carries the (run, truth) pair that OVERLAP puts in
      field 7; the stage unpacks it. */
  predicate AllPaired(recs: seq<Rec>) {
    forall i | 0 <= i < |recs| :: recs[i].equiv.Paired?
  }

  /** The OVERLAP stage hands FILLS what it needs: every record it
      returns carries a (run, truth) pair. */
  lemma OverlapFeedsFills(recs: seq<Rec>, orders: seq<seq<string>>, idx: Index)
    requires forall i | 0 <= i < |recs| :: recs[i].equiv.Run?
    requires SsfOverlap.OrdersFor(recs, orders, idx)
    ensures AllPaired(SsfOverlap.OverlapOut(recs, orders))
  {
    SsfOverlap.OverlapMeaning(recs, orders, idx);
    var out := SsfOverlap.OverlapOut(recs, orders);
    forall k | 0 <= k < |out|
      ensures out[k].equiv.Paired?
    {
      assert out[k] in out;
    }
  }

  /** The tri-state verdict on one pair before the record registers
      anything: both failure modes are checked, and the second one can
      turn an undecided or right verdict into a wrong one but never the
      reverse. */
  function Judge(r2t: map<string, string>, t2r: map<string, string>, run: string, truth: string): Verdict {
    if run !in r2t && truth !in t2r then Undecided
    else
      var v := if run in r2t then (if truth == r2t[run] then Right else Wrong) else Undecided;
      if truth in t2r then
        if run == t2r[truth] then (if v != Wrong then Right else Wrong) else Wrong
      else v
  }

  /** runs_to_true and true_to_runs are each other's inverse. */
  predicate Inverse(r2t: map<string, string>, t2r: map<string, string>) {
    (forall a | a in r2t :: r2t[a] in t2r && t2r[r2t[a]] == a)
    && (forall b | b in t2r :: t2r[b] in r2t && r2t[t2r[b]] == b)
  }

  /** Between inverse dicts the verdict is: undecided for a pair of which
      neither side is known, right for the very pair already known, and
      wrong when one side is known with another partner. */
  lemma JudgeMeaning(r2t: map<string, string>, t2r: map<string, string>, run: string, truth: string)
    requires Inverse(r2t, t2r)
    ensures Judge(r2t, t2r, run, truth) == Undecided <==> run !in r2t && truth !in t2r
    ensures Judge(r2t, t2r, run, truth) == Right <==> run in r2t && r2t[run] == truth
    ensures Judge(r2t, t2r, run, truth) == Wrong <==>
      (run in r2t || truth in t2r) && !(run in r2t && r2t[run] == truth)
  {
  }

  /** Registering a new pair in both dicts keeps them inverse. */
  lemma RegisterInverse(r2t: map<string, string>, t2r: map<string, string>, run: string, truth: string)
    requires Inverse(r2t, t2r)
    requires run !in r2t && truth !in t2r
    ensures Inverse(r2t[run := truth], t2r[truth := run])
  {
  }

  // ---------------------------------------------------------------------
  // The pass

  datatype FillsState = FillsState(r2t: map<string, string>, t2r: map<string, string>, kept: seq<Rec>, tab: Table)

  /** One record: register a new pair, keep the record unless it is
      wrong, and count right as a TP and wrong as a negative for the
      record's target; every increment lands in the DOCS table. */
  function FillsStep(st: FillsState, r: Rec, cutoffs: seq<nat>): FillsState
    requires r.equiv.Paired?
  {
    var run := r.equiv.run;
    var truth := r.equiv.truth;
    var v := Judge(st.r2t, st.t2r, run, truth);
    var r2t := if v == Undecided then st.r2t[run := truth] else st.r2t;
    var t2r := if v == Undecided then st.t2r[truth := run] else st.t2r;
    var kept := if v != Wrong then st.kept + [r] else st.kept;
    var tab :=
      if v == Right then Incremented(st.tab, true, r.conf, cutoffs, Target(r.target))
      else if v == Wrong then Incremented(st.tab, false, r.conf, cutoffs, Target(r.target))
      else st.tab;
    FillsState(r2t, t2r, kept, tab)
  }

  function FillsFold(recs: seq<Rec>, tab: Table, cutoffs: seq<nat>): FillsState
    requires AllPaired(recs)
    decreases |recs|
  {
    if |recs| == 0 then FillsState(map[], map[], [], tab)
    else
      var n := |recs| - 1;
      FillsStep(FillsFold(recs[..n], tab, cutoffs), recs[n], cutoffs)
  }

  /** score_confusion_matrix_FILLS as a function of the OVERLAP records. */
  function FillsSpec(cm: Matrices, recs: seq<Rec>, pos: Positives, step: int): Result<(Matrices, seq<Rec>), SsfError>
    requires AllPaired(recs)
  {
    match Ladder.Cutoffs(step)
    case None => Failure(BadStep)
    case Some(cutoffs) =>
      var st := FillsFold(recs, cm.docs, cutoffs);
      Success((WithTable(cm.(docs := st.tab), FILLS, Corrected(cm.fills, pos, FILLS)), st.kept))
  }

  /** The loop over the OVERLAP records, with the verdict built as the
      stage builds it. */
  method SweepFills(cm: Matrices, recs: seq<Rec>, cutoffs: seq<nat>, unannTN: bool) returns (cm2: Matrices, kept: seq<Rec>)
    requires AllPaired(recs)
    ensures cm2 == cm.(docs := FillsFold(recs, cm.docs, cutoffs).tab)
    ensures kept == FillsFold(recs, cm.docs, cutoffs).kept
  {
    cm2 := cm;
    kept := [];
    var r2t: map<string, string> := map[];
    var t2r: map<string, string> := map[];
    for i := 0 to |recs|
      invariant FillsState(r2t, t2r, kept, cm2.docs) == FillsFold(recs[..i], cm.docs, cutoffs)
      invariant cm2 == cm.(docs := cm2.docs)
    {
      assert recs[..i + 1][..i] == recs[..i];
      var r := recs[i];
      var run := r.equiv.run;
      var truth := r.equiv.truth;
      ghost var v := Judge(r2t, t2r, run, truth);
      var correct := Undecided;
      if run !in r2t && truth !in t2r {
        r2t := r2t[run := truth];
        t2r := t2r[truth := run];
      } else {
        if run in r2t {
          if truth == r2t[run] {
            correct := Right;
          } else {
            correct := Wrong;
          }
        }
        if truth in t2r {
          if run == t2r[truth] {
            if correct != Wrong {
              correct := Right;
            }
          } else {
            correct := Wrong;
          }
        }
      }
      assert correct == v;
      if correct == Right || correct == Undecided {
        kept := kept + [r];
      }
      if correct == Right {
        cm2 := IncrementCM(cm2, true, r.conf, cutoffs, FILLS, Target(r.target), unannTN);
      } else if correct == Wrong {
        cm2 := IncrementCM(cm2, false, r.conf, cutoffs, FILLS, Target(r.target), unannTN);
      }
    }
    assert recs[..|recs|] == recs;
  }

  /** score_confusion_matrix_FILLS: the cutoff ladder, the pass, and the
      back-fill of the FILLS table. */
  method ScoreFills(cm: Matrices, recs: seq<Rec>, pos: Positives, step: int, unannTN: bool)
    returns (r: Result<(Matrices, seq<Rec>), SsfError>)
    requires AllPaired(recs)
    ensures r == FillsSpec(cm, recs, pos, step)
  {
    var ladder := Ladder.Cutoffs(step);
    if ladder.None? {
      return Failure(BadStep);
    }
    var cm1, kept := SweepFills(cm, recs, ladder.value, unannTN);
    var cm2 := CorrectFN(cm1, FILLS, pos);
    return Success((cm2, kept));
  }

  // ---------------------------------------------------------------------
  // What the stage keeps

  /** A pair fits a list of records when, against each of them, sharing
      the run's equiv_id and sharing the truth's equiv_id go together. */
  predicate Agrees(k: seq<Rec>, run: string, truth: string) {
    forall x | x in k && x.equiv.Paired? :: (x.equiv.run == run <==> x.equiv.truth == truth)
  }

  /** The records the stage passes on, defined without the dicts: a
      record is kept exactly when its pair fits every record kept before
      it. */
  function KeptRef(recs: seq<Rec>): seq<Rec>
    requires AllPaired(recs)
    decreases |recs|
  {
    if |recs| == 0 then []
    else
      var n := |recs| - 1;
      var k := KeptRef(recs[..n]);
      if Agrees(k, recs[n].equiv.run, recs[n].equiv.truth) then k + [recs[n]] else k
  }

  /** The dicts hold exactly the pairs of the kept records. */
  ghost predicate Registered(st: FillsState) {
    Inverse(st.r2t, st.t2r)
    && (forall x | x in st.kept :: x.equiv.Paired? && x.equiv.run in st.r2t && st.r2t[x.equiv.run] == x.equiv.truth)
    && (forall a | a in st.r2t :: exists x | x in st.kept :: x.equiv.Paired? && x.equiv.run == a)
  }

  /** Against dicts that register the kept records, the verdict is not
      wrong exactly when the pair fits the kept records. */
  lemma JudgeAgrees(st: FillsState, run: string, truth: string)
    requires Registered(st)
    ensures Judge(st.r2t, st.t2r, run, truth) != Wrong <==> Agrees(st.kept, run, truth)
  {
    JudgeMeaning(st.r2t, st.t2r, run, truth);
    if run in st.r2t && st.r2t[run] != truth {
      var x :| x in st.kept && x.equiv.Paired? && x.equiv.run == run;
      assert !Agrees(st.kept, run, truth);
    } else if truth in st.t2r && !(run in st.r2t && st.r2t[run] == truth) {
      var a := st.t2r[truth];
      var x :| x in st.kept && x.equiv.Paired? && x.equiv.run == a;
      assert x.equiv.truth == truth && x.equiv.run != run;
      assert !Agrees(st.kept, run, truth);
    } else if run in st.r2t {
      forall x | x in st.kept && x.equiv.Paired?
        ensures x.equiv.run == run <==> x.equiv.truth == truth
      {
        if x.equiv.truth == truth {
          assert st.t2r[st.r2t[x.equiv.run]] == x.equiv.run;
          assert st.t2r[st.r2t[run]] == run;
        }
      }
    } else {
      forall x | x in st.kept && x.equiv.Paired?
        ensures x.equiv.run != run && x.equiv.truth != truth
      {
        assert st.r2t[x.equiv.run] in st.t2r;
      }
    }
  }

  lemma FillsStepRegistered(st: FillsState, r: Rec, cutoffs: seq<nat>)
    requires Registered(st)
    requires r.equiv.Paired?
    ensures Registered(FillsStep(st, r, cutoffs))
    ensures FillsStep(st, r, cutoffs).kept ==
      if Agrees(st.kept, r.equiv.run, r.equiv.truth) then st.kept + [r] else st.kept
  {
    var run := r.equiv.run;
    var truth := r.equiv.truth;
    JudgeAgrees(st, run, truth);
    JudgeMeaning(st.r2t, st.t2r, run, truth);
    var st2 := FillsStep(st, r, cutoffs);
    if Judge(st.r2t, st.t2r, run, truth) == Undecided {
      RegisterInverse(st.r2t, st.t2r, run, truth);
      forall a | a in st2.r2t
        ensures exists x | x in st2.kept :: x.equiv.Paired? && x.equiv.run == a
      {
        if a == run {
          assert r in st2.kept;
        } else {
          var x :| x in st.kept && x.equiv.Paired? && x.equiv.run == a;
          assert x in st2.kept;
        }
      }
      forall x | x in st2.kept
        ensures x.equiv.Paired? && x.equiv.run in st2.r2t && st2.r2t[x.equiv.run] == x.equiv.truth
      {
        if x != r {
          assert x in st.kept;
          assert x.equiv.run != run;
        }
      }
    } else {
      forall a | a in st2.r2t
        ensures exists x | x in st2.kept :: x.equiv.Paired? && x.equiv.run == a
      {
        var x :| x in st.kept && x.equiv.Paired? && x.equiv.run == a;
        assert x in st2.kept;
      }
    }
  }

  /** The pass keeps exactly the reference records, and its dicts are
      inverse and register exactly the kept pairs. */
  lemma {:induction false} FillsFoldKept(recs: seq<Rec>, tab: Table, cutoffs: seq<nat>)
    requires AllPaired(recs)
    ensures Registered(FillsFold(recs, tab, cutoffs))
    ensures FillsFold(recs, tab, cutoffs).kept == KeptRef(recs)
    decreases |recs|
  {
    if |recs| > 0 {
      var n := |recs| - 1;
      assert AllPaired(recs[..n]);
      FillsFoldKept(recs[..n], tab, cutoffs);
      FillsStepRegistered(FillsFold(recs[..n], tab, cutoffs), recs[n], cutoffs);
    }
  }

  /** The kept records are some of the incoming ones, in their order, and
      they form a one-to-one matching: two kept records share the run's
      equiv_id exactly when they share the truth's equiv_id. */
  lemma {:induction false} KeptRefMeaning(recs: seq<Rec>)
    requires AllPaired(recs)
    ensures forall x | x in KeptRef(recs) :: x in recs
    ensures AllPaired(KeptRef(recs))
    ensures forall i, j | 0 <= i < |KeptRef(recs)| && 0 <= j < |KeptRef(recs)| ::
      (KeptRef(recs)[i].equiv.run == KeptRef(recs)[j].equiv.run <==>
       KeptRef(recs)[i].equiv.truth == KeptRef(recs)[j].equiv.truth)
    decreases |recs|
  {
    if |recs| > 0 {
      var n := |recs| - 1;
      assert AllPaired(recs[..n]);
      KeptRefMeaning(recs[..n]);
      var k := KeptRef(recs[..n]);
      forall x | x in k
        ensures x in recs
      {
        var i :| 0 <= i < n && recs[..n][i] == x;
        assert recs[i] == x;
      }
      if Agrees(k, recs[n].equiv.run, recs[n].equiv.truth) {
        var k2 := k + [recs[n]];
        forall i, j | 0 <= i < |k2| && 0 <= j < |k2|
          ensures k2[i].equiv.run == k2[j].equiv.run <==> k2[i].equiv.truth == k2[j].equiv.truth
        {
          if i < |k| {
            assert k2[i] == k[i];
            assert k[i] in k;
          }
          if j < |k| {
            assert k2[j] == k[j];
            assert k[j] in k;
          }
        }
      }
    }
  }

  /** What the FILLS stage returns: it fails only for a cutoff step of 0,
      and passes on exactly the reference records. */
  lemma FillsMeaning(cm: Matrices, recs: seq<Rec>, pos: Positives, step: int)
    requires AllPaired(recs)
    ensures FillsSpec(cm, recs, pos, step).Failure? <==> step == 0
    ensures FillsSpec(cm, recs, pos, step).Success? ==> FillsSpec(cm, recs, pos, step).value.1 == KeptRef(recs)
  {
    if Ladder.Cutoffs(step).Some? {
      FillsFoldKept(recs, cm.docs, Ladder.Cutoffs(step).value);
    }
  }

  /** The stage's increments are on target rows only: no flag row of the
      DOCS table changes. */
  lemma {:induction false} FillsFoldFlagRows(recs: seq<Rec>, tab: Table, cutoffs: seq<nat>, b: bool)
    requires AllPaired(recs)
    requires Ladder.Distinct(cutoffs)
    ensures var tab2 := FillsFold(recs, tab, cutoffs).tab;
      (Flag(b) in tab2 <==> Flag(b) in tab) && RowOf(tab2, Flag(b)) == RowOf(tab, Flag(b))
    decreases |recs|
  {
    if |recs| > 0 {
      var n := |recs| - 1;
      assert AllPaired(recs[..n]);
      FillsFoldFlagRows(recs[..n], tab, cutoffs, b);
      var st := FillsFold(recs[..n], tab, cutoffs);
      var r := recs[n];
      IncrementedMeaning(st.tab, true, r.conf, cutoffs, Target(r.target));
      IncrementedMeaning(st.tab, false, r.conf, cutoffs, Target(r.target));
    }
  }

  /** Whatever the records, the FILLS table itself only takes the
      back-fill: it leaves empty when it arrives empty, and the OVERLAPS
      and DATE_HOURS tables are untouched. */
  lemma FillsLeavesOtherTables(cm: Matrices, recs: seq<Rec>, pos: Positives, step: int)
    requires AllPaired(recs)
    requires FillsSpec(cm, recs, pos, step).Success?
    ensures var cm2 := FillsSpec(cm, recs, pos, step).value.0;
      cm2.overlaps == cm.overlaps && cm2.dateHours == cm.dateHours
      && (cm.fills == map[] ==> cm2.fills == map[])
  {
  }

  /** A record for the example below. */
  function Claim(run: string, truth: string): Rec {
    Rec("1317995861-f00", "Target", 900, 2, 1, "2011-10-07-14", "Affiliate", Paired(run, truth), 0, 10)
  }

  /** R1 matched to T1 first: R1 with T2 and R2 with T1 are both wrong
      and dropped, and the same pair again is right and kept. */
  lemma FillsExample()
    ensures KeptRef([Claim("R1", "T1"), Claim("R1", "T2"), Claim("R2", "T1"), Claim("R1", "T1")])
      == [Claim("R1", "T1"), Claim("R1", "T1")]
  {
    assert "R1" != "R2" by { assert "R1"[1] != "R2"[1]; }
    assert "T1" != "T2" by { assert "T1"[1] != "T2"[1]; }
    KeptExample("R1", "R2", "T1", "T2");
  }

  /** The example for any two distinct runs and two distinct truths. */
  lemma KeptExample(r1: string, r2: string, t1: string, t2: string)
    requires r1 != r2 && t1 != t2
    ensures KeptRef([Claim(r1, t1), Claim(r1, t2), Claim(r2, t1), Claim(r1, t1)])
      == [Claim(r1, t1), Claim(r1, t1)]
  {
    KeptPattern(Claim(r1, t1), Claim(r1, t2), Claim(r2, t1));
  }

  /** After `a`, a record sharing only its run (`b`) or only its truth
      (`c`) is dropped, and `a` again is kept. */
  lemma KeptPattern(a: Rec, b: Rec, c: Rec)
    requires a.equiv.Paired? && b.equiv.Paired? && c.equiv.Paired?
    requires a.equiv.run == b.equiv.run && a.equiv.truth != b.equiv.truth
    requires a.equiv.truth == c.equiv.truth && a.equiv.run != c.equiv.run
    ensures KeptRef([a, b, c, a]) == [a, a]
  {
    KeptDropsTwo(a, b, c);
    assert [a, b, c, a][..3] == [a, b, c];
    assert Agrees([a], a.equiv.run, a.equiv.truth);
  }

  /** The first three records of the pattern keep only `a`. */
  lemma KeptDropsTwo(a: Rec, b: Rec, c: Rec)
    requires a.equiv.Paired? && b.equiv.Paired? && c.equiv.Paired?
    requires a.equiv.run == b.equiv.run && a.equiv.truth != b.equiv.truth
    requires a.equiv.truth == c.equiv.truth && a.equiv.run != c.equiv.run
    ensures KeptRef([a, b, c]) == [a]
  {
    KeptDropsOne(a, b);
    assert [a, b, c][..2] == [a, b];
    assert !Agrees([a], c.equiv.run, c.equiv.truth);
  }

  /** The first two records of the pattern keep only `a`. */
  lemma KeptDropsOne(a: Rec, b: Rec)
    requires a.equiv.Paired? && b.equiv.Paired?
    requires a.equiv.run == b.equiv.run && a.equiv.truth != b.equiv.truth
    ensures KeptRef([a, b]) == [a]
  {
    assert [a, b][..1] == [a];
    assert [a][..0] == [];
    assert KeptRef([a]) == [a];
    assert !Agrees([a], b.equiv.run, b.equiv.truth);
  }
}
