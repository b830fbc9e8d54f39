/** score_run of the KBA 2014 SSF profile scorer: every run profile is
    compared with the truth profile of its entity. scorer2/ssf.py adds each
    metric into a scores dict; scorer_2/profile.py builds the run profiles
    itself and sums one metric. */
module ProfileScoring {
  import opened Wrappers
  import opened Sets
  import opened Sums
  import opened Kernels
  import opened Profiles
  import opened Spans
  import opened ProfileBuilders

  /** The exceptions score_run lets through: those of
      profiles_from_runfile (scorer_2), a run entity without a truth
      profile (a KeyError), and those of compare. */
  datatype ScoreError = RunFailed(run: RunError) | MissingTruth(entity: string) | KernelFailed(kernel: KernelError)

  /** One entity's share of a run's score under `name`: the truth profile
      compared with the run profile (0 where that is not defined). */
  ghost function EntityTerm(name: string, truth: map<string, Slots>, run: map<string, Slots>): string -> real {
    e => if e in truth && e in run && ProfileScore(name, truth[e], run[e]).Success?
         then ProfileScore(name, truth[e], run[e]).value else 0.0
  }

  /** score_run gets through: every run entity has a truth profile and
      every comparison is defined. */
  ghost predicate RunScoresOk(names: set<string>, truth: map<string, Slots>, run: map<string, Slots>) {
    run.Keys <= truth.Keys && forall e | e in run :: ComparesOk(names, truth[e], run[e])
  }

  /** The entities of `done` are scored: each has a truth profile and a
      defined comparison. */
  ghost predicate ScoredSoFar(names: set<string>, truth: map<string, Slots>, run: map<string, Slots>, done: set<string>) {
    done <= truth.Keys && done <= run.Keys && forall e | e in done :: ComparesOk(names, truth[e], run[e])
  }

  lemma ScoredStep(names: set<string>, truth: map<string, Slots>, run: map<string, Slots>, done: set<string>, e: string)
    requires ScoredSoFar(names, truth, run, done) && e in truth && e in run && ComparesOk(names, truth[e], run[e])
    ensures ScoredSoFar(names, truth, run, done + {e})
  {
  }

  /** A run entity without a truth profile or a defined comparison fails
      the run. */
  lemma NotScored(names: set<string>, truth: map<string, Slots>, run: map<string, Slots>, e: string)
    requires e in run && (e in truth ==> !ComparesOk(names, truth[e], run[e]))
    ensures !RunScoresOk(names, truth, run)
  {
  }

  lemma ScoredAll(names: set<string>, truth: map<string, Slots>, run: map<string, Slots>, done: set<string>)
    requires ScoredSoFar(names, truth, run, done) && done == run.Keys
    ensures RunScoresOk(names, truth, run)
  {
  }

  /** One more entity scored adds its term to the sum. */
  lemma SumStep(name: string, truth: map<string, Slots>, run: map<string, Slots>, done: set<string>, e: string, sum: real, v: real)
    requires e in truth && e in run && e !in done
    requires sum == SumOf(done, EntityTerm(name, truth, run)) && ProfileScore(name, truth[e], run[e]) == Success(v)
    ensures sum + v == SumOf(done + {e}, EntityTerm(name, truth, run))
  {
    SumInsert(done, EntityTerm(name, truth, run), e);
  }

  /** No run profile is also a truth profile. */
  ghost predicate Disjoint(run: map<string, ComparableProfile>, truth: map<string, ComparableProfile>) {
    forall a, b | a in run && b in truth :: run[a] != truth[b]
  }

  /** `after` is `before` with some empty slots added. */
  ghost predicate PadOf(before: Slots, after: Slots) {
    exists keys: set<string> :: after == Padded(before, keys)
  }

  /** Padding the run profile changes no comparison. */
  lemma ComparesOkPadded(names: set<string>, mine: Slots, theirs: Slots, keys: set<string>)
    ensures ComparesOk(names, mine, Padded(theirs, keys)) <==> ComparesOk(names, mine, theirs)
    ensures forall n :: ProfileScore(n, mine, Padded(theirs, keys)) == ProfileScore(n, mine, theirs)
  {
    forall n ensures ProfileScore(n, mine, Padded(theirs, keys)) == ProfileScore(n, mine, theirs) {
      PaddingInvisible(n, mine, theirs, keys);
    }
  }

  /** One more entity compared: each total takes its term. */
  lemma EntityStep(scores: map<string, real>, totals: map<string, real>, next: map<string, real>, done: set<string>,
                   e: string, truth: map<string, Slots>, run: map<string, Slots>)
    requires totals.Keys == scores.Keys && next.Keys == scores.Keys
    requires e in truth && e in run && e !in done
    requires forall n | n in scores :: totals[n] == scores[n] + SumOf(done, EntityTerm(n, truth, run))
    requires ComparesOk(scores.Keys, truth[e], run[e])
    requires forall n | n in scores :: next[n] == totals[n] + ProfileScore(n, truth[e], run[e]).value
    ensures forall n | n in scores :: next[n] == scores[n] + SumOf(done + {e}, EntityTerm(n, truth, run))
  {
    forall n | n in scores ensures next[n] == scores[n] + SumOf(done + {e}, EntityTerm(n, truth, run)) {
      SumInsert(done, EntityTerm(n, truth, run), e);
    }
  }

  /** The state score_run keeps while it goes: the truth profiles as at
      the start, every run profile a padding of its start. */
  ghost predicate Tracked(run: map<string, ComparableProfile>, truth: map<string, ComparableProfile>,
                          T: map<string, Slots>, R: map<string, Slots>)
    reads set e | e in run :: run[e], set e | e in truth :: truth[e]
  {
    && T.Keys == truth.Keys && R.Keys == run.Keys
    && (forall x | x in truth :: truth[x].slots == T[x])
    && (forall x | x in run :: PadOf(R[x], run[x].slots))
    && (forall x, y | x in run && y in run && run[x] == run[y] :: R[x] == R[y])
  }

  lemma TrackedStart(run: map<string, ComparableProfile>, truth: map<string, ComparableProfile>)
    ensures Tracked(run, truth, SlotsOf(truth), SlotsOf(run))
  {
    forall e | e in run ensures PadOf(SlotsOf(run)[e], run[e].slots) {
      PaddedOwnKeys(run[e].slots, {});
    }
  }

  /** The run profile of `e`, padded by `more`, keeps Tracked. */
  lemma TrackedStep(run: map<string, ComparableProfile>, truth: map<string, ComparableProfile>,
                    T: map<string, Slots>, R: map<string, Slots>, e: string, d: set<string>, more: set<string>)
    requires e in run
    requires T.Keys == truth.Keys && R.Keys == run.Keys
    requires forall x | x in truth :: truth[x].slots == T[x]
    requires forall x, y | x in run && y in run && run[x] == run[y] :: R[x] == R[y]
    requires forall x | x in run && run[x] != run[e] :: PadOf(R[x], run[x].slots)
    requires run[e].slots == Padded(Padded(R[e], d), more)
    ensures Tracked(run, truth, T, R)
  {
    PaddedTwice(R[e], d, more);
    forall x | x in run ensures PadOf(R[x], run[x].slots) {
      if run[x] == run[e] {
        assert R[x] == R[e];
        assert run[x].slots == Padded(R[x], d + more);
      }
    }
  }

  /** compare of scorer2 for one run entity, with what it does to the
      tracked state. */
  method CompareEntity(run: map<string, ComparableProfile>, truth: map<string, ComparableProfile>,
                       ghost T: map<string, Slots>, ghost R: map<string, Slots>, e: string, totals: map<string, real>)
    returns (c: Result<map<string, real>, KernelError>)
    requires e in run && e in truth && Disjoint(run, truth) && Tracked(run, truth, T, R)
    modifies run[e]
    ensures Tracked(run, truth, T, R)
    ensures c.Success? <==> ComparesOk(totals.Keys, T[e], R[e])
    ensures c.Success? ==> c.value.Keys == totals.Keys
    ensures c.Success? ==> forall n | n in totals :: c.value[n] == totals[n] + ProfileScore(n, T[e], R[e]).value
  {
    var t := truth[e];
    var p := run[e];
    ghost var cur := p.slots;
    ghost var d :| cur == Padded(R[e], d);
    ComparesOkPadded(totals.Keys, T[e], R[e], d);
    c := t.Compare(p, totals);
    ghost var more: set<string> := if c.Success? && totals != map[] then T[e].Keys else {};
    if c.Success? {
      PaddedOwnKeys(cur, {});
    } else {
      more :| more <= T[e].Keys && p.slots == Padded(cur, more);
    }
    TrackedStep(run, truth, T, R, e, d, more);
  }

  /** compare of scorer_2 for one run entity, with what it does to the
      tracked state. */
  method CompareSumEntity(run: map<string, ComparableProfile>, truth: map<string, ComparableProfile>,
                          ghost T: map<string, Slots>, ghost R: map<string, Slots>, e: string, metricName: string)
    returns (c: Result<real, KernelError>)
    requires e in run && e in truth && Disjoint(run, truth) && Tracked(run, truth, T, R)
    modifies run[e]
    ensures Tracked(run, truth, T, R)
    ensures c == ProfileScore(metricName, T[e], R[e])
  {
    var t := truth[e];
    var p := run[e];
    ghost var cur := p.slots;
    ghost var d :| cur == Padded(R[e], d);
    PaddingInvisible(metricName, T[e], R[e], d);
    c := t.CompareSum(p, metricName);
    ghost var more: set<string> := if c.Success? then T[e].Keys else {};
    if c.Failure? {
      more :| more <= T[e].Keys && p.slots == Padded(cur, more);
    }
    TrackedStep(run, truth, T, R, e, d, more);
  }

  /** score_run of scorer2/ssf.py: compare adds every run entity's score
      into `scores`; the result holds each total. */
  method ScorerScoreRun(run: map<string, ComparableProfile>, truth: map<string, ComparableProfile>, scores: map<string, real>)
    returns (r: Result<map<string, real>, ScoreError>)
    requires Disjoint(run, truth)
    modifies set e | e in run :: run[e]
    ensures r.Success? <==> RunScoresOk(scores.Keys, old(SlotsOf(truth)), old(SlotsOf(run)))
    ensures r.Success? ==> r.value.Keys == scores.Keys
    ensures r.Success? ==> forall n | n in scores ::
      r.value[n] == scores[n] + SumOf(run.Keys, EntityTerm(n, old(SlotsOf(truth)), old(SlotsOf(run))))
    ensures forall e | e in run :: PadOf(old(run[e].slots), run[e].slots)
  {
    ghost var T := SlotsOf(truth);
    ghost var R := SlotsOf(run);
    TrackedStart(run, truth);
    r := AddEntities(run, truth, T, R, scores);
  }

  /** The loop of ScorerScoreRun, against the slots at its start. */
  method AddEntities(run: map<string, ComparableProfile>, truth: map<string, ComparableProfile>,
                     ghost T: map<string, Slots>, ghost R: map<string, Slots>, scores: map<string, real>)
    returns (r: Result<map<string, real>, ScoreError>)
    requires Disjoint(run, truth) && Tracked(run, truth, T, R)
    modifies set e | e in run :: run[e]
    ensures Tracked(run, truth, T, R)
    ensures r.Success? <==> RunScoresOk(scores.Keys, T, R)
    ensures r.Success? ==> r.value.Keys == scores.Keys
    ensures r.Success? ==> forall n | n in scores :: r.value[n] == scores[n] + SumOf(run.Keys, EntityTerm(n, T, R))
  {
    var totals := scores;
    var todo := run.Keys;
    ghost var done: set<string> := {};
    while todo != {}
      invariant todo <= run.Keys && done == run.Keys - todo
      invariant done <= truth.Keys && forall e | e in done :: ComparesOk(scores.Keys, T[e], R[e])
      invariant totals.Keys == scores.Keys
      invariant forall n | n in scores :: totals[n] == scores[n] + SumOf(done, EntityTerm(n, T, R))
      invariant Tracked(run, truth, T, R)
      decreases todo
    {
      var e := Choose(todo);
      DoneStep(run.Keys, todo, done, e);
      if e !in truth {
        return Failure(MissingTruth(e));
      }
      var c := CompareEntity(run, truth, T, R, e, totals);
      if c.Failure? {
        return Failure(KernelFailed(c.error));
      }
      EntityStep(scores, totals, c.value, done, e, T, R);
      totals := c.value;
      todo := todo - {e};
      done := done + {e};
    }
    assert done == run.Keys;
    return Success(totals);
  }

  /** scorer_2's loop of score_run: the scores of every run entity under
      one metric, summed. */
  method ScoreSum(run: map<string, ComparableProfile>, truth: map<string, ComparableProfile>, metricName: string)
    returns (r: Result<real, ScoreError>)
    requires Disjoint(run, truth)
    modifies set e | e in run :: run[e]
    ensures r.Success? <==> RunScoresOk({metricName}, old(SlotsOf(truth)), old(SlotsOf(run)))
    ensures r.Success? ==> r.value == SumOf(run.Keys, EntityTerm(metricName, old(SlotsOf(truth)), old(SlotsOf(run))))
    ensures forall e | e in run :: PadOf(old(run[e].slots), run[e].slots)
  {
    ghost var T := SlotsOf(truth);
    ghost var R := SlotsOf(run);
    TrackedStart(run, truth);
    r := SumEntities(run, truth, T, R, metricName);
  }

  /** One entity of ScoreSum's loop: its score added to `sum`, or the
      error that ends the run. */
  method SumEntity(run: map<string, ComparableProfile>, truth: map<string, ComparableProfile>,
                   ghost T: map<string, Slots>, ghost R: map<string, Slots>, metricName: string,
                   e: string, ghost done: set<string>, sum: real)
    returns (r: Result<real, ScoreError>)
    requires e in run && e !in done && Disjoint(run, truth) && Tracked(run, truth, T, R)
    requires ScoredSoFar({metricName}, T, R, done) && sum == SumOf(done, EntityTerm(metricName, T, R))
    modifies run[e]
    ensures Tracked(run, truth, T, R)
    ensures r.Failure? ==> !RunScoresOk({metricName}, T, R)
    ensures r.Success? ==> ScoredSoFar({metricName}, T, R, done + {e})
    ensures r.Success? ==> r.value == SumOf(done + {e}, EntityTerm(metricName, T, R))
  {
    if e !in truth {
      NotScored({metricName}, T, R, e);
      return Failure(MissingTruth(e));
    }
    var c := CompareSumEntity(run, truth, T, R, e, metricName);
    if c.Failure? {
      NotScored({metricName}, T, R, e);
      return Failure(KernelFailed(c.error));
    }
    ScoredStep({metricName}, T, R, done, e);
    SumStep(metricName, T, R, done, e, sum, c.value);
    return Success(sum + c.value);
  }

  /** The loop of ScoreSum, against the slots at its start. */
  method SumEntities(run: map<string, ComparableProfile>, truth: map<string, ComparableProfile>,
                     ghost T: map<string, Slots>, ghost R: map<string, Slots>, metricName: string)
    returns (r: Result<real, ScoreError>)
    requires Disjoint(run, truth) && Tracked(run, truth, T, R)
    modifies set e | e in run :: run[e]
    ensures Tracked(run, truth, T, R)
    ensures r.Success? <==> RunScoresOk({metricName}, T, R)
    ensures r.Success? ==> r.value == SumOf(run.Keys, EntityTerm(metricName, T, R))
  {
    var sum := 0.0;
    var todo := run.Keys;
    ghost var done: set<string> := {};
    while todo != {}
      invariant todo <= run.Keys && done == run.Keys - todo
      invariant ScoredSoFar({metricName}, T, R, done)
      invariant sum == SumOf(done, EntityTerm(metricName, T, R))
      invariant Tracked(run, truth, T, R)
      decreases todo
    {
      var e := Choose(todo);
      DoneStep(run.Keys, todo, done, e);
      var next := SumEntity(run, truth, T, R, metricName, e, done, sum);
      if next.Failure? {
        return next;
      }
      sum := next.value;
      todo := todo - {e};
      done := done + {e};
    }
    ScoredAll({metricName}, T, R, done);
    return Success(sum);
  }

  /** score_run of scorer_2/profile.py: the run file's profiles, built
      with `cfg`, scored against the truth profiles under one metric. */
  method EarlyScoreRun(rows: seq<seq<string>>, cfg: Config, items: map<string, string>, utf8: string -> bool,
                       truth: map<string, ComparableProfile>, metricName: string)
    returns (r: Result<real, ScoreError>)
    ensures r.Success? <==> (
      RunFold(rows, EarlyEnv(cfg, items, utf8)).Success?
      && RunScoresOk({metricName}, SlotsOf(truth), RunFold(rows, EarlyEnv(cfg, items, utf8)).value.profiles))
    ensures (r.Success? ==> var run := RunFold(rows, EarlyEnv(cfg, items, utf8)).value.profiles;
      r.value == SumOf(run.Keys, EntityTerm(metricName, SlotsOf(truth), run)))
    ensures (RunFold(rows, EarlyEnv(cfg, items, utf8)).Failure? ==>
      r == Failure(RunFailed(RunFold(rows, EarlyEnv(cfg, items, utf8)).error)))
  {
    var built := EarlyRunProfiles(rows, cfg, items, utf8);
    if built.Failure? {
      return Failure(RunFailed(built.error));
    }
    var run := built.value;
    ghost var P := RunFold(rows, EarlyEnv(cfg, items, utf8)).value.profiles;
    assert run.Keys == P.Keys;
    assert Disjoint(run, truth);
    ghost var T := SlotsOf(truth);
    r := ScoreSum(run, truth, metricName);
    assert SlotsOf(truth) == T;
    assert r.Success? ==> r.value == SumOf(P.Keys, EntityTerm(metricName, T, P));
  }

  /** sokalsneath is defined on every pair of profiles: its score_run
      gets through exactly when every run entity has a truth profile. */
  lemma SokalRunOk(truth: map<string, Slots>, run: map<string, Slots>)
    ensures RunScoresOk({"sokalsneath"}, truth, run) <==> run.Keys <= truth.Keys
  {
    forall e | e in run && e in truth ensures ComparesOk({"sokalsneath"}, truth[e], run[e]) {
      SokalProfileBounds(truth[e], run[e]);
    }
  }

  /** A sokalsneath run total is non-negative. */
  lemma SokalRunNonneg(keys: set<string>, truth: map<string, Slots>, run: map<string, Slots>)
    ensures SumOf(keys, EntityTerm("sokalsneath", truth, run)) >= 0.0
  {
    forall e | e in keys ensures EntityTerm("sokalsneath", truth, run)(e) >= 0.0 {
      if e in truth && e in run {
        SokalProfileBounds(truth[e], run[e]);
      }
    }
    SumNonneg(keys, EntityTerm("sokalsneath", truth, run));
  }

  /** A run whose profiles share no slot with the truth scores 0 under
      every available metric. */
  lemma DisjointRunScoresZero(name: string, keys: set<string>, truth: map<string, Slots>, run: map<string, Slots>)
    requires name in AvailableMetrics
    requires forall e | e in keys && e in truth && e in run :: truth[e].Keys !! run[e].Keys
    ensures SumOf(keys, EntityTerm(name, truth, run)) == 0.0
  {
    forall e | e in keys ensures EntityTerm(name, truth, run)(e) == 0.0 {
      if e in truth && e in run {
        DisjointScoresZero(name, truth[e], run[e]);
      }
    }
    SumRestrict(keys, {}, EntityTerm(name, truth, run));
    assert keys * {} == {};
  }
}
