/** The SSF truth data of scorer/ssf.py: the truth file as nested maps,
    the inverted index `load_annotation` builds from it, and the number of
    known positives per target for each evaluation mode. */
module SsfTruth {
  import opened Sets
  import opened Text

  /** The four evaluation modes; each one refines the one before. */
  datatype Mode = DOCS | OVERLAPS | FILLS | DATE_HOURS

  function ModeName(m: Mode): string {
    match m
    case DOCS => "DOCS"
    case OVERLAPS => "OVERLAPS"
    case FILLS => "FILLS"
    case DATE_HOURS => "DATE_HOURS"
  }

  /** One substantiating document of a slot fill: its date_hour and the
      byte ranges the assessors marked in it. */
  datatype Mention = Mention(dateHour: string, offsets: seq<(int, int)>)

  /** An equivalence class of slot fills; `streams` is its `stream_ids`
      object, stream_id -> [date_hour, offsets]. */
  datatype Fill = Fill(streams: map<string, Mention>)

  /** target_id -> slot_type -> equiv_id -> class, as in the truth file. */
  type Truth = map<string, map<string, map<string, Fill>>>

  /** (stream_id, target_id, slot_type): the first three levels of the
      inverted index, the ones a run row is looked up by. */
  type Slot = (string, string, string)

  /** The inverted index stream_id -> target_id -> slot_type -> equiv_id ->
      class, with its first three levels folded into one key.  A level of
      the nested dictionaries exists exactly when some class is stored
      below it, so `(s, t, st) in idx` is the three nested membership
      tests of the scorer. */
  type Index = map<Slot, map<string, Fill>>

  /** The `reject` callable of the command line. */
  predicate Reject(rejectTwitter: bool, rejectWikipedia: bool, target: string) {
    (rejectTwitter && Contains(target, "twitter.com"))
    || (rejectWikipedia && Contains(target, "wikipedia.org"))
  }

  /** Without either flag no target is rejected; under a flag every target
      whose id holds that flag's domain is rejected; and a rejected target
      holds one of the two domains. */
  lemma RejectCases(rejectTwitter: bool, rejectWikipedia: bool, pre: string, post: string)
    ensures !rejectTwitter && !rejectWikipedia ==> !Reject(rejectTwitter, rejectWikipedia, pre + post)
    ensures rejectTwitter ==> Reject(rejectTwitter, rejectWikipedia, pre + "twitter.com" + post)
    ensures rejectWikipedia ==> Reject(rejectTwitter, rejectWikipedia, pre + "wikipedia.org" + post)
    ensures Reject(rejectTwitter, rejectWikipedia, pre + post) ==>
      Contains(pre + post, "twitter.com") || Contains(pre + post, "wikipedia.org")
  {
    ContainsInfix(pre, "twitter.com", post);
    ContainsInfix(pre, "wikipedia.org", post);
  }

  /** Whether slot type `st` is indexed: a non-empty filter admits only
      its own slot type, and SignificantOther and Children are refused
      after the filter test, so even when the filter names them. */
  predicate Admitted(filter: string, st: string) {
    if filter != "" && st != filter then false
    else st != "SignificantOther" && st != "Children"
  }

  /** The truth data that survives the reject test. */
  function Kept(native: Truth, rejectTwitter: bool, rejectWikipedia: bool): Truth {
    map t | t in native && !Reject(rejectTwitter, rejectWikipedia, t) :: native[t]
  }

  /** The loop popping rejected targets from the loaded truth data. */
  method DropRejected(native: Truth, rejectTwitter: bool, rejectWikipedia: bool) returns (kept: Truth)
    ensures kept == Kept(native, rejectTwitter, rejectWikipedia)
  {
    kept := native;
    var todo := native.Keys;
    while todo != {}
      invariant todo <= native.Keys
      invariant kept.Keys <= native.Keys
      invariant forall t | t in kept :: kept[t] == native[t]
      invariant forall t | t in native :: t in kept <==> (t in todo || !Reject(rejectTwitter, rejectWikipedia, t))
      decreases todo
    {
      var t := Choose(todo);
      if Reject(rejectTwitter, rejectWikipedia, t) {
        kept := kept - {t};
      }
      todo := todo - {t};
    }
  }

  // ---------------------------------------------------------------------
  // The inverted index

  /** One assignment of the nested loops that build the index:
      (target_id, slot_type, equiv_id, stream_id). */
  type Visit = (string, string, string, string)

  predicate VisitOf(kept: Truth, filter: string, v: Visit) {
    v.0 in kept && v.1 in kept[v.0] && Admitted(filter, v.1)
    && v.2 in kept[v.0][v.1] && v.3 in kept[v.0][v.1][v.2].streams
  }

  /** Every assignment the nested loops over targets, admitted slot types,
      classes and stream_ids make. */
  function Visits(kept: Truth, filter: string): set<Visit> {
    set t, st, eq, s | t in kept && st in kept[t] && Admitted(filter, st)
      && eq in kept[t][st] && s in kept[t][st][eq].streams :: (t, st, eq, s)
  }

  lemma VisitsMeaning(kept: Truth, filter: string, v: Visit)
    ensures v in Visits(kept, filter) <==> VisitOf(kept, filter, v)
  {
    if VisitOf(kept, filter, v) {
      var (t, st, eq, s) := v;
      assert (t, st, eq, s) in Visits(kept, filter);
    }
  }

  /** `idx` holds exactly the assignments `vs`: class `eq` sits under
      `(s, t, st)` exactly when `(t, st, eq, s)` is among them, and it is
      the truth file's class; no key holds an empty map. */
  ghost predicate IndexOf(idx: Index, kept: Truth, vs: set<Visit>) {
    (forall k | k in idx :: idx[k] != map[])
    && (forall t: string, st: string, eq: string, s: string ::
          ((s, t, st) in idx && eq in idx[(s, t, st)]) <==> (t, st, eq, s) in vs)
    && (forall k, eq | k in idx && eq in idx[k] ::
          k.1 in kept && k.2 in kept[k.1] && eq in kept[k.1][k.2] && idx[k][eq] == kept[k.1][k.2][eq])
  }

  /** Adding one assignment to the index. */
  function Assign(idx: Index, v: Visit, f: Fill): Index {
    var k := (v.3, v.0, v.1);
    idx[k := (if k in idx then idx[k] else map[])[v.2 := f]]
  }

  lemma AssignStep(idx: Index, kept: Truth, vs: set<Visit>, v: Visit)
    requires IndexOf(idx, kept, vs)
    requires v.0 in kept && v.1 in kept[v.0] && v.2 in kept[v.0][v.1]
    ensures IndexOf(Assign(idx, v, kept[v.0][v.1][v.2]), kept, vs + {v})
  {
    var idx2 := Assign(idx, v, kept[v.0][v.1][v.2]);
    forall t: string, st: string, eq: string, s: string
      ensures ((s, t, st) in idx2 && eq in idx2[(s, t, st)]) <==> (t, st, eq, s) in vs + {v}
    {
      if (s, t, st) != (v.3, v.0, v.1) {
        assert (t, st, eq, s) != v;
      }
    }
  }

  /** The index-building loops of load_annotation, as one loop over the
      assignments they make; the order does not matter, as each
      assignment writes its own entry. */
  method BuildIndex(kept: Truth, filter: string) returns (idx: Index)
    ensures IndexOf(idx, kept, Visits(kept, filter))
  {
    idx := map[];
    var todo := Visits(kept, filter);
    ghost var all := todo;
    ghost var done: set<Visit> := {};
    while todo != {}
      invariant todo <= all && done == all - todo
      invariant IndexOf(idx, kept, done)
      decreases todo
    {
      var v := Choose(todo);
      VisitsMeaning(kept, filter, v);
      AssignStep(idx, kept, done, v);
      idx := Assign(idx, v, kept[v.0][v.1][v.2]);
      done := done + {v};
      todo := todo - {v};
    }
  }

  /** Every class stored under `(s, t, st)` lists `s` among its stream_ids,
      which the OVERLAP stage relies on when it reads the offsets. */
  predicate Listed(idx: Index) {
    forall k, eq | k in idx && eq in idx[k] :: k.0 in idx[k][eq].streams
  }

  // ---------------------------------------------------------------------
  // Positives per mode

  /** positives: mode -> target_id -> count; a missing target reads 0. */
  datatype Positives = Positives(
    docs: map<string, nat>, overlaps: map<string, nat>,
    fills: map<string, nat>, dateHours: map<string, nat>)

  function Get(m: map<string, nat>, t: string): nat {
    if t in m then m[t] else 0
  }

  function Count(pos: Positives, m: Mode, t: string): nat {
    match m
    case DOCS => Get(pos.docs, t)
    case OVERLAPS => Get(pos.overlaps, t)
    case FILLS => Get(pos.fills, t)
    case DATE_HOURS => Get(pos.dateHours, t)
  }

  /** A class of the truth data: (target_id, slot_type, equiv_id). */
  type Class = (string, string, string)

  predicate ClassOf(kept: Truth, c: Class) {
    c.0 in kept && c.1 in kept[c.0] && c.2 in kept[c.0][c.1]
  }

  /** Every class of every slot type: the positives ignore the slot
      filter and the SignificantOther/Children exclusion. */
  function Classes(kept: Truth): set<Class> {
    set t, st, eq | t in kept && st in kept[t] && eq in kept[t][st] :: (t, st, eq)
  }

  lemma ClassesMeaning(kept: Truth, c: Class)
    ensures c in Classes(kept) <==> ClassOf(kept, c)
  {
    if ClassOf(kept, c) {
      var (t, st, eq) := c;
      assert (t, st, eq) in Classes(kept);
    }
  }

  /** The distinct date_hours of a class's documents. */
  function DateHoursOf(f: Fill): set<string> {
    set s | s in f.streams :: f.streams[s].dateHour
  }

  /** What one class adds to its target's count in each mode: one fill;
      its distinct stream_ids; its distinct date_hours; OVERLAPS is DOCS
      since only one byte range per document is considered. */
  function Weight(f: Fill, m: Mode): nat {
    match m
    case DOCS => |f.streams.Keys|
    case OVERLAPS => |f.streams.Keys|
    case FILLS => 1
    case DATE_HOURS => |DateHoursOf(f)|
  }

  /** The weights of target `t`'s classes among `cs`. */
  ghost function Total(kept: Truth, cs: set<Class>, t: string, m: Mode): nat
    requires forall c | c in cs :: ClassOf(kept, c)
    decreases cs
  {
    if cs == {} then 0
    else
      var c := Pick(cs);
      assert ClassOf(kept, c);
      (if c.0 == t then Weight(kept[c.0][c.1][c.2], m) else 0) + Total(kept, cs - {c}, t, m)
  }

  lemma TotalRemove(kept: Truth, cs: set<Class>, t: string, m: Mode, c: Class)
    requires forall x | x in cs :: ClassOf(kept, x)
    requires c in cs
    ensures Total(kept, cs, t, m) == (if c.0 == t then Weight(kept[c.0][c.1][c.2], m) else 0) + Total(kept, cs - {c}, t, m)
    decreases cs
  {
    var x := Pick(cs);
    if x != c {
      TotalRemove(kept, cs - {x}, t, m, c);
      TotalRemove(kept, cs - {c}, t, m, x);
      assert cs - {x} - {c} == cs - {c} - {x};
    }
  }

  /** The known positives of target `t` in mode `m`. */
  ghost function Positive(kept: Truth, t: string, m: Mode): nat {
    forall c | c in Classes(kept) ensures ClassOf(kept, c) {
      ClassesMeaning(kept, c);
    }
    Total(kept, Classes(kept), t, m)
  }

  ghost predicate PositivesSoFar(pos: Positives, kept: Truth, done: set<Class>)
    requires forall c | c in done :: ClassOf(kept, c)
  {
    forall t: string, m: Mode :: Count(pos, m, t) == Total(kept, done, t, m)
  }

  /** One class counted into its target, given its numbers of documents
      and of date_hours. */
  function AddClass(pos: Positives, t: string, nDocs: nat, nHours: nat): Positives {
    var docs := pos.docs[t := Get(pos.docs, t) + nDocs];
    Positives(docs, pos.overlaps[t := Get(docs, t)],
      pos.fills[t := Get(pos.fills, t) + 1],
      pos.dateHours[t := Get(pos.dateHours, t) + nHours])
  }

  lemma {:induction false} TotalOverlapsDocs(kept: Truth, cs: set<Class>, t: string)
    requires forall c | c in cs :: ClassOf(kept, c)
    ensures Total(kept, cs, t, OVERLAPS) == Total(kept, cs, t, DOCS)
    decreases cs
  {
    if cs != {} {
      var c := Pick(cs);
      TotalOverlapsDocs(kept, cs - {c}, t);
    }
  }

  lemma PositivesStep(pos: Positives, kept: Truth, done: set<Class>, c: Class)
    requires forall x | x in done :: ClassOf(kept, x)
    requires ClassOf(kept, c) && c !in done
    requires PositivesSoFar(pos, kept, done)
    ensures var f := kept[c.0][c.1][c.2];
      PositivesSoFar(AddClass(pos, c.0, Weight(f, DOCS), Weight(f, DATE_HOURS)), kept, done + {c})
  {
    var f := kept[c.0][c.1][c.2];
    var pos2 := AddClass(pos, c.0, Weight(f, DOCS), Weight(f, DATE_HOURS));
    forall t: string, m: Mode ensures Count(pos2, m, t) == Total(kept, done + {c}, t, m) {
      PositivesStepAt(pos, kept, done, c, t, m);
    }
  }

  lemma PositivesStepAt(pos: Positives, kept: Truth, done: set<Class>, c: Class, t: string, m: Mode)
    requires forall x | x in done :: ClassOf(kept, x)
    requires ClassOf(kept, c) && c !in done
    requires PositivesSoFar(pos, kept, done)
    ensures var f := kept[c.0][c.1][c.2];
      Count(AddClass(pos, c.0, Weight(f, DOCS), Weight(f, DATE_HOURS)), m, t) == Total(kept, done + {c}, t, m)
  {
    TotalRemove(kept, done + {c}, t, m, c);
    assert done + {c} - {c} == done;
    assert Count(pos, m, t) == Total(kept, done, t, m);
    if m == OVERLAPS {
      TotalRemove(kept, done + {c}, t, DOCS, c);
      TotalOverlapsDocs(kept, done, t);
      assert Count(pos, DOCS, t) == Total(kept, done, t, DOCS);
    }
  }

  /** The four counters of one class, in the order the source bumps them. */
  method CountClass(pos: Positives, t: string, nDocs: nat, nHours: nat) returns (pos2: Positives)
    ensures pos2 == AddClass(pos, t, nDocs, nHours)
  {
    var fills := pos.fills[t := Get(pos.fills, t) + 1];
    var docs := pos.docs[t := Get(pos.docs, t) + nDocs];
    var dateHours := pos.dateHours[t := Get(pos.dateHours, t) + nHours];
    var overlaps := pos.overlaps[t := Get(docs, t)];
    pos2 := Positives(docs, overlaps, fills, dateHours);
  }

  /** The counting loops of load_annotation, as one loop over the classes
      they visit. */
  method CountPositives(kept: Truth) returns (pos: Positives)
    ensures forall t: string, m: Mode :: Count(pos, m, t) == Positive(kept, t, m)
  {
    forall c | c in Classes(kept) ensures ClassOf(kept, c) {
      ClassesMeaning(kept, c);
    }
    pos := Positives(map[], map[], map[], map[]);
    var todo := Classes(kept);
    ghost var all := todo;
    ghost var done: set<Class> := {};
    while todo != {}
      invariant todo <= all && done == all - todo
      invariant PositivesSoFar(pos, kept, done)
      decreases todo
    {
      var c := Choose(todo);
      PositivesStep(pos, kept, done, c);
      var f := kept[c.0][c.1][c.2];
      pos := CountClass(pos, c.0, |f.streams.Keys|, |DateHoursOf(f)|);
      done := done + {c};
      todo := todo - {c};
    }
    assert done == Classes(kept);
  }

  /** What the index holds, in terms of the truth file before the reject
      test. */
  lemma IndexContents(native: Truth, rejectTwitter: bool, rejectWikipedia: bool, filter: string, idx: Index)
    requires IndexOf(idx, Kept(native, rejectTwitter, rejectWikipedia), Visits(Kept(native, rejectTwitter, rejectWikipedia), filter))
    ensures forall t: string, st: string, eq: string, s: string ::
      ((s, t, st) in idx && eq in idx[(s, t, st)]) <==>
      (t in native && !Reject(rejectTwitter, rejectWikipedia, t) && st in native[t]
       && Admitted(filter, st) && eq in native[t][st] && s in native[t][st][eq].streams)
    ensures forall k, eq | k in idx && eq in idx[k] ::
      k.1 in native && k.2 in native[k.1] && eq in native[k.1][k.2] && idx[k][eq] == native[k.1][k.2][eq]
  {
    var kept := Kept(native, rejectTwitter, rejectWikipedia);
    forall t: string, st: string, eq: string, s: string
      ensures ((s, t, st) in idx && eq in idx[(s, t, st)]) <==>
        (t in native && !Reject(rejectTwitter, rejectWikipedia, t) && st in native[t]
         && Admitted(filter, st) && eq in native[t][st] && s in native[t][st][eq].streams)
    {
      VisitsMeaning(kept, filter, (t, st, eq, s));
    }
  }

  /** Consequences for the stages: every stored class lists its stream,
      and no key names a rejected target or an excluded slot type. */
  lemma IndexHonest(native: Truth, rejectTwitter: bool, rejectWikipedia: bool, filter: string, idx: Index)
    requires IndexOf(idx, Kept(native, rejectTwitter, rejectWikipedia), Visits(Kept(native, rejectTwitter, rejectWikipedia), filter))
    ensures Listed(idx)
    ensures forall k | k in idx ::
      !Reject(rejectTwitter, rejectWikipedia, k.1) && k.2 != "SignificantOther" && k.2 != "Children"
  {
    var kept := Kept(native, rejectTwitter, rejectWikipedia);
    forall k, eq | k in idx && eq in idx[k] ensures k.0 in idx[k][eq].streams {
      VisitsMeaning(kept, filter, (k.1, k.2, eq, k.0));
    }
    forall k | k in idx
      ensures !Reject(rejectTwitter, rejectWikipedia, k.1) && k.2 != "SignificantOther" && k.2 != "Children"
    {
      var eq :| eq in idx[k];
      VisitsMeaning(kept, filter, (k.1, k.2, eq, k.0));
    }
  }

  /** load_annotation: drop the rejected targets, index the admitted slot
      types by stream_id, and count the positives.  A class sits under
      `(s, t, st)` exactly when the truth file has it for target `t` (not
      rejected) and slot type `st` (admitted) and lists stream `s`; the
      stored class is the truth file's. */
  method LoadAnnotation(native: Truth, rejectTwitter: bool, rejectWikipedia: bool, filter: string)
    returns (idx: Index, pos: Positives)
    ensures forall t: string, st: string, eq: string, s: string ::
      ((s, t, st) in idx && eq in idx[(s, t, st)]) <==>
      (t in native && !Reject(rejectTwitter, rejectWikipedia, t) && st in native[t]
       && Admitted(filter, st) && eq in native[t][st] && s in native[t][st][eq].streams)
    ensures forall k, eq | k in idx && eq in idx[k] ::
      k.1 in native && k.2 in native[k.1] && eq in native[k.1][k.2] && idx[k][eq] == native[k.1][k.2][eq]
    ensures forall k | k in idx :: idx[k] != map[]
    ensures Listed(idx)
    ensures forall k | k in idx ::
      !Reject(rejectTwitter, rejectWikipedia, k.1) && k.2 != "SignificantOther" && k.2 != "Children"
    ensures forall t: string, m: Mode :: Count(pos, m, t) == Positive(Kept(native, rejectTwitter, rejectWikipedia), t, m)
  {
    var kept := DropRejected(native, rejectTwitter, rejectWikipedia);
    idx := BuildIndex(kept, filter);
    IndexContents(native, rejectTwitter, rejectWikipedia, filter, idx);
    IndexHonest(native, rejectTwitter, rejectWikipedia, filter, idx);
    pos := CountPositives(kept);
  }

  // ---------------------------------------------------------------------
  // What the positives count

  /** FILLS counts the classes of the target. */
  lemma {:induction false} TotalFills(kept: Truth, cs: set<Class>, t: string)
    requires forall c | c in cs :: ClassOf(kept, c)
    ensures Total(kept, cs, t, FILLS) == |set c | c in cs && c.0 == t|
    decreases cs
  {
    if cs == {} {
      assert (set c | c in cs && c.0 == t) == {};
    } else {
      var c := Pick(cs);
      TotalFills(kept, cs - {c}, t);
      var a := set x | x in cs - {c} && x.0 == t;
      if c.0 == t {
        assert (set x | x in cs && x.0 == t) == a + {c};
      } else {
        assert (set x | x in cs && x.0 == t) == a;
      }
    }
  }

  /** The positive counts: FILLS is the number of the target's classes
      over all slot types; OVERLAPS equals DOCS; a rejected or unknown
      target has none. */
  lemma PositivesMeaning(native: Truth, rejectTwitter: bool, rejectWikipedia: bool, t: string)
    ensures var kept := Kept(native, rejectTwitter, rejectWikipedia);
      Positive(kept, t, FILLS) == |set c | c in Classes(kept) && c.0 == t|
      && Positive(kept, t, OVERLAPS) == Positive(kept, t, DOCS)
    ensures (t !in native || Reject(rejectTwitter, rejectWikipedia, t)) ==>
      forall m: Mode :: Positive(Kept(native, rejectTwitter, rejectWikipedia), t, m) == 0
  {
    var kept := Kept(native, rejectTwitter, rejectWikipedia);
    forall c | c in Classes(kept) ensures ClassOf(kept, c) {
      ClassesMeaning(kept, c);
    }
    TotalFills(kept, Classes(kept), t);
    TotalOverlapsDocs(kept, Classes(kept), t);
    if t !in kept {
      forall m: Mode ensures Positive(kept, t, m) == 0 {
        TotalAbsent(kept, Classes(kept), t, m);
      }
    }
  }

  lemma {:induction false} TotalAbsent(kept: Truth, cs: set<Class>, t: string, m: Mode)
    requires forall c | c in cs :: ClassOf(kept, c)
    requires t !in kept
    ensures Total(kept, cs, t, m) == 0
    decreases cs
  {
    if cs != {} {
      var c := Pick(cs);
      TotalAbsent(kept, cs - {c}, t, m);
    }
  }
}
