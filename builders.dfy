/** The profile builders of the KBA 2014 SSF profile scorer:
    profiles_from_truthfile over the parsed truth data, and
    profiles_from_runfile over the parsed rows of a run file (scorer2/ssf.py
    and scorer_2/profile.py). */
module ProfileBuilders {
  import opened Wrappers
  import opened Sets
  import opened Text
  import opened Kernels
  import opened Profiles
  import opened Spans

  // ---------------------------------------------------------------------
  // Adding tokens to a profile

  /** Adding `a` and then `b` is adding `a + b`. */
  lemma {:induction false} AddedAllAppend(slots: Slots, truncate: bool, slot: string, a: seq<string>, b: seq<string>)
    ensures AddedAll(AddedAll(slots, truncate, slot, a), truncate, slot, b) == AddedAll(slots, truncate, slot, a + b)
    decreases |b|
  {
    if b == [] {
      assert a + b == a;
    } else {
      AddedAllAppend(slots, truncate, slot, a, b[..|b| - 1]);
      assert (a + b)[..|a + b| - 1] == a + b[..|b| - 1];
      assert (a + b)[|a + b| - 1] == b[|b| - 1];
    }
  }

  /** Adding to a slot the profile lacks: the slot appears, holding what
      the same tokens give in an empty profile, if there are any tokens. */
  lemma {:induction false} AddedAllFresh(slots: Slots, truncate: bool, slot: string, vs: seq<string>)
    requires slot !in slots
    ensures AddedAll(slots, truncate, slot, vs) ==
      if vs == [] then slots else slots[slot := SlotOf(AddedAll(map[], truncate, slot, vs), slot)]
    decreases |vs|
  {
    if vs != [] {
      var init := vs[..|vs| - 1];
      AddedAllFresh(slots, truncate, slot, init);
      AddedAllCounts(truncate, slot, init);
      AddedUnder(AddedAll(slots, truncate, slot, init), AddedAll(map[], truncate, slot, init), truncate, slot, vs[|vs| - 1]);
    }
  }

  /** What adding to a slot does depends only on that slot's counter. */
  lemma AddedUnder(slots: Slots, other: Slots, truncate: bool, slot: string, value: string)
    requires SlotOf(slots, slot) == SlotOf(other, slot)
    ensures Added(slots, truncate, slot, value) == slots[slot := SlotOf(Added(other, truncate, slot, value), slot)]
  {
  }

  /** The `for value in ...: add_value_for_slot(slot_name, value)` loop. */
  method AddTokens(p: ComparableProfile, slot: string, tokens: seq<string>)
    modifies p
    ensures p.slots == AddedAll(old(p.slots), p.truncate, slot, tokens)
  {
    for i := 0 to |tokens|
      invariant p.slots == AddedAll(old(p.slots), p.truncate, slot, tokens[..i])
    {
      assert tokens[..i + 1][..i] == tokens[..i];
      p.AddValueForSlot(slot, tokens[i]);
    }
    assert tokens[..|tokens|] == tokens;
  }

  // ---------------------------------------------------------------------
  // profiles_from_truthfile

  /** A slot's values in the truth data: a list of value records (each
      given by its 'value' text), a dict (given by its number of keys), or
      one value. */
  datatype SlotValues = Listed(items: seq<string>) | Mapping(size: nat) | Single(value: string)

  /** Iterating a dict gives its keys, and a key cannot be indexed by
      'value'. */
  datatype TruthError = NotIndexable(entity: string, slot: string)

  /** The tokens of one value: lower-cased, stripped, split on whitespace. */
  function ValueTokens(v: string): seq<string> {
    SplitWhitespace(Strip(Lower(v)))
  }

  function ListedTokens(items: seq<string>): seq<string> {
    if items == [] then [] else ListedTokens(items[..|items| - 1]) + ValueTokens(items[|items| - 1])
  }

  /** The tokens a slot contributes, in order; None where the loop raises. */
  function SlotTokens(vals: SlotValues): Option<seq<string>> {
    match vals
    case Listed(items) => Some(ListedTokens(items))
    case Mapping(n) => if n == 0 then Some([]) else None
    case Single(v) => Some(ValueTokens(v))
  }

  /** The counter a token list gives an empty slot. */
  function TokenCounter(truncate: bool, tokens: seq<string>): Counter {
    SlotOf(AddedAll(map[], truncate, "", tokens), "")
  }

  /** The counter does not depend on the slot's name. */
  lemma {:induction false} TokenCounterAnySlot(truncate: bool, slot: string, tokens: seq<string>)
    ensures SlotOf(AddedAll(map[], truncate, slot, tokens), slot) == TokenCounter(truncate, tokens)
    decreases |tokens|
  {
    if tokens != [] {
      var init := tokens[..|tokens| - 1];
      TokenCounterAnySlot(truncate, slot, init);
      AddedAllCounts(truncate, slot, init);
      AddedAllCounts(truncate, "", init);
    }
  }

  predicate TruthOk(ent: map<string, SlotValues>) {
    forall s | s in ent :: SlotTokens(ent[s]).Some?
  }

  /** The slots of a truth profile: each slot with at least one token,
      holding its tokens' counter. */
  function TruthSlots(ent: map<string, SlotValues>, truncate: bool): Slots
    requires TruthOk(ent)
  {
    map s | s in ent && SlotTokens(ent[s]).value != [] :: TokenCounter(truncate, SlotTokens(ent[s]).value)
  }

  /** A truth slot holds exactly its tokens, counted per occurrence, or
      once each when the profile truncates (the scorer_2 default). */
  lemma TruthSlotsMeaning(ent: map<string, SlotValues>, truncate: bool, s: string, v: string)
    requires TruthOk(ent) && s in ent
    ensures s in TruthSlots(ent, truncate) <==> SlotTokens(ent[s]).value != []
    ensures v in SlotOf(TruthSlots(ent, truncate), s) <==> v in SlotTokens(ent[s]).value
    ensures Get(SlotOf(TruthSlots(ent, truncate), s), v) ==
      if truncate then (if v in SlotTokens(ent[s]).value then 1 else 0) else Occurrences(SlotTokens(ent[s]).value, v)
  {
    AddedAllCounts(truncate, "", SlotTokens(ent[s]).value);
  }

  /** scorer2's truth profiles take the constructor's default, no
      truncation: a truth token counts once per occurrence. */
  lemma ScorerTruthCounts(ent: map<string, SlotValues>, s: string, v: string)
    requires TruthOk(ent) && s in ent
    ensures Get(SlotOf(TruthSlots(ent, ScorerTruncateDefault), s), v) == Occurrences(SlotTokens(ent[s]).value, v)
  {
    TruthSlotsMeaning(ent, ScorerTruncateDefault, s, v);
  }

  /** scorer_2's truth profiles take its default, truncation: every truth
      token counts 1, however often it occurs. */
  lemma EarlyTruthCounts(ent: map<string, SlotValues>, s: string, v: string)
    requires TruthOk(ent) && s in ent
    ensures v in SlotTokens(ent[s]).value <==> Get(SlotOf(TruthSlots(ent, EarlyTruncateDefault), s), v) == 1
  {
    TruthSlotsMeaning(ent, EarlyTruncateDefault, s, v);
  }

  /** The truth slots of the slot names in `done`. */
  function TruthSlotsOf(ent: map<string, SlotValues>, truncate: bool, done: set<string>): Slots
    requires forall s | s in done :: s in ent && SlotTokens(ent[s]).Some?
  {
    map s | s in done && SlotTokens(ent[s]).value != [] :: TokenCounter(truncate, SlotTokens(ent[s]).value)
  }

  lemma TruthSlotsStep(ent: map<string, SlotValues>, truncate: bool, done: set<string>, s: string)
    requires forall x | x in done :: x in ent && SlotTokens(ent[x]).Some?
    requires s in ent && s !in done && SlotTokens(ent[s]).Some?
    ensures AddedAll(TruthSlotsOf(ent, truncate, done), truncate, s, SlotTokens(ent[s]).value)
      == TruthSlotsOf(ent, truncate, done + {s})
  {
    AddedAllFresh(TruthSlotsOf(ent, truncate, done), truncate, s, SlotTokens(ent[s]).value);
    TokenCounterAnySlot(truncate, s, SlotTokens(ent[s]).value);
  }

  /** One slot of the truth data: its tokens, item by item. */
  method AddSlotValues(p: ComparableProfile, slot: string, vals: SlotValues) returns (ok: bool)
    modifies p
    ensures ok <==> SlotTokens(vals).Some?
    ensures ok ==> p.slots == AddedAll(old(p.slots), p.truncate, slot, SlotTokens(vals).value)
  {
    match vals {
      case Listed(items) =>
        AddListed(p, slot, items);
        return true;
      case Mapping(n) =>
        return n == 0;
      case Single(v) =>
        AddTokens(p, slot, ValueTokens(v));
        return true;
    }
  }

  /** A listed slot: the tokens of each item in turn. */
  method AddListed(p: ComparableProfile, slot: string, items: seq<string>)
    modifies p
    ensures p.slots == AddedAll(old(p.slots), p.truncate, slot, ListedTokens(items))
  {
    for j := 0 to |items|
      invariant p.slots == AddedAll(old(p.slots), p.truncate, slot, ListedTokens(items[..j]))
    {
      assert items[..j + 1][..j] == items[..j];
      AddedAllAppend(old(p.slots), p.truncate, slot, ListedTokens(items[..j]), ValueTokens(items[j]));
      AddTokens(p, slot, ValueTokens(items[j]));
    }
    assert items[..|items|] == items;
  }

  /** The tokens of one entity's truth data into a fresh profile. */
  method BuildTruthProfile(name: string, ent: map<string, SlotValues>, truncate: bool)
    returns (r: Result<ComparableProfile, TruthError>)
    ensures r.Success? <==> TruthOk(ent)
    ensures r.Success? ==> fresh(r.value) && r.value.name == name && r.value.truncate == truncate
    ensures r.Success? ==> TruthOk(ent) && r.value.slots == TruthSlots(ent, truncate)
    ensures r.Failure? ==> r.error.entity == name
  {
    var p := new ComparableProfile(name, truncate);
    var todo := ent.Keys;
    ghost var done: set<string> := {};
    while todo != {}
      invariant todo <= ent.Keys && done == ent.Keys - todo
      invariant fresh(p) && p.name == name && p.truncate == truncate
      invariant forall s | s in done :: s in ent && SlotTokens(ent[s]).Some?
      invariant p.slots == TruthSlotsOf(ent, truncate, done)
      decreases todo
    {
      var s := Choose(todo);
      var ok := AddSlotValues(p, s, ent[s]);
      if !ok {
        return Failure(NotIndexable(name, s));
      }
      TruthSlotsStep(ent, truncate, done, s);
      DoneStep(ent.Keys, todo, done, s);
      todo := todo - {s};
      done := done + {s};
    }
    assert done == ent.Keys;
    return Success(p);
  }

  /** The distinct profile objects of a name -> profile dict. */
  ghost predicate Separate(ps: map<string, ComparableProfile>) {
    forall a, b | a in ps && b in ps && a != b :: ps[a] != ps[b]
  }

  /** profiles_from_truthfile: one fresh profile per entity. */
  method ProfilesFromTruth(entities: map<string, map<string, SlotValues>>, truncate: bool)
    returns (r: Result<map<string, ComparableProfile>, TruthError>)
    ensures r.Success? <==> forall e | e in entities :: TruthOk(entities[e])
    ensures r.Success? ==> r.value.Keys == entities.Keys && Separate(r.value)
    ensures r.Success? ==> forall e | e in r.value :: (fresh(r.value[e]) && r.value[e].name == e
      && r.value[e].truncate == truncate && TruthOk(entities[e])
      && r.value[e].slots == TruthSlots(entities[e], truncate))
    ensures r.Failure? ==> r.error.entity in entities && !TruthOk(entities[r.error.entity])
  {
    var profiles: map<string, ComparableProfile> := map[];
    var todo := entities.Keys;
    while todo != {}
      invariant todo <= entities.Keys && profiles.Keys == entities.Keys - todo
      invariant Separate(profiles)
      invariant forall e | e in profiles :: (fresh(profiles[e]) && profiles[e].name == e
        && profiles[e].truncate == truncate && TruthOk(entities[e])
        && profiles[e].slots == TruthSlots(entities[e], truncate))
      decreases todo
    {
      var e := Choose(todo);
      var p := BuildTruthProfile(e, entities[e], truncate);
      if p.Failure? {
        return Failure(p.error);
      }
      profiles := profiles[e := p.value];
      todo := todo - {e};
    }
    return Success(profiles);
  }

  // ---------------------------------------------------------------------
  // profiles_from_runfile

  /** The scorer whose profiles_from_runfile is meant: scorer2/ssf.py
      skips a row whose stream item is missing or whose span does not
      decode; scorer_2/profile.py fails on the first and keeps the
      undecoded span on the second. */
  datatype Flavour = Scorer | Early

  /** What profiles_from_runfile reads besides the rows: the flavour, the
      configuration, the row limit, the stream items (clean_visible text
      by path below the stream-items directory) and whether a text
      decodes as UTF-8. */
  datatype RunEnv = RunEnv(flavour: Flavour, cfg: Config, limit: Option<int>,
                           items: map<string, string>, utf8: string -> bool)

  /** The exceptions that end profiles_from_runfile: a row too short to
      index, a stream id the pattern does not match, a missing chunk
      (scorer_2), a document that does not decode, bad offsets. */
  datatype RunError = NoHeader | ShortRow(index: nat) | NoStreamItem(id: string) | MissingChunk(path: string)
                    | NotDecodable(index: nat) | BadSpan(index: nat)

  /** `count`, the profiles built so far, and whether the limit stopped
      the loop. */
  datatype RunState = RunState(count: int, profiles: map<string, Slots>, stopped: bool)

  const StartState := RunState(1, map[], false)

  predicate IsComment(row: seq<string>) {
    |row| >= 1 && StartsWith(row[0], "#")
  }

  /** The tokens row `row` adds to its entity's slot, if it adds any:
      None when it is skipped after its profile was created. */
  function RowTokens(row: seq<string>, i: nat, env: RunEnv): Result<Option<seq<string>>, RunError>
    requires |row| >= 11
  {
    var offsets := OffsetList(row[10], env.cfg.cPrepended);
    OffsetListMeaning(row[10], env.cfg.cPrepended);
    match StreamItemPath(row[2])
    case None => Failure(NoStreamItem(row[2]))
    case Some(path) =>
      if path !in env.items then
        if env.flavour == Scorer then Success(None) else Failure(MissingChunk(path))
      else
        var clean := env.items[path];
        if env.cfg.decodeUtf && !env.utf8(clean) then Failure(NotDecodable(i))
        else
          match Bounds(offsets, env.cfg.inclusive)
          case Failure(_) => Failure(BadSpan(i))
          case Success((b, e)) =>
            var text := SlotText(clean, b, e);
            if !env.cfg.decodeUtf && !env.utf8(text) && env.flavour == Scorer then Success(None)
            else Success(Some(SplitWhitespace(text)))
  }

  /** `profiles` with an empty profile for `name` if it had none. */
  function WithProfile(profiles: map<string, Slots>, name: string): (r: map<string, Slots>)
    ensures r.Keys == profiles.Keys + {name}
    ensures forall e | e in profiles :: r[e] == profiles[e]
    ensures name !in profiles ==> r[name] == map[]
  {
    if name in profiles then profiles else profiles[name := map[]]
  }

  /** A full row: its entity's profile is created, `count` goes up, and
      its tokens, if any, are added under its slot. */
  function AddRow(st: RunState, row: seq<string>, tokens: Option<seq<string>>): RunState
    requires |row| >= 11
  {
    var profiles := WithProfile(st.profiles, row[3]);
    match tokens
    case None => RunState(st.count + 1, profiles, false)
    case Some(ts) => RunState(st.count + 1, profiles[row[3] := AddedAll(profiles[row[3]], true, row[8], ts)], false)
  }

  /** One row of the loop. */
  function RunStep(st: RunState, row: seq<string>, i: nat, env: RunEnv): Result<RunState, RunError> {
    if |row| == 0 then Failure(ShortRow(i))
    else if IsComment(row) then Success(st)
    else if env.limit.Some? && st.count > env.limit.value then Success(st.(stopped := true))
    else if |row| < 11 then Failure(ShortRow(i))
    else
      match RowTokens(row, i, env)
      case Failure(e) => Failure(e)
      case Success(tokens) => Success(AddRow(st, row, tokens))
  }

  /** The loop over the rows; once stopped, the remaining rows are not
      read. */
  function RunFold(rows: seq<seq<string>>, env: RunEnv): Result<RunState, RunError>
    decreases |rows|
  {
    if rows == [] then Success(StartState)
    else
      match RunFold(rows[..|rows| - 1], env)
      case Failure(e) => Failure(e)
      case Success(st) => if st.stopped then Success(st) else RunStep(st, rows[|rows| - 1], |rows| - 1, env)
  }

  /** add_value_for_slot over tokens only ever adds `slot`. */
  lemma {:induction false} AddedAllKeys(slots: Slots, truncate: bool, slot: string, vs: seq<string>)
    ensures slots.Keys <= AddedAll(slots, truncate, slot, vs).Keys <= slots.Keys + {slot}
    ensures forall s | s in slots && s != slot :: AddedAll(slots, truncate, slot, vs)[s] == slots[s]
    decreases |vs|
  {
    if vs != [] {
      var init := AddedAll(slots, truncate, slot, vs[..|vs| - 1]);
      AddedAllKeys(slots, truncate, slot, vs[..|vs| - 1]);
      AddedMeaning(init, truncate, slot, vs[|vs| - 1]);
      forall s | s in slots && s != slot ensures AddedAll(slots, truncate, slot, vs)[s] == slots[s] {
        assert SlotOf(Added(init, truncate, slot, vs[|vs| - 1]), s) == SlotOf(init, s);
      }
    }
  }

  /** Counts stay positive (and 1 under truncation) over many tokens. */
  lemma {:induction false} AddedAllKeepsCounts(slots: Slots, truncate: bool, slot: string, vs: seq<string>)
    requires CountsAtLeastOne(slots, truncate)
    ensures CountsAtLeastOne(AddedAll(slots, truncate, slot, vs), truncate)
    decreases |vs|
  {
    if vs != [] {
      AddedAllKeepsCounts(slots, truncate, slot, vs[..|vs| - 1]);
      AddedKeepsCounts(AddedAll(slots, truncate, slot, vs[..|vs| - 1]), truncate, slot, vs[|vs| - 1]);
    }
  }

  /** `count` starts at 1, grows only below the limit, and the loop stops
      only past it: with a limit L, at most L rows are counted. */
  lemma {:induction false} RunCountBound(rows: seq<seq<string>>, env: RunEnv)
    requires RunFold(rows, env).Success?
    ensures RunFold(rows, env).value.count >= 1
    ensures (env.limit.Some? ==>
      RunFold(rows, env).value.count <= if env.limit.value >= 0 then env.limit.value + 1 else 1)
    ensures RunFold(rows, env).value.stopped ==> env.limit.Some? && RunFold(rows, env).value.count > env.limit.value
    decreases |rows|
  {
    if rows != [] {
      RunCountBound(rows[..|rows| - 1], env);
    }
  }

  /** Comment rows change nothing, not even `count`. */
  lemma CommentIgnored(rows: seq<seq<string>>, row: seq<string>, env: RunEnv)
    requires IsComment(row)
    ensures RunFold(rows + [row], env) == RunFold(rows, env)
  {
    assert (rows + [row])[..|rows|] == rows;
  }

  /** A row adds at most its own entity, and under it its own slot. */
  lemma RunStepShape(st: RunState, row: seq<string>, i: nat, env: RunEnv)
    requires RunStep(st, row, i, env).Success?
    ensures (var P := RunStep(st, row, i, env).value.profiles;
      forall e | e in P && e !in st.profiles :: |row| >= 11 && e == row[3])
    ensures (var P := RunStep(st, row, i, env).value.profiles;
      forall e, s | e in P && s in P[e] && !(e in st.profiles && s in st.profiles[e]) :: |row| >= 11 && e == row[3] && s == row[8])
  {
    if |row| >= 11 && !IsComment(row) && !(env.limit.Some? && st.count > env.limit.value) {
      var tokens := RowTokens(row, i, env).value;
      var W := WithProfile(st.profiles, row[3]);
      if tokens.Some? {
        AddedAllKeys(W[row[3]], true, row[8], tokens.value);
      }
    }
  }

  /** Every run profile, and every slot in it, comes from a full row
      naming that entity and slot. */
  lemma {:induction false} RunOrigins(rows: seq<seq<string>>, env: RunEnv)
    requires RunFold(rows, env).Success?
    ensures (forall e | e in RunFold(rows, env).value.profiles ::
      exists j | 0 <= j < |rows| :: |rows[j]| >= 11 && rows[j][3] == e)
    ensures (forall e, s | e in RunFold(rows, env).value.profiles && s in RunFold(rows, env).value.profiles[e] ::
      exists j | 0 <= j < |rows| :: |rows[j]| >= 11 && rows[j][3] == e && rows[j][8] == s)
    decreases |rows|
  {
    if rows != [] {
      var n := |rows| - 1;
      var init := rows[..n];
      RunOrigins(init, env);
      var st := RunFold(init, env).value;
      var P := RunFold(rows, env).value.profiles;
      if !st.stopped {
        RunStepShape(st, rows[n], n, env);
      }
      forall e | e in P ensures exists j | 0 <= j < |rows| :: |rows[j]| >= 11 && rows[j][3] == e {
        if e in st.profiles {
          var j :| 0 <= j < |init| && |init[j]| >= 11 && init[j][3] == e;
          assert rows[j] == init[j];
        } else {
          assert |rows[n]| >= 11 && rows[n][3] == e;
        }
      }
      forall e, s | e in P && s in P[e] ensures exists j | 0 <= j < |rows| :: |rows[j]| >= 11 && rows[j][3] == e && rows[j][8] == s {
        if e in st.profiles && s in st.profiles[e] {
          var j :| 0 <= j < |init| && |init[j]| >= 11 && init[j][3] == e && init[j][8] == s;
          assert rows[j] == init[j];
        } else {
          assert |rows[n]| >= 11 && rows[n][3] == e && rows[n][8] == s;
        }
      }
    }
  }

  /** Run profiles truncate: every count is 1. */
  lemma {:induction false} RunTruncates(rows: seq<seq<string>>, env: RunEnv)
    requires RunFold(rows, env).Success?
    ensures forall e | e in RunFold(rows, env).value.profiles :: CountsAtLeastOne(RunFold(rows, env).value.profiles[e], true)
    decreases |rows|
  {
    if rows != [] {
      var n := |rows| - 1;
      RunTruncates(rows[..n], env);
      var st := RunFold(rows[..n], env).value;
      var row := rows[n];
      if !st.stopped && |row| >= 11 && !IsComment(row) && !(env.limit.Some? && st.count > env.limit.value) {
        var tokens := RowTokens(row, n, env).value;
        var W := WithProfile(st.profiles, row[3]);
        assert forall e | e in W :: CountsAtLeastOne(W[e], true);
        if tokens.Some? {
          AddedAllKeepsCounts(W[row[3]], true, row[8], tokens.value);
        }
      }
    }
  }

  /** The two scorers read a row alike, except that scorer2 skips a
      missing chunk (scorer_2 fails) and a span that does not decode
      (scorer_2 keeps its tokens). */
  lemma FlavoursAgree(row: seq<string>, i: nat, env: RunEnv)
    requires |row| >= 11
    ensures (var s := RowTokens(row, i, env.(flavour := Scorer));
      var e := RowTokens(row, i, env.(flavour := Early));
      (s.Failure? ==> e == s) && (s.Success? && s.value.Some? ==> e == s) && (e.Success? ==> s.Success?))
    ensures (var s := RowTokens(row, i, env.(flavour := Scorer));
      var e := RowTokens(row, i, env.(flavour := Early));
      s == Success(None) && e.Success? ==> e.value.Some? && !env.cfg.decodeUtf)
  {
  }

  /** The environment of scorer2's profiles_from_runfile: no row limit
      unless `maxLines` is given. */
  function ScorerEnv(cfg: Config, maxLines: Option<int>, items: map<string, string>, utf8: string -> bool): RunEnv {
    RunEnv(Scorer, cfg, maxLines, items, utf8)
  }

  /** scorer_2 reads at most this many rows. */
  const EarlyLimit := 1000

  function EarlyEnv(cfg: Config, items: map<string, string>, utf8: string -> bool): RunEnv {
    RunEnv(Early, cfg, Some(EarlyLimit), items, utf8)
  }

  /** The only task scorer2 scores. */
  const SsfTaskId := "kba-ssf-2014"

  /** scorer2's profiles_from_runfile: the first line must be a comment
      (its JSON carries `taskId`); a run of another task gives nothing. */
  method ScorerRunProfiles(header: string, taskId: string, rows: seq<seq<string>>, cfg: Config, maxLines: Option<int>,
                           items: map<string, string>, utf8: string -> bool)
    returns (r: Result<Option<map<string, ComparableProfile>>, RunError>)
    ensures !StartsWith(header, "#") ==> r == Failure(NoHeader)
    ensures StartsWith(header, "#") && taskId != SsfTaskId ==> r == Success(None)
    ensures (StartsWith(header, "#") && taskId == SsfTaskId ==>
      (r.Success? <==> RunFold(rows, ScorerEnv(cfg, maxLines, items, utf8)).Success?) && (r.Success? ==> r.value.Some?)
      && (r.Failure? ==> r.error == RunFold(rows, ScorerEnv(cfg, maxLines, items, utf8)).error))
    ensures r.Success? && r.value.Some? ==> (
      RunProfilesShape(r.value.value)
      && SlotsOf(r.value.value) == RunFold(rows, ScorerEnv(cfg, maxLines, items, utf8)).value.profiles
      && forall e | e in r.value.value :: fresh(r.value.value[e]))
  {
    if !StartsWith(header, "#") {
      return Failure(NoHeader);
    }
    if taskId != SsfTaskId {
      return Success(None);
    }
    var built := RunProfiles(rows, ScorerEnv(cfg, maxLines, items, utf8));
    if built.Failure? {
      return Failure(built.error);
    }
    return Success(Some(built.value));
  }

  /** scorer_2's profiles_from_runfile. */
  method EarlyRunProfiles(rows: seq<seq<string>>, cfg: Config, items: map<string, string>, utf8: string -> bool)
    returns (r: Result<map<string, ComparableProfile>, RunError>)
    ensures r.Success? <==> RunFold(rows, EarlyEnv(cfg, items, utf8)).Success?
    ensures r.Failure? ==> r.error == RunFold(rows, EarlyEnv(cfg, items, utf8)).error
    ensures r.Success? ==> (
      RunProfilesShape(r.value)
      && SlotsOf(r.value) == RunFold(rows, EarlyEnv(cfg, items, utf8)).value.profiles
      && forall e | e in r.value :: fresh(r.value[e]))
  {
    r := RunProfiles(rows, EarlyEnv(cfg, items, utf8));
  }

  lemma {:induction false} RunFoldSticks(rows: seq<seq<string>>, j: nat, env: RunEnv)
    requires j <= |rows|
    requires RunFold(rows[..j], env).Failure? || RunFold(rows[..j], env).value.stopped
    ensures RunFold(rows, env) == RunFold(rows[..j], env)
    decreases |rows| - j
  {
    if j < |rows| {
      assert rows[..j + 1][..j] == rows[..j];
      RunFoldSticks(rows, j + 1, env);
    } else {
      assert rows[..j] == rows;
    }
  }

  /** What a full row yields: it fails for a stream id the pattern
      refuses, for a chunk scorer_2 cannot find (scorer2 keeps the row but
      adds no tokens), for a document that does not decode when decoding
      comes first, and for offsets that do not convert; only scorer2 ever
      adds no tokens; and the tokens it adds are non-empty, hold no
      whitespace, no '_' and no upper-case ASCII letter. */
  lemma RowTokensMeaning(row: seq<string>, i: nat, env: RunEnv)
    requires |row| >= 11
    ensures RowTokens(row, i, env) == Failure(NoStreamItem(row[2])) <==> StreamItemPath(row[2]).None?
    ensures StreamItemPath(row[2]).Some? && StreamItemPath(row[2]).value !in env.items ==>
      RowTokens(row, i, env) == if env.flavour == Scorer then Success(None)
                                else Failure(MissingChunk(StreamItemPath(row[2]).value))
    ensures RowTokens(row, i, env) == Failure(NotDecodable(i)) <==>
      StreamItemPath(row[2]).Some? && StreamItemPath(row[2]).value in env.items
      && env.cfg.decodeUtf && !env.utf8(env.items[StreamItemPath(row[2]).value])
    ensures RowTokens(row, i, env) == Failure(BadSpan(i)) <==>
      StreamItemPath(row[2]).Some? && StreamItemPath(row[2]).value in env.items
      && !(env.cfg.decodeUtf && !env.utf8(env.items[StreamItemPath(row[2]).value]))
      && Bounds(OffsetList(row[10], env.cfg.cPrepended), env.cfg.inclusive).Failure?
    ensures RowTokens(row, i, env) == Success(None) ==> env.flavour == Scorer
    ensures RowTokens(row, i, env).Success? && RowTokens(row, i, env).value.Some? ==>
      var ts := RowTokens(row, i, env).value.value;
      forall k :: 0 <= k < |ts| ==> ts[k] != [] && NoSpace(ts[k]) && CleanText(ts[k])
  {
    var offsets := OffsetList(row[10], env.cfg.cPrepended);
    var path := StreamItemPath(row[2]);
    OffsetListMeaning(row[10], env.cfg.cPrepended);
    if path.Some? && path.value in env.items {
      var bounds := Bounds(offsets, env.cfg.inclusive);
      if bounds.Success? {
        SpanTokens(env.items[path.value], bounds.value.0, bounds.value.1);
      }
    }
  }

  /** One row of the loop: an empty row fails (`row[0]` raises), a comment
      changes nothing, past the limit the loop stops before the row is
      read, a short data row fails; a data row that goes through raises
      `count` by one, creates its entity's profile and leaves every other
      profile as it was. */
  lemma RunStepMeaning(st: RunState, row: seq<string>, i: nat, env: RunEnv)
    ensures |row| == 0 ==> RunStep(st, row, i, env) == Failure(ShortRow(i))
    ensures IsComment(row) ==> RunStep(st, row, i, env) == Success(st)
    ensures |row| > 0 && !IsComment(row) && env.limit.Some? && st.count > env.limit.value ==>
      RunStep(st, row, i, env) == Success(st.(stopped := true))
    ensures |row| > 0 && !IsComment(row) && !(env.limit.Some? && st.count > env.limit.value) ==>
      (0 < |row| < 11 ==> RunStep(st, row, i, env) == Failure(ShortRow(i)))
      && (|row| >= 11 && RunStep(st, row, i, env).Success? ==>
        var next := RunStep(st, row, i, env).value;
        next.count == st.count + 1 && !next.stopped
        && next.profiles.Keys == st.profiles.Keys + {row[3]}
        && forall e | e in st.profiles && e != row[3] :: next.profiles[e] == st.profiles[e])
  {
  }

  /** The loop fails exactly when some row fails while the loop is still
      running, and then with that row's error. */
  lemma {:induction false} RunFoldFailure(rows: seq<seq<string>>, env: RunEnv)
    ensures RunFold(rows, env).Failure? <==>
      exists j | 0 <= j < |rows| :: RunFold(rows[..j], env).Success? && !RunFold(rows[..j], env).value.stopped
        && RunStep(RunFold(rows[..j], env).value, rows[j], j, env).Failure?
    decreases |rows|
  {
    if |rows| > 0 {
      var n := |rows| - 1;
      RunFoldFailure(rows[..n], env);
      assert forall j | 0 <= j < n :: rows[..n][..j] == rows[..j] && rows[..n][j] == rows[j];
    }
  }

  /** A profile's slots, by entity. */
  ghost function SlotsOf(profs: map<string, ComparableProfile>): map<string, Slots>
    reads set e | e in profs :: profs[e]
  {
    map e | e in profs :: profs[e].slots
  }

  /** Run profiles: named by their entity, truncating, one object each. */
  ghost predicate RunProfilesShape(profs: map<string, ComparableProfile>) {
    Separate(profs) && forall e | e in profs :: profs[e].name == e && profs[e].truncate
  }

  /** The profile of `name`, created if missing. */
  method EnsureProfile(profs: map<string, ComparableProfile>, name: string) returns (out: map<string, ComparableProfile>)
    requires RunProfilesShape(profs)
    ensures RunProfilesShape(out) && name in out
    ensures SlotsOf(out) == WithProfile(SlotsOf(profs), name)
    ensures forall e | e in out :: (e in profs && out[e] == profs[e]) || fresh(out[e])
  {
    out := profs;
    if name !in out {
      var p := new ComparableProfile(name, true);
      out := out[name := p];
    }
  }

  /** A full row's tokens into its entity's profile, created if missing. */
  method AddFullRow(profs: map<string, ComparableProfile>, count: int, row: seq<string>, tokens: Option<seq<string>>)
    returns (out: map<string, ComparableProfile>)
    requires |row| >= 11 && RunProfilesShape(profs)
    modifies set e | e in profs :: profs[e]
    ensures RunProfilesShape(out)
    ensures SlotsOf(out) == AddRow(RunState(count, old(SlotsOf(profs)), false), row, tokens).profiles
    ensures forall e | e in out :: (e in profs && out[e] == profs[e]) || fresh(out[e])
  {
    var name := row[3];
    out := EnsureProfile(profs, name);
    ghost var profiles := SlotsOf(out);
    if tokens.Some? {
      var p := out[name];
      AddTokens(p, row[8], tokens.value);
      assert SlotsOf(out) == profiles[name := AddedAll(profiles[name], true, row[8], tokens.value)];
    }
  }

  /** One row: skipped, stopped, failed, or its tokens added to its
      entity's (possibly new) profile. */
  method ProcessRow(profs: map<string, ComparableProfile>, count: int, row: seq<string>, i: nat, env: RunEnv)
    returns (r: Result<(map<string, ComparableProfile>, int, bool), RunError>)
    requires RunProfilesShape(profs)
    modifies set e | e in profs :: profs[e]
    ensures RunStep(RunState(count, old(SlotsOf(profs)), false), row, i, env).Failure? <==> r.Failure?
    ensures r.Failure? ==> RunStep(RunState(count, old(SlotsOf(profs)), false), row, i, env).error == r.error
    ensures r.Success? ==> RunProfilesShape(r.value.0)
    ensures r.Success? ==>
      RunStep(RunState(count, old(SlotsOf(profs)), false), row, i, env) == Success(RunState(r.value.1, SlotsOf(r.value.0), r.value.2))
    ensures r.Success? ==> forall e | e in r.value.0 :: (e in profs && r.value.0[e] == profs[e]) || fresh(r.value.0[e])
  {
    ghost var st := RunState(count, SlotsOf(profs), false);
    if |row| == 0 {
      return Failure(ShortRow(i));
    }
    if StartsWith(row[0], "#") {
      assert RunStep(st, row, i, env) == Success(st);
      return Success((profs, count, false));
    }
    if env.limit.Some? && count > env.limit.value {
      assert RunStep(st, row, i, env) == Success(st.(stopped := true));
      return Success((profs, count, true));
    }
    if |row| < 11 {
      return Failure(ShortRow(i));
    }
    var tokens := RowTokens(row, i, env);
    if tokens.Failure? {
      return Failure(tokens.error);
    }
    var out := AddFullRow(profs, count, row, tokens.value);
    assert RunStep(st, row, i, env) == Success(AddRow(st, row, tokens.value));
    return Success((out, count + 1, false));
  }

  /** The rows into one truncating profile per entity. */
  method RunProfiles(rows: seq<seq<string>>, env: RunEnv) returns (r: Result<map<string, ComparableProfile>, RunError>)
    ensures r.Success? <==> RunFold(rows, env).Success?
    ensures r.Failure? ==> r.error == RunFold(rows, env).error
    ensures r.Success? ==> RunProfilesShape(r.value) && SlotsOf(r.value) == RunFold(rows, env).value.profiles
    ensures r.Success? ==> forall e | e in r.value :: fresh(r.value[e])
  {
    var profs: map<string, ComparableProfile> := map[];
    var count := 1;
    for i := 0 to |rows|
      invariant RunFold(rows[..i], env) == Success(RunState(count, SlotsOf(profs), false))
      invariant RunProfilesShape(profs) && forall e | e in profs :: fresh(profs[e])
    {
      assert rows[..i + 1][..i] == rows[..i];
      var out := ProcessRow(profs, count, rows[i], i, env);
      if out.Failure? {
        RunFoldSticks(rows, i + 1, env);
        return Failure(out.error);
      }
      var (p2, c2, stopped) := out.value;
      if stopped {
        RunFoldSticks(rows, i + 1, env);
        return Success(p2);
      }
      profs, count := p2, c2;
    }
    assert rows[..|rows|] == rows;
    return Success(profs);
  }
}
