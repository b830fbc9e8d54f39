/** The DOCS stage of the SSF scorer (scorer/ssf.py,
    score_confusion_matrix_DOCS): the run file's rows, the records of the
    rows whose (stream_id, target_id, slot_type) the truth data knows, and
    the stable sort of those records by date_hour. */
module SsfDocs {
  import opened Wrappers
  import opened Text
  import opened SsfTruth
  import opened SsfMatrix
  import Ladder

  /** Field 7 of a record: the run's equiv_id, or, from OVERLAP on, the
      pair (run's equiv_id, truth's equiv_id). */
  datatype Equiv = Run(id: string) | Paired(run: string, truth: string)

  /** The record the stages pass on: (stream_id, target_id, conf, rating,
      contains_mention, date_hour, slot_type, equiv_id, start_byte,
      end_byte). */
  datatype Rec = Rec(
    stream: string, target: string, conf: int, rating: int, mention: int,
    dateHour: string, slot: string, equiv: Equiv, start: int, end: int)

  /** Where a record is looked up in the inverted index. */
  function SlotOf(r: Rec): Slot {
    (r.stream, r.target, r.slot)
  }

  datatype Line = Blank | Data(rec: Rec)

  /** The assertion on the field count, and the exit when a field does
      not convert. */
  datatype LineError = WrongFieldCount | BadField

  datatype SsfError =
    | BadStep                             // range() refuses a cutoff step of 0
    | BadLine(index: nat, why: LineError)

  /** One line of the run file: comments and blank lines are skipped; a
      data line must have 11 whitespace-separated fields; the stream_id's
      time stamp, the int(float()) confidence, the rating, the mention
      flag and both ends of the "start-end" byte range must convert. */
  function ParseRunLine(line: string): Result<Line, LineError> {
    if StartsWith(line, "#") || |Strip(line)| == 0 then Success(Blank)
    else
      var row := SplitWhitespace(line);
      if |row| != 11 then Failure(WrongFieldCount)
      else
        var ts := PyInt(SplitOn(row[2], '-')[0]);
        var conf := PyIntOfFloat(row[4]);
        var rating := PyInt(row[5]);
        var mention := PyInt(row[6]);
        var span := SplitOn(row[10], '-');
        if ts.None? || conf.None? || rating.None? || mention.None? || |span| != 2 then Failure(BadField)
        else
          var b := PyInt(span[0]);
          var e := PyInt(span[1]);
          if b.None? || e.None? then Failure(BadField)
          else Success(Data(Rec(row[2], row[3], conf.value, rating.value, mention.value,
            row[7], row[8], Run(row[9]), b.value, e.value)))
  }

  /** What a parsed line holds: the field-count failure is exactly a data
      line without 11 fields; a record carries fields 2, 3, 7, 8 and 9 as
      they are and field 4 read by int(float()). */
  lemma ParseRunLineMeaning(line: string)
    ensures ParseRunLine(line) == Failure(WrongFieldCount) <==>
      !StartsWith(line, "#") && |Strip(line)| != 0 && |SplitWhitespace(line)| != 11
    ensures ParseRunLine(line) == Success(Blank) <==> StartsWith(line, "#") || |Strip(line)| == 0
    ensures ParseRunLine(line).Success? && ParseRunLine(line).value.Data? ==>
      var row := SplitWhitespace(line);
      var r := ParseRunLine(line).value.rec;
      |row| == 11 && r.stream == row[2] && r.target == row[3] && r.dateHour == row[7]
      && r.slot == row[8] && r.equiv == Run(row[9]) && PyIntOfFloat(row[4]) == Some(r.conf)
  {
  }

  function ParsedRunLines(lines: seq<string>): (ps: seq<Result<Line, LineError>>)
    ensures |ps| == |lines|
    ensures forall j | 0 <= j < |lines| :: ps[j] == ParseRunLine(lines[j])
  {
    seq(|lines|, j requires 0 <= j < |lines| => ParseRunLine(lines[j]))
  }

  // ---------------------------------------------------------------------
  // The pass over the run file

  datatype DocsState = DocsState(cm: Matrices, tps: seq<Rec>)

  /** One data row: it is a DOCS TP exactly when the index has its
      (stream_id, target_id, slot_type); a TP is kept, and either way the
      row moves its target's DOCS cells. */
  function DocsStep(st: DocsState, r: Rec, idx: Index, cutoffs: seq<nat>): DocsState {
    var tp := SlotOf(r) in idx;
    DocsState(
      st.cm.(docs := Incremented(st.cm.docs, tp, r.conf, cutoffs, Target(r.target))),
      if tp then st.tps + [r] else st.tps)
  }

  /** The state after the parsed lines, in file order; fails at the first
      line that does not parse. */
  function DocsFold(ps: seq<Result<Line, LineError>>, idx: Index, cutoffs: seq<nat>): Result<DocsState, SsfError>
    decreases |ps|
  {
    if |ps| == 0 then Success(DocsState(Fresh, []))
    else
      var n := |ps| - 1;
      match DocsFold(ps[..n], idx, cutoffs)
      case Failure(e) => Failure(e)
      case Success(st) =>
        match ps[n]
        case Failure(why) => Failure(BadLine(n, why))
        case Success(Blank) => Success(st)
        case Success(Data(r)) => Success(DocsStep(st, r, idx, cutoffs))
  }

  /** score_confusion_matrix_DOCS as a function of the run file's lines. */
  function DocsSpec(lines: seq<string>, idx: Index, pos: Positives, step: int): Result<(Matrices, seq<Rec>), SsfError> {
    match Ladder.Cutoffs(step)
    case None => Failure(BadStep)
    case Some(cutoffs) =>
      match DocsFold(ParsedRunLines(lines), idx, cutoffs)
      case Failure(e) => Failure(e)
      case Success(st) =>
        Success((WithTable(st.cm, DOCS, Corrected(st.cm.docs, pos, DOCS)), SortByDateHour(st.tps)))
  }

  lemma {:induction false} DocsFailureSticks(ps: seq<Result<Line, LineError>>, j: nat, idx: Index, cutoffs: seq<nat>)
    requires j <= |ps|
    requires DocsFold(ps[..j], idx, cutoffs).Failure?
    ensures DocsFold(ps, idx, cutoffs) == DocsFold(ps[..j], idx, cutoffs)
    decreases |ps| - j
  {
    if j < |ps| {
      assert ps[..j + 1][..j] == ps[..j];
      DocsFailureSticks(ps, j + 1, idx, cutoffs);
    } else {
      assert ps[..j] == ps;
    }
  }

  /** The loop over the run file's lines. */
  method SweepDocs(lines: seq<string>, idx: Index, cutoffs: seq<nat>, unannTN: bool)
    returns (r: Result<DocsState, SsfError>)
    ensures r == DocsFold(ParsedRunLines(lines), idx, cutoffs)
  {
    ghost var ps := ParsedRunLines(lines);
    var cm := Fresh;
    var tps: seq<Rec> := [];
    var i := 0;
    while i < |lines|
      invariant 0 <= i <= |lines|
      invariant DocsFold(ps[..i], idx, cutoffs) == Success(DocsState(cm, tps))
    {
      assert ps[..i + 1][..i] == ps[..i];
      var parsed := ParseRunLine(lines[i]);
      assert parsed == ps[i];
      match parsed {
        case Failure(why) =>
          DocsFailureSticks(ps, i + 1, idx, cutoffs);
          return Failure(BadLine(i, why));
        case Success(Blank) =>
        case Success(Data(rec)) =>
          var isTP := (rec.stream, rec.target, rec.slot) in idx;
          if isTP {
            tps := tps + [rec];
          }
          cm := IncrementCM(cm, isTP, rec.conf, cutoffs, DOCS, Target(rec.target), unannTN);
      }
      i := i + 1;
    }
    assert ps[..|lines|] == ps;
    return Success(DocsState(cm, tps));
  }

  /** score_confusion_matrix_DOCS: the cutoff ladder, one pass over the
      rows, the FN back-fill of the DOCS table, and the kept records sorted
      by date_hour. */
  method ScoreDocs(lines: seq<string>, idx: Index, pos: Positives, step: int, unannTN: bool)
    returns (r: Result<(Matrices, seq<Rec>), SsfError>)
    ensures r == DocsSpec(lines, idx, pos, step)
  {
    var ladder := Ladder.Cutoffs(step);
    if ladder.None? {
      return Failure(BadStep);
    }
    var swept := SweepDocs(lines, idx, ladder.value, unannTN);
    if swept.Failure? {
      return Failure(swept.error);
    }
    var cm := CorrectFN(swept.value.cm, DOCS, pos);
    return Success((cm, SortByDateHour(swept.value.tps)));
  }

  // ---------------------------------------------------------------------
  // What the stage keeps

  /** The data rows of the parsed lines whose slot the index knows, in
      file order. */
  function Hits(ps: seq<Result<Line, LineError>>, idx: Index): seq<Rec>
    decreases |ps|
  {
    if |ps| == 0 then []
    else
      var n := |ps| - 1;
      Hits(ps[..n], idx)
      + (if ps[n].Success? && ps[n].value.Data? && SlotOf(ps[n].value.rec) in idx then [ps[n].value.rec] else [])
  }

  /** A record is a hit exactly when some data row has it and its slot is
      in the index. */
  lemma {:induction false} HitsMeaning(ps: seq<Result<Line, LineError>>, idx: Index)
    ensures forall x :: x in Hits(ps, idx) <==>
      SlotOf(x) in idx && exists j | 0 <= j < |ps| :: ps[j] == Success(Data(x))
    decreases |ps|
  {
    if |ps| > 0 {
      var n := |ps| - 1;
      HitsMeaning(ps[..n], idx);
      forall x ensures x in Hits(ps, idx) <==> SlotOf(x) in idx && exists j | 0 <= j < |ps| :: ps[j] == Success(Data(x)) {
        if SlotOf(x) in idx && exists j | 0 <= j < |ps| :: ps[j] == Success(Data(x)) {
          var j :| 0 <= j < |ps| && ps[j] == Success(Data(x));
          if j < n {
            assert ps[..n][j] == ps[j];
          }
        }
        if x in Hits(ps[..n], idx) {
          var j :| 0 <= j < n && ps[..n][j] == Success(Data(x));
          assert ps[j] == Success(Data(x));
        }
      }
    }
  }

  /** The records the pass keeps are the hits, and the pass only reads the
      DOCS table: the other three stay empty. */
  lemma {:induction false} DocsFoldKeeps(ps: seq<Result<Line, LineError>>, idx: Index, cutoffs: seq<nat>)
    requires DocsFold(ps, idx, cutoffs).Success?
    ensures DocsFold(ps, idx, cutoffs).value.tps == Hits(ps, idx)
    ensures var cm := DocsFold(ps, idx, cutoffs).value.cm;
      cm.overlaps == map[] && cm.fills == map[] && cm.dateHours == map[]
    decreases |ps|
  {
    if |ps| > 0 {
      DocsFoldKeeps(ps[..|ps| - 1], idx, cutoffs);
    }
  }

  /** The first line that does not parse is the one the failure names. */
  lemma {:induction false} DocsFoldFailure(ps: seq<Result<Line, LineError>>, idx: Index, cutoffs: seq<nat>)
    ensures DocsFold(ps, idx, cutoffs).Failure? <==> exists j | 0 <= j < |ps| :: ps[j].Failure?
    ensures DocsFold(ps, idx, cutoffs).Failure? ==>
      var e := DocsFold(ps, idx, cutoffs).error;
      e.BadLine? && e.index < |ps| && ps[e.index] == Failure(e.why)
      && forall j | 0 <= j < e.index :: ps[j].Success?
    decreases |ps|
  {
    if |ps| > 0 {
      var n := |ps| - 1;
      DocsFoldFailure(ps[..n], idx, cutoffs);
      assert forall j | 0 <= j < n :: ps[..n][j] == ps[j];
    }
  }

  /** What the DOCS stage returns.  It fails for a cutoff step of 0 and
      at the first line that does not parse, and only then; on success the
      records are the hits, sorted by date_hour, stably, so hits with the
      same date_hour keep their file order; FN + TP is the target's DOCS
      positives in every cell; the other tables are empty. */
  lemma DocsMeaning(lines: seq<string>, idx: Index, pos: Positives, step: int)
    ensures DocsSpec(lines, idx, pos, step).Failure? <==>
      step == 0 || exists j | 0 <= j < |lines| :: ParseRunLine(lines[j]).Failure?
    ensures DocsSpec(lines, idx, pos, step).Success? ==>
      var cm := DocsSpec(lines, idx, pos, step).value.0;
      var out := DocsSpec(lines, idx, pos, step).value.1;
      var hits := Hits(ParsedRunLines(lines), idx);
      Sorted(out) && multiset(out) == multiset(hits)
      && (forall h :: WithDateHour(out, h) == WithDateHour(hits, h))
      && (forall x :: x in out <==> SlotOf(x) in idx && exists j | 0 <= j < |lines| :: ParseRunLine(lines[j]) == Success(Data(x)))
      && (forall t, c | t in cm.docs && c in cm.docs[t] :: cm.docs[t][c].fn + cm.docs[t][c].tp == PosOf(pos, DOCS, t))
      && cm.overlaps == map[] && cm.fills == map[] && cm.dateHours == map[]
  {
    var ps := ParsedRunLines(lines);
    var ladder := Ladder.Cutoffs(step);
    if ladder.Some? {
      var cutoffs := ladder.value;
      DocsFoldFailure(ps, idx, cutoffs);
      if DocsFold(ps, idx, cutoffs).Success? {
        var st := DocsFold(ps, idx, cutoffs).value;
        DocsFoldKeeps(ps, idx, cutoffs);
        HitsMeaning(ps, idx);
        SortMeaning(st.tps);
        CorrectedMeaning(st.cm.docs, pos, DOCS);
        var out := SortByDateHour(st.tps);
        forall x ensures x in out <==> x in st.tps {
          assert x in out <==> x in multiset(out);
        }
      }
    }
  }

  // ---------------------------------------------------------------------
  // The stable sort by date_hour

  /** Python's comparison of two strings: lexicographic by character. */
  predicate StrLe(a: string, b: string)
    decreases |a|
  {
    |a| == 0 || (|b| > 0 && (a[0] < b[0] || (a[0] == b[0] && StrLe(a[1..], b[1..]))))
  }

  lemma {:induction false} StrLeTotal(a: string, b: string)
    ensures StrLe(a, b) || StrLe(b, a)
    decreases |a|
  {
    if |a| > 0 && |b| > 0 && a[0] == b[0] {
      StrLeTotal(a[1..], b[1..]);
    }
  }

  lemma {:induction false} StrLeRefl(a: string)
    ensures StrLe(a, a)
    decreases |a|
  {
    if |a| > 0 {
      StrLeRefl(a[1..]);
    }
  }

  lemma {:induction false} StrLeTrans(a: string, b: string, c: string)
    requires StrLe(a, b) && StrLe(b, c)
    ensures StrLe(a, c)
    decreases |a|
  {
    if |a| > 0 && a[0] == b[0] && b[0] == c[0] {
      StrLeTrans(a[1..], b[1..], c[1..]);
    }
  }

  lemma {:induction false} StrLeAntisym(a: string, b: string)
    requires StrLe(a, b) && StrLe(b, a)
    ensures a == b
    decreases |a|
  {
    if |a| > 0 {
      StrLeAntisym(a[1..], b[1..]);
      assert a == [a[0]] + a[1..] && b == [b[0]] + b[1..];
    }
  }

  predicate Sorted(xs: seq<Rec>) {
    forall i, j | 0 <= i < j < |xs| :: StrLe(xs[i].dateHour, xs[j].dateHour)
  }

  /** `r` placed after every leading record whose date_hour is not above
      its own. */
  function Insert(r: Rec, ys: seq<Rec>): seq<Rec>
    decreases |ys|
  {
    if |ys| == 0 then [r]
    else if StrLe(ys[0].dateHour, r.dateHour) then [ys[0]] + Insert(r, ys[1..])
    else [r] + ys
  }

  /** `sort(key=itemgetter(5))`: Python's sort is stable; this is
      insertion of each record, in list order, after the equal ones. */
  function SortByDateHour(xs: seq<Rec>): seq<Rec>
    decreases |xs|
  {
    if |xs| == 0 then []
    else Insert(xs[|xs| - 1], SortByDateHour(xs[..|xs| - 1]))
  }

  /** The records with date_hour `h`, in order. */
  function WithDateHour(xs: seq<Rec>, h: string): seq<Rec>
    decreases |xs|
  {
    if |xs| == 0 then []
    else (if xs[0].dateHour == h then [xs[0]] else []) + WithDateHour(xs[1..], h)
  }

  lemma {:induction false} WithDateHourAppend(a: seq<Rec>, b: seq<Rec>, h: string)
    ensures WithDateHour(a + b, h) == WithDateHour(a, h) + WithDateHour(b, h)
    decreases |a|
  {
    if |a| > 0 {
      assert (a + b)[1..] == a[1..] + b;
      WithDateHourAppend(a[1..], b, h);
    } else {
      assert a + b == b;
    }
  }

  lemma {:induction false} WithDateHourNone(xs: seq<Rec>, h: string)
    requires forall i | 0 <= i < |xs| :: xs[i].dateHour != h
    ensures WithDateHour(xs, h) == []
    decreases |xs|
  {
    if |xs| > 0 {
      WithDateHourNone(xs[1..], h);
    }
  }

  lemma {:induction false} InsertPerm(r: Rec, ys: seq<Rec>)
    ensures multiset(Insert(r, ys)) == multiset(ys) + multiset{r}
    decreases |ys|
  {
    if |ys| > 0 {
      assert ys == [ys[0]] + ys[1..];
      if StrLe(ys[0].dateHour, r.dateHour) {
        InsertPerm(r, ys[1..]);
      }
    }
  }

  lemma SortedCons(y: Rec, tail: seq<Rec>)
    requires Sorted(tail) && forall j | 0 <= j < |tail| :: StrLe(y.dateHour, tail[j].dateHour)
    ensures Sorted([y] + tail)
  {
    var xs := [y] + tail;
    forall i, j | 0 <= i < j < |xs| ensures StrLe(xs[i].dateHour, xs[j].dateHour) {
      assert xs[j] == tail[j - 1];
      if i > 0 {
        assert xs[i] == tail[i - 1];
      }
    }
  }

  lemma {:induction false} InsertSorted(r: Rec, ys: seq<Rec>)
    requires Sorted(ys)
    ensures Sorted(Insert(r, ys))
    decreases |ys|
  {
    if |ys| > 0 {
      var y := ys[0];
      if StrLe(y.dateHour, r.dateHour) {
        var tail := Insert(r, ys[1..]);
        InsertSorted(r, ys[1..]);
        InsertPerm(r, ys[1..]);
        forall j | 0 <= j < |tail| ensures StrLe(y.dateHour, tail[j].dateHour) {
          assert tail[j] in multiset(tail);
          if tail[j] != r {
            assert tail[j] in multiset(ys[1..]);
            var k :| 0 <= k < |ys[1..]| && ys[1..][k] == tail[j];
            assert ys[k + 1] == tail[j];
          }
        }
        SortedCons(y, tail);
      } else {
        StrLeTotal(y.dateHour, r.dateHour);
        forall j | 0 <= j < |ys| ensures StrLe(r.dateHour, ys[j].dateHour) {
          if j > 0 {
            StrLeTrans(r.dateHour, y.dateHour, ys[j].dateHour);
          }
        }
      }
    }
  }

  lemma {:induction false} InsertStable(r: Rec, ys: seq<Rec>, h: string)
    requires Sorted(ys)
    ensures WithDateHour(Insert(r, ys), h) == WithDateHour(ys, h) + (if r.dateHour == h then [r] else [])
    decreases |ys|
  {
    if |ys| == 0 {
      assert WithDateHour([r], h) == (if r.dateHour == h then [r] else []) + WithDateHour([r][1..], h);
    } else {
      var y := ys[0];
      if StrLe(y.dateHour, r.dateHour) {
        InsertStable(r, ys[1..], h);
        assert ([y] + Insert(r, ys[1..]))[1..] == Insert(r, ys[1..]);
      } else {
        assert ([r] + ys)[1..] == ys;
        if r.dateHour == h {
          forall i | 0 <= i < |ys| ensures ys[i].dateHour != h {
            StrLeRefl(y.dateHour);
            assert StrLe(y.dateHour, ys[i].dateHour);
          }
          WithDateHourNone(ys, h);
        }
      }
    }
  }

  /** The sort's result is sorted, a permutation of its input, and
      stable: the records of each date_hour keep their relative order. */
  lemma SortMeaning(xs: seq<Rec>)
    ensures Sorted(SortByDateHour(xs))
    ensures multiset(SortByDateHour(xs)) == multiset(xs)
    ensures forall h :: WithDateHour(SortByDateHour(xs), h) == WithDateHour(xs, h)
  {
    SortSorted(xs);
    SortPerm(xs);
    forall h ensures WithDateHour(SortByDateHour(xs), h) == WithDateHour(xs, h) {
      SortStable(xs, h);
    }
  }

  lemma {:induction false} SortSorted(xs: seq<Rec>)
    ensures Sorted(SortByDateHour(xs))
    decreases |xs|
  {
    if |xs| > 0 {
      var n := |xs| - 1;
      SortSorted(xs[..n]);
      InsertSorted(xs[n], SortByDateHour(xs[..n]));
    }
  }

  lemma {:induction false} SortPerm(xs: seq<Rec>)
    ensures multiset(SortByDateHour(xs)) == multiset(xs)
    decreases |xs|
  {
    if |xs| > 0 {
      var n := |xs| - 1;
      SortPerm(xs[..n]);
      InsertPerm(xs[n], SortByDateHour(xs[..n]));
      assert xs == xs[..n] + [xs[n]];
    }
  }

  lemma {:induction false} SortStable(xs: seq<Rec>, h: string)
    ensures WithDateHour(SortByDateHour(xs), h) == WithDateHour(xs, h)
    decreases |xs|
  {
    if |xs| > 0 {
      var n := |xs| - 1;
      SortStable(xs[..n], h);
      SortSorted(xs[..n]);
      InsertStable(xs[n], SortByDateHour(xs[..n]), h);
      assert xs == xs[..n] + [xs[n]];
      WithDateHourAppend(xs[..n], [xs[n]], h);
      assert WithDateHour([xs[n]], h) == (if xs[n].dateHour == h then [xs[n]] else []) + WithDateHour([xs[n]][1..], h);
    }
  }}
