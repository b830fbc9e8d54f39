/** The TREC KBA 2013 cumulative citation recommendation (CCR) scorer:
    loading the assessor judgments into a (stream_id, target_id) -> bool
    index, and sweeping a run's rows over the cutoff ladder into a
    per-target, per-cutoff confusion matrix.  Files are replaced by their
    parsed contents: the judgment file by its tab-separated rows, the run
    file by its lines. */
module Ccr {

  import opened Wrappers
  import opened Sets
  import opened Text
  import opened Metrics
  import Ladder

  /** 2012-02-29 23:59:59 UTC: run rows at or before it are training rows. */
  const EndOfFeb2012: int := 1330559999

  /** 2011-12-31 23:59:59 UTC: the bound the positives count uses instead. */
  const EndOf2011: int := 1325375999

  /** (stream_id, target_id). */
  type Key = (string, string)

  /** target_id -> cutoff -> cell. */
  type Matrix = map<string, map<nat, Cell>>

  // ---------------------------------------------------------------------
  // Which targets' truth data is dropped

  /** The command-line choices the reject test reads.  `group` and
      `entityType` are "" when not given; `accepted` is the set of
      target ids the topics file lists for that group or entity type. */
  datatype RejectConfig = RejectConfig(
    rejectTwitter: bool, rejectWikipedia: bool,
    group: string, entityType: string, accepted: set<string>)

  predicate Restricted(cfg: RejectConfig) {
    cfg.group != "" || cfg.entityType != ""
  }

  /** Whether the truth data of `target` is excluded. */
  predicate Reject(cfg: RejectConfig, target: string) {
    (cfg.rejectTwitter && Contains(target, "twitter.com"))
    || (cfg.rejectWikipedia && Contains(target, "wikipedia.org"))
    || (Restricted(cfg) && target !in cfg.accepted)
  }

  /** Without any flag nothing is rejected; with a group or entity type
      every kept target is one of the accepted ones; a twitter target
      survives `--reject-twitter` never. */
  lemma RejectCases(cfg: RejectConfig, target: string)
    ensures !cfg.rejectTwitter && !cfg.rejectWikipedia && !Restricted(cfg) ==> !Reject(cfg, target)
    ensures Restricted(cfg) && !Reject(cfg, target) ==> target in cfg.accepted
    ensures cfg.rejectTwitter && Contains(target, "twitter.com") ==> Reject(cfg, target)
    ensures !Reject(cfg, target) <==>
      (!cfg.rejectTwitter || !Contains(target, "twitter.com"))
      && (!cfg.rejectWikipedia || !Contains(target, "wikipedia.org"))
      && (!Restricted(cfg) || target in cfg.accepted)
  {
  }

  // ---------------------------------------------------------------------
  // Loading the judgments

  datatype LoadError =
    | MalformedRow(index: nat)   // missing column, or a rating / length that int() refuses
    | NoTruePositives            // the filters left no key labelled True

  /** What one judgment row contributes. */
  datatype Judgment = Comment | Excluded | Judged(key: Key, rating: int)

  /** The lowest rating counted as positive: 0 (neutral) with
      include_neutral, else 1 (useful) with include_useful, else 2 (vital). */
  function Threshold(useful: bool, neutral: bool): (t: int)
    ensures 0 <= t <= 2
    ensures t == 0 <==> neutral
    ensures t == 1 <==> !neutral && useful
    ensures t == 2 <==> !neutral && !useful
  {
    if neutral then 0 else if useful then 1 else 2
  }

  /** A vital rating always counts; a useful one with either flag; a
      neutral one only with include_neutral; garbage (< 0) never. */
  lemma ThresholdAdmits(rating: int, useful: bool, neutral: bool)
    ensures rating >= Threshold(useful, neutral) <==>
      rating >= 2 || (rating == 1 && (useful || neutral)) || (rating == 0 && neutral)
  {
  }

  /** One tab-separated judgment row.  `None` where Python raises: an
      empty row or first cell (`row[0][0]`), fewer than six columns, or a
      rating / clean_visible length that `int` refuses. */
  function ClassifyRow(row: seq<string>, minLen: int, cfg: RejectConfig): Option<Judgment>
  {
    if |row| == 0 || |row[0]| == 0 then None
    else if row[0][0] == '#' then Some(Comment)
    else if |row| < 6 then None
    else match PyInt(row[5])
      case None => None
      case Some(rating) =>
        if |row| == 12 && PyInt(row[11]).None? then None
        else if |row| == 12 && PyInt(row[11]).value < minLen then Some(Excluded)
        else if Reject(cfg, row[3]) then Some(Excluded)
        else Some(Judged((row[2], row[3]), rating))
  }

  /** A row fails exactly where Python raises; a comment is exactly a row
      whose first cell starts with '#'; a judged row carries its own
      stream_id, target_id and rating, passed the clean_visible length
      test and is not rejected; an excluded row failed one of those two. */
  lemma ClassifyRowMeaning(row: seq<string>, minLen: int, cfg: RejectConfig)
    ensures ClassifyRow(row, minLen, cfg).None? <==>
      |row| == 0 || |row[0]| == 0
      || (row[0][0] != '#'
          && (|row| < 6 || PyInt(row[5]).None? || (|row| == 12 && PyInt(row[11]).None?)))
    ensures ClassifyRow(row, minLen, cfg) == Some(Comment) <==> |row| > 0 && |row[0]| > 0 && row[0][0] == '#'
    ensures ClassifyRow(row, minLen, cfg).Some? && ClassifyRow(row, minLen, cfg).value.Judged? ==>
      var j := ClassifyRow(row, minLen, cfg).value;
      |row| >= 6 && j.key == (row[2], row[3]) && PyInt(row[5]) == Some(j.rating)
      && !Reject(cfg, row[3]) && (|row| == 12 ==> PyInt(row[11]).value >= minLen)
    ensures ClassifyRow(row, minLen, cfg) == Some(Excluded) ==>
      (|row| == 12 && PyInt(row[11]).value < minLen) || Reject(cfg, row[3])
  {
  }

  /** Folding one judgment into the index: a first judgment stores
      `rating >= thresh`; a later one below the threshold clears it. */
  function Merge(ann: map<Key, bool>, k: Key, rating: int, thresh: int): map<Key, bool> {
    if k in ann then (if rating < thresh then ann[k := false] else ann)
    else ann[k := rating >= thresh]
  }

  /** The index after the classified rows, in file order; fails at the
      first malformed row. */
  function Fold(js: seq<Option<Judgment>>, thresh: int): Result<map<Key, bool>, LoadError>
    decreases |js|
  {
    if |js| == 0 then Success(map[])
    else
      var n := |js| - 1;
      match Fold(js[..n], thresh)
      case Failure(e) => Failure(e)
      case Success(ann) =>
        match js[n]
        case None => Failure(MalformedRow(n))
        case Some(Judged(k, rating)) => Success(Merge(ann, k, rating, thresh))
        case Some(_) => Success(ann)
  }

  function Classified(rows: seq<seq<string>>, minLen: int, cfg: RejectConfig): (js: seq<Option<Judgment>>)
    ensures |js| == |rows|
    ensures forall j | 0 <= j < |rows| :: js[j] == ClassifyRow(rows[j], minLen, cfg)
  {
    seq(|rows|, j requires 0 <= j < |rows| => ClassifyRow(rows[j], minLen, cfg))
  }

  function Annotate(rows: seq<seq<string>>, minLen: int, cfg: RejectConfig, thresh: int): Result<map<Key, bool>, LoadError> {
    Fold(Classified(rows, minLen, cfg), thresh)
  }

  function TrueKeys(ann: map<Key, bool>): set<Key> {
    set k | k in ann && ann[k]
  }

  /** load_annotation: the index, or the error that stops loading. */
  function LoadSpec(rows: seq<seq<string>>, useful: bool, neutral: bool, minLen: int, cfg: RejectConfig): Result<map<Key, bool>, LoadError> {
    match Annotate(rows, minLen, cfg, Threshold(useful, neutral))
    case Failure(e) => Failure(e)
    case Success(ann) => if |TrueKeys(ann)| == 0 then Failure(NoTruePositives) else Success(ann)
  }

  lemma {:induction false} FoldFailureSticks(js: seq<Option<Judgment>>, j: nat, thresh: int)
    requires j <= |js|
    requires Fold(js[..j], thresh).Failure?
    ensures Fold(js, thresh) == Fold(js[..j], thresh)
    decreases |js| - j
  {
    if j < |js| {
      assert js[..j + 1][..j] == js[..j];
      FoldFailureSticks(js, j + 1, thresh);
    } else {
      assert js[..j] == js;
    }
  }

  /** Counts the keys labelled True, one key at a time. */
  method CountTrue(ann: map<Key, bool>) returns (n: nat)
    ensures n == |TrueKeys(ann)|
  {
    n := 0;
    var todo := ann.Keys;
    while todo != {}
      invariant todo <= ann.Keys
      invariant n == |set k | k in ann.Keys - todo && ann[k]|
      decreases todo
    {
      var k := Choose(todo);
      var before := set x | x in ann.Keys - todo && ann[x];
      var after := set x | x in ann.Keys - (todo - {k}) && ann[x];
      if ann[k] {
        assert after == before + {k};
        n := n + 1;
      } else {
        assert after == before;
      }
      todo := todo - {k};
    }
    assert (set k | k in ann.Keys - {} && ann[k]) == TrueKeys(ann);
  }

  /** load_annotation over the parsed rows of the judgment file. */
  method LoadAnnotation(rows: seq<seq<string>>, useful: bool, neutral: bool, minLen: int, cfg: RejectConfig)
    returns (r: Result<map<Key, bool>, LoadError>)
    ensures r == LoadSpec(rows, useful, neutral, minLen, cfg)
  {
    var thresh := Threshold(useful, neutral);
    ghost var js := Classified(rows, minLen, cfg);
    var ann: map<Key, bool> := map[];
    var i := 0;
    while i < |rows|
      invariant 0 <= i <= |rows|
      invariant Fold(js[..i], thresh) == Success(ann)
    {
      assert js[..i + 1][..i] == js[..i];
      match ClassifyRow(rows[i], minLen, cfg) {
        case None =>
          FoldFailureSticks(js, i + 1, thresh);
          return Failure(MalformedRow(i));
        case Some(Judged(k, rating)) =>
          if k in ann {
            if rating < thresh {
              ann := ann[k := false];
            }
          } else {
            ann := ann[k := rating >= thresh];
          }
        case Some(_) =>
      }
      i := i + 1;
    }
    assert js[..|rows|] == js;
    var numTrue := CountTrue(ann);
    if numTrue == 0 {
      return Failure(NoTruePositives);
    }
    return Success(ann);
  }

  /** The judgment is a retained judgment of key `k`. */
  predicate IsOf(o: Option<Judgment>, k: Key) {
    o.Some? && o.value.Judged? && o.value.key == k
  }

  /** ... rated below the threshold. */
  predicate IsLowOf(o: Option<Judgment>, k: Key, thresh: int) {
    IsOf(o, k) && o.value.rating < thresh
  }

  lemma {:induction false} FoldFailure(js: seq<Option<Judgment>>, thresh: int)
    ensures Fold(js, thresh).Success? <==> forall j | 0 <= j < |js| :: js[j].Some?
    ensures Fold(js, thresh).Failure? ==>
      Fold(js, thresh).error.MalformedRow?
      && var j := Fold(js, thresh).error.index;
      0 <= j < |js| && js[j].None? && forall i | 0 <= i < j :: js[i].Some?
    decreases |js|
  {
    if |js| > 0 {
      var n := |js| - 1;
      FoldFailure(js[..n], thresh);
      assert forall j | 0 <= j < n :: js[..n][j] == js[j];
    }
  }

  lemma {:induction false} FoldKeys(js: seq<Option<Judgment>>, thresh: int)
    requires Fold(js, thresh).Success?
    ensures forall k :: k in Fold(js, thresh).value <==> exists j | 0 <= j < |js| :: IsOf(js[j], k)
    decreases |js|
  {
    if |js| > 0 {
      var n := |js| - 1;
      var pre := js[..n];
      FoldKeys(pre, thresh);
      var ann0 := Fold(pre, thresh).value;
      var ann := Fold(js, thresh).value;
      forall k ensures k in ann <==> exists j | 0 <= j < |js| :: IsOf(js[j], k) {
        if k in ann0 {
          var j :| 0 <= j < n && IsOf(pre[j], k);
          assert js[j] == pre[j];
        }
        if exists j | 0 <= j < |js| :: IsOf(js[j], k) {
          var j :| 0 <= j < |js| && IsOf(js[j], k);
          if j < n {
            assert IsOf(pre[j], k);
          }
        }
      }
    }
  }

  lemma {:induction false} FoldLabels(js: seq<Option<Judgment>>, thresh: int)
    requires Fold(js, thresh).Success?
    ensures forall k | k in Fold(js, thresh).value ::
      Fold(js, thresh).value[k] <==> !exists j | 0 <= j < |js| :: IsLowOf(js[j], k, thresh)
    decreases |js|
  {
    if |js| > 0 {
      var n := |js| - 1;
      var pre := js[..n];
      FoldLabels(pre, thresh);
      FoldKeys(pre, thresh);
      var ann0 := Fold(pre, thresh).value;
      var ann := Fold(js, thresh).value;
      forall k | k in ann
        ensures ann[k] <==> !exists j | 0 <= j < |js| :: IsLowOf(js[j], k, thresh)
      {
        var lowBefore := exists j | 0 <= j < n :: IsLowOf(pre[j], k, thresh);
        assert (exists j | 0 <= j < |js| :: IsLowOf(js[j], k, thresh))
          <==> lowBefore || IsLowOf(js[n], k, thresh) by {
          if exists j | 0 <= j < |js| :: IsLowOf(js[j], k, thresh) {
            var j :| 0 <= j < |js| && IsLowOf(js[j], k, thresh);
            if j < n {
              assert IsLowOf(pre[j], k, thresh);
            }
          }
          if lowBefore {
            var j :| 0 <= j < n && IsLowOf(pre[j], k, thresh);
            assert js[j] == pre[j];
          }
        }
        if k !in ann0 {
          assert !lowBefore by {
            forall j | 0 <= j < n ensures !IsLowOf(pre[j], k, thresh) {
              assert !IsOf(pre[j], k);
            }
          }
        }
      }
    }
  }

  /** The row is a retained judgment of key `k`. */
  predicate Judges(row: seq<string>, k: Key, minLen: int, cfg: RejectConfig) {
    IsOf(ClassifyRow(row, minLen, cfg), k)
  }

  /** The row is a retained judgment of `k` rated below the threshold. */
  predicate JudgesLow(row: seq<string>, k: Key, minLen: int, cfg: RejectConfig, thresh: int) {
    IsLowOf(ClassifyRow(row, minLen, cfg), k, thresh)
  }

  /** Loading fails exactly when some row is malformed, and then names the
      first such row.  Otherwise a key is in the index iff some retained
      row judges it, and it is labelled True iff none of the retained rows
      judging it rates it below the threshold: a low rating anywhere wins,
      and nothing turns False back into True. */
  lemma AnnotateMeaning(rows: seq<seq<string>>, minLen: int, cfg: RejectConfig, thresh: int)
    ensures Annotate(rows, minLen, cfg, thresh).Success? <==>
      forall j | 0 <= j < |rows| :: ClassifyRow(rows[j], minLen, cfg).Some?
    ensures Annotate(rows, minLen, cfg, thresh).Failure? ==>
      Annotate(rows, minLen, cfg, thresh).error.MalformedRow?
      && var j := Annotate(rows, minLen, cfg, thresh).error.index;
      0 <= j < |rows| && ClassifyRow(rows[j], minLen, cfg).None?
      && forall i | 0 <= i < j :: ClassifyRow(rows[i], minLen, cfg).Some?
    ensures Annotate(rows, minLen, cfg, thresh).Success? ==>
      var ann := Annotate(rows, minLen, cfg, thresh).value;
      (forall k :: k in ann <==> exists j | 0 <= j < |rows| :: Judges(rows[j], k, minLen, cfg))
      && (forall k | k in ann :: ann[k] <==> !exists j | 0 <= j < |rows| :: JudgesLow(rows[j], k, minLen, cfg, thresh))
  {
    var js := Classified(rows, minLen, cfg);
    FoldFailure(js, thresh);
    if Fold(js, thresh).Success? {
      FoldKeys(js, thresh);
      FoldLabels(js, thresh);
    }
  }

  lemma FoldSameElements(js: seq<Option<Judgment>>, js2: seq<Option<Judgment>>, thresh: int)
    requires forall o :: o in js <==> o in js2
    ensures Fold(js, thresh).Success? <==> Fold(js2, thresh).Success?
    ensures Fold(js, thresh).Success? ==> Fold(js, thresh).value == Fold(js2, thresh).value
  {
    FoldFailure(js, thresh);
    FoldFailure(js2, thresh);
    if Fold(js, thresh).Success? {
      assert Fold(js2, thresh).Success? by {
        forall j2 | 0 <= j2 < |js2| ensures js2[j2].Some? {
          assert js2[j2] in js;
        }
      }
      FoldKeys(js, thresh);
      FoldKeys(js2, thresh);
      FoldLabels(js, thresh);
      FoldLabels(js2, thresh);
      var a := Fold(js, thresh).value;
      var b := Fold(js2, thresh).value;
      forall k ensures k in a <==> k in b {
        if k in a {
          var j :| 0 <= j < |js| && IsOf(js[j], k);
          assert js[j] in js2;
        }
        if k in b {
          var j2 :| 0 <= j2 < |js2| && IsOf(js2[j2], k);
          assert js2[j2] in js;
        }
      }
      forall k | k in a ensures a[k] == b[k] {
        if exists j | 0 <= j < |js| :: IsLowOf(js[j], k, thresh) {
          var j :| 0 <= j < |js| && IsLowOf(js[j], k, thresh);
          assert js[j] in js2;
        }
        if exists j2 | 0 <= j2 < |js2| :: IsLowOf(js2[j2], k, thresh) {
          var j2 :| 0 <= j2 < |js2| && IsLowOf(js2[j2], k, thresh);
          assert js2[j2] in js;
        }
      }
    } else {
      var j := Fold(js, thresh).error.index;
      assert js[j] in js2;
    }
  }

  /** The index depends only on which rows occur, not on their order or
      repetition; so a permuted judgment file loads to the same index
      (which malformed row is reported first may differ). */
  lemma AnnotateOrderIndependent(rows: seq<seq<string>>, rows2: seq<seq<string>>, minLen: int, cfg: RejectConfig, thresh: int)
    requires forall row :: row in rows <==> row in rows2
    ensures Annotate(rows, minLen, cfg, thresh).Success? <==> Annotate(rows2, minLen, cfg, thresh).Success?
    ensures Annotate(rows, minLen, cfg, thresh).Success? ==>
      Annotate(rows, minLen, cfg, thresh).value == Annotate(rows2, minLen, cfg, thresh).value
  {
    var js := Classified(rows, minLen, cfg);
    var js2 := Classified(rows2, minLen, cfg);
    forall o ensures o in js <==> o in js2 {
      if o in js {
        var j :| 0 <= j < |js| && js[j] == o;
        assert rows[j] in rows2;
        var j2 :| 0 <= j2 < |rows2| && rows2[j2] == rows[j];
        assert js2[j2] == o;
      }
      if o in js2 {
        var j2 :| 0 <= j2 < |js2| && js2[j2] == o;
        assert rows2[j2] in rows;
        var j :| 0 <= j < |rows| && rows[j] == rows2[j2];
        assert js[j] == o;
      }
    }
    FoldSameElements(js, js2, thresh);
  }

  /** Rejected targets contribute nothing to the index. */
  lemma AnnotateNoRejected(rows: seq<seq<string>>, minLen: int, cfg: RejectConfig, thresh: int, k: Key)
    requires Annotate(rows, minLen, cfg, thresh).Success?
    requires k in Annotate(rows, minLen, cfg, thresh).value
    ensures !Reject(cfg, k.1)
  {
    AnnotateMeaning(rows, minLen, cfg, thresh);
    var j :| 0 <= j < |rows| && Judges(rows[j], k, minLen, cfg);
    ClassifyRowMeaning(rows[j], minLen, cfg);
  }

  // ---------------------------------------------------------------------
  // The confusion matrix of one run

  datatype ScoreError =
    | BadStep              // range() refuses a cutoff step of 0
    | BadRunLine(index: nat)  // fewer than five fields, or a time stamp / score that int() refuses
    | BadAnnotationKey     // a judged stream_id whose time stamp int() refuses

  /** The fields of a run row the scorer reads. */
  datatype RunRow = RunRow(stream: string, target: string, ts: int, score: int)

  datatype Line = Blank | Data(row: RunRow)

  /** The epoch seconds before the first '-' of a stream_id. */
  function StreamTime(stream: string): Option<int> {
    PyInt(SplitOn(stream, '-')[0])
  }

  /** One line of the run file: comments and blank lines are skipped;
      fields are separated by whitespace; field 2 is the stream_id, 3 the
      target_id, 4 the confidence score read as int(float(...)). */
  function ParseLine(line: string): Option<Line> {
    if StartsWith(line, "#") || |Strip(line)| == 0 then Some(Blank)
    else
      var row := SplitWhitespace(line);
      if |row| < 5 then None
      else
        match StreamTime(row[2])
        case None => None
        case Some(ts) =>
          match PyIntOfFloat(row[4])
          case None => None
          case Some(score) => Some(Data(RunRow(row[2], row[3], ts, score)))
  }

  function ParsedLines(lines: seq<string>): (ps: seq<Option<Line>>)
    ensures |ps| == |lines|
    ensures forall j | 0 <= j < |lines| :: ps[j] == ParseLine(lines[j])
  {
    seq(|lines|, j requires 0 <= j < |lines| => ParseLine(lines[j]))
  }

  /** How a scored row moves its target's cells. */
  datatype Effect = Positive | Negative | Ignored

  /** Annotated True: positive; annotated False, or unannotated when
      unannotated rows count as negatives: negative; else ignored. */
  function EffectOf(ann: map<Key, bool>, unannTN: bool, r: RunRow): (e: Effect)
    ensures e == Positive <==> (r.stream, r.target) in ann && ann[(r.stream, r.target)]
    ensures e == Ignored <==> (r.stream, r.target) !in ann && !unannTN
  {
    var k := (r.stream, r.target);
    if k in ann && ann[k] then Positive
    else if k in ann then Negative
    else if unannTN then Negative
    else Ignored
  }

  /** Training rows are skipped unless include_training. */
  predicate Scored(r: RunRow, incl: bool) {
    incl || r.ts > EndOfFeb2012
  }

  /** One cell updated by one row at one cutoff. */
  function Bump(cell: Cell, e: Effect, score: int, cutoff: nat): Cell {
    match e
    case Positive => if score > cutoff then cell.(tp := cell.tp + 1) else cell
    case Negative => if score > cutoff then cell.(fp := cell.fp + 1) else cell.(tn := cell.tn + 1)
    case Ignored => cell
  }

  function CutoffSet(cutoffs: seq<nat>): set<nat> {
    set c | c in cutoffs
  }

  function ZeroRow(cutoffs: seq<nat>): map<nat, Cell> {
    map c | c in cutoffs :: ZeroCell
  }

  function BumpRow(row: map<nat, Cell>, e: Effect, score: int): map<nat, Cell> {
    map c | c in row :: Bump(row[c], e, score, c)
  }

  /** One data row: its target gets a zeroed row of cells at first sight,
      even a training row does; a scored row then moves every cell. */
  function StepRow(cm: Matrix, cutoffs: seq<nat>, r: RunRow, ann: map<Key, bool>, unannTN: bool, incl: bool): Matrix {
    var cm1 := if r.target in cm then cm else cm[r.target := ZeroRow(cutoffs)];
    if !Scored(r, incl) then cm1
    else cm1[r.target := BumpRow(cm1[r.target], EffectOf(ann, unannTN, r), r.score)]
  }

  /** The matrix after the parsed lines, in file order; fails at the first
      line that does not parse. */
  function Sweep(ps: seq<Option<Line>>, cutoffs: seq<nat>, ann: map<Key, bool>, unannTN: bool, incl: bool): Result<Matrix, ScoreError>
    decreases |ps|
  {
    if |ps| == 0 then Success(map[])
    else
      var n := |ps| - 1;
      match Sweep(ps[..n], cutoffs, ann, unannTN, incl)
      case Failure(e) => Failure(e)
      case Success(cm) =>
        match ps[n]
        case None => Failure(BadRunLine(n))
        case Some(Blank) => Success(cm)
        case Some(Data(r)) => Success(StepRow(cm, cutoffs, r, ann, unannTN, incl))
  }

  /** The judged positive keys of `t` that the positives count keeps:
      without include_training, keys at or before the end of 2011 are
      dropped. */
  predicate KeptPositive(ann: map<Key, bool>, incl: bool, k: Key, t: string)
    requires k in ann
  {
    k.1 == t && ann[k] && (incl || (StreamTime(k.0).Some? && StreamTime(k.0).value > EndOf2011))
  }

  function PosCount(ann: map<Key, bool>, incl: bool, t: string): nat {
    |set k | k in ann && KeptPositive(ann, incl, k, t)|
  }

  /** FN back-filled as `p` - TP in every cell of one target's row. */
  function FilledRow(row: map<nat, Cell>, p: int): map<nat, Cell> {
    map c | c in row :: row[c].(fn := p - row[c].tp)
  }

  /** FN back-filled as positives - TP in every cell. */
  function FillFN(cm: Matrix, ann: map<Key, bool>, incl: bool): Matrix {
    map t | t in cm :: FilledRow(cm[t], PosCount(ann, incl, t))
  }

  /** score_confusion_matrix over the lines of a run file. */
  function ScoreSpec(lines: seq<string>, ann: map<Key, bool>, step: int, unannTN: bool, incl: bool): Result<Matrix, ScoreError> {
    match Ladder.Cutoffs(step)
    case None => Failure(BadStep)
    case Some(cutoffs) =>
      match Sweep(ParsedLines(lines), cutoffs, ann, unannTN, incl)
      case Failure(e) => Failure(e)
      case Success(cm) =>
        if exists k | k in ann :: StreamTime(k.0).None? then Failure(BadAnnotationKey)
        else Success(FillFN(cm, ann, incl))
  }

  /** Every target's row has a cell at exactly the ladder's cutoffs. */
  predicate Shaped(cm: Matrix, cutoffs: seq<nat>) {
    forall t | t in cm :: cm[t].Keys == CutoffSet(cutoffs)
  }

  lemma StepRowShaped(cm: Matrix, cutoffs: seq<nat>, r: RunRow, ann: map<Key, bool>, unannTN: bool, incl: bool)
    requires Shaped(cm, cutoffs)
    ensures Shaped(StepRow(cm, cutoffs, r, ann, unannTN, incl), cutoffs)
  {
  }

  /** A fresh row of zeroed cells, one per cutoff. */
  method ZeroCells(cutoffs: seq<nat>) returns (row: map<nat, Cell>)
    ensures row == ZeroRow(cutoffs)
  {
    row := map[];
    for j := 0 to |cutoffs|
      invariant row == map c | c in cutoffs[..j] :: ZeroCell
    {
      assert cutoffs[..j + 1] == cutoffs[..j] + [cutoffs[j]];
      row := row[cutoffs[j] := ZeroCell];
    }
    assert cutoffs[..|cutoffs|] == cutoffs;
  }

  /** One row's effect at every cutoff of the ladder. */
  method BumpCells(row: map<nat, Cell>, cutoffs: seq<nat>, e: Effect, score: int) returns (row2: map<nat, Cell>)
    requires row.Keys == CutoffSet(cutoffs) && Ladder.Distinct(cutoffs)
    ensures row2 == BumpRow(row, e, score)
  {
    row2 := row;
    for j := 0 to |cutoffs|
      invariant row2.Keys == row.Keys
      invariant forall c | c in row :: row2[c] == if c in cutoffs[..j] then Bump(row[c], e, score, c) else row[c]
    {
      var c := cutoffs[j];
      assert c !in cutoffs[..j];
      assert cutoffs[..j + 1] == cutoffs[..j] + [c];
      row2 := row2[c := Bump(row2[c], e, score, c)];
    }
    assert cutoffs[..|cutoffs|] == cutoffs;
  }

  /** The body of the loop over run rows, for one data row. */
  method ApplyRow(cm: Matrix, cutoffs: seq<nat>, r: RunRow, ann: map<Key, bool>, unannTN: bool, incl: bool)
    returns (cm2: Matrix)
    requires Shaped(cm, cutoffs) && Ladder.Distinct(cutoffs)
    ensures cm2 == StepRow(cm, cutoffs, r, ann, unannTN, incl)
  {
    cm2 := cm;
    if r.target !in cm2 {
      var zero := ZeroCells(cutoffs);
      cm2 := cm2[r.target := zero];
    }
    if !incl && r.ts <= EndOfFeb2012 {
      return;
    }
    var k := (r.stream, r.target);
    var e := if k in ann && ann[k] then Positive
      else if k in ann then Negative
      else if unannTN then Negative
      else Ignored;
    var row := BumpCells(cm2[r.target], cutoffs, e, r.score);
    cm2 := cm2[r.target := row];
  }

  function Lookup(pos: map<string, nat>, t: string): nat {
    if t in pos then pos[t] else 0
  }

  function PosIn(ann: map<Key, bool>, incl: bool, done: set<Key>, t: string): nat {
    |set k | k in done && k in ann && KeptPositive(ann, incl, k, t)|
  }

  lemma PosInAdd(ann: map<Key, bool>, incl: bool, done: set<Key>, k: Key, t: string)
    requires k in ann && k !in done
    ensures PosIn(ann, incl, done + {k}, t) == PosIn(ann, incl, done, t) + (if KeptPositive(ann, incl, k, t) then 1 else 0)
  {
    var a := set x | x in done && x in ann && KeptPositive(ann, incl, x, t);
    var b := set x | x in done + {k} && x in ann && KeptPositive(ann, incl, x, t);
    if KeptPositive(ann, incl, k, t) {
      assert b == a + {k};
    } else {
      assert b == a;
    }
  }

  ghost predicate PosInvariant(pos: map<string, nat>, ann: map<Key, bool>, incl: bool, done: set<Key>) {
    forall t :: Lookup(pos, t) == PosIn(ann, incl, done, t)
  }

  lemma PosStep(pos: map<string, nat>, ann: map<Key, bool>, incl: bool, done: set<Key>, k: Key, pos2: map<string, nat>)
    requires k in ann && k !in done && StreamTime(k.0).Some?
    requires PosInvariant(pos, ann, incl, done)
    requires pos2 == if KeptPositive(ann, incl, k, k.1) then pos[k.1 := Lookup(pos, k.1) + 1] else pos
    ensures PosInvariant(pos2, ann, incl, done + {k})
  {
    forall t ensures Lookup(pos2, t) == PosIn(ann, incl, done + {k}, t) {
      PosInAdd(ann, incl, done, k, t);
    }
  }

  /** annotation_positives: the kept positive keys counted per target;
      fails if any judged stream_id has no integer time stamp, which is
      read whether or not training data is included. */
  method Positives(ann: map<Key, bool>, incl: bool) returns (r: Result<map<string, nat>, ScoreError>)
    ensures r.Failure? <==> exists k | k in ann :: StreamTime(k.0).None?
    ensures r.Failure? ==> r.error == BadAnnotationKey
    ensures r.Success? ==> forall t :: Lookup(r.value, t) == PosCount(ann, incl, t)
  {
    var pos: map<string, nat> := map[];
    var todo := ann.Keys;
    while todo != {}
      invariant todo <= ann.Keys
      invariant forall k | k in ann.Keys - todo :: StreamTime(k.0).Some?
      invariant PosInvariant(pos, ann, incl, ann.Keys - todo)
      decreases todo
    {
      var k := Choose(todo);
      var ts := StreamTime(k.0);
      if ts.None? {
        return Failure(BadAnnotationKey);
      }
      ghost var pos0 := pos;
      if incl || ts.value > EndOf2011 {
        if ann[k] {
          pos := pos[k.1 := Lookup(pos, k.1) + 1];
        }
      }
      PosStep(pos0, ann, incl, ann.Keys - todo, k, pos);
      assert ann.Keys - (todo - {k}) == (ann.Keys - todo) + {k};
      todo := todo - {k};
    }
    assert ann.Keys - todo == ann.Keys;
    PosInAll(ann, incl);
    return Success(pos);
  }

  /** Counting over every annotated key is the positive count. */
  lemma PosInAll(ann: map<Key, bool>, incl: bool)
    ensures forall t :: PosIn(ann, incl, ann.Keys, t) == PosCount(ann, incl, t)
  {
    forall t ensures PosIn(ann, incl, ann.Keys, t) == PosCount(ann, incl, t) {
      assert (set k | k in ann.Keys && k in ann && KeptPositive(ann, incl, k, t))
        == (set k | k in ann && KeptPositive(ann, incl, k, t));
    }
  }

  /** FN := p - TP in every cell of one row. */
  method FillCells(row: map<nat, Cell>, p: int) returns (row2: map<nat, Cell>)
    ensures row2 == FilledRow(row, p)
  {
    row2 := row;
    var todo := row.Keys;
    while todo != {}
      invariant todo <= row.Keys && row2.Keys == row.Keys
      invariant forall c | c in row :: row2[c] == if c in todo then row[c] else row[c].(fn := p - row[c].tp)
      decreases todo
    {
      var c := Choose(todo);
      row2 := row2[c := row2[c].(fn := p - row2[c].tp)];
      todo := todo - {c};
    }
  }

  /** The FN back-fill over every target of the matrix. */
  method FillMatrix(cm: Matrix, pos: map<string, nat>) returns (cm2: Matrix)
    ensures cm2 == map t | t in cm :: FilledRow(cm[t], Lookup(pos, t))
  {
    cm2 := cm;
    var todo := cm.Keys;
    while todo != {}
      invariant todo <= cm.Keys && cm2.Keys == cm.Keys
      invariant forall t | t in cm :: cm2[t] == if t in todo then cm[t] else FilledRow(cm[t], Lookup(pos, t))
      decreases todo
    {
      var t := Choose(todo);
      var row := FillCells(cm2[t], Lookup(pos, t));
      cm2 := cm2[t := row];
      todo := todo - {t};
    }
  }

  lemma {:induction false} SweepFailureSticks(ps: seq<Option<Line>>, j: nat, cutoffs: seq<nat>, ann: map<Key, bool>, unannTN: bool, incl: bool)
    requires j <= |ps|
    requires Sweep(ps[..j], cutoffs, ann, unannTN, incl).Failure?
    ensures Sweep(ps, cutoffs, ann, unannTN, incl) == Sweep(ps[..j], cutoffs, ann, unannTN, incl)
    decreases |ps| - j
  {
    if j < |ps| {
      assert ps[..j + 1][..j] == ps[..j];
      SweepFailureSticks(ps, j + 1, cutoffs, ann, unannTN, incl);
    } else {
      assert ps[..j] == ps;
    }
  }

  /** One more parsed line of the sweep. */
  lemma SweepStep(ps: seq<Option<Line>>, i: nat, cutoffs: seq<nat>, ann: map<Key, bool>, unannTN: bool, incl: bool, cm: Matrix)
    requires i < |ps| && Sweep(ps[..i], cutoffs, ann, unannTN, incl) == Success(cm)
    ensures ps[i].None? ==> Sweep(ps[..i + 1], cutoffs, ann, unannTN, incl) == Failure(BadRunLine(i))
    ensures ps[i] == Some(Blank) ==> Sweep(ps[..i + 1], cutoffs, ann, unannTN, incl) == Success(cm)
    ensures (ps[i].Some? && ps[i].value.Data? ==>
      Sweep(ps[..i + 1], cutoffs, ann, unannTN, incl) == Success(StepRow(cm, cutoffs, ps[i].value.row, ann, unannTN, incl)))
  {
    assert ps[..i + 1][..i] == ps[..i];
  }

  /** The loop over the run file's lines. */
  method SweepLines(lines: seq<string>, cutoffs: seq<nat>, ann: map<Key, bool>, unannTN: bool, incl: bool)
    returns (r: Result<Matrix, ScoreError>)
    requires Ladder.Distinct(cutoffs)
    ensures r == Sweep(ParsedLines(lines), cutoffs, ann, unannTN, incl)
  {
    var ps := ParsedLines(lines);
    r := SweepParsed(ps, cutoffs, ann, unannTN, incl);
  }

  /** The loop over the parsed lines. */
  method SweepParsed(ps: seq<Option<Line>>, cutoffs: seq<nat>, ann: map<Key, bool>, unannTN: bool, incl: bool)
    returns (r: Result<Matrix, ScoreError>)
    requires Ladder.Distinct(cutoffs)
    ensures r == Sweep(ps, cutoffs, ann, unannTN, incl)
  {
    var cm: Matrix := map[];
    var i := 0;
    while i < |ps|
      invariant 0 <= i <= |ps|
      invariant Sweep(ps[..i], cutoffs, ann, unannTN, incl) == Success(cm)
      invariant Shaped(cm, cutoffs)
    {
      SweepStep(ps, i, cutoffs, ann, unannTN, incl, cm);
      match ps[i] {
        case None =>
          SweepFailureSticks(ps, i + 1, cutoffs, ann, unannTN, incl);
          return Failure(BadRunLine(i));
        case Some(Blank) =>
        case Some(Data(row)) =>
          StepRowShaped(cm, cutoffs, row, ann, unannTN, incl);
          cm := ApplyRow(cm, cutoffs, row, ann, unannTN, incl);
      }
      i := i + 1;
    }
    assert ps[..|ps|] == ps;
    return Success(cm);
  }

  /** score_confusion_matrix over the lines of a run file: the cutoff
      ladder, one pass over the rows, the positives per target and the FN
      back-fill. */
  method ScoreConfusionMatrix(lines: seq<string>, ann: map<Key, bool>, step: int, unannTN: bool, incl: bool)
    returns (r: Result<Matrix, ScoreError>)
    ensures r == ScoreSpec(lines, ann, step, unannTN, incl)
  {
    var ladder := Ladder.Cutoffs(step);
    if ladder.None? {
      return Failure(BadStep);
    }
    var cutoffs := ladder.value;
    if step > 0 {
      Ladder.LadderShape(step);
    }
    assert Ladder.Distinct(cutoffs);
    var swept := SweepLines(lines, cutoffs, ann, unannTN, incl);
    if swept.Failure? {
      return Failure(swept.error);
    }
    var pos := Positives(ann, incl);
    if pos.Failure? {
      return Failure(BadAnnotationKey);
    }
    var filled := FillMatrix(swept.value, pos.value);
    FilledIsFillFN(swept.value, pos.value, ann, incl);
    return Success(filled);
  }

  /** Back-filling from the counted positives is FillFN. */
  lemma FilledIsFillFN(cm: Matrix, pos: map<string, nat>, ann: map<Key, bool>, incl: bool)
    requires forall t :: Lookup(pos, t) == PosCount(ann, incl, t)
    ensures (map t | t in cm :: FilledRow(cm[t], Lookup(pos, t))) == FillFN(cm, ann, incl)
  {
  }

  // ---------------------------------------------------------------------
  // What the matrix holds

  /** The parsed line is a data row (scored or not) of target `t`. */
  predicate DataOf(o: Option<Line>, t: string) {
    o.Some? && o.value.Data? && o.value.row.target == t
  }

  /** Which cell component a scored row of `t` adds one to at cutoff `c`;
      `Negs` is "a negative row", whatever the cutoff. */
  datatype Tally = TPs | FPs | TNs | Negs

  predicate Hits(o: Option<Line>, t: string, c: nat, ann: map<Key, bool>, unannTN: bool, incl: bool, kind: Tally) {
    DataOf(o, t) && Scored(o.value.row, incl)
    && var e := EffectOf(ann, unannTN, o.value.row);
    var above := o.value.row.score > c;
    match kind
    case TPs => e == Positive && above
    case FPs => e == Negative && above
    case TNs => e == Negative && !above
    case Negs => e == Negative
  }

  /** Reference count: the lines that add one to `kind` at cutoff `c` for `t`. */
  function Count(ps: seq<Option<Line>>, t: string, c: nat, ann: map<Key, bool>, unannTN: bool, incl: bool, kind: Tally): nat
    decreases |ps|
  {
    if |ps| == 0 then 0
    else
      var n := |ps| - 1;
      Count(ps[..n], t, c, ann, unannTN, incl, kind) + (if Hits(ps[n], t, c, ann, unannTN, incl, kind) then 1 else 0)
  }

  lemma {:induction false} CountNoData(ps: seq<Option<Line>>, t: string, c: nat, ann: map<Key, bool>, unannTN: bool, incl: bool, kind: Tally)
    requires forall j | 0 <= j < |ps| :: !DataOf(ps[j], t)
    ensures Count(ps, t, c, ann, unannTN, incl, kind) == 0
    decreases |ps|
  {
    if |ps| > 0 {
      var n := |ps| - 1;
      assert forall j | 0 <= j < n :: ps[..n][j] == ps[j];
      CountNoData(ps[..n], t, c, ann, unannTN, incl, kind);
    }
  }

  /** The reference cell of `t` at `c`; FN is not yet filled. */
  function Expected(ps: seq<Option<Line>>, t: string, c: nat, ann: map<Key, bool>, unannTN: bool, incl: bool): Cell {
    Cell(Count(ps, t, c, ann, unannTN, incl, TPs), Count(ps, t, c, ann, unannTN, incl, FPs),
         0, Count(ps, t, c, ann, unannTN, incl, TNs))
  }

  lemma {:induction false} SweepKeys(ps: seq<Option<Line>>, cutoffs: seq<nat>, ann: map<Key, bool>, unannTN: bool, incl: bool)
    requires Sweep(ps, cutoffs, ann, unannTN, incl).Success?
    ensures forall t :: t in Sweep(ps, cutoffs, ann, unannTN, incl).value <==> exists j | 0 <= j < |ps| :: DataOf(ps[j], t)
    decreases |ps|
  {
    if |ps| > 0 {
      var n := |ps| - 1;
      var pre := ps[..n];
      SweepKeys(pre, cutoffs, ann, unannTN, incl);
      var cm0 := Sweep(pre, cutoffs, ann, unannTN, incl).value;
      var cm := Sweep(ps, cutoffs, ann, unannTN, incl).value;
      forall t ensures t in cm <==> exists j | 0 <= j < |ps| :: DataOf(ps[j], t) {
        if t in cm0 {
          var j :| 0 <= j < n && DataOf(pre[j], t);
          assert ps[j] == pre[j];
        }
        if exists j | 0 <= j < |ps| :: DataOf(ps[j], t) {
          var j :| 0 <= j < |ps| && DataOf(ps[j], t);
          if j < n {
            assert DataOf(pre[j], t);
          }
        }
      }
    }
  }

  lemma {:induction false} SweepShaped(ps: seq<Option<Line>>, cutoffs: seq<nat>, ann: map<Key, bool>, unannTN: bool, incl: bool)
    requires Sweep(ps, cutoffs, ann, unannTN, incl).Success?
    ensures Shaped(Sweep(ps, cutoffs, ann, unannTN, incl).value, cutoffs)
    decreases |ps|
  {
    if |ps| > 0 {
      var n := |ps| - 1;
      SweepShaped(ps[..n], cutoffs, ann, unannTN, incl);
      var cm0 := Sweep(ps[..n], cutoffs, ann, unannTN, incl).value;
      if ps[n].Some? && ps[n].value.Data? {
        StepRowShaped(cm0, cutoffs, ps[n].value.row, ann, unannTN, incl);
      }
    }
  }

  /** One line moves the cell of `t` at `c` exactly as the reference
      counts grow. */
  lemma CellStep(cell: Cell, o: Option<Line>, t: string, c: nat, ann: map<Key, bool>, unannTN: bool, incl: bool)
    requires o.Some? && o.value.Data? && o.value.row.target == t && Scored(o.value.row, incl)
    ensures Bump(cell, EffectOf(ann, unannTN, o.value.row), o.value.row.score, c)
      == Cell(cell.tp + (if Hits(o, t, c, ann, unannTN, incl, TPs) then 1 else 0),
              cell.fp + (if Hits(o, t, c, ann, unannTN, incl, FPs) then 1 else 0),
              cell.fn,
              cell.tn + (if Hits(o, t, c, ann, unannTN, incl, TNs) then 1 else 0))
  {
  }

  /** The reference cell after one more line: each count grows by
      whether that line hits it. */
  lemma ExpectedSnoc(pre: seq<Option<Line>>, o: Option<Line>, t: string, c: nat, ann: map<Key, bool>, unannTN: bool, incl: bool)
    ensures Expected(pre + [o], t, c, ann, unannTN, incl)
      == Cell(Count(pre, t, c, ann, unannTN, incl, TPs) + (if Hits(o, t, c, ann, unannTN, incl, TPs) then 1 else 0),
              Count(pre, t, c, ann, unannTN, incl, FPs) + (if Hits(o, t, c, ann, unannTN, incl, FPs) then 1 else 0),
              0,
              Count(pre, t, c, ann, unannTN, incl, TNs) + (if Hits(o, t, c, ann, unannTN, incl, TNs) then 1 else 0))
  {
    assert (pre + [o])[..|pre|] == pre;
  }

  /** A cell before a row of its target: the stored one, or the zero cell
      a first sight creates. */
  function CellBefore(cm0: Matrix, t: string, c: nat): Cell {
    if t in cm0 && c in cm0[t] then cm0[t][c] else ZeroCell
  }

  /** A data row moves each cell of its target by one Bump when scored. */
  lemma StepRowCell(cm0: Matrix, cutoffs: seq<nat>, r: RunRow, ann: map<Key, bool>, unannTN: bool, incl: bool, c: nat)
    requires c in StepRow(cm0, cutoffs, r, ann, unannTN, incl)[r.target]
    ensures r.target in cm0 ==> c in cm0[r.target]
    ensures StepRow(cm0, cutoffs, r, ann, unannTN, incl)[r.target][c]
      == if Scored(r, incl) then Bump(CellBefore(cm0, r.target, c), EffectOf(ann, unannTN, r), r.score, c)
         else CellBefore(cm0, r.target, c)
  {
  }

  lemma CellAfterLine(pre: seq<Option<Line>>, o: Option<Line>, cm0: Matrix, cm: Matrix, cutoffs: seq<nat>,
                      ann: map<Key, bool>, unannTN: bool, incl: bool, t: string, c: nat)
    requires o.Some?
    requires cm == if o.value.Blank? then cm0 else StepRow(cm0, cutoffs, o.value.row, ann, unannTN, incl)
    requires forall t, c | t in cm0 && c in cm0[t] :: cm0[t][c] == Expected(pre, t, c, ann, unannTN, incl)
    requires forall t :: t in cm0 <==> exists j | 0 <= j < |pre| :: DataOf(pre[j], t)
    requires t in cm && c in cm[t]
    ensures cm[t][c] == Expected(pre + [o], t, c, ann, unannTN, incl)
  {
    ExpectedSnoc(pre, o, t, c, ann, unannTN, incl);
    if DataOf(o, t) {
      CellAfterData(pre, o, cm0, cm, cutoffs, ann, unannTN, incl, t, c);
    } else {
      assert cm[t][c] == cm0[t][c];
    }
  }

  /** A data row of `t` moves its cell as the reference counts grow; a
      first sight of `t` starts from the zero cell. */
  lemma CellAfterData(pre: seq<Option<Line>>, o: Option<Line>, cm0: Matrix, cm: Matrix, cutoffs: seq<nat>,
                      ann: map<Key, bool>, unannTN: bool, incl: bool, t: string, c: nat)
    requires DataOf(o, t)
    requires cm == StepRow(cm0, cutoffs, o.value.row, ann, unannTN, incl)
    requires forall t, c | t in cm0 && c in cm0[t] :: cm0[t][c] == Expected(pre, t, c, ann, unannTN, incl)
    requires forall t :: t in cm0 <==> exists j | 0 <= j < |pre| :: DataOf(pre[j], t)
    requires t in cm && c in cm[t]
    ensures cm[t][c] == Cell(Count(pre, t, c, ann, unannTN, incl, TPs) + (if Hits(o, t, c, ann, unannTN, incl, TPs) then 1 else 0),
                             Count(pre, t, c, ann, unannTN, incl, FPs) + (if Hits(o, t, c, ann, unannTN, incl, FPs) then 1 else 0),
                             0,
                             Count(pre, t, c, ann, unannTN, incl, TNs) + (if Hits(o, t, c, ann, unannTN, incl, TNs) then 1 else 0))
  {
    var r := o.value.row;
    StepRowCell(cm0, cutoffs, r, ann, unannTN, incl, c);
    var cell0 := CellBefore(cm0, t, c);
    if t !in cm0 {
      CountNoData(pre, t, c, ann, unannTN, incl, TPs);
      CountNoData(pre, t, c, ann, unannTN, incl, FPs);
      CountNoData(pre, t, c, ann, unannTN, incl, TNs);
    }
    assert cell0 == Expected(pre, t, c, ann, unannTN, incl);
    if Scored(r, incl) {
      CellStep(cell0, o, t, c, ann, unannTN, incl);
    }
  }

  lemma {:induction false} SweepCells(ps: seq<Option<Line>>, cutoffs: seq<nat>, ann: map<Key, bool>, unannTN: bool, incl: bool)
    requires Sweep(ps, cutoffs, ann, unannTN, incl).Success?
    ensures var cm := Sweep(ps, cutoffs, ann, unannTN, incl).value;
      forall t, c | t in cm && c in cm[t] :: cm[t][c] == Expected(ps, t, c, ann, unannTN, incl)
    decreases |ps|
  {
    if |ps| > 0 {
      var n := |ps| - 1;
      var pre := ps[..n];
      SweepCells(pre, cutoffs, ann, unannTN, incl);
      SweepKeys(pre, cutoffs, ann, unannTN, incl);
      var cm0 := Sweep(pre, cutoffs, ann, unannTN, incl).value;
      var cm := Sweep(ps, cutoffs, ann, unannTN, incl).value;
      assert ps == pre + [ps[n]];
      forall t, c | t in cm && c in cm[t] ensures cm[t][c] == Expected(ps, t, c, ann, unannTN, incl) {
        CellAfterLine(pre, ps[n], cm0, cm, cutoffs, ann, unannTN, incl, t, c);
      }
    }
  }

  /** After the sweep, the targets are exactly those of the data rows,
      training rows included; each has a cell at every cutoff and nowhere
      else; and each cell holds the reference counts of its target and
      cutoff. */
  lemma SweepMeaning(ps: seq<Option<Line>>, cutoffs: seq<nat>, ann: map<Key, bool>, unannTN: bool, incl: bool)
    requires Sweep(ps, cutoffs, ann, unannTN, incl).Success?
    ensures var cm := Sweep(ps, cutoffs, ann, unannTN, incl).value;
      (forall t :: t in cm <==> exists j | 0 <= j < |ps| :: DataOf(ps[j], t))
      && Shaped(cm, cutoffs)
      && forall t, c | t in cm && c in cm[t] :: cm[t][c] == Expected(ps, t, c, ann, unannTN, incl)
  {
    SweepKeys(ps, cutoffs, ann, unannTN, incl);
    SweepShaped(ps, cutoffs, ann, unannTN, incl);
    SweepCells(ps, cutoffs, ann, unannTN, incl);
  }

  /** TP never grows with the cutoff. */
  lemma {:induction false} TPNonIncreasing(ps: seq<Option<Line>>, t: string, c1: nat, c2: nat, ann: map<Key, bool>, unannTN: bool, incl: bool)
    requires c1 <= c2
    ensures Count(ps, t, c2, ann, unannTN, incl, TPs) <= Count(ps, t, c1, ann, unannTN, incl, TPs)
    decreases |ps|
  {
    if |ps| > 0 {
      TPNonIncreasing(ps[..|ps| - 1], t, c1, c2, ann, unannTN, incl);
    }
  }

  /** FP + TN counts the negative rows, at any cutoff. */
  lemma {:induction false} NegativesSplit(ps: seq<Option<Line>>, t: string, c: nat, c2: nat, ann: map<Key, bool>, unannTN: bool, incl: bool)
    ensures Count(ps, t, c, ann, unannTN, incl, FPs) + Count(ps, t, c, ann, unannTN, incl, TNs)
      == Count(ps, t, c2, ann, unannTN, incl, Negs)
    decreases |ps|
  {
    if |ps| > 0 {
      NegativesSplit(ps[..|ps| - 1], t, c, c2, ann, unannTN, incl);
    }
  }

  /** The confusion matrix of a run, as promised: it fails only for a
      zero cutoff step, a malformed run line or an unreadable judged
      stream_id; otherwise its targets are those of the data rows, each
      with one cell per cutoff of the ladder holding the reference counts,
      FN + TP equals the target's kept positives at every cutoff, TP is
      non-increasing in the cutoff and FP + TN is the same at all cutoffs. */
  lemma ScoreMeaning(lines: seq<string>, ann: map<Key, bool>, step: int, unannTN: bool, incl: bool)
    ensures ScoreSpec(lines, ann, step, unannTN, incl).Failure? <==>
      step == 0
      || Sweep(ParsedLines(lines), Ladder.Cutoffs(step).value, ann, unannTN, incl).Failure?
      || exists k | k in ann :: StreamTime(k.0).None?
    ensures ScoreSpec(lines, ann, step, unannTN, incl).Success? ==>
      var cm: Matrix := ScoreSpec(lines, ann, step, unannTN, incl).value;
      var ps := ParsedLines(lines);
      (forall t :: t in cm <==> exists j | 0 <= j < |lines| :: DataOf(ps[j], t))
      && (forall t | t in cm :: forall c: nat :: c in cm[t] <==> c in Ladder.Cutoffs(step).value)
      && (forall t: string, c: nat | t in cm && c in cm[t] ::
            cm[t][c].tp == Count(ps, t, c, ann, unannTN, incl, TPs)
            && cm[t][c].fp == Count(ps, t, c, ann, unannTN, incl, FPs)
            && cm[t][c].tn == Count(ps, t, c, ann, unannTN, incl, TNs)
            && cm[t][c].fn + cm[t][c].tp == PosCount(ann, incl, t))
      && (forall t: string, c1: nat, c2: nat | t in cm && c1 in cm[t] && c2 in cm[t] && c1 <= c2 :: cm[t][c2].tp <= cm[t][c1].tp)
      && (forall t: string, c1: nat, c2: nat | t in cm && c1 in cm[t] && c2 in cm[t] ::
            cm[t][c1].fp + cm[t][c1].tn == cm[t][c2].fp + cm[t][c2].tn)
  {
    if ScoreSpec(lines, ann, step, unannTN, incl).Success? {
      var cm: Matrix := ScoreSpec(lines, ann, step, unannTN, incl).value;
      ScoreCells(lines, ann, step, unannTN, incl, cm);
      ScoreTPOrder(lines, ann, step, unannTN, incl, cm);
      ScoreNegatives(lines, ann, step, unannTN, incl, cm);
    }
  }

  lemma ScoreCells(lines: seq<string>, ann: map<Key, bool>, step: int, unannTN: bool, incl: bool, cm: Matrix)
    requires ScoreSpec(lines, ann, step, unannTN, incl) == Success(cm)
    ensures var ps := ParsedLines(lines);
      (forall t :: t in cm <==> exists j | 0 <= j < |lines| :: DataOf(ps[j], t))
      && (forall t | t in cm :: forall c: nat :: c in cm[t] <==> c in Ladder.Cutoffs(step).value)
      && (forall t: string, c: nat | t in cm && c in cm[t] ::
            cm[t][c].tp == Count(ps, t, c, ann, unannTN, incl, TPs)
            && cm[t][c].fp == Count(ps, t, c, ann, unannTN, incl, FPs)
            && cm[t][c].tn == Count(ps, t, c, ann, unannTN, incl, TNs)
            && cm[t][c].fn + cm[t][c].tp == PosCount(ann, incl, t))
  {
    ScoreSpecIs(lines, ann, step, unannTN, incl, cm);
    var ps := ParsedLines(lines);
    var cutoffs := Ladder.Cutoffs(step).value;
    var sw := Sweep(ps, cutoffs, ann, unannTN, incl).value;
    SweepMeaning(ps, cutoffs, ann, unannTN, incl);
    FillFNMeaning(sw, ann, incl);
    assert forall t | t in sw :: forall c: nat :: c in sw[t] <==> c in cutoffs;
  }

  /** A successful score is the sweep with FN back-filled. */
  lemma ScoreSpecIs(lines: seq<string>, ann: map<Key, bool>, step: int, unannTN: bool, incl: bool, cm: Matrix)
    requires ScoreSpec(lines, ann, step, unannTN, incl) == Success(cm)
    ensures Ladder.Cutoffs(step).Some?
    ensures Sweep(ParsedLines(lines), Ladder.Cutoffs(step).value, ann, unannTN, incl).Success?
    ensures cm == FillFN(Sweep(ParsedLines(lines), Ladder.Cutoffs(step).value, ann, unannTN, incl).value, ann, incl)
  {
  }

  /** Back-filling FN keeps every target and cutoff and changes only FN,
      to the positives not found. */
  lemma FillFNMeaning(sw: Matrix, ann: map<Key, bool>, incl: bool)
    ensures FillFN(sw, ann, incl).Keys == sw.Keys
    ensures forall t | t in sw :: FillFN(sw, ann, incl)[t].Keys == sw[t].Keys
    ensures forall t, c | t in sw && c in sw[t] ::
      FillFN(sw, ann, incl)[t][c] == sw[t][c].(fn := PosCount(ann, incl, t) - sw[t][c].tp)
  {
  }

  lemma ScoreTPOrder(lines: seq<string>, ann: map<Key, bool>, step: int, unannTN: bool, incl: bool, cm: Matrix)
    requires ScoreSpec(lines, ann, step, unannTN, incl) == Success(cm)
    ensures forall t: string, c1: nat, c2: nat | t in cm && c1 in cm[t] && c2 in cm[t] && c1 <= c2 :: cm[t][c2].tp <= cm[t][c1].tp
  {
    var ps := ParsedLines(lines);
    SweepMeaning(ps, Ladder.Cutoffs(step).value, ann, unannTN, incl);
    forall t: string, c1: nat, c2: nat | t in cm && c1 in cm[t] && c2 in cm[t] && c1 <= c2 ensures cm[t][c2].tp <= cm[t][c1].tp {
      TPNonIncreasing(ps, t, c1, c2, ann, unannTN, incl);
    }
  }

  lemma ScoreNegatives(lines: seq<string>, ann: map<Key, bool>, step: int, unannTN: bool, incl: bool, cm: Matrix)
    requires ScoreSpec(lines, ann, step, unannTN, incl) == Success(cm)
    ensures forall t: string, c1: nat, c2: nat | t in cm && c1 in cm[t] && c2 in cm[t] ::
      cm[t][c1].fp + cm[t][c1].tn == cm[t][c2].fp + cm[t][c2].tn
  {
    var ps := ParsedLines(lines);
    SweepMeaning(ps, Ladder.Cutoffs(step).value, ann, unannTN, incl);
    forall t: string, c1: nat, c2: nat | t in cm && c1 in cm[t] && c2 in cm[t]
      ensures cm[t][c1].fp + cm[t][c1].tn == cm[t][c2].fp + cm[t][c2].tn
    {
      NegativesSplit(ps, t, c1, 0, ann, unannTN, incl);
      NegativesSplit(ps, t, c2, 0, ann, unannTN, incl);
    }
  }

  lemma ParseLineData(line: string)
    requires ParseLine(line).Some? && ParseLine(line).value.Data?
    ensures StreamTime(ParseLine(line).value.row.stream) == Some(ParseLine(line).value.row.ts)
  {
  }

  /** Without include_training the two bounds disagree: a True judgment of
      a stream_id stamped in January or February 2012 is counted among the
      positives, yet no run row for that stream_id is ever scored, so it
      can only ever add to FN. */
  lemma TrainingGapCountsAsMissed(lines: seq<string>, ann: map<Key, bool>, unannTN: bool, s: string, t: string, c: nat)
    requires (s, t) in ann && ann[(s, t)]
    requires StreamTime(s).Some? && EndOf2011 < StreamTime(s).value <= EndOfFeb2012
    ensures (s, t) in set k | k in ann && KeptPositive(ann, false, k, t)
    ensures forall j | 0 <= j < |lines| && DataOf(ParsedLines(lines)[j], t) && ParsedLines(lines)[j].value.row.stream == s ::
      !Hits(ParsedLines(lines)[j], t, c, ann, unannTN, false, TPs)
  {
    var ps := ParsedLines(lines);
    forall j | 0 <= j < |lines| && DataOf(ps[j], t) && ps[j].value.row.stream == s
      ensures !Hits(ps[j], t, c, ann, unannTN, false, TPs)
    {
      ParseLineData(lines[j]);
    }
  }

  // ---------------------------------------------------------------------
  // The name of the output files

  /** The command-line choices the description reads; `group` is "" when
      not given. */
  datatype DescArgs = DescArgs(
    rejectTwitter: bool, rejectWikipedia: bool, group: string,
    micro: bool, useful: bool, neutral: bool, step: int)

  /** The entity part; `None` where the assertion 'cannot score with no
      entities' fails. */
  function EntityPart(a: DescArgs): (r: Option<string>)
    ensures r.None? <==> a.rejectTwitter && a.rejectWikipedia && a.group == ""
  {
    if a.rejectWikipedia && !a.rejectTwitter then Some("-twitter-only")
    else if a.rejectTwitter && !a.rejectWikipedia then Some("-wikipedia-only")
    else if a.group != "" then Some("-" + a.group + "-only")
    else if a.rejectWikipedia && a.rejectTwitter then None
    else Some("-all-entities")
  }

  function RatingPart(useful: bool, neutral: bool): string {
    if useful then "-vital+useful" else if neutral then "-vital+neutral" else "-vital"
  }

  function AvgPart(micro: bool): string {
    if micro then "-microavg" else "-macroavg"
  }

  /** make_description: 'ccr', the entity part, the rating part, the
      averaging and the cutoff step.  It fails exactly when both reject
      flags are given without a group, and otherwise starts with "ccr". */
  function Description(a: DescArgs): (r: Option<string>)
    ensures r.None? <==> a.rejectTwitter && a.rejectWikipedia && a.group == ""
    ensures r.Some? ==> StartsWith(r.value, "ccr")
  {
    match EntityPart(a)
    case None => None
    case Some(entities) =>
      var r := "ccr" + entities + RatingPart(a.useful, a.neutral) + AvgPart(a.micro)
        + "-cutoff-step-size-" + IntToString(a.step);
      assert r[..3] == "ccr";
      Some(r)
  }

  /** The cutoff step reads back from the description's tail with int(). */
  lemma DescriptionStep(a: DescArgs)
    requires Description(a).Some?
    ensures |IntToString(a.step)| <= |Description(a).value|
    ensures PyInt(Description(a).value[|Description(a).value| - |IntToString(a.step)|..]) == Some(a.step)
  {
    var r := Description(a).value;
    var d := IntToString(a.step);
    var head := "ccr" + EntityPart(a).value + RatingPart(a.useful, a.neutral) + AvgPart(a.micro) + "-cutoff-step-size-";
    assert r == head + d;
    assert r[|r| - |d|..] == d;
    PyIntOfIntToString(a.step);
  }

  /** With both include flags the name says "+useful" while the threshold
      admits neutral ratings too. */
  lemma UsefulWinsInName(a: DescArgs)
    requires a.useful && a.neutral
    ensures RatingPart(a.useful, a.neutral) == "-vital+useful"
    ensures Threshold(a.useful, a.neutral) == 0
  {
  }

  lemma DiffersAt(p: string, x: string, y: string, q: string, d: string, i: nat)
    requires i < |x| && i < |y| && x[i] != y[i]
    ensures p + x + q + d != p + y + q + d
  {
    assert (p + x + q + d)[|p| + i] == x[i];
    assert (p + y + q + d)[|p| + i] == y[i];
  }

  /** Micro and macro averaging never share a file name. */
  lemma AveragingInName(a: DescArgs)
    requires Description(a).Some?
    ensures Description(a) != Description(a.(micro := !a.micro))
  {
    var b := a.(micro := !a.micro);
    var pa := "ccr" + EntityPart(a).value + RatingPart(a.useful, a.neutral);
    var d := IntToString(a.step);
    assert Description(a).value == pa + AvgPart(a.micro) + "-cutoff-step-size-" + d;
    assert Description(b).value == pa + AvgPart(b.micro) + "-cutoff-step-size-" + d;
    DiffersAt(pa, AvgPart(a.micro), AvgPart(b.micro), "-cutoff-step-size-", d, 2);
  }
}
