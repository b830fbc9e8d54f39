/** The confusion matrices of the SSF scorer (scorer/ssf.py): mode ->
    target -> cutoff -> cell, with `increment_CM` and `correct_FN`.  The
    scorer's matrices are nested defaultdicts, so a target's row and a
    cutoff's cell come into being the first time they are written. */
module SsfMatrix {
  import opened Sets
  import opened Metrics
  import opened SsfTruth
  import Ccr
  import Ladder

  /** What a row of the matrix is keyed by: a target_id, or the boolean
      that the OVERLAP and DATE_HOURS stages pass in the target_id
      position of `increment_CM`. */
  datatype TargetKey = Target(id: string) | Flag(b: bool)

  type Row = map<nat, Cell>
  type Table = map<TargetKey, Row>

  /** `CM`: one table per mode; all four always exist. */
  datatype Matrices = Matrices(docs: Table, overlaps: Table, fills: Table, dateHours: Table)

  const Fresh: Matrices := Matrices(map[], map[], map[], map[])

  function TableOf(cm: Matrices, m: Mode): Table {
    match m
    case DOCS => cm.docs
    case OVERLAPS => cm.overlaps
    case FILLS => cm.fills
    case DATE_HOURS => cm.dateHours
  }

  function WithTable(cm: Matrices, m: Mode, tab: Table): Matrices {
    match m
    case DOCS => cm.(docs := tab)
    case OVERLAPS => cm.(overlaps := tab)
    case FILLS => cm.(fills := tab)
    case DATE_HOURS => cm.(dateHours := tab)
  }

  /** A row as the defaultdict reads it: empty when absent. */
  function RowOf(tab: Table, t: TargetKey): Row {
    if t in tab then tab[t] else map[]
  }

  /** A cell as the defaultdict reads it: zeroed when absent. */
  function CellAt(row: Row, c: nat): Cell {
    if c in row then row[c] else ZeroCell
  }

  /** One cell's update: TP, or FP above the cutoff and TN at or below. */
  function Tick(cell: Cell, isTP: bool, conf: int, c: nat): Cell {
    if isTP then cell.(tp := cell.tp + 1)
    else if conf > c then cell.(fp := cell.fp + 1)
    else cell.(tn := cell.tn + 1)
  }

  /** Whether `increment_CM` writes the cell of cutoff `c`: a positive only
      where the score is above the cutoff, a negative everywhere. */
  predicate Touches(isTP: bool, conf: int, c: nat) {
    !isTP || conf > c
  }

  /** The loop of `increment_CM` over the cutoffs, on one table. */
  function Incremented(tab: Table, isTP: bool, conf: int, cutoffs: seq<nat>, t: TargetKey): Table
    decreases |cutoffs|
  {
    if |cutoffs| == 0 then tab
    else
      var tab1 := Incremented(tab, isTP, conf, cutoffs[..|cutoffs| - 1], t);
      var c := cutoffs[|cutoffs| - 1];
      if !Touches(isTP, conf, c) then tab1
      else
        var row := RowOf(tab1, t);
        tab1[t := row[c := Tick(CellAt(row, c), isTP, conf, c)]]
  }

  /** increment_CM: whatever `mode` says, only the DOCS table is written;
      the `unannotated_is_TN` branch follows `if x ... elif not x` and is
      never reached, so that flag changes nothing. */
  method IncrementCM(cm: Matrices, isTP: bool, conf: int, cutoffs: seq<nat>, mode: Mode, t: TargetKey, unannTN: bool)
    returns (cm2: Matrices)
    ensures cm2.docs == Incremented(cm.docs, isTP, conf, cutoffs, t)
    ensures cm2.overlaps == cm.overlaps && cm2.fills == cm.fills && cm2.dateHours == cm.dateHours
  {
    var tab := cm.docs;
    for j := 0 to |cutoffs|
      invariant tab == Incremented(cm.docs, isTP, conf, cutoffs[..j], t)
    {
      assert cutoffs[..j + 1][..j] == cutoffs[..j];
      var c := cutoffs[j];
      if isTP {
        if conf > c {
          var row := RowOf(tab, t);
          tab := tab[t := row[c := CellAt(row, c).(tp := CellAt(row, c).tp + 1)]];
        }
      } else {
        var row := RowOf(tab, t);
        if conf > c {
          tab := tab[t := row[c := CellAt(row, c).(fp := CellAt(row, c).fp + 1)]];
        } else {
          tab := tab[t := row[c := CellAt(row, c).(tn := CellAt(row, c).tn + 1)]];
        }
      }
    }
    assert cutoffs[..|cutoffs|] == cutoffs;
    cm2 := cm.(docs := tab);
  }

  /** The effect of one `increment_CM` on a ladder without repeats: only
      row `t` changes; its cell at `c` takes one tick exactly when `c` is
      on the ladder and touched, and exists afterwards exactly when it
      existed or was touched; the row exists afterwards exactly when it
      existed or some cutoff was touched. */
  lemma {:induction false} IncrementedMeaning(tab: Table, isTP: bool, conf: int, cutoffs: seq<nat>, t: TargetKey)
    requires Ladder.Distinct(cutoffs)
    ensures var tab2 := Incremented(tab, isTP, conf, cutoffs, t);
      (forall u | u != t :: (u in tab2 <==> u in tab) && RowOf(tab2, u) == RowOf(tab, u))
      && (t in tab2 <==> t in tab || exists c | c in cutoffs :: Touches(isTP, conf, c))
      && (forall c: nat :: (c in RowOf(tab2, t) <==> c in RowOf(tab, t) || (c in cutoffs && Touches(isTP, conf, c))))
      && (forall c: nat :: CellAt(RowOf(tab2, t), c) ==
            if c in cutoffs && Touches(isTP, conf, c) then Tick(CellAt(RowOf(tab, t), c), isTP, conf, c)
            else CellAt(RowOf(tab, t), c))
  {
    IncrementedOthers(tab, isTP, conf, cutoffs, t);
    IncrementedRow(tab, isTP, conf, cutoffs, t);
    IncrementedCellKeys(tab, isTP, conf, cutoffs, t);
    IncrementedCells(tab, isTP, conf, cutoffs, t);
  }

  lemma {:induction false} IncrementedOthers(tab: Table, isTP: bool, conf: int, cutoffs: seq<nat>, t: TargetKey)
    ensures var tab2 := Incremented(tab, isTP, conf, cutoffs, t);
      forall u | u != t :: (u in tab2 <==> u in tab) && RowOf(tab2, u) == RowOf(tab, u)
    decreases |cutoffs|
  {
    if |cutoffs| > 0 {
      IncrementedOthers(tab, isTP, conf, cutoffs[..|cutoffs| - 1], t);
    }
  }

  lemma {:induction false} IncrementedRow(tab: Table, isTP: bool, conf: int, cutoffs: seq<nat>, t: TargetKey)
    ensures t in Incremented(tab, isTP, conf, cutoffs, t) <==> t in tab || exists c | c in cutoffs :: Touches(isTP, conf, c)
    decreases |cutoffs|
  {
    if |cutoffs| > 0 {
      var init := cutoffs[..|cutoffs| - 1];
      var last := cutoffs[|cutoffs| - 1];
      assert cutoffs == init + [last];
      IncrementedRow(tab, isTP, conf, init, t);
    }
  }

  lemma {:induction false} IncrementedCellKeys(tab: Table, isTP: bool, conf: int, cutoffs: seq<nat>, t: TargetKey)
    ensures forall c: nat :: c in RowOf(Incremented(tab, isTP, conf, cutoffs, t), t) <==>
      c in RowOf(tab, t) || (c in cutoffs && Touches(isTP, conf, c))
    decreases |cutoffs|
  {
    if |cutoffs| > 0 {
      var init := cutoffs[..|cutoffs| - 1];
      var last := cutoffs[|cutoffs| - 1];
      assert cutoffs == init + [last];
      IncrementedCellKeys(tab, isTP, conf, init, t);
    }
  }

  lemma {:induction false} IncrementedCells(tab: Table, isTP: bool, conf: int, cutoffs: seq<nat>, t: TargetKey)
    requires Ladder.Distinct(cutoffs)
    ensures forall c: nat ::
      (CellAt(RowOf(Incremented(tab, isTP, conf, cutoffs, t), t), c) ==
       if c in cutoffs && Touches(isTP, conf, c) then Tick(CellAt(RowOf(tab, t), c), isTP, conf, c)
       else CellAt(RowOf(tab, t), c))
    decreases |cutoffs|
  {
    if |cutoffs| > 0 {
      var init := cutoffs[..|cutoffs| - 1];
      var last := cutoffs[|cutoffs| - 1];
      assert cutoffs == init + [last];
      assert Ladder.Distinct(init);
      assert last !in init;
      IncrementedCells(tab, isTP, conf, init, t);
    }
  }

  /** What one tick does to the counts: a positive adds one TP; a
      negative adds exactly one of FP (score above the cutoff) or TN. */
  lemma TickMeaning(cell: Cell, isTP: bool, conf: int, c: nat)
    ensures var d := Tick(cell, isTP, conf, c);
      d.fn == cell.fn
      && (isTP ==> d == cell.(tp := cell.tp + 1))
      && (!isTP ==> d.tp == cell.tp && d.fp + d.tn == cell.fp + cell.tn + 1
                    && (d.fp == cell.fp + 1 <==> conf > c))
  {
  }

  // ---------------------------------------------------------------------
  // FN back-fill

  /** positives[mode][target]; a flag row reads 0 from the defaultdict. */
  function PosOf(pos: Positives, m: Mode, t: TargetKey): int {
    match t
    case Target(id) => Count(pos, m, id)
    case Flag(_) => 0
  }

  /** correct_FN's effect on one table. */
  function Corrected(tab: Table, pos: Positives, m: Mode): Table {
    map t | t in tab :: Ccr.FilledRow(tab[t], PosOf(pos, m, t))
  }

  /** correct_FN: FN := positives - TP in every cell of the mode's table;
      the other tables are untouched. */
  method CorrectFN(cm: Matrices, mode: Mode, pos: Positives) returns (cm2: Matrices)
    ensures cm2 == WithTable(cm, mode, Corrected(TableOf(cm, mode), pos, mode))
  {
    var tab := TableOf(cm, mode);
    var tab2 := tab;
    var todo := tab.Keys;
    while todo != {}
      invariant todo <= tab.Keys && tab2.Keys == tab.Keys
      invariant forall t | t in tab :: tab2[t] == if t in todo then tab[t] else Ccr.FilledRow(tab[t], PosOf(pos, mode, t))
      decreases todo
    {
      var t := Choose(todo);
      var row := Ccr.FillCells(tab2[t], PosOf(pos, mode, t));
      tab2 := tab2[t := row];
      todo := todo - {t};
    }
    cm2 := WithTable(cm, mode, tab2);
  }

  /** After the back-fill FN + TP is the target's positives in every cell
      present; TP, FP, TN and the keys are as before. */
  lemma CorrectedMeaning(tab: Table, pos: Positives, m: Mode)
    ensures var tab2 := Corrected(tab, pos, m);
      tab2.Keys == tab.Keys
      && (forall t | t in tab :: tab2[t].Keys == tab[t].Keys)
      && (forall t, c | t in tab && c in tab[t] ::
            tab2[t][c].fn + tab2[t][c].tp == PosOf(pos, m, t)
            && tab2[t][c].(fn := tab[t][c].fn) == tab[t][c])
  {
  }

  /** The back-fill of an empty table changes nothing, which is what the
      OVERLAPS and FILLS back-fills meet, since nothing writes to those
      tables. */
  lemma CorrectedEmpty(cm: Matrices, pos: Positives, m: Mode)
    requires TableOf(cm, m) == map[]
    ensures WithTable(cm, m, Corrected(TableOf(cm, m), pos, m)) == cm
  {
  }
}
