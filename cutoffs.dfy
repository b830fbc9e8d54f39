/** The cutoff ladder `range(0, 999, step)` that both 2013 scorers sweep:
    confidence scores are integers in (0, 1000] and a system output counts
    as positive at cutoff c when its score is above c. */
module Ladder {

  import opened Wrappers

  const Top: nat := 999

  /** The multiples of `step` from `start` up to, not including, 999. */
  function From(start: nat, step: nat): (cs: seq<nat>)
    requires step > 0
    ensures forall i | 0 <= i < |cs| :: cs[i] == start + i * step && cs[i] < Top
    ensures |cs| > 0 <==> start < Top
    decreases Top - start
  {
    if start >= Top then []
    else
      var rest := From(start + step, step);
      assert forall i | 1 <= i < |rest| + 1 :: ([start] + rest)[i] == rest[i - 1];
      [start] + rest
  }

  /** Python `range(0, 999, step)`: `None` for step 0, where `range` raises;
      the empty list for a negative step. */
  function Cutoffs(step: int): (r: Option<seq<nat>>)
    ensures r.None? <==> step == 0
    ensures step < 0 ==> r == Some([])
  {
    if step == 0 then None
    else if step < 0 then Some([])
    else Some(From(0, step))
  }

  /** No cutoff occurs twice, so a loop over the ladder touches each
      cell once. */
  predicate Distinct(cs: seq<nat>) {
    forall i, j | 0 <= i < j < |cs| :: cs[i] != cs[j]
  }

  predicate Increasing(cs: seq<nat>) {
    forall i, j | 0 <= i < j < |cs| :: cs[i] < cs[j]
  }

  lemma {:induction false} FromIncreasing(start: nat, step: nat)
    requires step > 0
    ensures Increasing(From(start, step))
    decreases Top - start
  {
    var cs := From(start, step);
    forall i, j | 0 <= i < j < |cs| ensures cs[i] < cs[j] {
      var a, b := cs[i], cs[j];
      assert a == start + i * step && b == start + j * step;
      MulGrows(i, j, step);
    }
  }

  lemma MulPos(a: int, b: int)
    requires a > 0 && b > 0
    ensures a * b > 0
  {
  }

  lemma MulGrows(i: int, j: int, step: int)
    requires i < j && step > 0
    ensures i * step < j * step
  {
    assert j * step - i * step == (j - i) * step;
    MulPos(j - i, step);
  }

  /** The ladder is strictly increasing, starts at 0 unless empty, and holds
      exactly the multiples of `step` below 999. */
  lemma LadderShape(step: int)
    requires step > 0
    ensures Increasing(Cutoffs(step).value)
    ensures Cutoffs(step).value != [] && Cutoffs(step).value[0] == 0
    ensures forall c: nat :: c in Cutoffs(step).value <==> c < Top && c % step == 0
  {
    var cs := Cutoffs(step).value;
    FromIncreasing(0, step);
    forall c: nat ensures c in cs <==> c < Top && c % step == 0 {
      if c in cs {
        var i :| 0 <= i < |cs| && cs[i] == c;
        assert c == i * step;
        MulMod(i, step);
      }
      if c < Top && c % step == 0 {
        var i := c / step;
        assert c == i * step;
        LadderHasAll(step, i);
      }
    }
  }

  /** Whatever the step, the ladder has no repeats. */
  lemma CutoffsDistinct(step: int)
    requires Cutoffs(step).Some?
    ensures Distinct(Cutoffs(step).value)
  {
    if step > 0 {
      LadderShape(step);
    }
  }

  lemma MulMod(i: nat, step: nat)
    requires step > 0
    ensures (i * step) % step == 0
  {
    var x := i * step;
    var a := i - x / step;
    assert a * step == x - (x / step) * step by {
      assert a * step == i * step - (x / step) * step;
    }
    assert 0 <= a * step < step;
    if a >= 1 {
      MulAtLeast(a, step);
    } else if a <= -1 {
      MulAtMost(a, step);
    }
  }

  lemma MulAtLeast(a: int, b: int)
    requires a >= 1 && b > 0
    ensures a * b >= b
  {
    assert a * b == (a - 1) * b + b;
    MulPos2(a - 1, b);
  }

  lemma MulAtMost(a: int, b: int)
    requires a <= -1 && b > 0
    ensures a * b <= -b
  {
    MulAtLeast(-a, b);
    assert (-a) * b == -(a * b);
  }

  lemma MulPos2(a: int, b: int)
    requires a >= 0 && b > 0
    ensures a * b >= 0
  {
  }

  lemma {:induction false} LadderHasAll(step: nat, i: nat)
    requires step > 0 && i * step < Top
    ensures i * step in From(0, step)
  {
    var cs := From(0, step);
    if |cs| <= i {
      var k := |cs|;
      assert |From(0, step)| == k;
      FromLength(0, step, k, i);
    }
    assert cs[i] == i * step;
  }

  /** Every multiple below 999 is within the ladder's length. */
  lemma {:induction false} FromLength(start: nat, step: nat, k: nat, i: nat)
    requires step > 0 && |From(start, step)| == k && start + i * step < Top
    ensures i < k
    decreases Top - start
  {
    if i > 0 {
      var rest := From(start + step, step);
      assert start < Top;
      assert |rest| == k - 1;
      assert start + step + (i - 1) * step == start + i * step;
      FromLength(start + step, step, k - 1, i - 1);
    }
  }
}
