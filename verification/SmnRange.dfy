/** The index loop of SetSmnMultiEntry (xUSL/CCX/Common/AmdTable.c:586-590): a 32-bit index that grows
    by a step, wrapping around, while it does not exceed the last index. */
module SmnRange {

  /** The index after one more step, and the exit test. */
  function Next(i: bv32, step: bv32): (j: bv32) {
    i + step
  }

  predicate Past(i: bv32, last: bv32) {
    i > last
  }

  /** The n-th value of an index that starts at i. */
  function Nth(i: bv32, step: bv32, n: nat): (j: bv32)
    decreases n
  {
    if n == 0 then i else Nth(Next(i, step), step, n - 1)
  }

  /** The loop leaves the range after some number of steps. */
  ghost predicate Leaves(i: bv32, last: bv32, step: bv32) {
    exists n: nat :: Past(Nth(i, step, n), last)
  }

  /** The loop from i on performs its body for index x. */
  ghost predicate Visits(i: bv32, last: bv32, step: bv32, x: bv32) {
    exists n: nat :: VisitsAt(i, last, step, x, n)
  }

  /** It does so in its pass n, all indices up to there being in the range. */
  predicate VisitsAt(i: bv32, last: bv32, step: bv32, x: bv32, n: nat)
    decreases n
  {
    !Past(i, last) && if n == 0 then x == i else VisitsAt(Next(i, step), last, step, x, n - 1)
  }

  lemma VisitsStep(i: bv32, last: bv32, step: bv32, x: bv32)
    ensures Visits(i, last, step, x) <==> !Past(i, last) && (x == i || Visits(Next(i, step), last, step, x))
  {
    hide Past, Next;
    if Visits(i, last, step, x) {
      var n: nat :| VisitsAt(i, last, step, x, n);
      assert n == 0 || VisitsAt(Next(i, step), last, step, x, n - 1);
    }
    if !Past(i, last) && x == i {
      assert VisitsAt(i, last, step, x, 0);
    }
    if !Past(i, last) && Visits(Next(i, step), last, step, x) {
      var n: nat :| VisitsAt(Next(i, step), last, step, x, n);
      assert VisitsAt(i, last, step, x, n + 1);
    }
  }

  /** The lowest one bit of the step and all bits above it; 0 for step 0. */
  function Mask(step: bv32): (m: bv32) {
    0 - (step & (0 - step))
  }

  /** The largest index that agrees with i below the lowest one bit of the step. */
  function Highest(i: bv32, m: bv32): (x: bv32) {
    i | m
  }

  /** The test a caller can make: the loop ends. */
  predicate Stops(i: bv32, last: bv32, step: bv32) {
    Past(Highest(i, Mask(step)), last)
  }

  // ----- Which indices a loop without bound would reach -----

  /** x and i agree on the bits outside the mask. */
  predicate Agree(x: bv32, i: bv32, m: bv32) {
    (x ^ i) & !m == 0
  }

  /** m has the form of a mask, and it is the one of the step. */
  predicate Marks(m: bv32, step: bv32) {
    && m & (0 - m) == 0 - m
    && step & !m == 0 && (step == 0 <==> m == 0) && step & (0 - m) == 0 - m
  }

  lemma MaskMarks(step: bv32, m: bv32)
    requires m == Mask(step)
    ensures Marks(m, step)
  {
  }

  lemma MaskDoubled(step: bv32, m: bv32, step2: bv32, m2: bv32)
    requires Marks(m, step) && m2 == m + m && step2 == step + step
    ensures Marks(m2, step2)
    ensures step != 0 ==> m2 < m
  {
  }

  /** With twice the step every other index is reached, from i or from its successor. */
  lemma OneOfTwo(x: bv32, i: bv32, j: bv32, step: bv32, m: bv32, m2: bv32)
    requires Marks(m, step) && m2 == m + m && j == Next(i, step)
    requires Agree(x, i, m) && !Agree(x, i, m2)
    ensures Agree(x, j, m2)
  {
  }

  lemma NoStep(x: bv32, i: bv32, m: bv32)
    requires Marks(m, 0) && Agree(x, i, m)
    ensures x == i
  {
  }

  lemma {:induction false} NthTwice(i: bv32, step: bv32, step2: bv32, n: nat)
    requires step2 == step + step
    ensures Nth(i, step2, n) == Nth(i, step, 2 * n)
    decreases n
  {
    hide Next;
    if n > 0 {
      var k := Next(i, step);
      var j := Next(k, step);
      NextTwice(i, step);
      NthTwice(j, step, step2, n - 1);
      assert Nth(i, step, 2 * n) == Nth(k, step, 2 * n - 1) == Nth(j, step, 2 * n - 2);
    }
  }

  lemma NextTwice(i: bv32, step: bv32)
    ensures Next(Next(i, step), step) == Next(i, step + step)
  {
    hide Next;
    NextIsSum(i, step);
    NextOfSum(i, step);
  }

  lemma NextIsSum(i: bv32, step: bv32)
    ensures Next(i, step) == i + step
  {
  }

  lemma NextOfSum(i: bv32, step: bv32)
    ensures Next(i + step, step) == Next(i, step + step)
  {
  }

  /** Every index that agrees with i outside the mask of the step is reached. */
  lemma {:induction false} Reaches(i: bv32, step: bv32, m: bv32, x: bv32) returns (n: nat)
    requires Marks(m, step) && Agree(x, i, m)
    ensures Nth(i, step, n) == x
    decreases m
  {
    if step == 0 {
      NoStep(x, i, m);
      n := 0;
    } else {
      var step2, m2 := step + step, m + m;
      MaskDoubled(step, m, step2, m2);
      hide Marks, Next, Agree;
      if Agree(x, i, m2) {
        var k := Reaches(i, step2, m2, x);
        NthTwice(i, step, step2, k);
        n := 2 * k;
      } else {
        var j := Next(i, step);
        OneOfTwo(x, i, j, step, m, m2);
        var k := Reaches(j, step2, m2, x);
        NthTwice(j, step, step2, k);
        n := 2 * k + 1;
      }
    }
  }

  lemma NextAgrees(i: bv32, j: bv32, step: bv32, m: bv32)
    requires Marks(m, step) && j == Next(i, step)
    ensures Agree(j, i, m)
  {
  }

  lemma AgreeTransitive(x: bv32, y: bv32, z: bv32, m: bv32)
    requires Agree(x, y, m) && Agree(y, z, m)
    ensures Agree(x, z, m)
  {
  }

  lemma AgreeSelf(i: bv32, m: bv32)
    ensures Agree(i, i, m)
  {
  }

  /** No other index is. */
  lemma {:induction false} NthAgrees(i: bv32, step: bv32, m: bv32, n: nat)
    requires Marks(m, step)
    ensures Agree(Nth(i, step, n), i, m)
    decreases n
  {
    hide Marks, Next, Agree;
    if n == 0 {
      AgreeSelf(i, m);
    } else {
      var j := Next(i, step);
      NthAgrees(j, step, m, n - 1);
      NextAgrees(i, j, step, m);
      AgreeTransitive(Nth(j, step, n - 1), j, i, m);
    }
  }

  lemma HighestIsHighest(x: bv32, i: bv32, m: bv32)
    ensures Agree(Highest(i, m), i, m)
    ensures Agree(x, i, m) ==> Within(x, Highest(i, m))
  {
  }

  predicate Within(x: bv32, y: bv32) {
    x | y == y
  }

  lemma PastUpward(x: bv32, y: bv32, last: bv32)
    requires Past(x, last) && Within(x, y)
    ensures Past(y, last)
  {
  }

  /** The loop leaves its range if and only if the highest index it can reach is past the range. */
  lemma StopsIff(i: bv32, last: bv32, step: bv32)
    ensures Stops(i, last, step) <==> Leaves(i, last, step)
  {
    hide Marks, Next, Agree, Mask, Past, Highest, Within;
    var m := Mask(step);
    MaskMarks(step, m);
    HighestIsHighest(i, i, m);
    if Stops(i, last, step) {
      var n := Reaches(i, step, m, Highest(i, m));
      assert Past(Nth(i, step, n), last);
    }
    if Leaves(i, last, step) {
      var n: nat :| Past(Nth(i, step, n), last);
      NthAgrees(i, step, m, n);
      HighestIsHighest(Nth(i, step, n), i, m);
      PastUpward(Nth(i, step, n), Highest(i, m), last);
    }
  }

  /** A loop that goes up to the largest 32-bit index, or that starts in its range and does not move,
      never ends. */
  lemma NeverStops(i: bv32, last: bv32, step: bv32)
    ensures !Leaves(i, 0xFFFF_FFFF, step)
    ensures !Past(i, last) ==> !Leaves(i, last, 0)
  {
    StopsIff(i, 0xFFFF_FFFF, step);
    StopsIff(i, last, 0);
  }
}
