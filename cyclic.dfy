/**
 * Wrap-around navigation over `n` slides, as the flashcard carousel and the
 * practice-question pager compute it: next is `(i + 1) % n`, previous is
 * `(i - 1 + n) % n`. Both operands are non-negative, so JavaScript's `%`
 * and Dafny's agree here.
 */
module Cyclic {

  function NextIndex(i: nat, n: nat): (r: nat)
    requires i < n
    ensures r < n
    ensures i < n - 1 ==> r == i + 1
    ensures i == n - 1 ==> r == 0
  {
    (i + 1) % n
  }

  function PrevIndex(i: nat, n: nat): (r: nat)
    requires i < n
    ensures r < n
    ensures i > 0 ==> r == i - 1
    ensures i == 0 ==> r == n - 1
  {
    (i - 1 + n) % n
  }

  /** Going back undoes going forward, and going forward undoes going back. */
  lemma PrevNextInverse(i: nat, n: nat)
    requires i < n
    ensures PrevIndex(NextIndex(i, n), n) == i
    ensures NextIndex(PrevIndex(i, n), n) == i
  {
  }

  /** `k` presses of next, starting at `i`. */
  function Advance(i: nat, n: nat, k: nat): (r: nat)
    requires i < n
    ensures r < n
  {
    if k == 0 then i else NextIndex(Advance(i, n, k - 1), n)
  }

  /** Before reaching the last slide, `k` presses of next move exactly `k` slides on. */
  lemma {:induction false} AdvanceNoWrap(i: nat, n: nat, k: nat)
    requires i + k < n
    ensures Advance(i, n, k) == i + k
  {
    if k > 0 {
      AdvanceNoWrap(i, n, k - 1);
    }
  }

  /** Pressing next `a + b` times is pressing it `a` times and then `b` times. */
  lemma {:induction false} AdvanceSplit(i: nat, n: nat, a: nat, b: nat)
    requires i < n
    ensures Advance(i, n, a + b) == Advance(Advance(i, n, a), n, b)
  {
    if b > 0 {
      AdvanceSplit(i, n, a, b - 1);
    }
  }

  /** Pressing next `n` times returns to the starting slide. */
  lemma {:induction false} FullCycle(i: nat, n: nat)
    requires i < n
    ensures Advance(i, n, n) == i
  {
    var toLast := n - 1 - i;
    AdvanceNoWrap(i, n, toLast);
    AdvanceSplit(i, n, toLast, i + 1);
    AdvanceSplit(n - 1, n, 1, i);
    assert Advance(n - 1, n, 1) == 0;
    if i > 0 {
      AdvanceNoWrap(0, n, i);
    }
  }
}
