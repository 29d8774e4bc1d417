/** The round-robin index `pointer % pool_size` of src/bfs_algorithm.py, defined by repeated
    subtraction so that proofs about picks do not carry non-linear arithmetic, and shown
    equal to Python's `%` (the operands are never negative). */
module Slots {

  /** The pool slot a pointer value selects. */
  function Slot(pointer: nat, poolSize: nat): (idx: nat)
    requires poolSize > 0
    ensures idx < poolSize
  {
    if pointer < poolSize then pointer else Slot(pointer - poolSize, poolSize)
  }

  lemma {:induction false} MulBounds(k: int, n: int)
    requires n > 0
    ensures k >= 1 ==> k * n >= n
    ensures k <= -1 ==> k * n <= -n
    decreases if k < 0 then -k else k
  {
    if k > 1 {
      MulBounds(k - 1, n);
      assert k * n == (k - 1) * n + n;
    } else if k < -1 {
      MulBounds(k + 1, n);
      assert k * n == (k + 1) * n - n;
    }
  }

  /** A remainder is determined by any quotient-remainder decomposition. */
  lemma ModUnique(p: int, n: int, q: int, r: int)
    requires 0 <= r < n && p == q * n + r
    ensures p % n == r
  {
    var q2, r2 := p / n, p % n;
    assert p == q2 * n + r2;
    assert (q - q2) * n == q * n - q2 * n;
    MulBounds(q - q2, n);
  }

  /** `Slot` is the remainder `pointer % poolSize`. */
  lemma {:induction false} SlotIsMod(pointer: nat, poolSize: nat)
    requires poolSize > 0
    ensures Slot(pointer, poolSize) == pointer % poolSize
  {
    if pointer < poolSize {
      ModUnique(pointer, poolSize, 0, pointer);
    } else {
      SlotIsMod(pointer - poolSize, poolSize);
      var q := (pointer - poolSize) / poolSize;
      assert pointer - poolSize == q * poolSize + (pointer - poolSize) % poolSize;
      assert (q + 1) * poolSize == q * poolSize + poolSize;
      ModUnique(pointer, poolSize, q + 1, (pointer - poolSize) % poolSize);
    }
  }

  /** Advancing the pointer by one moves to the next slot, wrapping after the last. */
  lemma {:induction false} SlotSucc(pointer: nat, poolSize: nat)
    requires poolSize > 0
    ensures Slot(pointer + 1, poolSize)
         == if Slot(pointer, poolSize) + 1 == poolSize then 0 else Slot(pointer, poolSize) + 1
  {
    if pointer + 1 == poolSize {
      assert Slot(pointer + 1, poolSize) == Slot(0, poolSize);
    } else if pointer >= poolSize {
      SlotSucc(pointer - poolSize, poolSize);
      assert pointer + 1 - poolSize == pointer - poolSize + 1;
    }
  }

  /** Advancing by fewer than `poolSize` steps adds them, wrapping at most once. */
  lemma {:induction false} SlotAdvance(pointer: nat, steps: nat, poolSize: nat)
    requires steps < poolSize
    ensures Slot(pointer + steps, poolSize)
         == if Slot(pointer, poolSize) + steps < poolSize then Slot(pointer, poolSize) + steps
            else Slot(pointer, poolSize) + steps - poolSize
  {
    if steps > 0 {
      SlotAdvance(pointer, steps - 1, poolSize);
      SlotSucc(pointer + steps - 1, poolSize);
    }
  }

  /** `poolSize` consecutive pointer values select pairwise different slots. */
  lemma SlotsDiffer(start: nat, i: nat, j: nat, poolSize: nat)
    requires i < j < i + poolSize
    ensures Slot(start + i, poolSize) != Slot(start + j, poolSize)
  {
    SlotAdvance(start + i, j - i, poolSize);
  }
}
