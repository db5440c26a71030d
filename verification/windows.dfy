/** Sliding windows over a history, and the positions their elements take in a ring of fixed size:
    element k of the history is written at k modulo the size. */
module Windows {
  import opened Bits

  /** The last `size` elements of a history. */
  function Window<T>(history: seq<T>, size: nat): seq<T> {
    if |history| <= size then history else history[|history| - size..]
  }

  function Slot(k: nat, size: nat): (r: nat)
    requires 0 < size
    ensures r < size
  {
    k % size
  }

  /** Recent elements sit at different positions. */
  lemma SlotsDiffer(j: nat, k: nat, size: nat)
    requires 0 < size && j < k < j + size
    ensures Slot(j, size) != Slot(k, size)
  {
    SameMod(k, j, size);
    DivideUnique(k - j, size, 0, k - j);
  }

  lemma EarlySlot(n: nat, size: nat)
    requires 0 < size
    ensures n < size ==> Slot(n, size) == n
  {
    if n < size {
      DivideUnique(n, size, 0, n);
    }
  }

  /** The position i elements back from the write position. */
  lemma SlotBack(n: nat, i: nat, size: nat)
    requires 0 < size && i <= n && i <= size
    ensures 0 <= Slot(n, size) - i + size
    ensures (Slot(n, size) - i + size) % size == Slot(n - i, size)
  {
    var q := n / size;
    assert n == size * q + n % size;
    SameMod(n % size - i + size, n - i, size);
    assert (n % size - i + size) - (n - i) == size - size * q == size * (1 - q);
    DivideUnique(size * (1 - q), size, 1 - q, 0);
  }

  lemma SlotNext(n: nat, size: nat)
    requires 0 < size
    ensures Slot(n + 1, size) == if Slot(n, size) + 1 >= size then 0 else Slot(n, size) + 1
    ensures Slot(n + 1, size) == (Slot(n, size) + 1) % size
  {
    var q, r := n / size, n % size;
    assert n == size * q + r;
    if r + 1 >= size {
      assert size * (q + 1) == size * q + size;
      DivideUnique(n + 1, size, q + 1, 0);
      DivideUnique(r + 1, size, 1, 0);
    } else {
      DivideUnique(n + 1, size, q, r + 1);
      DivideUnique(r + 1, size, 0, r + 1);
    }
  }

  lemma OldestSlot(n: nat, size: nat)
    requires 0 < size
    ensures size <= n ==> Slot(n, size) == Slot(n - size, size)
  {
    if size <= n {
      SameMod(n, n - size, size);
      DivideUnique(size, size, 1, 0);
    }
  }
}
