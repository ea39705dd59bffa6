/** Ring slots and 16-bit wrapping indices of a split virtqueue.

    The driver keeps its ring positions in `u16` counters that wrap, and turns a counter into a
    ring slot by masking it with `SIZE - 1`.  The lemmas here tie both to an unbounded count. */
module RingIndex {
  import opened Arithmetic


  const U16: nat := 0x1_0000

  /** The `u16` counter after `count` wrapping increments from zero. */
  function Wrap(count: nat): nat
  {
    count % U16
  }

  /** `u16::wrapping_add(1)`. */
  function WrappingInc(counter: nat): nat
  {
    (counter + 1) % U16
  }

  lemma WrapStep(count: nat)
    ensures Wrap(0) == 0
    ensures WrappingInc(Wrap(count)) == Wrap(count + 1)
  {
  }

  function Pow2(k: nat): (r: nat)
    ensures r >= 1
  {
    if k == 0 then 1 else 2 * Pow2(k - 1)
  }

  /** Bitwise and of two unsigned numbers, bit by bit from the least significant one. */
  function BitAnd(a: nat, b: nat): nat
  {
    if a == 0 || b == 0 then 0
    else (if a % 2 == 1 && b % 2 == 1 then 1 else 0) + 2 * BitAnd(a / 2, b / 2)
  }

  /** `SIZE_OK`: a power of two that fits a `u16`. */
  ghost predicate ValidSize(size: nat)
  {
    exists k: nat :: k <= 15 && size == Pow2(k)
  }

  /** The slot a wrapping counter selects. */
  function Slot(counter: nat, size: nat): nat
    requires size >= 1
  {
    BitAnd(counter, size - 1)
  }

  lemma {:induction false} MaskIsMod(a: nat, k: nat)
    ensures BitAnd(a, Pow2(k) - 1) == a % Pow2(k)
  {
    if k > 0 {
      var m := Pow2(k - 1);
      MaskIsMod(a / 2, k - 1);
      ModDouble(a, m);
      AndOdd(a, m);
    }
  }

  lemma AndOdd(a: nat, m: nat)
    requires m >= 1
    ensures BitAnd(a, 2 * m - 1) == a % 2 + 2 * BitAnd(a / 2, m - 1)
  {
    assert (2 * m - 1) % 2 == 1 && (2 * m - 1) / 2 == m - 1;
  }

  lemma ModDouble(a: nat, m: nat)
    requires m >= 1
    ensures a % (2 * m) == a % 2 + 2 * ((a / 2) % m)
  {
    var h := a / 2;
    var q := h / m;
    assert h == q * m + h % m;
    var r := a % 2 + 2 * (h % m);
    assert a == (2 * m) * q + r;
    ModUnique(a, 2 * m, q, r);
  }

  lemma {:induction false} Pow2Divides(k: nat, n: nat)
    requires k <= n
    ensures Pow2(n) == Pow2(k) * Pow2(n - k)
    decreases n
  {
    if n > k {
      Pow2Divides(k, n - 1);
      assert Pow2(n - k) == 2 * Pow2(n - k - 1);
    }
  }

  lemma ValidSizeBound(size: nat)
    requires ValidSize(size)
    ensures 1 <= size <= 32768
  {
    var k: nat :| k <= 15 && size == Pow2(k);
    Pow2Divides(k, 15);
    Pow2Fifteen();
    hide Pow2;
    MulMonotone(size, 1, Pow2(15 - k));
  }

  lemma Pow2Fifteen()
    ensures Pow2(15) == 32768 && Pow2(16) == U16
  {
    assert Pow2(5) == 32;
    assert Pow2(10) == 1024;
    assert Pow2(15) == 32768;
  }

  /** The slot selected by a wrapped counter is the slot of the unbounded count: `SIZE` divides
      2^16, so wrapping never moves the ring. */
  lemma SlotIsMod(count: nat, size: nat)
    requires ValidSize(size)
    ensures size >= 1 && Slot(Wrap(count), size) == count % size < size
  {
    var k: nat :| k <= 15 && size == Pow2(k);
    MaskIsMod(count % U16, k);
    Pow2Divides(k, 16);
    Pow2Fifteen();
    ModOfMod(count, size, Pow2(16 - k));
  }

  /** Two counts at most 2^15 apart are equal exactly when their wrapped counters are. */
  lemma WrapExact(a: nat, b: nat)
    requires a <= b <= a + 32768
    ensures Wrap(a) == Wrap(b) <==> a == b
  {
  }

  /** Distinct counts less than `size` apart use distinct slots. */
  lemma SlotsDistinct(a: nat, b: nat, size: nat)
    requires size >= 1 && a < b < a + size
    ensures a % size != b % size
  {
    assert b - a == size * (b / size - a / size) + (b % size - a % size) by {
      assert b == size * (b / size) + b % size;
      assert a == size * (a / size) + a % size;
    }
    SmallMultiple(size, b / size - a / size);
  }
}
