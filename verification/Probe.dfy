/** The probe generator of src/hash_helper.h, shared by the hash tables and the
  string pool, and the proof that it visits every slot of a table. */
module Probe {
  import opened Values

  /** One step of the generator before any truncation. */
  function Advance(x: int): int {
    x * 2166136261 + 16777619
  }

  function Pow2(k: nat): (p: nat)
    ensures p > 0
  {
    if k == 0 then 1 else 2 * Pow2(k - 1)
  }

  /** Table capacities: powers of two that fit in a size_t. */
  ghost predicate IsCapacity(c: nat) {
    exists k: nat :: k < 32 && c == Pow2(k)
  }

  /** Bitwise and of two naturals. */
  function BitAnd(x: nat, y: nat): (r: nat)
    ensures r <= x
  {
    if x == 0 || y == 0 then 0 else (if x % 2 == 1 && y % 2 == 1 then 1 else 0) + 2 * BitAnd(x / 2, y / 2)
  }

  /** `_next_index`: 32-bit multiply and add, then a mask. */
  function NextIndex(index: Word, capacity: nat): Word
    requires capacity > 0
  {
    BitAnd(Wrap(Advance(index)), capacity - 1)
  }

  lemma BitAndHalves(x: nat, p: nat, m: nat)
    requires x > 0 && p > 0 && m == 2 * p
    ensures BitAnd(x, m - 1) == x % 2 + 2 * BitAnd(x / 2, p - 1)
  {
    assert (m - 1) / 2 == p - 1 && (m - 1) % 2 == 1;
  }

  function Mod(x: int, m: nat): int
    requires m > 0
  {
    x % m
  }

  /** The mask of a power of two is the remainder by it. */
  lemma {:induction false} MaskIsRemainder(x: nat, k: nat, m: nat)
    requires m == Pow2(k)
    ensures BitAnd(x, m - 1) == Mod(x, m)
    decreases k
  {
    if k == 0 {
      assert Mod(x, m) == 0;
    } else if x == 0 {
      assert Mod(x, m) == 0;
    } else {
      var p := Pow2(k - 1);
      hide Pow2, BitAnd, Mod;
      MaskIsRemainder(x / 2, k - 1, p);
      BitAndHalves(x, p, m);
      HalveRemainder(x, p, m);
    }
  }

  lemma HalveRemainder(x: int, p: nat, m: nat)
    requires p > 0 && m == 2 * p
    ensures Mod(x, m) == x % 2 + 2 * Mod(x / 2, p)
  {
    var h := x / 2;
    var q, r := h / p, h % p;
    assert h == q * p + r;
    DoubleProduct(q, p, m);
    RemainderUnique(x, m, q, x % 2 + 2 * r);
  }

  lemma DoubleProduct(q: int, p: nat, m: nat)
    requires m == 2 * p
    ensures q * m == 2 * (q * p)
  {
  }

  lemma RemainderUnique(x: int, m: nat, q: int, r: int)
    requires m > 0 && 0 <= r < m && x == q * m + r
    ensures x / m == q && x % m == r
  {
    var d := x / m - q;
    assert x == (x / m) * m + x % m;
    assert d * m == r - x % m;
    ProductBound(d, m);
  }

  lemma ProductBound(d: int, m: nat)
    ensures d > 0 ==> d * m >= m
    ensures d < 0 ==> d * m <= 0 - m
  {
  }

  lemma RemainderShift(x: int, m: nat, q: int)
    requires m > 0
    ensures (x + q * m) % m == x % m
  {
    assert x + q * m == (x / m + q) * m + x % m;
    RemainderUnique(x + q * m, m, x / m + q, x % m);
  }

  lemma Regroup(t: int, q: int, c: int)
    ensures t * (q * c) == (t * q) * c
  {
  }

  lemma Pow2Splits(k: nat, n: nat)
    requires k <= n
    ensures exists q: nat :: q > 0 && Pow2(n) == q * Pow2(k)
  {
    if k == n {
      assert Pow2(n) == 1 * Pow2(k);
    } else {
      Pow2Splits(k, n - 1);
      var q: nat :| q > 0 && Pow2(n - 1) == q * Pow2(k);
      assert Pow2(n) == (2 * q) * Pow2(k);
    }
  }

  lemma {:induction false} Pow2Monotone(k: nat, n: nat)
    requires k <= n
    ensures Pow2(k) <= Pow2(n)
    decreases n
  {
    if k < n {
      Pow2Monotone(k, n - 1);
    }
  }

  lemma Pow2Of32()
    ensures Pow2(32) == WORD_RANGE
    ensures Pow2(31) == SIGN_BIT
  {
    assert Pow2(8) == 256;
    assert Pow2(16) == 65536;
    assert Pow2(24) == 16777216;
  }

  /** In a table the 32-bit wrap is invisible: the next index is the affine map modulo the capacity. */
  lemma NextIndexIsAffine(index: Word, capacity: nat)
    requires IsCapacity(capacity)
    ensures NextIndex(index, capacity) == Advance(index) % capacity == (index * 2166136261 + 16777619) % capacity
    ensures NextIndex(index, capacity) < capacity
  {
    var k: nat :| k < 32 && capacity == Pow2(k);
    var x := Advance(index);
    MaskIsRemainder(Wrap(x), k, capacity);
    Pow2Splits(k, 32);
    Pow2Of32();
    var q: nat :| q > 0 && WORD_RANGE == q * capacity;
    var t := x / WORD_RANGE;
    assert x == Wrap(x) + t * WORD_RANGE;
    Regroup(t, q, capacity);
    RemainderShift(Wrap(x), capacity, t * q);
  }

  // ----- the affine map on the integers -----

  /** n steps of the generator, without any modulus. */
  function Affine(x: int, n: nat): int {
    if n == 0 then x else Advance(Affine(x, n - 1))
  }

  /** The multiplier to the power n. */
  function Factor(n: nat): nat {
    if n == 0 then 1 else Factor(n - 1) * 2166136261
  }

  lemma {:induction false} AffineAdd(x: int, m: nat, n: nat)
    ensures Affine(x, m + n) == Affine(Affine(x, m), n)
  {
    if n > 0 {
      AffineAdd(x, m, n - 1);
    }
  }

  /** Two starting points stay in proportion. */
  lemma {:induction false} AffineSpread(x: int, y: int, n: nat)
    ensures Affine(x, n) - Affine(y, n) == Factor(n) * (x - y)
  {
    if n > 0 {
      AffineSpread(x, y, n - 1);
      var a, d := Factor(n - 1), Affine(x, n - 1) - Affine(y, n - 1);
      assert Factor(n) * (x - y) == (a * (x - y)) * 2166136261;
    }
  }

  /** The multiplier is 1 modulo 4, and so are its powers. */
  lemma {:induction false} FactorModFour(n: nat) returns (q: int)
    ensures Factor(n) == 4 * q + 1
  {
    if n == 0 {
      q := 0;
    } else {
      var r := FactorModFour(n - 1);
      q := r * 2166136261 + 541534065;
    }
  }

  lemma DoubleIsEven(h: int, x: int)
    requires x == 2 * h
    ensures x % 2 == 0
  {
  }

  lemma EvenSum(a: int, b: int, c: int)
    requires a % 2 == 0 && b % 2 == 0 && c == a + b
    ensures c % 2 == 0
  {
  }

  lemma AdvanceParity(y: int)
    ensures (Advance(y) - y - 1) % 2 == 0
  {
    DoubleIsEven(y * 1083068130 + 8388809, Advance(y) - y - 1);
  }

  /** The multiplier and the increment are odd: every step flips the parity. */
  lemma {:induction false} AffineParity(x: int, n: nat)
    ensures (Affine(x, n) - x - n) % 2 == 0
  {
    if n > 0 {
      AffineParity(x, n - 1);
      var y := Affine(x, n - 1);
      AdvanceParity(y);
      EvenSum(Advance(y) - y - 1, y - x - (n - 1), Affine(x, n) - x - n);
    }
  }

  /** 2^k divides x. */
  predicate Divides(k: nat, x: int) {
    k == 0 || (x % 2 == 0 && Divides(k - 1, x / 2))
  }

  lemma {:induction false} DividesIsRemainder(k: nat, x: int)
    ensures Divides(k, x) <==> x % Pow2(k) == 0
    decreases k
  {
    if k > 0 {
      DividesIsRemainder(k - 1, x / 2);
      HalveRemainder(x, Pow2(k - 1), Pow2(k));
    }
  }

  /** An odd factor does not change divisibility by a power of two. */
  lemma {:induction false} OddFactor(o: int, d: int, k: nat)
    requires o % 2 == 1
    ensures Divides(k, o * d) <==> Divides(k, d)
    decreases k
  {
    if k > 0 {
      var u, v := o / 2, d / 2;
      if d % 2 == 1 {
        OddProduct(u, v);
        assert o * d == (2 * u + 1) * (2 * v + 1);
      } else {
        assert o * d == 2 * (o * v);
        OddFactor(o, v, k - 1);
      }
    }
  }

  lemma OddProduct(u: int, v: int)
    ensures ((2 * u + 1) * (2 * v + 1)) % 2 == 1
  {
    var w := u * v;
    assert (2 * u + 1) * (2 * v + 1) == 2 * (2 * w + u + v) + 1;
    DoubleIsEven(2 * w + u + v, (2 * u + 1) * (2 * v + 1) - 1);
  }

  /** Twice n steps move by an odd multiple of twice the distance of n steps. */
  lemma AffineTwice(x: int, h: nat) returns (o: int)
    ensures o % 2 == 1
    ensures Affine(x, 2 * h) - x == 2 * (o * (Affine(x, h) - x))
  {
    hide Affine, Factor;
    var y := Affine(x, h);
    var q := FactorModFour(h);
    o := 2 * q + 1;
    AffineAdd(x, h, h);
    AffineSpread(y, x, h);
    OddMultiple(Factor(h), o, y - x);
  }

  lemma OddMultiple(f: int, o: int, d: int)
    requires f == 2 * o - 1
    ensures f * d + d == 2 * (o * d)
  {
  }

  /** Hull-Dobell for a power of two: n steps return to the start modulo 2^k
      exactly when 2^k divides n. */
  lemma {:induction false} Period(x: int, n: nat, k: nat)
    ensures Divides(k, Affine(x, n) - x) <==> Divides(k, n)
    decreases k
  {
    if k > 0 {
      AffineParity(x, n);
      if n % 2 == 0 {
        var h := n / 2;
        var d := Affine(x, h) - x;
        var o := AffineTwice(x, h);
        Period(x, h, k - 1);
        OddFactor(o, d, k - 1);
        DividesDouble(k, o * d, Affine(x, n) - x);
      }
    }
  }

  lemma DividesDouble(k: nat, x: int, y: int)
    requires k > 0 && y == 2 * x
    ensures Divides(k, y) <==> Divides(k - 1, x)
  {
  }

  // ----- probe sequences -----

  lemma DoubleIsCapacity(capacity: nat)
    requires IsCapacity(capacity) && capacity < SIGN_BIT
    ensures IsCapacity(2 * capacity)
  {
    var k: nat :| k < 32 && capacity == Pow2(k);
    Pow2Of32();
    assert k < 31;
    assert Pow2(k + 1) == 2 * capacity;
  }

  lemma CapacityBound(capacity: nat)
    requires IsCapacity(capacity)
    ensures 0 < capacity <= SIGN_BIT
  {
    var k: nat :| k < 32 && capacity == Pow2(k);
    Pow2Splits(k, 31);
    Pow2Of32();
    var q: nat :| q > 0 && Pow2(31) == q * capacity;
    ProductBound(q, capacity);
  }

  /** The slot reached after n probe steps. */
  ghost function Slot(start: Word, n: nat, capacity: nat): (s: Word)
    requires IsCapacity(capacity) && start < capacity
    ensures s < capacity
  {
    if n == 0 then start
    else
      var index := Slot(start, n - 1, capacity);
      NextIndexIsAffine(index, capacity);
      NextIndex(index, capacity)
  }

  lemma Congruent(x: int, y: int, m: nat)
    requires m > 0
    ensures (x - y) % m == 0 <==> x % m == y % m
  {
    var d := (x - y) / m;
    if (x - y) % m == 0 {
      assert x == y + d * m;
      RemainderShift(y, m, d);
    }
    if x % m == y % m {
      assert x - y == (x / m - y / m) * m by {
        assert x == (x / m) * m + x % m;
        assert y == (y / m) * m + y % m;
      }
      RemainderUnique(x - y, m, x / m - y / m, 0);
    }
  }

  lemma AdvanceCongruent(x: int, m: nat, r: int)
    requires m > 0 && r == x % m
    ensures Advance(r) % m == Advance(x) % m
  {
    var d := x / m;
    assert x == r + d * m;
    Scale(d, m);
    assert Advance(x) == Advance(r) + (d * 2166136261) * m;
    RemainderShift(Advance(r), m, d * 2166136261);
  }

  lemma Scale(d: int, m: int)
    ensures (d * m) * 2166136261 == (d * 2166136261) * m
  {
  }

  /** A probe sequence is the affine sequence modulo the capacity. */
  lemma {:induction false} SlotIsAffine(start: Word, n: nat, capacity: nat)
    requires IsCapacity(capacity) && start < capacity
    ensures Slot(start, n, capacity) == Affine(start, n) % capacity
  {
    if n > 0 {
      var index, x := Slot(start, n - 1, capacity), Affine(start, n - 1);
      SlotIsAffine(start, n - 1, capacity);
      NextIndexIsAffine(index, capacity);
      AdvanceCongruent(x, capacity, index);
    } else {
      RemainderUnique(start, capacity, 0, start);
    }
  }

  /** Two steps of one probe sequence meet exactly when their distance is a
      multiple of the capacity, so the first `capacity` steps never meet. */
  lemma SlotsMeet(start: Word, i: nat, j: nat, capacity: nat)
    requires IsCapacity(capacity) && start < capacity && i <= j
    ensures Slot(start, i, capacity) == Slot(start, j, capacity) <==> (j - i) % capacity == 0
  {
    hide Affine, Slot, Divides;
    var k: nat :| k < 32 && capacity == Pow2(k);
    var x := Affine(start, i);
    SlotIsAffine(start, i, capacity);
    SlotIsAffine(start, j, capacity);
    AffineAdd(start, i, j - i);
    Congruent(Affine(start, j), x, capacity);
    Period(x, j - i, k);
    DividesIsRemainder(k, Affine(start, j) - x);
    DividesIsRemainder(k, j - i);
  }

  lemma SlotsDistinct(start: Word, i: nat, j: nat, capacity: nat)
    requires IsCapacity(capacity) && start < capacity && i < j < capacity
    ensures Slot(start, i, capacity) != Slot(start, j, capacity)
  {
    SlotsMeet(start, i, j, capacity);
    RemainderUnique(j - i, capacity, 0, j - i);
  }

  /** The slots of the first n probe steps. */
  ghost function Visited(start: Word, n: nat, capacity: nat): set<nat>
    requires IsCapacity(capacity) && start < capacity
  {
    set i: nat | i < n :: Slot(start, i, capacity)
  }

  lemma {:induction false} VisitedSize(start: Word, n: nat, capacity: nat)
    requires IsCapacity(capacity) && start < capacity && n <= capacity
    ensures |Visited(start, n, capacity)| == n
  {
    if n > 0 {
      VisitedSize(start, n - 1, capacity);
      var s: nat := Slot(start, n - 1, capacity);
      forall i: nat | i < n - 1 ensures Slot(start, i, capacity) != s {
        SlotsDistinct(start, i, n - 1, capacity);
      }
      assert Visited(start, n, capacity) == Visited(start, n - 1, capacity) + {s};
    }
  }

  ghost function Below(n: nat): (s: set<nat>)
    ensures forall i: nat :: i in s <==> i < n
    ensures |s| == n
  {
    if n == 0 then {} else Below(n - 1) + {n - 1}
  }

  /** A set of n naturals below n is all of them. */
  lemma FullSubset(s: set<nat>, n: nat)
    requires s <= Below(n) && |s| == n
    ensures s == Below(n)
  {
    var rest := Below(n) - s;
    assert Below(n) == s + rest;
  }

  /** Full period: from any start, every slot of a table is reached by exactly
      one of the first `capacity` probe steps. */
  lemma FullPeriod(start: Word, slot: nat, capacity: nat) returns (n: nat)
    requires IsCapacity(capacity) && start < capacity && slot < capacity
    ensures n < capacity && Slot(start, n, capacity) == slot
    ensures forall j: nat :: j < capacity && Slot(start, j, capacity) == slot ==> j == n
  {
    VisitedSize(start, capacity, capacity);
    FullSubset(Visited(start, capacity, capacity), capacity);
    assert slot in Below(capacity);
    n :| n < capacity && Slot(start, n, capacity) == slot;
    forall j: nat | j < capacity && Slot(start, j, capacity) == slot ensures j == n {
      if j < n {
        SlotsDistinct(start, j, n, capacity);
      } else if n < j {
        SlotsDistinct(start, n, j, capacity);
      }
    }
  }
}
