/** Machine words: 32-bit wrap-around, the bitwise `&`, and powers of two. */
module Words {

  const TWO_31: nat := 0x8000_0000
  const TWO_32: nat := 0x1_0000_0000

  type u16 = x: int | 0 <= x < 0x1_0000
  type u32 = x: int | 0 <= x < 0x1_0000_0000
  type u64 = x: int | 0 <= x < 0x1_0000_0000_0000_0000
  type i32 = x: int | -0x8000_0000 <= x < 0x8000_0000

  /** The value a `uint32_t` holds after an arithmetic result `x` is stored in it. */
  function Wrap32(x: int): u32 {
    x % TWO_32
  }

  /** Bitwise `&`, one bit at a time. */
  function And(x: nat, y: nat): nat {
    if x == 0 || y == 0 then 0
    else (if x % 2 == 1 && y % 2 == 1 then 1 else 0) + 2 * And(x / 2, y / 2)
  }

  predicate IsPow2(c: nat) {
    c == 1 || (c > 1 && c % 2 == 0 && IsPow2(c / 2))
  }

  /** The capacities `ring_buffer_create` can produce. */
  predicate IsCapacity(c: nat) {
    2 <= c <= TWO_31 && IsPow2(c)
  }

  // ---------------------------------------------------------------- arithmetic helpers

  lemma MulAtLeast(c: int, z: int)
    requires c > 0 && z >= 1
    ensures c * z >= c
  {
  }

  lemma ModUnique(x: int, c: nat, q: int, r: int)
    requires 0 <= r < c
    requires x == c * q + r
    ensures x % c == r
  {
    var q', r' := x / c, x % c;
    assert x == c * q' + r';
    assert c * (q' - q) == r - r' && c * (q - q') == r' - r;
    if q' > q {
      MulAtLeast(c, q' - q);
    } else if q' < q {
      MulAtLeast(c, q - q');
    }
  }

  lemma ModOfDouble(x: nat, d: nat)
    requires d > 0
    ensures x % (2 * d) == x % 2 + 2 * ((x / 2) % d)
  {
    var q, s := (x / 2) / d, (x / 2) % d;
    assert x / 2 == d * q + s;
    assert (2 * d) * q == 2 * (d * q);
    ModUnique(x, 2 * d, q, x % 2 + 2 * s);
  }

  lemma {:induction false} Pow2Divides(c: nat, d: nat)
    requires IsPow2(c) && IsPow2(d) && c <= d
    ensures d % c == 0
  {
    if c == 1 {
    } else {
      Pow2Divides(c / 2, d / 2);
      ModOfDouble(d, c / 2);
    }
  }

  lemma ModOfMultiple(x: int, c: nat, m: nat)
    requires c > 0 && m > 0
    requires m % c == 0
    ensures (x % m) % c == x % c
  {
    var k := m / c;
    assert m == c * k;
    var q, r := x / m, x % m;
    assert m * q == c * (k * q) by { assert m * q == (c * k) * q; }
    var q', r' := r / c, r % c;
    assert c * (k * q + q') == c * (k * q) + c * q';
    ModUnique(x, c, k * q + q', r');
  }

  function Pow2(k: nat): nat {
    if k == 0 then 1 else 2 * Pow2(k - 1)
  }

  lemma {:induction false} Pow2IsPow2(k: nat)
    ensures IsPow2(Pow2(k))
  {
    if k > 0 {
      Pow2IsPow2(k - 1);
      assert Pow2(k) / 2 == Pow2(k - 1);
    }
  }

  lemma Pow2At31()
    ensures Pow2(31) == TWO_31 && Pow2(32) == TWO_32
  {
    assert Pow2(8) == 0x100;
    assert Pow2(16) == 0x1_0000;
    assert Pow2(24) == 0x100_0000;
    assert Pow2(30) == 0x4000_0000;
  }

  lemma TwoTo31IsPow2()
    ensures IsPow2(TWO_31) && IsPow2(TWO_32)
  {
    Pow2At31();
    Pow2IsPow2(31);
    Pow2IsPow2(32);
  }

  // ---------------------------------------------------------------- masks

  /** `x & (c - 1)` is `x mod c` when `c` is a power of two. */
  lemma {:induction false} AndMask(x: nat, c: nat)
    requires IsPow2(c)
    ensures And(x, c - 1) == x % c
  {
    if c == 1 || x == 0 {
    } else {
      AndMask(x / 2, c / 2);
      ModOfDouble(x, c / 2);
      assert (c - 1) / 2 == c / 2 - 1;
    }
  }

  /** `c & (c - 1)` vanishes exactly on the powers of two. */
  lemma {:induction false} PowerOfTwoTest(c: nat)
    requires c > 0
    ensures And(c, c - 1) == 0 <==> IsPow2(c)
  {
    if c == 1 {
    } else if c % 2 == 0 {
      PowerOfTwoTest(c / 2);
      assert (c - 1) / 2 == c / 2 - 1;
    } else {
      AndSelf(c / 2);
      assert (c - 1) / 2 == c / 2;
    }
  }

  predicate PassesPow2Test(c: u32)
    requires c > 0
    ensures PassesPow2Test(c) <==> IsPow2(c)
  {
    PowerOfTwoTest(c);
    And(c, c - 1) == 0
  }

  lemma {:induction false} AndSelf(x: nat)
    ensures And(x, x) == x
  {
    if x > 0 {
      AndSelf(x / 2);
    }
  }

  /** Slot `n` places after slot `i` in a ring of `c` slots. */
  function Forward(i: nat, n: nat, c: nat): (r: nat)
    requires i < c && n <= c
    ensures r < c
  {
    if i + n < c then i + n else i + n - c
  }

  /** Number of places from slot `i` forward to slot `j` in a ring of `c` slots. */
  function Between(i: nat, j: nat, c: nat): (r: nat)
    requires i < c && j < c
    ensures r < c
  {
    if i <= j then j - i else j + c - i
  }

  lemma MaskedWord(x: int, c: nat)
    requires IsCapacity(c)
    ensures And(Wrap32(x), Wrap32(c - 1)) == x % c
  {
    TwoTo31IsPow2();
    Pow2Divides(c, TWO_32);
    AndMask(Wrap32(x), c);
    ModOfMultiple(x, c, TWO_32);
    assert Wrap32(c - 1) == c - 1;
  }

  lemma RingResidues(c: nat, head: nat, tail: nat, n: nat)
    requires head < c && tail < c && n <= c
    ensures (head - tail) % c == Between(tail, head, c)
    ensures (head + n) % c == Forward(head, n, c)
  {
    ModUnique(head - tail, c, if tail <= head then 0 else -1, Between(tail, head, c));
    ModUnique(head + n, c, if head + n < c then 0 else 1, Forward(head, n, c));
  }

  /** The 32-bit masked expressions of the C code compute exactly the ring distances,
      which are the mathematical residues, for every capacity up to 2^31; the unsigned
      subtraction in `ring_buffer_available` never underflows. */
  lemma MaskIsExact(c: nat, head: nat, tail: nat, n: nat)
    requires IsCapacity(c)
    requires head < c && tail < c && n <= c
    ensures And(Wrap32(head - tail), Wrap32(c - 1)) == (head - tail) % c == Between(tail, head, c)
    ensures And(Wrap32(head + n), Wrap32(c - 1)) == (head + n) % c == Forward(head, n, c)
    ensures c - And(Wrap32(head - tail), Wrap32(c - 1)) - 1 >= 0
  {
    MaskedWord(head - tail, c);
    MaskedWord(head + n, c);
    RingResidues(c, head, tail, n);
  }

  // ---------------------------------------------------------------- capacity rounding

  /** `power` after `k` turns of the rounding loop: a left shift of a `uint32_t`. */
  function PowerAfter(k: nat): u32 {
    if k == 0 then 1 else Wrap32(PowerAfter(k - 1) * 2)
  }

  lemma Pow2Gap(x: nat)
    requires IsPow2(x) && x < TWO_31
    ensures 2 * x <= TWO_31
  {
    TwoTo31IsPow2();
    NoPow2Between(x, TWO_31);
  }

  lemma {:induction false} PowerAfterRange(k: nat)
    ensures PowerAfter(k) == 0 || (IsPow2(PowerAfter(k)) && PowerAfter(k) <= TWO_31)
  {
    if k > 0 {
      PowerAfterRange(k - 1);
      var p := PowerAfter(k - 1);
      if p != 0 && p < TWO_31 {
        Pow2Gap(p);
        assert (2 * p) / 2 == p;
      }
    }
  }

  lemma {:induction false} PowerAfterIs(k: nat)
    requires k <= 31
    ensures PowerAfter(k) == Pow2(k) <= TWO_31
  {
    if k > 0 {
      PowerAfterIs(k - 1);
      Pow2IsPow2(k - 1);
      Pow2Bound(k - 1);
      Pow2Gap(Pow2(k - 1));
    }
  }

  lemma Pow2Bound(k: nat)
    requires k <= 30
    ensures Pow2(k) < TWO_31
  {
    Pow2Strict(k, 31);
    Pow2At31();
  }

  lemma {:induction false} Pow2Strict(k: nat, m: nat)
    requires k < m
    ensures 0 < Pow2(k) < Pow2(m)
    decreases m
  {
    if k < m - 1 {
      Pow2Strict(k, m - 1);
    } else if k > 0 {
      Pow2Strict(k - 1, k);
    }
  }

  /** The rounding loop leaves its guard `power < request` exactly for requests up to 2^31;
      above that the shift overflows to 0 and the C loop never ends. */
  lemma RoundingStops(request: u32)
    ensures (exists k: nat :: PowerAfter(k) >= request) <==> request <= TWO_31
  {
    PowerAfterIs(31);
    Pow2At31();
    if k: nat :| PowerAfter(k) >= request {
      PowerAfterRange(k);
    }
  }

  /** No power of two lies strictly between `p` and `2 * p`. */
  lemma {:induction false} NoPow2Between(p: nat, q: nat)
    requires IsPow2(p) && IsPow2(q) && p < q
    ensures 2 * p <= q
  {
    if p > 1 {
      NoPow2Between(p / 2, q / 2);
    }
  }

  /** No power of two that is at least max(request, 2) lies below `c`. */
  ghost predicate IsLeastCapacity(c: nat, request: nat) {
    forall p: nat :: IsPow2(p) && p >= request && p >= 2 ==> c <= p
  }

  lemma LeastByHalf(c: nat, request: nat)
    requires IsPow2(c) && (c == 2 || c / 2 < request)
    ensures IsLeastCapacity(c, request)
  {
    forall p: nat | IsPow2(p) && p >= request && p >= 2
      ensures c <= p
    {
      if p < c {
        NoPow2Between(p, c);
      }
    }
  }

  const RING_BUFFER_SIZE: u32 := 16384

  /** A ring of c slots holds c - 1 samples: the buffer made for the default request of 16384
      cannot hold as many as were asked for. */
  lemma DefaultRequestFallsShort(c: nat)
    requires IsCapacity(c) && c >= RING_BUFFER_SIZE && IsLeastCapacity(c, RING_BUFFER_SIZE)
    ensures c - 1 < RING_BUFFER_SIZE
  {
    Pow2IsPow2(14);
    assert Pow2(7) == 128;
    assert Pow2(14) == RING_BUFFER_SIZE;
  }

  lemma DoublePow2(power: nat)
    requires IsPow2(power) && power < TWO_31
    ensures var p := Wrap32(power * 2); p == power * 2 <= TWO_31 && IsPow2(p) && p / 2 == power && p != 1
  {
    Pow2Gap(power);
    assert power * 2 / 2 == power;
  }

  /** `ring_buffer_create`'s rounding: the least power of two that is at least max(request, 2). */
  method RoundCapacity(request: u32) returns (capacity: u32)
    requires request <= TWO_31
    ensures IsCapacity(capacity)
    ensures capacity >= request
    ensures IsLeastCapacity(capacity, request)
  {
    capacity := request;
    if capacity < 2 {
      capacity := 2;
    }
    if !PassesPow2Test(capacity) {
      TwoTo31IsPow2();
      var power: u32 := 1;
      while power < capacity
        invariant IsPow2(power) && power <= TWO_31
        invariant power == 1 || power / 2 < capacity
        decreases capacity - power
      {
        DoublePow2(power);
        power := Wrap32(power * 2);
      }
      capacity := power;
    }
    LeastByHalf(capacity, request);
  }
}
