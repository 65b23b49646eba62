/**
 JavaScript's 32-bit integers, represented by their unsigned residue modulo 2^32, on which
 `<<`, `|`, `&` and `>>>` act as defined here.
 */
module Int32 {
  import opened Basics

  const TWO_32: nat := 0x1_0000_0000

  type Byte = b: nat | b < 256

  function ShiftLeft(v: nat, n: nat): (r: nat)
    ensures r < TWO_32
  {
    (v * Pow2(n)) % TWO_32
  }

  function ShiftRight(v: nat, n: nat): nat {
    if n == 0 then v else ShiftRight(v / 2, n - 1)
  }

  function BitOr(a: nat, b: nat): nat
    decreases a + b
  {
    if a == 0 then b else if b == 0 then a
    else 2 * BitOr(a / 2, b / 2) + (if a % 2 == 1 || b % 2 == 1 then 1 else 0)
  }

  function BitAnd(a: nat, b: nat): nat {
    if a == 0 || b == 0 then 0
    else 2 * BitAnd(a / 2, b / 2) + (if a % 2 == 1 && b % 2 == 1 then 1 else 0)
  }

  /** `a | b` is a sum when no bit is set in both. */
  lemma {:induction false} OrIsSum(a: nat, k: nat, b: nat)
    requires b < Pow2(k)
    ensures BitOr(a * Pow2(k), b) == a * Pow2(k) + b
    decreases k
  {
    if k == 0 {
    } else if a * Pow2(k) != 0 && b != 0 {
      assert a * Pow2(k) == 2 * (a * Pow2(k - 1));
      OrIsSum(a, k - 1, b / 2);
    }
  }

  lemma {:induction false} AndHalves(v: nat, p: nat)
    requires p > 0
    ensures BitAnd(v, 2 * p - 1) == 2 * BitAnd(v / 2, p - 1) + v % 2
  {
  }

  /** `v & (2^k - 1)` is a remainder. */
  lemma {:induction false} AndIsRemainder(v: nat, k: nat)
    ensures BitAnd(v, Pow2(k) - 1) == v % Pow2(k)
    decreases k
  {
    if k > 0 {
      hide BitAnd;
      HalfRemainder(v, Pow2(k - 1));
      AndHalves(v, Pow2(k - 1));
      AndIsRemainder(v / 2, k - 1);
    }
  }

  lemma {:induction false} HalfRemainder(v: nat, p: nat)
    requires p > 0
    ensures (v % (2 * p)) / 2 == (v / 2) % p
    ensures (v % (2 * p)) % 2 == v % 2
    ensures v % (2 * p) == 2 * ((v / 2) % p) + v % 2
  {
    var h, b := v / 2, v % 2;
    var q, r := h / p, h % p;
    assert h == p * q + r;
    assert v == (2 * p) * q + (2 * r + b) by {
      assert (2 * p) * q == 2 * (p * q);
    }
    RemainderIs(v, 2 * p, q, 2 * r + b);
  }

  lemma {:induction false} RemainderIs(v: nat, m: nat, q: nat, r: nat)
    requires m > 0 && r < m && v == m * q + r
    ensures v % m == r && v / m == q
  {
    var q', r' := v / m, v % m;
    assert v == m * q' + r';
    if q < q' {
      ProductMonotone(m, q + 1, q');
    } else if q' < q {
      ProductMonotone(m, q' + 1, q);
    }
  }

  lemma {:induction false} ProductMonotone(m: nat, a: nat, b: nat)
    ensures a <= b ==> m * a <= m * b
  {
  }

  lemma {:induction false} QuotientNatural(v: nat, p: nat)
    requires p > 0
    ensures v / p >= 0 && v == p * (v / p) + v % p
  {
  }

  // ---------------------------------------------------------------- bit by bit

  /** The last bit is set in `a | b` if it is in one of them, in `a & b` if it is in both; the other
      bits are those of the halves. */
  lemma {:induction false} LastBit(a: nat, b: nat)
    ensures BitOr(a, b) == 2 * BitOr(a / 2, b / 2) + (if a % 2 == 1 || b % 2 == 1 then 1 else 0)
    ensures BitAnd(a, b) == 2 * BitAnd(a / 2, b / 2) + (if a % 2 == 1 && b % 2 == 1 then 1 else 0)
    ensures BitOr(0, 0) == 0 && BitAnd(0, 0) == 0
  {
    OrZero(a / 2);
    OrZero(b / 2);
  }

  lemma {:induction false} OrZero(a: nat)
    ensures BitOr(a, 0) == a && BitOr(0, a) == a
  {
  }

  /** `v >>> n` for a number below 2^32, and `v << n`. */
  lemma {:induction false} ShiftsAre(v: nat, n: nat)
    ensures ShiftLeft(v, n) == (v * Pow2(n)) % 0x1_0000_0000
    ensures ShiftRight(v, n) == v / Pow2(n)
    decreases n
  {
    if n > 0 {
      ShiftsAre(v / 2, n - 1);
      HalfQuotient(v, Pow2(n - 1));
    }
  }

  lemma {:induction false} HalfQuotient(v: nat, p: nat)
    requires p > 0
    ensures v / 2 / p == v / (2 * p)
  {
    var h, b := v / 2, v % 2;
    var q, r := h / p, h % p;
    QuotientNatural(h, p);
    assert v == (2 * p) * q + (2 * r + b) by {
      assert (2 * p) * q == 2 * (p * q);
    }
    RemainderIs(v, 2 * p, q, 2 * r + b);
  }
}
