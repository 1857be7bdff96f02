/**
 What the 64-bit operations and conditions mean, said of bits and of signed integers, and that
 the machines' definitions are exactly that.
 */
module Operators {
  import opened Words
  import opened Ebpf

  /** Bit `k` of `x`. */
  predicate Bit(x: nat, k: nat) {
    x / Pow2(k) % 2 == 1
  }

  predicate OpOnBits(op: BitOp, a: bool, b: bool) {
    match op case Or => a || b case And => a && b case Xor => a != b
  }

  type i64 = x: int | -0x8000_0000_0000_0000 <= x < 0x8000_0000_0000_0000

  /** The word a signed integer is held in. */
  function Held(x: i64): u64 {
    if x < 0 then x + TWO_64 else x
  }

  // ----- bits -----

  /** A positive number of positive parts is at least one part, and at least that number. */
  lemma {:induction false} Multiple(e: nat, d: nat)
    requires d > 0
    ensures e * d >= e && (e > 0 ==> e * d >= d)
  {
    if e > 0 {
      Multiple(e - 1, d);
      assert e * d == (e - 1) * d + d;
    }
  }

  lemma QuotientIs(x: int, d: nat, q: int, r: nat)
    requires r < d && x == q * d + r
    ensures x / d == q && x % d == r
  {
    var e := x / d - q;
    var ed := e * d;
    assert (x / d) * d == ed + q * d;
    assert x % d == r - ed;
    if e > 0 {
      Multiple(e, d);
    } else if e < 0 {
      Multiple(-e, d);
    }
  }

  lemma HalvesPower(x: nat, p: nat)
    requires p > 0
    ensures x / (2 * p) == x / 2 / p
  {
    var q, r := x / 2 / p, x / 2 % p;
    var qp := q * p;
    assert x / 2 == qp + r;
    assert q * (2 * p) == 2 * qp;
    QuotientIs(x, 2 * p, q, 2 * r + x % 2);
  }

  lemma BitHalf(x: nat, k: nat)
    requires k > 0
    ensures Bit(x, k) == Bit(x / 2, k - 1)
  {
    HalvesPower(x, Pow2(k - 1));
  }

  lemma {:induction false} BitOfBitwise(op: BitOp, a: nat, b: nat, n: nat, k: nat)
    requires k < n
    ensures Bit(Bitwise(op, a, b, n), k) <==> OpOnBits(op, Bit(a, k), Bit(b, k))
    decreases n
  {
    var r := Bitwise(op, a, b, n);
    if k > 0 {
      BitHalf(r, k);
      BitHalf(a, k);
      BitHalf(b, k);
      BitOfBitwise(op, a / 2, b / 2, n - 1, k - 1);
      assert r / 2 == Bitwise(op, a / 2, b / 2, n - 1);
    } else {
      assert Pow2(0) == 1;
    }
  }

  /** Two numbers below 2^n with the same n bits are equal. */
  lemma {:induction false} SameBits(a: nat, b: nat, n: nat)
    requires a < Pow2(n) && b < Pow2(n) && forall k: nat | k < n :: Bit(a, k) == Bit(b, k)
    ensures a == b
    decreases n
  {
    if n > 0 {
      assert Pow2(0) == 1 && Bit(a, 0) == Bit(b, 0);
      forall k: nat | k < n - 1
        ensures Bit(a / 2, k) == Bit(b / 2, k)
      {
        BitHalf(a, k + 1);
        BitHalf(b, k + 1);
      }
      SameBits(a / 2, b / 2, n - 1);
    }
  }

  lemma NoBits(a: u64)
    ensures a != 0 <==> exists k: nat :: k < 64 && Bit(a, k)
  {
    Pow2Of64();
    forall k: nat
      ensures !Bit(0, k)
    {
      QuotientIs(0, Pow2(k), 0, 0);
    }
    if forall k: nat | k < 64 :: !Bit(a, k) {
      SameBits(a, 0, 64);
    }
  }

  // ----- shifts -----

  lemma {:induction false} ShlIsProduct(q: nat, k: nat)
    ensures Shl(q, k) == q * Pow2(k)
  {
    if k > 0 {
      ShlIsProduct(q, k - 1);
      var half := Pow2(k - 1);
      assert Pow2(k) == 2 * half;
      assert q * (2 * half) == 2 * (q * half);
    }
  }

  lemma {:induction false} ShrIsQuotient(x: nat, k: nat)
    ensures Shr(x, k) == x / Pow2(k)
  {
    if k > 0 {
      ShrIsQuotient(x / 2, k - 1);
      HalvesPower(x, Pow2(k - 1));
    }
  }

  /** Rounding toward minus infinity, from the quotient of the complement. */
  lemma FloorOfComplement(s: int, p: nat)
    requires s < 0 && p > 0
    ensures s / p == -1 - (-1 - s) / p
  {
    var c := -1 - s;
    var q, r := c / p, c % p;
    var qp := q * p;
    assert c == qp + r;
    assert (-1 - q) * p + p + qp == 0;
    QuotientIs(s, p, -1 - q, p - 1 - r);
  }

  // ----- operations -----

  /** What each operation leaves for operands held as `a` and `b`; shift amounts count modulo 64. */
  ghost predicate Computes(op: AluOp, a: i64, b: i64, r: u64) {
    var x, y := Held(a), Held(b);
    match op
    case Mov => r == y
    case Add => r == x + y || r == x + y - TWO_64
    case Sub => r == x - y || r == x - y + TWO_64
    case AndOp => forall k: nat | k < 64 :: Bit(r, k) <==> Bit(x, k) && Bit(y, k)
    case OrOp => forall k: nat | k < 64 :: Bit(r, k) <==> Bit(x, k) || Bit(y, k)
    case XorOp => forall k: nat | k < 64 :: Bit(r, k) <==> Bit(x, k) != Bit(y, k)
    case Lsh => (x * Pow2(y % 64) - r) % TWO_64 == 0
    case Rsh => r == x / Pow2(y % 64)
    case Arsh => a / Pow2(y % 64) == if r < TWO_64 / 2 then r else r - TWO_64
  }

  lemma BitsComputed(op: AluOp, a: i64, b: i64)
    requires op in {AndOp, OrOp, XorOp}
    ensures Computes(op, a, b, AluEval(op, Held(a), Held(b)))
  {
    var o := if op == AndOp then And else if op == OrOp then Or else Xor;
    hide Bit;
    forall k: nat | k < 64
      ensures Bit(AluEval(op, Held(a), Held(b)), k) == OpOnBits(o, Bit(Held(a), k), Bit(Held(b), k))
    {
      BitOfBitwise(o, Held(a), Held(b), 64, k);
    }
  }

  lemma QuotientShrinks(s: i64, p: nat)
    requires p > 0
    ensures s >= 0 ==> 0 <= s / p <= s
    ensures s < 0 ==> s <= s / p < 0
  {
    if s >= 0 {
      ShrinkNat(s, p);
    } else {
      FloorOfComplement(s, p);
      ShrinkNat(-1 - s, p);
    }
  }

  lemma ShrinkNat(x: nat, p: nat)
    requires p > 0
    ensures 0 <= x / p <= x
  {
    Multiple(x / p, p);
  }

  lemma ArithmeticShift(a: i64, k: nat, q: i64)
    requires q == a / Pow2(k)
    ensures Sar(Held(a), k) == Held(q)
  {
    QuotientShrinks(a, Pow2(k));
    if a >= 0 {
      ShrIsQuotient(a, k);
    } else {
      ShrIsQuotient(-1 - a, k);
      FloorOfComplement(a, Pow2(k));
    }
  }

  lemma LeftShift(x: u64, k: nat)
    ensures (x * Pow2(k) - Wrap64(Shl(x, k))) % TWO_64 == 0
  {
    ShlIsProduct(x, k);
    Remainder(x * Pow2(k));
  }

  lemma Remainder(x: int)
    ensures (x - Wrap64(x)) % TWO_64 == 0
  {
  }

  lemma SumsComputed(op: AluOp, a: i64, b: i64)
    requires op in {Mov, Add, Sub}
    ensures Computes(op, a, b, AluEval(op, Held(a), Held(b)))
  {
  }

  /** The machines' result is what the operation means... */
  lemma AluComputes(op: AluOp, a: i64, b: i64)
    ensures Computes(op, a, b, AluEval(op, Held(a), Held(b)))
  {
    hide Bit, Bitwise, Shl, Shr, Pow2, Sar, Wrap64;
    match op
    case Lsh => LeftShift(Held(a), Held(b) % 64);
    case Rsh => ShrIsQuotient(Held(a), Held(b) % 64);
    case Arsh =>
      var k := Held(b) % 64;
      QuotientShrinks(a, Pow2(k));
      ArithmeticShift(a, k, a / Pow2(k));
    case AndOp => BitsComputed(op, a, b);
    case OrOp => BitsComputed(op, a, b);
    case XorOp => BitsComputed(op, a, b);
    case _ => SumsComputed(op, a, b);
  }

  /** ...and nothing else is. */
  lemma AluMeaning(op: AluOp, a: i64, b: i64, r: u64)
    ensures Computes(op, a, b, r) <==> AluEval(op, Held(a), Held(b)) == r
  {
    hide AluEval, Bit;
    var e := AluEval(op, Held(a), Held(b));
    AluComputes(op, a, b);
    if Computes(op, a, b, r) {
      if op in {AndOp, OrOp, XorOp} {
        Pow2Of64();
        SameBits(r, e, 64);
      } else if op == Lsh {
        SameWord(Held(a) * Pow2(Held(b) % 64), r, e);
      }
    }
  }

  lemma SameWord(x: int, r: u64, e: u64)
    requires (x - r) % TWO_64 == 0 && (x - e) % TWO_64 == 0
    ensures r == e
  {
  }

  // ----- conditions -----

  /** What each condition decides of the signed integers `a` and `b`, or of the words they are held in. */
  ghost predicate Decides(c: Cond, a: i64, b: i64) {
    match c
    case Eq => a == b
    case Ne => a != b
    case Gt => Held(a) > Held(b)
    case Ge => Held(a) >= Held(b)
    case Lt => Held(a) < Held(b)
    case Le => Held(a) <= Held(b)
    case Set => exists k: nat :: k < 64 && Bit(Held(a), k) && Bit(Held(b), k)
    case Sgt => a > b
    case Sge => a >= b
    case Slt => a < b
    case Sle => a <= b
  }

  lemma ConditionMeaning(c: Cond, a: i64, b: i64)
    ensures CondEval(c, Held(a), Held(b)) <==> Decides(c, a, b)
  {
    if c == Set {
      SharedBit(Held(a), Held(b));
    }
  }

  lemma SharedBit(x: u64, y: u64)
    ensures Bits64(And, x, y) != 0 <==> exists k: nat :: k < 64 && Bit(x, k) && Bit(y, k)
  {
    NoBits(Bits64(And, x, y));
    hide Bit;
    forall k: nat | k < 64
      ensures Bit(Bits64(And, x, y), k) <==> Bit(x, k) && Bit(y, k)
    {
      BitOfBitwise(And, x, y, 64, k);
    }
  }

  /** An immediate is sign-extended into the word. */
  lemma ImmediateHeld(i: i32)
    ensures Wrap64(i) == Held(i)
  {
  }
}
