/**
 Fixed-width machine integers.

 Words are mathematical integers held in their C range; wrap-around, shifts, masks and
 bitwise operators are written out so that every truncation is visible.
 */
module Words {

  type u8 = x: int | 0 <= x < 0x100
  type u16 = x: int | 0 <= x < 0x1_0000
  type u32 = x: int | 0 <= x < 0x1_0000_0000
  type u64 = x: int | 0 <= x < 0x1_0000_0000_0000_0000
  type i16 = x: int | -0x8000 <= x < 0x8000
  type i32 = x: int | -0x8000_0000 <= x < 0x8000_0000

  const TWO_64: int := 0x1_0000_0000_0000_0000

  /** Truncation to 64 bits. */
  function Wrap64(x: int): u64 {
    x % TWO_64
  }

  function Pow2(n: nat): (p: nat)
    ensures p > 0
  {
    if n == 0 then 1 else 2 * Pow2(n - 1)
  }

  datatype BitOp = Or | And | Xor

  function OnBits(op: BitOp, a: nat, b: nat): (r: nat)
    requires a < 2 && b < 2
    ensures r < 2
  {
    match op
    case Or => if a + b > 0 then 1 else 0
    case And => if a == 1 && b == 1 then 1 else 0
    case Xor => (a + b) % 2
  }

  /** The bitwise operator `op` on the low `n` bits of `a` and `b`. */
  function Bitwise(op: BitOp, a: nat, b: nat, n: nat): (r: nat)
    ensures r < Pow2(n)
  {
    if n == 0 then 0
    else OnBits(op, a % 2, b % 2) + 2 * Bitwise(op, a / 2, b / 2, n - 1)
  }

  /** `q << k`, before any truncation. */
  function Shl(q: nat, k: nat): (r: nat) {
    if k == 0 then q else 2 * Shl(q, k - 1)
  }

  /** `x >> k` of an unsigned word. */
  function Shr(x: nat, k: nat): (r: nat)
    ensures r <= x
  {
    if k == 0 then x else Shr(x / 2, k - 1)
  }

  /** The low `m` bits of `x`. */
  function Low(x: nat, m: nat): (r: nat)
    ensures r < Pow2(m)
  {
    if m == 0 then 0 else x % 2 + 2 * Low(x / 2, m - 1)
  }

  lemma ShlBy4(q: nat, k: nat)
    ensures Shl(q, k + 4) == 16 * Shl(q, k)
  {
    assert Shl(q, k + 2) == 4 * Shl(q, k);
  }

  /** The shifts of the instruction encoders. */
  lemma ShlAmounts(q: nat)
    ensures Shl(q, 5) == 0x20 * q && Shl(q, 10) == 0x400 * q
    ensures Shl(q, 21) == 0x20_0000 * q && Shl(q, 22) == 0x40_0000 * q
  {
    assert Shl(q, 2) == 2 * Shl(q, 1);
    ShlBy4(q, 1);
    ShlBy4(q, 2);
    ShlBy4(q, 5);
    ShlBy4(q, 6);
    ShlBy4(q, 9);
    ShlBy4(q, 10);
    ShlBy4(q, 13);
    ShlBy4(q, 14);
    ShlBy4(q, 17);
    ShlBy4(q, 18);
  }

  lemma ShrBy4(x: nat, k: nat)
    ensures Shr(x, k + 4) == Shr(x / 16, k)
  {
    assert Shr(x, k + 4) == Shr(x / 2, k + 3) == Shr(x / 2 / 2, k + 2);
    assert Shr(x / 4, k + 2) == Shr(x / 4 / 2, k + 1) == Shr(x / 4 / 2 / 2, k);
  }

  lemma LowBy2(x: nat, m: nat)
    ensures Low(x, m + 2) == x % 4 + 4 * Low(x / 4, m)
  {
    assert Low(x, m + 2) == x % 2 + 2 * Low(x / 2, m + 1);
    assert Low(x / 2, m + 1) == x / 2 % 2 + 2 * Low(x / 2 / 2, m);
  }

  lemma LowNibble(x: nat)
    ensures Low(x, 4) == x % 16
  {
    assert Low(x / 4 / 4, 0) == 0;
    hide Low;
    LowBy2(x, 2);
    LowBy2(x / 4, 0);
    assert x % 16 == x % 4 + 4 * (x / 4 % 4);
  }

  /** Fields that share no bit: `|` is `+`. */
  lemma {:induction false} OrDisjoint(q: nat, b: nat, k: nat, n: nat)
    requires b < Pow2(k) && Shl(q, k) + b < Pow2(n)
    ensures Bitwise(Or, Shl(q, k), b, n) == Shl(q, k) + b
    decreases n
  {
    if n > 0 {
      if k == 0 {
        OrDisjoint(q / 2, 0, 0, n - 1);
      } else {
        OrDisjoint(q, b / 2, k - 1, n - 1);
      }
    }
  }

  /** Masking with `m` consecutive ones keeps the low `m` bits. */
  lemma {:induction false} AndLow(x: nat, m: nat, n: nat)
    requires m <= n
    ensures Bitwise(And, x, Pow2(m) - 1, n) == Low(x, m)
    decreases n
  {
    if n > 0 {
      var ones, fewer := Pow2(m) - 1, if m > 0 then m - 1 else 0;
      assert ones / 2 == Pow2(fewer) - 1;
      AndLow(x / 2, fewer, n - 1);
      assert OnBits(And, x % 2, ones % 2) == if m > 0 then x % 2 else 0;
    }
  }

  /** Masking with `m` consecutive ones above `k` zeros keeps that bit field in place. */
  lemma {:induction false} AndField(x: nat, k: nat, m: nat, n: nat)
    requires k + m <= n
    ensures Bitwise(And, x, Shl(Pow2(m) - 1, k), n) == Shl(Low(Shr(x, k), m), k)
  {
    if k == 0 {
      AndLow(x, m, n);
    } else {
      AndField(x / 2, k - 1, m, n - 1);
    }
  }

  lemma Pow2Plus4(n: nat)
    ensures Pow2(n + 4) == 16 * Pow2(n)
  {
    assert Pow2(n + 2) == 4 * Pow2(n);
  }

  lemma Pow2Of16()
    ensures Pow2(4) == 16 && Pow2(8) == 0x100 && Pow2(16) == 0x1_0000
  {
    Pow2Plus4(0);
    Pow2Plus4(4);
    Pow2Plus4(8);
    Pow2Plus4(12);
  }

  lemma Pow2OfFields()
    ensures Pow2(5) == 0x20 && Pow2(21) == 0x20_0000 && Pow2(22) == 0x40_0000
  {
    Pow2Of16();
    Pow2Plus4(1);
    Pow2Plus4(16);
    assert Pow2(22) == 2 * Pow2(21) == 4 * Pow2(20);
  }

  lemma Pow2Of32()
    ensures Pow2(32) == 0x1_0000_0000
  {
    Pow2Of16();
    Pow2Plus4(16);
    Pow2Plus4(20);
    Pow2Plus4(24);
    Pow2Plus4(28);
  }

  lemma Pow2Of64()
    ensures Pow2(52) == 0x10_0000_0000_0000 && Pow2(64) == TWO_64
  {
    Pow2Of32();
    Pow2Plus4(32);
    Pow2Plus4(36);
    Pow2Plus4(40);
    Pow2Plus4(44);
    Pow2Plus4(48);
    Pow2Plus4(52);
    Pow2Plus4(56);
    Pow2Plus4(60);
  }

  /** Little-endian bytes of the low `n` bytes of `v`. */
  function ToLE(v: nat, n: nat): (s: seq<u8>)
    ensures |s| == n
  {
    if n == 0 then [] else [v % 0x100] + ToLE(v / 0x100, n - 1)
  }

  function Pow256(n: nat): (p: nat)
    ensures p > 0
  {
    if n == 0 then 1 else 0x100 * Pow256(n - 1)
  }

  function FromLE(s: seq<u8>): (v: nat)
    ensures v < Pow256(|s|)
  {
    if s == [] then 0 else s[0] + 0x100 * FromLE(s[1..])
  }

  lemma {:induction false} FromToLE(v: nat, n: nat)
    requires v < Pow256(n)
    ensures FromLE(ToLE(v, n)) == v
  {
    if n > 0 {
      FromToLE(v / 0x100, n - 1);
      assert ToLE(v, n)[1..] == ToLE(v / 0x100, n - 1);
    }
  }

  lemma {:induction false} ToFromLE(s: seq<u8>)
    ensures ToLE(FromLE(s), |s|) == s
  {
    if s != [] {
      var rest := FromLE(s[1..]);
      ToFromLE(s[1..]);
      Digits(s[0], rest);
      assert FromLE(s) == s[0] + 0x100 * rest;
      hide FromLE;
      assert ToLE(s[0] + 0x100 * rest, |s|) == [s[0]] + ToLE(rest, |s| - 1);
      assert s == [s[0]] + s[1..];
    }
  }

  lemma Digits(b: u8, rest: nat)
    ensures (b + 0x100 * rest) % 0x100 == b && (b + 0x100 * rest) / 0x100 == rest
  {
  }
}
