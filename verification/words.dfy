/**
 Fixed-width machine words of the interpreter: Go's `byte` and `uint16`,
 with their wrap-around written out, and the bitwise operations the
 instruction set uses on bytes.
 */
module Words {

  /** An unsigned 8-bit value (Go `byte`). */
  type u8 = b: int | 0 <= b < 0x100

  /** An unsigned 16-bit value (Go `uint16`). */
  type u16 = w: int | 0 <= w < 0x1_0000

  /** A 4-bit operand field of an instruction word (register index, sprite height). */
  type Nibble = n: int | 0 <= n < 0x10

  /** A 12-bit address operand (the `nnn` field). */
  type Addr = a: int | 0 <= a < 0x1000

  /** `a + b` computed in `uint16`: the sum wraps modulo 65536. */
  function Add16(a: u16, b: nat): (r: u16)
    ensures a + b < 0x1_0000 ==> r == a + b
    ensures a + b >= 0x1_0000 && b < 0x1_0000 ==> r == a + b - 0x1_0000
  {
    (a + b) % 0x1_0000
  }

  /** `a - 1` computed in `uint16`: zero wraps to 65535. */
  function Dec16(a: u16): (r: u16)
    ensures a > 0 ==> r == a - 1
    ensures a == 0 ==> r == 0xFFFF
  {
    (a - 1) % 0x1_0000
  }

  /** How far `a` lies past `base` going upward in `uint16` arithmetic. */
  function Offset(base: u16, a: u16): u16
  {
    (a - base) % 0x1_0000
  }

  /** `Add16(base, k)` and `Offset(base, ·)` are inverse: the k-th cell after `base`
      is exactly the cell whose offset from `base` is k. */
  lemma OffsetOfAdd(base: u16, k: u16, a: u16)
    ensures Add16(base, k) == a <==> Offset(base, a) == k
  {
    if base + k < 0x1_0000 {
      if a >= base {
        assert Offset(base, a) == a - base;
      } else {
        assert Offset(base, a) == a - base + 0x1_0000;
      }
    } else {
      assert Add16(base, k) == base + k - 0x1_0000;
      if a >= base {
        assert Offset(base, a) == a - base;
      } else {
        assert Offset(base, a) == a - base + 0x1_0000;
      }
    }
  }

  /** 2 to the power `k`. */
  function Pow2(k: nat): (p: nat)
    ensures p >= 1
  {
    if k == 0 then 1 else 2 * Pow2(k - 1)
  }

  /** Bit `j` of `a`, counting from the least significant bit. */
  function Bit(a: nat, j: nat): (d: nat)
    ensures d < 2
  {
    if j == 0 then a % 2 else Bit(a / 2, j - 1)
  }

  /** The bitwise operators of the instruction set. */
  datatype BitOp = OrOp | AndOp | XorOp

  /** An operator applied to two single bits. */
  function Combine(op: BitOp, p: nat, q: nat): nat
    requires p < 2 && q < 2
  {
    match op
    case OrOp => if p == 1 || q == 1 then 1 else 0
    case AndOp => if p == 1 && q == 1 then 1 else 0
    case XorOp => if p != q then 1 else 0
  }

  /** `op` applied bit by bit to the low `k` bits of `a` and `b`, least
      significant bit first. Bit `j` of the result is `op` on bit `j` of the
      operands; OR never lies below either operand and AND never above. */
  function Bitwise(op: BitOp, a: nat, b: nat, k: nat): (r: nat)
    requires a < Pow2(k) && b < Pow2(k)
    ensures r < Pow2(k)
    ensures forall j :: 0 <= j < k ==> Bit(r, j) == Combine(op, Bit(a, j), Bit(b, j))
    ensures op == OrOp ==> a <= r && b <= r
    ensures op == AndOp ==> r <= a && r <= b
    decreases k
  {
    if k == 0 then 0
    else
      var rest := Bitwise(op, a / 2, b / 2, k - 1);
      var r := 2 * rest + Combine(op, a % 2, b % 2);
      assert r / 2 == rest && r % 2 == Combine(op, a % 2, b % 2);
      assert forall j :: 1 <= j < k ==> Bit(r, j) == Bit(rest, j - 1);
      r
  }

  /** The only set bit of `2^m` is bit `m`. */
  lemma {:induction false} BitOfPow2(m: nat, j: nat)
    ensures Bit(Pow2(m), j) == if j == m then 1 else 0
    decreases j
  {
    if j > 0 && m > 0 {
      assert Pow2(m) / 2 == Pow2(m - 1);
      BitOfPow2(m - 1, j - 1);
    } else if j > 0 {
      assert Pow2(m) / 2 == 0;
      ZeroBits(j - 1);
    } else if m > 0 {
      assert Pow2(m) % 2 == 0;
    }
  }

  /** Zero has no set bit. */
  lemma {:induction false} ZeroBits(j: nat)
    ensures Bit(0, j) == 0
  {
    if j > 0 {
      ZeroBits(j - 1);
    }
  }

  /** A value below `2^k` is non-zero exactly when one of its low `k` bits is set. */
  lemma {:induction false} NonzeroHasBit(r: nat, k: nat)
    requires r < Pow2(k)
    ensures r != 0 <==> exists j :: 0 <= j < k && Bit(r, j) == 1
    decreases k
  {
    if k == 0 {
      assert r == 0;
    } else {
      NonzeroHasBit(r / 2, k - 1);
      if r != 0 {
        if r % 2 == 1 {
          assert Bit(r, 0) == 1;
          assert exists j :: 0 <= j < k && Bit(r, j) == 1;
        } else {
          var j :| 0 <= j < k - 1 && Bit(r / 2, j) == 1;
          assert Bit(r, j + 1) == 1;
        }
      } else {
        forall j | 0 <= j < k ensures Bit(r, j) == 0 {
          ZeroBits(j);
        }
        assert !exists j :: 0 <= j < k && Bit(r, j) == 1;
      }
    }
  }

  /** Every low bit of `2^n - 1` is set. */
  lemma {:induction false} AllOnesBits(n: nat, j: nat)
    requires j < n
    ensures Bit(Pow2(n) - 1, j) == 1
    decreases j
  {
    assert (Pow2(n) - 1) / 2 == Pow2(n - 1) - 1;
    if j > 0 {
      AllOnesBits(n - 1, j - 1);
    }
  }

  /** Powers of two grow strictly. */
  lemma {:induction false} PowMono(a: nat, b: nat)
    requires a < b
    ensures Pow2(a) < Pow2(b)
    decreases b
  {
    if a < b - 1 { PowMono(a, b - 1); }
  }

  /** Bitwise OR of two bytes (Go `|` on `byte`). */
  function Or8(a: u8, b: u8): (r: u8)
    ensures forall j :: 0 <= j < 8 ==> (Bit(r, j) == 1 <==> Bit(a, j) == 1 || Bit(b, j) == 1)
    ensures a <= r && b <= r
  {
    Bitwise(OrOp, a, b, 8)
  }

  /** Bitwise AND of two bytes (Go `&` on `byte`). */
  function And8(a: u8, b: u8): (r: u8)
    ensures forall j :: 0 <= j < 8 ==> (Bit(r, j) == 1 <==> Bit(a, j) == 1 && Bit(b, j) == 1)
    ensures r <= a && r <= b
  {
    Bitwise(AndOp, a, b, 8)
  }

  /** Bitwise XOR of two bytes (Go `^` on `byte`). */
  function Xor8(a: u8, b: u8): (r: u8)
    ensures forall j :: 0 <= j < 8 ==> (Bit(r, j) == 1 <==> Bit(a, j) != Bit(b, j))
  {
    Bitwise(XorOp, a, b, 8)
  }

  /** `b ^= 1` on a byte: toggles the lowest bit and keeps the others. */
  function Flip(b: u8): (r: u8)
    ensures r % 2 != b % 2 && r / 2 == b / 2
  {
    if b % 2 == 0 then b + 1 else b - 1
  }

  /** Toggling twice gives the byte back. */
  lemma FlipFlip(b: u8)
    ensures Flip(Flip(b)) == b
  {
  }

  // The flag bits of the shift instructions, written with masks as the
  // Go code writes them, agree with the arithmetic this model uses.

  /** `b & 0x1` is the low bit. */
  lemma LowBitMask(b: u8)
    ensures ((b as bv8) & 1) as int == b % 2
  {
  }

  /** `(b & 0x80) >> 7` is the high bit. */
  lemma HighBitMask(b: u8)
    ensures (((b as bv8) & 0x80) >> 7) as int == b / 0x80
  {
  }

  /** XOR with zero keeps the low `k` bits. */
  lemma {:induction false} XorZero(a: nat, k: nat)
    requires a < Pow2(k)
    ensures Bitwise(XorOp, a, 0, k) == a
    decreases k
  {
    if k > 0 {
      XorZero(a / 2, k - 1);
    }
  }

  /** `b ^ 1`, the pixel toggle, is `Flip`. */
  lemma XorOneFlips(b: u8)
    ensures Xor8(b, 1) == Flip(b)
  {
    XorZero(b / 2, 7);
  }
}
