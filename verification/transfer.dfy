/**
 The instructions that move data between the registers and memory at the
 index register: the decimal store (FX33) and the register dump and load
 (FX55, FX65). Addresses are `i + k` computed in `uint16`, so they wrap
 modulo 65536; every address used must still fall inside memory.
 */
module Transfer {
  import opened Words
  import opened Machine

  /** The cells `i + 0 .. i + x` all lie inside memory. */
  predicate BlockInMemory(i: u16, x: Nibble) {
    forall k :: 0 <= k <= x ==> Add16(i, k) < MemorySize
  }

  /** The dump loop from register `idx` on: `memory[i + idx] = v[idx]`. */
  function StoreFrom(mem: seq<u8>, v: seq<u8>, i: u16, x: Nibble, idx: nat): (r: seq<u8>)
    requires |mem| == MemorySize && |v| == RegisterCount && BlockInMemory(i, x) && idx <= x + 1
    ensures |r| == MemorySize
    ensures forall a :: 0 <= a < MemorySize ==>
      r[a] == if idx <= Offset(i, a) <= x then v[Offset(i, a)] else mem[a]
    decreases x + 1 - idx
  {
    if idx > x then mem
    else
      var addr := Add16(i, idx);
      var r := StoreFrom(mem[addr := v[idx]], v, i, x, idx + 1);
      assert forall a :: 0 <= a < MemorySize ==> (a == addr <==> Offset(i, a) == idx) by {
        forall a | 0 <= a < MemorySize {
          OffsetOfAdd(i, idx, a);
        }
      }
      r
  }

  /** FX55: registers `v[0..x]` are written to `memory[i..i+x]`; a cell is
      written exactly when its offset from `i` is at most `x`, and the cell at
      offset `k` receives `v[k]`. */
  function StoreRegisters(mem: seq<u8>, v: seq<u8>, i: u16, x: Nibble): (r: seq<u8>)
    requires |mem| == MemorySize && |v| == RegisterCount && BlockInMemory(i, x)
    ensures |r| == MemorySize
    ensures forall k :: 0 <= k <= x ==> r[Add16(i, k)] == v[k]
    ensures forall a :: 0 <= a < MemorySize && Offset(i, a) > x ==> r[a] == mem[a]
  {
    var r := StoreFrom(mem, v, i, x, 0);
    assert forall k :: 0 <= k <= x ==> Offset(i, Add16(i, k)) == k by {
      forall k | 0 <= k <= x {
        OffsetOfAdd(i, k, Add16(i, k));
      }
    }
    r
  }

  /** The load loop from register `idx` on: `v[idx] = memory[i + idx]`. */
  function LoadFrom(v: seq<u8>, mem: seq<u8>, i: u16, x: Nibble, idx: nat): (r: seq<u8>)
    requires |mem| == MemorySize && |v| == RegisterCount && BlockInMemory(i, x) && idx <= x + 1
    ensures |r| == RegisterCount
    ensures forall k :: 0 <= k < RegisterCount ==>
      r[k] == if idx <= k <= x then mem[Add16(i, k)] else v[k]
    decreases x + 1 - idx
  {
    if idx > x then v
    else LoadFrom(v[idx := mem[Add16(i, idx)]], mem, i, x, idx + 1)
  }

  /** FX65: registers `v[0..x]` are read from `memory[i..i+x]`; the
      registers above `x` keep their values. */
  function LoadRegisters(v: seq<u8>, mem: seq<u8>, i: u16, x: Nibble): (r: seq<u8>)
    requires |mem| == MemorySize && |v| == RegisterCount && BlockInMemory(i, x)
    ensures |r| == RegisterCount
    ensures forall k :: 0 <= k <= x ==> r[k] == mem[Add16(i, k)]
    ensures forall k :: x < k < RegisterCount ==> r[k] == v[k]
  {
    LoadFrom(v, mem, i, x, 0)
  }

  /** Loading back a block just dumped at the same `i` with the same `x`
      gives back the register file unchanged. */
  lemma {:induction false} StoreThenLoad(mem: seq<u8>, v: seq<u8>, i: u16, x: Nibble)
    requires |mem| == MemorySize && |v| == RegisterCount && BlockInMemory(i, x)
    ensures LoadRegisters(v, StoreRegisters(mem, v, i, x), i, x) == v
  {
    var back := LoadRegisters(v, StoreRegisters(mem, v, i, x), i, x);
    assert forall k :: 0 <= k < RegisterCount ==> back[k] == v[k];
  }

  /** The three decimal cells of FX33 lie inside memory. */
  predicate DigitsInMemory(i: u16) {
    forall k :: 0 <= k < 3 ==> Add16(i, k) < MemorySize
  }

  /** FX33 as written: `b / 100` at `i`, `(b / 10) % 10` at `i + 1`, and
      `(b / 100) % 10` at `i + 2`, so the third cell repeats the hundreds
      digit instead of holding the units digit. No other cell changes. */
  function StoreDecimal(mem: seq<u8>, i: u16, b: u8): (r: seq<u8>)
    requires |mem| == MemorySize && DigitsInMemory(i)
    ensures |r| == MemorySize
    ensures r[i] == b / 100
    ensures r[Add16(i, 1)] == (b / 10) % 10
    ensures r[Add16(i, 2)] == b / 100
    ensures forall a :: 0 <= a < MemorySize && Offset(i, a) > 2 ==> r[a] == mem[a]
  {
    assert Add16(i, 0) == i;
    OffsetOfAdd(i, 1, Add16(i, 1));
    OffsetOfAdd(i, 2, Add16(i, 2));
    var m := mem[i := b / 100];
    var m := m[Add16(i, 1) := (b / 10) % 10];
    var m := m[Add16(i, 2) := (b / 100) % 10];
    forall a | 0 <= a < MemorySize && Offset(i, a) > 2
      ensures m[a] == mem[a]
    {
      OffsetOfAdd(i, 0, a);
      OffsetOfAdd(i, 1, a);
      OffsetOfAdd(i, 2, a);
    }
    m
  }

  /** The three cells hold the decimal digits of `b` exactly when its units
      digit equals its hundreds digit. */
  lemma DecimalDigitsExactlyWhen(mem: seq<u8>, i: u16, b: u8)
    requires |mem| == MemorySize && DigitsInMemory(i)
    ensures var r := StoreDecimal(mem, i, b);
      r[Add16(i, 2)] == b % 10 <==> b % 10 == b / 100
  {
  }
}
