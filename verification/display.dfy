/**
 Sprite drawing: sprite rows are read from memory at the index register and
 XORed, most significant bit first, onto the 64x32 display, whose cells are
 addressed linearly as `x + col + (y + row) * 64`. Targets at or past cell
 2048 are skipped; a target past the right edge of a line lands at the start
 of the next line. The result also reports whether a lit cell was hit.

 `DrawRows`/`DrawColumns` follow the two nested loops; `Covered` is an
 independent, closed-form description of the cells a sprite toggles, and the
 contracts of the loops say the two agree.
 */
module Display {
  import opened Words
  import opened Machine

  /** Bit `col` of a sprite row, counting from the most significant bit. */
  predicate SpriteBit(pix: u8, col: int)
    requires 0 <= col < 8
  {
    Bit(pix, 7 - col) == 1
  }

  /** Masking a byte with the single bit `2^m` leaves a nonzero value
      exactly when bit `m` of the byte is set. */
  lemma MaskSelectsBit(pix: u8, m: nat)
    requires m < 8
    ensures Pow2(m) < 0x100
    ensures And8(pix, Pow2(m)) != 0 <==> Bit(pix, m) == 1
  {
    var mask := Pow2(m);
    PowMono(m, 8);
    var r := And8(pix, mask);
    assert forall j :: 0 <= j < 8 ==> (Bit(r, j) == 1 <==> j == m && Bit(pix, j) == 1) by {
      forall j | 0 <= j < 8
        ensures Bit(mask, j) == if j == m then 1 else 0
      {
        BitOfPow2(m, j);
      }
    }
    NonzeroHasBit(r, 8);
  }

  /** `SpriteBit` is the test `pix & (0x80 >> col) != 0` of the drawing loop,
      where `0x80 >> col` is the single bit `2^(7 - col)`. */
  lemma SpriteBitIsMaskTest(pix: u8, col: int)
    requires 0 <= col < 8
    ensures Pow2(7 - col) < 0x100
    ensures SpriteBit(pix, col) <==> And8(pix, Pow2(7 - col)) != 0
  {
    MaskSelectsBit(pix, 7 - col);
  }

  /** The display cell targeted by bit `col` of sprite row `row`, computed in
      `uint16` as the Go code does. */
  function PixelIndex(x: u8, y: u8, row: Nibble, col: int): (idx: u16)
    requires 0 <= col < 8
    ensures idx == x + col + (y + row) * DisplayWidth
  {
    (x + col + (y + row) * DisplayWidth) % 0x1_0000
  }

  /** Every row the sprite reads lies inside memory (otherwise the Go code
      indexes past its memory array and panics). */
  predicate RowsReadable(i: u16, n: Nibble) {
    forall row :: 0 <= row < n ==> Add16(i, row) < MemorySize
  }

  /** Cell `k` is toggled by bits `col..7` of sprite row `row` holding `pix`. */
  predicate InRow(x: u8, y: u8, row: Nibble, pix: u8, col: int, k: int) {
    var c := k - x - (y + row) * DisplayWidth;
    0 <= col <= c < 8 && SpriteBit(pix, c)
  }

  /** Cell `k` is toggled by a row numbered `row` or later: its distance from
      the sprite origin splits into a row `d / 64` below `n` and a column
      `d % 64` below 8 whose sprite bit is set. */
  predicate CoveredFrom(mem: seq<u8>, i: u16, x: u8, y: u8, n: Nibble, row: nat, k: int)
    requires |mem| == MemorySize && RowsReadable(i, n)
  {
    var d := k - x - y * DisplayWidth;
    && row * DisplayWidth <= d
    && d % DisplayWidth < 8
    && d / DisplayWidth < n
    && SpriteBit(mem[Add16(i, d / DisplayWidth)], d % DisplayWidth)
  }

  /** The cells an `n`-row sprite at (`x`, `y`) toggles: exactly the in-range
      cells `x + col + (y + row) * 64` with `row < n`, `col < 8` and bit `col`
      of memory byte `i + row` set. */
  predicate Covered(mem: seq<u8>, i: u16, x: u8, y: u8, n: Nibble, k: int)
    requires |mem| == MemorySize && RowsReadable(i, n)
  {
    0 <= k < DisplaySize && CoveredFrom(mem, i, x, y, n, 0, k)
  }

  /** The inner loop over the bits `col..7` of one sprite row. */
  function DrawColumns(gfx: seq<u8>, hit: bool, x: u8, y: u8, row: Nibble, pix: u8, col: nat): (r: (seq<u8>, bool))
    requires |gfx| == DisplaySize && col <= 8
    ensures |r.0| == DisplaySize
    ensures forall k :: 0 <= k < DisplaySize ==>
      r.0[k] == if InRow(x, y, row, pix, col, k) then Flip(gfx[k]) else gfx[k]
    ensures r.1 <==> hit || exists k :: 0 <= k < DisplaySize && InRow(x, y, row, pix, col, k) && gfx[k] == 1
    decreases 8 - col
  {
    if col == 8 then (gfx, hit)
    else
      var idx := PixelIndex(x, y, row, col);
      if idx >= DisplaySize || !SpriteBit(pix, col) then
        DrawColumns(gfx, hit, x, y, row, pix, col + 1)
      else
        var gfx' := gfx[idx := Flip(gfx[idx])];
        var r := DrawColumns(gfx', hit || gfx[idx] == 1, x, y, row, pix, col + 1);
        assert forall k :: 0 <= k < DisplaySize && InRow(x, y, row, pix, col + 1, k) ==> gfx'[k] == gfx[k];
        r
  }

  /** Splitting the cells covered from `row` on into those of `row` itself and
      those of the later rows; no cell belongs to both. */
  lemma RowSplit(mem: seq<u8>, i: u16, x: u8, y: u8, n: Nibble, row: Nibble, k: int)
    requires |mem| == MemorySize && RowsReadable(i, n) && row < n && 0 <= k < DisplaySize
    ensures CoveredFrom(mem, i, x, y, n, row, k) <==>
      InRow(x, y, row, mem[Add16(i, row)], 0, k) || CoveredFrom(mem, i, x, y, n, row + 1, k)
    ensures !(InRow(x, y, row, mem[Add16(i, row)], 0, k) && CoveredFrom(mem, i, x, y, n, row + 1, k))
  {
    var d := k - x - y * DisplayWidth;
    var c := d - row * DisplayWidth;
    if 0 <= c < DisplayWidth {
      assert d / DisplayWidth == row;
      assert d % DisplayWidth == c;
    } else if c >= DisplayWidth {
      assert d / DisplayWidth >= row + 1;
    }
  }

  /** The outer loop over sprite rows `row..n-1`. */
  function DrawRows(gfx: seq<u8>, hit: bool, mem: seq<u8>, i: u16, x: u8, y: u8, n: Nibble, row: nat): (r: (seq<u8>, bool))
    requires |gfx| == DisplaySize && |mem| == MemorySize && RowsReadable(i, n) && row <= n
    ensures |r.0| == DisplaySize
    ensures forall k :: 0 <= k < DisplaySize ==>
      r.0[k] == if CoveredFrom(mem, i, x, y, n, row, k) then Flip(gfx[k]) else gfx[k]
    ensures r.1 <==> hit || exists k :: 0 <= k < DisplaySize && CoveredFrom(mem, i, x, y, n, row, k) && gfx[k] == 1
    decreases n - row
  {
    if row == n then
      assert forall k :: !CoveredFrom(mem, i, x, y, n, row, k);
      (gfx, hit)
    else
      var pix := mem[Add16(i, row)];
      var r1 := DrawColumns(gfx, hit, x, y, row, pix, 0);
      var r := DrawRows(r1.0, r1.1, mem, i, x, y, n, row + 1);
      assert forall k :: 0 <= k < DisplaySize ==>
        (CoveredFrom(mem, i, x, y, n, row, k) <==> InRow(x, y, row, pix, 0, k) || CoveredFrom(mem, i, x, y, n, row + 1, k))
        && !(InRow(x, y, row, pix, 0, k) && CoveredFrom(mem, i, x, y, n, row + 1, k))
      by {
        forall k | 0 <= k < DisplaySize {
          RowSplit(mem, i, x, y, n, row, k);
        }
      }
      r
  }

  /** Draws an `n`-row sprite read from memory at `i` with its top-left corner
      at (`x`, `y`). The display changes in exactly the covered cells, each of
      which is toggled; the collision result is true exactly when some covered
      cell was lit (held 1) before the draw. */
  function DrawSprite(gfx: seq<u8>, mem: seq<u8>, i: u16, x: u8, y: u8, n: Nibble): (r: (seq<u8>, bool))
    requires |gfx| == DisplaySize && |mem| == MemorySize && RowsReadable(i, n)
    ensures |r.0| == DisplaySize
    ensures forall k :: 0 <= k < DisplaySize ==>
      r.0[k] == if Covered(mem, i, x, y, n, k) then Flip(gfx[k]) else gfx[k]
    ensures r.1 <==> exists k :: Covered(mem, i, x, y, n, k) && gfx[k] == 1
  {
    DrawRows(gfx, false, mem, i, x, y, n, 0)
  }

  /** Drawing keeps every display cell at 0 or 1. */
  lemma DrawKeepsBinary(gfx: seq<u8>, mem: seq<u8>, i: u16, x: u8, y: u8, n: Nibble)
    requires |gfx| == DisplaySize && |mem| == MemorySize && RowsReadable(i, n)
    ensures BinaryDisplay(gfx) ==> BinaryDisplay(DrawSprite(gfx, mem, i, x, y, n).0)
  {
  }

  /** Drawing the same sprite at the same place twice restores the display. */
  lemma {:induction false} DrawTwiceRestores(gfx: seq<u8>, mem: seq<u8>, i: u16, x: u8, y: u8, n: Nibble)
    requires |gfx| == DisplaySize && |mem| == MemorySize && RowsReadable(i, n)
    ensures DrawSprite(DrawSprite(gfx, mem, i, x, y, n).0, mem, i, x, y, n).0 == gfx
  {
    var once := DrawSprite(gfx, mem, i, x, y, n).0;
    var twice := DrawSprite(once, mem, i, x, y, n).0;
    forall k | 0 <= k < DisplaySize
      ensures twice[k] == gfx[k]
    {
      FlipFlip(gfx[k]);
    }
  }
}
