/**
 Concrete runs: booting a two-byte program, drawing a full sprite row twice,
 a sprite row spilling past the right edge, the decimal store of 234, and the
 program-size boundary.
 */
module Scenarios {
  import opened Words
  import opened Machine
  import opened Opcodes
  import opened Cpu
  import Display
  import Transfer

  /** Booting the program 00E0 and running one cycle: the display is blank,
      the draw flag is raised and the counter is at 0x202. */
  lemma BootAndClear(r: u8)
    requires r < 255
    ensures New([0x00, 0xE0]).Ok?
    ensures var s := New([0x00, 0xE0]).value;
      && Fetch(s) == 0x00E0
      && Runnable(s, r)
      && var t := Step(s, r);
      && (forall k :: 0 <= k < DisplaySize ==> t.gfx[k] == 0)
      && t.drawFlag
      && t.pc == 0x202
  {
    var s := New([0x00, 0xE0]).value;
    assert s.memory[ProgramStart] == 0x00 && s.memory[ProgramStart + 1] == 0xE0;
    assert Decode(Fetch(s)) == ClearScreen;
  }

  /** A one-row sprite 0xFF at (0, 0) on a blank display lights cells 0-7 of
      the top line with no collision; drawing it again blanks them and reports
      a collision. */
  lemma FullRowTwice(mem: seq<u8>, i: u16)
    requires |mem| == MemorySize && i < MemorySize && mem[i] == 0xFF
    ensures Display.RowsReadable(i, 1)
    ensures
      var blank := seq(DisplaySize, _ => 0);
      var first := Display.DrawSprite(blank, mem, i, 0, 0, 1);
      var second := Display.DrawSprite(first.0, mem, i, 0, 0, 1);
      && (forall k :: 0 <= k < DisplaySize ==> first.0[k] == if k < 8 then 1 else 0)
      && !first.1
      && second.0 == blank
      && second.1
  {
    assert Add16(i, 0) == i;
    var blank := seq(DisplaySize, _ => 0);
    forall k | 0 <= k < DisplaySize
      ensures Display.Covered(mem, i, 0, 0, 1, k) <==> k < 8
    {
      if k < 8 {
        assert k / DisplayWidth == 0 && k % DisplayWidth == k;
        assert Display.SpriteBit(0xFF, k) by {
          AllOnesBits(8, 7 - k);
        }
      }
    }
    var first := Display.DrawSprite(blank, mem, i, 0, 0, 1);
    Display.DrawTwiceRestores(blank, mem, i, 0, 0, 1);
    assert Display.Covered(mem, i, 0, 0, 1, 0) && first.0[0] == 1;
  }

  /** A one-row sprite 0xFF at (60, 0) runs past the right edge: its last
      four bits land at the start of the second line (cells 64-67), not at
      the start of the first. */
  lemma SpillsIntoNextLine(mem: seq<u8>, i: u16)
    requires |mem| == MemorySize && i < MemorySize && mem[i] == 0xFF
    ensures Display.RowsReadable(i, 1)
    ensures forall k :: 0 <= k < DisplaySize ==>
      (Display.Covered(mem, i, 60, 0, 1, k) <==> 60 <= k < 68)
  {
    assert Add16(i, 0) == i;
    forall k | 0 <= k < DisplaySize
      ensures Display.Covered(mem, i, 60, 0, 1, k) <==> 60 <= k < 68
    {
      var d := k - 60;
      if 60 <= k < 68 {
        assert d / DisplayWidth == 0 && d % DisplayWidth == d;
        assert Display.SpriteBit(0xFF, d) by {
          AllOnesBits(8, 7 - d);
        }
      }
    }
  }

  /** The decimal store of 234 as written leaves 2, 3, 2 (not 2, 3, 4). */
  lemma DecimalOf234(mem: seq<u8>, i: u16)
    requires |mem| == MemorySize && Transfer.DigitsInMemory(i)
    ensures var r := Transfer.StoreDecimal(mem, i, 234);
      r[Add16(i, 0)] == 2 && r[Add16(i, 1)] == 3 && r[Add16(i, 2)] == 2
  {
  }

  /** An image of 3583 bytes loads; one of 3584 bytes is refused. */
  lemma RomSizeBoundary()
    ensures New(seq(MaxRomSize, _ => 0)).Ok?
    ensures New(seq(MaxRomSize + 1, _ => 0)) == Err(RomTooLarge)
  {
  }
}
