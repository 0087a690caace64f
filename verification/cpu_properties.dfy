/**
 Properties of single cycles and of pairs of cycles: the flag conventions of
 the 8XY_ family, counter movement of jumps and skips, the call/return and
 dump/load round trips, sprite drawing through the cycle, and the words no
 case of the dispatch matches.
 */
module CpuProperties {
  import opened Words
  import opened Machine
  import opened Opcodes
  import opened Cpu
  import Display
  import Transfer

  /** Every register other than those in `written` is unchanged from `s` to `t`. */
  predicate OtherRegistersKept(s: Chip8, t: Chip8, written: set<int>)
    requires s.Valid() && t.Valid()
  {
    forall k :: 0 <= k < RegisterCount && k !in written ==> t.v[k] == s.v[k]
  }

  // ----- The 8XY_ family -----

  /** 8XY4 with neither operand VF: VF = 1 exactly when the sum exceeds 255
      (else 0), and `v[x]` holds the sum modulo 256. */
  lemma AddRegCarry(s: Chip8, r: u8, x: Nibble, y: Nibble)
    requires Runnable(s, r) && Decode(Fetch(s)) == AddReg(x, y) && x != Flag && y != Flag
    ensures var t := Step(s, r);
      && (t.v[Flag] == 1 <==> s.v[x] as int + s.v[y] > 255)
      && (t.v[Flag] == 0 <==> s.v[x] as int + s.v[y] <= 255)
      && t.v[x] == (s.v[x] as int + s.v[y]) % 256
      && OtherRegistersKept(s, t, {x, Flag})
      && t.pc == s.pc + 2
  {
  }

  /** 8XY5 with neither operand VF: VF = 0 exactly when `v[y] > v[x]` (a
      borrow), else 1, and `v[x]` holds the difference modulo 256. */
  lemma SubRegBorrow(s: Chip8, r: u8, x: Nibble, y: Nibble)
    requires Runnable(s, r) && Decode(Fetch(s)) == SubReg(x, y) && x != Flag && y != Flag
    ensures var t := Step(s, r);
      && (t.v[Flag] == 0 <==> s.v[y] > s.v[x])
      && (t.v[Flag] == 1 <==> s.v[y] <= s.v[x])
      && t.v[x] == (s.v[x] as int - s.v[y]) % 256
      && OtherRegistersKept(s, t, {x, Flag})
      && t.pc == s.pc + 2
  {
  }

  /** 8XY7 with neither operand VF: VF = 0 exactly when `v[x] > v[y]`, else 1,
      and `v[x]` holds `v[y] - v[x]` modulo 256. */
  lemma SubReverseBorrow(s: Chip8, r: u8, x: Nibble, y: Nibble)
    requires Runnable(s, r) && Decode(Fetch(s)) == SubReverse(x, y) && x != Flag && y != Flag
    ensures var t := Step(s, r);
      && (t.v[Flag] == 0 <==> s.v[x] > s.v[y])
      && (t.v[Flag] == 1 <==> s.v[x] <= s.v[y])
      && t.v[x] == (s.v[y] as int - s.v[x]) % 256
      && OtherRegistersKept(s, t, {x, Flag})
      && t.pc == s.pc + 2
  {
  }

  /** 8XY4, 8XY5 and 8XY7 when an operand is VF: the flag is written first and
      the arithmetic then reads the new flag, so with `x` = VF the result (not
      the flag) is what VF ends with, and with `y` = VF the flag is the operand. */
  lemma FlagOperandsAsWritten(s: Chip8, r: u8)
    requires Runnable(s, r)
    requires var instr := Decode(Fetch(s)); instr.AddReg? || instr.SubReg? || instr.SubReverse?
    ensures
      var instr := Decode(Fetch(s));
      var x, y := instr.x, instr.y;
      var flag :=
        if instr.AddReg? then (if s.v[x] as int + s.v[y] > 255 then 1 else 0)
        else if instr.SubReg? then (if s.v[y] > s.v[x] then 0 else 1)
        else (if s.v[x] > s.v[y] then 0 else 1);
      var a: int := if x == Flag then flag else s.v[x];
      var b: int := if y == Flag then flag else s.v[y];
      var t := Step(s, r);
      && t.v[x] == (if instr.AddReg? then (a + b) % 256 else if instr.SubReg? then (a - b) % 256 else (b - a) % 256)
      && (x != Flag ==> t.v[Flag] == flag)
      && OtherRegistersKept(s, t, {x, Flag})
  {
  }

  /** 8XY6: VF receives the bit shifted out (the old low bit) and `v[x]` is
      halved; with `x` = VF the halved value wins. `v[y]` is not read. */
  lemma ShiftRightOut(s: Chip8, r: u8, x: Nibble, y: Nibble)
    requires Runnable(s, r) && Decode(Fetch(s)) == ShiftRight(x, y)
    ensures var t := Step(s, r);
      && (x != Flag ==> t.v[Flag] == s.v[x] % 2)
      && t.v[x] == s.v[x] / 2
      && OtherRegistersKept(s, t, {x, Flag})
      && t.pc == s.pc + 2
  {
  }

  /** 8XYE: VF receives the bit shifted out (the old high bit) and `v[x]` is
      doubled modulo 256. With `x` = VF the doubling reads the new flag, so VF
      ends as twice the old high bit. */
  lemma ShiftLeftOut(s: Chip8, r: u8, x: Nibble, y: Nibble)
    requires Runnable(s, r) && Decode(Fetch(s)) == ShiftLeft(x, y)
    ensures var t := Step(s, r);
      && (x != Flag ==> t.v[Flag] == s.v[x] / 128 && t.v[x] == (2 * s.v[x] as int) % 256)
      && (x == Flag ==> t.v[Flag] == 2 * (s.v[Flag] / 128))
      && OtherRegistersKept(s, t, {x, Flag})
      && t.pc == s.pc + 2
  {
  }

  /** 6XNN loads `nn` into `v[x]` and writes no other register. */
  lemma SetImmLoads(s: Chip8, r: u8, x: Nibble, nn: u8)
    requires Runnable(s, r) && Decode(Fetch(s)) == SetImm(x, nn)
    ensures var t := Step(s, r);
      && t.v == s.v[x := nn]
      && t.pc == Add16(s.pc, 2)
  {
  }

  /** 8XY1 ORs `v[y]` into `v[x]`: every bit set in either operand is set in
      the result, and no other. VF is not touched (unless `x` is VF). */
  lemma OrRegisters(s: Chip8, r: u8, x: Nibble, y: Nibble)
    requires Runnable(s, r) && Decode(Fetch(s)) == OrReg(x, y)
    ensures var t := Step(s, r);
      && t.v[x] == Or8(s.v[x], s.v[y])
      && (forall j :: 0 <= j < 8 ==> (Bit(t.v[x], j) == 1 <==> Bit(s.v[x], j) == 1 || Bit(s.v[y], j) == 1))
      && OtherRegistersKept(s, t, {x})
      && t.pc == Add16(s.pc, 2)
  {
    var s1 := s.(drawFlag := false, opcode := Fetch(s));
    assert Step(s, r) == ExecuteRegisterWrite(s1, OrReg(x, y), r);
  }

  /** 8XY2 ANDs `v[y]` into `v[x]`: a bit is set in the result exactly when it
      is set in both operands. VF is not touched (unless `x` is VF). */
  lemma AndRegisters(s: Chip8, r: u8, x: Nibble, y: Nibble)
    requires Runnable(s, r) && Decode(Fetch(s)) == AndReg(x, y)
    ensures var t := Step(s, r);
      && t.v[x] == And8(s.v[x], s.v[y])
      && (forall j :: 0 <= j < 8 ==> (Bit(t.v[x], j) == 1 <==> Bit(s.v[x], j) == 1 && Bit(s.v[y], j) == 1))
      && OtherRegistersKept(s, t, {x})
      && t.pc == Add16(s.pc, 2)
  {
    var s1 := s.(drawFlag := false, opcode := Fetch(s));
    assert Step(s, r) == ExecuteRegisterWrite(s1, AndReg(x, y), r);
  }

  /** 8XY3 XORs `v[y]` into `v[x]`: a bit is set in the result exactly when the
      operands differ there. VF is not touched (unless `x` is VF). */
  lemma XorRegisters(s: Chip8, r: u8, x: Nibble, y: Nibble)
    requires Runnable(s, r) && Decode(Fetch(s)) == XorReg(x, y)
    ensures var t := Step(s, r);
      && t.v[x] == Xor8(s.v[x], s.v[y])
      && (forall j :: 0 <= j < 8 ==> (Bit(t.v[x], j) == 1 <==> Bit(s.v[x], j) != Bit(s.v[y], j)))
      && OtherRegistersKept(s, t, {x})
      && t.pc == Add16(s.pc, 2)
  {
    var s1 := s.(drawFlag := false, opcode := Fetch(s));
    assert Step(s, r) == ExecuteRegisterWrite(s1, XorReg(x, y), r);
  }

  /** 8XY0 copies `v[x]` into `v[y]` (the reverse of the reference's direction);
      `v[x]` and every other register keep their values. */
  lemma MoveCopiesXIntoY(s: Chip8, r: u8, x: Nibble, y: Nibble)
    requires Runnable(s, r) && Decode(Fetch(s)) == Move(x, y)
    ensures var t := Step(s, r);
      && t.v[y] == s.v[x]
      && t.v[x] == s.v[x]
      && OtherRegistersKept(s, t, {y})
  {
  }

  /** 7XNN adds without touching the flag register (unless `x` is VF). */
  lemma AddImmNoCarry(s: Chip8, r: u8, x: Nibble, nn: u8)
    requires Runnable(s, r) && Decode(Fetch(s)) == AddImm(x, nn)
    ensures var t := Step(s, r);
      && t.v[x] == (s.v[x] as int + nn) % 256
      && OtherRegistersKept(s, t, {x})
  {
  }

  /** CXNN stores the random byte masked by `nn`; since the random byte is
      below 255, the register never receives 255. */
  lemma RandomMasked(s: Chip8, r: u8, x: Nibble, nn: u8)
    requires Runnable(s, r) && Decode(Fetch(s)) == Random(x, nn)
    ensures var t := Step(s, r);
      && t.v[x] == And8(r, nn)
      && t.v[x] != 255
      && OtherRegistersKept(s, t, {x})
  {
    var s1 := s.(drawFlag := false, opcode := Fetch(s));
    assert Step(s, r) == ExecuteRegisterWrite(s1, Random(x, nn), r);
  }

  // ----- Counter movement -----

  /** The condition each skip instruction tests. */
  predicate SkipCondition(s: Chip8, instr: Instr)
    requires s.Valid() && CanExecute(s, instr)
  {
    match instr
    case SkipIfEqualImm(x, nn) => s.v[x] == nn
    case SkipIfNotEqualImm(x, nn) => s.v[x] != nn
    case SkipIfEqualReg(x, y) => s.v[x] == s.v[y]
    case SkipIfNotEqualReg(x, y) => s.v[x] != s.v[y]
    case SkipIfKey(x) => s.key[s.v[x]] == 1
    case SkipIfNotKey(x) => s.key[s.v[x]] == 0
    case _ => false
  }

  predicate IsSkip(instr: Instr) {
    || instr.SkipIfEqualImm? || instr.SkipIfNotEqualImm? || instr.SkipIfEqualReg?
    || instr.SkipIfNotEqualReg? || instr.SkipIfKey? || instr.SkipIfNotKey?
  }

  /** A skip advances the counter by 4 when its condition holds and by 2
      otherwise, and writes no register. EX9E also zeroes the tested latch,
      but only when the test succeeds; no other latch changes. */
  lemma SkipAdvance(s: Chip8, r: u8)
    requires Runnable(s, r) && IsSkip(Decode(Fetch(s)))
    ensures var instr := Decode(Fetch(s)); var t := Step(s, r);
      && t.pc == s.pc + (if SkipCondition(s, instr) then 4 else 2)
      && t.v == s.v
      && (instr.SkipIfKey? && SkipCondition(s, instr) ==> t.key == s.key[s.v[instr.x] := 0])
      && (!(instr.SkipIfKey? && SkipCondition(s, instr)) ==> t.key == s.key)
  {
  }

  /** 1NNN sets the counter to `nnn` with no further advance. */
  lemma JumpSetsCounter(s: Chip8, r: u8, nnn: Addr)
    requires Runnable(s, r) && Decode(Fetch(s)) == Jump(nnn)
    ensures Step(s, r).pc == nnn
  {
  }

  /** BNNN as written: the counter becomes `nnn + v[0]` and then advances by
      a further 2. */
  lemma JumpOffsetAdvancesPastTarget(s: Chip8, r: u8, nnn: Addr)
    requires Runnable(s, r) && Decode(Fetch(s)) == JumpOffset(nnn)
    ensures Step(s, r).pc == nnn + s.v[0] + 2
  {
  }

  /** Every instruction other than jumps, calls, returns, skips and a waiting
      FX0A moves the counter to the next instruction. */
  lemma SequentialAdvance(s: Chip8, r: u8)
    requires Runnable(s, r)
    requires var instr := Decode(Fetch(s));
      !IsSkip(instr) && !instr.Jump? && !instr.JumpOffset? && !instr.Call? && !instr.Return?
      && !instr.WaitKey? && !instr.Unknown?
    ensures Step(s, r).pc == s.pc + 2
  {
  }

  // ----- Subroutines -----

  /** A call pushes the address of the call itself one slot above `sp` and
      jumps; the return that follows it pops that address, resumes after the
      call, and restores the stack pointer. The stack keeps the pushed entry. */
  lemma {:induction false} CallThenReturn(s: Chip8, r1: u8, r2: u8, nnn: Addr)
    requires Runnable(s, r1) && Decode(Fetch(s)) == Call(nnn)
    requires Runnable(Step(s, r1), r2) && Decode(Fetch(Step(s, r1))) == Return
    ensures var c := Step(s, r1); var top := Add16(s.sp, 1);
      && c.sp == top && c.stack[top] == s.pc && c.pc == nnn
      && (forall k :: 0 <= k < StackDepth && k != top ==> c.stack[k] == s.stack[k])
    ensures var t := Step(Step(s, r1), r2);
      && t.pc == Add16(s.pc, 2)
      && t.sp == s.sp
      && t.stack == s.stack[Add16(s.sp, 1) := s.pc]
      && t.v == s.v && t.i == s.i && t.memory == s.memory && t.gfx == s.gfx && t.key == s.key
  {
    var c := Step(s, r1);
    assert c.sp == Add16(s.sp, 1);
    assert c.stack[c.sp] == s.pc;
  }

  /** From the initial stack pointer 0 a call never uses slot 0. */
  lemma CallSkipsSlotZero(s: Chip8, r: u8, nnn: Addr)
    requires Runnable(s, r) && Decode(Fetch(s)) == Call(nnn) && s.sp == 0
    ensures Step(s, r).sp == 1 && Step(s, r).stack[1] == s.pc && Step(s, r).stack[0] == s.stack[0]
  {
  }

  /** 2NNN increments the stack pointer, stores the address of the call itself
      in the new top slot (leaving every other slot alone) and jumps to `nnn`. */
  lemma CallPushes(s: Chip8, r: u8, nnn: Addr)
    requires Runnable(s, r) && Decode(Fetch(s)) == Call(nnn)
    ensures var t := Step(s, r); var top := Add16(s.sp, 1);
      && t.sp == top
      && t.stack == s.stack[top := s.pc]
      && t.pc == nnn
  {
  }

  /** 00EE resumes 2 past the address in slot `sp`, decrements the stack
      pointer in `uint16` and leaves the slots themselves alone. */
  lemma ReturnPops(s: Chip8, r: u8)
    requires Runnable(s, r) && Decode(Fetch(s)) == Return
    ensures s.sp < StackDepth
    ensures var t := Step(s, r);
      && t.pc == Add16(s.stack[s.sp], 2)
      && t.sp == Dec16(s.sp)
      && t.stack == s.stack
  {
  }

  /** A return at stack pointer 0 does not fault: the pointer wraps to 65535. */
  lemma ReturnUnderflowWraps(s: Chip8, r: u8)
    requires Runnable(s, r) && Decode(Fetch(s)) == Return && s.sp == 0
    ensures Step(s, r).sp == 0xFFFF
    ensures Step(s, r).pc == Add16(s.stack[0], 2)
  {
  }

  // ----- Index register and memory transfers -----

  /** ANNN loads `nnn` into the index register and writes no register. */
  lemma SetIndexLoads(s: Chip8, r: u8, nnn: Addr)
    requires Runnable(s, r) && Decode(Fetch(s)) == SetIndex(nnn)
    ensures var t := Step(s, r);
      && t.i == nnn
      && t.v == s.v
      && t.pc == Add16(s.pc, 2)
  {
  }

  /** FX1E adds `v[x]` to the index register modulo 65536 and sets no flag. */
  lemma AddIndexWraps(s: Chip8, r: u8, x: Nibble)
    requires Runnable(s, r) && Decode(Fetch(s)) == AddIndex(x)
    ensures Step(s, r).i == (s.i + s.v[x]) % 0x1_0000
    ensures Step(s, r).v == s.v
  {
  }

  /** FX29 multiplies the whole of `v[x]` by 5, so a value of 16 or more points
      past the glyph table. */
  lemma FontCharWholeRegister(s: Chip8, r: u8, x: Nibble)
    requires Runnable(s, r) && Decode(Fetch(s)) == FontChar(x)
    ensures Step(s, r).i == 5 * s.v[x] as int
    ensures s.v[x] >= 16 ==> Step(s, r).i >= |FontSet|
  {
  }

  /** FX33 as written stores the hundreds digit twice: at `i` and at `i + 2`. */
  lemma BcdAsWritten(s: Chip8, r: u8, x: Nibble)
    requires Runnable(s, r) && Decode(Fetch(s)) == Bcd(x)
    ensures var t := Step(s, r);
      && t.memory[Add16(s.i, 0)] == s.v[x] / 100
      && t.memory[Add16(s.i, 1)] == (s.v[x] / 10) % 10
      && t.memory[Add16(s.i, 2)] == s.v[x] / 100
      && (forall a :: 0 <= a < MemorySize && Offset(s.i, a) > 2 ==> t.memory[a] == s.memory[a])
  {
  }

  /** FX55 writes `v[k]` to `memory[i + k]` for every `k <= x` and changes no
      other cell, no register and not `i`. */
  lemma StoreRegsWrites(s: Chip8, r: u8, x: Nibble)
    requires Runnable(s, r) && Decode(Fetch(s)) == StoreRegs(x)
    ensures var t := Step(s, r);
      && (forall k :: 0 <= k <= x ==> t.memory[Add16(s.i, k)] == s.v[k])
      && (forall a :: 0 <= a < MemorySize && Offset(s.i, a) > x ==> t.memory[a] == s.memory[a])
      && t.i == s.i && t.v == s.v
  {
  }

  /** FX65 reads `memory[i + k]` into `v[k]` for every `k <= x`, keeps the
      registers above `x`, and changes neither `i` nor memory. */
  lemma LoadRegsReads(s: Chip8, r: u8, x: Nibble)
    requires Runnable(s, r) && Decode(Fetch(s)) == LoadRegs(x)
    ensures var t := Step(s, r);
      && (forall k :: 0 <= k <= x ==> t.v[k] == s.memory[Add16(s.i, k)])
      && (forall k :: x < k < RegisterCount ==> t.v[k] == s.v[k])
      && t.i == s.i && t.memory == s.memory
  {
  }

  /** FX55 followed by FX65 with the same `x` leaves every register as it was. */
  lemma {:induction false} StoreThenLoadRegisters(s: Chip8, r1: u8, r2: u8, x: Nibble)
    requires Runnable(s, r1) && Decode(Fetch(s)) == StoreRegs(x)
    requires Runnable(Step(s, r1), r2) && Decode(Fetch(Step(s, r1))) == LoadRegs(x)
    ensures Step(Step(s, r1), r2).v == s.v
    ensures Step(Step(s, r1), r2).memory == Step(s, r1).memory
  {
    Transfer.StoreThenLoad(s.memory, s.v, s.i, x);
  }

  // ----- Display -----

  /** 00E0 blanks the display, raises the draw flag and advances. */
  lemma ClearScreenBlanks(s: Chip8, r: u8)
    requires Runnable(s, r) && Decode(Fetch(s)) == ClearScreen
    ensures var t := Step(s, r);
      && (forall k :: 0 <= k < DisplaySize ==> t.gfx[k] == 0)
      && t.drawFlag && t.pc == s.pc + 2
  {
  }

  /** DXYN toggles exactly the covered cells of the sprite at (`v[x]`, `v[y]`),
      sets VF to 1 when a covered cell was lit and to 0 otherwise, raises the
      draw flag and advances. */
  lemma DrawThroughCycle(s: Chip8, r: u8, x: Nibble, y: Nibble, n: Nibble)
    requires Runnable(s, r) && Decode(Fetch(s)) == Draw(x, y, n)
    ensures var t := Step(s, r);
      && (forall k :: 0 <= k < DisplaySize ==>
            t.gfx[k] == if Display.Covered(s.memory, s.i, s.v[x], s.v[y], n, k) then Flip(s.gfx[k]) else s.gfx[k])
      && (t.v[Flag] == 1 <==> exists k :: Display.Covered(s.memory, s.i, s.v[x], s.v[y], n, k) && s.gfx[k] == 1)
      && (t.v[Flag] == 0 <==> !exists k :: Display.Covered(s.memory, s.i, s.v[x], s.v[y], n, k) && s.gfx[k] == 1)
      && OtherRegistersKept(s, t, {Flag})
      && t.drawFlag && t.pc == s.pc + 2
  {
  }

  // ----- Timers -----

  /** FX07 copies the delay timer into `v[x]` and writes no other register. */
  lemma GetDelayReads(s: Chip8, r: u8, x: Nibble)
    requires Runnable(s, r) && Decode(Fetch(s)) == GetDelay(x)
    ensures var t := Step(s, r);
      && t.v == s.v[x := s.delayTimer]
      && t.delayTimer == s.delayTimer
      && t.pc == Add16(s.pc, 2)
  {
  }

  /** FX15 and FX18 set the delay resp. sound timer to `v[x]`; the other
      timer and the registers are kept. */
  lemma SetTimers(s: Chip8, r: u8)
    requires Runnable(s, r)
    requires var instr := Decode(Fetch(s)); instr.SetDelay? || instr.SetSound?
    ensures
      var instr := Decode(Fetch(s));
      var t := Step(s, r);
      && t.delayTimer == (if instr.SetDelay? then s.v[instr.x] else s.delayTimer)
      && t.soundTimer == (if instr.SetSound? then s.v[instr.x] else s.soundTimer)
      && t.v == s.v
      && t.pc == Add16(s.pc, 2)
  {
  }

  // ----- Keys -----

  /** FX0A with no latch set leaves the counter where it is (the instruction
      repeats) but still zeroes the latch indexed by `v[x]`. */
  lemma WaitKeyWaits(s: Chip8, r: u8, x: Nibble)
    requires Runnable(s, r) && Decode(Fetch(s)) == WaitKey(x)
    requires forall k :: 0 <= k < KeyCount ==> s.key[k] == 0
    ensures var t := Step(s, r);
      && t.pc == s.pc && t.v == s.v && t.key == s.key[s.v[x] := 0]
  {
  }

  /** FX0A with some latch set stores the lowest such latch index in `v[x]`,
      zeroes that latch and advances. */
  lemma WaitKeyTakesFirst(s: Chip8, r: u8, x: Nibble, k: Nibble)
    requires Runnable(s, r) && Decode(Fetch(s)) == WaitKey(x)
    requires s.key[k] != 0 && forall j :: 0 <= j < k ==> s.key[j] == 0
    ensures var t := Step(s, r);
      && t.v == s.v[x := k] && t.key == s.key[k := 0] && t.pc == s.pc + 2
  {
    assert FirstPressed(s.key, 0) == Some(k);
  }

  // ----- Words no case matches -----

  /** A word no case matches changes nothing but the draw flag (cleared) and
      the recorded instruction word. */
  lemma UnknownIsNoOp(s: Chip8, r: u8)
    requires Runnable(s, r) && IsUnknown(Fetch(s))
    ensures Step(s, r) == s.(drawFlag := false, opcode := Fetch(s))
  {
    DecodeUnknown(Fetch(s));
  }
}
