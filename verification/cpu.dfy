/**
 One fetch-decode-execute cycle. The cycle clears the draw flag, fetches and
 records the instruction word, decodes it and applies the instruction. The
 Go code panics where it indexes past an array; those situations are the
 preconditions collected in `CanExecute`. The random byte of CXNN is a
 parameter: the Go code draws it with `rand.Intn(255)`, so it is below 255.
 */
module Cpu {
  import opened Words
  import opened Machine
  import opened Opcodes
  import Display
  import Transfer

  /** The program counter after a skip instruction: past the next instruction
      when the condition holds, otherwise to the next instruction. */
  function SkipIf(pc: u16, cond: bool): (r: u16)
    ensures r == Add16(pc, if cond then 4 else 2)
    ensures r == pc + (if cond then 4 else 2) || r < 4
  {
    if cond then Add16(Add16(pc, 2), 2) else Add16(pc, 2)
  }

  /** The index of the first latch at or after `k` that is not zero. */
  function FirstPressed(key: seq<u8>, k: nat): (r: Option<Nibble>)
    requires |key| == KeyCount && k <= KeyCount
    ensures r.Some? ==> k <= r.value && key[r.value] != 0 && forall j :: k <= j < r.value ==> key[j] == 0
    ensures r.None? ==> forall j :: k <= j < KeyCount ==> key[j] == 0
    decreases KeyCount - k
  {
    if k == KeyCount then None
    else if key[k] != 0 then Some(k)
    else FirstPressed(key, k + 1)
  }

  /** The instructions that index an array with a value read from the state:
      the stack through `SP`, memory through `I`, the key latches through `VX`. */
  predicate IndexesThroughState(instr: Instr) {
    || instr.Return? || instr.Call? || instr.Draw? || instr.SkipIfKey? || instr.SkipIfNotKey?
    || instr.WaitKey? || instr.Bcd? || instr.StoreRegs? || instr.LoadRegs?
  }

  /** The conditions under which the Go code does not panic while executing
      `instr`: every array index it computes is in range. Only the nine
      instructions that index an array through the state can fail it, and
      those pass whenever the indexed block lies inside its array without
      wrapping. */
  predicate CanExecute(s: Chip8, instr: Instr)
    requires s.Valid()
    ensures !IndexesThroughState(instr) ==> CanExecute(s, instr)
    ensures instr.WaitKey? && (exists k :: 0 <= k < KeyCount && s.key[k] != 0) ==> CanExecute(s, instr)
    ensures instr.Draw? && s.i + instr.n <= MemorySize ==> CanExecute(s, instr)
    ensures instr.Bcd? && s.i + 3 <= MemorySize ==> CanExecute(s, instr)
    ensures (instr.StoreRegs? || instr.LoadRegs?) && s.i + instr.x < MemorySize ==> CanExecute(s, instr)
  {
    match instr
    case Return => s.sp < StackDepth
    case Call(_) => Add16(s.sp, 1) < StackDepth
    case Draw(_, _, n) => Display.RowsReadable(s.i, n)
    case SkipIfKey(x) => s.v[x] < KeyCount
    case SkipIfNotKey(x) => s.v[x] < KeyCount
    case WaitKey(x) => FirstPressed(s.key, 0).Some? || s.v[x] < KeyCount
    case Bcd(_) => Transfer.DigitsInMemory(s.i)
    case StoreRegs(x) => Transfer.BlockInMemory(s.i, x)
    case LoadRegs(x) => Transfer.BlockInMemory(s.i, x)
    case _ => true
  }

  /** The instruction at `pc` can be fetched and executed with random byte `r`. */
  predicate Runnable(s: Chip8, r: u8) {
    && s.Valid()
    && s.pc + 1 < MemorySize
    && r < 255
    && CanExecute(s, Decode(Fetch(s)))
  }

  /** The effect of one instruction on a state whose draw flag is already
      cleared and whose instruction word is already recorded. The instruction
      table is split into four groups; each group keeps the state valid and
      writes only the parts in its instructions' footprints. */
  function Execute(s: Chip8, instr: Instr, r: u8): (t: Chip8)
    requires s.Valid() && CanExecute(s, instr)
    ensures t.Valid()
    ensures t.opcode == s.opcode
    ensures forall p :: p !in Footprint(instr) ==> Agree(s, t, p)
    ensures t.drawFlag <==> s.drawFlag || instr.ClearScreen? || instr.Draw?
    ensures BinaryDisplay(s.gfx) ==> BinaryDisplay(t.gfx)
  {
    if IsControl(instr) then ExecuteControl(s, instr)
    else if IsRegisterWrite(instr) then ExecuteRegisterWrite(s, instr, r)
    else if IsFlagged(instr) then ExecuteFlagged(s, instr)
    else if IsIndexed(instr) then ExecuteIndexed(s, instr)
    else ExecuteDevice(s, instr)
  }

  /** Display-clear, unknown words and the instructions that only move the counter and the stack. */
  predicate IsControl(instr: Instr) {
    || instr.ClearScreen? || instr.Return? || instr.Jump? || instr.Call? || instr.JumpOffset?
    || instr.SkipIfEqualImm? || instr.SkipIfNotEqualImm? || instr.SkipIfEqualReg? || instr.SkipIfNotEqualReg?
    || instr.Unknown?
  }

  function ExecuteControl(s: Chip8, instr: Instr): (t: Chip8)
    requires s.Valid() && CanExecute(s, instr) && IsControl(instr)
    ensures t.Valid()
    ensures t.opcode == s.opcode
    ensures forall p :: p !in Footprint(instr) ==> Agree(s, t, p)
    ensures t.drawFlag <==> s.drawFlag || instr.ClearScreen?
    ensures BinaryDisplay(s.gfx) ==> BinaryDisplay(t.gfx)
  {
    match instr
    case ClearScreen => s.(gfx := seq(DisplaySize, _ => 0), drawFlag := true, pc := Add16(s.pc, 2))
    case Return => s.(pc := Add16(s.stack[s.sp], 2), sp := Dec16(s.sp))
    case Jump(nnn) => s.(pc := nnn)
    case Call(nnn) =>
      var sp := Add16(s.sp, 1);
      s.(sp := sp, stack := s.stack[sp := s.pc], pc := nnn)
    case JumpOffset(nnn) => s.(pc := Add16(Add16(nnn, s.v[0]), 2))
    case SkipIfEqualImm(x, nn) => s.(pc := SkipIf(s.pc, s.v[x] == nn))
    case SkipIfNotEqualImm(x, nn) => s.(pc := SkipIf(s.pc, s.v[x] != nn))
    case SkipIfEqualReg(x, y) => s.(pc := SkipIf(s.pc, s.v[x] == s.v[y]))
    case SkipIfNotEqualReg(x, y) => s.(pc := SkipIf(s.pc, s.v[x] != s.v[y]))
    case Unknown(_) => s
  }

  /** The instructions that compute into a register: immediates, the 8XY_ family and CXNN. */
  predicate IsArithmetic(instr: Instr) {
    IsRegisterWrite(instr) || IsFlagged(instr)
  }

  /** The arithmetic instructions that write one register and leave VF alone
      (unless VF is that register). */
  predicate IsRegisterWrite(instr: Instr) {
    || instr.SetImm? || instr.AddImm? || instr.Move? || instr.OrReg? || instr.AndReg? || instr.XorReg?
    || instr.Random?
  }

  /** The arithmetic instructions that report a carry, borrow or shifted-out bit in VF. */
  predicate IsFlagged(instr: Instr) {
    instr.AddReg? || instr.SubReg? || instr.ShiftRight? || instr.SubReverse? || instr.ShiftLeft?
  }

  /** The register an arithmetic instruction computes into: `VX`, except for
      8XY0, which the Go code writes into `VY`. */
  function Target(instr: Instr): Nibble
    requires IsArithmetic(instr)
  {
    if instr.Move? then instr.y else instr.x
  }

  /** 6XNN, 7XNN, 8XY0-8XY3 and CXNN change the target register and nothing
      else, and advance the counter by 2. */
  function ExecuteRegisterWrite(s: Chip8, instr: Instr, r: u8): (t: Chip8)
    requires s.Valid() && IsRegisterWrite(instr)
    ensures t.Valid()
    ensures t == s.(v := s.v[Target(instr) := t.v[Target(instr)]], pc := Add16(s.pc, 2))
  {
    var next := Add16(s.pc, 2);
    match instr
    case SetImm(x, nn) => s.(v := s.v[x := nn], pc := next)
    case AddImm(x, nn) => s.(v := s.v[x := (s.v[x] as int + nn) % 0x100], pc := next)
    case Move(x, y) => s.(v := s.v[y := s.v[x]], pc := next)
    case OrReg(x, y) => s.(v := s.v[x := Or8(s.v[x], s.v[y])], pc := next)
    case AndReg(x, y) => s.(v := s.v[x := And8(s.v[x], s.v[y])], pc := next)
    case XorReg(x, y) => s.(v := s.v[x := Xor8(s.v[x], s.v[y])], pc := next)
    case Random(x, nn) => s.(v := s.v[x := And8(r, nn)], pc := next)
  }

  /** 8XY4-8XY7 and 8XYE happen in the Go code's order: VF is written first,
      and the result is then computed from the updated registers (which
      matters when `x` or `y` is 0xF). Only `VX` and VF change, and unless
      `VX` is VF itself the flag ends as 0 or 1. */
  function ExecuteFlagged(s: Chip8, instr: Instr): (t: Chip8)
    requires s.Valid() && IsFlagged(instr)
    ensures t.Valid()
    ensures t == s.(v := t.v, pc := Add16(s.pc, 2))
    ensures forall k :: 0 <= k < RegisterCount && k != Flag && k != instr.x ==> t.v[k] == s.v[k]
    ensures instr.x != Flag ==> t.v[Flag] <= 1
  {
    var next := Add16(s.pc, 2);
    match instr
    case AddReg(x, y) =>
      var v1 := s.v[Flag := if s.v[y] > 0xFF - s.v[x] then 1 else 0];
      s.(v := v1[x := (v1[x] as int + v1[y]) % 0x100], pc := next)
    case SubReg(x, y) =>
      var v1 := s.v[Flag := if s.v[y] > s.v[x] then 0 else 1];
      s.(v := v1[x := (v1[x] as int - v1[y]) % 0x100], pc := next)
    case ShiftRight(x, _) =>
      var vx := s.v[x];
      var v1 := s.v[Flag := vx % 2];
      s.(v := v1[x := vx / 2], pc := next)
    case SubReverse(x, y) =>
      var v1 := s.v[Flag := if s.v[x] > s.v[y] then 0 else 1];
      s.(v := v1[x := (v1[y] as int - v1[x]) % 0x100], pc := next)
    case ShiftLeft(x, _) =>
      var v1 := s.v[Flag := s.v[x] / 0x80];
      s.(v := v1[x := (v1[x] as int * 2) % 0x100], pc := next)
  }

  /** The instructions that set the index register or move data through it. */
  predicate IsIndexed(instr: Instr) {
    instr.SetIndex? || instr.AddIndex? || instr.FontChar? || instr.Bcd? || instr.StoreRegs? || instr.LoadRegs?
  }

  function ExecuteIndexed(s: Chip8, instr: Instr): (t: Chip8)
    requires s.Valid() && CanExecute(s, instr) && IsIndexed(instr)
    ensures t.Valid()
    ensures t == s.(i := t.i, memory := t.memory, v := t.v, pc := Add16(s.pc, 2))
    ensures !(instr.Bcd? || instr.StoreRegs?) ==> t.memory == s.memory
    ensures !instr.LoadRegs? ==> t.v == s.v
    ensures !(instr.SetIndex? || instr.AddIndex? || instr.FontChar?) ==> t.i == s.i
  {
    var next := Add16(s.pc, 2);
    match instr
    case SetIndex(nnn) => s.(i := nnn, pc := next)
    case AddIndex(x) => s.(i := Add16(s.i, s.v[x]), pc := next)
    case FontChar(x) => s.(i := (s.v[x] as int * 5) % 0x1_0000, pc := next)
    case Bcd(x) => s.(memory := Transfer.StoreDecimal(s.memory, s.i, s.v[x]), pc := next)
    case StoreRegs(x) => s.(memory := Transfer.StoreRegisters(s.memory, s.v, s.i, x), pc := next)
    case LoadRegs(x) => s.(v := Transfer.LoadRegisters(s.v, s.memory, s.i, x), pc := next)
  }

  /** The rest: drawing, the key latches and the timers. */
  function ExecuteDevice(s: Chip8, instr: Instr): (t: Chip8)
    requires s.Valid() && CanExecute(s, instr)
    requires !IsControl(instr) && !IsArithmetic(instr) && !IsIndexed(instr)
    ensures t.Valid()
    ensures t.opcode == s.opcode
    ensures forall p :: p !in Footprint(instr) ==> Agree(s, t, p)
    ensures t.drawFlag <==> s.drawFlag || instr.Draw?
    ensures BinaryDisplay(s.gfx) ==> BinaryDisplay(t.gfx)
  {
    var next := Add16(s.pc, 2);
    match instr
    case Draw(x, y, n) =>
      var drawn := Display.DrawSprite(s.gfx, s.memory, s.i, s.v[x], s.v[y], n);
      Display.DrawKeepsBinary(s.gfx, s.memory, s.i, s.v[x], s.v[y], n);
      s.(gfx := drawn.0, v := s.v[Flag := if drawn.1 then 1 else 0], drawFlag := true, pc := next)
    case SkipIfKey(x) =>
      if s.key[s.v[x]] == 1 then s.(key := s.key[s.v[x] := 0], pc := SkipIf(s.pc, true))
      else s.(pc := SkipIf(s.pc, false))
    case SkipIfNotKey(x) => s.(pc := SkipIf(s.pc, s.key[s.v[x]] == 0))
    case GetDelay(x) => s.(v := s.v[x := s.delayTimer], pc := next)
    case WaitKey(x) =>
      var w := match FirstPressed(s.key, 0)
        case Some(k) => s.(v := s.v[x := k], pc := next)
        case None => s;
      w.(key := w.key[w.v[x] := 0])
    case SetDelay(x) => s.(delayTimer := s.v[x], pc := next)
    case SetSound(x) => s.(soundTimer := s.v[x], pc := next)
  }

  /** The parts of the state an instruction may write. */
  datatype Part = Memory | Registers | Index | Counter | DelayTimer | SoundTimer | Stack | StackPointer | Display | Keys

  /** Which parts each instruction may change, read off the instruction table
      rather than the interpreter: ALU and load instructions write registers,
      control transfers the counter and the stack, and so on. */
  function Footprint(instr: Instr): set<Part>
  {
    match instr
    case ClearScreen => {Display, Counter}
    case Return => {Counter, StackPointer}
    case Jump(_) => {Counter}
    case Call(_) => {Counter, Stack, StackPointer}
    case SkipIfEqualImm(_, _) => {Counter}
    case SkipIfNotEqualImm(_, _) => {Counter}
    case SkipIfEqualReg(_, _) => {Counter}
    case SkipIfNotEqualReg(_, _) => {Counter}
    case SkipIfKey(_) => {Counter, Keys}
    case SkipIfNotKey(_) => {Counter}
    case JumpOffset(_) => {Counter}
    case SetIndex(_) => {Index, Counter}
    case AddIndex(_) => {Index, Counter}
    case FontChar(_) => {Index, Counter}
    case Draw(_, _, _) => {Display, Registers, Counter}
    case WaitKey(_) => {Registers, Keys, Counter}
    case SetDelay(_) => {DelayTimer, Counter}
    case SetSound(_) => {SoundTimer, Counter}
    case Bcd(_) => {Memory, Counter}
    case StoreRegs(_) => {Memory, Counter}
    case Unknown(_) => {}
    case _ => {Registers, Counter}
  }

  /** `s` and `t` agree on part `p`. */
  predicate Agree(s: Chip8, t: Chip8, p: Part) {
    match p
    case Memory => t.memory == s.memory
    case Registers => t.v == s.v
    case Index => t.i == s.i
    case Counter => t.pc == s.pc
    case DelayTimer => t.delayTimer == s.delayTimer
    case SoundTimer => t.soundTimer == s.soundTimer
    case Stack => t.stack == s.stack
    case StackPointer => t.sp == s.sp
    case Display => t.gfx == s.gfx
    case Keys => t.key == s.key
  }

  /** One cycle of the interpreter with random byte `r`. The result is a valid
      state that records the fetched word; it changes no part outside the
      instruction's footprint; its draw flag is set exactly by the two display
      instructions; and a display of zeros and ones stays one. */
  function Step(s: Chip8, r: u8): (t: Chip8)
    requires Runnable(s, r)
    ensures t.Valid()
    ensures t.opcode == Fetch(s)
    ensures forall p :: p !in Footprint(Decode(Fetch(s))) ==> Agree(s, t, p)
    ensures t.drawFlag <==> Decode(Fetch(s)).ClearScreen? || Decode(Fetch(s)).Draw?
    ensures BinaryDisplay(s.gfx) ==> BinaryDisplay(t.gfx)
  {
    var op := Fetch(s);
    var instr := Decode(op);
    Execute(s.(drawFlag := false, opcode := op), instr, r)
  }
}
