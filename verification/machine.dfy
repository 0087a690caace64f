/**
 The interpreter's state record and the operations that build it: the
 zero-valued machine with its program counter at 0x200, the font loader
 and the program-image loader.
 */
module Machine {
  import opened Words

  const MemorySize := 4096
  const RegisterCount := 16
  const StackDepth := 16
  const KeyCount := 16
  const DisplayWidth := 64
  const DisplayHeight := 32
  const DisplaySize := 64 * 32

  /** Index of the flag register VF. */
  const Flag := 0xF

  /** Where programs are loaded and where execution starts. */
  const ProgramStart := 0x200

  /** The size ceiling of a program image: 0xFFF - 0x200, that is 3583 bytes. */
  const MaxRomSize := 0xFFF - 0x200

  /** The 16 hexadecimal digit glyphs, five rows of four pixels each. */
  const FontSet: seq<u8> := [
    0xF0, 0x90, 0x90, 0x90, 0xF0, // 0
    0x20, 0x60, 0x20, 0x20, 0x70, // 1
    0xF0, 0x10, 0xF0, 0x80, 0xF0, // 2
    0xF0, 0x10, 0xF0, 0x10, 0xF0, // 3
    0x90, 0x90, 0xF0, 0x10, 0x10, // 4
    0xF0, 0x80, 0xF0, 0x10, 0xF0, // 5
    0xF0, 0x80, 0xF0, 0x90, 0xF0, // 6
    0xF0, 0x10, 0x20, 0x40, 0x40, // 7
    0xF0, 0x90, 0xF0, 0x90, 0xF0, // 8
    0xF0, 0x90, 0xF0, 0x10, 0xF0, // 9
    0xF0, 0x90, 0xF0, 0x90, 0x90, // A
    0xE0, 0x90, 0xE0, 0x90, 0xE0, // B
    0xF0, 0x80, 0x80, 0x80, 0x80, // C
    0xF0, 0x90, 0x90, 0x90, 0xE0, // D
    0xF0, 0x80, 0xF0, 0x80, 0xF0, // E
    0xF0, 0x80, 0xF0, 0x80, 0x80  // F
  ]

  /** The complete machine state. Every fixed-size array of the Go struct is a sequence
      whose length `Valid` fixes; `opcode` is the last fetched instruction word. */
  datatype Chip8 = Chip8(
    memory: seq<u8>,
    v: seq<u8>,
    i: u16,
    pc: u16,
    delayTimer: u8,
    soundTimer: u8,
    stack: seq<u16>,
    sp: u16,
    opcode: u16,
    drawFlag: bool,
    gfx: seq<u8>,
    key: seq<u8>)
  {
    /** The sequences have the lengths of the fixed-size arrays they model. */
    predicate Valid() {
      && |memory| == MemorySize
      && |v| == RegisterCount
      && |stack| == StackDepth
      && |gfx| == DisplaySize
      && |key| == KeyCount
    }
  }

  /** Every display cell holds 0 or 1. */
  predicate BinaryDisplay(gfx: seq<u8>) {
    forall k :: 0 <= k < |gfx| ==> gfx[k] <= 1
  }

  datatype Option<T> = None | Some(value: T)

  datatype LoadError = RomTooLarge

  datatype Result<T> = Ok(value: T) | Err(error: LoadError)

  /** The zero value of the state record with the program counter at 0x200. */
  function Blank(): (s: Chip8)
    ensures s.Valid() && s.pc == ProgramStart
    ensures s.i == 0 && s.sp == 0 && s.opcode == 0 && s.delayTimer == 0 && s.soundTimer == 0 && !s.drawFlag
    ensures forall a :: 0 <= a < MemorySize ==> s.memory[a] == 0
    ensures forall k :: 0 <= k < RegisterCount ==> s.v[k] == 0
    ensures forall k :: 0 <= k < StackDepth ==> s.stack[k] == 0
    ensures forall k :: 0 <= k < DisplaySize ==> s.gfx[k] == 0
    ensures forall k :: 0 <= k < KeyCount ==> s.key[k] == 0
  {
    Chip8(
      memory := seq(MemorySize, _ => 0),
      v := seq(RegisterCount, _ => 0),
      i := 0,
      pc := ProgramStart,
      delayTimer := 0,
      soundTimer := 0,
      stack := seq(StackDepth, _ => 0),
      sp := 0,
      opcode := 0,
      drawFlag := false,
      gfx := seq(DisplaySize, _ => 0),
      key := seq(KeyCount, _ => 0))
  }

  /** The font loop from glyph byte `k` on. Each iteration stores its glyph
      byte into memory cell 0, so each one overwrites the last. */
  function WriteGlyphs(mem: seq<u8>, k: nat): (r: seq<u8>)
    requires |mem| == MemorySize && k <= |FontSet|
    ensures |r| == MemorySize
    ensures r[0] == if k < |FontSet| then FontSet[|FontSet| - 1] else mem[0]
    ensures forall a :: 1 <= a < MemorySize ==> r[a] == mem[a]
    decreases |FontSet| - k
  {
    if k == |FontSet| then mem
    else WriteGlyphs(mem[0 := FontSet[k]], k + 1)
  }

  /** Loading the font leaves only the last glyph byte, 0x80, in cell 0;
      nothing else in the machine changes. */
  function LoadFontset(s: Chip8): (t: Chip8)
    requires s.Valid()
    ensures t.Valid()
    ensures t == s.(memory := s.memory[0 := 0x80])
  {
    var m := WriteGlyphs(s.memory, 0);
    assert m == s.memory[0 := 0x80];
    s.(memory := m)
  }

  /** The copy loop from image byte `k` on. */
  function CopyRom(mem: seq<u8>, rom: seq<u8>, k: nat): (r: seq<u8>)
    requires |mem| == MemorySize && |rom| <= MaxRomSize && k <= |rom|
    ensures |r| == MemorySize
    ensures forall a :: 0 <= a < MemorySize ==>
      r[a] == if ProgramStart + k <= a < ProgramStart + |rom| then rom[a - ProgramStart] else mem[a]
    decreases |rom| - k
  {
    if k == |rom| then mem
    else CopyRom(mem[ProgramStart + k := rom[k]], rom, k + 1)
  }

  /** Loads a program image at 0x200. An image longer than 3583 bytes is
      refused and nothing is written; otherwise byte k of the image lands in
      cell 0x200 + k and every other cell and field keeps its value. */
  function LoadRom(s: Chip8, rom: seq<u8>): (r: (Chip8, Option<LoadError>))
    requires s.Valid()
    ensures r.0.Valid()
    ensures |rom| > MaxRomSize <==> r.1 == Some(RomTooLarge)
    ensures |rom| <= MaxRomSize <==> r.1 == None
    ensures |rom| > MaxRomSize ==> r.0 == s
    ensures r.0 == s.(memory := r.0.memory)
    ensures |rom| <= MaxRomSize ==>
      && (forall k :: 0 <= k < |rom| ==> r.0.memory[ProgramStart + k] == rom[k])
      && (forall a :: 0 <= a < MemorySize && !(ProgramStart <= a < ProgramStart + |rom|) ==>
            r.0.memory[a] == s.memory[a])
  {
    if |rom| > MaxRomSize then (s, Some(RomTooLarge))
    else (s.(memory := CopyRom(s.memory, rom, 0)), None)
  }

  /** Builds a machine for a program image: a zero state with the counter at
      0x200, the font loaded, then the image. A too-large image yields the error. */
  function New(rom: seq<u8>): (r: Result<Chip8>)
    ensures r.Err? <==> |rom| > MaxRomSize
    ensures r.Err? ==> r.error == RomTooLarge
    ensures r.Ok? ==>
      && r.value.Valid()
      && r.value.pc == ProgramStart
      && r.value.i == 0 && r.value.sp == 0 && r.value.opcode == 0 && !r.value.drawFlag
      && r.value.delayTimer == 0 && r.value.soundTimer == 0
      && r.value.memory[0] == 0x80
      && (forall a :: 1 <= a < ProgramStart ==> r.value.memory[a] == 0)
      && (forall k :: 0 <= k < |rom| ==> r.value.memory[ProgramStart + k] == rom[k])
      && (forall a :: ProgramStart + |rom| <= a < MemorySize ==> r.value.memory[a] == 0)
      && (forall k :: 0 <= k < RegisterCount ==> r.value.v[k] == 0)
      && (forall k :: 0 <= k < StackDepth ==> r.value.stack[k] == 0)
      && (forall k :: 0 <= k < DisplaySize ==> r.value.gfx[k] == 0)
      && (forall k :: 0 <= k < KeyCount ==> r.value.key[k] == 0)
  {
    var c8 := LoadFontset(Blank());
    var (loaded, err) := LoadRom(c8, rom);
    if err.Some? then Err(err.value) else Ok(loaded)
  }
}
