/**
 Instruction words: fetching the big-endian word at the program counter and
 decoding it into a structured instruction, following the nested switches of
 the interpreter's cycle (family in the top nibble; the low byte selects within
 families 0x0, 0xE and 0xF, the low nibble within 0x8 and 0x9).
 */
module Opcodes {
  import opened Words
  import opened Machine

  datatype Instr =
    | ClearScreen                                   // 00E0
    | Return                                        // 00EE
    | Jump(nnn: Addr)                               // 1NNN
    | Call(nnn: Addr)                               // 2NNN
    | SkipIfEqualImm(x: Nibble, nn: u8)             // 3XNN
    | SkipIfNotEqualImm(x: Nibble, nn: u8)          // 4XNN
    | SkipIfEqualReg(x: Nibble, y: Nibble)          // 5XY_
    | SetImm(x: Nibble, nn: u8)                     // 6XNN
    | AddImm(x: Nibble, nn: u8)                     // 7XNN
    | Move(x: Nibble, y: Nibble)                    // 8XY0
    | OrReg(x: Nibble, y: Nibble)                   // 8XY1
    | AndReg(x: Nibble, y: Nibble)                  // 8XY2
    | XorReg(x: Nibble, y: Nibble)                  // 8XY3
    | AddReg(x: Nibble, y: Nibble)                  // 8XY4
    | SubReg(x: Nibble, y: Nibble)                  // 8XY5
    | ShiftRight(x: Nibble, y: Nibble)              // 8XY6
    | SubReverse(x: Nibble, y: Nibble)              // 8XY7
    | ShiftLeft(x: Nibble, y: Nibble)               // 8XYE
    | SkipIfNotEqualReg(x: Nibble, y: Nibble)       // 9XY0
    | SetIndex(nnn: Addr)                           // ANNN
    | JumpOffset(nnn: Addr)                         // BNNN
    | Random(x: Nibble, nn: u8)                     // CXNN
    | Draw(x: Nibble, y: Nibble, n: Nibble)         // DXYN
    | SkipIfKey(x: Nibble)                          // EX9E
    | SkipIfNotKey(x: Nibble)                       // EXA1
    | GetDelay(x: Nibble)                           // FX07
    | WaitKey(x: Nibble)                            // FX0A
    | SetDelay(x: Nibble)                           // FX15
    | SetSound(x: Nibble)                           // FX18
    | AddIndex(x: Nibble)                           // FX1E
    | FontChar(x: Nibble)                           // FX29
    | Bcd(x: Nibble)                                // FX33
    | StoreRegs(x: Nibble)                          // FX55
    | LoadRegs(x: Nibble)                           // FX65
    | Unknown(op: u16)                              // no case matches

  /** The instruction word at `pc`: high byte first. */
  function Fetch(s: Chip8): (op: u16)
    requires s.Valid() && s.pc + 1 < MemorySize
    ensures op / 0x100 == s.memory[s.pc] && op % 0x100 == s.memory[s.pc + 1]
  {
    (s.memory[s.pc] as int) * 0x100 + s.memory[s.pc + 1]
  }

  // Operand fields; each is the corresponding mask-and-shift of the word.
  function Family(op: u16): Nibble { op / 0x1000 }
  function X(op: u16): Nibble { (op / 0x100) % 0x10 }
  function Y(op: u16): Nibble { (op / 0x10) % 0x10 }
  function N(op: u16): Nibble { op % 0x10 }
  function NN(op: u16): u8 { op % 0x100 }
  function NNN(op: u16): Addr { op % 0x1000 }

  /** The words for which no case of the dispatch matches, listed family by
      family: family 0 outside E0/EE, family 8 outside 0-7 and E, family 9
      outside 0, and families E and F outside their listed low bytes. */
  predicate IsUnknown(op: u16) {
    || (Family(op) == 0x0 && NN(op) != 0xE0 && NN(op) != 0xEE)
    || (Family(op) == 0x8 && 7 < N(op) && N(op) != 0xE)
    || (Family(op) == 0x9 && N(op) != 0)
    || (Family(op) == 0xE && NN(op) != 0x9E && NN(op) != 0xA1)
    || (Family(op) == 0xF && NN(op) !in {0x07, 0x0A, 0x15, 0x18, 0x1E, 0x29, 0x33, 0x55, 0x65})
  }

  /** The word with the fields the dispatch ignores cleared: the `x` nibble
      of family 0 and the `n` nibble of family 5. */
  function Canonical(op: u16): u16
  {
    if Family(op) == 0x0 then NN(op)
    else if Family(op) == 0x5 then op - N(op)
    else op
  }

  /** Decodes a word: dispatch on its family, then on the low byte (families
      0x0, 0xE, 0xF) or the low nibble (0x8, 0x9). Every field the dispatch
      reads ends up in the instruction (see `EncodeDecode`). */
  function Decode(op: u16): Instr
  {
    Dispatch(Family(op), X(op), Y(op), N(op), op)
  }

  /** The dispatch falls through exactly on the words `IsUnknown` lists, and
      then reports the word itself. */
  lemma DecodeUnknown(op: u16)
    ensures Decode(op).Unknown? <==> IsUnknown(op)
    ensures Decode(op).Unknown? ==> Decode(op).op == op
  {
    WordOfFields(op);
  }

  /** The dispatch on the four nibbles `f x y n` of the word `op`. */
  function Dispatch(f: Nibble, x: Nibble, y: Nibble, n: Nibble, op: u16): Instr
  {
    var nn: u8 := y * 0x10 + n;
    var nnn: Addr := x * 0x100 + nn;
    match f
    case 0x0 =>
      if nn == 0xE0 then ClearScreen
      else if nn == 0xEE then Return
      else Unknown(op)
    case 0x1 => Jump(nnn)
    case 0x2 => Call(nnn)
    case 0x3 => SkipIfEqualImm(x, nn)
    case 0x4 => SkipIfNotEqualImm(x, nn)
    case 0x5 => SkipIfEqualReg(x, y)
    case 0x6 => SetImm(x, nn)
    case 0x7 => AddImm(x, nn)
    case 0x8 =>
      if n == 0x0 then Move(x, y)
      else if n == 0x1 then OrReg(x, y)
      else if n == 0x2 then AndReg(x, y)
      else if n == 0x3 then XorReg(x, y)
      else if n == 0x4 then AddReg(x, y)
      else if n == 0x5 then SubReg(x, y)
      else if n == 0x6 then ShiftRight(x, y)
      else if n == 0x7 then SubReverse(x, y)
      else if n == 0xE then ShiftLeft(x, y)
      else Unknown(op)
    case 0x9 => if n == 0x0 then SkipIfNotEqualReg(x, y) else Unknown(op)
    case 0xA => SetIndex(nnn)
    case 0xB => JumpOffset(nnn)
    case 0xC => Random(x, nn)
    case 0xD => Draw(x, y, n)
    case 0xE =>
      if nn == 0x9E then SkipIfKey(x)
      else if nn == 0xA1 then SkipIfNotKey(x)
      else Unknown(op)
    case 0xF =>
      if nn == 0x07 then GetDelay(x)
      else if nn == 0x0A then WaitKey(x)
      else if nn == 0x15 then SetDelay(x)
      else if nn == 0x18 then SetSound(x)
      else if nn == 0x1E then AddIndex(x)
      else if nn == 0x29 then FontChar(x)
      else if nn == 0x33 then Bcd(x)
      else if nn == 0x55 then StoreRegs(x)
      else if nn == 0x65 then LoadRegs(x)
      else Unknown(op)
  }

  /** The word with the given four nibbles. */
  function Word(f: Nibble, x: Nibble, y: Nibble, n: Nibble): u16
  {
    f * 0x1000 + x * 0x100 + y * 0x10 + n
  }

  /** The canonical instruction word of an instruction. */
  function Encode(instr: Instr): u16
  {
    match instr
    case ClearScreen => 0x00E0
    case Return => 0x00EE
    case Jump(nnn) => 0x1000 + nnn
    case Call(nnn) => 0x2000 + nnn
    case SkipIfEqualImm(x, nn) => Word(0x3, x, nn / 0x10, nn % 0x10)
    case SkipIfNotEqualImm(x, nn) => Word(0x4, x, nn / 0x10, nn % 0x10)
    case SkipIfEqualReg(x, y) => Word(0x5, x, y, 0x0)
    case SetImm(x, nn) => Word(0x6, x, nn / 0x10, nn % 0x10)
    case AddImm(x, nn) => Word(0x7, x, nn / 0x10, nn % 0x10)
    case Move(x, y) => Word(0x8, x, y, 0x0)
    case OrReg(x, y) => Word(0x8, x, y, 0x1)
    case AndReg(x, y) => Word(0x8, x, y, 0x2)
    case XorReg(x, y) => Word(0x8, x, y, 0x3)
    case AddReg(x, y) => Word(0x8, x, y, 0x4)
    case SubReg(x, y) => Word(0x8, x, y, 0x5)
    case ShiftRight(x, y) => Word(0x8, x, y, 0x6)
    case SubReverse(x, y) => Word(0x8, x, y, 0x7)
    case ShiftLeft(x, y) => Word(0x8, x, y, 0xE)
    case SkipIfNotEqualReg(x, y) => Word(0x9, x, y, 0x0)
    case SetIndex(nnn) => 0xA000 + nnn
    case JumpOffset(nnn) => 0xB000 + nnn
    case Random(x, nn) => Word(0xC, x, nn / 0x10, nn % 0x10)
    case Draw(x, y, n) => Word(0xD, x, y, n)
    case SkipIfKey(x) => Word(0xE, x, 0x9, 0xE)
    case SkipIfNotKey(x) => Word(0xE, x, 0xA, 0x1)
    case GetDelay(x) => Word(0xF, x, 0x0, 0x7)
    case WaitKey(x) => Word(0xF, x, 0x0, 0xA)
    case SetDelay(x) => Word(0xF, x, 0x1, 0x5)
    case SetSound(x) => Word(0xF, x, 0x1, 0x8)
    case AddIndex(x) => Word(0xF, x, 0x1, 0xE)
    case FontChar(x) => Word(0xF, x, 0x2, 0x9)
    case Bcd(x) => Word(0xF, x, 0x3, 0x3)
    case StoreRegs(x) => Word(0xF, x, 0x5, 0x5)
    case LoadRegs(x) => Word(0xF, x, 0x6, 0x5)
    case Unknown(op) => op
  }

  /** The operand fields of a word built from four nibbles are those nibbles. */
  lemma FieldsOfWord(f: Nibble, x: Nibble, y: Nibble, n: Nibble)
    ensures var op := Word(f, x, y, n);
      && Family(op) == f && X(op) == x && Y(op) == y && N(op) == n
      && NN(op) == y * 0x10 + n && NNN(op) == x * 0x100 + y * 0x10 + n
  {
    var op := Word(f, x, y, n);
    assert op / 0x1000 == f;
    assert op % 0x1000 == x * 0x100 + y * 0x10 + n;
    assert op / 0x100 == f * 0x10 + x;
    assert op % 0x100 == y * 0x10 + n;
    assert op / 0x10 == f * 0x100 + x * 0x10 + y;
  }

  /** Every word is the word of its four nibbles. */
  lemma WordOfFields(op: u16)
    ensures op == Word(Family(op), X(op), Y(op), N(op))
    ensures NN(op) == Y(op) * 0x10 + N(op)
    ensures NNN(op) == X(op) * 0x100 + NN(op)
  {
    var r := op % 0x1000;
    var r2 := r % 0x100;
    var f, x, y, n := op / 0x1000, r / 0x100, r2 / 0x10, r2 % 0x10;
    assert op == Word(f, x, y, n);
    FieldsOfWord(f, x, y, n);
  }

  /** Decoding a word built from four nibbles dispatches on those nibbles. */
  lemma DecodeWord(f: Nibble, x: Nibble, y: Nibble, n: Nibble)
    ensures Decode(Word(f, x, y, n)) == Dispatch(f, x, y, n, Word(f, x, y, n))
  {
    FieldsOfWord(f, x, y, n);
  }

  /** A 12-bit operand `nnn` split into its three nibbles. */
  lemma WordOfAddr(f: Nibble, nnn: Addr)
    ensures var x, y, n := nnn / 0x100, (nnn / 0x10) % 0x10, nnn % 0x10;
      && f * 0x1000 + nnn == Word(f, x, y, n)
      && nnn == x * 0x100 + y * 0x10 + n
  {
    var r := nnn % 0x100;
    assert nnn == (nnn / 0x100) * 0x100 + r;
    assert r == ((nnn / 0x10) % 0x10) * 0x10 + nnn % 0x10;
  }

  /** Decoding a word `f nnn` dispatches on `f` and the three nibbles of `nnn`. */
  lemma DecodeAddr(f: Nibble, nnn: Addr)
    ensures var x, y, n := nnn / 0x100, (nnn / 0x10) % 0x10, nnn % 0x10;
      && Decode(f * 0x1000 + nnn) == Dispatch(f, x, y, n, f * 0x1000 + nnn)
      && nnn == x * 0x100 + y * 0x10 + n
  {
    WordOfAddr(f, nnn);
    DecodeWord(f, nnn / 0x100, (nnn / 0x10) % 0x10, nnn % 0x10);
  }

  /** Decoding inverts encoding for every instruction that has a case in the
      dispatch, and for every word no case matches. */
  lemma {:induction false} DecodeEncode(instr: Instr)
    requires instr.Unknown? ==> IsUnknown(instr.op)
    ensures Decode(Encode(instr)) == instr
  {
    match instr
    case ClearScreen =>
    case Return =>
    case Unknown(op) => DecodeUnknown(op);
    case Jump(nnn) => DecodeEncodeJump(nnn);
    case Call(nnn) => DecodeEncodeCall(nnn);
    case JumpOffset(nnn) => DecodeEncodeJumpOffset(nnn);
    case SetIndex(nnn) => DecodeEncodeSetIndex(nnn);
    case SkipIfEqualImm(x, nn) => DecodeEncodeSkipIfEqualImm(x, nn);
    case SkipIfNotEqualImm(x, nn) => DecodeEncodeSkipIfNotEqualImm(x, nn);
    case SetImm(x, nn) => DecodeEncodeSetImm(x, nn);
    case AddImm(x, nn) => DecodeEncodeAddImm(x, nn);
    case Random(x, nn) => DecodeEncodeRandom(x, nn);
    case SkipIfEqualReg(x, y) => DecodeEncodeSkipIfEqualReg(x, y);
    case SkipIfNotEqualReg(x, y) => DecodeEncodeSkipIfNotEqualReg(x, y);
    case Draw(x, y, n) => DecodeEncodeDraw(x, y, n);
    case Move(x, y) => DecodeEncodeMove(x, y);
    case OrReg(x, y) => DecodeEncodeOrReg(x, y);
    case AndReg(x, y) => DecodeEncodeAndReg(x, y);
    case XorReg(x, y) => DecodeEncodeXorReg(x, y);
    case AddReg(x, y) => DecodeEncodeAddReg(x, y);
    case SubReg(x, y) => DecodeEncodeSubReg(x, y);
    case ShiftRight(x, y) => DecodeEncodeShiftRight(x, y);
    case SubReverse(x, y) => DecodeEncodeSubReverse(x, y);
    case ShiftLeft(x, y) => DecodeEncodeShiftLeft(x, y);
    case SkipIfKey(x) => DecodeEncodeSkipIfKey(x);
    case SkipIfNotKey(x) => DecodeEncodeSkipIfNotKey(x);
    case GetDelay(x) => DecodeEncodeGetDelay(x);
    case WaitKey(x) => DecodeEncodeWaitKey(x);
    case SetDelay(x) => DecodeEncodeSetDelay(x);
    case SetSound(x) => DecodeEncodeSetSound(x);
    case AddIndex(x) => DecodeEncodeAddIndex(x);
    case FontChar(x) => DecodeEncodeFontChar(x);
    case Bcd(x) => DecodeEncodeBcd(x);
    case StoreRegs(x) => DecodeEncodeStoreRegs(x);
    case LoadRegs(x) => DecodeEncodeLoadRegs(x);
  }

  /** The byte `y n` splits back into its nibbles. */
  lemma NibblesOfByte(y: Nibble, n: Nibble)
    ensures (y * 0x10 + n) / 0x10 == y && (y * 0x10 + n) % 0x10 == n
  {
  }

  /** Encoding what the dispatch returns gives back the word of its nibbles,
      with the `x` nibble of family 0 and the `n` nibble of family 5 cleared. */
  lemma EncodeDispatch(f: Nibble, x: Nibble, y: Nibble, n: Nibble, op: u16)
    ensures var r := Dispatch(f, x, y, n, op);
      !r.Unknown? ==> Encode(r) == Word(f, if f == 0x0 then 0x0 else x, y, if f == 0x5 then 0x0 else n)
  {
    var r := Dispatch(f, x, y, n, op);
    NibblesOfByte(y, n);
    if f < 0x8 {
      EncodeDispatchLow(f, x, y, n, op);
    } else if f == 0x8 {
      assert !r.Unknown? ==> Encode(r) == Word(f, x, y, n);
    } else {
      EncodeDispatchHigh(f, x, y, n, op);
    }
  }

  lemma EncodeDispatchLow(f: Nibble, x: Nibble, y: Nibble, n: Nibble, op: u16)
    requires f < 0x8
    ensures var r := Dispatch(f, x, y, n, op);
      !r.Unknown? ==> Encode(r) == Word(f, if f == 0x0 then 0x0 else x, y, if f == 0x5 then 0x0 else n)
  {
    NibblesOfByte(y, n);
  }

  lemma EncodeDispatchHigh(f: Nibble, x: Nibble, y: Nibble, n: Nibble, op: u16)
    requires f > 0x8
    ensures var r := Dispatch(f, x, y, n, op);
      !r.Unknown? ==> Encode(r) == Word(f, x, y, n)
  {
    var nn := y * 0x10 + n;
    NibblesOfByte(y, n);
    if f == 0xE {
      assert nn == 0x9E || nn == 0xA1 ==> y == nn / 0x10 && n == nn % 0x10;
    } else if f == 0xF {
      EncodeDispatchF(x, y, n, op);
    }
  }

  lemma EncodeDispatchF(x: Nibble, y: Nibble, n: Nibble, op: u16)
    ensures var r := Dispatch(0xF, x, y, n, op);
      !r.Unknown? ==> Encode(r) == Word(0xF, x, y, n)
  {
    var nn := y * 0x10 + n;
    NibblesOfByte(y, n);
    assert y == nn / 0x10 && n == nn % 0x10;
  }

  /** The converse round trip: a word that decodes to an instruction is that
      instruction's encoding, up to the fields the dispatch ignores. Together
      with `DecodeEncode`, `Decode` is a bijection between canonical words
      and instructions. */
  lemma EncodeDecode(op: u16)
    ensures Decode(op).Unknown? ==> Decode(op).op == op
    ensures !Decode(op).Unknown? ==> Encode(Decode(op)) == Canonical(op)
  {
    WordOfFields(op);
    EncodeDispatch(Family(op), X(op), Y(op), N(op), op);
  }

  // The round trip, one instruction shape at a time.

  lemma DecodeEncodeJump(nnn: Addr)
    ensures Decode(Encode(Jump(nnn))) == Jump(nnn)
  {
    DecodeAddr(0x1, nnn);
  }

  lemma DecodeEncodeCall(nnn: Addr)
    ensures Decode(Encode(Call(nnn))) == Call(nnn)
  {
    DecodeAddr(0x2, nnn);
  }

  lemma DecodeEncodeSetIndex(nnn: Addr)
    ensures Decode(Encode(SetIndex(nnn))) == SetIndex(nnn)
  {
    DecodeAddr(0xA, nnn);
  }

  lemma DecodeEncodeJumpOffset(nnn: Addr)
    ensures Decode(Encode(JumpOffset(nnn))) == JumpOffset(nnn)
  {
    DecodeAddr(0xB, nnn);
  }

  lemma DecodeEncodeSkipIfEqualImm(x: Nibble, nn: u8)
    ensures Decode(Encode(SkipIfEqualImm(x, nn))) == SkipIfEqualImm(x, nn)
  {
    assert Encode(SkipIfEqualImm(x, nn)) == Word(0x3, x, nn / 0x10, nn % 0x10);
    DecodeWord(0x3, x, nn / 0x10, nn % 0x10);
  }

  lemma DecodeEncodeSkipIfNotEqualImm(x: Nibble, nn: u8)
    ensures Decode(Encode(SkipIfNotEqualImm(x, nn))) == SkipIfNotEqualImm(x, nn)
  {
    assert Encode(SkipIfNotEqualImm(x, nn)) == Word(0x4, x, nn / 0x10, nn % 0x10);
    DecodeWord(0x4, x, nn / 0x10, nn % 0x10);
  }

  lemma DecodeEncodeSetImm(x: Nibble, nn: u8)
    ensures Decode(Encode(SetImm(x, nn))) == SetImm(x, nn)
  {
    assert Encode(SetImm(x, nn)) == Word(0x6, x, nn / 0x10, nn % 0x10);
    DecodeWord(0x6, x, nn / 0x10, nn % 0x10);
  }

  lemma DecodeEncodeAddImm(x: Nibble, nn: u8)
    ensures Decode(Encode(AddImm(x, nn))) == AddImm(x, nn)
  {
    assert Encode(AddImm(x, nn)) == Word(0x7, x, nn / 0x10, nn % 0x10);
    DecodeWord(0x7, x, nn / 0x10, nn % 0x10);
  }

  lemma DecodeEncodeRandom(x: Nibble, nn: u8)
    ensures Decode(Encode(Random(x, nn))) == Random(x, nn)
  {
    assert Encode(Random(x, nn)) == Word(0xC, x, nn / 0x10, nn % 0x10);
    DecodeWord(0xC, x, nn / 0x10, nn % 0x10);
  }

  lemma DecodeEncodeSkipIfEqualReg(x: Nibble, y: Nibble)
    ensures Decode(Encode(SkipIfEqualReg(x, y))) == SkipIfEqualReg(x, y)
  {
    assert Encode(SkipIfEqualReg(x, y)) == Word(0x5, x, y, 0x0);
    DecodeWord(0x5, x, y, 0x0);
  }

  lemma DecodeEncodeSkipIfNotEqualReg(x: Nibble, y: Nibble)
    ensures Decode(Encode(SkipIfNotEqualReg(x, y))) == SkipIfNotEqualReg(x, y)
  {
    assert Encode(SkipIfNotEqualReg(x, y)) == Word(0x9, x, y, 0x0);
    DecodeWord(0x9, x, y, 0x0);
  }

  lemma DecodeEncodeDraw(x: Nibble, y: Nibble, n: Nibble)
    ensures Decode(Encode(Draw(x, y, n))) == Draw(x, y, n)
  {
    assert Encode(Draw(x, y, n)) == Word(0xD, x, y, n);
    DecodeWord(0xD, x, y, n);
  }

  lemma DecodeEncodeMove(x: Nibble, y: Nibble)
    ensures Decode(Encode(Move(x, y))) == Move(x, y)
  {
    assert Encode(Move(x, y)) == Word(0x8, x, y, 0x0);
    DecodeWord(0x8, x, y, 0x0);
  }

  lemma DecodeEncodeOrReg(x: Nibble, y: Nibble)
    ensures Decode(Encode(OrReg(x, y))) == OrReg(x, y)
  {
    assert Encode(OrReg(x, y)) == Word(0x8, x, y, 0x1);
    DecodeWord(0x8, x, y, 0x1);
  }

  lemma DecodeEncodeAndReg(x: Nibble, y: Nibble)
    ensures Decode(Encode(AndReg(x, y))) == AndReg(x, y)
  {
    assert Encode(AndReg(x, y)) == Word(0x8, x, y, 0x2);
    DecodeWord(0x8, x, y, 0x2);
  }

  lemma DecodeEncodeXorReg(x: Nibble, y: Nibble)
    ensures Decode(Encode(XorReg(x, y))) == XorReg(x, y)
  {
    assert Encode(XorReg(x, y)) == Word(0x8, x, y, 0x3);
    DecodeWord(0x8, x, y, 0x3);
  }

  lemma DecodeEncodeAddReg(x: Nibble, y: Nibble)
    ensures Decode(Encode(AddReg(x, y))) == AddReg(x, y)
  {
    assert Encode(AddReg(x, y)) == Word(0x8, x, y, 0x4);
    DecodeWord(0x8, x, y, 0x4);
  }

  lemma DecodeEncodeSubReg(x: Nibble, y: Nibble)
    ensures Decode(Encode(SubReg(x, y))) == SubReg(x, y)
  {
    assert Encode(SubReg(x, y)) == Word(0x8, x, y, 0x5);
    DecodeWord(0x8, x, y, 0x5);
  }

  lemma DecodeEncodeShiftRight(x: Nibble, y: Nibble)
    ensures Decode(Encode(ShiftRight(x, y))) == ShiftRight(x, y)
  {
    assert Encode(ShiftRight(x, y)) == Word(0x8, x, y, 0x6);
    DecodeWord(0x8, x, y, 0x6);
  }

  lemma DecodeEncodeSubReverse(x: Nibble, y: Nibble)
    ensures Decode(Encode(SubReverse(x, y))) == SubReverse(x, y)
  {
    assert Encode(SubReverse(x, y)) == Word(0x8, x, y, 0x7);
    DecodeWord(0x8, x, y, 0x7);
  }

  lemma DecodeEncodeShiftLeft(x: Nibble, y: Nibble)
    ensures Decode(Encode(ShiftLeft(x, y))) == ShiftLeft(x, y)
  {
    assert Encode(ShiftLeft(x, y)) == Word(0x8, x, y, 0xE);
    DecodeWord(0x8, x, y, 0xE);
  }

  lemma DecodeEncodeSkipIfKey(x: Nibble)
    ensures Decode(Encode(SkipIfKey(x))) == SkipIfKey(x)
  {
    assert Encode(SkipIfKey(x)) == Word(0xE, x, 0x9, 0xE);
    DecodeWord(0xE, x, 0x9, 0xE);
  }

  lemma DecodeEncodeSkipIfNotKey(x: Nibble)
    ensures Decode(Encode(SkipIfNotKey(x))) == SkipIfNotKey(x)
  {
    assert Encode(SkipIfNotKey(x)) == Word(0xE, x, 0xA, 0x1);
    DecodeWord(0xE, x, 0xA, 0x1);
  }

  lemma DecodeEncodeGetDelay(x: Nibble)
    ensures Decode(Encode(GetDelay(x))) == GetDelay(x)
  {
    assert Encode(GetDelay(x)) == Word(0xF, x, 0x0, 0x7);
    DecodeWord(0xF, x, 0x0, 0x7);
  }

  lemma DecodeEncodeWaitKey(x: Nibble)
    ensures Decode(Encode(WaitKey(x))) == WaitKey(x)
  {
    assert Encode(WaitKey(x)) == Word(0xF, x, 0x0, 0xA);
    DecodeWord(0xF, x, 0x0, 0xA);
  }

  lemma DecodeEncodeSetDelay(x: Nibble)
    ensures Decode(Encode(SetDelay(x))) == SetDelay(x)
  {
    assert Encode(SetDelay(x)) == Word(0xF, x, 0x1, 0x5);
    DecodeWord(0xF, x, 0x1, 0x5);
  }

  lemma DecodeEncodeSetSound(x: Nibble)
    ensures Decode(Encode(SetSound(x))) == SetSound(x)
  {
    assert Encode(SetSound(x)) == Word(0xF, x, 0x1, 0x8);
    DecodeWord(0xF, x, 0x1, 0x8);
  }

  lemma DecodeEncodeAddIndex(x: Nibble)
    ensures Decode(Encode(AddIndex(x))) == AddIndex(x)
  {
    assert Encode(AddIndex(x)) == Word(0xF, x, 0x1, 0xE);
    DecodeWord(0xF, x, 0x1, 0xE);
  }

  lemma DecodeEncodeFontChar(x: Nibble)
    ensures Decode(Encode(FontChar(x))) == FontChar(x)
  {
    assert Encode(FontChar(x)) == Word(0xF, x, 0x2, 0x9);
    DecodeWord(0xF, x, 0x2, 0x9);
  }

  lemma DecodeEncodeBcd(x: Nibble)
    ensures Decode(Encode(Bcd(x))) == Bcd(x)
  {
    assert Encode(Bcd(x)) == Word(0xF, x, 0x3, 0x3);
    DecodeWord(0xF, x, 0x3, 0x3);
  }

  lemma DecodeEncodeStoreRegs(x: Nibble)
    ensures Decode(Encode(StoreRegs(x))) == StoreRegs(x)
  {
    assert Encode(StoreRegs(x)) == Word(0xF, x, 0x5, 0x5);
    DecodeWord(0xF, x, 0x5, 0x5);
  }

  lemma DecodeEncodeLoadRegs(x: Nibble)
    ensures Decode(Encode(LoadRegs(x))) == LoadRegs(x)
  {
    assert Encode(LoadRegs(x)) == Word(0xF, x, 0x6, 0x5);
    DecodeWord(0xF, x, 0x6, 0x5);
  }

  /** Family 0 is dispatched on the low byte alone: the X nibble of a family-0
      word is ignored, so 0x01E0 clears the screen like 0x00E0. */
  lemma FamilyZeroIgnoresX(op: u16)
    requires Family(op) == 0x0
    ensures Decode(op) == Decode(NN(op)) || (Decode(op).Unknown? && Decode(NN(op)).Unknown?)
  {
    WordOfFields(op);
    DecodeWord(0x0, X(op), Y(op), N(op));
    assert NN(op) == Word(0x0, 0x0, Y(op), N(op));
    DecodeWord(0x0, 0x0, Y(op), N(op));
  }

  /** Family 5 never looks at its low nibble: 5XYN decodes as 5XY0 for every N. */
  lemma SkipIfEqualRegIgnoresN(op: u16)
    requires Family(op) == 0x5
    ensures Decode(op) == Decode(op - N(op)) == SkipIfEqualReg(X(op), Y(op))
  {
    WordOfFields(op);
    DecodeWord(0x5, X(op), Y(op), 0);
    assert op - N(op) == Word(0x5, X(op), Y(op), 0);
  }
}
