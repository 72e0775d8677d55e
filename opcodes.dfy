/** The opcode registry: each mnemonic is mapped to the encoder that reads its operands and to
    a base byte; the encoders OR register fields into that byte following the 8080's layout. */
module Opcodes {
  import opened Errors

  /** One variant per operand shape (one per encoder of the original). */
  datatype Encoder =
    | DefineBytes        // DB
    | DefineWords        // DW
    | DefineStorage      // DS
    | NoOperand          // the base byte alone
    | IncDec             // INR, DCR: register in bits 3-5
    | Move               // MOV: destination in bits 3-5, source in bits 0-2
    | IndirectAcc        // STAX, LDAX: pair B or D, D sets bit 4
    | RegToAcc           // ADD ... CMP: register in bits 0-2
    | PushPop            // PUSH, POP: pair B, D, H or PSW in bits 4-5
    | PairOp             // DAD, INX, DCX: pair B, D, H or SP in bits 4-5
    | LoadPair           // LXI: pair in bits 4-5, then a 16-bit immediate
    | MoveImm            // MVI: register in bits 3-5, then an 8-bit immediate
    | AccImm             // ADI ... CPI: an 8-bit immediate
    | DirectAddr         // STA, LDA, SHLD, LHLD: a 16-bit address
    | JumpCall           // jumps and calls: a 16-bit address
    | Restart            // RST: vector in bits 3-5
    | InOut              // IN, OUT: an 8-bit port
    | Origin             // ORG: sets the load address

  datatype OpcodeSpec = OpcodeSpec(mnemo: string, enc: Encoder, arg: bv8)

  /** DB, DW and DS. */
  const DataDefinitions: seq<OpcodeSpec> := [
    OpcodeSpec("DB", DefineBytes, 0x00),
    OpcodeSpec("DW", DefineWords, 0x00),
    OpcodeSpec("DS", DefineStorage, 0x00)
  ]

  /** Carry bit instructions. */
  const CarryBit: seq<OpcodeSpec> := [
    OpcodeSpec("CMC", NoOperand, 0x3F),
    OpcodeSpec("STC", NoOperand, 0x37)
  ]

  /** Single register instructions. */
  const SingleRegister: seq<OpcodeSpec> := [
    OpcodeSpec("INR", IncDec, 0x04),
    OpcodeSpec("DCR", IncDec, 0x05),
    OpcodeSpec("CMA", NoOperand, 0x2F),
    OpcodeSpec("DAA", NoOperand, 0x27)
  ]

  /** NOP. */
  const NoOperation: seq<OpcodeSpec> := [
    OpcodeSpec("NOP", NoOperand, 0x00)
  ]

  /** Data transfer instructions. */
  const DataTransfer: seq<OpcodeSpec> := [
    OpcodeSpec("MOV", Move, 0x40),
    OpcodeSpec("STAX", IndirectAcc, 0x02),
    OpcodeSpec("LDAX", IndirectAcc, 0x0A)
  ]

  /** Register or memory to accumulator instructions. */
  const RegisterToAccumulator: seq<OpcodeSpec> := [
    OpcodeSpec("ADD", RegToAcc, 0x80),
    OpcodeSpec("ADC", RegToAcc, 0x88),
    OpcodeSpec("SUB", RegToAcc, 0x90),
    OpcodeSpec("SBB", RegToAcc, 0x98),
    OpcodeSpec("ANA", RegToAcc, 0xA0),
    OpcodeSpec("XRA", RegToAcc, 0xA8),
    OpcodeSpec("ORA", RegToAcc, 0xB0),
    OpcodeSpec("CMP", RegToAcc, 0xB8)
  ]

  /** Rotate accumulator instructions. */
  const RotateAccumulator: seq<OpcodeSpec> := [
    OpcodeSpec("RLC", NoOperand, 0x07),
    OpcodeSpec("RRC", NoOperand, 0x0F),
    OpcodeSpec("RAL", NoOperand, 0x17),
    OpcodeSpec("RAR", NoOperand, 0x1F)
  ]

  /** Register pair instructions. */
  const RegisterPair: seq<OpcodeSpec> := [
    OpcodeSpec("PUSH", PushPop, 0xC5),
    OpcodeSpec("POP", PushPop, 0xC1),
    OpcodeSpec("DAD", PairOp, 0x09),
    OpcodeSpec("INX", PairOp, 0x03),
    OpcodeSpec("DCX", PairOp, 0x0B),
    OpcodeSpec("XCHG", NoOperand, 0xEB),
    OpcodeSpec("XTHL", NoOperand, 0xE3),
    OpcodeSpec("SPHL", NoOperand, 0xF9)
  ]

  /** Immediate instructions. */
  const Immediate: seq<OpcodeSpec> := [
    OpcodeSpec("LXI", LoadPair, 0x01),
    OpcodeSpec("MVI", MoveImm, 0x06),
    OpcodeSpec("ADI", AccImm, 0xC6),
    OpcodeSpec("ACI", AccImm, 0xCE),
    OpcodeSpec("SUI", AccImm, 0xD6),
    OpcodeSpec("SBI", AccImm, 0xDE),
    OpcodeSpec("ANI", AccImm, 0xE6),
    OpcodeSpec("XRI", AccImm, 0xEE),
    OpcodeSpec("ORI", AccImm, 0xF6),
    OpcodeSpec("CPI", AccImm, 0xFE)
  ]

  /** Direct addressing instructions. */
  const DirectAddressing: seq<OpcodeSpec> := [
    OpcodeSpec("STA", DirectAddr, 0x32),
    OpcodeSpec("LDA", DirectAddr, 0x3A),
    OpcodeSpec("SHLD", DirectAddr, 0x22),
    OpcodeSpec("LHLD", DirectAddr, 0x2A)
  ]

  /** Jump instructions. */
  const Jump: seq<OpcodeSpec> := [
    OpcodeSpec("PCHL", NoOperand, 0xE9),
    OpcodeSpec("JMP", JumpCall, 0xC3),
    OpcodeSpec("JC", JumpCall, 0xDA),
    OpcodeSpec("JNC", JumpCall, 0xD2),
    OpcodeSpec("JZ", JumpCall, 0xCA),
    OpcodeSpec("JNZ", JumpCall, 0xC2),
    OpcodeSpec("JM", JumpCall, 0xFA),
    OpcodeSpec("JP", JumpCall, 0xF2),
    OpcodeSpec("JPE", JumpCall, 0xEA),
    OpcodeSpec("JPO", JumpCall, 0xE2)
  ]

  /** Call subroutine instructions. */
  const Call: seq<OpcodeSpec> := [
    OpcodeSpec("CALL", JumpCall, 0xCD),
    OpcodeSpec("CC", JumpCall, 0xDC),
    OpcodeSpec("CNC", JumpCall, 0xD4),
    OpcodeSpec("CZ", JumpCall, 0xCC),
    OpcodeSpec("CNZ", JumpCall, 0xC4),
    OpcodeSpec("CM", JumpCall, 0xFC),
    OpcodeSpec("CP", JumpCall, 0xF4),
    OpcodeSpec("CPE", JumpCall, 0xEC),
    OpcodeSpec("CPO", JumpCall, 0xE4)
  ]

  /** Return from subroutine instructions. */
  const Return: seq<OpcodeSpec> := [
    OpcodeSpec("RET", NoOperand, 0xC9),
    OpcodeSpec("RC", NoOperand, 0xD8),
    OpcodeSpec("RNC", NoOperand, 0xD0),
    OpcodeSpec("RZ", NoOperand, 0xC8),
    OpcodeSpec("RNZ", NoOperand, 0xC0),
    OpcodeSpec("RM", NoOperand, 0xF8),
    OpcodeSpec("RP", NoOperand, 0xF0),
    OpcodeSpec("RPE", NoOperand, 0xE8),
    OpcodeSpec("RPO", NoOperand, 0xE0)
  ]

  /** RST instructions. */
  const Restarts: seq<OpcodeSpec> := [
    OpcodeSpec("RST", Restart, 0xC7)
  ]

  /** Interrupt flip-flop instructions. */
  const Interrupt: seq<OpcodeSpec> := [
    OpcodeSpec("EI", NoOperand, 0xFB),
    OpcodeSpec("DI", NoOperand, 0xF3)
  ]

  /** Input/output instructions. */
  const InputOutput: seq<OpcodeSpec> := [
    OpcodeSpec("IN", InOut, 0xDB),
    OpcodeSpec("OUT", InOut, 0xD3)
  ]

  /** HLT. */
  const Halt: seq<OpcodeSpec> := [
    OpcodeSpec("HLT", NoOperand, 0x76)
  ]

  /** Pseudo instructions. */
  const Pseudo: seq<OpcodeSpec> := [
    OpcodeSpec("ORG", Origin, 0x00)
  ]

  /** The registry, in the original's order (the search takes the first match). */
  const Table: seq<OpcodeSpec> :=
    DataDefinitions + CarryBit + SingleRegister + NoOperation + DataTransfer +
    RegisterToAccumulator + RotateAccumulator + RegisterPair + Immediate +
    DirectAddressing + Jump + Call + Return + Restarts + Interrupt + InputOutput +
    Halt + Pseudo


  /** Position of the first table entry spelled `name`, as the linear search in opcode() and
      label_has_valid_name() finds it. */
  function FindFrom(t: seq<OpcodeSpec>, name: string, i: nat): (r: Option<nat>)
    requires i <= |t|
    ensures r.Some? ==> i <= r.value < |t| && t[r.value].mnemo == name
    ensures r.Some? ==> forall j | i <= j < r.value :: t[j].mnemo != name
    ensures r.None? ==> forall j | i <= j < |t| :: t[j].mnemo != name
    decreases |t| - i
  {
    if i == |t| then None
    else if t[i].mnemo == name then Some(i)
    else FindFrom(t, name, i + 1)
  }

  function Find(name: string): (r: Option<OpcodeSpec>)
    ensures r.Some? ==> r.value in Table && r.value.mnemo == name
    ensures r.None? <==> !IsMnemonic(name)
  {
    match FindFrom(Table, name, 0)
    case Some(i) => Some(Table[i])
    case None => None
  }

  predicate IsMnemonic(name: string) {
    exists i | 0 <= i < |Table| :: Table[i].mnemo == name
  }

  /** The byte count an encoder emits whatever its operand's value; None for DB, DW and DS,
      whose count depends on their operand list. */
  function Width(e: Encoder): Option<nat> {
    match e
    case DefineBytes => None
    case DefineWords => None
    case DefineStorage => None
    case Origin => Some(0)
    case NoOperand => Some(1)
    case IncDec => Some(1)
    case Move => Some(1)
    case IndirectAcc => Some(1)
    case RegToAcc => Some(1)
    case PushPop => Some(1)
    case PairOp => Some(1)
    case Restart => Some(1)
    case MoveImm => Some(2)
    case AccImm => Some(2)
    case InOut => Some(2)
    case LoadPair => Some(3)
    case DirectAddr => Some(3)
    case JumpCall => Some(3)
  }

  /** The widths as ground facts, which are cheaper to use than unfolding Width. */
  lemma WidthTable()
    ensures Width(NoOperand) == Some(1) && Width(IncDec) == Some(1) && Width(Move) == Some(1)
    ensures Width(IndirectAcc) == Some(1) && Width(RegToAcc) == Some(1)
    ensures Width(PushPop) == Some(1) && Width(PairOp) == Some(1) && Width(Restart) == Some(1)
    ensures Width(MoveImm) == Some(2) && Width(AccImm) == Some(2) && Width(InOut) == Some(2)
    ensures Width(LoadPair) == Some(3) && Width(DirectAddr) == Some(3)
    ensures Width(JumpCall) == Some(3) && Width(Origin) == Some(0)
    ensures Width(DefineBytes) == None && Width(DefineWords) == None
    ensures Width(DefineStorage) == None
  {
  }

  // Conversions to an unsigned char --------------------------------------------------------

  /** An int stored into an unsigned char keeps its value modulo 256. */
  function Byte(x: int): (b: bv8)
    ensures b as int == x % 256
  {
    ByteOf(x % 256)
  }

  /** The byte holding `v`, counted up from zero (the same value as `v as bv8`, in a form
      whose value the verifier can follow). */
  function ByteOf(v: nat): (b: bv8)
    requires v < 256
    ensures b as int == v
  {
    if v == 0 then 0 else ByteOf(v - 1) + 1
  }

  /** `x >> 8` stored into an unsigned char; the shift is arithmetic (a floor division). */
  function HighByte(x: int): (b: bv8)
    ensures b as int == (x / 256) % 256
  {
    Byte(x / 256)
  }

  /** The two bytes written for a 16-bit operand (low byte first) hold the operand modulo
      65536, whatever its sign. */
  lemma LittleEndian(x: int)
    ensures Byte(x) as int + 256 * HighByte(x) as int == x % 65536
  {
    var q, r := x / 256, x % 256;
    var qh, ql := q / 256, q % 256;
    assert x == 256 * q + r;
    assert q == 256 * qh + ql;
    assert x == 65536 * qh + (256 * ql + r);
    assert 0 <= 256 * ql + r < 65536;
    DivModUnique(x, 65536, qh, 256 * ql + r);
  }

  /** The Euclidean quotient and remainder are the only such pair. */
  lemma DivModUnique(x: int, d: int, q: int, r: int)
    requires d > 0 && x == d * q + r && 0 <= r < d
    ensures x % d == r && x / d == q
  {
    var q', r' := x / d, x % d;
    assert d * (q - q') == r' - r;
    if q > q' {
      MulAtLeast(d, q - q');
    } else if q < q' {
      MulAtLeast(d, q' - q);
    }
  }

  lemma MulAtLeast(d: int, k: int)
    requires d > 0 && k >= 1
    ensures d * k >= d
  {
    assert d * k == d * (k - 1) + d;
  }

  // Bit fields ORed into a base byte ---------------------------------------------------

  /** INR, DCR, MVI: the register code goes to bits 3-5. */
  function Bits3To5(arg: bv8, r: nat): (b: bv8)
    requires r < 8
    ensures b & 0xC7 == arg & 0xC7
    ensures arg & 0x38 == 0 ==> (b >> 3) & 7 == r as bv8
  {
    arg | ((r as bv8) << 3)
  }

  /** ADD ... CMP: the register code goes to bits 0-2. */
  function Bits0To2(arg: bv8, r: nat): (b: bv8)
    requires r < 8
    ensures b & 0xF8 == arg & 0xF8
    ensures arg & 0x07 == 0 ==> b & 7 == r as bv8
  {
    arg | r as bv8
  }

  /** MOV: destination in bits 3-5, source in bits 0-2; with the base 0x40 the only
      encoding equal to 0x76 (HLT) is MOV M,M. */
  function MoveByte(arg: bv8, dst: nat, src: nat): (b: bv8)
    requires dst < 8 && src < 8
    ensures b & 0xC0 == arg & 0xC0
    ensures arg & 0x3F == 0 ==> (b >> 3) & 7 == dst as bv8 && b & 7 == src as bv8
    ensures arg == 0x40 ==> (b == 0x76 <==> dst == 6 && src == 6)
  {
    arg | ((dst as bv8) << 3) | src as bv8
  }

  /** Register-pair instructions: the pair code goes to bits 4-5. */
  function Bits4To5(arg: bv8, p: nat): (b: bv8)
    requires p < 4
    ensures b & 0xCF == arg & 0xCF
    ensures arg & 0x30 == 0 ==> (b >> 4) & 3 == p as bv8
  {
    arg | ((p as bv8) << 4)
  }

  /** STAX, LDAX: register code 0 (B) leaves the base, 2 (D) sets bit 4. */
  function IndirectByte(arg: bv8, r: nat): (b: bv8)
    requires r == 0 || r == 2
    ensures b & 0xEF == arg & 0xEF
    ensures arg & 0x10 == 0 ==> (b & 0x10 != 0 <==> r == 2)
  {
    arg | (if r != 0 then 0x10 else 0)
  }

  /** RST: the vector shifted left by 3 and converted to a byte, ORed into the base;
      0..7 lands in bits 3-5, a negative vector also sets the bits above. */
  function RestartByte(arg: bv8, n: int): (b: bv8)
    ensures 0 <= n < 8 ==> b == Bits3To5(arg, n)
  {
    arg | (Byte(n) << 3)
  }

  /** The field each encoder ORs into its base byte. */
  function FieldMask(e: Encoder): bv8 {
    match e
    case IncDec => 0x38
    case MoveImm => 0x38
    case Restart => 0x38
    case Move => 0x3F
    case RegToAcc => 0x07
    case PushPop => 0x30
    case PairOp => 0x30
    case LoadPair => 0x30
    case IndirectAcc => 0x10
    case _ => 0
  }

  predicate FieldsClear(t: seq<OpcodeSpec>) {
    forall i | 0 <= i < |t| :: t[i].arg & FieldMask(t[i].enc) == 0
  }

  lemma FieldsClearAppend(a: seq<OpcodeSpec>, b: seq<OpcodeSpec>)
    requires FieldsClear(a) && FieldsClear(b)
    ensures FieldsClear(a + b)
  {
    forall i | 0 <= i < |a + b| ensures (a + b)[i].arg & FieldMask((a + b)[i].enc) == 0 {
      if i >= |a| { assert (a + b)[i] == b[i - |a|]; }
    }
  }

  /** The first three groups of the table have their operand fields clear. */
  lemma FieldsClearFirstGroups()
    ensures FieldsClear(DataDefinitions + CarryBit + SingleRegister)
  {
    FieldsClearAppend(DataDefinitions, CarryBit);
    FieldsClearAppend(DataDefinitions + CarryBit, SingleRegister);
  }

  /** A prefix with clear fields stays so with NoOperation, DataTransfer and
      RegisterToAccumulator appended. */
  lemma FieldsClearWithTransfers(prefix: seq<OpcodeSpec>)
    requires FieldsClear(prefix)
    ensures FieldsClear(prefix + NoOperation + DataTransfer + RegisterToAccumulator)
  {
    var grown := prefix;
    FieldsClearAppend(grown, NoOperation); grown := grown + NoOperation;
    FieldsClearAppend(grown, DataTransfer); grown := grown + DataTransfer;
    FieldsClearAppend(grown, RegisterToAccumulator); grown := grown + RegisterToAccumulator;
  }

  /** A prefix with clear fields stays so with RotateAccumulator and RegisterPair appended. */
  lemma FieldsClearWithPairs(prefix: seq<OpcodeSpec>)
    requires FieldsClear(prefix)
    ensures FieldsClear(prefix + RotateAccumulator + RegisterPair)
  {
    var grown := prefix;
    FieldsClearAppend(grown, RotateAccumulator); grown := grown + RotateAccumulator;
    FieldsClearAppend(grown, RegisterPair); grown := grown + RegisterPair;
  }

  /** A prefix with clear fields stays so with Immediate appended. */
  lemma FieldsClearWithImmediates(prefix: seq<OpcodeSpec>)
    requires FieldsClear(prefix)
    ensures FieldsClear(prefix + Immediate)
  {
    FieldsClearAppend(prefix, Immediate);
  }

  /** A prefix with clear fields stays so with DirectAddressing and Jump appended. */
  lemma FieldsClearWithJumps(prefix: seq<OpcodeSpec>)
    requires FieldsClear(prefix)
    ensures FieldsClear(prefix + DirectAddressing + Jump)
  {
    var grown := prefix;
    FieldsClearAppend(grown, DirectAddressing); grown := grown + DirectAddressing;
    FieldsClearAppend(grown, Jump); grown := grown + Jump;
  }

  /** A prefix with clear fields stays so with Call appended. */
  lemma FieldsClearWithCalls(prefix: seq<OpcodeSpec>)
    requires FieldsClear(prefix)
    ensures FieldsClear(prefix + Call)
  {
    FieldsClearAppend(prefix, Call);
  }

  /** A prefix with clear fields stays so with Return and Restarts appended. */
  lemma FieldsClearWithReturns(prefix: seq<OpcodeSpec>)
    requires FieldsClear(prefix)
    ensures FieldsClear(prefix + Return + Restarts)
  {
    var grown := prefix;
    FieldsClearAppend(grown, Return); grown := grown + Return;
    FieldsClearAppend(grown, Restarts); grown := grown + Restarts;
  }

  /** A prefix with clear fields stays so with Interrupt, InputOutput, Halt and Pseudo
      appended. */
  lemma FieldsClearWithRest(prefix: seq<OpcodeSpec>)
    requires FieldsClear(prefix)
    ensures FieldsClear(prefix + Interrupt + InputOutput + Halt + Pseudo)
  {
    var grown := prefix;
    FieldsClearAppend(grown, Interrupt); grown := grown + Interrupt;
    FieldsClearAppend(grown, InputOutput); grown := grown + InputOutput;
    FieldsClearAppend(grown, Halt); grown := grown + Halt;
    FieldsClearAppend(grown, Pseudo); grown := grown + Pseudo;
  }

  /** Every base byte in the table has zeros where its encoder puts the operand, so the
      OR in each encoder places the code without disturbing the opcode bits. */
  lemma TableFieldsClear()
    ensures FieldsClear(Table)
  {
    // The table grown group by group, in the registry's order.
    var prefix := DataDefinitions + CarryBit + SingleRegister;
    FieldsClearFirstGroups();
    FieldsClearWithTransfers(prefix); prefix := prefix + NoOperation + DataTransfer + RegisterToAccumulator;
    FieldsClearWithPairs(prefix); prefix := prefix + RotateAccumulator + RegisterPair;
    FieldsClearWithImmediates(prefix); prefix := prefix + Immediate;
    FieldsClearWithJumps(prefix); prefix := prefix + DirectAddressing + Jump;
    FieldsClearWithCalls(prefix); prefix := prefix + Call;
    FieldsClearWithReturns(prefix); prefix := prefix + Return + Restarts;
    FieldsClearWithRest(prefix); prefix := prefix + Interrupt + InputOutput + Halt + Pseudo;
    assert prefix == Table;
  }
}
