/** The opcode callbacks. Each is modelled step by step as the original writes it (read the
    operands, check them, write the bytes one at a time), and each fixed-length one is proved
    to write exactly the bytes of a separate, declarative encoding of the 8080 instruction
    format (Encode) for the operands it reads. */
module Encoders {
  import opened Errors
  import opened Scanner
  import opened Symbols
  import opened Machines
  import opened Registers
  import opened Opcodes
  import opened Expressions
  import Text

  // Operand reading ------------------------------------------------------------------------

  /** reg(), rp_psw(), rp_sp() on the machine. */
  function Reg(names: seq<string>, m: Machine): (r: Result<(nat, Machine)>)
    requires WellFormed(m)
    ensures r.Ok? ==> Scans(m, r.value.1) && r.value.1.needSecondPass == m.needSecondPass
    ensures r.Ok? ==> r.value.0 < |names|
    ensures r.Fail? ==> r.err == InvalidRegister
  {
    var t :- ReadRegister(names, m.src);
    Ok((t.0, m.(src := t.1)))
  }

  /** What Reg reads: the whole word of letters after the blanks (four at most), whose
      upper-case form is the name of the register returned; it fails exactly when
      ReadRegister rejects the word. */
  lemma RegReadsWord(names: seq<string>, m: Machine)
    requires WellFormed(m)
    ensures var r := Reg(names, m); var c1 := SkipWhite(m.src);
            && (r.Ok? ==> c1.at <= r.value.1.src.at)
            && (r.Ok? ==> names[r.value.0] == Text.Upper(m.src.text[c1.at..r.value.1.src.at]))
            && (r.Ok? ==> r.value.1.src.at == c1.at + 4 || !PeekAlpha(r.value.1.src))
            && (r.Fail? <==> ReadRegister(names, m.src).Fail?)
  {
    ReadRegisterReadsWord(names, m.src);
  }

  /** The delimiter between two operands: blanks, then a ',' that is consumed; anything else
      is fatal. */
  function Comma(m: Machine): (r: Result<Machine>)
    requires WellFormed(m)
    ensures r.Ok? ==> Scans(m, r.value) && r.value.needSecondPass == m.needSecondPass
    ensures r.Ok? <==> PeekIs(SkipWhite(m.src), ',')
    ensures r.Fail? ==> r.err == SyntaxError
  {
    var c := SkipWhite(m.src);
    if PeekIs(c, ',') then Ok(m.(src := Advance(c))) else Fail(SyntaxError)
  }

  /** The operands of one fixed-length instruction: register codes and an expression value. */
  datatype Operands =
    | NoOperands
    | OneReg(r: nat)
    | TwoRegs(dst: nat, src: nat)
    | Value(v: int)
    | RegValue(r: nat, v: int)

  /** The shape of the operands each encoder reads; register codes index their table. */
  predicate Shaped(enc: Encoder, ops: Operands) {
    match enc
    case NoOperand => ops.NoOperands?
    case IncDec => ops.OneReg? && ops.r < 8
    case RegToAcc => ops.OneReg? && ops.r < 8
    case IndirectAcc => ops.OneReg? && ops.r < 8
    case PushPop => ops.OneReg? && ops.r < 4
    case PairOp => ops.OneReg? && ops.r < 4
    case Move => ops.TwoRegs? && ops.dst < 8 && ops.src < 8
    case LoadPair => ops.RegValue? && ops.r < 4 && ops.v <= 65536
    case MoveImm => ops.RegValue? && ops.r < 8 && ops.v <= 255
    case AccImm => ops.Value? && ops.v <= 255
    case InOut => ops.Value? && ops.v <= 255
    case DirectAddr => ops.Value? && ops.v <= 65536
    case JumpCall => ops.Value? && ops.v <= 65536
    case Origin => ops.Value? && ops.v <= 65536
    case Restart => ops.Value? && ops.v <= 7
    case _ => false
  }

  // Encoding -------------------------------------------------------------------------------

  /** The operand field of an opcode byte as the 8080 lays it out for each encoder. */
  function Field(enc: Encoder, b: bv8): bv8 {
    match enc
    case IncDec => (b >> 3) & 7
    case MoveImm => (b >> 3) & 7
    case Restart => (b >> 3) & 7
    case Move => b & 0x3F
    case RegToAcc => b & 7
    case PushPop => (b >> 4) & 3
    case PairOp => (b >> 4) & 3
    case LoadPair => (b >> 4) & 3
    case IndirectAcc => (b >> 4) & 1
    case _ => 0
  }

  /** The value the field is meant to carry for the operands read. */
  function FieldValue(enc: Encoder, ops: Operands): bv8
    requires Shaped(enc, ops)
  {
    match enc
    case IncDec => ops.r as bv8
    case RegToAcc => ops.r as bv8
    case PushPop => ops.r as bv8
    case PairOp => ops.r as bv8
    case LoadPair => ops.r as bv8
    case MoveImm => ops.r as bv8
    case Move => ((ops.dst as bv8) << 3) | ops.src as bv8
    case IndirectAcc => if ops.r == 2 then 1 else 0
    case Restart => Byte(ops.v) & 7
    case _ => 0
  }

  predicate HasWord(enc: Encoder) { enc == LoadPair || enc == DirectAddr || enc == JumpCall }

  predicate HasByte(enc: Encoder) { enc == MoveImm || enc == AccImm || enc == InOut }

  /** The bytes of one instruction: the base byte with the operand field ORed in, then the
      immediate byte, or the 16-bit immediate low byte first. MOV M,M (which would encode as
      HLT) and STAX or LDAX with a register other than B or D are fatal. */
  function Encode(enc: Encoder, arg: bv8, ops: Operands): (r: Result<seq<bv8>>)
    requires Shaped(enc, ops)
    ensures r.Ok? ==> |r.value| == Width(enc).value
  {
    match enc
    case NoOperand => Ok([arg])
    case IncDec => Ok([Bits3To5(arg, ops.r)])
    case RegToAcc => Ok([Bits0To2(arg, ops.r)])
    case IndirectAcc =>
      if ops.r != 0 && ops.r != 2 then Fail(InvalidRegister)
      else Ok([IndirectByte(arg, ops.r)])
    case PushPop => Ok([Bits4To5(arg, ops.r)])
    case PairOp => Ok([Bits4To5(arg, ops.r)])
    case Move =>
      var b := MoveByte(arg, ops.dst, ops.src);
      if b == 0x76 then Fail(IllegalInstruction) else Ok([b])
    case LoadPair => Ok([Bits4To5(arg, ops.r), Byte(ops.v), HighByte(ops.v)])
    case MoveImm => Ok([Bits3To5(arg, ops.r), Byte(ops.v)])
    case AccImm => Ok([arg, Byte(ops.v)])
    case InOut => Ok([arg, Byte(ops.v)])
    case DirectAddr => Ok([arg, Byte(ops.v), HighByte(ops.v)])
    case JumpCall => Ok([arg, Byte(ops.v), HighByte(ops.v)])
    case Origin => Ok([])
    case Restart => Ok([RestartByte(arg, ops.v)])
  }

  /** Encoding fails exactly for MOV M,M and for STAX or LDAX with a register other than B
      or D. */
  lemma EncodeRejects(enc: Encoder, arg: bv8, ops: Operands)
    requires Shaped(enc, ops)
    ensures Encode(enc, arg, ops).Fail? <==>
              (enc == Move && MoveByte(arg, ops.dst, ops.src) == 0x76)
              || (enc == IndirectAcc && ops.r != 0 && ops.r != 2)
    ensures enc == Move && arg == 0x40 ==>
              (Encode(enc, arg, ops).Fail? <==> ops.dst == 6 && ops.src == 6)
    ensures Encode(enc, arg, ops).Fail? ==>
              Encode(enc, arg, ops).err == (if enc == Move then IllegalInstruction else InvalidRegister)
  {
  }

  /** The opcode byte keeps every bit of the base byte outside the operand field. */
  lemma EncodeKeepsBase(enc: Encoder, arg: bv8, ops: Operands)
    requires Shaped(enc, ops) && Encode(enc, arg, ops).Ok? && enc != Origin
    requires enc == Restart ==> ops.v >= 0
    ensures Encode(enc, arg, ops).value[0] & !FieldMask(enc) == arg & !FieldMask(enc)
  {
    match enc
    case Restart => assert RestartByte(arg, ops.v) == Bits3To5(arg, ops.v);
    case _ =>
  }

  /** When the base byte leaves the field clear (as every table entry does), the field of the
      opcode byte carries the operand: the register or pair code, B/D as bit 4 for STAX and
      LDAX, the restart vector. */
  lemma EncodeField(enc: Encoder, arg: bv8, ops: Operands)
    requires Shaped(enc, ops) && Encode(enc, arg, ops).Ok? && enc != Origin
    requires arg & FieldMask(enc) == 0
    ensures Field(enc, Encode(enc, arg, ops).value[0]) == FieldValue(enc, ops)
  {
    match enc
    case Move => MoveField(arg, ops.dst, ops.src);
    case IndirectAcc =>
      assert ops.r == 0 || ops.r == 2;
      IndirectField(arg, ops.r);
    case Restart => RestartField(arg, Byte(ops.v));
    case _ =>
  }

  lemma MoveField(arg: bv8, dst: nat, src: nat)
    requires dst < 8 && src < 8 && arg & 0x3F == 0
    ensures MoveByte(arg, dst, src) & 0x3F == ((dst as bv8) << 3) | src as bv8
  {
  }

  lemma IndirectField(arg: bv8, r: nat)
    requires (r == 0 || r == 2) && arg & 0x10 == 0
    ensures (IndirectByte(arg, r) >> 4) & 1 == if r == 2 then 1 else 0
  {
  }

  /** RST: the field is the low three bits of the vector as stored in a byte, so with no
      lower bound on imm3 a negative vector still lands in bits 3-5. */
  lemma RestartField(arg: bv8, x: bv8)
    requires arg & 0x38 == 0
    ensures ((arg | (x << 3)) >> 3) & 7 == x & 7
  {
  }

  /** The immediate operand follows the opcode byte: an 8-bit one modulo 256, a 16-bit one
      low byte first, modulo 65536 (so a negative operand is stored in two's complement). */
  lemma EncodeImmediate(enc: Encoder, arg: bv8, ops: Operands)
    requires Shaped(enc, ops) && Encode(enc, arg, ops).Ok?
    ensures HasByte(enc) ==> Encode(enc, arg, ops).value[1] as int == ops.v % 256
    ensures HasWord(enc) ==> var bs := Encode(enc, arg, ops).value;
              bs[1] as int + 256 * bs[2] as int == ops.v % 65536
  {
    if HasWord(enc) {
      LittleEndian(ops.v);
    }
  }

  // DB, DW, DS -------------------------------------------------------------------------

  /** The string loop of db_cb(), entered with the read position on the opening quote or on
      the second quote of a doubled pair: every character up to the closing quote is written
      as a byte, and two quotes in a row write one quote. */
  function StringBody(m: Machine): (r: Result<Machine>)
    requires WellFormed(m)
    ensures r.Ok? ==> Evolves(m, r.value) && r.value.labels == m.labels
    ensures r.Ok? ==> r.value == m.(src := r.value.src, out := r.value.out,
                                    org := m.org + |r.value.out| - |m.out|)
    decreases |m.src.text| - m.src.at
  {
    var c1 := Advance(m.src);
    if Peek(c1) == EOF then Fail(UnterminatedString)
    else if PeekIs(c1, '\'') then
      var c2 := Advance(c1);
      if PeekIs(c2, '\'') then
        var m3 :- Emit(m.(src := c2), '\'' as bv8);
        StringBody(m3)
      else Ok(m.(src := c2))
    else
      var m2 :- Emit(m.(src := c1), Byte(Peek(c1).c as int));
      StringBody(m2)
  }

  /** One item of a DB list: a quoted string, or an imm8 written as one byte. */
  function DbItem(m: Machine): (r: Result<Machine>)
    requires WellFormed(m)
    ensures r.Ok? ==> Writes(m, r.value)
  {
    var c := SkipWhite(m.src);
    if PeekIs(c, '\'') then StringBody(m.(src := c))
    else
      var t :- Imm8(m.(src := c));
      Emit(t.1, Byte(t.0))
  }

  /** db_cb(): items separated by ','. */
  function Db(m: Machine): (r: Result<Machine>)
    requires WellFormed(m)
    ensures r.Ok? ==> Writes(m, r.value)
    decreases |m.src.text| - m.src.at
  {
    var m1 :- DbItem(m);
    var c := SkipWhite(m1.src);
    if PeekIs(c, ',') then
      var m2 := m1.(src := Advance(c));
      ScansWrites(m1, m2);
      var r := Db(m2);
      if r.Ok? then WritesTransitive(m, m1, m2); WritesTransitive(m, m2, r.value); r else r
    else
      ScansWrites(m1, m1.(src := c));
      WritesTransitive(m, m1, m1.(src := c));
      Ok(m1.(src := c))
  }

  /** One item of a DW list: an imm16 written low byte first. */
  function DwItem(m: Machine): (r: Result<Machine>)
    requires WellFormed(m)
    ensures r.Ok? ==> Writes(m, r.value) && |r.value.out| == |m.out| + 2 && Imm16(m).Ok?
  {
    var t :- Imm16(m);
    ScansWrites(m, t.1);
    var r := EmitAll(t.1, [Byte(t.0), HighByte(t.0)]);
    if r.Ok? then EmitAllWrites(t.1, [Byte(t.0), HighByte(t.0)]); WritesTransitive(m, t.1, r.value); r
    else r
  }

  /** dw_cb(): imm16 items separated by ',', each written low byte first. */
  function Dw(m: Machine): (r: Result<Machine>)
    requires WellFormed(m)
    ensures r.Ok? ==> Writes(m, r.value)
    decreases |m.src.text| - m.src.at
  {
    var m1 :- DwItem(m);
    var c := SkipWhite(m1.src);
    if PeekIs(c, ',') then
      var m2 := m1.(src := Advance(c));
      ScansWrites(m1, m2);
      var r := Dw(m2);
      if r.Ok? then
        WritesTransitive(m, m1, m2);
        WritesTransitive(m, m2, r.value);
        r
      else r
    else
      ScansWrites(m1, m1.(src := c));
      WritesTransitive(m, m1, m1.(src := c));
      Ok(m1.(src := c))
  }

  /** A DW item writes the word imm16 reads, low byte first; only a full buffer stops it. */
  lemma DwItemWritesWord(m: Machine, v: int, m1: Machine)
    requires WellFormed(m) && Imm16(m) == Ok((v, m1))
    ensures DwItem(m).Ok? <==> |m.out| + 2 <= ObjectSize
    ensures DwItem(m).Ok? ==> DwItem(m).value.out == m.out + [Byte(v), HighByte(v)]
    ensures DwItem(m).Ok? ==>
              DwItem(m).value.out[|m.out|] as int + 256 * DwItem(m).value.out[|m.out| + 1] as int
              == v % 65536
  {
    LittleEndian(v);
  }

  /** A DB item that is not a string writes one byte, imm8's value modulo 256; only a full
      buffer stops it. */
  lemma DbItemWritesByte(m: Machine, v: int, m1: Machine)
    requires WellFormed(m) && !PeekIs(SkipWhite(m.src), '\'')
    requires Imm8(m.(src := SkipWhite(m.src))) == Ok((v, m1))
    ensures DbItem(m).Ok? <==> |m.out| < ObjectSize
    ensures DbItem(m).Ok? ==> DbItem(m).value.out == m.out + [Byte(v)]
    ensures DbItem(m).Ok? ==> DbItem(m).value.out[|m.out|] as int == v % 256
  {
  }

  /** 16-bit words written low byte first, one after the other. */
  function Words(vs: seq<int>): (bs: seq<bv8>)
    ensures |bs| == 2 * |vs|
  {
    if vs == [] then [] else [Byte(vs[0]), HighByte(vs[0])] + Words(vs[1..])
  }

  /** Each pair of bytes in Words holds its value modulo 65536. */
  lemma {:induction false} WordsHoldValues(vs: seq<int>)
    ensures forall i | 0 <= i < |vs| ::
              Words(vs)[2 * i] as int + 256 * Words(vs)[2 * i + 1] as int == vs[i] % 65536
  {
    if vs != [] {
      WordsHoldValues(vs[1..]);
      LittleEndian(vs[0]);
      var bs := Words(vs);
      forall i | 0 <= i < |vs|
        ensures bs[2 * i] as int + 256 * bs[2 * i + 1] as int == vs[i] % 65536
      {
        if i > 0 {
          assert vs[i] == vs[1..][i - 1];
          assert bs[2 * i] == Words(vs[1..])[2 * (i - 1)];
          assert bs[2 * i + 1] == Words(vs[1..])[2 * (i - 1) + 1];
        }
      }
    }
  }

  /** One item of a DW list, then either the rest of the list after ',' or its end. */
  lemma DwStep(m: Machine)
    requires WellFormed(m) && Dw(m).Ok?
    ensures DwItem(m).Ok? && var m1 := DwItem(m).value; var c := SkipWhite(m1.src);
            if PeekIs(c, ',') then Dw(m1.(src := Advance(c))) == Dw(m)
            else Dw(m) == Ok(m1.(src := c))
  {
  }

  /** The values imm16 reads for the items of a DW list that assembles, in order. */
  function DwValues(m: Machine): (vs: seq<int>)
    requires WellFormed(m) && Dw(m).Ok?
    ensures |vs| >= 1
    decreases |m.src.text| - m.src.at
  {
    DwStep(m);
    var m1 := DwItem(m).value;
    var v := Imm16(m).value.0;
    var c := SkipWhite(m1.src);
    if PeekIs(c, ',') then [v] + DwValues(m1.(src := Advance(c))) else [v]
  }

  /** dw_cb() writes the words of its items, in order, low byte first. */
  lemma {:induction false} DwWritesWords(m: Machine)
    requires WellFormed(m) && Dw(m).Ok?
    ensures Dw(m).value.out == m.out + Words(DwValues(m))
    decreases |m.src.text| - m.src.at
  {
    DwStep(m);
    var m1 := DwItem(m).value;
    var (v, mv) := Imm16(m).value;
    assert m1.out == m.out + [Byte(v), HighByte(v)] by {
      DwItemWritesWord(m, v, mv);
    }
    var c := SkipWhite(m1.src);
    if PeekIs(c, ',') {
      var m2 := m1.(src := Advance(c));
      DwWritesWords(m2);
      assert DwValues(m) == [v] + DwValues(m2);
      WordsCons(m.out, v, DwValues(m2), m1.out, Dw(m2).value.out);
    } else {
      assert DwValues(m) == [v];
      WordsCons(m.out, v, [], m1.out, m1.out);
    }
  }

  /** Writing one word, then a list of words, is writing the longer list. */
  lemma WordsCons(out: seq<bv8>, v: int, vs: seq<int>, out1: seq<bv8>, out2: seq<bv8>)
    requires out1 == out + [Byte(v), HighByte(v)] && out2 == out1 + Words(vs)
    ensures out2 == out + Words([v] + vs)
  {
    var w := [v] + vs;
    assert w[0] == v && w[1..] == vs;
    assert Words(w) == [Byte(v), HighByte(v)] + Words(vs);
    assert out2 == out + ([Byte(v), HighByte(v)] + Words(vs));
  }

  /** One item of a DB list, then either the rest of the list after ',' or its end. */
  lemma DbStep(m: Machine)
    requires WellFormed(m) && Db(m).Ok?
    ensures DbItem(m).Ok? && var m1 := DbItem(m).value; var c := SkipWhite(m1.src);
            if PeekIs(c, ',') then Db(m1.(src := Advance(c))) == Db(m)
            else Db(m) == Ok(m1.(src := c))
  {
  }

  /** A DB item only appends to the bytes already written. */
  lemma DbItemAppends(m: Machine)
    requires WellFormed(m) && DbItem(m).Ok?
    ensures var out := DbItem(m).value.out; out == m.out + out[|m.out|..]
  {
    var out := DbItem(m).value.out;
    assert m.out <= out;
  }

  /** The bytes each item of a DB list that assembles writes, in order. */
  function DbPieces(m: Machine): (ps: seq<seq<bv8>>)
    requires WellFormed(m) && Db(m).Ok?
    ensures |ps| >= 1 && DbItem(m).Ok? && ps[0] == DbItem(m).value.out[|m.out|..]
    decreases |m.src.text| - m.src.at
  {
    DbStep(m);
    var m1 := DbItem(m).value;
    var piece := m1.out[|m.out|..];
    var c := SkipWhite(m1.src);
    if PeekIs(c, ',') then [piece] + DbPieces(m1.(src := Advance(c))) else [piece]
  }

  function Concat(ps: seq<seq<bv8>>): seq<bv8> {
    if ps == [] then [] else ps[0] + Concat(ps[1..])
  }

  /** db_cb() writes the bytes of its items one after the other: the first item's (one byte
      for an imm8, the characters for a string), then the rest of the list's. */
  lemma {:induction false} DbWritesPieces(m: Machine)
    requires WellFormed(m) && Db(m).Ok?
    ensures Db(m).value.out == m.out + Concat(DbPieces(m))
    decreases |m.src.text| - m.src.at
  {
    DbStep(m);
    DbItemAppends(m);
    var m1 := DbItem(m).value;
    var piece := m1.out[|m.out|..];
    var c := SkipWhite(m1.src);
    if PeekIs(c, ',') {
      var m2 := m1.(src := Advance(c));
      DbWritesPieces(m2);
      assert DbPieces(m) == [piece] + DbPieces(m2);
      ConcatCons(m.out, piece, DbPieces(m2), m1.out, Db(m2).value.out);
    } else {
      assert DbPieces(m) == [piece];
      ConcatCons(m.out, piece, [], m1.out, m1.out);
    }
  }

  /** Writing one piece, then a list of pieces, is writing the longer list. */
  lemma ConcatCons(out: seq<bv8>, p: seq<bv8>, ps: seq<seq<bv8>>, out1: seq<bv8>, out2: seq<bv8>)
    requires out1 == out + p && out2 == out1 + Concat(ps)
    ensures out2 == out + Concat([p] + ps)
  {
    var w := [p] + ps;
    assert w[0] == p && w[1..] == ps;
    assert Concat(w) == p + Concat(ps);
    assert out2 == out + (p + Concat(ps));
  }

  /** ds_cb(): imm16 zero bytes. A negative count makes the original's countdown run past
      the end of the buffer. */
  function Ds(m: Machine): (r: Result<Machine>)
    requires WellFormed(m)
    ensures Imm16(m).Fail? ==> r == Fail(Imm16(m).err)
    ensures Imm16(m).Ok? && Imm16(m).value.0 < 0 ==> r == Fail(ObjectOverflow)
    ensures Imm16(m).Ok? && Imm16(m).value.0 >= 0 ==>
              (r.Ok? <==> |m.out| + Imm16(m).value.0 <= ObjectSize)
    ensures r.Ok? ==> Imm16(m).Ok? && var (n, m1) := Imm16(m).value;
              r.value == m1.(out := m.out + Zeros(n), org := m.org + n)
  {
    var t :- Imm16(m);
    if t.0 < 0 then Fail(ObjectOverflow) else EmitAll(t.1, Zeros(t.0))
  }

  // The fixed-length callbacks, step by step as the original writes them ------------------

  /** The end of every fixed-length callback: after reading the operands (a scan from `m`
      to `m1`) the bytes are written with gen_code() one after the other. */
  function Put(m: Machine, m1: Machine, bs: seq<bv8>): (r: Result<Machine>)
    requires WellFormed(m) && WellFormed(m1) && Scans(m, m1)
    ensures r == EmitAll(m1, bs)
    ensures r.Ok? ==> Writes(m, r.value) && |r.value.out| == |m.out| + |bs|
  {
    ScansWrites(m, m1);
    var r := EmitAll(m1, bs);
    if r.Ok? then EmitAllWrites(m1, bs); WritesTransitive(m, m1, r.value); r else r
  }

  /** generic_cb(): the base byte alone. */
  function GenericCb(arg: bv8, m: Machine): (r: Result<Machine>)
    requires WellFormed(m)
    ensures r.Ok? ==> Writes(m, r.value) && |r.value.out| == |m.out| + 1
  {
    Put(m, m, [arg])
  }

  /** inr_dcr_cb(): a register into bits 3-5. */
  function InrDcrCb(arg: bv8, m: Machine): (r: Result<Machine>)
    requires WellFormed(m)
    ensures r.Ok? ==> Writes(m, r.value) && |r.value.out| == |m.out| + 1
  {
    var t :- Reg(RegisterNames, m);
    Put(m, t.1, [Bits3To5(arg, t.0)])
  }

  /** mov_cb(): destination register, ',', source register; MOV M,M is refused. */
  function MovCb(arg: bv8, m: Machine): (r: Result<Machine>)
    requires WellFormed(m)
    ensures r.Ok? ==> Writes(m, r.value) && |r.value.out| == |m.out| + 1
  {
    var t :- Reg(RegisterNames, m);
    var m1 :- Comma(t.1);
    var u :- Reg(RegisterNames, m1);
    var b := MoveByte(arg, t.0, u.0);
    if b == 0x76 then Fail(IllegalInstruction) else Put(m, u.1, [b])
  }

  /** stax_ldax_cb(): pair B or D; D sets bit 4. */
  function StaxLdaxCb(arg: bv8, m: Machine): (r: Result<Machine>)
    requires WellFormed(m)
    ensures r.Ok? ==> Writes(m, r.value) && |r.value.out| == |m.out| + 1
  {
    var t :- Reg(RegisterNames, m);
    if t.0 != 0 && t.0 != 2 then Fail(InvalidRegister)
    else Put(m, t.1, [IndirectByte(arg, t.0)])
  }

  /** rma_cb(): a register into bits 0-2. */
  function RmaCb(arg: bv8, m: Machine): (r: Result<Machine>)
    requires WellFormed(m)
    ensures r.Ok? ==> Writes(m, r.value) && |r.value.out| == |m.out| + 1
  {
    var t :- Reg(RegisterNames, m);
    Put(m, t.1, [Bits0To2(arg, t.0)])
  }

  /** push_pop_cb(): a pair (with PSW) into bits 4-5. */
  function PushPopCb(arg: bv8, m: Machine): (r: Result<Machine>)
    requires WellFormed(m)
    ensures r.Ok? ==> Writes(m, r.value) && |r.value.out| == |m.out| + 1
  {
    var t :- Reg(PairsWithPsw, m);
    Put(m, t.1, [Bits4To5(arg, t.0)])
  }

  /** rpi_cb(): a pair (with SP) into bits 4-5. */
  function RpiCb(arg: bv8, m: Machine): (r: Result<Machine>)
    requires WellFormed(m)
    ensures r.Ok? ==> Writes(m, r.value) && |r.value.out| == |m.out| + 1
  {
    var t :- Reg(PairsWithSp, m);
    Put(m, t.1, [Bits4To5(arg, t.0)])
  }

  /** lxi_cb(): a pair (with SP), ',', an imm16; the opcode, then the low and high byte. */
  function LxiCb(arg: bv8, m: Machine): (r: Result<Machine>)
    requires WellFormed(m)
    ensures r.Ok? ==> Writes(m, r.value) && |r.value.out| == |m.out| + 3
  {
    var t :- Reg(PairsWithSp, m);
    var m1 :- Comma(t.1);
    var u :- Imm16(m1);
    Put(m, u.1, [Bits4To5(arg, t.0), Byte(u.0), HighByte(u.0)])
  }

  /** mvi_cb(): a register, ',', an imm8; the opcode, then the byte. */
  function MviCb(arg: bv8, m: Machine): (r: Result<Machine>)
    requires WellFormed(m)
    ensures r.Ok? ==> Writes(m, r.value) && |r.value.out| == |m.out| + 2
  {
    var t :- Reg(RegisterNames, m);
    var m1 :- Comma(t.1);
    var u :- Imm8(m1);
    Put(m, u.1, [Bits3To5(arg, t.0), Byte(u.0)])
  }

  /** imm_ins_cb() and in_out_cb(): an imm8; the base byte, then the byte. */
  function ImmByteCb(arg: bv8, m: Machine): (r: Result<Machine>)
    requires WellFormed(m)
    ensures r.Ok? ==> Writes(m, r.value) && |r.value.out| == |m.out| + 2
  {
    var u :- Imm8(m);
    Put(m, u.1, [arg, Byte(u.0)])
  }

  /** dir_addr_ins_cb() and jmp_call_cb(): an imm16; the base byte, then the low and high
      byte. */
  function ImmWordCb(arg: bv8, m: Machine): (r: Result<Machine>)
    requires WellFormed(m)
    ensures r.Ok? ==> Writes(m, r.value) && |r.value.out| == |m.out| + 3
  {
    var u :- Imm16(m);
    Put(m, u.1, [arg, Byte(u.0), HighByte(u.0)])
  }

  /** rst_cb(): an imm3 shifted into bits 3-5. */
  function RstCb(arg: bv8, m: Machine): (r: Result<Machine>)
    requires WellFormed(m)
    ensures r.Ok? ==> Writes(m, r.value) && |r.value.out| == |m.out| + 1
  {
    var u :- Imm3(m);
    Put(m, u.1, [RestartByte(arg, u.0)])
  }

  /** org_cb(): an imm16 becomes the load address; nothing is written. */
  function OrgCb(m: Machine): (r: Result<Machine>)
    requires WellFormed(m)
    ensures r.Ok? ==> Scans(m, r.value.(org := m.org)) && r.value.out == m.out
    ensures r.Ok? ==> r.value.org <= 65536 && Imm16(m).Ok? && r.value.org == Imm16(m).value.0
    ensures r.Ok? <==> Imm16(m).Ok?
    ensures r.Fail? ==> r.err == Imm16(m).err
  {
    var u :- Imm16(m);
    Ok(u.1.(org := u.0))
  }

  // Each callback writes the declarative encoding of the operands it reads ----------------

  lemma GenericEncodes(arg: bv8, m: Machine)
    requires WellFormed(m)
    ensures GenericCb(arg, m) == (var bs :- Encode(NoOperand, arg, NoOperands); EmitAll(m, bs))
  {
  }

  lemma InrDcrEncodes(arg: bv8, m: Machine)
    requires WellFormed(m)
    ensures InrDcrCb(arg, m) ==
              (var t :- Reg(RegisterNames, m);
               var bs :- Encode(IncDec, arg, OneReg(t.0)); EmitAll(t.1, bs))
  {
  }

  lemma MovEncodes(arg: bv8, m: Machine)
    requires WellFormed(m)
    ensures MovCb(arg, m) ==
              (var t :- Reg(RegisterNames, m); var m1 :- Comma(t.1);
               var u :- Reg(RegisterNames, m1);
               var bs :- Encode(Move, arg, TwoRegs(t.0, u.0)); EmitAll(u.1, bs))
  {
  }

  lemma StaxLdaxEncodes(arg: bv8, m: Machine)
    requires WellFormed(m)
    ensures StaxLdaxCb(arg, m) ==
              (var t :- Reg(RegisterNames, m);
               var bs :- Encode(IndirectAcc, arg, OneReg(t.0)); EmitAll(t.1, bs))
  {
  }

  lemma RmaEncodes(arg: bv8, m: Machine)
    requires WellFormed(m)
    ensures RmaCb(arg, m) ==
              (var t :- Reg(RegisterNames, m);
               var bs :- Encode(RegToAcc, arg, OneReg(t.0)); EmitAll(t.1, bs))
  {
  }

  lemma PushPopEncodes(arg: bv8, m: Machine)
    requires WellFormed(m)
    ensures PushPopCb(arg, m) ==
              (var t :- Reg(PairsWithPsw, m);
               var bs :- Encode(PushPop, arg, OneReg(t.0)); EmitAll(t.1, bs))
  {
  }

  lemma RpiEncodes(arg: bv8, m: Machine)
    requires WellFormed(m)
    ensures RpiCb(arg, m) ==
              (var t :- Reg(PairsWithSp, m);
               var bs :- Encode(PairOp, arg, OneReg(t.0)); EmitAll(t.1, bs))
  {
  }

  lemma LxiEncodes(arg: bv8, m: Machine)
    requires WellFormed(m)
    ensures LxiCb(arg, m) ==
              (var t :- Reg(PairsWithSp, m); var m1 :- Comma(t.1); var u :- Imm16(m1);
               var bs :- Encode(LoadPair, arg, RegValue(t.0, u.0)); EmitAll(u.1, bs))
  {
    var t := Reg(PairsWithSp, m);
    if t.Ok? {
      var m1 := Comma(t.value.1);
      if m1.Ok? {
        var u := Imm16(m1.value);
        if u.Ok? { WordBytes(LoadPair, arg, t.value.0, u.value.0); }
      }
    }
  }

  lemma MviEncodes(arg: bv8, m: Machine)
    requires WellFormed(m)
    ensures MviCb(arg, m) ==
              (var t :- Reg(RegisterNames, m); var m1 :- Comma(t.1); var u :- Imm8(m1);
               var bs :- Encode(MoveImm, arg, RegValue(t.0, u.0)); EmitAll(u.1, bs))
  {
    var t := Reg(RegisterNames, m);
    if t.Ok? {
      var m1 := Comma(t.value.1);
      if m1.Ok? {
        var u := Imm8(m1.value);
        if u.Ok? { ByteBytes(MoveImm, arg, t.value.0, u.value.0); }
      }
    }
  }

  lemma ImmByteEncodes(enc: Encoder, arg: bv8, m: Machine)
    requires WellFormed(m) && (enc == AccImm || enc == InOut)
    ensures ImmByteCb(arg, m) ==
              (var u :- Imm8(m); var bs :- Encode(enc, arg, Value(u.0)); EmitAll(u.1, bs))
  {
    var u := Imm8(m);
    if u.Ok? { ByteBytes(enc, arg, 0, u.value.0); }
  }

  lemma ImmWordEncodes(enc: Encoder, arg: bv8, m: Machine)
    requires WellFormed(m) && (enc == DirectAddr || enc == JumpCall)
    ensures ImmWordCb(arg, m) ==
              (var u :- Imm16(m); var bs :- Encode(enc, arg, Value(u.0)); EmitAll(u.1, bs))
  {
    var u := Imm16(m);
    if u.Ok? { WordBytes(enc, arg, 0, u.value.0); }
  }

  lemma RstEncodes(arg: bv8, m: Machine)
    requires WellFormed(m)
    ensures RstCb(arg, m) ==
              (var u :- Imm3(m); var bs :- Encode(Restart, arg, Value(u.0)); EmitAll(u.1, bs))
  {
    var u := Imm3(m);
    if u.Ok? { RestartBytes(arg, u.value.0); }
  }

  /** The encodings with an immediate, for an operand value read elsewhere. */
  lemma ByteBytes(enc: Encoder, arg: bv8, r: nat, v: int)
    requires HasByte(enc) && r < 8 && v <= 255
    ensures var ops := if enc == MoveImm then RegValue(r, v) else Value(v);
      Encode(enc, arg, ops) == Ok([if enc == MoveImm then Bits3To5(arg, r) else arg, Byte(v)])
  {
  }

  lemma WordBytes(enc: Encoder, arg: bv8, r: nat, v: int)
    requires HasWord(enc) && r < 4 && v <= 65536
    ensures var ops := if enc == LoadPair then RegValue(r, v) else Value(v);
      Encode(enc, arg, ops) ==
        Ok([if enc == LoadPair then Bits4To5(arg, r) else arg, Byte(v), HighByte(v)])
  {
  }

  lemma RestartBytes(arg: bv8, v: int)
    requires v <= 7
    ensures Encode(Restart, arg, Value(v)) == Ok([RestartByte(arg, v)])
  {
  }

  /** The callback of an instruction of fixed length. */
  function Fixed(enc: Encoder, arg: bv8, m: Machine): (r: Result<Machine>)
    requires WellFormed(m) && Width(enc).Some? && enc != Origin
    ensures r.Ok? ==> Writes(m, r.value) && |r.value.out| == |m.out| + Width(enc).value
  {
    WidthTable();
    match enc
    case NoOperand => GenericCb(arg, m)
    case IncDec => InrDcrCb(arg, m)
    case Move => MovCb(arg, m)
    case IndirectAcc => StaxLdaxCb(arg, m)
    case RegToAcc => RmaCb(arg, m)
    case PushPop => PushPopCb(arg, m)
    case PairOp => RpiCb(arg, m)
    case LoadPair => LxiCb(arg, m)
    case MoveImm => MviCb(arg, m)
    case AccImm => ImmByteCb(arg, m)
    case InOut => ImmByteCb(arg, m)
    case DirectAddr => ImmWordCb(arg, m)
    case JumpCall => ImmWordCb(arg, m)
    case Restart => RstCb(arg, m)
  }

  /** Calling an entry's callback with its base byte. */
  function Callback(op: OpcodeSpec, m: Machine): (r: Result<Machine>)
    requires WellFormed(m)
    ensures r.Ok? ==> Evolves(m, r.value) && r.value.labels == m.labels
    ensures r.Ok? ==> r.value.linenr == m.linenr
    ensures r.Ok? && op.enc != Origin ==> r.value.org == m.org + |r.value.out| - |m.out|
    ensures r.Ok? && op.enc == Origin ==> r.value.out == m.out
    ensures r.Ok? && Width(op.enc).Some? ==> |r.value.out| == |m.out| + Width(op.enc).value
  {
    WidthTable();
    match op.enc
    case DefineBytes => Db(m)
    case DefineWords => Dw(m)
    case DefineStorage => Ds(m)
    case Origin => OrgCb(m)
    case _ => Fixed(op.enc, op.arg, m)
  }
}
