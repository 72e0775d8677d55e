/** The assembler as the original runs it: one object holding its globals, with a method for
    each of its functions. Every method is proved to compute what the specification
    function of the same name computes from the state it starts in. */
module Assembler {
  import opened Errors
  import opened Text
  import opened Arith
  import opened Scanner
  import opened Symbols
  import opened Opcodes
  import opened Registers
  import opened Machines
  import Expressions
  import Encoders
  import Driver
  import OutputName

  /** mpow(): x multiplied into 1, p times; an exponent below 1 is fatal. */
  method MPow(x: int, p: int) returns (r: Result<int>)
    ensures p < 1 ==> r == Fail(NegativeExponent)
    ensures p >= 1 ==> r == Ok(Pow(x, p))
  {
    if p < 1 {
      return Fail(NegativeExponent);
    }
    var n := 1;
    var k := p;
    while k != 0
      invariant 0 <= k <= p && n == Pow(x, p - k)
    {
      k := k - 1;
      n := n * x;
    }
    return Ok(n);
  }

  /** label_has_valid_name(): the opcode table is searched for the name. */
  method LabelHasValidName(name: string) returns (valid: bool)
    ensures valid == HasValidName(name)
  {
    for i := 0 to |Opcodes.Table|
      invariant FindFrom(Opcodes.Table, name, i) == FindFrom(Opcodes.Table, name, 0)
    {
      if Opcodes.Table[i].mnemo == name {
        assert Opcodes.IsMnemonic(name);
        return false;
      }
    }
    assert Find(name).None?;
    return true;
  }

  /** The search of opcode(): the first entry spelled `name`. */
  method FindOpcode(name: string) returns (r: Option<OpcodeSpec>)
    ensures r == Find(name)
  {
    for i := 0 to |Opcodes.Table|
      invariant FindFrom(Opcodes.Table, name, i) == FindFrom(Opcodes.Table, name, 0)
    {
      if Opcodes.Table[i].mnemo == name {
        return Some(Opcodes.Table[i]);
      }
    }
    return None;
  }

  class Assembler {
    // The input: the complete lines of the file, the index of the current character and
    // the index where its line starts (the original's `line` and `pos`). `obj` is the
    // object buffer and `pc` its write position.
    var text: string
    var at: nat
    var lineStart: nat
    var linenr: int
    var pass: nat
    var needSecondPass: bool
    var org: int
    const obj: array<bv8>
    var pc: nat
    var labels: Table

    ghost predicate Valid()
      reads this
    {
      obj.Length == ObjectSize && pc <= ObjectSize && lineStart <= at <= |text|
      && AddressesInRange(labels)
    }

    function Src(): Cursor
      reads this
    {
      Cursor(text, at, lineStart)
    }

    /** The globals as a specification state; the object image is object[0 .. PC). */
    ghost function State(): Machine
      reads this, obj
      requires Valid()
    {
      Machine(Src(), linenr, pass, needSecondPass, org, obj[..pc], labels)
    }

    constructor ()
      ensures Valid() && State() == Driver.Init("")
    {
      text, at, lineStart := "", 0, 0;
      linenr, pass, needSecondPass, org := 1, 0, false, 0;
      obj := new bv8[ObjectSize];
      pc, labels := 0, map[];
    }

    /** gen_code() */
    method GenCode(code: bv8) returns (res: Result<()>)
      requires Valid()
      modifies this, obj
      ensures Valid() && After(res, State()) == Emit(old(State()), code)
      ensures res.Ok? ==> obj[old(pc)] == code
      ensures forall i | 0 <= i < obj.Length && i != old(pc) :: obj[i] == old(obj[i])
    {
      if pc >= ObjectSize {
        return Fail(ObjectOverflow);
      }
      obj[pc] := code;
      pc := pc + 1;
      org := org + 1;
      assert obj[..pc] == old(obj[..pc]) + [code];
      return Ok(());
    }

    /** ch() */
    function Ch(): Input
      reads this
    {
      Peek(Src())
    }

    /** nextchar() */
    method NextChar()
      requires Valid()
      modifies this
      ensures Valid() && State() == old(State()).(src := Advance(old(Src())))
      ensures Src() == Advance(old(Src()))
      ensures text == old(text) && linenr == old(linenr) && pass == old(pass)
      ensures needSecondPass == old(needSecondPass) && org == old(org) && pc == old(pc)
      ensures labels == old(labels)
    {
      if at < |text| {
        if text[at] == '\n' {
          lineStart := at + 1;
        }
        at := at + 1;
      }
    }

    /** unget() */
    method Unget(cnt: nat) returns (res: Result<()>)
      requires Valid()
      modifies this
      ensures Valid() && State() == old(State()).(src := Src())
      ensures After(res, Src()) == Scanner.Unget(old(Src()), cnt)
    {
      if cnt > at - lineStart {
        return Fail(UngetUnderflow);
      }
      at := at - cnt;
      return Ok(());
    }
  
    /** skip_white() */
    method SkipWhite()
      requires Valid()
      modifies this
      ensures Valid() && State() == old(State()).(src := Scanner.SkipWhite(old(Src())))
    {
      while Ch() == Char(' ') || Ch() == Char('\t')
        invariant Valid() && State() == old(State()).(src := Src())
        invariant Scanner.SkipWhite(Src()) == Scanner.SkipWhite(old(Src()))
        decreases |text| - at
      {
        NextChar();
      }
    }

    /** skip_comment() */
    method SkipComment()
      requires Valid()
      modifies this
      ensures Valid() && State() == old(State()).(src := Scanner.SkipComment(old(Src())))
    {
      SkipWhite();
      if Ch() != Char(';') {
        return;
      }
      while Ch() != EOF && Ch() != Char('\n')
        invariant Valid() && State() == old(State()).(src := Src())
        invariant SkipToLineEnd(Src()) == Scanner.SkipComment(old(Src()))
        decreases |text| - at
      {
        NextChar();
      }
    }

    /** The bounded reading loop the original writes out in _reg(), label_value(), integer(),
        label() and opcode(): up to `max` characters of the class, upper-cased on request. */
    method ReadWord(max: nat, cls: CharClass, upper: bool) returns (w: string)
      requires Valid()
      modifies this
      ensures Valid() && State() == old(State()).(src := Src())
      ensures (w, Src()) == ReadRun(old(Src()), max, cls, upper)
    {
      w := "";
      ghost var start := Src();
      while |w| < max && Ch().Char? && InClass(Ch().c, cls)
        invariant Valid() && text == old(text)
        invariant linenr == old(linenr) && pass == old(pass) && needSecondPass == old(needSecondPass)
        invariant org == old(org) && pc == old(pc) && labels == old(labels)
        invariant |w| <= max && Src() == start.(at := start.at + |w|)
        invariant forall k | start.at <= k < at :: InClass(text[k], cls)
        invariant forall i | 0 <= i < |w| ::
                    w[i] == if upper then ToUpper(text[start.at + i]) else text[start.at + i]
        decreases max - |w|
      {
        var x := Ch().c;
        assert x != '\n';
        w := w + [if upper then ToUpper(x) else x];
        NextChar();
      }
      ReadRunIs(start, max, cls, upper, w);
    }

    /** _reg(): the index of the register name read in `names`. */
    method ReadRegister(names: seq<string>) returns (res: Result<nat>)
      requires Valid()
      modifies this
      ensures Valid() && Pair(res, State()) == Encoders.Reg(names, old(State()))
    {
      SkipWhite();
      var buf := ReadWord(4, Letters, true);
      for i := 0 to |names|
        invariant forall j | 0 <= j < i :: names[j] != buf
      {
        if buf == names[i] {
          return Ok(i);
        }
      }
      return Fail(InvalidRegister);
    }

    /** reg() */
    method Reg() returns (res: Result<nat>)
      requires Valid()
      modifies this
      ensures Valid() && Pair(res, State()) == Encoders.Reg(RegisterNames, old(State()))
    {
      res := ReadRegister(RegisterNames);
    }

    /** rp_psw() */
    method RpPsw() returns (res: Result<nat>)
      requires Valid()
      modifies this
      ensures Valid() && Pair(res, State()) == Encoders.Reg(PairsWithPsw, old(State()))
    {
      res := ReadRegister(PairsWithPsw);
    }

    /** rp_sp() */
    method RpSp() returns (res: Result<nat>)
      requires Valid()
      modifies this
      ensures Valid() && Pair(res, State()) == Encoders.Reg(PairsWithSp, old(State()))
    {
      res := ReadRegister(PairsWithSp);
    }
  
    /** label_value() */
    method LabelValue() returns (res: Result<int>)
      requires Valid() && PeekNameStart(Src())
      modifies this
      ensures Valid() && Pair(res, State()) == Expressions.LabelValue(old(State()))
    {
      var first := Ch().c;
      NextChar();
      var rest := ReadWord(4, Letters, false);
      var name := [first] + rest;
      if name in labels {
        return Ok(labels[name]);
      }
      if pass != 0 {
        return Fail(UndefinedSymbol);
      }
      needSecondPass := true;
      return Ok(0);
    }

    /** integer() */
    method Integer() returns (res: Result<int>)
      requires Valid()
      modifies this
      ensures Valid() && State() == old(State()).(src := Src())
      ensures Pair(res, Src()) == Expressions.Integer(old(Src()))
    {
      if !(Ch().Char? && IsDigit(Ch().c)) {
        return Fail(InvalidNumber);
      }
      ghost var c0 := Src();
      var buf := ReadWord(5, HexDigitChars, false);
      Expressions.ReadHexDigits(c0);
      if Ch().Char? && ToUpper(Ch().c) == 'H' {
        var n := HexValue(buf);
        NextChar();
        return Ok(n);
      }
      var n :- DecimalValue(buf);
      if Ch().Char? && ToUpper(Ch().c) == 'D' {
        NextChar();
      }
      return Ok(n);
    }

    /** The hexadecimal branch of integer(): four bits per digit. */
    static method HexValue(buf: string) returns (n: nat)
      requires AllXDigits(buf)
      ensures n == DigitsValue(buf, 16)
    {
      n := 0;
      for i := 0 to |buf|
        invariant n == DigitsValue(buf[..i], 16)
      {
        assert buf[..i + 1][..i] == buf[..i];
        n := n * 16 + XDigit(buf[i]);
      }
      assert buf[..|buf|] == buf;
    }

    /** The decimal branch of integer(): a character that is not a decimal digit is fatal. */
    static method DecimalValue(buf: string) returns (res: Result<nat>)
      requires AllXDigits(buf)
      ensures res.Ok? <==> AllDigits(buf)
      ensures res.Ok? ==> res.value == DigitsValue(buf, 10)
      ensures res.Fail? ==> res.err == InvalidNumber
    {
      var n := 0;
      for i := 0 to |buf|
        invariant AllDigits(buf[..i]) && n == DigitsValue(buf[..i], 10)
      {
        if !IsDigit(buf[i]) {
          return Fail(InvalidNumber);
        }
        assert buf[..i + 1][..i] == buf[..i];
        n := n * 10 + (buf[i] as int - '0' as int);
      }
      assert buf[..|buf|] == buf;
      return Ok(n);
    }

    /** constant() */
    method Constant() returns (res: Result<int>)
      requires Valid()
      modifies this
      ensures Valid() && Pair(res, State()) == Expressions.Constant(old(State()))
    {
      SkipWhite();
      if PeekNameStart(Src()) {
        res := LabelValue();
        return;
      }
      var sign := 1;
      if Ch() == Char('$') {
        NextChar();
        return Ok(org);
      } else if Ch() == Char('-') {
        sign := -1;
        NextChar();
      } else if Ch() == Char('+') {
        NextChar();
      }
      var v :- Integer();
      return Ok(v * sign);
    }

    /** power() */
    method Power() returns (res: Result<int>)
      requires Valid()
      modifies this
      ensures Valid() && Pair(res, State()) == Expressions.Power(old(State()))
      decreases |text| - at
    {
      var op1 :- Constant();
      SkipWhite();
      if Ch() != Char('^') {
        return Ok(op1);
      }
      NextChar();
      var op2 :- Power();
      var n :- MPow(op1, op2);
      if !InInt(n) {
        return Fail(IntOverflow);
      }
      return Ok(n);
    }
  
    /** factor() */
    method Factor() returns (res: Result<int>)
      requires Valid()
      modifies this
      ensures Valid() && Pair(res, State()) == Expressions.Factor(old(State()))
    {
      ghost var goal := Expressions.Factor(State());
      var op1 :- Power();
      while true
        invariant Valid() && text == old(text)
        invariant Expressions.FactorLoop(op1, State()) == goal
        decreases |text| - at
      {
        SkipWhite();
        if Ch() == Char('*') {
          NextChar();
          var op2 :- Power();
          op1 :- CMul(op1, op2);
        } else if Ch() == Char('/') {
          NextChar();
          var op2 :- Power();
          op1 :- CQuot(op1, op2);
        } else if Ch() == Char('%') {
          NextChar();
          var op2 :- Power();
          op1 :- CMod(op1, op2);
        } else {
          return Ok(op1);
        }
      }
    }

    /** term() */
    method Term() returns (res: Result<int>)
      requires Valid()
      modifies this
      ensures Valid() && Pair(res, State()) == Expressions.Expr(old(State()))
    {
      ghost var goal := Expressions.Expr(State());
      var op1 :- Factor();
      while true
        invariant Valid() && text == old(text)
        invariant Expressions.TermLoop(op1, State()) == goal
        decreases |text| - at
      {
        SkipWhite();
        if Ch() == Char('+') {
          NextChar();
          var op2 :- Factor();
          op1 :- CAdd(op1, op2);
        } else if Ch() == Char('-') {
          NextChar();
          var op2 :- Factor();
          op1 :- CSub(op1, op2);
        } else {
          return Ok(op1);
        }
      }
    }

    /** expr() */
    method Expr() returns (res: Result<int>)
      requires Valid()
      modifies this
      ensures Valid() && Pair(res, State()) == Expressions.Expr(old(State()))
    {
      res := Term();
    }

    /** imm3() */
    method Imm3() returns (res: Result<int>)
      requires Valid()
      modifies this
      ensures Valid() && Pair(res, State()) == Expressions.Imm3(old(State()))
    {
      var v :- Expr();
      if v > 7 {
        return Fail(OperandRangeError);
      }
      return Ok(v);
    }

    /** imm8() */
    method Imm8() returns (res: Result<int>)
      requires Valid()
      modifies this
      ensures Valid() && Pair(res, State()) == Expressions.Imm8(old(State()))
    {
      var v :- Expr();
      if v > 255 {
        return Fail(OperandRangeError);
      }
      return Ok(v);
    }

    /** imm16() */
    method Imm16() returns (res: Result<int>)
      requires Valid()
      modifies this
      ensures Valid() && Pair(res, State()) == Expressions.Imm16(old(State()))
    {
      var v :- Expr();
      if v > 65536 {
        return Fail(OperandRangeError);
      }
      return Ok(v);
    }
  
    // The opcode callbacks -----------------------------------------------------------------

    /** The string of a DB item, from the opening quote to the closing one; two quotes in a
        row write one quote. */
    method DbString() returns (res: Result<()>)
      requires Valid()
      modifies this, obj
      ensures Valid() && After(res, State()) == Encoders.StringBody(old(State()))
      decreases |text| - at
    {
      while true
        invariant Valid() && text == old(text)
        invariant Encoders.StringBody(State()) == Encoders.StringBody(old(State()))
        decreases |text| - at
      {
        NextChar();
        if Ch() == EOF {
          return Fail(UnterminatedString);
        }
        if Ch() == Char('\'') {
          NextChar();
          if Ch() != Char('\'') {
            return Ok(());
          }
          var _ :- GenCode('\'' as bv8);
        } else {
          var _ :- GenCode(Byte(Ch().c as int));
        }
      }
    }

    /** db_cb() */
    method Db() returns (res: Result<()>)
      requires Valid()
      modifies this, obj
      ensures Valid() && After(res, State()) == Encoders.Db(old(State()))
    {
      while true
        invariant Valid() && text == old(text)
        invariant Encoders.Db(State()) == Encoders.Db(old(State()))
        decreases |text| - at
      {
        SkipWhite();
        if Ch() == Char('\'') {
          var _ :- DbString();
        } else {
          var r :- Imm8();
          var _ :- GenCode(Byte(r));
        }
        SkipWhite();
        if Ch() != Char(',') {
          return Ok(());
        }
        NextChar();
      }
    }

    /** dw_cb() */
    method Dw() returns (res: Result<()>)
      requires Valid()
      modifies this, obj
      ensures Valid() && After(res, State()) == Encoders.Dw(old(State()))
    {
      while true
        invariant Valid() && text == old(text)
        invariant Encoders.Dw(State()) == Encoders.Dw(old(State()))
        decreases |text| - at
      {
        var r :- Imm16();
        var _ :- GenCode(Byte(r));
        var _ :- GenCode(HighByte(r));
        SkipWhite();
        if Ch() != Char(',') {
          return Ok(());
        }
        NextChar();
      }
    }

    /** ds_cb(); a negative count is refused rather than counted down past zero. */
    method Ds() returns (res: Result<()>)
      requires Valid()
      modifies this, obj
      ensures Valid() && After(res, State()) == Encoders.Ds(old(State()))
    {
      var r :- Imm16();
      if r < 0 {
        return Fail(ObjectOverflow);
      }
      res := Reserve(r);
    }

    /** The `while (r--)` loop of ds_cb(): n zero bytes. */
    method Reserve(n: nat) returns (res: Result<()>)
      requires Valid()
      modifies this, obj
      ensures Valid() && After(res, State()) == EmitAll(old(State()), Zeros(n))
    {
      ghost var m0 := State();
      var k := n;
      while k != 0
        invariant 0 <= k <= n && Valid()
        invariant State() == m0.(out := m0.out + Zeros(n - k), org := m0.org + (n - k))
      {
        var _ :- GenCode(0);
        k := k - 1;
        assert Zeros(n - k) == Zeros(n - (k + 1)) + [0];
      }
      return Ok(());
    }

    /** generic_cb() */
    method Generic(arg: bv8) returns (res: Result<()>)
      requires Valid()
      modifies this, obj
      ensures Valid() && After(res, State()) == Encoders.GenericCb(arg, old(State()))
    {
      res := GenCode(arg);
    }

    /** inr_dcr_cb() */
    method InrDcr(arg: bv8) returns (res: Result<()>)
      requires Valid()
      modifies this, obj
      ensures Valid() && After(res, State()) == Encoders.InrDcrCb(arg, old(State()))
    {
      var r :- Reg();
      res := GenCode(Bits3To5(arg, r));
    }

    /** mov_cb() */
    method Mov(arg: bv8) returns (res: Result<()>)
      requires Valid()
      modifies this, obj
      ensures Valid() && After(res, State()) == Encoders.MovCb(arg, old(State()))
    {
      var dst :- Reg();
      SkipWhite();
      if Ch() != Char(',') {
        return Fail(SyntaxError);
      }
      NextChar();
      var src :- Reg();
      var b := MoveByte(arg, dst, src);
      if b == 0x76 {
        return Fail(IllegalInstruction);
      }
      res := GenCode(b);
    }

    /** stax_ldax_cb() */
    method StaxLdax(arg: bv8) returns (res: Result<()>)
      requires Valid()
      modifies this, obj
      ensures Valid() && After(res, State()) == Encoders.StaxLdaxCb(arg, old(State()))
    {
      var r :- Reg();
      if r != 0 && r != 2 {
        return Fail(InvalidRegister);
      }
      res := GenCode(IndirectByte(arg, r));
    }

    /** rma_cb() */
    method Rma(arg: bv8) returns (res: Result<()>)
      requires Valid()
      modifies this, obj
      ensures Valid() && After(res, State()) == Encoders.RmaCb(arg, old(State()))
    {
      var r :- Reg();
      res := GenCode(Bits0To2(arg, r));
    }

    /** push_pop_cb() */
    method PushPop(arg: bv8) returns (res: Result<()>)
      requires Valid()
      modifies this, obj
      ensures Valid() && After(res, State()) == Encoders.PushPopCb(arg, old(State()))
    {
      var r :- RpPsw();
      res := GenCode(Bits4To5(arg, r));
    }

    /** rpi_cb() */
    method Rpi(arg: bv8) returns (res: Result<()>)
      requires Valid()
      modifies this, obj
      ensures Valid() && After(res, State()) == Encoders.RpiCb(arg, old(State()))
    {
      var r :- RpSp();
      res := GenCode(Bits4To5(arg, r));
    }

    /** lxi_cb() */
    method Lxi(arg: bv8) returns (res: Result<()>)
      requires Valid()
      modifies this, obj
      ensures Valid() && After(res, State()) == Encoders.LxiCb(arg, old(State()))
    {
      var r :- RpSp();
      SkipWhite();
      if Ch() != Char(',') {
        return Fail(SyntaxError);
      }
      NextChar();
      var v :- Imm16();
      EmitAllThree(State(), Bits4To5(arg, r), Byte(v), HighByte(v));
      var _ :- GenCode(Bits4To5(arg, r));
      var _ :- GenCode(Byte(v));
      res := GenCode(HighByte(v));
    }

    /** mvi_cb() */
    method Mvi(arg: bv8) returns (res: Result<()>)
      requires Valid()
      modifies this, obj
      ensures Valid() && After(res, State()) == Encoders.MviCb(arg, old(State()))
    {
      var r :- Reg();
      SkipWhite();
      if Ch() != Char(',') {
        return Fail(SyntaxError);
      }
      NextChar();
      var v :- Imm8();
      EmitAllTwo(State(), Bits3To5(arg, r), Byte(v));
      var _ :- GenCode(Bits3To5(arg, r));
      res := GenCode(Byte(v));
    }

    /** imm_ins_cb() */
    method ImmIns(arg: bv8) returns (res: Result<()>)
      requires Valid()
      modifies this, obj
      ensures Valid() && After(res, State()) == Encoders.ImmByteCb(arg, old(State()))
    {
      var v :- Imm8();
      EmitAllTwo(State(), arg, Byte(v));
      var _ :- GenCode(arg);
      res := GenCode(Byte(v));
    }

    /** dir_addr_ins_cb() */
    method DirAddrIns(arg: bv8) returns (res: Result<()>)
      requires Valid()
      modifies this, obj
      ensures Valid() && After(res, State()) == Encoders.ImmWordCb(arg, old(State()))
    {
      var v :- Imm16();
      EmitAllThree(State(), arg, Byte(v), HighByte(v));
      var _ :- GenCode(arg);
      var _ :- GenCode(Byte(v));
      res := GenCode(HighByte(v));
    }

    /** jmp_call_cb() */
    method JmpCall(arg: bv8) returns (res: Result<()>)
      requires Valid()
      modifies this, obj
      ensures Valid() && After(res, State()) == Encoders.ImmWordCb(arg, old(State()))
    {
      var v :- Imm16();
      EmitAllThree(State(), arg, Byte(v), HighByte(v));
      var _ :- GenCode(arg);
      var _ :- GenCode(Byte(v));
      res := GenCode(HighByte(v));
    }

    /** rst_cb() */
    method Rst(arg: bv8) returns (res: Result<()>)
      requires Valid()
      modifies this, obj
      ensures Valid() && After(res, State()) == Encoders.RstCb(arg, old(State()))
    {
      var v :- Imm3();
      res := GenCode(RestartByte(arg, v));
    }

    /** in_out_cb() */
    method InOut(arg: bv8) returns (res: Result<()>)
      requires Valid()
      modifies this, obj
      ensures Valid() && After(res, State()) == Encoders.ImmByteCb(arg, old(State()))
    {
      var v :- Imm8();
      EmitAllTwo(State(), arg, Byte(v));
      var _ :- GenCode(arg);
      res := GenCode(Byte(v));
    }

    /** org_cb() */
    method Org() returns (res: Result<()>)
      requires Valid()
      modifies this
      ensures Valid() && After(res, State()) == Encoders.OrgCb(old(State()))
    {
      var v :- Imm16();
      org := v;
      return Ok(());
    }

    /** The call `opcodes[i].cb(opcodes[i].arg)` in opcode(). */
    method Callback(op: OpcodeSpec) returns (res: Result<()>)
      requires Valid()
      modifies this, obj
      ensures Valid() && After(res, State()) == Encoders.Callback(op, old(State()))
    {
      match op.enc
      case DefineBytes => res := Db();
      case DefineWords => res := Dw();
      case DefineStorage => res := Ds();
      case Origin => res := Org();
      case _ => res := Fixed(op.enc, op.arg);
    }

    /** The callbacks of the instructions of fixed length. */
    method Fixed(enc: Encoder, arg: bv8) returns (res: Result<()>)
      requires Valid() && Width(enc).Some? && enc != Origin
      modifies this, obj
      ensures Valid() && After(res, State()) == Encoders.Fixed(enc, arg, old(State()))
    {
      match enc
      case NoOperand => res := Generic(arg);
      case IncDec => res := InrDcr(arg);
      case Move => res := Mov(arg);
      case IndirectAcc => res := StaxLdax(arg);
      case RegToAcc => res := Rma(arg);
      case PushPop => res := PushPop(arg);
      case PairOp => res := Rpi(arg);
      case LoadPair => res := Lxi(arg);
      case MoveImm => res := Mvi(arg);
      case AccImm => res := ImmIns(arg);
      case InOut => res := InOut(arg);
      case DirectAddr => res := DirAddrIns(arg);
      case JumpCall => res := JmpCall(arg);
      case Restart => res := Rst(arg);
    }

    /** label_already_defined(): whether the table has the name. */
    method LabelAlreadyDefined(name: string) returns (found: bool)
      requires Valid()
      ensures found == AlreadyDefined(labels, name)
    {
      found := name in labels;
    }

    /** create_label() */
    method CreateLabel(name: string) returns (res: Result<()>)
      requires Valid()
      modifies this
      ensures Valid() && State() == old(State()).(labels := labels)
      ensures After(res, labels) == Define(old(labels), pass, org, name)
    {
      if pass != 0 {
        return Ok(());
      }
      var found := LabelAlreadyDefined(name);
      if found {
        return Fail(DuplicateSymbol);
      }
      var valid := LabelHasValidName(name);
      if !valid {
        return Fail(ReservedName);
      }
      labels := labels[name := Address(org)];
      return Ok(());
    }

    /** erase_labels() */
    method EraseLabels()
      requires Valid()
      modifies this
      ensures Valid() && State() == old(State()).(labels := map[])
    {
      labels := map[];
    }

    /** label() */
    method Label() returns (res: Result<()>)
      requires Valid()
      modifies this
      ensures Valid() && After(res, State()) == Driver.Label(old(State()))
    {
      SkipWhite();
      if !PeekNameStart(Src()) {
        return Ok(());
      }
      var first := Ch().c;
      NextChar();
      var rest := ReadWord(4, Letters, false);
      var name := [first] + rest;
      if |name| == 5 && Ch() != Char(':') {
        return Fail(NameTooLong);
      }
      if Ch() == Char(':') {
        var _ :- CreateLabel(name);
        NextChar();
        return Ok(());
      }
      res := Unget(|name|);
    }

    /** opcode() */
    method Opcode() returns (res: Result<()>)
      requires Valid()
      modifies this, obj
      ensures Valid() && After(res, State()) == Driver.Opcode(old(State()))
    {
      SkipWhite();
      if !PeekAlpha(Src()) {
        return Ok(());
      }
      var w := ReadWord(5, Letters, true);
      if |w| == 5 {
        return Fail(NameTooLong);
      }
      if !Driver.MnemonicEnd(Src()) {
        return Fail(SyntaxError);
      }
      var op := FindOpcode(w);
      if op.None? {
        return Fail(UnknownOpcode);
      }
      res := Callback(op.value);
    }

    /** statement() */
    method Statement() returns (res: Result<()>)
      requires Valid()
      modifies this, obj
      ensures Valid() && After(res, State()) == Driver.Statement(old(State()))
    {
      res := Label();
      if res.Fail? {
        return;
      }
      res := Opcode();
      if res.Fail? {
        return;
      }
      res := EndLine();
    }

    /** The end of statement(): an optional comment, then the newline, which is consumed
        and counted. */
    method EndLine() returns (res: Result<()>)
      requires Valid()
      modifies this
      ensures Valid()
      ensures After(res, State()) == Driver.EndLine(old(State()))
    {
      SkipComment();
      if Ch() != Char('\n') {
        return Fail(SyntaxError);
      }
      NextChar();
      linenr := linenr + 1;
      return Ok(());
    }

    /** The loop `while (ch() != EOF) statement();` of process_file(). */
    method RunPass() returns (res: Result<()>)
      requires Valid()
      modifies this, obj
      ensures Valid() && After(res, State()) == Driver.RunPass(old(State()))
    {
      while Ch() != EOF
        invariant Valid() && Driver.RunPass(State()) == Driver.RunPass(old(State()))
        decreases |text| - at
      {
        var _ :- Statement();
      }
      return Ok(());
    }

    /** process_file() on the text of the file at `path`: the first pass, the second when
        a label was missing, then the object file name and the image, object[0 .. PC). */
    method ProcessFile(path: string, source: string) returns (res: Result<(string, seq<bv8>)>)
      requires Valid()
      modifies this, obj
      ensures Valid()
      ensures res == (var image :- Driver.Assemble(source);
                      var name :- OutputName.ObjFileName(path);
                      Ok((name, image)))
    {
      text, at, lineStart := Driver.CompleteLines(source), 0, 0;
      linenr, org, pc, pass, needSecondPass := 1, 0, 0, 0, false;
      EraseLabels();
      assert State() == Driver.Init(source);
      var _ :- RunPass();
      ghost var m1 := State();
      if needSecondPass {
        at, lineStart := 0, 0;
        linenr, org, pc, pass := 1, 0, 0, 1;
        assert State() == Driver.Rewind(m1);
        var _ :- RunPass();
      }
      assert Driver.Assemble(source) == Ok(obj[..pc]);
      var name :- OutputName.ObjFileName(path);
      return Ok((name, obj[..pc]));
    }
  }
}
