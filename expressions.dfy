/** The expression evaluator: numeric literals, label references, `$`, and the operators
    `^` (right-associative, tightest), `*` `/` `%` and then `+` `-` (left-associative), with
    the range checks of the immediate operands. There are no parentheses. */
module Expressions {
  import opened Errors
  import opened Text
  import opened Arith
  import opened Scanner
  import opened Symbols
  import opened Machines

  // Numeric literals -----------------------------------------------------------------------

  /** A suffix character, compared after toupper as integer() does. */
  predicate PeekSuffix(c: Cursor, x: char) { Peek(c).Char? && ToUpper(Peek(c).c) == x }

  /** integer(): a literal starts with a decimal digit; up to five hexadecimal-digit
      characters are read; a following 'H' or 'h' makes them hexadecimal and is consumed;
      otherwise they must all be decimal digits and a following 'D' or 'd' is consumed. */
  function Integer(c: Cursor): (r: Result<(int, Cursor)>)
    requires Wf(c)
    ensures r.Ok? ==> Forward(c, r.value.1) && r.value.1.lineStart == c.lineStart
    ensures r.Ok? ==> 0 <= r.value.0 < 0x10_0000
    ensures !PeekDigit(c) ==> r == Fail(InvalidNumber)
    ensures r.Fail? ==> r.err == InvalidNumber
  {
    if !PeekDigit(c) then Fail(InvalidNumber)
    else
      var (buf, c1) := ReadRun(c, 5, HexDigitChars, false);
      ReadHexDigits(c);
      if PeekSuffix(c1, 'H') then
        HexBound(buf);
        Ok((DigitsValue(buf, 16), Advance(c1)))
      else if !AllDigits(buf) then Fail(InvalidNumber)
      else
        DecimalBound(buf);
        Ok((DigitsValue(buf, 10), if PeekSuffix(c1, 'D') then Advance(c1) else c1))
  }

  /** integer() by the outcome of its reading loop. */
  lemma IntegerOfRun(c: Cursor, w: string, c1: Cursor)
    requires Wf(c) && PeekDigit(c) && ReadRun(c, 5, HexDigitChars, false) == (w, c1)
    ensures AllXDigits(w)
    ensures PeekSuffix(c1, 'H') ==> Integer(c) == Ok((DigitsValue(w, 16), Advance(c1)))
    ensures !PeekSuffix(c1, 'H') && !AllDigits(w) ==> Integer(c) == Fail(InvalidNumber)
    ensures !PeekSuffix(c1, 'H') && AllDigits(w) ==>
              Integer(c) == Ok((DigitsValue(w, 10), if PeekSuffix(c1, 'D') then Advance(c1) else c1))
  {
    ReadHexDigits(c);
  }

  /** The characters integer() collects are hexadecimal digits. */
  lemma ReadHexDigits(c: Cursor)
    requires Wf(c)
    ensures AllXDigits(ReadRun(c, 5, HexDigitChars, false).0)
  {
    var (buf, c1) := ReadRun(c, 5, HexDigitChars, false);
    forall i | 0 <= i < |buf| ensures IsXDigit(buf[i]) {
      assert buf[i] == c.text[c.at + i];
    }
  }

  lemma HexBound(s: string)
    requires AllXDigits(s) && |s| <= 5
    ensures DigitsValue(s, 16) < 0x10_0000
  {
    DigitsValueBound(s, 16);
    PlaceValueMono(16, |s|, 5);
  }

  lemma DecimalBound(s: string)
    requires AllXDigits(s) && AllDigits(s) && |s| <= 5
    ensures DigitsValue(s, 10) < 100000
  {
    DigitsValueBound(s, 10);
    PlaceValueMono(10, |s|, 5);
  }

  lemma {:induction false} PlaceValueMono(b: nat, n: nat, k: nat)
    requires b >= 1 && n <= k
    ensures PlaceValue(b, n) <= PlaceValue(b, k)
    decreases k
  {
    if n < k {
      PlaceValueMono(b, n, k - 1);
      MulMono(1, b, PlaceValue(b, k - 1));
    }
  }

  // Operands -------------------------------------------------------------------------------

  /** label_value(): the name's recorded address; a name missing on the first pass reads as
      0 and asks for a second pass; missing on the second pass it is fatal. */
  function LabelValue(m: Machine): (r: Result<(int, Machine)>)
    requires WellFormed(m) && PeekNameStart(m.src)
    ensures r.Ok? ==> Scans(m, r.value.1) && 0 <= r.value.0 < 65536
    ensures var name := ReadName(m.src).0;
            && (r.Fail? <==> name !in m.labels && m.pass != 0)
            && (r.Fail? ==> r.err == UndefinedSymbol)
            && (r.Ok? ==> r.value.0 == (if name in m.labels then m.labels[name] else 0))
            && (r.Ok? ==> r.value.1.needSecondPass == (m.needSecondPass || name !in m.labels))
  {
    var (name, c1) := ReadName(m.src);
    match Resolve(m.labels, m.pass, name)
    case Resolved(a) => Ok((a, m.(src := c1)))
    case Deferred => Ok((0, m.(src := c1, needSecondPass := true)))
    case Undefined => Fail(UndefinedSymbol)
  }

  /** constant(): a label reference, `$` for the current load address, or a numeric literal
      with an optional sign written right before its first digit. */
  function Constant(m: Machine): (r: Result<(int, Machine)>)
    requires WellFormed(m)
    ensures r.Ok? ==> Scans(m, r.value.1)
    ensures PeekIs(SkipWhite(m.src), '$') ==> r.Ok? && r.value.0 == m.org
    ensures PeekIs(SkipWhite(m.src), '-') ==> r.Fail? || -0x10_0000 < r.value.0 <= 0
  {
    var c := SkipWhite(m.src);
    if PeekNameStart(c) then LabelValue(m.(src := c))
    else if PeekIs(c, '$') then Ok((m.org, m.(src := Advance(c))))
    else
      var sign := if PeekIs(c, '-') then -1 else 1;
      var c1 := if PeekIs(c, '-') || PeekIs(c, '+') then Advance(c) else c;
      var t :- Integer(c1);
      Ok((t.0 * sign, m.(src := t.1)))
  }

  /** A name under the cursor, after the blanks, is a label reference. */
  lemma ConstantReadsName(m: Machine)
    requires WellFormed(m) && PeekNameStart(SkipWhite(m.src))
    ensures Constant(m) == LabelValue(m.(src := SkipWhite(m.src)))
  {
  }

  /** An unsigned literal is integer()'s value, and the read ends where integer() stops. */
  lemma ConstantReadsLiteral(m: Machine)
    requires WellFormed(m) && PeekDigit(SkipWhite(m.src))
    ensures var t := Integer(SkipWhite(m.src));
            && (t.Fail? ==> Constant(m) == Fail(t.err))
            && (t.Ok? ==> Constant(m) == Ok((t.value.0, m.(src := t.value.1))))
  {
    var c := SkipWhite(m.src);
    assert !PeekNameStart(c) && !PeekIs(c, '$') && !PeekIs(c, '-') && !PeekIs(c, '+');
    if Integer(c).Ok? {
      assert Constant(m) == Ok((Integer(c).value.0, m.(src := Integer(c).value.1)));
    }
  }

  /** A '-' is skipped and negates integer()'s value of the literal after it. */
  lemma ConstantReadsMinus(m: Machine)
    requires WellFormed(m) && PeekIs(SkipWhite(m.src), '-')
    ensures var t := Integer(Advance(SkipWhite(m.src)));
            && (t.Fail? ==> Constant(m) == Fail(t.err))
            && (t.Ok? ==> Constant(m) == Ok((t.value.0 * -1, m.(src := t.value.1))))
            && (t.Ok? ==> Constant(m).value.0 == -t.value.0)
  {
    var c := SkipWhite(m.src);
    assert Peek(c) == Char('-');
    assert !PeekNameStart(c) && !PeekIs(c, '$');
  }

  /** A '+' is skipped and keeps integer()'s value of the literal after it. */
  lemma ConstantReadsPlus(m: Machine)
    requires WellFormed(m) && PeekIs(SkipWhite(m.src), '+')
    ensures var t := Integer(Advance(SkipWhite(m.src)));
            && (t.Fail? ==> Constant(m) == Fail(t.err))
            && (t.Ok? ==> Constant(m) == Ok((t.value.0, m.(src := t.value.1))))
  {
    var c := SkipWhite(m.src);
    assert Peek(c) == Char('+');
    assert !PeekNameStart(c) && !PeekIs(c, '$');
    var t := Integer(Advance(c));
    if t.Ok? {
      assert Constant(m) == Ok((t.value.0 * 1, m.(src := t.value.1)));
    }
  }

  // Operators ------------------------------------------------------------------------------

  /** power(): a constant, optionally raised by `^` to a power() (so `^` groups to the
      right); an exponent below 1 is fatal. */
  function Power(m: Machine): (r: Result<(int, Machine)>)
    requires WellFormed(m)
    ensures r.Ok? ==> Scans(m, r.value.1)
    decreases |m.src.text| - m.src.at
  {
    var t :- Constant(m);
    var c := SkipWhite(t.1.src);
    if PeekIs(c, '^') then
      var u :- Power(t.1.(src := Advance(c)));
      var n :- CPow(t.0, u.0);
      Ok((n, u.1))
    else Ok((t.0, t.1.(src := c)))
  }

  /** The loop of factor(): `acc` is the value so far; each `*`, `/` or `%` takes the next
      power() as its right operand. C semantics: the quotient truncates toward zero and the
      remainder takes the dividend's sign. */
  function FactorLoop(acc: int, m: Machine): (r: Result<(int, Machine)>)
    requires WellFormed(m)
    ensures r.Ok? ==> Scans(m, r.value.1)
    ensures r.Ok? ==> var c := r.value.1.src; !PeekIs(c, '*') && !PeekIs(c, '/') && !PeekIs(c, '%')
    decreases |m.src.text| - m.src.at
  {
    var c := SkipWhite(m.src);
    if PeekIs(c, '*') then
      var t :- Power(m.(src := Advance(c)));
      var v :- CMul(acc, t.0);
      FactorLoop(v, t.1)
    else if PeekIs(c, '/') then
      var t :- Power(m.(src := Advance(c)));
      var v :- CQuot(acc, t.0);
      FactorLoop(v, t.1)
    else if PeekIs(c, '%') then
      var t :- Power(m.(src := Advance(c)));
      var v :- CMod(acc, t.0);
      FactorLoop(v, t.1)
    else Ok((acc, m.(src := c)))
  }

  /** factor() */
  function Factor(m: Machine): (r: Result<(int, Machine)>)
    requires WellFormed(m)
    ensures r.Ok? ==> Scans(m, r.value.1)
  {
    var t :- Power(m);
    FactorLoop(t.0, t.1)
  }

  /** The loop of term(): each `+` or `-` takes the next factor() as its right operand. */
  function TermLoop(acc: int, m: Machine): (r: Result<(int, Machine)>)
    requires WellFormed(m)
    ensures r.Ok? ==> Scans(m, r.value.1)
    ensures r.Ok? ==> var c := r.value.1.src; !PeekIs(c, '+') && !PeekIs(c, '-')
    decreases |m.src.text| - m.src.at
  {
    var c := SkipWhite(m.src);
    if PeekIs(c, '+') then
      var t :- Factor(m.(src := Advance(c)));
      var v :- CAdd(acc, t.0);
      TermLoop(v, t.1)
    else if PeekIs(c, '-') then
      var t :- Factor(m.(src := Advance(c)));
      var v :- CSub(acc, t.0);
      TermLoop(v, t.1)
    else Ok((acc, m.(src := c)))
  }

  /** term(), which expr() is. */
  function Expr(m: Machine): (r: Result<(int, Machine)>)
    requires WellFormed(m)
    ensures r.Ok? ==> Scans(m, r.value.1)
  {
    var t :- Factor(m);
    TermLoop(t.0, t.1)
  }

  // Immediate operands ---------------------------------------------------------------------

  /** imm3(): an expression above 7 is fatal; there is no lower bound. */
  function Imm3(m: Machine): (r: Result<(int, Machine)>)
    requires WellFormed(m)
    ensures Expr(m).Ok? && Expr(m).value.0 <= 7 ==> r == Expr(m)
    ensures Expr(m).Ok? && Expr(m).value.0 > 7 ==> r == Fail(OperandRangeError)
    ensures Expr(m).Fail? ==> r == Expr(m)
    ensures r.Ok? ==> Scans(m, r.value.1) && r.value.0 <= 7
  {
    var t :- Expr(m);
    if t.0 > 7 then Fail(OperandRangeError) else Ok(t)
  }

  /** imm8(): an expression above 255 is fatal; there is no lower bound. */
  function Imm8(m: Machine): (r: Result<(int, Machine)>)
    requires WellFormed(m)
    ensures Expr(m).Ok? && Expr(m).value.0 <= 255 ==> r == Expr(m)
    ensures Expr(m).Ok? && Expr(m).value.0 > 255 ==> r == Fail(OperandRangeError)
    ensures Expr(m).Fail? ==> r == Expr(m)
    ensures r.Ok? ==> Scans(m, r.value.1) && r.value.0 <= 255
  {
    var t :- Expr(m);
    if t.0 > 255 then Fail(OperandRangeError) else Ok(t)
  }

  /** imm16(): an expression above 65536 is fatal (65536 itself passes); there is no lower
      bound. */
  function Imm16(m: Machine): (r: Result<(int, Machine)>)
    requires WellFormed(m)
    ensures Expr(m).Ok? && Expr(m).value.0 <= 65536 ==> r == Expr(m)
    ensures Expr(m).Ok? && Expr(m).value.0 > 65536 ==> r == Fail(OperandRangeError)
    ensures Expr(m).Fail? ==> r == Expr(m)
    ensures r.Ok? ==> Scans(m, r.value.1) && r.value.0 <= 65536
  {
    var t :- Expr(m);
    if t.0 > 65536 then Fail(OperandRangeError) else Ok(t)
  }
}
