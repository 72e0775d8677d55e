/** How expr() groups its operators: `^` binds tightest and groups to the right, `*` `/` `%`
    come next, `+` and `-` last, and both of those levels group to the left; a zero divisor
    and an exponent below 1 are fatal. Each lemma takes its operands as whatever the level
    below reads, so it holds for any operand text. */
module Grammar {
  import opened Errors
  import opened Arith
  import opened Scanner
  import opened Machines
  import opened Expressions

  /** The operator `op` is next, once blanks are skipped. */
  predicate OpNext(m: Machine, op: char) {
    WellFormed(m) && PeekIs(SkipWhite(m.src), op)
  }

  /** `m` past the operator that OpNext(m, _) found. */
  function PastOp(m: Machine): Machine
    requires WellFormed(m)
  {
    m.(src := Advance(SkipWhite(m.src)))
  }

  /** `m` past the blanks in front of whatever follows the last operand. */
  function Settled(m: Machine): Machine
    requires WellFormed(m)
  {
    m.(src := SkipWhite(m.src))
  }

  predicate AdditiveOp(op: char) { op == '+' || op == '-' }

  predicate MultiplicativeOp(op: char) { op == '*' || op == '/' || op == '%' }

  /** The operation of term()'s loop that `op` selects. */
  function Additive(op: char, a: int, b: int): Result<int>
    requires AdditiveOp(op)
  {
    if op == '+' then CAdd(a, b) else CSub(a, b)
  }

  /** The operation of factor()'s loop that `op` selects. */
  function Multiplicative(op: char, a: int, b: int): Result<int>
    requires MultiplicativeOp(op)
  {
    if op == '*' then CMul(a, b) else if op == '/' then CQuot(a, b) else CMod(a, b)
  }

  // One step of each level ------------------------------------------------------------------

  lemma TermLoopStep(acc: int, m: Machine, op: char, b: int, m1: Machine)
    requires AdditiveOp(op) && OpNext(m, op) && Factor(PastOp(m)) == Ok((b, m1))
    ensures TermLoop(acc, m) == (var v :- Additive(op, acc, b); TermLoop(v, m1))
  {
  }

  lemma TermLoopEnds(acc: int, m: Machine)
    requires WellFormed(m) && !OpNext(m, '+') && !OpNext(m, '-')
    ensures TermLoop(acc, m) == Ok((acc, Settled(m)))
  {
  }

  lemma FactorLoopStep(acc: int, m: Machine, op: char, b: int, m1: Machine)
    requires MultiplicativeOp(op) && OpNext(m, op) && Power(PastOp(m)) == Ok((b, m1))
    ensures FactorLoop(acc, m) == (var v :- Multiplicative(op, acc, b); FactorLoop(v, m1))
  {
  }

  lemma FactorLoopEnds(acc: int, m: Machine)
    requires WellFormed(m) && !OpNext(m, '*') && !OpNext(m, '/') && !OpNext(m, '%')
    ensures FactorLoop(acc, m) == Ok((acc, Settled(m)))
  {
  }

  lemma FactorStarts(m: Machine, a: int, m1: Machine)
    requires WellFormed(m) && Power(m) == Ok((a, m1))
    ensures Factor(m) == FactorLoop(a, m1)
  {
  }

  lemma PowerStep(m: Machine, a: int, m1: Machine, e: int, m2: Machine)
    requires WellFormed(m) && Constant(m) == Ok((a, m1))
    requires OpNext(m1, '^') && Power(PastOp(m1)) == Ok((e, m2))
    ensures Power(m) == (var n :- CPow(a, e); Ok((n, m2)))
  {
  }

  lemma PowerEnds(m: Machine, a: int, m1: Machine)
    requires WellFormed(m) && Constant(m) == Ok((a, m1)) && !OpNext(m1, '^')
    ensures Power(m) == Ok((a, Settled(m1)))
  {
  }

  // Grouping and precedence -----------------------------------------------------------------

  /** "a - b + c" and the like are (a - b) + c. */
  lemma AdditiveGroupsLeft(m: Machine, op1: char, op2: char, a: int, m1: Machine,
                           b: int, m2: Machine, c: int, m3: Machine)
    requires AdditiveOp(op1) && AdditiveOp(op2)
    requires WellFormed(m) && Factor(m) == Ok((a, m1))
    requires OpNext(m1, op1) && Factor(PastOp(m1)) == Ok((b, m2))
    requires OpNext(m2, op2) && Factor(PastOp(m2)) == Ok((c, m3))
    requires !OpNext(m3, '+') && !OpNext(m3, '-')
    ensures Expr(m) == (var d :- Additive(op1, a, b); var v :- Additive(op2, d, c); Ok((v, Settled(m3))))
  {
    TermLoopStep(a, m1, op1, b, m2);
    if Additive(op1, a, b).Ok? {
      var d := Additive(op1, a, b).value;
      TermLoopStep(d, m2, op2, c, m3);
      if Additive(op2, d, c).Ok? {
        TermLoopEnds(Additive(op2, d, c).value, m3);
      }
    }
  }

  /** "a / b * c" and the like are (a / b) * c. */
  lemma MultiplicativeGroupsLeft(m: Machine, op1: char, op2: char, a: int, m1: Machine,
                                 b: int, m2: Machine, c: int, m3: Machine)
    requires MultiplicativeOp(op1) && MultiplicativeOp(op2)
    requires WellFormed(m) && Power(m) == Ok((a, m1))
    requires OpNext(m1, op1) && Power(PastOp(m1)) == Ok((b, m2))
    requires OpNext(m2, op2) && Power(PastOp(m2)) == Ok((c, m3))
    requires !OpNext(m3, '*') && !OpNext(m3, '/') && !OpNext(m3, '%')
    ensures Factor(m) ==
      (var d :- Multiplicative(op1, a, b); var v :- Multiplicative(op2, d, c); Ok((v, Settled(m3))))
  {
    FactorLoopStep(a, m1, op1, b, m2);
    if Multiplicative(op1, a, b).Ok? {
      var d := Multiplicative(op1, a, b).value;
      FactorLoopStep(d, m2, op2, c, m3);
      if Multiplicative(op2, d, c).Ok? {
        FactorLoopEnds(Multiplicative(op2, d, c).value, m3);
      }
    }
  }

  /** "a ^ b ^ c" is a ^ (b ^ c). */
  lemma PowerGroupsRight(m: Machine, a: int, m1: Machine, b: int, m2: Machine, c: int, m3: Machine)
    requires WellFormed(m) && Constant(m) == Ok((a, m1))
    requires OpNext(m1, '^') && Constant(PastOp(m1)) == Ok((b, m2))
    requires OpNext(m2, '^') && Constant(PastOp(m2)) == Ok((c, m3))
    requires !OpNext(m3, '^')
    ensures Power(m) == (var e :- CPow(b, c); var v :- CPow(a, e); Ok((v, Settled(m3))))
  {
    PowerEnds(PastOp(m2), c, m3);
    PowerStep(PastOp(m1), b, m2, c, Settled(m3));
    if CPow(b, c).Ok? {
      PowerStep(m, a, m1, CPow(b, c).value, Settled(m3));
    }
  }

  /** In "a + b * c" the product is taken first, whichever operators of the two levels
      stand there; term()'s loop then goes on after c. */
  lemma ProductBindsTighter(acc: int, m1: Machine, op1: char, op2: char,
                            b: int, m2: Machine, c: int, m3: Machine)
    requires AdditiveOp(op1) && MultiplicativeOp(op2)
    requires OpNext(m1, op1) && Power(PastOp(m1)) == Ok((b, m2))
    requires OpNext(m2, op2) && Power(PastOp(m2)) == Ok((c, m3))
    requires !OpNext(m3, '*') && !OpNext(m3, '/') && !OpNext(m3, '%')
    ensures TermLoop(acc, m1) ==
      (var p :- Multiplicative(op2, b, c); var v :- Additive(op1, acc, p); TermLoop(v, Settled(m3)))
  {
    FactorStarts(PastOp(m1), b, m2);
    FactorLoopStep(b, m2, op2, c, m3);
    if Multiplicative(op2, b, c).Ok? {
      var p := Multiplicative(op2, b, c).value;
      FactorLoopEnds(p, m3);
      TermLoopStep(acc, m1, op1, p, Settled(m3));
    }
  }

  /** In "a * b ^ c" the power is taken first; factor()'s loop then goes on after c. */
  lemma PowerBindsTighter(acc: int, m1: Machine, op: char, b: int, m2: Machine, c: int, m3: Machine)
    requires MultiplicativeOp(op)
    requires OpNext(m1, op) && Constant(PastOp(m1)) == Ok((b, m2))
    requires OpNext(m2, '^') && Power(PastOp(m2)) == Ok((c, m3))
    ensures FactorLoop(acc, m1) == (var p :- CPow(b, c); var v :- Multiplicative(op, acc, p); FactorLoop(v, m3))
  {
    PowerStep(PastOp(m1), b, m2, c, m3);
    if CPow(b, c).Ok? {
      FactorLoopStep(acc, m1, op, CPow(b, c).value, m3);
    }
  }

  // Fatal operands --------------------------------------------------------------------------

  /** A right operand of `/` or `%` that evaluates to zero stops the assembly. */
  lemma ZeroDivisorFails(acc: int, m: Machine, op: char, m1: Machine)
    requires (op == '/' || op == '%') && OpNext(m, op) && Power(PastOp(m)) == Ok((0, m1))
    ensures FactorLoop(acc, m) == Fail(if op == '/' then DivisionByZero else ModuloByZero)
  {
    FactorLoopStep(acc, m, op, 0, m1);
  }

  /** An exponent that evaluates below 1 stops the assembly, whatever the base. */
  lemma ExponentBelowOneFails(m: Machine, a: int, m1: Machine, e: int, m2: Machine)
    requires WellFormed(m) && Constant(m) == Ok((a, m1))
    requires OpNext(m1, '^') && Power(PastOp(m1)) == Ok((e, m2)) && e < 1
    ensures Power(m) == Fail(NegativeExponent)
  {
    PowerStep(m, a, m1, e, m2);
  }
}
