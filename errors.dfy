/** Failure outcomes of the assembler. The original stops the whole run on the first of
    these (it prints a message and exits with status 13); here each is a value. */
module Errors {

  datatype Error =
    | SyntaxError         // a missing ',' or line terminator, or a mnemonic not followed by a blank, ';' or end of input
    | InvalidRegister     // a register or register-pair name outside the table its instruction uses
    | InvalidNumber       // a literal that does not start with a digit, or a non-decimal digit without 'H'
    | OperandRangeError   // an imm3, imm8 or imm16 operand above its bound
    | IllegalInstruction  // MOV M,M, whose encoding is HLT
    | DuplicateSymbol     // a label defined twice
    | ReservedName        // a label spelled like a mnemonic
    | UndefinedSymbol     // a label still missing on the second pass
    | DivisionByZero
    | NegativeExponent    // an exponent below 1
    | NameTooLong         // a five-letter word that is not a label, or a five-letter mnemonic
    | UnknownOpcode
    | UngetUnderflow      // a push-back past the start of the current line
    | OutputNameTooLong   // the derived .obj name does not fit its 32-byte buffer
    // Where the original's behaviour is undefined, the model stops with one of these instead.
    | ModuloByZero        // '%' by zero
    | UnterminatedString  // a DB string still open at end of input
    | ObjectOverflow      // a byte written past the 64 KiB object buffer
    | IntOverflow         // an expression result outside the range of a 32-bit int

  datatype Option<T> = None | Some(value: T)

  /** The outcome of an operation: a value, or the error that stops the run. */
  datatype Result<T> = Ok(value: T) | Fail(err: Error) {
    predicate IsFailure() { Fail? }
    function PropagateFailure<U>(): Result<U> requires Fail? { Fail(err) }
    function Extract(): T requires Ok? { value }
  }

  /** A method's result paired with the state it leaves, to compare with a function that
      returns both. */
  function Pair<T, S>(r: Result<T>, s: S): Result<(T, S)> {
    if r.Fail? then Fail(r.err) else Ok((r.value, s))
  }

  /** A method's success or failure with the state it leaves. */
  function After<S>(r: Result<()>, s: S): Result<S> {
    if r.Fail? then Fail(r.err) else Ok(s)
  }
}
