# A verified model of asm.c, a two-pass Intel 8080 assembler

`asm.c` reads 8080 assembly source one statement per line and writes the machine code to a
file with the same name and the extension `.obj`. A statement is made of four parts:
- an optional label followed by `:`;
- an optional mnemonic with its operands;
- an optional `;` comment;
- a line end.

Operands are register names, register-pair names and expressions. Expressions are built from
five kinds of operand:
- decimal literals;
- hexadecimal literals;
- labels;
- `$` (the current load address);
- the operators `^ * / % + -`.

Labels are collected on the first pass. A label used before its definition triggers a second
pass, which keeps the labels and assembles again from the start.

The model has two layers.

- **Specification functions.** Every operation of the assembler is a function over a `Machine`
  value, which holds all of the program's globals:
  - the input cursor (`line`/`pos`);
  - `linenr`, `pass` and `need_second_pass`;
  - `org`;
  - the object image `object[..PC]`;
  - the label list, as a map.

  The modules are Text, Arith, Scanner, Registers, Opcodes, Symbols, Machines, Expressions,
  Encoders, Driver and OutputName. Lemmas about these functions state what the assembler
  promises: encodings, byte counts, range checks, literal syntax, operator grouping, symbol
  passes and the output name. Those lemmas are in Literals and Grammar, and beside the
  functions.
- **The `Assembler` class.** It holds the same globals as mutable fields, with the object
  image in an `array<bv8>` of 65536 bytes. It has one method per function of the core
  (everything but `die`, `xstrdup`, `xdigit` and `main`).
  - The `factor`/`term`/`db`/`dw` loops and the pass loop are `while` loops with invariants.
  - Every method is proved to leave exactly the state, and return exactly the value, that its
    specification function computes from the state the method started in.

Every fatal path of `asm.c` (`die()`, which prints and exits with status 13) is an `Error`
value in the model. Where C leaves the behaviour undefined, the model mostly stops with an
error of its own. The one exception is RST with a negative vector. Both are listed under
"Left out".

This revision of `asm.c` has some quirks, and the model keeps them as written:
- **Label length.** A label is at most five characters (asm.c:163-166 and 667-674). A
  six-letter label such as `TARGET:` is fatal. A six-letter reference reads only five letters
  and then fails at the line end.
- **The `D` suffix.** A `D`/`d` suffix only selects decimal after five digits
  (asm.c:197-214). Otherwise the `D` is read as a hexadecimal digit, and the literal is
  rejected.
- **Letters after a literal.** `integer()` does not reject a letter after a literal other
  than `H`/`D` (asm.c:200-216). It is left for the caller.
- **`imm16` range.** `imm16` accepts 65536, because the test is `res > 65536` (asm.c:332).
- **Final line.** A last line without `'\n'` is never assembled (asm.c:77-97). `fgets` sets
  end-of-file and `ch()` then reports `EOF`.

## Model

| member | source | states |
|---|---|---|
| Text.ToUpper | asm.c:130 | toupper: lower-case letters move to upper case, every other character is unchanged, and letters stay letters |
| Text.XDigit | asm.c:183-189 | the value of a hex digit is below 16, below 10 exactly for decimal digits, and c - '0' for those |
| Text.XDigitInvertsTable | asm.c:183-189 | xdigit() inverts the digit table in both cases: the upper- and lower-case letter of value v both read back as v |
| Text.DigitsValueBound | asm.c:203-213 | the value of n digits in a base is below base^n |
| Arith.Checked | asm.c:259-308 | an int result is kept exactly when it fits 32 bits; otherwise the run stops with IntOverflow |
| Arith.CDiv | asm.c:276 | C's `/`: the remainder left is smaller than the divisor and has the dividend's sign (truncation toward zero) |
| Arith.CRem | asm.c:280 | C's `%`: dividend = divisor * quotient + remainder, with the remainder smaller than the divisor and signed like the dividend |
| Scanner.Advance | asm.c:82-97 | nextchar(): moves one character forward, starts a new line after '\n', and does nothing at end of input |
| Scanner.Unget | asm.c:100-104 | unget(cnt): succeeds exactly when cnt characters of the current line lie behind the cursor, and then moves back by cnt |
| Scanner.SkipWhite | asm.c:108-111 | skip_white(): skips exactly the blanks and tabs and stops on a character that is neither |
| Scanner.SkipToLineEnd | asm.c:117-119 | the comment loop stops at the first '\n' or at end of input, consuming no newline |
| Scanner.SkipComment | asm.c:113-120 | skip_comment(): without ';' it is skip_white(); with ';' it stops at the line end or end of input |
| Scanner.ReadRun | asm.c:128-131 | the bounded reading loops: at most max characters of the class, upper-cased on request, stopping early only before a character outside the class |
| Scanner.ReadRunStopsAt | asm.c:128-131 | a run of n class characters followed by a non-class character (or reaching the bound) is read to exactly n characters |
| Scanner.ReadRunIs | asm.c:128-131 | when the text holds the word w followed by a stop, the loop returns w and the cursor after it |
| Scanner.ReadName | asm.c:163-166 | label_value()'s name: a first character, then letters, at most five, exactly the text read |
| Registers.IndexOf | asm.c:134-136 | the table search returns the first index holding the name, or none when no entry matches |
| Registers.TablesDistinct | asm.c:142-155 | the three register tables have no repeated name |
| Registers.IndexOfInverts | asm.c:134-136 | in a table without repeats, looking up the i-th name returns i |
| Registers.RegisterCodes | asm.c:142-155 | B,C,D,E,H,L,M,A are 0..7; PSW is pair 3 only for PUSH/POP and SP is pair 3 only for the others |
| Registers.ReadRegister | asm.c:124-140 | _reg(): the index returned names the upper-cased letters read after the blanks; any failure is InvalidRegister |
| Registers.ReadRegisterReadsWord | asm.c:128-131 | the letters read are the whole word after the blanks: the read stops before a letter only after four |
| Registers.ReadRegisterRejects | asm.c:124-140 | a word of letters whose upper-case form is not in the table is fatal with InvalidRegister, in any letter case; a longer word is judged by its first four letters |
| Registers.TablesWellSpelled | asm.c:142-155 | every register name is 1-4 upper-case letters |
| Registers.ReadRegisterRoundTrip | asm.c:124-140 | a register spelled in any letter case and followed by a non-letter reads back as its table index |
| Registers.SpelledLetters | asm.c:128-131 | a spelling of a table name is at most four letters |
| Registers.ReadRunUpper | asm.c:128-131 | the four-letter loop reads an exact spelling as its upper-case form |
| Opcodes.FindFrom | asm.c:702-704 | the search finds the first entry with the mnemonic at or after i, or reports that none exists |
| Opcodes.Find | asm.c:702-706 | the entry found is in the table and has the mnemonic, and nothing is found exactly for non-mnemonics |
| Opcodes.WidthTable | asm.c:386-503 | byte counts per encoder: 1 for no-operand and register forms, 2 for MVI, immediate and IN/OUT, 3 for LXI, direct addressing and jumps/calls, 0 for ORG |
| Opcodes.Byte | asm.c:47 | the unsigned char that gen_code receives is the value mod 256 |
| Opcodes.HighByte | asm.c:451 | r>>8 as a byte is (r / 256) mod 256 |
| Opcodes.LittleEndian | asm.c:449-452 | the low and high bytes written together give back the operand mod 65536 |
| Opcodes.Bits3To5 | asm.c:390-395 | r<<3 ORed in leaves bits 0-2 and 6-7 of the base alone and puts r in bits 3-5 when they were clear |
| Opcodes.Bits0To2 | asm.c:421-425 | r ORed in leaves bits 3-7 alone and puts r in bits 0-2 when they were clear |
| Opcodes.MoveByte | asm.c:397-410 | MOV puts dst in bits 3-5 and src in bits 0-2; with base 0x40 the result is 0x76 exactly for M,M |
| Opcodes.Bits4To5 | asm.c:427-439 | pair<<4 ORed in leaves the other bits alone and puts the pair in bits 4-5 when they were clear |
| Opcodes.IndirectByte | asm.c:412-419 | STAX/LDAX set bit 4 exactly for pair D and change nothing else |
| Opcodes.RestartByte | asm.c:488-493 | for vectors 0..7 RST places the vector in bits 3-5 |
| Opcodes.TableFieldsClear | asm.c:505-609 | every base byte in the opcode table has the bits its encoder ORs into clear |
| Symbols.Address | asm.c:645 | a label address is an unsigned short: always in 0..65535, and org itself when org is in range |
| Symbols.Define | asm.c:630-649 | create_label(): nothing changes on pass 1; on pass 0 a duplicate or a mnemonic name fails, otherwise exactly the name is added with its address and the old labels keep theirs |
| Symbols.Resolve | asm.c:168-180 | a defined label resolves to its address; a missing one is deferred on pass 0 and undefined on pass 1 |
| Symbols.DefineThenResolve | asm.c:630-649 | a label just defined resolves, on either pass, to the address it was given |
| Symbols.DefineKeepsOthers | asm.c:643-646 | defining one label does not change how any other name resolves |
| Symbols.ResolveInLargerTable | asm.c:168-180 | once resolved, a label resolves the same way in any table holding the first, on any pass |
| Machines.Emit | asm.c:47-50 | gen_code(): appends exactly one byte and advances org by one; fails only when the 64 KiB buffer is full |
| Machines.EmitAll | asm.c:47-50 | writing several bytes appends them in order and advances org by their count; fails only when they do not fit |
| Machines.Zeros | asm.c:380-384 | the placeholder bytes of DS: n zeros |
| Expressions.Integer | asm.c:191-217 | integer(): a literal not starting with a decimal digit fails with InvalidNumber; a value read lies in 0..0xFFFFF |
| Expressions.ReadHexDigits | asm.c:197-199 | the run read holds only hexadecimal digits |
| Expressions.HexBound | asm.c:203-205 | five hex digits stay below 0x100000 |
| Expressions.DecimalBound | asm.c:208-211 | five decimal digits stay below 100000 |
| Expressions.LabelValue | asm.c:158-181 | label_value(): fails exactly for a missing name on pass 1; otherwise the stored address or 0, and need_second_pass set when the name was missing |
| Expressions.Constant | asm.c:219-237 | constant(): `$` yields org; a '-' literal is non-positive; the read only moves forward |
| Expressions.ConstantReadsName | asm.c:221-223 | a name start after the blanks makes constant() exactly label_value()'s reading |
| Expressions.ConstantReadsLiteral | asm.c:225-235 | a digit after the blanks makes constant() exactly integer()'s value and stop, or its failure |
| Expressions.ConstantReadsMinus | asm.c:229-235 | a '-' is skipped and the literal after it is integer()'s value negated, or integer()'s failure |
| Expressions.ConstantReadsPlus | asm.c:232-235 | a '+' is skipped and the literal after it is integer()'s value unchanged, or integer()'s failure |
| Expressions.Power | asm.c:248-257 | power() reads only forward and changes no other state (its value is stated by Grammar.PowerGroupsRight) |
| Expressions.FactorLoop | asm.c:259-286 | factor()'s loop stops only before a character other than `*`, `/` or `%` |
| Expressions.Factor | asm.c:259-286 | factor() reads only forward and changes no other state (its value is stated by Grammar.MultiplicativeGroupsLeft) |
| Expressions.TermLoop | asm.c:288-308 | term()'s loop stops only before a character other than `+` or `-` |
| Expressions.Expr | asm.c:310-312 | expr() reads only forward and changes no other state (its value is stated by Grammar.AdditiveGroupsLeft) |
| Expressions.Imm3 | asm.c:315-321 | imm3(): the expression's value when at most 7, OperandRangeError above; negative values pass |
| Expressions.Imm8 | asm.c:323-328 | imm8(): the expression's value when at most 255, OperandRangeError above; negative values pass |
| Expressions.Imm16 | asm.c:330-335 | imm16(): the expression's value when at most 65536, so 65536 itself passes; OperandRangeError above |
| Grammar.AdditiveGroupsLeft | asm.c:288-308 | `a op b op c` with `+`/`-` is (a op b) op c for any factors a, b, c |
| Grammar.MultiplicativeGroupsLeft | asm.c:259-286 | `a op b op c` with `*`, `/`, `%` is (a op b) op c for any powers a, b, c |
| Grammar.PowerGroupsRight | asm.c:248-257 | `a ^ b ^ c` is a ^ (b ^ c) |
| Grammar.ProductBindsTighter | asm.c:288-299 | in `a + b * c` (any operators of the two levels) the product is formed before the sum |
| Grammar.PowerBindsTighter | asm.c:259-269 | in `a * b ^ c` (any multiplicative operator) the power is formed before the product |
| Grammar.ZeroDivisorFails | asm.c:270-281 | a right operand of `/` evaluating to 0 stops with DivisionByZero, of `%` with ModuloByZero |
| Grammar.ExponentBelowOneFails | asm.c:239-246 | an exponent evaluating below 1 (0 included) stops with NegativeExponent, whatever the base |
| Encoders.Reg | asm.c:142-155 | a register operand is an index into its table; any failure is InvalidRegister |
| Encoders.RegReadsWord | asm.c:124-155 | the index read names the upper-cased whole word after the blanks (four letters at most), and the read fails exactly when _reg() rejects the word |
| Encoders.Comma | asm.c:402-405 | the operand separator succeeds exactly when ',' follows the blanks, and otherwise fails with SyntaxError |
| Encoders.Encode | asm.c:390-499 | an instruction encodes to exactly its encoder's byte count |
| Encoders.EncodeRejects | asm.c:406-417 | encoding fails exactly for MOV yielding 0x76 (with base 0x40: exactly MOV M,M) and for STAX/LDAX with a pair other than B or D |
| Encoders.EncodeKeepsBase | asm.c:390-493 | the first byte keeps every bit of the base byte outside the operand field |
| Encoders.EncodeField | asm.c:390-493 | with the field clear in the base byte, the operand field of the first byte is the register, pair or vector given |
| Encoders.MoveField | asm.c:397-407 | MOV's low six bits are dst<<3 \| src |
| Encoders.IndirectField | asm.c:412-418 | bit 4 of STAX/LDAX is 1 exactly for pair D |
| Encoders.RestartField | asm.c:488-492 | bits 3-5 of RST hold the low three bits of the vector |
| Encoders.EncodeImmediate | asm.c:441-499 | an 8-bit immediate is written as value mod 256; a 16-bit one low byte first, giving value mod 65536 |
| Encoders.StringBody | asm.c:341-353 | the DB string loop only advances and writes, keeps the labels, and advances org by the bytes written |
| Encoders.DbItem | asm.c:340-357 | one DB item only appends to the image and advances org by the bytes written |
| Encoders.DbItemWritesByte | asm.c:354-357 | a DB item that is not a string writes exactly one byte, imm8's value mod 256, and fails only when the buffer is full |
| Encoders.Db | asm.c:338-365 | db_cb() only appends to the image and advances org by the bytes written |
| Encoders.DbPieces | asm.c:338-365 | a DB list that assembles has at least one item, and the first piece is what its first item writes |
| Encoders.DbWritesPieces | asm.c:338-365 | db_cb() writes exactly its items' bytes, one item after the other, in order |
| Encoders.DwItem | asm.c:368-371 | one DW item writes exactly two bytes, and only after imm16 has read its value |
| Encoders.DwItemWritesWord | asm.c:368-371 | a DW item writes imm16's value low byte first, the two bytes giving back the value mod 65536, and fails only when the buffer is full |
| Encoders.Dw | asm.c:367-378 | dw_cb() only appends to the image and advances org by the bytes written |
| Encoders.DwValues | asm.c:367-378 | a DW list that assembles has at least one value |
| Encoders.Words | asm.c:370-371 | each 16-bit word is written as two bytes |
| Encoders.WordsHoldValues | asm.c:370-371 | each byte pair written gives back its word mod 65536, low byte first |
| Encoders.DwWritesWords | asm.c:367-378 | dw_cb() writes exactly the words its items' imm16 reads, in order, each low byte first |
| Encoders.Ds | asm.c:380-384 | ds_cb(): an imm16 failure is passed on; a negative count fails; otherwise it succeeds exactly when the count fits the buffer, and then appends that many zero bytes and advances org by as many |
| Encoders.GenericCb | asm.c:386-388 | generic_cb() writes one byte |
| Encoders.InrDcrCb | asm.c:390-395 | inr_dcr_cb() writes one byte |
| Encoders.MovCb | asm.c:397-410 | mov_cb() writes one byte |
| Encoders.StaxLdaxCb | asm.c:412-419 | stax_ldax_cb() writes one byte |
| Encoders.RmaCb | asm.c:421-425 | rma_cb() writes one byte |
| Encoders.PushPopCb | asm.c:427-432 | push_pop_cb() writes one byte |
| Encoders.RpiCb | asm.c:434-439 | rpi_cb() writes one byte |
| Encoders.LxiCb | asm.c:441-453 | lxi_cb() writes three bytes |
| Encoders.MviCb | asm.c:455-466 | mvi_cb() writes two bytes |
| Encoders.ImmByteCb | asm.c:468-472 | imm_ins_cb() and in_out_cb() write two bytes |
| Encoders.ImmWordCb | asm.c:474-486 | dir_addr_ins_cb() and jmp_call_cb() write three bytes |
| Encoders.RstCb | asm.c:488-493 | rst_cb() writes one byte |
| Encoders.OrgCb | asm.c:501-503 | org_cb() succeeds exactly when imm16 does and otherwise fails with imm16's error; it sets only org, to imm16's value, and leaves the object image unchanged |
| Encoders.GenericEncodes | asm.c:386-388 | generic_cb() writes the encoding of the base byte |
| Encoders.InrDcrEncodes | asm.c:390-395 | inr_dcr_cb() writes the encoding of the register read |
| Encoders.MovEncodes | asm.c:397-410 | mov_cb() reads register, ',', register, and writes their encoding, or fails before writing |
| Encoders.StaxLdaxEncodes | asm.c:412-419 | stax_ldax_cb() writes the encoding of the pair read |
| Encoders.RmaEncodes | asm.c:421-425 | rma_cb() writes the encoding of the register read |
| Encoders.PushPopEncodes | asm.c:427-432 | push_pop_cb() writes the encoding of the pair read from the PSW table |
| Encoders.RpiEncodes | asm.c:434-439 | rpi_cb() writes the encoding of the pair read from the SP table |
| Encoders.LxiEncodes | asm.c:441-453 | lxi_cb() reads pair, ',', imm16 and writes their encoding |
| Encoders.MviEncodes | asm.c:455-466 | mvi_cb() reads register, ',', imm8 and writes their encoding |
| Encoders.ImmByteEncodes | asm.c:468-472 | the immediate-byte instructions and IN/OUT write the encoding of the imm8 read |
| Encoders.ImmWordEncodes | asm.c:474-486 | direct-address instructions, jumps and calls write the encoding of the imm16 read |
| Encoders.RstEncodes | asm.c:488-493 | rst_cb() writes the encoding of the imm3 read |
| Encoders.ByteBytes | asm.c:455-472 | an immediate-byte instruction is the (register-ORed) base byte, then the value's low byte |
| Encoders.WordBytes | asm.c:441-486 | an immediate-word instruction is the (pair-ORed) base byte, then the low byte, then the high byte |
| Encoders.RestartBytes | asm.c:488-493 | RST with a vector up to 7 is a single byte with the vector placed |
| Encoders.Fixed | asm.c:386-499 | every fixed-form callback writes exactly its encoder's byte count, whatever the operand's value |
| Encoders.Callback | asm.c:705-706 | running an entry's callback keeps labels and line number, and writes exactly the byte count of fixed-width encoders; ORG writes nothing |
| Literals.DigitStringDigits | asm.c:203-213 | the digit string written for a number holds only digits of its base |
| Literals.DigitStringValue | asm.c:203-213 | a number written as digits reads back as the same number |
| Literals.LeadingZero | asm.c:192-194 | a small number written to five places starts with '0', so it is a valid literal start |
| Literals.LastDigit | asm.c:203-213 | appending a digit multiplies the value by the base and adds the digit |
| Literals.ReadDigits | asm.c:197-199 | a run of up to five hex digits followed by a non-digit is read whole |
| Literals.IntegerReadsWord | asm.c:191-217 | five digits followed by 'H' read as hexadecimal, or by 'D' as decimal, consuming the suffix |
| Literals.IntegerReadsDecimal | asm.c:191-217 | any number below 100000, written as five decimal digits and 'D', reads back as itself |
| Literals.IntegerReadsHex | asm.c:191-217 | any number below 0x10000, written as five hex digits and 'H', reads back as itself |
| Literals.IntegerRejectsShortDecimalSuffix | asm.c:197-214 | fewer than five digits followed by 'D' fail with InvalidNumber, because the 'D' is read as a hex digit |
| Literals.ConstantReadsNegative | asm.c:219-237 | '-' before a literal negates it |
| Literals.ConstantRejectsSignedName | asm.c:219-237 | a sign before a label is not accepted: the literal reader fails with InvalidNumber |
| Literals.Escape | asm.c:344-347 | the quoted form of a string is at least as long as the string |
| Literals.Bytes | asm.c:352 | a string's characters become one byte each |
| Literals.StringBodyStep | asm.c:341-353 | reading one character of a quoted string writes that character and keeps the rest quoted |
| Literals.StringBodyReadsBack | asm.c:341-353 | a quoted (escaped) string is read back as exactly its characters |
| Literals.StringBodyReads | asm.c:341-353 | the DB string loop writes exactly the string's bytes and stops right after the closing quote |
| Literals.DbItemReadsString | asm.c:340-357 | a DB item holding a quoted string writes exactly the string's bytes, with `''` as one quote |
| Driver.Label | asm.c:663-683 | label() changes only the read position and the labels, and never loses a label |
| Driver.LabelWithoutColon | asm.c:663-683 | without ':' a five-letter name is fatal, and anything shorter is put back unread |
| Driver.Opcode | asm.c:685-712 | opcode(): no letter means no instruction; five letters, a missing separator or an unknown word fail; otherwise the entry's callback runs |
| Driver.Statement | asm.c:714-723 | statement() moves past a '\n', starts the next line and counts it |
| Driver.EndLine | asm.c:717-722 | the statement must end in '\n' (SyntaxError otherwise), which is consumed, and linenr grows by one |
| Driver.RunPass | asm.c:743-744 | a pass runs statements until end of input |
| Driver.CompleteLines | asm.c:77-97 | the input the scanner sees: the text up to its last '\n' |
| Driver.CompleteLinesDrops | asm.c:77-97 | any text after the last newline is dropped |
| Driver.Init | asm.c:731-744 | process_file()'s reset: line 1, org 0, pass 0, no second pass needed, empty image, no labels, input at its start |
| Driver.Rewind | asm.c:746-754 | the second pass restarts at the beginning with line 1, org 0, pass 1 and an empty image, but keeps the labels |
| Driver.Assemble | asm.c:731-757 | a failing first pass fails the run; without a forward reference the image is the first pass's; with one, it is the second pass's, run from the first pass's labels; the image never exceeds 64 KiB |
| Driver.AssembleIgnoresUnterminatedLine | asm.c:77-97 | appending a last line without '\n' does not change the result |
| Driver.AssembleEmpty | asm.c:742-744 | an empty file assembles to an empty image |
| Driver.SecondPassKeepsLabels | asm.c:746-757 | the second pass defines no new label and runs as pass 1 |
| Driver.SecondPassReadsFirstPassLabels | asm.c:158-181 | on the second pass, a label reference reads its first-pass address, and is fatal (UndefinedSymbol) exactly when the first pass never defined it |
| OutputName.LastIndex | asm.c:761 | strrchr(): the last occurrence, with none after it, and none exactly when the character is absent |
| OutputName.LastIndexAfter | asm.c:761 | the last '.' is the one after which no '.' appears |
| OutputName.WithObj | asm.c:762-774 | the name is stem + ".obj" exactly when it and its NUL fit 32 bytes, otherwise OutputNameTooLong |
| OutputName.ObjFileName | asm.c:761-774 | the derived name (as written) ends in ".obj" and fits the buffer |
| OutputName.ObjFileNameAppends | asm.c:768-774 | a path without '.' gets ".obj" appended |
| OutputName.ObjFileNameReplaces | asm.c:762-767 | the text from the last '.' is replaced by ".obj" |
| OutputName.ObjFileNameOfObj | asm.c:761-767 | a name ending in ".obj" derives from the text before it |
| OutputName.ObjFileNameIdempotent | asm.c:761-774 | deriving the name of a derived name gives it back |
| OutputName.ObjFileNameLosesFileName | asm.c:761-767 | as written, a '.' in a directory takes the file name with it when the file has no extension |
| OutputName.ObjFileNameDotSlash | asm.c:761-767 | as written, "./prog" yields ".obj" |
| OutputName.ObjFileNameFixed | asm.c:761-774 | the corrected name also ends in ".obj" and fits the buffer |
| OutputName.ObjFileNameFixedKeepsFileName | asm.c:761-774 | the corrected derivation keeps the directory and the whole extension-less file name |
| OutputName.ObjFileNameFixedReplaces | asm.c:762-767 | the corrected derivation still replaces the file name's extension |
| OutputName.ObjFileNameFixedAgrees | asm.c:761-774 | without directories both derivations agree |
| Assembler.MPow | asm.c:239-246 | mpow(): an exponent below 1 fails; otherwise the loop returns x^p |
| Assembler.LabelHasValidName | asm.c:612-618 | the table scan answers exactly whether the name is not a mnemonic |
| Assembler.FindOpcode | asm.c:702-704 | the table scan finds the entry the registry lookup names |
| Assembler.Assembler.constructor | asm.c:32-44 | the globals start as an empty first pass |
| Assembler.Assembler.GenCode | asm.c:47-50 | gen_code(): object[PC] gets the byte, PC and org grow by one, and every other byte of the buffer is unchanged |
| Assembler.Assembler.NextChar | asm.c:82-97 | nextchar() moves the cursor as Scanner.Advance and changes no other global |
| Assembler.Assembler.Unget | asm.c:100-104 | unget() moves back as Scanner.Unget or fails with UngetUnderflow |
| Assembler.Assembler.SkipWhite | asm.c:108-111 | the loop ends where Scanner.SkipWhite says |
| Assembler.Assembler.SkipComment | asm.c:113-120 | the loop ends where Scanner.SkipComment says |
| Assembler.Assembler.ReadWord | asm.c:128-131 | the bounded loop reads the word Scanner.ReadRun describes |
| Assembler.Assembler.ReadRegister | asm.c:124-140 | _reg() returns the index and leaves the state Encoders.Reg gives |
| Assembler.Assembler.Reg | asm.c:142-145 | reg() reads from the eight-register table |
| Assembler.Assembler.RpPsw | asm.c:147-150 | rp_psw() reads from the PSW pair table |
| Assembler.Assembler.RpSp | asm.c:152-155 | rp_sp() reads from the SP pair table |
| Assembler.Assembler.LabelValue | asm.c:158-181 | label_value() returns and sets need_second_pass as Expressions.LabelValue |
| Assembler.Assembler.Integer | asm.c:191-217 | integer()'s two loops compute Expressions.Integer's value |
| Assembler.Assembler.Constant | asm.c:219-237 | constant() as Expressions.Constant |
| Assembler.Assembler.Power | asm.c:248-257 | power() as Expressions.Power |
| Assembler.Assembler.Factor | asm.c:259-286 | factor()'s loop, with its invariant, computes Expressions.Factor |
| Assembler.Assembler.Term | asm.c:288-308 | term()'s loop, with its invariant, computes Expressions.Expr |
| Assembler.Assembler.Expr | asm.c:310-312 | expr() as Expressions.Expr |
| Assembler.Assembler.Imm3 | asm.c:315-321 | imm3() as Expressions.Imm3 |
| Assembler.Assembler.Imm8 | asm.c:323-328 | imm8() as Expressions.Imm8 |
| Assembler.Assembler.Imm16 | asm.c:330-335 | imm16() as Expressions.Imm16 |
| Assembler.Assembler.DbString | asm.c:341-353 | the string loop writes into the buffer what Encoders.StringBody writes |
| Assembler.Assembler.Db | asm.c:338-365 | db_cb() as Encoders.Db |
| Assembler.Assembler.Dw | asm.c:367-378 | dw_cb() as Encoders.Dw |
| Assembler.Assembler.Ds | asm.c:380-384 | ds_cb() as Encoders.Ds |
| Assembler.Assembler.Reserve | asm.c:382-383 | the countdown loop appends n zero bytes |
| Assembler.Assembler.Generic | asm.c:386-388 | generic_cb() as Encoders.GenericCb |
| Assembler.Assembler.InrDcr | asm.c:390-395 | inr_dcr_cb() as Encoders.InrDcrCb |
| Assembler.Assembler.Mov | asm.c:397-410 | mov_cb() as Encoders.MovCb |
| Assembler.Assembler.StaxLdax | asm.c:412-419 | stax_ldax_cb() as Encoders.StaxLdaxCb |
| Assembler.Assembler.Rma | asm.c:421-425 | rma_cb() as Encoders.RmaCb |
| Assembler.Assembler.PushPop | asm.c:427-432 | push_pop_cb() as Encoders.PushPopCb |
| Assembler.Assembler.Rpi | asm.c:434-439 | rpi_cb() as Encoders.RpiCb |
| Assembler.Assembler.Lxi | asm.c:441-453 | lxi_cb() as Encoders.LxiCb |
| Assembler.Assembler.Mvi | asm.c:455-466 | mvi_cb() as Encoders.MviCb |
| Assembler.Assembler.ImmIns | asm.c:468-472 | imm_ins_cb() as Encoders.ImmByteCb |
| Assembler.Assembler.DirAddrIns | asm.c:474-479 | dir_addr_ins_cb() as Encoders.ImmWordCb |
| Assembler.Assembler.JmpCall | asm.c:481-486 | jmp_call_cb() as Encoders.ImmWordCb |
| Assembler.Assembler.Rst | asm.c:488-493 | rst_cb() as Encoders.RstCb |
| Assembler.Assembler.InOut | asm.c:495-499 | in_out_cb() as Encoders.ImmByteCb |
| Assembler.Assembler.Org | asm.c:501-503 | org_cb() as Encoders.OrgCb |
| Assembler.Assembler.Callback | asm.c:705-706 | the dispatch through the entry's callback as Encoders.Callback |
| Assembler.Assembler.Fixed | asm.c:386-499 | the fixed-form callbacks as Encoders.Fixed |
| Assembler.Assembler.LabelAlreadyDefined | asm.c:620-628 | the list walk answers exactly whether the name is defined |
| Assembler.Assembler.CreateLabel | asm.c:630-649 | create_label() changes the labels as Symbols.Define and nothing else |
| Assembler.Assembler.EraseLabels | asm.c:651-660 | erase_labels() empties the labels and changes nothing else |
| Assembler.Assembler.Label | asm.c:663-683 | label() as Driver.Label |
| Assembler.Assembler.Opcode | asm.c:685-712 | opcode() as Driver.Opcode |
| Assembler.Assembler.Statement | asm.c:714-723 | statement() as Driver.Statement |
| Assembler.Assembler.EndLine | asm.c:717-722 | the end of statement() as Driver.EndLine |
| Assembler.Assembler.RunPass | asm.c:743-744 | the statement loop of a pass as Driver.RunPass |
| Assembler.Assembler.ProcessFile | asm.c:726-774 | process_file() yields the image of Driver.Assemble and the output name of OutputName.ObjFileName, as written |

## Left out

- File I/O is not modelled: `fopen`, `rewind`, `fclose` and writing the image. The source
  text is a parameter of `ProcessFile`, and the image and output name are its results.
- `main`'s loop over the arguments is not modelled.
- `die()`'s messages, and the exit status 13, are not modelled. Each fatal path is an `Error`
  value.
- Line buffering is not modelled. `fgets` fills the 256-byte `line` buffer with at most 255
  characters (asm.c:90), and leaves the rest of a longer line in the stream. `ch()` then
  returns the buffer's `'\0'` once, and the next `nextchar()` fetches the rest (asm.c:80,
  88-93). So the original splits a long line with a `'\0'` every 255 characters:
  - this usually fails the statement;
  - inside a comment it passes;
  - inside a DB string it writes a 0 byte.

  The model reads the input as one string of complete lines, with no such `'\0'`. It keeps
  `pos` relative to the line start, so for lines of up to 255 characters `unget()` fails
  where the original's would.
- `xstrdup`, `malloc`, `free` and the linked list of labels are not modelled. The labels are a
  map, because the list is only ever searched by name and prepended to.
- Characters are Dafny `char`s, not C's signed `char` bytes. In the original, a 0xFF byte
  reads as `EOF`, a NUL byte makes `nextchar()` fetch the next line, and a multi-byte UTF-8
  character is several bytes. In the model each character is one input position and one
  byte (`Byte` of its code) in Encoders.StringBody and Literals.Bytes.
- Undefined behaviour in C mostly becomes an explicit error in the model:
  - `%` by zero is `ModuloByZero`.
  - A result outside 32-bit `int` is `IntOverflow`. This includes `INT_MIN / -1`, `INT_MIN % -1`
    and an `mpow` result.
  - A DB string still open at end of input is `UnterminatedString`.
  - Writing past `object[65535]` is `ObjectOverflow`. So is a negative DS count.
- Opcodes.RestartByte: `r <<= 3` on a negative imm3 value (asm.c:489-490) is undefined in C.
  The model gives the byte that a two's-complement shift gives, with the bits above 5 set. Its
  contract only speaks of vectors 0..7.
- Encoders.DbItem, Encoders.Db, Encoders.DwItem, Encoders.Dw: their own contracts state only
  that the image grows and nothing else changes. The bytes written are stated by
  Encoders.DbItemWritesByte, Literals.DbItemReadsString, Encoders.DbWritesPieces,
  Encoders.DwItemWritesWord and Encoders.DwWritesWords.
- Assembler.MPow: the loop is modelled on unbounded integers. An intermediate product
  overflowing `int` is caught only through the final value, which Expressions.Power checks.
- The model states no claim that both passes lay out the same bytes. DS with a label defined
  later reserves 0 bytes on pass 0, so the claim does not hold.

## Findings

| source | as written | input that shows it | evidently intended | confidence | as-written member | corrected member |
|---|---|---|---|---|---|---|
| asm.c:761-774 | `strrchr(filepath, '.')` searches the whole path, directories included | `./prog` gives `.obj`, and `dir.d/prog` gives `dir.obj`: the file name is lost | only a '.' in the last path component starts the extension, so `./prog` gives `./prog.obj` | high; not executed | OutputName.ObjFileNameLosesFileName | OutputName.ObjFileNameFixedKeepsFileName |
