/** Statements and passes: label(), opcode(), statement() and the two-pass loop of
    process_file(). */
module Driver {
  import opened Errors
  import opened Text
  import opened Scanner
  import opened Symbols
  import opened Opcodes
  import opened Machines
  import opened Encoders
  import Expressions

  /** Whether the line continues with a label definition: a name followed right away by ':'. */
  predicate LabelAhead(c: Cursor)
    requires Wf(c)
  {
    var c1 := SkipWhite(c);
    PeekNameStart(c1) && PeekIs(ReadName(c1).1, ':')
  }

  /** label(): a name of up to five characters followed by ':' defines a label at the load
      address (on the first pass); a name of five characters without ':' is fatal; any other
      name is pushed back for opcode() to read. */
  function Label(m: Machine): (r: Result<Machine>)
    requires WellFormed(m)
    ensures r.Ok? ==> Evolves(m, r.value)
    ensures r.Ok? ==> r.value == m.(src := r.value.src, labels := r.value.labels)
  {
    var c := SkipWhite(m.src);
    if !PeekNameStart(c) then Ok(m.(src := c))
    else
      var (name, c1) := ReadName(c);
      if |name| == 5 && !PeekIs(c1, ':') then Fail(NameTooLong)
      else if PeekIs(c1, ':') then
        var t :- Define(m.labels, m.pass, m.org, name);
        DefineEvolves(m, Advance(c1), name);
        Ok(m.(src := Advance(c1), labels := t))
      else
        var c2 :- Unget(c1, |name|);
        assert c2 == c;
        Ok(m.(src := c2))
  }

  /** A line that does not start with a label definition loses only its leading blanks to
      label(), unless it starts with a five-character name, which is fatal. */
  lemma LabelWithoutColon(m: Machine)
    requires WellFormed(m) && !LabelAhead(m.src)
    ensures var c := SkipWhite(m.src);
            if PeekNameStart(c) && |ReadName(c).0| == 5 then Label(m) == Fail(NameTooLong)
            else Label(m) == Ok(m.(src := c))
  {
  }

  /** A label definition records the load address under the name (first pass) or changes
      nothing but the read position (second pass), and consumes the ':'. */
  lemma LabelDefines(m: Machine)
    requires WellFormed(m) && LabelAhead(m.src)
    ensures var (name, c1) := ReadName(SkipWhite(m.src));
            var d := Define(m.labels, m.pass, m.org, name);
            && (Label(m).Ok? <==> d.Ok?)
            && (d.Fail? ==> Label(m) == Fail(d.err))
            && (d.Ok? ==> Label(m) == Ok(m.(src := Advance(c1), labels := d.value)))
  {
  }

  /** What may follow a mnemonic: white space, ';' or end of input. */
  predicate MnemonicEnd(c: Cursor) {
    Peek(c) == EOF || IsSpace(Peek(c).c) || PeekIs(c, ';')
  }

  /** opcode(): up to five letters, upper-cased; five letters is fatal, so is a mnemonic
      not followed by white space, ';' or end of input, and so is a word not in the
      registry; otherwise the entry's callback runs. A line with no letter here has no
      instruction. */
  function Opcode(m: Machine): (r: Result<Machine>)
    requires WellFormed(m)
    ensures r.Ok? ==> Evolves(m, r.value) && r.value.labels == m.labels
    ensures r.Ok? ==> r.value.linenr == m.linenr
    ensures !PeekAlpha(SkipWhite(m.src)) ==> r == Ok(m.(src := SkipWhite(m.src)))
    ensures PeekAlpha(SkipWhite(m.src)) ==>
              var (w, c1) := ReadRun(SkipWhite(m.src), 5, Letters, true);
              && (|w| == 5 ==> r == Fail(NameTooLong))
              && (|w| < 5 && !MnemonicEnd(c1) ==> r == Fail(SyntaxError))
              && (|w| < 5 && MnemonicEnd(c1) && !IsMnemonic(w) ==> r == Fail(UnknownOpcode))
              && (|w| < 5 && MnemonicEnd(c1) && IsMnemonic(w) ==>
                    r == Callback(Find(w).value, m.(src := c1)))
  {
    var c := SkipWhite(m.src);
    if !PeekAlpha(c) then Ok(m.(src := c))
    else
      var (w, c1) := ReadRun(c, 5, Letters, true);
      if |w| == 5 then Fail(NameTooLong)
      else if !MnemonicEnd(c1) then Fail(SyntaxError)
      else match Find(w)
        case None => Fail(UnknownOpcode)
        case Some(op) => Callback(op, m.(src := c1))
  }

  /** statement(): optional label, optional instruction, then the end of the line. */
  function Statement(m: Machine): (r: Result<Machine>)
    requires WellFormed(m)
    ensures r.Ok? ==> Evolves(m, r.value) && r.value.src.at > m.src.at
    ensures r.Ok? ==> r.value.linenr == m.linenr + 1 && r.value.src.lineStart == r.value.src.at
    ensures r.Ok? ==> r.value.src.text[r.value.src.at - 1] == '\n'
  {
    var m1 :- Label(m);
    var m2 :- Opcode(m1);
    EvolvesTransitive(m, m1, m2);
    var r :- EndLine(m2);
    EvolvesTransitive(m, m2, r);
    Ok(r)
  }

  /** The end of statement(): an optional comment, then the newline, which is consumed; the
      line counter advances. Anything else left on the line is a syntax error. */
  function EndLine(m: Machine): (r: Result<Machine>)
    requires WellFormed(m)
    ensures r.Ok? ==> Evolves(m, r.value) && r.value.src.at > m.src.at
    ensures r.Ok? ==> r.value == m.(src := r.value.src, linenr := m.linenr + 1)
    ensures r.Ok? ==> r.value.src.lineStart == r.value.src.at
    ensures r.Ok? ==> r.value.src.text[r.value.src.at - 1] == '\n'
    ensures r.Fail? ==> r.err == SyntaxError
  {
    var c := SkipComment(m.src);
    if !PeekIs(c, '\n') then Fail(SyntaxError)
    else Ok(m.(src := Advance(c), linenr := m.linenr + 1))
  }

  /** One pass: statements until the end of input. */
  function RunPass(m: Machine): (r: Result<Machine>)
    requires WellFormed(m)
    ensures r.Ok? ==> Evolves(m, r.value) && Peek(r.value.src) == EOF
    decreases |m.src.text| - m.src.at
  {
    if Peek(m.src) == EOF then Ok(m)
    else
      var m1 :- Statement(m);
      var r := RunPass(m1);
      if r.Ok? then EvolvesTransitive(m, m1, r.value); r else r
  }

  /** The text the passes read: the file up to and including its last newline. A final line
      without a newline is never seen, because reading it sets end-of-file and ch() then
      reports EOF. */
  function CompleteLines(s: string): (r: string)
    ensures r <= s && (r == [] || r[|r| - 1] == '\n')
    ensures forall i | |r| <= i < |s| :: s[i] != '\n'
  {
    if s == [] || s[|s| - 1] == '\n' then s else CompleteLines(s[..|s| - 1])
  }

  /** The state process_file() sets up before the first pass. */
  function Init(source: string): (m: Machine)
    ensures WellFormed(m) && m.pass == 0 && !m.needSecondPass && m.out == [] && m.labels == map[]
    ensures m.org == 0 && m.linenr == 1 && m.src == Cursor(CompleteLines(source), 0, 0)
  {
    Machine(Cursor(CompleteLines(source), 0, 0), 1, 0, false, 0, [], map[])
  }

  /** The state before the second pass: input rewound, line counter, load address and PC
      reset, pass 1; the labels of the first pass are kept. */
  function Rewind(m: Machine): (r: Machine)
    requires WellFormed(m)
    ensures WellFormed(r) && r.pass == 1 && r.out == [] && r.labels == m.labels
    ensures r.org == 0 && r.linenr == 1 && r.src == Cursor(m.src.text, 0, 0)
  {
    m.(src := Cursor(m.src.text, 0, 0), linenr := 1, org := 0, out := [], pass := 1)
  }

  /** Both passes of process_file(): the second runs only when the first met a label it did
      not know yet. The result is the object image, object[0 .. PC). */
  function Assemble(source: string): (r: Result<seq<bv8>>)
    ensures r.Ok? ==> |r.value| <= ObjectSize
    ensures RunPass(Init(source)).Fail? ==> r == Fail(RunPass(Init(source)).err)
    ensures (RunPass(Init(source)).Ok? && !RunPass(Init(source)).value.needSecondPass) ==>
              r == Ok(RunPass(Init(source)).value.out)
    ensures (RunPass(Init(source)).Ok? && RunPass(Init(source)).value.needSecondPass) ==>
              var second := RunPass(Rewind(RunPass(Init(source)).value));
              r == if second.Ok? then Ok(second.value.out) else Fail(second.err)
  {
    var m1 :- RunPass(Init(source));
    if m1.needSecondPass then
      var m2 :- RunPass(Rewind(m1));
      Ok(m2.out)
    else Ok(m1.out)
  }

  /** Text after the last newline is dropped, however long it is. */
  lemma {:induction false} CompleteLinesDrops(s: string, tail: string)
    requires (s == [] || s[|s| - 1] == '\n') && '\n' !in tail
    ensures CompleteLines(s + tail) == s
    decreases |tail|
  {
    if tail != [] {
      var t := tail[..|tail| - 1];
      assert (s + tail)[..|s + tail| - 1] == s + t;
      assert (s + tail)[|s + tail| - 1] == tail[|tail| - 1];
      CompleteLinesDrops(s, t);
    } else {
      assert s + tail == s;
    }
  }

  /** A final line without a newline does not change what is assembled. */
  lemma AssembleIgnoresUnterminatedLine(source: string, tail: string)
    requires (source == [] || source[|source| - 1] == '\n') && '\n' !in tail
    ensures Assemble(source + tail) == Assemble(source)
  {
    CompleteLinesDrops(source, tail);
    CompleteLinesDrops(source, []);
    assert source + [] == source;
  }

  /** An empty file assembles, in one pass, to an empty image. */
  lemma AssembleEmpty()
    ensures Assemble("") == Ok([])
  {
    assert RunPass(Init("")) == Ok(Init(""));
  }

  /** Every label lookup of the second pass answers from the labels the first pass defined:
      a label reads as the address the first pass gave it, and a name the first pass never
      defined is fatal. */
  lemma SecondPassReadsFirstPassLabels(source: string, m: Machine)
    requires RunPass(Init(source)).Ok?
    requires Evolves(Rewind(RunPass(Init(source)).value), m) && PeekNameStart(m.src)
    ensures var t := RunPass(Init(source)).value.labels; var name := ReadName(m.src).0;
            && (Expressions.LabelValue(m).Ok? <==> name in t)
            && (Expressions.LabelValue(m).Ok? ==> Expressions.LabelValue(m).value.0 == t[name])
            && (Expressions.LabelValue(m).Fail? ==> Expressions.LabelValue(m).err == UndefinedSymbol)
  {
  }

  /** The second pass starts from the labels of the first and defines none: every
      definition it meets is skipped and every reference resolves or is fatal. */
  lemma SecondPassKeepsLabels(source: string)
    requires RunPass(Init(source)).Ok?
    ensures var m1 := RunPass(Init(source)).value;
            var r := RunPass(Rewind(m1));
            r.Ok? ==> r.value.labels == m1.labels && r.value.pass == 1
  {
  }
}
