/** The one-character-lookahead reader over the source text: ch(), nextchar(), unget() and
    the loops built from them that only move the read position. */
module Scanner {
  import opened Text
  import opened Errors

  /** What ch() returns: a character, or EOF once the input is exhausted. */
  datatype Input = Char(c: char) | EOF

  /** The read position. `text` holds the complete lines of the source file, `at` is the
      index ch() looks at, and `lineStart` the index where the current line begins (so
      `at - lineStart` is the original's `pos`). */
  datatype Cursor = Cursor(text: string, at: nat, lineStart: nat)

  predicate Wf(c: Cursor) { c.lineStart <= c.at <= |c.text| }

  /** `r` reads the same text as `c` from a position no earlier. */
  predicate Forward(c: Cursor, r: Cursor) {
    r.text == c.text && c.at <= r.at && Wf(r)
  }

  /** ch() */
  function Peek(c: Cursor): Input {
    if c.at < |c.text| then Char(c.text[c.at]) else EOF
  }

  predicate PeekIs(c: Cursor, x: char) { Peek(c) == Char(x) }

  /** The text from the read position on starts with `w`. */
  predicate TextAt(c: Cursor, w: string) {
    c.at + |w| <= |c.text| && c.text[c.at..c.at + |w|] == w
  }

  predicate PeekAlpha(c: Cursor) { Peek(c).Char? && IsAlpha(Peek(c).c) }

  predicate PeekDigit(c: Cursor) { Peek(c).Char? && IsDigit(Peek(c).c) }

  /** A character a label may start with: a letter, '@' or '?'. */
  predicate PeekNameStart(c: Cursor) {
    Peek(c).Char? && (IsAlpha(Peek(c).c) || Peek(c).c == '@' || Peek(c).c == '?')
  }

  /** nextchar(): one character forward; consuming a '\n' starts a new line; at end of
      input nothing changes. */
  function Advance(c: Cursor): (r: Cursor)
    requires Wf(c)
    ensures Forward(c, r)
    ensures Peek(c).Char? ==> r.at == c.at + 1
    ensures Peek(c).Char? ==> r.lineStart == if Peek(c).c == '\n' then r.at else c.lineStart
    ensures Peek(c) == EOF ==> r == c
  {
    if c.at < |c.text| then
      Cursor(c.text, c.at + 1, if c.text[c.at] == '\n' then c.at + 1 else c.lineStart)
    else c
  }

  /** unget(cnt): step back within the current line; stepping past its start is fatal. */
  function Unget(c: Cursor, cnt: nat): (r: Result<Cursor>)
    requires Wf(c)
    ensures r.Ok? <==> cnt <= c.at - c.lineStart
    ensures r.Ok? ==> Wf(r.value) && r.value == c.(at := c.at - cnt)
    ensures r.Fail? ==> r.err == UngetUnderflow
  {
    if cnt <= c.at - c.lineStart then Ok(c.(at := c.at - cnt)) else Fail(UngetUnderflow)
  }

  predicate IsBlank(c: char) { c == ' ' || c == '\t' }

  /** skip_white(): consumes exactly the run of blanks and tabs at the read position. */
  function SkipWhite(c: Cursor): (r: Cursor)
    requires Wf(c)
    ensures Forward(c, r) && r.lineStart == c.lineStart
    ensures forall i | c.at <= i < r.at :: IsBlank(c.text[i])
    ensures !(Peek(r).Char? && IsBlank(Peek(r).c))
    decreases |c.text| - c.at
  {
    if Peek(c).Char? && IsBlank(Peek(c).c) then SkipWhite(Advance(c)) else c
  }

  /** The loop in skip_comment(): consumes everything up to the next '\n' or end of input. */
  function SkipToLineEnd(c: Cursor): (r: Cursor)
    requires Wf(c)
    ensures Forward(c, r) && r.lineStart == c.lineStart
    ensures forall i | c.at <= i < r.at :: c.text[i] != '\n'
    ensures Peek(r) == EOF || PeekIs(r, '\n')
    decreases |c.text| - c.at
  {
    if Peek(c) == EOF || PeekIs(c, '\n') then c else SkipToLineEnd(Advance(c))
  }

  /** skip_comment(): blanks, then, when a ';' follows, the rest of the line. */
  function SkipComment(c: Cursor): (r: Cursor)
    requires Wf(c)
    ensures Forward(c, r) && r.lineStart == c.lineStart
    ensures !PeekIs(SkipWhite(c), ';') ==> r == SkipWhite(c)
    ensures PeekIs(SkipWhite(c), ';') ==> Peek(r) == EOF || PeekIs(r, '\n')
  {
    var c1 := SkipWhite(c);
    if PeekIs(c1, ';') then SkipToLineEnd(c1) else c1
  }

  /** The two character classes the bounded reading loops accept. */
  datatype CharClass = Letters | HexDigitChars

  predicate InClass(x: char, cls: CharClass) {
    match cls
    case Letters => IsAlpha(x)
    case HexDigitChars => IsXDigit(x)
  }

  predicate PeekIn(c: Cursor, cls: CharClass) { Peek(c).Char? && InClass(Peek(c).c, cls) }

  /** The bounded reading loops of _reg(), label_value(), integer(), label() and opcode():
      at most `max` characters of the class, upper-cased when `upper` is set. The word read
      is the longest such run, so it stops early only at a character outside the class. */
  function ReadRun(c: Cursor, max: nat, cls: CharClass, upper: bool): (r: (string, Cursor))
    requires Wf(c)
    ensures Forward(c, r.1) && r.1.lineStart == c.lineStart
    ensures |r.0| <= max && r.1.at == c.at + |r.0|
    ensures forall i | c.at <= i < r.1.at :: InClass(c.text[i], cls)
    ensures forall i | 0 <= i < |r.0| ::
              r.0[i] == if upper then ToUpper(c.text[c.at + i]) else c.text[c.at + i]
    ensures |r.0| < max ==> !PeekIn(r.1, cls)
    decreases max
  {
    if max > 0 && PeekIn(c, cls) then
      var x := Peek(c).c;
      var (w, c1) := ReadRun(Advance(c), max - 1, cls, upper);
      ([if upper then ToUpper(x) else x] + w, c1)
    else ("", c)
  }

  /** A run stops after exactly n characters of the class when n is the bound or a character
      outside the class follows. */
  lemma {:induction false} ReadRunStopsAt(c: Cursor, max: nat, cls: CharClass, upper: bool, n: nat)
    requires Wf(c) && n <= max && c.at + n <= |c.text|
    requires forall k | c.at <= k < c.at + n :: InClass(c.text[k], cls)
    requires n < max ==> !PeekIn(c.(at := c.at + n), cls)
    ensures ReadRun(c, max, cls, upper).1.at == c.at + n
    decreases n
  {
    if n > 0 {
      ReadRunStopsAt(Advance(c), max - 1, cls, upper, n - 1);
    }
  }

  /** An upper-casing read gives the text it passed over, upper-cased. */
  lemma ReadRunUpperCases(c: Cursor, max: nat, cls: CharClass)
    requires Wf(c)
    ensures var r := ReadRun(c, max, cls, true);
            c.at <= r.1.at <= |c.text| && r.0 == Upper(c.text[c.at..r.1.at])
  {
    var r := ReadRun(c, max, cls, true);
    var u := Upper(c.text[c.at..r.1.at]);
    assert |u| == |r.0|;
    forall i | 0 <= i < |r.0| ensures r.0[i] == u[i] {
      assert c.text[c.at..r.1.at][i] == c.text[c.at + i];
    }
  }

  /** A read that keeps the case gives exactly the text it passed over. */
  lemma ReadRunCopies(c: Cursor, max: nat, cls: CharClass)
    requires Wf(c)
    ensures var r := ReadRun(c, max, cls, false);
            c.at <= r.1.at <= |c.text| && r.0 == c.text[c.at..r.1.at]
  {
    var r := ReadRun(c, max, cls, false);
    assert |c.text[c.at..r.1.at]| == |r.0|;
    forall i | 0 <= i < |r.0| ensures r.0[i] == c.text[c.at..r.1.at][i] {
    }
  }

  /** ReadRun is the unique longest bounded run: a word of class characters that reaches
      the bound or stops before a character outside the class is what it reads. */
  lemma ReadRunIs(c: Cursor, max: nat, cls: CharClass, upper: bool, w: string)
    requires Wf(c) && |w| <= max && c.at + |w| <= |c.text|
    requires forall k | c.at <= k < c.at + |w| :: InClass(c.text[k], cls)
    requires forall i | 0 <= i < |w| ::
               w[i] == if upper then ToUpper(c.text[c.at + i]) else c.text[c.at + i]
    requires |w| < max ==> !PeekIn(c.(at := c.at + |w|), cls)
    ensures ReadRun(c, max, cls, upper) == (w, c.(at := c.at + |w|))
  {
    ReadRunStopsAt(c, max, cls, upper, |w|);
    var r := ReadRun(c, max, cls, upper);
    assert |r.0| == |w|;
    assert r.0 == w;
  }

  /** The name reading of label() and label_value(): the character at the read position
      (the caller has checked it starts a name), then up to four letters, case kept. */
  function ReadName(c: Cursor): (r: (string, Cursor))
    requires Wf(c) && PeekNameStart(c)
    ensures Forward(c, r.1) && r.1.lineStart == c.lineStart
    ensures 1 <= |r.0| <= 5 && r.1.at == c.at + |r.0| && r.0 == c.text[c.at..r.1.at]
    ensures forall i | 1 <= i < |r.0| :: IsAlpha(r.0[i])
    ensures |r.0| < 5 ==> !PeekAlpha(r.1)
  {
    ReadRunCopies(Advance(c), 4, Letters);
    var (w, c1) := ReadRun(Advance(c), 4, Letters, false);
    assert [Peek(c).c] + c.text[c.at + 1..c1.at] == c.text[c.at..c1.at];
    ([Peek(c).c] + w, c1)
  }
}
