/** The three fixed register-name tables an instruction operand is looked up in, and the
    lookup itself (the first matching entry's index is the register's code). */
module Registers {
  import opened Errors
  import opened Text
  import opened Scanner

  /** Single registers, in the order of their 3-bit codes; M is the memory operand (HL). */
  const RegisterNames: seq<string> := ["B", "C", "D", "E", "H", "L", "M", "A"]

  /** Register pairs for PUSH and POP: the fourth pair is PSW. */
  const PairsWithPsw: seq<string> := ["B", "D", "H", "PSW"]

  /** Register pairs for DAD, INX, DCX and LXI: the fourth pair is SP. */
  const PairsWithSp: seq<string> := ["B", "D", "H", "SP"]

  /** Index of the first entry equal to `s`, or None when no entry is. */
  function IndexOf(names: seq<string>, s: string): (r: Option<nat>)
    ensures r.Some? ==> r.value < |names| && names[r.value] == s
    ensures r.Some? ==> forall j | 0 <= j < r.value :: names[j] != s
    ensures r.None? ==> forall j | 0 <= j < |names| :: names[j] != s
  {
    if names == [] then None
    else if names[0] == s then Some(0)
    else match IndexOf(names[1..], s)
      case None => None
      case Some(i) => Some(i + 1)
  }

  /** Names in a table are distinct, so a name's index is its position. */
  predicate Distinct(names: seq<string>) {
    forall i, j | 0 <= i < j < |names| :: names[i] != names[j]
  }

  lemma TablesDistinct()
    ensures Distinct(RegisterNames) && Distinct(PairsWithPsw) && Distinct(PairsWithSp)
  {
  }

  /** In a table of distinct names, looking up the i-th name gives back i. */
  lemma IndexOfInverts(names: seq<string>, i: nat)
    requires Distinct(names) && i < |names|
    ensures IndexOf(names, names[i]) == Some(i)
  {
  }

  /** The 8080 register codes: B=0, C=1, D=2, E=3, H=4, L=5, M=6, A=7; pairs B=0, D=1, H=2,
      and PSW or SP=3. */
  lemma RegisterCodes()
    ensures IndexOf(RegisterNames, "B") == Some(0) && IndexOf(RegisterNames, "C") == Some(1)
    ensures IndexOf(RegisterNames, "D") == Some(2) && IndexOf(RegisterNames, "E") == Some(3)
    ensures IndexOf(RegisterNames, "H") == Some(4) && IndexOf(RegisterNames, "L") == Some(5)
    ensures IndexOf(RegisterNames, "M") == Some(6) && IndexOf(RegisterNames, "A") == Some(7)
    ensures IndexOf(PairsWithPsw, "PSW") == Some(3) && IndexOf(PairsWithPsw, "SP") == None
    ensures IndexOf(PairsWithSp, "SP") == Some(3) && IndexOf(PairsWithSp, "PSW") == None
  {
    TablesDistinct();
    IndexOfInverts(RegisterNames, 0);
    IndexOfInverts(RegisterNames, 1);
    IndexOfInverts(RegisterNames, 2);
    IndexOfInverts(RegisterNames, 3);
    IndexOfInverts(RegisterNames, 4);
    IndexOfInverts(RegisterNames, 5);
    IndexOfInverts(RegisterNames, 6);
    IndexOfInverts(RegisterNames, 7);
    IndexOfInverts(PairsWithPsw, 3);
    IndexOfInverts(PairsWithSp, 3);
  }

  /** _reg(): blanks, then up to four letters upper-cased, looked up in the table; a word
      that is not in it is fatal. Register names are thus case-insensitive. */
  function ReadRegister(names: seq<string>, c: Cursor): (r: Result<(nat, Cursor)>)
    requires Wf(c)
    ensures r.Ok? ==> Forward(c, r.value.1) && r.value.0 < |names|
    ensures r.Ok? ==> SkipWhite(c).at <= r.value.1.at
    ensures r.Ok? ==> names[r.value.0] == Upper(c.text[SkipWhite(c).at..r.value.1.at])
    ensures r.Fail? ==> r.err == InvalidRegister
  {
    var c1 := SkipWhite(c);
    ReadRunUpperCases(c1, 4, Letters);
    var (w, c2) := ReadRun(c1, 4, Letters, true);
    match IndexOf(names, w)
    case Some(i) => Ok((i, c2))
    case None => Fail(InvalidRegister)
  }

  /** A register is read as the whole word of letters after the blanks: the read stops
      before a letter only after four of them. */
  lemma ReadRegisterReadsWord(names: seq<string>, c: Cursor)
    requires Wf(c)
    ensures var r := ReadRegister(names, c);
            && (r.Ok? ==> forall i | SkipWhite(c).at <= i < r.value.1.at :: IsAlpha(c.text[i]))
            && (r.Ok? ==> r.value.1.at == SkipWhite(c).at + 4 || !PeekAlpha(r.value.1))
  {
  }

  /** A word of letters that is not a name of the table is fatal, in any letter case; a
      word of more than four letters is judged by its first four. */
  lemma ReadRegisterRejects(names: seq<string>, c: Cursor, w: string)
    requires Wf(c) && |w| <= 4 && TextAt(SkipWhite(c), w)
    requires forall j | 0 <= j < |w| :: IsAlpha(w[j])
    requires |w| < 4 ==> !PeekAlpha(SkipWhite(c).(at := SkipWhite(c).at + |w|))
    requires Upper(w) !in names
    ensures ReadRegister(names, c) == Fail(InvalidRegister)
  {
    ReadRunUpper(SkipWhite(c), |w|, w);
    assert IndexOf(names, Upper(w)).None?;
  }

  /** A register table's names are words of one to four upper-case letters. */
  predicate WellSpelled(names: seq<string>) {
    forall i | 0 <= i < |names| :: 1 <= |names[i]| <= 4 &&
      forall j | 0 <= j < |names[i]| :: 'A' <= names[i][j] <= 'Z'
  }

  lemma TablesWellSpelled()
    ensures WellSpelled(RegisterNames) && WellSpelled(PairsWithPsw) && WellSpelled(PairsWithSp)
  {
  }

  /** Writing the i-th name of a table, in any mix of cases, after optional blanks and before
      a non-letter, reads back as code i. */
  lemma ReadRegisterRoundTrip(names: seq<string>, i: nat, spelled: string, c: Cursor, c1: Cursor)
    requires Distinct(names) && WellSpelled(names) && i < |names|
    requires Wf(c) && c1 == SkipWhite(c) && Upper(spelled) == names[i]
    requires c1.at + |spelled| <= |c1.text| && c1.text[c1.at..c1.at + |spelled|] == spelled
    requires !PeekAlpha(c1.(at := c1.at + |spelled|))
    ensures ReadRegister(names, c) == Ok((i, c1.(at := c1.at + |spelled|)))
  {
    ReadsSpelling(names, i, spelled, c1);
    IndexOfInverts(names, i);
  }

  /** The four-letter loop over a spelling of the i-th name reads the name. */
  lemma ReadsSpelling(names: seq<string>, i: nat, spelled: string, c1: Cursor)
    requires WellSpelled(names) && i < |names| && Wf(c1) && Upper(spelled) == names[i]
    requires c1.at + |spelled| <= |c1.text| && c1.text[c1.at..c1.at + |spelled|] == spelled
    requires !PeekAlpha(c1.(at := c1.at + |spelled|))
    ensures ReadRun(c1, 4, Letters, true) == (names[i], c1.(at := c1.at + |spelled|))
  {
    SpelledLetters(names, i, spelled);
    var n := |spelled|;
    assert n <= 4 && c1.at + n <= |c1.text| && c1.text[c1.at..c1.at + n] == spelled;
    ReadRunUpper(c1, n, spelled);
  }

  /** A name spelled in any case is as long as the table entry and made of letters. */
  lemma SpelledLetters(names: seq<string>, i: nat, spelled: string)
    requires WellSpelled(names) && i < |names| && Upper(spelled) == names[i]
    ensures |spelled| <= 4 && forall j | 0 <= j < |spelled| :: IsAlpha(spelled[j])
  {
    forall j | 0 <= j < |spelled| ensures IsAlpha(spelled[j]) {
      assert ToUpper(spelled[j]) == names[i][j];
    }
  }

  /** Reading at most four letters upper-cased over a written word of n <= 4 letters, not
      followed by a letter unless it already has four, gives the word upper-cased. */
  lemma ReadRunUpper(c: Cursor, n: nat, spelled: string)
    requires Wf(c) && n == |spelled| <= 4 && c.at + n <= |c.text|
    requires c.text[c.at..c.at + n] == spelled
    requires forall j | 0 <= j < n :: IsAlpha(spelled[j])
    requires n < 4 ==> !PeekAlpha(c.(at := c.at + n))
    ensures ReadRun(c, 4, Letters, true) == (Upper(spelled), c.(at := c.at + n))
  {
    forall k | c.at <= k < c.at + n ensures IsAlpha(c.text[k]) {
      assert c.text[k] == spelled[k - c.at];
    }
    forall j | 0 <= j < n ensures Upper(spelled)[j] == ToUpper(c.text[c.at + j]) {
      assert c.text[c.at + j] == spelled[j];
    }
    ReadRunIs(c, 4, Letters, true, Upper(spelled));
  }

}
