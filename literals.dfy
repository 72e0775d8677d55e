/** What the assembler reads back from the literals written in the source: integer() from
    the five-digit decimal form with its 'D' suffix and from the hexadecimal form with its 'H'
    suffix (and the error a 'D' after fewer digits gives), and db_cb() from a quoted string
    whose quotes are doubled. */
module Literals {
  import opened Errors
  import opened Text
  import opened Scanner
  import opened Expressions
  import opened Machines
  import opened Opcodes
  import opened Encoders

  /** The `width` lowest digits of `n` in `base`, most significant first, with leading
      zeros. */
  function DigitString(n: nat, width: nat, base: nat): (s: string)
    requires 2 <= base <= 16
    ensures |s| == width
    decreases width
  {
    if width == 0 then [] else DigitString(n / base, width - 1, base) + [HexDigits[n % base]]
  }

  /** The digits are digit characters of the base. */
  lemma {:induction false} DigitStringDigits(n: nat, width: nat, base: nat)
    requires 2 <= base <= 16
    ensures AllXDigits(DigitString(n, width, base))
    ensures base <= 10 ==> AllDigits(DigitString(n, width, base))
    decreases width
  {
    if width > 0 {
      var s, t := DigitString(n, width, base), DigitString(n / base, width - 1, base);
      DigitStringDigits(n / base, width - 1, base);
      assert s == t + [HexDigits[n % base]];
      XDigitInvertsTable(n % base);
      forall i | 0 <= i < width ensures IsXDigit(s[i]) && (base <= 10 ==> IsDigit(s[i])) {
        if i < width - 1 { assert s[i] == t[i]; }
      }
    }
  }

  /** A digit string denotes the number it was written from. */
  lemma {:induction false} DigitStringValue(n: nat, width: nat, base: nat)
    requires 2 <= base <= 16 && n < PlaceValue(base, width)
    ensures AllXDigits(DigitString(n, width, base))
    ensures DigitsValue(DigitString(n, width, base), base) == n
    decreases width
  {
    DigitStringDigits(n, width, base);
    if width > 0 {
      QuotientBound(n, base, PlaceValue(base, width - 1));
      DigitStringValue(n / base, width - 1, base);
      DigitStringStep(n, width, base);
    }
  }

  /** Appending the digit `d` multiplies the value by the base and adds `d`. */
  lemma LastDigit(s: string, base: nat, d: nat)
    requires 2 <= base <= 16 && d < base && AllXDigits(s)
    ensures AllXDigits(s + [HexDigits[d]])
    ensures DigitsValue(s + [HexDigits[d]], base) == DigitsValue(s, base) * base + d
  {
    XDigitInvertsTable(d);
    var t := s + [HexDigits[d]];
    assert t[..|t| - 1] == s;
  }

  /** The inductive step of DigitStringValue. */
  lemma DigitStringStep(n: nat, width: nat, base: nat)
    requires 2 <= base <= 16 && width >= 1
    requires AllXDigits(DigitString(n / base, width - 1, base))
    requires DigitsValue(DigitString(n / base, width - 1, base), base) == n / base
    ensures AllXDigits(DigitString(n, width, base))
    ensures DigitsValue(DigitString(n, width, base), base) == n
  {
    var q, d := n / base, n % base;
    var s := DigitString(q, width - 1, base);
    LastDigit(s, base, d);
    assert DigitString(n, width, base) == s + [HexDigits[d]];
    DivMod(n, base);
  }

  lemma DivMod(n: nat, b: nat)
    requires b >= 1
    ensures (n / b) * b + n % b == n
  {
  }

  lemma QuotientBound(n: nat, b: nat, p: nat)
    requires b >= 1 && n < p * b
    ensures 0 <= n / b < p
  {
  }

  /** A number below base^(width - 1) is written with a leading '0'. */
  lemma {:induction false} LeadingZero(n: nat, width: nat, base: nat)
    requires 2 <= base <= 16 && width >= 1 && n < PlaceValue(base, width - 1)
    ensures DigitString(n, width, base)[0] == '0'
    decreases width
  {
    if width == 1 {
      assert n == 0;
    } else {
      QuotientBound(n, base, PlaceValue(base, width - 2));
      LeadingZero(n / base, width - 1, base);
    }
  }

  /** Reading at most five hexadecimal-digit characters collects the digits written. */
  lemma ReadDigits(c: Cursor, w: string)
    requires Wf(c) && |w| <= 5 && TextAt(c, w) && AllXDigits(w)
    requires |w| < 5 ==> !PeekIn(c.(at := c.at + |w|), HexDigitChars)
    ensures ReadRun(c, 5, HexDigitChars, false) == (w, c.(at := c.at + |w|))
  {
    forall i | 0 <= i < |w| ensures w[i] == c.text[c.at + i] {
      assert c.text[c.at..c.at + |w|][i] == w[i];
    }
    forall k | c.at <= k < c.at + |w| ensures InClass(c.text[k], HexDigitChars) {
      assert c.text[k] == w[k - c.at];
    }
    ReadRunIs(c, 5, HexDigitChars, false, w);
  }

  /** Five decimal digits followed by 'D' or 'd' read back as the number, suffix consumed. */
  lemma IntegerReadsDecimal(c: Cursor, n: nat)
    requires Wf(c) && n < 100000
    requires TextAt(c, DigitString(n, 5, 10)) && c.at + 5 < |c.text|
    requires ToUpper(c.text[c.at + 5]) == 'D'
    ensures Integer(c) == Ok((n, c.(at := c.at + 6)))
  {
    DigitStringValue(n, 5, 10);
    DigitStringDigits(n, 5, 10);
    IntegerReadsWord(c, DigitString(n, 5, 10));
  }

  /** A number below 0x10000, as a '0' and four hexadecimal digits followed by 'H' or 'h',
      reads back as the number, suffix consumed. */
  lemma IntegerReadsHex(c: Cursor, n: nat)
    requires Wf(c) && n < 0x10000
    requires TextAt(c, DigitString(n, 5, 16)) && c.at + 5 < |c.text|
    requires ToUpper(c.text[c.at + 5]) == 'H'
    ensures Integer(c) == Ok((n, c.(at := c.at + 6)))
  {
    DigitStringValue(n, 5, 16);
    LeadingZero(n, 5, 16);
    IntegerReadsWord(c, DigitString(n, 5, 16));
  }

  /** Five digit characters starting with a decimal digit, and a suffix: with 'H' they are
      read in base 16, with 'D' (when all are decimal) in base 10; the suffix is consumed. */
  lemma IntegerReadsWord(c: Cursor, w: string)
    requires Wf(c) && |w| == 5 && TextAt(c, w) && AllXDigits(w) && IsDigit(w[0])
    requires c.at + 5 < |c.text| && ToUpper(c.text[c.at + 5]) in {'H', 'D'}
    requires ToUpper(c.text[c.at + 5]) == 'D' ==> AllDigits(w)
    ensures Integer(c) ==
              Ok((DigitsValue(w, if ToUpper(c.text[c.at + 5]) == 'H' then 16 else 10),
                  c.(at := c.at + 6)))
  {
    ReadDigits(c, w);
    assert c.text[c.at] == c.text[c.at..c.at + 5][0];
    assert PeekDigit(c);
    var c1 := c.(at := c.at + 5);
    assert Peek(c1) == Char(c.text[c.at + 5]) && c.text[c.at + 5] != '\n';
    assert Advance(c1) == c.(at := c.at + 6);
    IntegerOfRun(c, w, c1);
  }

  /** constant(): a '-' in front of a five-digit decimal literal negates it. */
  lemma ConstantReadsNegative(m: Machine, n: nat)
    requires WellFormed(m) && n < 100000
    requires var c := SkipWhite(m.src);
               && PeekIs(c, '-') && TextAt(Advance(c), DigitString(n, 5, 10))
               && c.at + 6 < |c.text| && ToUpper(c.text[c.at + 6]) == 'D'
    ensures var r := Constant(m);
              r.Ok? && r.value.0 == -(n as int) && r.value.1.src.at == SkipWhite(m.src).at + 7
  {
    var c := SkipWhite(m.src);
    IntegerReadsDecimal(Advance(c), n);
    ConstantReadsMinus(m);
  }

  /** constant(): a sign applies to a numeric literal only, so a sign in front of a label
      name is refused. */
  lemma ConstantRejectsSignedName(m: Machine)
    requires WellFormed(m)
    requires var c := SkipWhite(m.src); (PeekIs(c, '-') || PeekIs(c, '+')) && PeekNameStart(Advance(c))
    ensures Constant(m) == Fail(InvalidNumber)
  {
    var c := SkipWhite(m.src);
    assert !PeekDigit(Advance(c));
  }

  /** Fewer than five decimal digits followed by a 'D' suffix are refused: the 'D' is read
      as a hexadecimal digit, and without an 'H' the word must be all decimal digits. */
  lemma IntegerRejectsShortDecimalSuffix(c: Cursor, digits: string)
    requires Wf(c) && 1 <= |digits| < 5 && AllDigits(digits)
    requires TextAt(c, digits + "D") && c.at + |digits| + 1 < |c.text|
    requires var x := c.text[c.at + |digits| + 1]; !IsXDigit(x) && ToUpper(x) != 'H'
    ensures Integer(c) == Fail(InvalidNumber)
  {
    var w := digits + "D";
    assert AllXDigits(w) by {
      forall i | 0 <= i < |w| ensures IsXDigit(w[i]) {
        if i < |digits| { assert w[i] == digits[i]; }
      }
    }
    ReadDigits(c, w);
    assert w[0] == c.text[c.at..c.at + |w|][0];
    assert PeekDigit(c);
    var c1 := c.(at := c.at + |w|);
    assert Peek(c1) == Char(c.text[c.at + |digits| + 1]);
    assert !AllDigits(w) by { assert w[|digits|] == 'D'; }
    IntegerOfRun(c, w, c1);
  }

  // Quoted strings ---------------------------------------------------------------------

  /** A string as it is written between the quotes of a DB item: each quote doubled. */
  function Escape(s: string): (e: string)
    ensures |e| >= |s|
  {
    if s == [] then []
    else (if s[0] == '\'' then "''" else [s[0]]) + Escape(s[1..])
  }

  /** The bytes db_cb() writes for the characters of `s`, one each. */
  function Bytes(s: string): (bs: seq<bv8>)
    ensures |bs| == |s|
  {
    if s == [] then [] else [Byte(s[0] as int)] + Bytes(s[1..])
  }

  /** The string loop entered just before `Escape(s)` and its closing quote, with no quote
      after that and room for the bytes of `s`. */
  predicate Quoted(m: Machine, s: string) {
    && WellFormed(m) && |m.out| + |s| <= ObjectSize
    && TextAt(m.src.(at := m.src.at + 1), Escape(s) + "'")
    && var q := m.src.at + 2 + |Escape(s)|; q < |m.src.text| ==> m.src.text[q] != '\''
  }

  /** The string loop writes the bytes of `s` and stops after the closing quote. */
  predicate ReadsBack(m: Machine, s: string)
    requires WellFormed(m)
  {
    && StringBody(m).Ok?
    && StringBody(m).value.out == m.out + Bytes(s)
    && StringBody(m).value.src.at == m.src.at + 2 + |Escape(s)|
  }

  /** The machine after one character of `s` has been read and written. */
  function Consumed(m: Machine, s: string): (r: Machine)
    requires WellFormed(m) && |m.out| < ObjectSize && s != []
    ensures WellFormed(r)
  {
    var src := if s[0] == '\'' then Advance(Advance(m.src)) else Advance(m.src);
    m.(src := src, out := m.out + [Byte(s[0] as int)], org := m.org + 1)
  }

  lemma StringBodyCloses(m: Machine)
    requires Quoted(m, [])
    ensures ReadsBack(m, [])
  {
    var text, p := m.src.text, m.src.at + 1;
    assert text[p..p + 1] == "'";
    assert text[p] == '\'';
    var c1 := Advance(m.src);
    assert PeekIs(c1, '\'');
  }

  /** How many characters of the text the first character of an escaped string takes. */
  function EscapedWidth(x: char): (k: nat)
    ensures k == |Escape([x])|
  {
    if x == '\'' then 2 else 1
  }

  /** Where the text of a quoted string puts its first character. */
  lemma EscapedText(m: Machine, s: string)
    requires Quoted(m, s) && s != []
    ensures var text, at, k := m.src.text, m.src.at, EscapedWidth(s[0]);
            && at + k < |text| && text[at + 1] == s[0] && text[at + k] == s[0]
            && |Escape(s)| == |Escape(s[1..])| + k
            && TextAt(Cursor(text, at + k + 1, 0), Escape(s[1..]) + "'")
  {
    var text, p := m.src.text, m.src.at + 1;
    var e1 := Escape(s[1..]);
    var head := if s[0] == '\'' then "''" else [s[0]];
    assert Escape(s) + "'" == head + (e1 + "'");
    TextAtAnyLine(m.src.(at := p), Cursor(text, p, 0), head + (e1 + "'"));
    TextSplits(text, p, head, e1 + "'");
  }

  /** Text holding `head + rest` at p holds head's first and last characters at p and at
      p + |head| - 1, and `rest` right after. */
  lemma TextSplits(text: string, p: nat, head: string, rest: string)
    requires head != [] && TextAt(Cursor(text, p, 0), head + rest)
    ensures text[p] == head[0] && text[p + |head| - 1] == head[|head| - 1]
    ensures TextAt(Cursor(text, p + |head|, 0), rest)
  {
    var w := head + rest;
    assert text[p..p + |w|] == w;
    assert text[p] == w[0] && text[p + |head| - 1] == w[|head| - 1];
    TextAtShift(text, p, |head|, w, 0);
    assert w[|head|..] == rest;
  }

  /** One step of the string loop: the first character of `s` is read and written, and the
      rest of `s` is still to be read. */
  lemma StringBodyStep(m: Machine, s: string)
    requires Quoted(m, s) && s != []
    ensures Quoted(Consumed(m, s), s[1..])
    ensures StringBody(m) == StringBody(Consumed(m, s))
    ensures Consumed(m, s).out + Bytes(s[1..]) == m.out + Bytes(s)
    ensures Consumed(m, s).src.at + |Escape(s[1..])| == m.src.at + |Escape(s)|
  {
    EscapedText(m, s);
    ConsumedQuoted(m, s);
    ConsumedBody(m, s);
    ConsumedWrites(m, s);
  }

  lemma ConsumedQuoted(m: Machine, s: string)
    requires Quoted(m, s) && s != []
    ensures Quoted(Consumed(m, s), s[1..])
  {
    EscapedText(m, s);
    var m1, e1 := Consumed(m, s), Escape(s[1..]);
    var k := EscapedWidth(s[0]);
    assert m1.src.text == m.src.text && m1.src.at == m.src.at + k;
    TextAtAnyLine(Cursor(m.src.text, m.src.at + k + 1, 0), m1.src.(at := m1.src.at + 1), e1 + "'");
  }

  /** TextAt looks at the text and the read position only. */
  lemma TextAtAnyLine(c: Cursor, d: Cursor, w: string)
    requires c.text == d.text && c.at == d.at
    ensures TextAt(c, w) == TextAt(d, w)
  {
  }

  lemma ConsumedBody(m: Machine, s: string)
    requires Quoted(m, s) && s != []
    ensures StringBody(m) == StringBody(Consumed(m, s))
  {
    EscapedText(m, s);
    if s[0] == '\'' {
      StringBodyDoubled(m);
      QuoteByte();
      assert Consumed(m, s) == m.(src := Advance(Advance(m.src)), out := m.out + ['\'' as bv8],
                                   org := m.org + 1);
    } else {
      StringBodyPlain(m);
      assert Consumed(m, s) == m.(src := Advance(m.src),
                                   out := m.out + [Byte(m.src.text[m.src.at + 1] as int)],
                                   org := m.org + 1);
    }
  }

  lemma ConsumedWrites(m: Machine, s: string)
    requires Quoted(m, s) && s != []
    ensures Consumed(m, s).out + Bytes(s[1..]) == m.out + Bytes(s)
    ensures Consumed(m, s).src.at + |Escape(s[1..])| == m.src.at + |Escape(s)|
  {
    EscapedText(m, s);
    ConsumedOut(m, s);
  }

  lemma ConsumedOut(m: Machine, s: string)
    requires WellFormed(m) && |m.out| < ObjectSize && s != []
    ensures Consumed(m, s).out + Bytes(s[1..]) == m.out + Bytes(s)
  {
    assert Bytes(s) == [Byte(s[0] as int)] + Bytes(s[1..]);
  }

  /** The byte of a quote character. */
  lemma QuoteByte()
    ensures Byte('\'' as int) == '\'' as bv8
  {
  }

  lemma StringBodyDoubled(m: Machine)
    requires WellFormed(m) && |m.out| < ObjectSize && m.src.at + 2 < |m.src.text|
    requires m.src.text[m.src.at + 1] == '\'' && m.src.text[m.src.at + 2] == '\''
    ensures StringBody(m) ==
              StringBody(m.(src := Advance(Advance(m.src)), out := m.out + ['\'' as bv8],
                            org := m.org + 1))
  {
    var c1 := Advance(m.src);
    assert PeekIs(c1, '\'');
    var c2 := Advance(c1);
    assert PeekIs(c2, '\'');
    assert Emit(m.(src := c2), '\'' as bv8).Ok?;
  }

  lemma StringBodyPlain(m: Machine)
    requires WellFormed(m) && |m.out| < ObjectSize && m.src.at + 1 < |m.src.text|
    requires m.src.text[m.src.at + 1] != '\''
    ensures StringBody(m) ==
              StringBody(m.(src := Advance(m.src),
                            out := m.out + [Byte(m.src.text[m.src.at + 1] as int)],
                            org := m.org + 1))
  {
    var c1 := Advance(m.src);
    assert Peek(c1) == Char(m.src.text[m.src.at + 1]);
    assert Emit(m.(src := c1), Byte(m.src.text[m.src.at + 1] as int)).Ok?;
  }

  /** When the loop goes on from `m1` as from `m`, and `m1` has read a shorter string whose
      bytes and escaped length complete those of `s`, `m` reads `s` back. */
  lemma ReadsBackStep(m: Machine, s: string, m1: Machine, s1: string)
    requires WellFormed(m) && WellFormed(m1) && StringBody(m) == StringBody(m1)
    requires ReadsBack(m1, s1) && m1.out + Bytes(s1) == m.out + Bytes(s)
    requires m1.src.at + |Escape(s1)| == m.src.at + |Escape(s)|
    ensures ReadsBack(m, s)
  {
  }

  /** The induction behind StringBodyReads, over the two predicates. */
  lemma {:induction false} StringBodyReadsBack(m: Machine, s: string)
    requires Quoted(m, s)
    ensures ReadsBack(m, s)
    decreases |s|
  {
    if s == [] {
      StringBodyCloses(m);
    } else {
      StringBodyStep(m, s);
      StringBodyReadsBack(Consumed(m, s), s[1..]);
      ReadsBackStep(m, s, Consumed(m, s), s[1..]);
    }
  }

  /** The string loop reads an escaped string back: entered just before `Escape(s)` and its
      closing quote, with no quote after that, it writes the bytes of `s` and stops after
      the closing quote. */
  lemma StringBodyReads(m: Machine, s: string)
    requires WellFormed(m) && |m.out| + |s| <= ObjectSize
    requires TextAt(m.src.(at := m.src.at + 1), Escape(s) + "'")
    requires var q := m.src.at + 2 + |Escape(s)|; q < |m.src.text| ==> m.src.text[q] != '\''
    ensures StringBody(m).Ok?
    ensures StringBody(m).value.out == m.out + Bytes(s)
    ensures StringBody(m).value.src.at == m.src.at + 2 + |Escape(s)|
  {
    StringBodyReadsBack(m, s);
  }

  /** Dropping the first `k` characters of a text found at `p` leaves the rest at `p + k`. */
  lemma TextAtShift(text: string, p: nat, k: nat, w: string, lineStart: nat)
    requires k <= |w| && TextAt(Cursor(text, p, lineStart), w)
    ensures TextAt(Cursor(text, p + k, lineStart), w[k..])
  {
    assert text[p + k..p + |w|] == text[p..p + |w|][k..];
  }

  /** A DB item that is a quoted string writes the characters of the string, whatever
      quotes it holds. */
  lemma DbItemReadsString(m: Machine, s: string)
    requires WellFormed(m) && |m.out| + |s| <= ObjectSize
    requires var c := SkipWhite(m.src); TextAt(c, "'" + Escape(s) + "'")
    requires var q := SkipWhite(m.src).at + 2 + |Escape(s)|;
               q < |m.src.text| ==> m.src.text[q] != '\''
    ensures DbItem(m).Ok? && DbItem(m).value.out == m.out + Bytes(s)
  {
    var c := SkipWhite(m.src);
    OpeningQuote(c, Escape(s));
    var m1 := m.(src := c);
    StringBodyReads(m1, s);
    assert DbItem(m) == StringBody(m1) by {
      DbItemQuoted(m);
    }
  }

  /** A quoted text starts with the quote; its body and closing quote follow. */
  lemma OpeningQuote(c: Cursor, e: string)
    requires TextAt(c, "'" + e + "'")
    ensures PeekIs(c, '\'') && TextAt(c.(at := c.at + 1), e + "'")
  {
    var w := "'" + e + "'";
    TextAtAnyLine(c, Cursor(c.text, c.at, 0), w);
    TextAtShift(c.text, c.at, 1, w, 0);
    assert w[1..] == e + "'";
    TextAtAnyLine(Cursor(c.text, c.at + 1, 0), c.(at := c.at + 1), e + "'");
    assert c.text[c.at] == c.text[c.at..c.at + |w|][0];
  }

  /** A DB item that starts with a quote is a string. */
  lemma DbItemQuoted(m: Machine)
    requires WellFormed(m) && PeekIs(SkipWhite(m.src), '\'')
    ensures DbItem(m) == StringBody(m.(src := SkipWhite(m.src)))
  {
  }
}
