/** Character classes of the C library in the "C" locale, as the scanner uses them. */
module Text {

  predicate IsAlpha(c: char) { 'A' <= c <= 'Z' || 'a' <= c <= 'z' }

  predicate IsDigit(c: char) { '0' <= c <= '9' }

  predicate IsXDigit(c: char) { IsDigit(c) || 'A' <= c <= 'F' || 'a' <= c <= 'f' }

  /** isspace: blank, tab, newline, vertical tab, form feed, carriage return. */
  predicate IsSpace(c: char) {
    c == ' ' || c == '\t' || c == '\n' || c == '\r' || c as int == 11 || c as int == 12
  }

  /** toupper: lower-case letters map to upper case, everything else is left alone. */
  function ToUpper(c: char): (u: char)
    ensures 'a' <= c <= 'z' ==> 'A' <= u <= 'Z' && u as int == c as int - 32
    ensures !('a' <= c <= 'z') ==> u == c
    ensures IsAlpha(u) <==> IsAlpha(c)
  {
    if 'a' <= c <= 'z' then (c as int - 32) as char else c
  }

  /** Upper-cases every character of a word. */
  function Upper(s: string): (u: string)
    ensures |u| == |s| && forall i | 0 <= i < |s| :: u[i] == ToUpper(s[i])
  {
    seq(|s|, i requires 0 <= i < |s| => ToUpper(s[i]))
  }

  /** The value of one hexadecimal digit (xdigit); its caller has checked the class. */
  function XDigit(c: char): (v: nat)
    requires IsXDigit(c)
    ensures v < 16
    ensures IsDigit(c) <==> v < 10
    ensures IsDigit(c) ==> v == c as int - '0' as int
  {
    if IsDigit(c) then c as int - '0' as int else ToUpper(c) as int - 'A' as int + 10
  }

  const HexDigits: string := "0123456789ABCDEF"

  /** XDigit inverts the upper-case digit table, and reads lower-case digits alike. */
  lemma XDigitInvertsTable(v: nat)
    requires v < 16
    ensures IsXDigit(HexDigits[v]) && XDigit(HexDigits[v]) == v
    ensures v >= 10 ==> var lower := (HexDigits[v] as int + 32) as char;
                        IsXDigit(lower) && XDigit(lower) == v
  {
  }

  predicate AllXDigits(s: string) { forall i | 0 <= i < |s| :: IsXDigit(s[i]) }

  predicate AllDigits(s: string) { forall i | 0 <= i < |s| :: IsDigit(s[i]) }

  /** Positional value of a digit string in the given base, most significant digit first:
      the loop `res = res * base + xdigit(buf[i])`. */
  function DigitsValue(s: string, base: nat): nat
    requires AllXDigits(s)
  {
    if s == [] then 0 else DigitsValue(s[..|s| - 1], base) * base + XDigit(s[|s| - 1])
  }

  function PlaceValue(b: nat, n: nat): (r: nat)
    ensures r >= 1 || b == 0
  {
    if n == 0 then 1 else PlaceValue(b, n - 1) * b
  }

  /** A string of digits each below the base has a value below base^length: five hex digits
      fit in 20 bits, five decimal digits stay below 100000. */
  lemma {:induction false} DigitsValueBound(s: string, base: nat)
    requires AllXDigits(s) && forall i | 0 <= i < |s| :: XDigit(s[i]) < base
    ensures DigitsValue(s, base) < PlaceValue(base, |s|)
  {
    if s != [] {
      var init := s[..|s| - 1];
      DigitsValueBound(init, base);
      var v, d, p := DigitsValue(init, base), XDigit(s[|s| - 1]), PlaceValue(base, |init|);
      assert DigitsValue(s, base) == v * base + d;
      assert PlaceValue(base, |s|) == p * base;
      StepBound(v, d, p, base);
    }
  }

  lemma StepBound(v: nat, d: nat, p: nat, base: nat)
    requires v < p && d < base
    ensures v * base + d < p * base
  {
    MulMono(v + 1, p, base);
  }

  lemma MulMono(a: nat, b: nat, c: nat)
    requires a <= b
    ensures a * c <= b * c
  {
  }
}
