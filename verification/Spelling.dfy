/**
  What strtol and strtoul make of a numeral, whoever wrote it: white space, a sign, a prefix, and digits
  in either letter case (410kern/stdlib/strtol.c:25-62, 410kern/stdlib/strtoul.c:25-62).
 */
module Spelling {
  import opened Numerals
  import opened Parsing

  /** The character stands for the digit d, in either letter case. */
  predicate Stands(c: char, d: nat) {
    if d < 10 then c as int == '0' as int + d
    else d < 36 && (c as int == 'a' as int + (d - 10) || c as int == 'A' as int + (d - 10))
  }

  /** The digits in their order. */
  lemma SmallLetters(d: nat)
    requires d < 36
    ensures Stands("0123456789abcdefghijklmnopqrstuvwxyz"[d], d)
  {
  }

  lemma CapitalLetters(d: nat)
    requires d < 36
    ensures Stands("0123456789ABCDEFGHIJKLMNOPQRSTUVWXYZ"[d], d)
  {
  }

  /** A character is read as the digit d of a base if and only if it stands for d and the base has that digit. */
  lemma DigitExact(c: char, base: nat, d: nat)
    ensures DigitOf(c, base) == d <==> d < base && Stands(c, d)
  {
  }

  predicate NoDigit(c: char, base: nat) {
    forall d :: 0 <= d < base ==> !Stands(c, d)
  }

  predicate Spells(t: string, ds: seq<nat>) {
    |t| == |ds| && forall i :: 0 <= i < |t| ==> Stands(t[i], ds[i])
  }

  /** The text from k on spells the digits, and then comes something that is no digit. */
  predicate Spelled(text: string, k: nat, ds: seq<nat>, base: nat) {
    && k + |ds| <= |text| && Digits(ds, base) && Spells(text[k..k + |ds|], ds)
    && NoDigit(At(text, k + |ds|), base)
  }

  lemma {:induction false} SpelledRun(text: string, k: nat, ds: seq<nat>, base: nat)
    requires Spelled(text, k, ds, base)
    ensures Run(text, k, base) == ds
    decreases |ds|
  {
    if ds == [] {
      EndsRun(At(text, k), base);
    } else {
      var t := text[k..k + |ds|];
      assert t[0] == text[k];
      DigitExact(text[k], base, ds[0]);
      assert text[k + 1..k + 1 + |ds[1..]|] == t[1..];
      SpelledRun(text, k + 1, ds[1..], base);
    }
  }

  lemma EndsRun(c: char, base: nat)
    requires NoDigit(c, base)
    ensures DigitOf(c, base) < 0
  {
    var d := DigitOf(c, base);
    if d >= 0 {
      DigitExact(c, base, d);
    }
  }

  /** The blank and the control characters 9 to 13. */
  predicate White(c: char) {
    c == ' ' || 9 <= c as int <= 13
  }

  lemma WhiteIsSpace(c: char)
    ensures IsSpace(c) <==> White(c)
  {
  }

  /** White space up to k, and none there. */
  predicate BlankTo(text: string, k: nat) {
    k <= |text| && (forall i :: 0 <= i < k ==> White(text[i])) && !White(At(text, k))
  }

  lemma {:induction false} SkipsBlanks(text: string, k: nat, i: nat)
    requires BlankTo(text, k) && i <= k
    ensures Skip(text, i) == k
    decreases k - i
  {
    WhiteIsSpace(At(text, i));
    if i < k {
      SkipsBlanks(text, k, i + 1);
    }
  }

  /** The digits from k on have the value of the numeral. */
  lemma ReadsNumeral(text: string, k: nat, ds: seq<nat>, base: nat)
    requires Spelled(text, k, ds, base)
    ensures |Run(text, k, base)| == |ds| && Horner(0, Run(text, k, base), base) == Value(ds, base)
  {
    SpelledRun(text, k, ds, base);
    HornerIsValue(ds, base);
  }

  /** strtoul returns v modulo 2^32 and leaves off at `end`. */
  predicate Reads(text: string, base: int, v: nat, end: nat) {
    StrtoulSpec(text, base) == (v % WORD, end)
  }

  /** strtol returns the signed 32-bit number that agrees with v modulo 2^32, and leaves off at `end`. */
  predicate ReadsSigned(text: string, base: int, v: int, end: nat) {
    var (r, e) := StrtolSpec(text, base);
    e == end && -0x8000_0000 <= r < 0x8000_0000 && (r - v) % WORD == 0
  }

  /** Where the digits start behind white space up to k. */
  function AfterSign(text: string, k: nat): nat {
    if At(text, k) == '-' then k + 1 else k
  }

  function Negated(text: string, k: nat, v: nat): int {
    if At(text, k) == '-' then 0 - v else v
  }

  lemma UnsignedFrom(text: string, base: int, k: nat, i: nat, b: nat, n: nat, v: nat)
    requires Skip(text, 0) == k && Start(text, k, base) == (i, b)
    requires |Run(text, i, b)| == n && Horner(0, Run(text, i, b), b) == v
    ensures Reads(text, base, v, i + n)
  {
  }

  lemma SignedFrom(text: string, base: int, k: nat, i: nat, b: nat, n: nat, v: nat)
    requires Skip(text, 0) == k && Start(text, AfterSign(text, k), base) == (i, b)
    requires |Run(text, i, b)| == n && Horner(0, Run(text, i, b), b) == v
    ensures ReadsSigned(text, base, Negated(text, k, v), i + n)
  {
  }

  lemma ValueFrom(text: string, base: int, k: nat, i: nat, b: nat, ds: seq<nat>)
    requires BlankTo(text, k) && Start(text, k, base) == (i, b) && Spelled(text, i, ds, b)
    ensures Reads(text, base, Value(ds, b), i + |ds|)
  {
    SkipsBlanks(text, k, 0);
    ReadsNumeral(text, i, ds, b);
    UnsignedFrom(text, base, k, i, b, |ds|, Value(ds, b));
  }

  /** strtoul in the base of a numeral: its value, and the place behind it. */
  lemma UnsignedValue(text: string, k: nat, ds: seq<nat>, base: nat)
    requires BlankTo(text, k) && Spelled(text, k, ds, base) && base > 0 && !HexAhead(text, k, base)
    ensures Reads(text, base, Value(ds, base), k + |ds|)
  {
    ValueFrom(text, base, k, k, base, ds);
  }

  predicate HexPrefix(text: string, k: nat) {
    k + 2 <= |text| && (text[k..k + 2] == "0x" || text[k..k + 2] == "0X")
  }

  lemma StepsOver(text: string, k: nat, base: nat)
    requires HexPrefix(text, k) && (base == 0 || base == 16)
    ensures Start(text, k, base) == (k + 2, 16)
  {
    assert text[k..k + 2][0] == text[k] && text[k..k + 2][1] == text[k + 1];
  }

  /** In base 0 and 16 the prefix is stepped over, whichever x it has, and the digits are hexadecimal. */
  lemma HexValue(text: string, k: nat, ds: seq<nat>, base: nat, hex: nat)
    requires hex == 16 && (base == 0 || base == hex)
    requires BlankTo(text, k) && HexPrefix(text, k) && Spelled(text, k + 2, ds, hex)
    ensures Reads(text, base, Value(ds, hex), k + 2 + |ds|)
  {
    StepsOver(text, k, base);
    ValueFrom(text, base, k, k + 2, hex, ds);
  }

  /** In base 0 a numeral without the prefix is octal if it starts with 0, and decimal otherwise. */
  lemma GuessedValue(text: string, k: nat, ds: seq<nat>, base: nat)
    requires BlankTo(text, k) && !HexAhead(text, k, 0) && base == (if At(text, k) == '0' then 8 else 10)
    requires Spelled(text, k, ds, base)
    ensures Reads(text, 0, Value(ds, base), k + |ds|)
  {
    ValueFrom(text, 0, k, k, base, ds);
  }

  /** strtol: the value of the numeral, negative after a minus sign. */
  lemma SignedValue(text: string, k: nat, ds: seq<nat>, base: nat)
    requires BlankTo(text, k) && base > 0 && !HexAhead(text, AfterSign(text, k), base)
    requires Spelled(text, AfterSign(text, k), ds, base)
    ensures ReadsSigned(text, base, Negated(text, k, Value(ds, base)), AfterSign(text, k) + |ds|)
  {
    SkipsBlanks(text, k, 0);
    var i := AfterSign(text, k);
    ReadsNumeral(text, i, ds, base);
    SignedFrom(text, base, k, i, base, |ds|, Value(ds, base));
  }
}
