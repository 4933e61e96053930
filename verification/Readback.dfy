/** What strtol and strtoul read back from the fields that _doprnt prints. */
module Readback {
  import opened Numerals
  import opened Formatting
  import opened Parsing

  // ---------------------------------------------------------------- reading a run of digits

  lemma DigitBack(d: nat, base: nat)
    requires d < 16
    ensures DigitOf(DigitChar(d), base) == if d < base then d else -1
    ensures !IsSpace(DigitChar(d)) && DigitChar(d) != '-' && DigitChar(d) != 'x' && DigitChar(d) != 'X'
    ensures DigitChar(d) == '0' <==> d == 0
  {
  }

  lemma {:induction false} RunIs(text: string, k: nat, ds: seq<nat>, base: nat)
    requires Digits(ds, 16) && Digits(ds, base)
    requires k + |ds| <= |text| && text[k..k + |ds|] == Chars(ds)
    requires DigitOf(At(text, k + |ds|), base) < 0
    ensures Run(text, k, base) == ds
    decreases |ds|
  {
    if ds != [] {
      assert text[k] == text[k..k + |ds|][0];
      DigitBack(ds[0], base);
      assert text[k + 1..k + |ds|] == text[k..k + |ds|][1..] == Chars(ds[1..]);
      RunIs(text, k + 1, ds[1..], base);
    }
  }

  /** z zeros and the digits of u. */
  function Padded(z: nat, u: nat, b: nat): (ds: seq<nat>)
    requires IsBase(b)
    ensures Digits(ds, b) && Digits(ds, 16)
    ensures |ds| == z + |ToDigits(u, b)|
  {
    ToDigitsOk(u, b);
    seq(z, _ => 0) + ToDigits(u, b)
  }

  lemma PaddedValue(z: nat, u: nat, b: nat)
    requires IsBase(b)
    ensures Horner(0, Padded(z, u, b), b) == u
  {
    HornerIsValue(Padded(z, u, b), b);
    ValueZeros(z, ToDigits(u, b), b);
    RoundTrip(u, b);
  }

  lemma PaddedText(z: nat, u: nat, b: nat)
    requires IsBase(b)
    ensures Chars(Padded(z, u, b)) == Repeat('0', z) + Numeral(u, b)
  {
    ToDigitsOk(u, b);
    assert DigitChar(0) == '0';
  }

  /** A text that holds zeros and a numeral from k on, followed by nothing or by blanks. */
  predicate HoldsAt(text: string, k: nat, z: nat, u: nat, b: nat)
    requires IsBase(b)
  {
    var n := |Padded(z, u, b)|;
    && k + n <= |text|
    && text[k..k + n] == Chars(Padded(z, u, b))
    && (At(text, k + n) == NUL || At(text, k + n) == ' ')
  }

  lemma ReadsAt(text: string, k: nat, z: nat, u: nat, b: nat)
    requires IsBase(b) && HoldsAt(text, k, z, u, b)
    ensures Run(text, k, b) == Padded(z, u, b) && Horner(0, Run(text, k, b), b) == u
  {
    RunIs(text, k, Padded(z, u, b), b);
    PaddedValue(z, u, b);
  }

  lemma {:induction false} SkipsTo(text: string, i: nat, k: nat)
    requires i <= k <= |text| && !IsSpace(At(text, k))
    requires forall j :: i <= j < k ==> text[j] == ' '
    ensures Skip(text, i) == k
    decreases k - i
  {
    if i < k {
      SkipsTo(text, i + 1, k);
    }
  }

  // ---------------------------------------------------------------- the layout of a field

  function Missing(u: nat, sign: char, b: nat, f: Flags): (n: nat)
    requires IsBase(b)
  {
    var natural := |SignText(sign)| + |Prefix(u, b, f.alt)| + |Numeral(u, b)|;
    if f.width > natural then f.width - natural else 0
  }

  function Blanks(u: nat, sign: char, b: nat, f: Flags): nat
    requires IsBase(b)
  {
    if f.zero || f.left then 0 else Missing(u, sign, b, f)
  }

  function Zeros(u: nat, sign: char, b: nat, f: Flags): nat
    requires IsBase(b)
  {
    if f.zero then Missing(u, sign, b, f) else 0
  }

  function Trail(u: nat, sign: char, b: nat, f: Flags): nat
    requires IsBase(b)
  {
    if f.left && !f.zero then Missing(u, sign, b, f) else 0
  }

  function Head(u: nat, sign: char, b: nat, f: Flags): string
    requires IsBase(b)
  {
    Repeat(' ', Blanks(u, sign, b, f)) + SignText(sign) + Prefix(u, b, f.alt)
  }

  lemma RegroupZeros(s: string, p: string, z: string, n: string)
    ensures "" + s + p + (z + n) + "" == s + p + z + n
  {
  }

  lemma RegroupTrail(s: string, p: string, n: string, t: string)
    ensures "" + s + p + ("" + n) + t == s + p + n + t
  {
  }

  lemma RegroupBlanks(l: string, s: string, p: string, n: string)
    ensures l + s + p + ("" + n) + "" == l + (s + p) + n
  {
  }

  lemma Repeats(c: char, pad: int)
    ensures Repeat(c, 0) == "" && Repeat(c, if pad > 0 then pad else 0) == Repeat(c, pad)
  {
  }

  lemma FieldParts(u: nat, sign: char, b: nat, f: Flags)
    requires IsBase(b)
    ensures Field(u, sign, b, f)
      == Head(u, sign, b, f) + Chars(Padded(Zeros(u, sign, b, f), u, b)) + Repeat(' ', Trail(u, sign, b, f))
  {
    PaddedText(Zeros(u, sign, b, f), u, b);
    var pad := f.width - |SignText(sign) + Prefix(u, b, f.alt)| - |Numeral(u, b)|;
    Repeats(' ', pad);
    Repeats('0', pad);
    var s, p, n := SignText(sign), Prefix(u, b, f.alt), Numeral(u, b);
    if f.zero {
      RegroupZeros(s, p, Repeat('0', pad), n);
    } else if f.left {
      RegroupTrail(s, p, n, Repeat(' ', pad));
    } else {
      RegroupBlanks(Repeat(' ', pad), s, p, n);
    }
  }

  lemma Slices(text: string, a: string, b: string, c: string)
    requires text == a + b + c
    ensures |a| + |b| <= |text| && text[..|a|] == a && text[|a|..|a| + |b|] == b
    ensures At(text, |a| + |b|) == At(c, 0)
  {
  }

  /** Zeros and digits stand behind the head. */
  lemma BodyAt(u: nat, sign: char, b: nat, f: Flags)
    requires IsBase(b)
    ensures var k := |Head(u, sign, b, f)|;
      && HoldsAt(Field(u, sign, b, f), k, Zeros(u, sign, b, f), u, b)
      && Field(u, sign, b, f)[..k] == Head(u, sign, b, f)
  {
    FieldParts(u, sign, b, f);
    Slices(Field(u, sign, b, f), Head(u, sign, b, f), Chars(Padded(Zeros(u, sign, b, f), u, b)),
           Repeat(' ', Trail(u, sign, b, f)));
  }

  /** Where the sign and the prefix stand. */
  lemma HeadAt(u: nat, sign: char, b: nat, f: Flags)
    requires IsBase(b)
    ensures var head, a := Head(u, sign, b, f), Blanks(u, sign, b, f);
      && |head| == a + |SignText(sign)| + |Prefix(u, b, f.alt)|
      && (forall j :: 0 <= j < a ==> head[j] == ' ')
      && (sign != NUL ==> head[a] == sign)
      && head[a + |SignText(sign)|..] == Prefix(u, b, f.alt)
  {
  }

  /** What a parser sees where the zeros and digits start. */
  lemma FirstOfBody(text: string, k: nat, z: nat, u: nat, b: nat)
    requires IsBase(b) && HoldsAt(text, k, z, u, b)
    ensures k < |text| && !IsSpace(text[k]) && text[k] != '-' && text[k] != '+'
    ensures text[k] == '0' <==> z > 0 || u == 0
    ensures At(text, k + 1) != 'x' && At(text, k + 1) != 'X'
  {
    var ds := Padded(z, u, b);
    assert text[k] == text[k..k + |ds|][0];
    DigitBack(ds[0], 16);
    if z == 0 && u > 0 {
      NoLeadingZero(u, b);
    }
    if |ds| > 1 {
      assert text[k + 1] == text[k..k + |ds|][1];
      DigitBack(ds[1], 16);
    }
  }

  /** An unsigned field without a prefix: strtoul skips the blanks and stands on the body. */
  lemma PlainStart(u: nat, b: nat, f: Flags, base: nat)
    requires IsBase(b) && Prefix(u, b, f.alt) == ""
    ensures var text, a, z := Field(u, NUL, b, f), Blanks(u, NUL, b, f), Zeros(u, NUL, b, f);
      && Skip(text, 0) == a && HoldsAt(text, a, z, u, b)
      && Start(text, a, base) == (a, if base != 0 then base else if z > 0 || u == 0 then 8 else 10)
  {
    var text, a, z := Field(u, NUL, b, f), Blanks(u, NUL, b, f), Zeros(u, NUL, b, f);
    BodyAt(u, NUL, b, f);
    HeadAt(u, NUL, b, f);
    FirstOfBody(text, a, z, u, b);
    LeadIn(text, a, Head(u, NUL, b, f));
  }

  /** Blanks at the front of the head are skipped. */
  lemma LeadIn(text: string, a: nat, head: string)
    requires a <= |head| <= |text| && text[..|head|] == head && !IsSpace(At(text, a))
    requires forall j :: 0 <= j < a ==> head[j] == ' '
    ensures Skip(text, 0) == a
  {
    forall j | 0 <= j < a
      ensures text[j] == ' '
    {
      assert text[j] == text[..|head|][j];
    }
    SkipsTo(text, 0, a);
  }

  /** %u read in base 10, %o without '#' in base 8, %x without '#' in base 16. */
  lemma PlainReadback(u: nat, b: nat, f: Flags)
    requires IsBase(b) && u < WORD && Prefix(u, b, f.alt) == ""
    ensures StrtoulSpec(Field(u, NUL, b, f), b)
      == (u, Blanks(u, NUL, b, f) + Zeros(u, NUL, b, f) + |Numeral(u, b)|)
  {
    PlainStart(u, b, f, b);
    UnsignedFrom(Field(u, NUL, b, f), b, Blanks(u, NUL, b, f), Zeros(u, NUL, b, f), u, b);
  }

  // ---------------------------------------------------------------- %#x and %#o

  /** Blanks, then the prefix, then the body. */
  lemma PrefixAt(u: nat, b: nat, f: Flags)
    requires IsBase(b) && Prefix(u, b, f.alt) != ""
    ensures var text, a, p := Field(u, NUL, b, f), Blanks(u, NUL, b, f), Prefix(u, b, f.alt);
      && a + |p| <= |text| && text[a..a + |p|] == p && Skip(text, 0) == a
      && HoldsAt(text, a + |p|, Zeros(u, NUL, b, f), u, b)
  {
    BodyAt(u, NUL, b, f);
    HeadAt(u, NUL, b, f);
    PrefixFirst(Field(u, NUL, b, f), Head(u, NUL, b, f), Blanks(u, NUL, b, f), Prefix(u, b, f.alt));
  }

  lemma PrefixFirst(text: string, head: string, a: nat, p: string)
    requires |head| <= |text| && text[..|head|] == head && a < |head| && head[a..] == p
    requires p[0] == '0' && forall j :: 0 <= j < a ==> head[j] == ' '
    ensures a + |p| <= |text| && text[a..a + |p|] == p && Skip(text, 0) == a
  {
    Within(text, head, a, p);
    LeadIn(text, a, head);
  }

  lemma Within(text: string, head: string, a: nat, p: string)
    requires |head| <= |text| && text[..|head|] == head && a < |head| && head[a..] == p
    ensures a + |p| <= |text| && text[a..a + |p|] == p && text[a] == p[0]
  {
    assert text[a..|head|] == text[..|head|][a..];
    assert text[a] == text[a..|head|][0];
  }

  /** Once the start is known, the body gives the number. */
  lemma UnsignedFrom(text: string, base: nat, k: nat, z: nat, u: nat, b: nat)
    requires IsBase(b) && u < WORD && Start(text, Skip(text, 0), base) == (k, b) && HoldsAt(text, k, z, u, b)
    ensures StrtoulSpec(text, base) == (u, k + z + |Numeral(u, b)|)
  {
    ReadsAt(text, k, z, u, b);
  }

  /** %#x read in base 16 or in base 0 gives the number, with any flags and any width. */
  lemma HexReadback(u: nat, f: Flags, base: nat)
    requires u < WORD && f.alt && (base == 0 || base == 16)
    ensures StrtoulSpec(Field(u, NUL, 16, f), base).0 == u
  {
    if u == 0 {
      ZeroReadback(16, f, base);
    } else {
      PrefixAt(u, 16, f);
      HexStart(Field(u, NUL, 16, f), Blanks(u, NUL, 16, f), base);
      UnsignedFrom(Field(u, NUL, 16, f), base, Blanks(u, NUL, 16, f) + 2, Zeros(u, NUL, 16, f), u, 16);
    }
  }

  lemma HexStart(text: string, a: nat, base: nat)
    requires a + 2 <= |text| && text[a..a + 2] == "0x" && (base == 0 || base == 16)
    ensures Start(text, a, base) == (a + 2, 16)
  {
    assert text[a] == text[a..a + 2][0] && text[a + 1] == text[a..a + 2][1];
  }

  /** %#o read in base 8 or in base 0 gives the number, with any flags and any width. */
  lemma OctalReadback(u: nat, f: Flags, base: nat)
    requires u < WORD && f.alt && (base == 0 || base == 8)
    ensures StrtoulSpec(Field(u, NUL, 8, f), base).0 == u
  {
    if u == 0 {
      ZeroReadback(8, f, base);
    } else {
      PrefixAt(u, 8, f);
      OctalFrom(Field(u, NUL, 8, f), Blanks(u, NUL, 8, f), base, Zeros(u, NUL, 8, f), u);
    }
  }

  lemma OctalFrom(text: string, a: nat, base: nat, z: nat, u: nat)
    requires a < |text| && text[a..a + 1] == "0" && Skip(text, 0) == a && (base == 0 || base == 8)
    requires u < WORD && HoldsAt(text, a + 1, z, u, 8)
    ensures StrtoulSpec(text, base).0 == u
  {
    OneMoreZero(text, a, z, u);
    FirstOfBody(text, a, z + 1, u, 8);
    UnsignedFrom(text, base, a, z + 1, u, 8);
  }

  /** The prefix of an octal number reads as one more leading zero. */
  lemma OneMoreZero(text: string, a: nat, z: nat, u: nat)
    requires a < |text| && text[a..a + 1] == "0" && HoldsAt(text, a + 1, z, u, 8)
    ensures HoldsAt(text, a, z + 1, u, 8)
  {
    var n := |Padded(z, u, 8)|;
    PrependZero(z, u);
    assert text[a..a + 1 + n] == text[a..a + 1] + text[a + 1..a + 1 + n];
  }

  lemma PrependZero(z: nat, u: nat)
    ensures Chars(Padded(z + 1, u, 8)) == "0" + Chars(Padded(z, u, 8))
  {
    assert Padded(z + 1, u, 8) == [0] + Padded(z, u, 8);
    assert DigitChar(0) == '0';
  }

  /** 0 has no prefix and is 0 in every base. */
  lemma ZeroReadback(b: nat, f: Flags, base: nat)
    requires IsBase(b) && (base == 0 || base == b)
    ensures StrtoulSpec(Field(0, NUL, b, f), base).0 == 0
  {
    var text, a, z := Field(0, NUL, b, f), Blanks(0, NUL, b, f), Zeros(0, NUL, b, f);
    PlainStart(0, b, f, base);
    var base' := if base == 0 then 8 else b;
    assert Padded(z, 0, b) == Padded(z, 0, base');
    UnsignedFrom(text, base, a, z, 0, base');
  }

  // ---------------------------------------------------------------- %d

  /**
    %d read with strtol in base 10, for every 32-bit number, every width and every flag: the
    number comes back unless the field starts with '+', which strtol does not step over.
   */
  lemma DecimalReadback(n: int, f: Flags)
    requires -0x8000_0000 <= n < 0x8000_0000 && (f.plus == NUL || f.plus == ' ' || f.plus == '+')
    ensures StrtolSpec(SignedField(n, 10, f), 10).0 == n <==> !(f.plus == '+' && n > 0)
  {
    if n < 0 {
      NegativeReadback(-n, f);
    } else if f.plus == '+' {
      PlusStops(n, f);
    } else {
      PositiveReadback(n, f.plus, f);
    }
  }

  /** Once the place of the body is known, it gives the number with the sign that stands before it. */
  lemma SignedFrom(text: string, a: nat, neg: bool, z: nat, u: nat)
    requires Skip(text, 0) == a && (At(text, a) == '-' <==> neg)
    requires HoldsAt(text, if neg then a + 1 else a, z, u, 10)
    requires if neg then u <= 0x8000_0000 else u < 0x8000_0000
    ensures StrtolSpec(text, 10).0 == if neg then 0 - u else u
  {
    ReadsAt(text, if neg then a + 1 else a, z, u, 10);
  }

  lemma NegativeReadback(u: nat, f: Flags)
    requires 0 < u <= 0x8000_0000
    ensures StrtolSpec(Field(u, '-', 10, f), 10).0 == 0 - u
  {
    var text, a := Field(u, '-', 10, f), Blanks(u, '-', 10, f);
    SignAt(u, '-', f);
    SignedFrom(text, a, true, Zeros(u, '-', 10, f), u);
  }

  /** The sign stands behind the blanks. */
  lemma SignAt(u: nat, sign: char, f: Flags)
    requires sign == '-' || sign == '+'
    ensures var text, a := Field(u, sign, 10, f), Blanks(u, sign, 10, f);
      && a < |text| && text[a] == sign && Skip(text, 0) == a
      && HoldsAt(text, a + 1, Zeros(u, sign, 10, f), u, 10)
  {
    var text, a, head := Field(u, sign, 10, f), Blanks(u, sign, 10, f), Head(u, sign, 10, f);
    BodyAt(u, sign, 10, f);
    HeadAt(u, sign, 10, f);
    assert text[a] == text[..|head|][a];
    LeadIn(text, a, head);
  }

  lemma PositiveReadback(u: nat, sign: char, f: Flags)
    requires u < 0x8000_0000 && (sign == NUL || sign == ' ')
    ensures StrtolSpec(Field(u, sign, 10, f), 10).0 == u
  {
    var text, head, z := Field(u, sign, 10, f), Head(u, sign, 10, f), Zeros(u, sign, 10, f);
    BodyAt(u, sign, 10, f);
    BlankHead(u, sign, f);
    FirstOfBody(text, |head|, z, u, 10);
    LeadIn(text, |head|, head);
    SignedFrom(text, |head|, false, z, u);
  }

  lemma BlankHead(u: nat, sign: char, f: Flags)
    requires sign == NUL || sign == ' '
    ensures forall j :: 0 <= j < |Head(u, sign, 10, f)| ==> Head(u, sign, 10, f)[j] == ' '
  {
  }

  /** On '+' strtol reads no digit at all. */
  lemma PlusStops(u: nat, f: Flags)
    ensures StrtolSpec(Field(u, '+', 10, f), 10) == (0, Blanks(u, '+', 10, f))
  {
    SignAt(u, '+', f);
  }

  // ---------------------------------------------------------------- %u in base 0

  /** The digits of a decimal numeral that also are octal digits, up to the first that is not. */
  function Octals(ds: seq<nat>): (os: seq<nat>)
    ensures Digits(os, 8) && os <= ds
    ensures |os| < |ds| ==> ds[|os|] >= 8
  {
    if ds == [] || ds[0] >= 8 then [] else [ds[0]] + Octals(ds[1..])
  }

  /** In a smaller base a numeral is worth less, and a prefix is worth less than the whole. */
  lemma {:induction false} OctalIsLess(ds: seq<nat>, n: nat)
    requires n <= |ds| && Digits(ds, 10)
    ensures Value(ds[..n], 8) <= Value(ds, 10)
    ensures n < |ds| && Value(ds, 10) > 0 ==> Value(ds[..n], 8) < Value(ds, 10)
    ensures n >= 2 && ds[0] > 0 ==> Value(ds[..n], 8) < Value(ds, 10)
    decreases |ds|
  {
    if ds != [] {
      var k := |ds| - 1;
      if n < |ds| {
        OctalIsLess(ds[..k], n);
        assert ds[..k][..n] == ds[..n];
      } else {
        OctalIsLess(ds[..k], k);
        assert ds[..n] == ds && ds[..k][..k] == ds[..k];
        if n == 2 && ds[0] > 0 {
          assert Value(ds[..1], 10) == ds[0] by {
            assert ds[..1][..0] == [];
          }
        }
      }
    }
  }

  /** Behind leading zeros base 0 means base 8: it reads the octal digits of the decimal numeral. */
  lemma OctalOfDecimal(text: string, k: nat, z: nat, u: nat)
    requires HoldsAt(text, k, z, u, 10)
    ensures Run(text, k, 8) == Leading(z) + Octals(ToDigits(u, 10))
  {
    ToDigitsOk(u, 10);
    var ds, os := Padded(z, u, 10), Leading(z) + Octals(ToDigits(u, 10));
    assert os == ds[..|os|];
    assert text[k..k + |os|] == text[k..k + |ds|][..|os|] == Chars(os);
    if |os| < |ds| {
      assert text[k + |os|] == text[k..k + |ds|][|os|];
      DigitBack(ds[|os|], 8);
    }
    RunIs(text, k, os, 8);
  }

  function Leading(z: nat): (ds: seq<nat>)
    ensures |ds| == z && forall i :: 0 <= i < z ==> ds[i] == 0
  {
    seq(z, _ => 0)
  }

  lemma OctalValue(u: nat, z: nat)
    ensures var v := Horner(0, Leading(z) + Octals(ToDigits(u, 10)), 8);
      if u < 8 then v == u else v < u
  {
    var ds := ToDigits(u, 10);
    var os := Octals(ds);
    HornerIsValue(Leading(z) + os, 8);
    assert Leading(z) == seq(z, _ => 0);
    ValueZeros(z, os, 8);
    if u < 8 {
      assert ds[1..] == [] && os == [u] && os[..0] == [];
    } else {
      ToDigitsOk(u, 10);
      RoundTrip(u, 10);
      NoLeadingZero(u, 10);
      assert os == ds[..|os|];
      OctalIsLess(ds, |os|);
    }
  }

  /** %u read in base 0 gives the number exactly when no zero was padded in front, or when it is one octal digit. */
  lemma DecimalBaseZero(u: nat, f: Flags)
    requires u < WORD
    ensures StrtoulSpec(Field(u, NUL, 10, f), 0).0 == u
      <==> !(f.zero && f.width > |Numeral(u, 10)|) || u < 8
  {
    var text, a, z := Field(u, NUL, 10, f), Blanks(u, NUL, 10, f), Zeros(u, NUL, 10, f);
    PlainStart(u, 10, f, 0);
    if z == 0 && u > 0 {
      UnsignedFrom(text, 0, a, z, u, 10);
    } else {
      OctalFromZeros(text, a, z, u);
    }
  }

  lemma OctalFromZeros(text: string, a: nat, z: nat, u: nat)
    requires u < WORD && HoldsAt(text, a, z, u, 10) && Skip(text, 0) == a && Start(text, a, 0) == (a, 8)
    ensures StrtoulSpec(text, 0).0 == u <==> u < 8
  {
    OctalOfDecimal(text, a, z, u);
    OctalValue(u, z);
  }

  // ---------------------------------------------------------------- examples of what does not come back

  lemma Digit1(d: nat)
    requires d < 10
    ensures Numeral(d, 10) == [DigitChar(d)]
  {
    NumeralStep(d, 10);
  }

  /** 5 printed with %+d is read as 0. */
  lemma PlusExample()
    ensures SignedField(5, 10, Flags(0, false, false, '+', false)) == "+5"
    ensures StrtolSpec("+5", 10) == (0, 0)
  {
    Digit1(5);
    assert Repeat(' ', -2) == "";
  }

  /** 10 printed with %03u is read in base 0 as 8. */
  lemma PaddedExample()
    ensures Field(10, NUL, 10, Flags(3, false, true, NUL, false)) == "010"
    ensures StrtoulSpec("010", 0).0 == 8
  {
    PaddedTen();
    ReadTen("010");
  }

  lemma ReadTen(text: string)
    requires text == "010"
    ensures StrtoulSpec(text, 0).0 == 8
  {
    OctalTen(text);
    assert Skip(text, 0) == 0 && Start(text, 0, 0) == (0, 8);
  }

  lemma Ten()
    ensures Numeral(10, 10) == "10"
  {
    Digit1(1);
    NumeralStep(10, 10);
  }

  lemma PaddedTen()
    ensures Field(10, NUL, 10, Flags(3, false, true, NUL, false)) == "010"
  {
    Ten();
    var zeros := Repeat('0', 1);
    assert zeros == "0";
    assert SignText(NUL) + Prefix(10, 10, false) == "";
    assert "" + zeros + "10" == "010";
  }

  lemma OctalTen(text: string)
    requires text == "010"
    ensures Horner(0, Run(text, 0, 8), 8) == 8
  {
    assert Run(text, 3, 8) == [];
    Consume(1, text, 2, 8);
    Consume(0, text, 1, 8);
    Consume(0, text, 0, 8);
  }
}
