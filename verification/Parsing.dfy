/**
  strtol and strtoul (410kern/stdlib), and what they read back from the fields that
  _doprnt prints.
 */
module Parsing {
  import opened Numerals
  import opened Formatting

  const WORD: nat := 0x1_0000_0000

  /** The character at i; behind the text stands the terminator. */
  function At(s: string, i: nat): char {
    if i < |s| then s[i] else NUL
  }

  /** `isspace` */
  predicate IsSpace(c: char) {
    c == ' ' || c == '\t' || c == '\n' || c == '\r' || c as int == 11 || c as int == 12
  }

  function Skip(s: string, i: nat): (k: nat)
    decreases |s| - i
  {
    if IsSpace(At(s, i)) then Skip(s, i + 1) else i
  }

  /** The digit that c is in this base, or -1. */
  function DigitOf(c: char, base: nat): (d: int)
    ensures -1 <= d < base
  {
    var n := c as int;
    if '0' <= c <= '9' && n - 48 < base then n - 48
    else if 'a' <= c <= 'z' && n - 87 < base then n - 87
    else if 'A' <= c <= 'Z' && n - 55 < base then n - 55
    else -1
  }

  /** The digits from i on, up to the first character that is none. */
  function Run(s: string, i: nat, base: nat): (ds: seq<nat>)
    ensures Digits(ds, base)
    decreases |s| - i
  {
    if DigitOf(At(s, i), base) < 0 then [] else [DigitOf(At(s, i), base)] + Run(s, i + 1, base)
  }

  predicate HexAhead(s: string, i: nat, base: int) {
    (base == 16 || base == 0) && At(s, i) == '0' && (At(s, i + 1) == 'x' || At(s, i + 1) == 'X')
  }

  /** Where the digits start and in which base they are; a negative base admits no digit. */
  function Start(s: string, i: nat, base: int): (r: (nat, nat)) {
    if HexAhead(s, i, base) then (i + 2, 16)
    else if base < 0 then (i, 0)
    else if base != 0 then (i, base)
    else if At(s, i) == '0' then (i, 8)
    else (i, 10)
  }

  /** The number that 32 bits hold: as unsigned and as signed. */
  function Signed32(v: int): (r: int)
    ensures -0x8000_0000 <= r < 0x8000_0000 && (r - v) % WORD == 0
  {
    var m := v % WORD;
    if m < 0x8000_0000 then m else m - WORD
  }

  function Modulo(v: int): (r: nat)
    ensures r < WORD
  {
    v % WORD
  }

  function StrtoulSpec(s: string, base: int): (r: (nat, nat)) {
    var (k, b) := Start(s, Skip(s, 0), base);
    (Modulo(Horner(0, Run(s, k, b), b)), k + |Run(s, k, b)|)
  }

  function StrtolSpec(s: string, base: int): (r: (int, nat)) {
    var i := Skip(s, 0);
    var neg := At(s, i) == '-';
    var (k, b) := Start(s, if neg then i + 1 else i, base);
    var v := Horner(0, Run(s, k, b), b);
    (Signed32(if neg then 0 - v else v), k + |Run(s, k, b)|)
  }

  // ---------------------------------------------------------------- the loops

  /** The loop over white space. */
  method SkipSpaces(s: string) returns (p: nat)
    ensures p == Skip(s, 0)
  {
    p := 0;
    while IsSpace(At(s, p))
      invariant Skip(s, p) == Skip(s, 0)
      decreases |s| - p
    {
      p := p + 1;
    }
  }

  /** The choice of base and the step over "0x". */
  method FindBase(s: string, i: nat, base: int) returns (p: nat, b: nat)
    ensures (p, b) == Start(s, i, base)
  {
    var r := base;
    p := i;
    if HexAhead(s, p, r) {
      p, r := p + 2, 16;
    }
    if r == 0 {
      r := if At(s, p) == '0' then 8 else 10;
    }
    b := if r < 0 then 0 else r;
  }

  /** The loop over the digits in an unsigned accumulator. */
  method Accumulate(s: string, k: nat, b: nat) returns (v: nat, p: nat)
    ensures v == Modulo(Horner(0, Run(s, k, b), b)) && p == k + |Run(s, k, b)|
  {
    v, p := 0, k;
    ghost var whole: nat := 0;
    while DigitOf(At(s, p), b) >= 0
      invariant Horner(whole, Run(s, p, b), b) == Horner(0, Run(s, k, b), b)
      invariant p + |Run(s, p, b)| == k + |Run(s, k, b)|
      invariant v == Modulo(whole)
      decreases |s| - p
    {
      var d: nat := DigitOf(At(s, p), b);
      Consume(whole, s, p, b);
      UnsignedStep(whole, b, d);
      v := Modulo(Next(v, b, d));
      whole := Next(whole, b, d);
      p := p + 1;
    }
  }

  /** The loop over the digits in a signed accumulator, which wraps at 32 bits. */
  method AccumulateSigned(s: string, k: nat, b: nat) returns (v: int, p: nat)
    ensures v == Signed32(Horner(0, Run(s, k, b), b)) && p == k + |Run(s, k, b)|
  {
    v, p := 0, k;
    ghost var whole: nat := 0;
    while DigitOf(At(s, p), b) >= 0
      invariant Horner(whole, Run(s, p, b), b) == Horner(0, Run(s, k, b), b)
      invariant p + |Run(s, p, b)| == k + |Run(s, k, b)|
      invariant v == Signed32(whole)
      decreases |s| - p
    {
      var d: nat := DigitOf(At(s, p), b);
      Consume(whole, s, p, b);
      SignedStep(whole, b, d);
      v := Signed32(Next(v, b, d));
      whole := Next(whole, b, d);
      p := p + 1;
    }
  }

  /** `strtoul` */
  method Strtoul(s: string, base: int) returns (v: nat, end: nat)
    ensures (v, end) == StrtoulSpec(s, base)
  {
    var i := SkipSpaces(s);
    var p, b := FindBase(s, i, base);
    v, end := Accumulate(s, p, b);
  }

  /** `strtol` */
  method Strtol(s: string, base: int) returns (v: int, end: nat)
    ensures (v, end) == StrtolSpec(s, base)
  {
    var i := SkipSpaces(s);
    var neg := false;
    if At(s, i) == '-' {
      neg, i := true, i + 1;
    }
    var p, b := FindBase(s, i, base);
    v, end := AccumulateSigned(s, p, b);
    if neg {
      NegateWrapped(Horner(0, Run(s, p, b), b));
      v := Signed32(-v);
    }
  }

  lemma Consume(acc: nat, s: string, p: nat, b: nat)
    requires DigitOf(At(s, p), b) >= 0
    ensures Horner(acc, Run(s, p, b), b) == Horner(Next(acc, b, DigitOf(At(s, p), b)), Run(s, p + 1, b), b)
    ensures |Run(s, p, b)| == 1 + |Run(s, p + 1, b)|
  {
    assert Run(s, p, b)[1..] == Run(s, p + 1, b);
  }

  function Next(v: int, b: nat, d: nat): (r: int)
    ensures v >= 0 ==> r >= 0
  {
    v * b + d
  }

  /** Numbers that agree modulo 2^32 still agree after a step. */
  lemma WrapStep(x: int, y: int, b: nat, d: nat)
    requires (y - x) % WORD == 0
    ensures Next(y, b, d) % WORD == Next(x, b, d) % WORD
  {
    var q := (y - x) / WORD;
    assert y == x + q * 0x1_0000_0000;
    assert y * b + d == x * b + d + (q * b) * 0x1_0000_0000;
    Multiples(x * b + d, q * b);
  }

  lemma UnsignedStep(x: nat, b: nat, d: nat)
    ensures Modulo(Next(Modulo(x), b, d)) == Modulo(Next(x, b, d))
  {
    WrapStep(x, Modulo(x), b, d);
  }

  lemma SignedStep(x: nat, b: nat, d: nat)
    ensures Signed32(Next(Signed32(x), b, d)) == Signed32(Next(x, b, d))
  {
    WrapStep(x, Signed32(x), b, d);
  }

  lemma NegateWrapped(x: nat)
    ensures Signed32(-Signed32(x)) == Signed32(0 - x)
  {
  }

  lemma Multiples(x: int, q: int)
    ensures (x + q * 0x1_0000_0000) % WORD == x % WORD
  {
  }
}
