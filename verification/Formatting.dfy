/**
  The integer conversions of _doprnt (410kern/stdio/doprnt.c) and the bounded output of vsprintf
  and vsnprintf (410kern/stdio/sprintf.c).
 */
module Formatting {
  import opened Numerals

  /** The flags and the width of a conversion; `plus` is '+', ' ' or NUL. */
  datatype Flags = Flags(width: int, left: bool, zero: bool, plus: char, alt: bool)

  const NUL: char := '\0'

  function Repeat(c: char, n: int): (s: string)
    ensures |s| == (if n > 0 then n else 0) && forall i :: 0 <= i < |s| ==> s[i] == c
  {
    seq(if n > 0 then n else 0, _ => c)
  }

  function DigitChar(d: nat): char
    requires d < 16
  {
    "0123456789abcdef"[d]
  }

  function Chars(ds: seq<nat>): (s: string)
    requires Digits(ds, 16)
    ensures |s| == |ds| && forall i :: 0 <= i < |s| ==> s[i] == DigitChar(ds[i])
  {
    seq(|ds|, i requires 0 <= i < |ds| => DigitChar(ds[i]))
  }

  lemma Wider(ds: seq<nat>, b: nat)
    requires IsBase(b) && Digits(ds, b)
    ensures Digits(ds, 16)
  {
  }

  function Numeral(u: nat, b: nat): (s: string)
    requires IsBase(b)
    ensures s != ""
  {
    ToDigitsOk(u, b);
    Wider(ToDigits(u, b), b);
    Chars(ToDigits(u, b))
  }

  lemma CharsAppend(ds: seq<nat>, d: nat)
    requires Digits(ds, 16) && d < 16
    ensures Digits(ds + [d], 16) && Chars(ds + [d]) == Chars(ds) + [DigitChar(d)]
  {
  }

  /** The last digit, and the numeral of the rest. */
  lemma NumeralStep(u: nat, b: nat)
    requires IsBase(b)
    ensures Numeral(u, b) == (if u < b then "" else Numeral(u / b, b)) + [DigitChar(u % b)]
  {
    if u >= b {
      Shrinks(u, b);
      ToDigitsOk(u / b, b);
      CharsAppend(ToDigits(u / b, b), u % b);
    } else {
      CharsAppend([], u);
      assert [] + [u] == [u];
      assert u % b == u;
    }
  }

  function SignText(sign: char): string {
    if sign == NUL then "" else [sign]
  }

  function Prefix(u: nat, b: nat, alt: bool): string {
    if u == 0 || !alt then "" else if b == 8 then "0" else if b == 16 then "0x" else ""
  }

  /** A field is its sign, its prefix and its digits, padded to the width in one of three places. */
  function Field(u: nat, sign: char, b: nat, f: Flags): string
    requires IsBase(b)
  {
    var text := SignText(sign) + Prefix(u, b, f.alt);
    var pad := f.width - |text| - |Numeral(u, b)|;
    if f.zero then text + Repeat('0', pad) + Numeral(u, b)
    else if f.left then text + Numeral(u, b) + Repeat(' ', pad)
    else Repeat(' ', pad) + text + Numeral(u, b)
  }

  /** The field is exactly as long as the width, or as its own text if that is longer. */
  lemma FieldWidth(u: nat, sign: char, b: nat, f: Flags)
    requires IsBase(b)
    ensures var natural := |SignText(sign)| + |Prefix(u, b, f.alt)| + |Numeral(u, b)|;
      |Field(u, sign, b, f)| == if f.width > natural then f.width else natural
  {
  }

  // ---------------------------------------------------------------- output

  /** SPRINTF_UNLIMITED: -1 as an unsigned 32-bit number. */
  const UNLIMITED: nat := 0xFFFF_FFFF

  /** The first `max` characters, or all of them. */
  function Clip(s: string, max: nat): string {
    if max == UNLIMITED || |s| <= max then s else s[..max]
  }

  /** sprintf_state with savechar; `full` is all that was given to it. */
  class Sink {
    const max: nat
    var out: string
    ghost var full: string

    ghost predicate Valid()
      reads this
    {
      out == Clip(full, max)
    }

    constructor (max: nat)
      ensures Valid() && full == "" && out == "" && this.max == max
    {
      this.max := max;
      out, full := "", "";
    }

    /** `savechar` */
    method Put(c: char)
      requires Valid()
      modifies this
      ensures Valid() && full == old(full) + [c]
    {
      full := full + [c];
      if max != UNLIMITED && |out| == max {
        return;
      }
      out := out + [c];
    }

    /** The loop that pads: it runs `length` times if that is positive and always leaves length below 0. */
    method Pad(c: char, length: int) returns (rest: int)
      requires Valid()
      modifies this
      ensures Valid() && full == old(full) + Repeat(c, length) && rest == if length >= 0 then -1 else length - 1
    {
      rest := length - 1;
      while rest >= 0
        invariant Valid() && (if length >= 0 then -1 <= rest < length else rest == length - 1)
        invariant full == old(full) + Repeat(c, length - 1 - rest)
        decreases rest
      {
        Put(c);
        rest := rest - 1;
      }
    }

    method PutAll(s: string)
      requires Valid()
      modifies this
      ensures Valid() && full == old(full) + s
    {
      for i := 0 to |s|
        invariant Valid() && full == old(full) + s[..i]
      {
        Put(s[i]);
      }
    }

    /** The do-while loop that builds the digits from the right in a buffer of MAXBUF characters. */
    static method BuildDigits(u: nat, b: nat) returns (buf: array<char>, p: int)
      requires IsBase(b) && u < 0x1_0000_0000_0000_0000
      ensures fresh(buf) && buf.Length == 32 && -1 <= p < 31 && buf[p + 1..] == Numeral(u, b)
    {
      buf := new char[32];
      NumeralSize(u, b);
      var rest: nat := u;
      p := 31;
      assert buf[32..] == "";
      var more := true;
      while more
        invariant -1 <= p <= 31 && (more || p < 31)
        invariant Numeral(u, b) == Pending(more, rest, b) + buf[p + 1..]
        decreases more, rest
      {
        PutDigit(buf, p, rest, b, Numeral(u, b));
        p, rest := p - 1, rest / b;
        more := rest != 0;
      }
    }

    /** One round: the last digit of what is left goes in front of the digits there are. */
    static method PutDigit(buf: array<char>, p: int, rest: nat, b: nat, ghost whole: string)
      requires IsBase(b) && buf.Length == 32 && -1 <= p < 32 && |whole| <= 22
      requires whole == Numeral(rest, b) + buf[p + 1..]
      modifies buf
      ensures 0 <= p && whole == Pending(rest / b != 0, rest / b, b) + buf[p..]
      ensures rest / b != 0 ==> rest / b < rest
    {
      PeelDigit(whole, rest, b, buf[p + 1..]);
      ghost var tail := buf[p + 1..];
      assert |tail| == 31 - p;
      buf[p] := DigitChar(rest % b);
      assert buf[p..] == [DigitChar(rest % b)] + tail;
    }

    /** `print_num` */
    method PrintNum(u: nat, sign: char, b: nat, f: Flags)
      requires Valid() && IsBase(b) && u < 0x1_0000_0000_0000_0000
      modifies this
      ensures Valid() && full == old(full) + Field(u, sign, b, f)
    {
      var prefix := Prefix(u, b, f.alt);
      var buf, p := BuildDigits(u, b);
      var digits := buf[p + 1..];
      var length := f.width - (31 - p);
      if sign != NUL {
        length := length - 1;
      }
      length := length - |prefix|;
      var rest := EmitFront(sign, prefix, f, length);
      EmitDigits(digits, f, rest);
      FieldPieces(u, sign, b, f, length);
      Assoc(old(full), Front(sign, prefix, f, length), Back(digits, f, length));
    }

    /** Leading blanks, the sign, the prefix and leading zeros. */
    method EmitFront(sign: char, prefix: string, f: Flags, pad: int) returns (length: int)
      requires Valid()
      modifies this
      ensures Valid() && length == (if f.left && !f.zero then pad else if pad >= 0 then -1 else pad - 1)
      ensures full == old(full) + Front(sign, prefix, f, pad)
    {
      ghost var f0 := full;
      length := pad;
      ghost var lead := Repeat(' ', if !f.zero && !f.left then pad else 0);
      if !f.zero && !f.left {
        length := Pad(' ', length);
      }
      assert full == f0 + lead;
      if sign != NUL {
        Put(sign);
      }
      Assoc(f0, lead, SignText(sign));
      assert full == f0 + (lead + SignText(sign));
      PutAll(prefix);
      Assoc(f0, lead + SignText(sign), prefix);
      ghost var zeros := Repeat('0', if f.zero then pad else 0);
      if f.zero {
        length := Pad('0', length);
      }
      Assoc(f0, lead + SignText(sign) + prefix, zeros);
    }

    /** The digits and trailing blanks. */
    method EmitDigits(digits: string, f: Flags, length: int)
      requires Valid() && (f.left && f.zero ==> length < 0)
      modifies this
      ensures Valid() && full == old(full) + (digits + Repeat(' ', if f.left then length else 0))
    {
      PutAll(digits);
      if f.left {
        var _ := Pad(' ', length);
      }
      Assoc(old(full), digits, Repeat(' ', if f.left then length else 0));
    }

    /** One directive. */
    method Print(d: Directive)
      requires Valid() && WellFormed(d)
      modifies this
      ensures Valid() && full == old(full) + Text(d)
    {
      match d
      case Literal(c) =>
        Put(c);
      case Unsigned(u, b, f) =>
        PrintNum(u, NUL, b, f);
      case Signed(n, b, f) =>
        if n >= 0 {
          PrintNum(n, f.plus, b, f);
        } else {
          PrintNum(-n, '-', b, f);
        }
    }

    /** `_doprnt` on a format that has been split into directives. */
    method Doprnt(ds: seq<Directive>)
      requires Valid() && forall d :: d in ds ==> WellFormed(d)
      modifies this
      ensures Valid() && full == old(full) + Texts(ds)
    {
      assert ds[..0] == [] && old(full) + "" == full;
      for i := 0 to |ds|
        invariant Valid() && full == old(full) + Texts(ds[..i])
      {
        Print(ds[i]);
        assert ds[..i + 1][..i] == ds[..i];
        Assoc(old(full), Texts(ds[..i]), Text(ds[i]));
      }
      assert ds[..|ds|] == ds;
    }
  }

  /** `vsprintf`: the whole text and the terminator; the length returned does not count the terminator. */
  method Vsprintf(ds: seq<Directive>) returns (written: string, len: nat)
    requires forall d :: d in ds ==> WellFormed(d)
    ensures written == Texts(ds) + [NUL] && len == |Texts(ds)|
  {
    var sink := new Sink(UNLIMITED);
    sink.Doprnt(ds);
    assert sink.full == Texts(ds);
    written, len := sink.out + [NUL], |sink.out|;
  }

  /** The unsigned bound `vsnprintf` computes from its int argument. */
  function MaxOf(size: int): (max: nat)
    requires -0x8000_0000 <= size < 0x8000_0000
  {
    if size >= 1 then size - 1 else size - 1 + 0x1_0000_0000
  }

  /** `vsnprintf`: the text cut to its bound, and the terminator. */
  method Vsnprintf(size: int, ds: seq<Directive>) returns (written: string, len: nat)
    requires -0x8000_0000 <= size < 0x8000_0000
    requires forall d :: d in ds ==> WellFormed(d)
    ensures written == Clip(Texts(ds), MaxOf(size)) + [NUL] && len == |written| - 1
  {
    var sink := new Sink(MaxOf(size));
    sink.Doprnt(ds);
    assert sink.full == Texts(ds);
    written, len := sink.out + [NUL], |sink.out|;
  }

  /** What vsnprintf writes fits in `size` characters if and only if size is at least 1, and is then a prefix. */
  lemma FitsIff(size: int, text: string)
    requires -0x8000_0000 <= size < 0x8000_0000
    ensures |Clip(text, MaxOf(size)) + [NUL]| <= size <==> size >= 1
    ensures size >= 1 ==> Clip(text, MaxOf(size)) == if |text| < size then text else text[..size - 1]
    ensures size == 0 ==> Clip(text, MaxOf(size)) == text
  {
  }

  /** With size 0 a text of one character is written whole, with its terminator. */
  lemma SizeZeroExample()
    ensures Clip("a", MaxOf(0)) + [NUL] == "a" + [NUL] && |Clip("a", MaxOf(0)) + [NUL]| > 0
  {
  }

  /** What a format is made of once the flags, the width and the arguments of each conversion are known. */
  datatype Directive = Literal(c: char) | Signed(n: int, b: nat, f: Flags) | Unsigned(u: nat, b: nat, f: Flags)

  predicate WellFormed(d: Directive) {
    match d
    case Literal(_) => true
    case Signed(n, b, f) => IsBase(b) && -0x8000_0000_0000_0000 <= n < 0x8000_0000_0000_0000
    case Unsigned(u, b, f) => IsBase(b) && u < 0x1_0000_0000_0000_0000
  }

  function Text(d: Directive): string
    requires WellFormed(d)
  {
    match d
    case Literal(c) => [c]
    case Signed(n, b, f) => SignedField(n, b, f)
    case Unsigned(u, b, f) => Field(u, NUL, b, f)
  }

  /** A signed number is its magnitude behind its sign. */
  function SignedField(n: int, b: nat, f: Flags): string
    requires IsBase(b)
  {
    if n >= 0 then Field(n, f.plus, b, f) else Field(-n, '-', b, f)
  }

  function Texts(ds: seq<Directive>): string
    requires forall d :: d in ds ==> WellFormed(d)
  {
    if ds == [] then "" else Texts(ds[..|ds| - 1]) + Text(ds[|ds| - 1])
  }

  function Pending(more: bool, rest: nat, b: nat): string
    requires IsBase(b)
  {
    if more then Numeral(rest, b) else ""
  }

  lemma PeelDigit(whole: string, rest: nat, b: nat, tail: string)
    requires IsBase(b) && whole == Numeral(rest, b) + tail
    ensures whole == Pending(rest / b != 0, rest / b, b) + ([DigitChar(rest % b)] + tail)
    ensures rest / b != 0 ==> rest / b < rest
  {
    NumeralStep(rest, b);
    SmallQuotient(rest, b);
    Assoc(Pending(rest / b != 0, rest / b, b), [DigitChar(rest % b)], tail);
  }

  lemma Assoc(a: string, b: string, c: string)
    ensures a + b + c == a + (b + c)
  {
  }

  function Front(sign: char, prefix: string, f: Flags, pad: int): string {
    Repeat(' ', if !f.zero && !f.left then pad else 0) + SignText(sign) + prefix
    + Repeat('0', if f.zero then pad else 0)
  }

  function Back(digits: string, f: Flags, pad: int): string {
    digits + Repeat(' ', if f.left && !f.zero then pad else 0)
  }

  /** At most one of the three paddings is not empty. */
  lemma FieldPieces(u: nat, sign: char, b: nat, f: Flags, pad: int)
    requires IsBase(b) && pad == f.width - |SignText(sign)| - |Prefix(u, b, f.alt)| - |Numeral(u, b)|
    ensures Field(u, sign, b, f) == Front(sign, Prefix(u, b, f.alt), f, pad) + Back(Numeral(u, b), f, pad)
  {
    Empty(' ');
    Empty('0');
    var s, p, n := SignText(sign), Prefix(u, b, f.alt), Numeral(u, b);
    if f.zero {
      JoinZeros(s, p, Repeat('0', pad), n);
    } else if f.left {
      JoinTrail(s, p, n, Repeat(' ', pad));
    } else {
      JoinBlanks(Repeat(' ', pad), s, p, n);
    }
  }

  lemma Empty(c: char)
    ensures Repeat(c, 0) == ""
  {
  }

  lemma JoinZeros(s: string, p: string, z: string, n: string)
    ensures "" + s + p + z + (n + "") == s + p + z + n
  {
  }

  lemma JoinTrail(s: string, p: string, n: string, t: string)
    ensures "" + s + p + "" + (n + t) == s + p + n + t
  {
  }

  lemma JoinBlanks(l: string, s: string, p: string, n: string)
    ensures l + s + p + "" + (n + "") == l + (s + p) + n
  {
  }

  lemma NumeralSize(u: nat, b: nat)
    requires IsBase(b) && u < 0x1_0000_0000_0000_0000
    ensures |Numeral(u, b)| <= 22
  {
    AtMost22(u, b);
    ToDigitsOk(u, b);
  }

  lemma SmallQuotient(u: nat, b: nat)
    requires 2 <= b
    ensures (u / b == 0 <==> u < b) && (u > 0 ==> u / b < u)
  {
    if u >= b {
      Shrinks(u, b);
      Positive(u, b);
    }
  }
}
