/** Fields that _doprnt prints, character by character (410kern/stdio/doprnt.c:552-623). */
module FieldExamples {
  import opened Numerals
  import opened Formatting

  lemma TwoDigits(u: nat, b: nat)
    requires IsBase(b) && b <= u < b * b
    ensures Numeral(u, b) == [DigitChar(u / b)] + [DigitChar(u % b)]
  {
    NumeralStep(u, b);
    SmallDigits(u, b);
    NumeralStep(u / b, b);
    assert "" + [DigitChar(u / b)] == [DigitChar(u / b)];
  }

  lemma SmallDigits(u: nat, b: nat)
    requires IsBase(b) && b <= u < b * b
    ensures u / b < b && (u / b) % b == u / b
  {
  }

  lemma ThreeNumerals()
    ensures Numeral(42, 10) == "42" && Numeral(255, 16) == "ff" && Numeral(8, 8) == "10"
  {
    TwoDigits(42, 10);
    TwoDigits(255, 16);
    TwoDigits(8, 8);
  }

  /** %5d, %-5d and %05d: blanks in front, blanks behind, zeros between. */
  lemma Padding()
    ensures Text(Signed(42, 10, Flags(5, false, false, NUL, false))) == "   42"
    ensures Text(Signed(42, 10, Flags(5, true, false, NUL, false))) == "42   "
    ensures Text(Signed(-42, 10, Flags(5, false, true, NUL, false))) == "-0042"
  {
    ThreeNumerals();
  }

  /** %+d, "% d" and %d of a negative number. */
  lemma Signs()
    ensures Text(Signed(42, 10, Flags(0, false, false, '+', false))) == "+42"
    ensures Text(Signed(42, 10, Flags(0, false, false, ' ', false))) == " 42"
    ensures Text(Signed(-42, 10, Flags(0, false, false, '+', false))) == "-42"
  {
    ThreeNumerals();
  }

  /** %#x, %#o and %#07x. */
  lemma Prefixes()
    ensures Text(Unsigned(255, 16, Flags(0, false, false, NUL, true))) == "0xff"
    ensures Text(Unsigned(8, 8, Flags(0, false, false, NUL, true))) == "010"
    ensures Text(Unsigned(255, 16, Flags(7, false, true, NUL, true))) == "0x000ff"
  {
    ThreeNumerals();
  }
}
