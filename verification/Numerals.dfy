/** Numerals in bases 8, 10 and 16: the digits of a number and the number of the digits. */
module Numerals {
  import opened Arithmetic

  predicate IsBase(b: nat) {
    b == 8 || b == 10 || b == 16
  }

  predicate Digits(ds: seq<nat>, b: nat) {
    forall i :: 0 <= i < |ds| ==> ds[i] < b
  }

  /** The digits of u, the most significant first and none in front that is not needed. */
  function ToDigits(u: nat, b: nat): (ds: seq<nat>)
    requires 2 <= b
    ensures ds != []
    decreases u
  {
    if u < b then [u] else Shrinks(u, b); ToDigits(u / b, b) + [u % b]
  }

  lemma Shrinks(u: nat, b: nat)
    requires 2 <= b <= u
    ensures u / b < u
  {
    var q := u / b;
    assert u == q * b + u % b;
    Monotone(2, b, q);
  }

  function Value(ds: seq<nat>, b: nat): nat {
    if ds == [] then 0 else b * Value(ds[..|ds| - 1], b) + ds[|ds| - 1]
  }

  lemma {:induction false} ToDigitsOk(u: nat, b: nat)
    requires 2 <= b
    ensures Digits(ToDigits(u, b), b)
    decreases u
  {
    if u >= b {
      Shrinks(u, b);
      ToDigitsOk(u / b, b);
    }
  }

  /** Reading back what was written. */
  lemma {:induction false} RoundTrip(u: nat, b: nat)
    requires 2 <= b
    ensures Value(ToDigits(u, b), b) == u
    decreases u
  {
    if u < b {
      assert [u][..0] == [];
    } else {
      Shrinks(u, b);
      RoundTrip(u / b, b);
      var ds := ToDigits(u / b, b);
      assert (ds + [u % b])[..|ds|] == ds;
    }
  }

  /** The first digit of a number other than 0 is not 0. */
  lemma {:induction false} NoLeadingZero(u: nat, b: nat)
    requires 2 <= b && 0 < u
    ensures ToDigits(u, b)[0] != 0
    decreases u
  {
    if u >= b {
      Shrinks(u, b);
      Positive(u, b);
      NoLeadingZero(u / b, b);
    }
  }

  lemma Positive(u: nat, b: nat)
    requires 0 < b <= u
    ensures u / b > 0
  {
    assert u == (u / b) * b + u % b;
  }

  lemma {:induction false} ValueZeros(n: nat, ds: seq<nat>, b: nat)
    ensures Value(seq(n, _ => 0) + ds, b) == Value(ds, b)
    decreases |ds|, n
  {
    var zs: seq<nat> := seq(n, _ => 0);
    if ds == [] {
      assert zs + ds == zs;
      if n > 0 {
        assert zs[..n - 1] == seq(n - 1, _ => 0);
        ValueZeros(n - 1, [], b);
        var less: seq<nat> := seq(n - 1, _ => 0);
        assert less + [] == less;
      }
    } else {
      var k := |ds| - 1;
      ValueZeros(n, ds[..k], b);
      assert (zs + ds)[..|zs + ds| - 1] == zs + ds[..k];
    }
  }

  function Pow(b: nat, k: nat): nat {
    if k == 0 then 1 else b * Pow(b, k - 1)
  }

  lemma {:induction false} DigitCount(u: nat, b: nat, k: nat)
    requires 2 <= b && 1 <= k && u < Pow(b, k)
    ensures |ToDigits(u, b)| <= k
    decreases k
  {
    if u >= b {
      Shrinks(u, b);
      if k > 1 {
        var q, p := u / b, Pow(b, k - 1);
        assert u == q * b + u % b;
        if p <= q {
          Monotone(p, q, b);
        }
        DigitCount(q, b, k - 1);
      }
    }
  }

  /** 64-bit numbers have at most 22 digits in these bases. */
  lemma AtMost22(u: nat, b: nat)
    requires IsBase(b) && u < 0x1_0000_0000_0000_0000
    ensures |ToDigits(u, b)| <= 22
  {
    Pow22(b);
    DigitCount(u, b, 22);
  }

  lemma Pow22(b: nat)
    requires IsBase(b)
    ensures Pow(b, 22) >= 0x1_0000_0000_0000_0000
  {
    if b == 8 {
      Pow8();
    } else if b == 10 {
      Pow10();
    } else {
      Pow16();
    }
  }

  lemma Pow8()
    ensures Pow(8, 22) == 0x4_0000_0000_0000_0000
  {
    assert Pow(8, 4) == 0x1000;
    assert Pow(8, 8) == 0x100_0000;
    assert Pow(8, 12) == 0x10_0000_0000;
    assert Pow(8, 16) == 0x1_0000_0000_0000;
    assert Pow(8, 20) == 0x1000_0000_0000_0000;
  }

  lemma Pow10()
    ensures Pow(10, 22) == 10000000000000000000000
  {
    assert Pow(10, 4) == 10000;
    assert Pow(10, 8) == 100000000;
    assert Pow(10, 12) == 1000000000000;
    assert Pow(10, 16) == 10000000000000000;
    assert Pow(10, 20) == 100000000000000000000;
  }

  lemma Pow16()
    ensures Pow(16, 22) == 0x100_0000_0000_0000_0000_0000
  {
    assert Pow(16, 4) == 0x1_0000;
    assert Pow(16, 8) == 0x1_0000_0000;
    assert Pow(16, 12) == 0x1_0000_0000_0000;
    assert Pow(16, 16) == 0x1_0000_0000_0000_0000;
    assert Pow(16, 20) == 0x1_0000_0000_0000_0000_0000;
  }

  // ---------------------------------------------------------------- reading from the left

  function Horner(acc: nat, ds: seq<nat>, b: nat): nat
    decreases |ds|
  {
    if ds == [] then acc else Horner(acc * b + ds[0], ds[1..], b)
  }

  lemma {:induction false} HornerAppend(acc: nat, ds: seq<nat>, d: nat, b: nat)
    ensures Horner(acc, ds + [d], b) == Horner(acc, ds, b) * b + d
    decreases |ds|
  {
    if ds == [] {
      assert [d][1..] == [];
    } else {
      HornerAppend(acc * b + ds[0], ds[1..], d, b);
      assert (ds + [d])[1..] == ds[1..] + [d];
    }
  }

  lemma {:induction false} HornerIsValue(ds: seq<nat>, b: nat)
    ensures Horner(0, ds, b) == Value(ds, b)
    decreases |ds|
  {
    if ds != [] {
      var k := |ds| - 1;
      HornerIsValue(ds[..k], b);
      HornerAppend(0, ds[..k], ds[k], b);
      assert ds[..k] + [ds[k]] == ds;
    }
  }
}
