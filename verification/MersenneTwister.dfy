/**
  The Mersenne Twister of 410kern/RNG/mt19937int.c.  The generator rewrites its 624 words in
  place, in three segments, once every 624 calls; the reference is the recursive sequence.
 */
module MersenneTwister {

  const N: nat := 624
  const M: nat := 397
  const MATRIX_A: bv32 := 0x9908b0df
  const UPPER_MASK: bv32 := 0x80000000
  const LOWER_MASK: bv32 := 0x7fffffff
  const TEMPERING_MASK_B: bv32 := 0x9d2c5680
  const TEMPERING_MASK_C: bv32 := 0xefc60000

  // ---------------------------------------------------------------- the sequence

  /** The word that follows from its three predecessors. */
  function Twist(upper: bv32, lower: bv32, far: bv32): bv32 {
    var y := (upper & UPPER_MASK) | (lower & LOWER_MASK);
    far ^ (y >> 1) ^ (if y & 1 == 0 then 0 else MATRIX_A)
  }

  /** Line 25 of table 1 in section 3.3.4 of The Art of Computer Programming, volume 2. */
  function Congruential(x: bv32): bv32 {
    69069 * x
  }

  /** Term n of the sequence for a seed. */
  function Term(seed: bv32, n: nat): bv32 {
    if n == 0 then seed
    else if n < N then Congruential(Term(seed, n - 1))
    else Twist(Term(seed, n - N), Term(seed, n - N + 1), Term(seed, n - N + M))
  }

  // The proofs about the state speak of the terms through a function t, so that the recursive
  // definition is only unfolded where it is needed.

  ghost predicate IsTerm(t: nat -> bv32, seed: bv32, n: nat) {
    t(n) == Term(seed, n)
  }

  ghost predicate AreTerms(t: nat -> bv32, seed: bv32) {
    forall n: nat {:trigger IsTerm(t, seed, n)} :: IsTerm(t, seed, n)
  }

  /** Words of the state: those before `done` belong to the next block of the sequence. */
  ghost predicate HalfDone(s: seq<bv32>, t: nat -> bv32, base: nat, done: nat) {
    |s| == N && forall k :: 0 <= k < N ==> s[k] == t(if k < done then base + N + k else base + k)
  }

  /** Each word can be computed in place from the state as it is when its turn comes. */
  lemma NextWord(s: seq<bv32>, t: nat -> bv32, seed: bv32, base: nat, k: nat)
    requires k < N && AreTerms(t, seed) && HalfDone(s, t, base, k)
    ensures Twist(s[k], s[(k + 1) % N], s[if k < N - M then k + M else k + M - N]) == t(base + N + k)
  {
    var n := base + N + k;
    var next, far := if k + 1 < N then k + 1 else 0, if k < N - M then k + M else k + M - N;
    assert s[next] == t(n - N + 1) && s[far] == t(n - N + M) && s[k] == t(n - N);
    assert IsTerm(t, seed, n) && IsTerm(t, seed, n - N) && IsTerm(t, seed, n - N + 1) && IsTerm(t, seed, n - N + M);
  }

  lemma OneMore(s: seq<bv32>, t: nat -> bv32, base: nat, k: nat)
    requires k < N && HalfDone(s, t, base, k)
    ensures HalfDone(s[k := t(base + N + k)], t, base, k + 1)
  {
  }

  lemma AllDone(s: seq<bv32>, t: nat -> bv32, base: nat)
    requires HalfDone(s, t, base, N)
    ensures HalfDone(s, t, base + N, 0)
  {
  }

  class Generator {
    const mt: array<bv32>
    var mti: nat
    ghost var seed: bv32
    ghost var t: nat -> bv32  // the sequence for the seed
    ghost var base: nat       // the state holds terms base .. base + N - 1

    ghost predicate Seeded()
      reads this, mt
    {
      mt.Length == N && AreTerms(t, seed) && HalfDone(mt[..], t, base, 0)
    }

    ghost predicate Valid()
      reads this, mt
    {
      mt.Length == N && (mti == N + 1 || (mti <= N && Seeded() && N <= base + mti))
    }

    /** How many numbers have been produced since the seed was set. */
    ghost function Produced(): int
      reads this
    {
      base + mti - N
    }

    constructor ()
      ensures Valid() && mti == N + 1 && fresh(mt)
    {
      mt := new bv32[N];
      mti, seed, base := N + 1, 0, 0;
      t := _ => 0;
    }

    /** The loop of `sgenrand`. */
    method Fill(seed: bv32)
      requires mt.Length == N
      modifies this`mti, mt
      ensures mti == N && forall k :: 0 <= k < N ==> mt[k] == Term(seed, k)
    {
      mt[0] := seed;
      mti := 1;
      while mti < N
        invariant 1 <= mti <= N
        invariant forall k :: 0 <= k < mti ==> mt[k] == Term(seed, k)
      {
        mt[mti] := Congruential(mt[mti - 1]);
        mti := mti + 1;
      }
    }

    /** `sgenrand` */
    method Seed(seed: bv32)
      requires Valid()
      modifies this, mt
      ensures Valid() && mti == N && this.seed == seed && base == 0 && Produced() == 0
    {
      Fill(seed);
      this.seed, base := seed, 0;
      t := (n: nat) => Term(seed, n);
    }

    /** One word of the state, in place. */
    method Refresh(k: nat, next: nat, far: nat)
      requires mt.Length == N && k < N && AreTerms(t, seed) && HalfDone(mt[..], t, base, k)
      requires next == (k + 1) % N && far == if k < N - M then k + M else k + M - N
      modifies mt
      ensures HalfDone(mt[..], t, base, k + 1)
    {
      ghost var s := mt[..];
      NextWord(s, t, seed, base, k);
      OneMore(s, t, base, k);
      mt[k] := Twist(mt[k], mt[next], mt[far]);
      assert mt[..] == s[k := t(base + N + k)];
    }

    /** The three segments. */
    method Regenerate()
      requires Seeded()
      modifies this`mti, this`base, mt
      ensures Seeded() && base == old(base) + N && mti == 0
    {
      var kk := 0;
      while kk < N - M
        invariant kk <= N - M && HalfDone(mt[..], t, base, kk) && base == old(base)
      {
        Refresh(kk, kk + 1, kk + M);
        kk := kk + 1;
      }
      while kk < N - 1
        invariant N - M <= kk <= N - 1 && HalfDone(mt[..], t, base, kk) && base == old(base)
      {
        Refresh(kk, kk + 1, kk + M - N);
        kk := kk + 1;
      }
      Refresh(N - 1, 0, M - 1);
      AllDone(mt[..], t, base);
      base := base + N;
      mti := 0;
    }

    /** `genrand`: call number i after seeding, from 0, gives the tempered term i + 624. */
    method Generate() returns (y: bv32)
      requires Valid()
      modifies this, mt
      ensures Valid() && mti <= N
      ensures old(mti) <= N ==> seed == old(seed) && Produced() == old(Produced()) + 1
      ensures old(mti) == N + 1 ==> seed == 4357 && Produced() == 1
      ensures Produced() >= 1 && y == Temper(Term(seed, N + Produced() - 1))
    {
      if mti >= N {
        if mti == N + 1 {
          Seed(4357);
        }
        Regenerate();
      }
      y := mt[mti];
      assert IsTerm(t, seed, base + mti);
      mti := mti + 1;
      assert N + Produced() - 1 == base + mti - 1;
      y := Temper(y);
    }
  }

  // ---------------------------------------------------------------- tempering

  // The bit operations of the tempering steps have names of their own so that the laws below
  // can be put together by equational reasoning alone.

  function Xor(a: bv32, b: bv32): bv32 {
    a ^ b
  }

  function ShiftU(y: bv32): bv32 {
    y >> 11
  }

  function ShiftS(y: bv32): bv32 {
    (y << 7) & TEMPERING_MASK_B
  }

  function ShiftT(y: bv32): bv32 {
    (y << 15) & TEMPERING_MASK_C
  }

  function ShiftL(y: bv32): bv32 {
    y >> 18
  }

  function Temper(y: bv32): bv32 {
    var a := Xor(y, ShiftU(y));
    var b := Xor(a, ShiftS(a));
    var c := Xor(b, ShiftT(b));
    Xor(c, ShiftL(c))
  }

  /** x plus its images under one, two, three and four applications of a shift. */
  function UndoU(z: bv32): bv32 {
    Xor(Xor(z, ShiftU(z)), ShiftU(ShiftU(z)))
  }

  function UndoS(z: bv32): bv32 {
    var z1 := ShiftS(z);
    var z2 := ShiftS(z1);
    var z3 := ShiftS(z2);
    Xor(Xor(z, z1), Xor(Xor(z2, z3), ShiftS(z3)))
  }

  function Untemper(z: bv32): bv32 {
    var c := Xor(z, ShiftL(z));
    var b := Xor(c, ShiftT(c));
    UndoU(UndoS(b))
  }

  lemma XorLaws(a: bv32, b: bv32, c: bv32)
    ensures Xor(Xor(a, b), b) == a && Xor(a, 0) == a && Xor(a, b) == Xor(b, a)
    ensures Xor(Xor(a, b), c) == Xor(a, Xor(b, c))
  {
  }

  lemma ULaws(a: bv32, b: bv32)
    ensures ShiftU(Xor(a, b)) == Xor(ShiftU(a), ShiftU(b)) && ShiftU(ShiftU(ShiftU(a))) == 0
  {
  }

  lemma SLaws(a: bv32, b: bv32)
    ensures ShiftS(Xor(a, b)) == Xor(ShiftS(a), ShiftS(b))
    ensures ShiftS(ShiftS(ShiftS(ShiftS(ShiftS(a))))) == 0
  {
  }

  lemma TLaws(a: bv32, b: bv32)
    ensures ShiftT(Xor(a, b)) == Xor(ShiftT(a), ShiftT(b)) && ShiftT(ShiftT(a)) == 0
  {
  }

  lemma LLaws(a: bv32, b: bv32)
    ensures ShiftL(Xor(a, b)) == Xor(ShiftL(a), ShiftL(b)) && ShiftL(ShiftL(a)) == 0
  {
  }

  lemma XorThree(y: bv32, a: bv32, b: bv32)
    ensures Xor(Xor(Xor(y, a), Xor(a, b)), b) == y && Xor(Xor(Xor(y, a), b), Xor(a, b)) == y
  {
  }

  lemma XorFive(y: bv32, a: bv32, b: bv32, c: bv32, d: bv32)
    ensures Xor(Xor(Xor(y, a), Xor(a, b)), Xor(Xor(Xor(b, c), Xor(c, d)), d)) == y
    ensures Xor(Xor(Xor(y, a), Xor(Xor(b, c), d)), Xor(Xor(a, b), Xor(Xor(c, d), 0))) == y
  {
    XorThree(b, c, d);
    XorThree(y, a, b);
    XorLaws(b, c, d);
    XorLaws(a, b, Xor(c, d));
    XorLaws(Xor(c, d), c, d);
    XorThree(y, a, Xor(Xor(b, c), d));
  }

  lemma UndoneL(y: bv32)
    ensures var z := Xor(y, ShiftL(y)); Xor(z, ShiftL(z)) == y
  {
    var w := ShiftL(y);
    LLaws(y, w);
    XorLaws(w, w, w);
    XorLaws(y, w, w);
  }

  lemma UndoneT(y: bv32)
    ensures var z := Xor(y, ShiftT(y)); Xor(z, ShiftT(z)) == y
  {
    var w := ShiftT(y);
    TLaws(y, w);
    XorLaws(w, w, w);
    XorLaws(y, w, w);
  }

  lemma UndoneU(y: bv32)
    ensures UndoU(Xor(y, ShiftU(y))) == y
  {
    var a := ShiftU(y);
    var b := ShiftU(a);
    ULaws(y, a);
    ULaws(a, b);
    XorLaws(b, b, b);
    XorThree(y, a, b);
  }

  lemma RedoneU(z: bv32)
    ensures var u := UndoU(z); Xor(u, ShiftU(u)) == z
  {
    var a := ShiftU(z);
    var b := ShiftU(a);
    ULaws(z, a);
    ULaws(Xor(z, a), b);
    XorLaws(Xor(a, b), b, b);
    XorThree(z, a, b);
  }

  lemma UndoneS(y: bv32)
    ensures UndoS(Xor(y, ShiftS(y))) == y
  {
    var a := ShiftS(y);
    var b := ShiftS(a);
    var c := ShiftS(b);
    var d := ShiftS(c);
    SLaws(y, a);
    SLaws(a, b);
    SLaws(b, c);
    SLaws(c, d);
    XorLaws(d, d, d);
    XorFive(y, a, b, c, d);
  }

  lemma RedoneS(z: bv32)
    ensures var u := UndoS(z); Xor(u, ShiftS(u)) == z
  {
    var a := ShiftS(z);
    var b := ShiftS(a);
    var c := ShiftS(b);
    var d := ShiftS(c);
    SLaws(z, a);
    SLaws(b, c);
    SLaws(Xor(b, c), d);
    SLaws(Xor(z, a), Xor(Xor(b, c), d));
    XorFive(z, a, b, c, d);
  }

  /** Tempering is a bijection on 32-bit words: Untemper undoes it on either side. */
  lemma TemperBijective(y: bv32)
    ensures Untemper(Temper(y)) == y && Temper(Untemper(y)) == y
  {
    UntemperTemper(y);
    TemperUntemper(y);
  }

  lemma UntemperTemper(y: bv32)
    ensures Untemper(Temper(y)) == y
  {
    var a := Xor(y, ShiftU(y));
    var b := Xor(a, ShiftS(a));
    var c := Xor(b, ShiftT(b));
    UndoneL(c);
    UndoneT(b);
    UndoneS(a);
    UndoneU(y);
  }

  lemma TemperUntemper(z: bv32)
    ensures Temper(Untemper(z)) == z
  {
    var c := Xor(z, ShiftL(z));
    var b := Xor(c, ShiftT(c));
    RedoneU(UndoS(b));
    RedoneS(b);
    UndoneT(c);
    UndoneL(z);
  }

  /** Words before and after tempering, which fix the shifts and the masks. */
  lemma TemperedWords()
    ensures Temper(0x1) == 0x400091 && Temper(0x80000000) == 0x88102204
    ensures Temper(0xffffffff) == 0x6fe01bf8 && Temper(0x12345678) == 0x2b7e4a2d
  {
  }

  /** The top bit comes from one word, the others from the next, and the matrix is added for an odd word. */
  lemma TwistedWords()
    ensures Twist(0x80000000, 0x1, 0) == 0xd908b0df && Twist(0x7fffffff, 0x80000002, 0x5) == 0x4
    ensures Congruential(0x1) == 69069
  {
  }
}
