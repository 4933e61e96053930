/**
  Unsigned 64-bit division built from 32-bit arithmetic: Knuth's Algorithm D in base 2^16,
  as in 410kern/misc/gccisms.c.  A digit array holds the most significant digit first.  The
  pointers `u`, `v` and `q` of the source, which move over their backing arrays, are offsets
  into those arrays here.  Every 32-bit operation that can wrap is written with `Wrap`.
 */
module LongDivision {
  import opened Arithmetic

  const BASE: nat := 0x1_0000
  const WORD: nat := 0x1_0000_0000
  const QUAD: nat := 0x1_0000_0000_0000_0000

  function Wrap(x: int): (r: nat)
    ensures r < WORD
  {
    x % WORD
  }

  function LowHalf(x: nat): (r: nat)
    ensures r < BASE
  {
    x % BASE
  }

  function HighHalf(x: nat): (r: nat)
    ensures x < WORD ==> r < BASE
  {
    x / BASE
  }

  /** `COMBINE(a, b)`: the two operands of the bitwise or have no bit in common. */
  function Combine(a: nat, b: nat): nat {
    Wrap(a * BASE) + b
  }

  // ---------------------------------------------------------------- numbers and digits

  /** BASE raised to the power `k`. */
  function Pow(k: nat): (p: nat)
    ensures p > 0
  {
    if k == 0 then 1 else BASE * Pow(k - 1)
  }

  predicate Digits(s: seq<nat>) {
    forall i :: 0 <= i < |s| ==> s[i] < BASE
  }

  function Init(s: seq<nat>): seq<nat>
    requires s != []
  {
    s[..|s| - 1]
  }

  function Last(s: seq<nat>): nat
    requires s != []
  {
    s[|s| - 1]
  }

  /** The number a digit sequence denotes. */
  function Value(s: seq<nat>): nat {
    if s == [] then 0 else BASE * Value(Init(s)) + Last(s)
  }

  /** Multiples of the base move freely through a product. */
  lemma {:induction false} Scale(s: int, a: int, t: int, p: int)
    requires s == BASE * a && t == BASE * p
    ensures s * p == BASE * (a * p) == a * t
  {
  }

  lemma {:induction false} ValueConcat(a: seq<nat>, b: seq<nat>, h: nat)
    requires h == Value(a)
    ensures Value(a + b) == h * Pow(|b|) + Value(b)
    decreases |b|
  {
    if b == [] {
      assert a + b == a;
    } else {
      ValueConcat(a, Init(b), h);
      assert Init(a + b) == a + Init(b);
      Scale(BASE * h, h, Pow(|b|), Pow(|b| - 1));
    }
  }

  lemma {:induction false} ValueBound(s: seq<nat>)
    requires Digits(s)
    ensures Value(s) < Pow(|s|)
  {
    if s != [] {
      ValueBound(Init(s));
    }
  }

  lemma {:induction false} ValueOne(d: nat)
    ensures Value([d]) == d
  {
    assert Init([d]) == [];
  }

  lemma {:induction false} ValueCons(d: nat, s: seq<nat>)
    ensures Value([d] + s) == d * Pow(|s|) + Value(s)
  {
    ValueOne(d);
    ValueConcat([d], s, d);
  }

  lemma {:induction false} ValueSplit(s: seq<nat>)
    requires s != []
    ensures Value(s) == s[0] * Pow(|s| - 1) + Value(s[1..])
  {
    ValueCons(s[0], s[1..]);
    assert s == [s[0]] + s[1..];
  }

  lemma {:induction false} ZeroDigit(d: nat, p: nat, rest: nat, v: nat)
    requires v == d * p + rest && v < p
    ensures d == 0 && v == rest
  {
    if d > 0 {
      Monotone(1, d, p);
    }
  }

  /** A number below a power of the base has a zero above that power. */
  lemma {:induction false} LeadingZero(s: seq<nat>)
    requires s != [] && Value(s) < Pow(|s| - 1)
    ensures s[0] == 0 && Value(s) == Value(s[1..])
  {
    ValueSplit(s);
    ZeroDigit(s[0], Pow(|s| - 1), Value(s[1..]), Value(s));
  }

  lemma {:induction false} ValueHead(s: seq<nat>, k: nat, h: nat)
    requires k <= |s| && h == Value(s[..k])
    ensures Value(s) == h * Pow(|s| - k) + Value(s[k..])
  {
    var a, b := s[..k], s[k..];
    assert s == a + b;
    ValueConcat(a, b, h);
  }

  lemma {:induction false} ValueZeros(s: seq<nat>)
    requires forall i :: 0 <= i < |s| ==> s[i] == 0
    ensures Value(s) == 0
  {
    if s != [] {
      ValueZeros(Init(s));
    }
  }

  // ---------------------------------------------------------------- D4: multiply and subtract

  /** The borrow D4 carries into the next digit. */
  function Borrow(t: nat): nat
    requires t < WORD
  {
    (BASE - HighHalf(t)) % BASE
  }

  lemma {:induction false} SmallProduct(a: nat, b: nat)
    requires a < BASE && b < BASE
    ensures a * b <= (BASE - 1) * (BASE - 1)
  {
    Monotone(a, BASE - 1, b);
  }

  lemma {:induction false} BorrowSplit(x: int)
    requires -(BASE - 1) * BASE <= x < BASE
    ensures Borrow(Wrap(x)) < BASE
    ensures LowHalf(Wrap(x)) - BASE * Borrow(Wrap(x)) == x
  {
    if x < 0 {
      assert Wrap(x) == x + WORD;
    }
  }

  /** One digit of D4: the digit written and the borrow passed on. */
  function SubtractDigit(u: nat, v: nat, q: nat, t: nat): (nat, nat) {
    var x := Wrap(u - v * q - t);
    (LowHalf(x), Borrow(x))
  }

  /** The wrapped 32-bit difference splits into a digit and an exact borrow. */
  lemma {:induction false} BorrowExact(u: nat, v: nat, q: nat, t: nat)
    requires u < BASE && v < BASE && q < BASE && t < BASE
    ensures var (lo, b) := SubtractDigit(u, v, q, t);
      lo < BASE && b < BASE && lo + v * q + t == u + BASE * b
  {
    SmallProduct(v, q);
    BorrowSplit(u - v * q - t);
  }

  /** The digits and the borrow that D4 leaves, working from the right in 32-bit arithmetic. */
  function SubtractRow(was: seq<nat>, vd: seq<nat>, q: nat): (r: (seq<nat>, nat))
    requires |was| == |vd|
    ensures |r.0| == |was|
  {
    if was == [] then ([], 0)
    else
      var (row, t) := SubtractRow(was[1..], vd[1..], q);
      var (lo, b) := SubtractDigit(was[0], vd[0], q, t);
      ([lo] + row, b)
  }

  lemma {:induction false} BorrowRow(p: nat, bp: nat, u: nat, v: nat, q: nat, t: nat, lo: nat, b: nat,
                  row: nat, was: nat, w: nat, vw: nat)
    requires bp == BASE * p && vw == v * p + w
    requires lo + v * q + t == u + BASE * b
    requires row + w * q == was + t * p
    ensures lo * p + row + vw * q == u * p + was + b * bp
  {
    var vq, vp, bb := v * q, v * p, BASE * b;
    var vqt, all := vq + t, u + bb;
    Distribute(all, lo, vqt, p);
    Distribute(vqt, vq, t, p);
    Distribute(all, u, bb, p);
    Scale(bb, b, bp, p);
    Distribute(vw, vp, w, q);
    assert vp * q == vq * p;
  }

  /** The wrapping borrows of D4 add up to the exact integer subtraction. */
  lemma {:induction false} SubtractRowExact(was: seq<nat>, vd: seq<nat>, q: nat)
    requires |was| == |vd| && Digits(was) && Digits(vd) && q < BASE
    ensures var (row, t) := SubtractRow(was, vd, q);
      Digits(row) && t < BASE && Value(row) + Value(vd) * q == Value(was) + t * Pow(|was|)
  {
    if was != [] {
      SubtractRowExact(was[1..], vd[1..], q);
      var (row, t) := SubtractRow(was[1..], vd[1..], q);
      var (lo, b) := SubtractDigit(was[0], vd[0], q, t);
      BorrowExact(was[0], vd[0], q, t);
      ValueSplit(was);
      ValueSplit(vd);
      ValueCons(lo, row);
      BorrowRow(Pow(|row|), Pow(|was|), was[0], vd[0], q, t, lo, b,
                Value(row), Value(was[1..]), Value(vd[1..]), Value(vd));
    }
  }

  lemma {:induction false} FinalBorrow(u: nat, t: nat)
    requires u < BASE && t < BASE
    ensures LowHalf(Wrap(u - t)) + t == u + if HighHalf(Wrap(u - t)) != 0 then BASE else 0
  {
    if u < t {
      assert Wrap(u - t) == u - t + WORD;
    }
  }

  lemma {:induction false} BorrowTop(p: nat, bp: nat, u: nat, t: nat, lo: nat, borrowed: bool, row: int, was: int,
                                     vq: int)
    requires bp == BASE * p && lo + t == u + if borrowed then BASE else 0
    requires row + vq == was + t * p
    ensures lo * p + row + vq == u * p + was + if borrowed then bp else 0
  {
    var over := if borrowed then BASE else 0;
    var s := lo + t;
    Distribute(s, lo, t, p);
    Distribute(s, u, over, p);
  }

  /** The window less q times the divisor, borrowing from above if need be. */
  predicate Subtracted(win: seq<nat>, vd: seq<nat>, q: nat, now: seq<nat>, borrowed: bool) {
    && |now| == |win| && Digits(now)
    && Value(now) + Value(vd) * q == Value(win) + if borrowed then Pow(|win|) else 0
  }

  lemma {:induction false} SubtractTop(win: seq<nat>, vd: seq<nat>, q: nat, row: seq<nat>, t: nat)
    requires |win| == |vd| + 1 && Digits(win) && Digits(vd) && q < BASE
    requires (row, t) == SubtractRow(win[1..], vd, q)
    ensures var x := Wrap(win[0] - t); Subtracted(win, vd, q, [LowHalf(x)] + row, HighHalf(x) != 0)
  {
    var x := Wrap(win[0] - t);
    var vq := Value(vd) * q;
    SubtractRowExact(win[1..], vd, q);
    FinalBorrow(win[0], t);
    ValueSplit(win);
    ValueCons(LowHalf(x), row);
    BorrowTop(Pow(|vd|), Pow(|win|), win[0], t, LowHalf(x), HighHalf(x) != 0,
              Value(row), Value(win[1..]), vq);
  }

  /** The loop of D4, from the last digit of the window up to its second. */
  method SubtractDigits(u: array<nat>, at: nat, v: array<nat>, vo: nat, n: nat, qhat: nat) returns (t: nat)
    requires u != v && at + n < u.Length && vo + n < v.Length
    modifies u
    ensures (u[at + 1..at + n + 1], t)
         == SubtractRow(old(u[at + 1..at + n + 1]), v[vo + 1..vo + n + 1], qhat)
    ensures forall k :: 0 <= k < u.Length && !(at < k <= at + n) ==> u[k] == old(u[k])
  {
    ghost var win, vd := u[at + 1..at + n + 1], v[vo + 1..vo + n + 1];
    t := 0;
    var i: nat := n;
    while i > 0
      invariant i <= n
      invariant forall k :: 0 <= k < u.Length && !(at + i < k <= at + n) ==> u[k] == old(u[k])
      invariant (u[at + i + 1..at + n + 1], t) == SubtractRow(win[i..], vd[i..], qhat)
    {
      ghost var row := u[at + i + 1..at + n + 1];
      assert win[i - 1..][1..] == win[i..] && vd[i - 1..][1..] == vd[i..];
      t := Wrap(u[at + i] - v[vo + i] * qhat - t);
      u[at + i] := LowHalf(t);
      t := Borrow(t);
      assert u[at + i..at + n + 1] == [u[at + i]] + row;
      i := i - 1;
    }
    assert win[0..] == win && vd[0..] == vd;
  }

  /** D4: subtract qhat * v[1..n] from u[j..j+n]; the result says whether the top borrowed. */
  method MultiplySubtract(u: array<nat>, at: nat, v: array<nat>, vo: nat, n: nat, qhat: nat)
    returns (borrowed: bool)
    requires u != v && at + n < u.Length && vo + n < v.Length && qhat < BASE
    requires Digits(u[at..at + n + 1]) && Digits(v[vo + 1..vo + n + 1])
    modifies u
    ensures Subtracted(old(u[at..at + n + 1]), v[vo + 1..vo + n + 1], qhat, u[at..at + n + 1], borrowed)
    ensures forall k :: 0 <= k < u.Length && !(at <= k <= at + n) ==> u[k] == old(u[k])
  {
    ghost var win, vd := u[at..at + n + 1], v[vo + 1..vo + n + 1];
    assert u[at + 1..at + n + 1] == win[1..];
    var t: nat := SubtractDigits(u, at, v, vo, n, qhat);
    ghost var row := u[at + 1..at + n + 1];
    SubtractTop(win, vd, qhat, row, t);
    t := Wrap(u[at] - t);
    borrowed := HighHalf(t) != 0;
    SetTop(u, at, n, LowHalf(t), row);
  }

  // ---------------------------------------------------------------- D6: add back

  /** One digit of D6: the digit written and the carry passed on. */
  function AddDigit(u: nat, v: nat, t: nat): (nat, nat) {
    var x := Wrap(t + u + v);
    (LowHalf(x), HighHalf(x))
  }

  lemma {:induction false} CarryExact(u: nat, v: nat, t: nat)
    requires u < BASE && v < BASE && t < 2
    ensures var (lo, c) := AddDigit(u, v, t); lo < BASE && c < 2 && lo + BASE * c == t + u + v
  {
  }

  /** The digits and the carry that D6 leaves, working from the right. */
  function AddRow(was: seq<nat>, vd: seq<nat>): (r: (seq<nat>, nat))
    requires |was| == |vd|
    ensures |r.0| == |was|
  {
    if was == [] then ([], 0)
    else
      var (row, t) := AddRow(was[1..], vd[1..]);
      var (lo, c) := AddDigit(was[0], vd[0], t);
      ([lo] + row, c)
  }

  lemma {:induction false} CarryRow(p: nat, bp: nat, u: nat, v: nat, t: nat, lo: nat, c: nat, row: nat, was: nat,
                                    w: nat)
    requires bp == BASE * p
    requires lo + BASE * c == t + u + v
    requires row + t * p == was + w
    ensures lo * p + row + c * bp == u * p + was + v * p + w
  {
    var s, cb, uv := t + u + v, BASE * c, u + v;
    Distribute(s, lo, cb, p);
    Distribute(s, t, uv, p);
    Distribute(uv, u, v, p);
    Scale(cb, c, bp, p);
  }

  lemma {:induction false} AddRowExact(was: seq<nat>, vd: seq<nat>)
    requires |was| == |vd| && Digits(was) && Digits(vd)
    ensures var (row, t) := AddRow(was, vd);
      Digits(row) && t < 2 && Value(row) + t * Pow(|was|) == Value(was) + Value(vd)
  {
    if was != [] {
      AddRowExact(was[1..], vd[1..]);
      var (row, t) := AddRow(was[1..], vd[1..]);
      var (lo, c) := AddDigit(was[0], vd[0], t);
      CarryExact(was[0], vd[0], t);
      ValueSplit(was);
      ValueSplit(vd);
      ValueCons(lo, row);
      CarryRow(Pow(|row|), Pow(|was|), was[0], vd[0], t, lo, c, Value(row), Value(was[1..]), Value(vd[1..]));
    }
  }

  lemma {:induction false} CarryTop(p: nat, bp: nat, u: nat, t: nat, lo: nat, c: nat, row: nat, was: nat, w: nat)
    requires bp == BASE * p && lo + BASE * c == u + t && c < 2 && row + t * p == was + w
    requires lo * p + row < bp
    ensures lo * p + row == u * p + was + w - (if u * p + was + w >= bp then bp else 0)
  {
    CarryRow(p, bp, u, 0, t, lo, c, row, was, w);
    if c == 1 {
      assert c * bp == bp;
    } else {
      assert c * bp == 0;
    }
  }

  lemma {:induction false} AddTopValue(win: seq<nat>, w: nat, row: seq<nat>, t: nat, lo: nat, c: nat)
    requires |win| == |row| + 1 && Digits(row) && lo < BASE && c < 2 && lo + BASE * c == win[0] + t
    requires Value(row) + t * Pow(|row|) == Value(win[1..]) + w
    ensures Value([lo] + row) == Value(win) + w - (if Value(win) + w >= Pow(|win|) then Pow(|win|) else 0)
  {
    ValueSplit(win);
    ValueCons(lo, row);
    ValueBound([lo] + row);
    CarryTop(Pow(|row|), Pow(|win|), win[0], t, lo, c, Value(row), Value(win[1..]), w);
  }

  /** The window plus the divisor, without the carry out of the top. */
  predicate AddedBack(win: seq<nat>, vd: seq<nat>, now: seq<nat>) {
    && |now| == |win| && Digits(now)
    && var sum := Value(win) + Value(vd); Value(now) == sum - if sum >= Pow(|win|) then Pow(|win|) else 0
  }

  lemma {:induction false} AddTop(win: seq<nat>, vd: seq<nat>, row: seq<nat>, t: nat)
    requires |win| == |vd| + 1 && Digits(win) && Digits(vd)
    requires (row, t) == AddRow(win[1..], vd)
    ensures AddedBack(win, vd, [LowHalf(Wrap(win[0] + t))] + row)
  {
    AddRowExact(win[1..], vd);
    CarryExact(win[0], 0, t);
    var (lo, c) := AddDigit(win[0], 0, t);
    AddTopValue(win, Value(vd), row, t, lo, c);
  }

  /** The loop of D6. */
  method AddDigits(u: array<nat>, at: nat, v: array<nat>, vo: nat, n: nat) returns (t: nat)
    requires u != v && at + n < u.Length && vo + n < v.Length
    modifies u
    ensures (u[at + 1..at + n + 1], t) == AddRow(old(u[at + 1..at + n + 1]), v[vo + 1..vo + n + 1])
    ensures forall k :: 0 <= k < u.Length && !(at < k <= at + n) ==> u[k] == old(u[k])
  {
    ghost var win, vd := u[at + 1..at + n + 1], v[vo + 1..vo + n + 1];
    t := 0;
    var i: nat := n;
    while i > 0
      invariant i <= n
      invariant forall k :: 0 <= k < u.Length && !(at + i < k <= at + n) ==> u[k] == old(u[k])
      invariant (u[at + i + 1..at + n + 1], t) == AddRow(win[i..], vd[i..])
    {
      ghost var row := u[at + i + 1..at + n + 1];
      assert win[i - 1..][1..] == win[i..] && vd[i - 1..][1..] == vd[i..];
      t := Wrap(t + u[at + i] + v[vo + i]);
      u[at + i] := LowHalf(t);
      t := HighHalf(t);
      assert u[at + i..at + n + 1] == [u[at + i]] + row;
      i := i - 1;
    }
    assert win[0..] == win && vd[0..] == vd;
  }

  /** D6: add v[1..n] back to u[j..j+n], dropping the carry out of the top. */
  method AddBack(u: array<nat>, at: nat, v: array<nat>, vo: nat, n: nat)
    requires u != v && at + n < u.Length && vo + n < v.Length
    requires Digits(u[at..at + n + 1]) && Digits(v[vo + 1..vo + n + 1])
    modifies u
    ensures AddedBack(old(u[at..at + n + 1]), v[vo + 1..vo + n + 1], u[at..at + n + 1])
    ensures forall k :: 0 <= k < u.Length && !(at <= k <= at + n) ==> u[k] == old(u[k])
  {
    ghost var win, vd := u[at..at + n + 1], v[vo + 1..vo + n + 1];
    assert u[at + 1..at + n + 1] == win[1..] && u[at] == win[0];
    var t: nat := AddDigits(u, at, v, vo, n);
    ghost var row := u[at + 1..at + n + 1];
    AddTop(win, vd, row, t);
    SetTop(u, at, n, LowHalf(Wrap(u[at] + t)), row);
  }

  method SetTop(u: array<nat>, at: nat, n: nat, digit: nat, ghost row: seq<nat>)
    requires at + n < u.Length && u[at + 1..at + n + 1] == row
    modifies u
    ensures u[at..at + n + 1] == [digit] + row
    ensures forall k :: 0 <= k < u.Length && k != at ==> u[k] == old(u[k])
  {
    u[at] := digit;
  }

  // ---------------------------------------------------------------- D3: the trial digit

  /** The digit of the three-by-two division u / v, capped at the largest digit. */
  predicate IsTrialDigit(u: nat, v: nat, q: nat) {
    && q < BASE
    && q * v <= u
    && (q == BASE - 1 || u < q * v + v)
  }

  /** The test of D3 decides whether `q` is too large for the leading three digits by two. */
  lemma {:induction false} TrialTest(u: nat, n: nat, u2: nat, v1: nat, v2: nat, v: nat, q: nat, r: nat)
    requires n == q * v1 + r && v == v1 * BASE + v2 && u == n * BASE + u2
    ensures q * v <= u <==> v2 * q <= r * BASE + u2
  {
    var vb := BASE * v1;
    Distribute(v, vb, v2, q);
    Scale(vb, v1, BASE * q, q);
    assert v * q == q * v;
  }

  lemma {:induction false} TrialStart(u: nat, n: nat, u2: nat, v1: nat, v2: nat, v: nat, q: nat, r: nat)
    requires u2 < BASE && n == q * v1 + r && r < v1 && v == v1 * BASE + v2 && u == n * BASE + u2
    ensures u < q * v + v
  {
    var vb := BASE * v1;
    Distribute(v, vb, v2, q);
    Scale(vb, v1, BASE * q, q);
    assert v * q == q * v;
  }

  /** One correction step of D3. */
  lemma {:induction false} TrialAgain(u: nat, n: nat, u2: nat, v1: nat, v2: nat, v: nat, q: nat, r: nat)
    requires n == q * v1 + r && v == v1 * BASE + v2 && u == n * BASE + u2
    requires v2 < BASE && q < BASE && u2 < BASE && r < BASE && Wrap(v2 * q) > Combine(r, u2)
    ensures q > 0 && n == (q - 1) * v1 + (r + v1) && u < (q - 1) * v + v
  {
    TrialTest(u, n, u2, v1, v2, v, q, r);
    SmallProduct(v2, q);
    assert q != 0;
    var less := q - 1;
    Distribute(q, less, 1, v1);
    Distribute(q, less, 1, v);
  }

  /** Where the loop of D3 stops, the trial digit is not too large. */
  lemma {:induction false} TrialDone(u: nat, n: nat, u2: nat, v1: nat, v2: nat, v: nat, q: nat, r: nat)
    requires n == q * v1 + r && v == v1 * BASE + v2 && u == n * BASE + u2
    requires v2 < BASE && q < BASE && u2 < BASE && (r >= BASE || Wrap(v2 * q) <= Combine(r, u2))
    ensures q * v <= u
  {
    TrialTest(u, n, u2, v1, v2, v, q, r);
    SmallProduct(v2, q);
  }

  lemma {:induction false} Quotients(x: nat, d: nat)
    requires d > 0
    ensures x / d >= 0 && 0 <= x % d < d && x == (x / d) * d + x % d
  {
  }

  lemma {:induction false} TrialBelow(u0: nat, u1: nat, v1: nat, q: nat, r: nat)
    requires u0 < v1 && u1 < BASE && u0 * BASE + u1 == q * v1 + r
    ensures q < BASE
  {
    if q >= BASE {
      Monotone(BASE, q, v1);
    }
  }

  /** The first guess of D3, with the pass through the loop body that the jump makes. */
  method FirstGuess(u0: nat, u1: nat, v1: nat) returns (qhat: nat, rhat: nat)
    requires u0 <= v1 < BASE && u1 < BASE && v1 > 0
    ensures qhat < BASE && u0 * BASE + u1 == qhat * v1 + rhat
    ensures qhat == BASE - 1 || rhat < v1
  {
    if u0 == v1 {
      qhat, rhat := BASE, u1;
      qhat, rhat := qhat - 1, rhat + v1;
    } else {
      var nn := Combine(u0, u1);
      Quotients(nn, v1);
      qhat, rhat := nn / v1, nn % v1;
      TrialBelow(u0, u1, v1, qhat, rhat);
    }
  }

  /** D3, for the leading digits u = (u0 u1 u2) and v = (v1 v2) in base BASE. */
  method TrialDigit(u0: nat, u1: nat, u2: nat, v1: nat, v2: nat, ghost u: nat, ghost v: nat)
    returns (qhat: nat)
    requires u0 <= v1 < BASE && u1 < BASE && u2 < BASE && v2 < BASE && v1 > 0
    requires u == (u0 * BASE + u1) * BASE + u2 && v == v1 * BASE + v2
    ensures IsTrialDigit(u, v, qhat)
  {
    ghost var n := u0 * BASE + u1;
    var rhat: nat;
    qhat, rhat := FirstGuess(u0, u1, v1);
    if rhat < v1 {
      TrialStart(u, n, u2, v1, v2, v, qhat, rhat);
    }
    while rhat < BASE && Wrap(v2 * qhat) > Combine(rhat, u2)
      invariant qhat < BASE && n == qhat * v1 + rhat
      invariant qhat == BASE - 1 || u < qhat * v + v
      decreases qhat
    {
      TrialAgain(u, n, u2, v1, v2, v, qhat, rhat);
      qhat, rhat := qhat - 1, rhat + v1;
    }
    TrialDone(u, n, u2, v1, v2, v, qhat, rhat);
  }

  lemma {:induction false} NotTooSmall(p: nat, u3: nat, ur: nat, v2: nat, vr: nat, q: nat, u: nat, v: nat, top: nat,
                                       last: nat)
    requires u == u3 * p + ur && ur < p && v == v2 * p + vr
    requires IsTrialDigit(u3, v2, q)
    requires u == BASE * top + last && last < BASE && top < v
    ensures u < q * v + v
  {
    if q < BASE - 1 {
      var qv, q1 := q * v2, q + 1;
      var next, u4 := qv + v2, u3 + 1;
      Monotone(u4, next, p);
      Distribute(u4, u3, 1, p);
      var vp := v2 * p;
      assert next * p == q1 * vp;
      Monotone(vp, v, q1);
      Distribute(q1, q, 1, v);
    }
  }

  lemma {:induction false} AtMostOneTooLarge(p: nat, u3: nat, ur: nat, v2: nat, vr: nat, q: nat, u: nat, v: nat)
    requires u == u3 * p + ur && v == v2 * p + vr && vr < p && v2 >= BASE
    requires IsTrialDigit(u3, v2, q)
    ensures q * v < u + v
  {
    var vp, qv := v2 * p, q * v2;
    Distribute(v, vp, vr, q);
    assert vp * q == qv * p;
    Monotone(qv, u3, p);
    Monotone(q, BASE, vr);
    Monotone(BASE, v2, p);
  }

  /** The trial digit is the true digit of the window, or one more. */
  lemma {:induction false} TrialNear(win: seq<nat>, vd: seq<nat>, q: nat, u3: nat, v2: nat)
    requires |win| == |vd| + 1 && |vd| >= 2 && Digits(win) && Digits(vd) && vd[0] > 0
    requires Value(win[..|vd|]) < Value(vd)
    requires u3 == (win[0] * BASE + win[1]) * BASE + win[2] && v2 == vd[0] * BASE + vd[1]
    requires IsTrialDigit(u3, v2, q)
    ensures Value(win) < q * Value(vd) + Value(vd)
    ensures q * Value(vd) < Value(win) + Value(vd)
  {
    var n := |vd|;
    var p := Pow(n - 2);
    LeadingDigits(win, vd);
    ValueHead(win, 3, u3);
    ValueHead(vd, 2, v2);
    ValueBound(win[3..]);
    ValueBound(vd[2..]);
    assert Init(win) == win[..n];
    NotTooSmall(p, u3, Value(win[3..]), v2, Value(vd[2..]), q, Value(win), Value(vd), Value(win[..n]), win[n]);
    AtMostOneTooLarge(p, u3, Value(win[3..]), v2, Value(vd[2..]), q, Value(win), Value(vd));
  }

  lemma {:induction false} LeadingDigits(win: seq<nat>, vd: seq<nat>)
    requires |win| >= 3 && |vd| >= 2
    ensures Value(win[..3]) == (win[0] * BASE + win[1]) * BASE + win[2]
    ensures Value(vd[..2]) == vd[0] * BASE + vd[1]
  {
    ValueOne(win[0]);
    ValueOne(vd[0]);
    assert win[..1] == [win[0]] && vd[..1] == [vd[0]];
    assert Init(win[..3]) == win[..2] && Init(win[..2]) == win[..1] && Init(vd[..2]) == vd[..1];
    assert Value(win[..2]) == BASE * Value(win[..1]) + win[1];
  }

  // ---------------------------------------------------------------- one quotient digit

  /** What the trial digit leaves, before and after the correction of D5 and D6. */
  lemma {:induction false} CorrectedDigit(u: nat, v: nat, q: nat, p: nat, low: nat, borrowed: bool)
    requires u < q * v + v && q * v < u + v && v < p && u < p
    requires low + v * q == u + (if borrowed then p else 0) && low < p
    ensures borrowed <==> u < q * v
    ensures borrowed ==> q > 0 && low + v >= p && u == (q - 1) * v + (low + v - p) && low + v - p < v
    ensures !borrowed ==> u == q * v + low && low < v
  {
    assert v * q == q * v;
    if borrowed {
      assert q > 0;
      var less := q - 1;
      Distribute(q, less, 1, v);
    }
  }

  /** D3 on the window u[j..j+n]: the true digit, or one more. */
  method ChooseDigit(u: array<nat>, at: nat, v: array<nat>, vo: nat, n: nat) returns (digit: nat)
    requires u != v && n >= 2 && at + n < u.Length && vo + n < v.Length
    requires Digits(u[at..at + n + 1]) && Digits(v[vo + 1..vo + n + 1]) && v[vo + 1] > 0
    requires Value(u[at..at + n]) < Value(v[vo + 1..vo + n + 1])
    ensures digit < BASE
    ensures Value(u[at..at + n + 1]) < digit * Value(v[vo + 1..vo + n + 1]) + Value(v[vo + 1..vo + n + 1])
    ensures digit * Value(v[vo + 1..vo + n + 1]) < Value(u[at..at + n + 1]) + Value(v[vo + 1..vo + n + 1])
  {
    ghost var win, vd := u[at..at + n + 1], v[vo + 1..vo + n + 1];
    assert u[at..at + n] == win[..n];
    LeadingDigitFits(win, vd);
    ghost var u3, v2 := (win[0] * BASE + win[1]) * BASE + win[2], vd[0] * BASE + vd[1];
    digit := TrialDigit(u[at], u[at + 1], u[at + 2], v[vo + 1], v[vo + 2], u3, v2);
    TrialNear(win, vd, digit, u3, v2);
  }

  /** D3 to D6: divide the window u[j..j+n] by v[1..n], leaving the remainder in the window. */
  method DivideWindow(u: array<nat>, at: nat, v: array<nat>, vo: nat, n: nat) returns (digit: nat)
    requires u != v && n >= 2 && at + n < u.Length && vo + n < v.Length
    requires Digits(u[at..at + n + 1]) && Digits(v[vo + 1..vo + n + 1]) && v[vo + 1] > 0
    requires Value(u[at..at + n]) < Value(v[vo + 1..vo + n + 1])
    modifies u
    ensures Digits(u[at..at + n + 1]) && digit < BASE
    ensures old(Value(u[at..at + n + 1]))
         == digit * Value(v[vo + 1..vo + n + 1]) + Value(u[at..at + n + 1])
    ensures Value(u[at..at + n + 1]) < Value(v[vo + 1..vo + n + 1])
    ensures forall k :: 0 <= k < u.Length && !(at <= k <= at + n) ==> u[k] == old(u[k])
  {
    ghost var win, vd := u[at..at + n + 1], v[vo + 1..vo + n + 1];
    digit := ChooseDigit(u, at, v, vo, n);
    var borrowed := MultiplySubtract(u, at, v, vo, n, digit);
    ValueBound(win);
    ValueBound(vd);
    ValueBound(u[at..at + n + 1]);
    CorrectedDigit(Value(win), Value(vd), digit, Pow(n + 1), Value(u[at..at + n + 1]), borrowed);
    if borrowed {
      digit := digit - 1;
      AddBack(u, at, v, vo, n);
    }
  }

  lemma {:induction false} LeadingDigitFits(win: seq<nat>, vd: seq<nat>)
    requires |win| == |vd| + 1 && |vd| > 0 && Digits(win) && Digits(vd)
    requires Value(win[..|vd|]) < Value(vd)
    ensures win[0] <= vd[0]
  {
    var top := win[..|vd|];
    ValueSplit(top);
    ValueSplit(vd);
    ValueBound(vd[1..]);
    LeadCompare(win[0], vd[0], Pow(|vd| - 1), Value(top[1..]), Value(vd[1..]));
  }

  lemma {:induction false} LeadCompare(a: nat, b: nat, p: nat, x: nat, y: nat)
    requires a * p + x < b * p + y && y < p
    ensures a <= b
  {
    if a > b {
      var b1 := b + 1;
      Monotone(b1, a, p);
      Distribute(b1, b, 1, p);
    }
  }

  // ---------------------------------------------------------------- D2 to D7: all digits

  lemma {:induction false} ZeroPrefix(s: seq<nat>, k: nat)
    requires k <= |s| && forall i :: 0 <= i < k ==> s[i] == 0
    ensures Value(s) == Value(s[k..])
  {
    var zeros := s[..k];
    ValueZeros(zeros);
    ValueHead(s, k, 0);
  }

  /** A number that fits in the last `k` digits has only zeros before them. */
  lemma {:induction false} LeadingZeros(s: seq<nat>, k: nat)
    requires k <= |s| && Value(s) < Pow(k)
    ensures forall i :: 0 <= i < |s| - k ==> s[i] == 0
    ensures Value(s) == Value(s[|s| - k..])
    decreases |s|
  {
    if k < |s| {
      PowGrows(k, |s| - 1);
      LeadingZero(s);
      LeadingZeros(s[1..], k);
      assert s[1..][|s| - 1 - k..] == s[|s| - k..];
    }
  }

  lemma {:induction false} PowGrows(a: nat, b: nat)
    requires a <= b
    ensures Pow(a) <= Pow(b)
  {
    if a < b {
      PowGrows(a, b - 1);
    }
  }

  lemma {:induction false} PowAdd(a: nat, b: nat, p: nat)
    requires p == Pow(b)
    ensures Pow(a + b) == Pow(a) * p
  {
    if a != 0 {
      PowAdd(a - 1, b, p);
      Scale(Pow(a), Pow(a - 1), BASE * p, p);
    }
  }

  lemma {:induction false} BoundedProduct(v: nat, p: nat, x: nat, limit: nat)
    requires x < v * p && v < limit
    ensures x < limit * p
  {
    Monotone(v, limit, p);
  }

  lemma {:induction false} BelowProduct(top: nat, p: nat, rest: nat, v: nat)
    requires top * p + rest < v * p
    ensures top < v
  {
    if top >= v {
      Monotone(v, top, p);
    }
  }

  /** Where the digits so far leave less than v[1..n] times BASE^(r+1), the window is ready for D3. */
  lemma {:induction false} WindowReady(w: seq<nat>, at: nat, n: nat, vd: seq<nat>)
    requires at + n < |w| && |vd| == n && Digits(vd)
    requires Value(w) < Value(vd) * Pow(|w| - at - n)
    ensures forall k :: 0 <= k < at ==> w[k] == 0
    ensures Value(w[at..at + n]) < Value(vd)
  {
    var k := |w| - at - n;
    var p := Pow(k);
    ValueBound(vd);
    BoundedProduct(Value(vd), p, Value(w), Pow(n));
    PowAdd(n, k, p);
    LeadingZeros(w, n + k);
    assert |w| - (n + k) == at;
    var live := w[at..];
    assert live[..n] == w[at..at + n];
    ValueHead(live, n, Value(w[at..at + n]));
    BelowProduct(Value(w[at..at + n]), p, Value(live[n..]), Value(vd));
  }

  lemma {:induction false} WindowStep(win: int, win': int, dv: int, v: int, p: int, rest: int)
    requires win == dv + win' && win' < v && 0 <= rest < p
    ensures win * p + rest == dv * p + (win' * p + rest)
    ensures win' * p + rest < v * p
  {
    Distribute(win, dv, win', p);
    var next := win' + 1;
    Distribute(next, win', 1, p);
    Monotone(next, v, p);
  }

  /** What one turn does to the whole number. */
  lemma {:induction false} WindowMoves(w: seq<nat>, w': seq<nat>, at: nat, n: nat, v: nat, dv: int)
    requires |w| == |w'| && at + n < |w| && Digits(w)
    requires w'[..at] == w[..at] && w'[at + n + 1..] == w[at + n + 1..]
    requires forall k :: 0 <= k < at ==> w[k] == 0
    requires Value(w[at..at + n + 1]) == dv + Value(w'[at..at + n + 1])
    requires Value(w'[at..at + n + 1]) < v
    ensures Value(w) == dv * Pow(|w| - at - n - 1) + Value(w')
    ensures Value(w') < v * Pow(|w| - at - n - 1)
  {
    var win, win', rest := w[at..at + n + 1], w'[at..at + n + 1], w[at + n + 1..];
    assert forall k :: 0 <= k < at ==> w'[k] == w'[..at][k];
    LiveValue(w, at, n, Value(win));
    LiveValue(w', at, n, Value(win'));
    ValueBound(rest);
    WindowStep(Value(win), Value(win'), dv, v, Pow(|rest|), Value(rest));
  }

  lemma {:induction false} LiveValue(w: seq<nat>, at: nat, n: nat, win: nat)
    requires at + n < |w| && win == Value(w[at..at + n + 1])
    requires forall k :: 0 <= k < at ==> w[k] == 0
    ensures Value(w) == win * Pow(|w| - at - n - 1) + Value(w[at + n + 1..])
  {
    var live := w[at..];
    ZeroPrefix(w, at);
    assert live[..n + 1] == w[at..at + n + 1] && live[n + 1..] == w[at + n + 1..];
    ValueHead(live, n + 1, win);
  }

  lemma {:induction false} QuotientStep(w0: nat, q: nat, v: nat, p: nat, bp: nat, digit: nat, w: nat, w': nat, q': nat)
    requires bp == BASE * p && q' == BASE * q + digit
    requires w0 == (q * v) * bp + w && w == (digit * v) * p + w'
    ensures w0 == (q' * v) * p + w'
  {
    var qv, dv, qb, qv' := q * v, digit * v, BASE * q, q' * v;
    Distribute(q', qb, digit, v);
    Scale(qb, q, BASE * v, v);
    var bqv := BASE * qv;
    Distribute(qv', bqv, dv, p);
    Scale(bqv, qv, bp, p);
  }

  /** One window division, seen on the whole number that u holds. */
  method DivideAt(u: array<nat>, at: nat, v: array<nat>, vo: nat, n: nat) returns (digit: nat)
    requires u != v && n >= 2 && at + n < u.Length && vo + n < v.Length
    requires Digits(u[..]) && Digits(v[vo + 1..vo + n + 1]) && v[vo + 1] > 0
    requires Value(u[..]) < Value(v[vo + 1..vo + n + 1]) * Pow(u.Length - at - n)
    modifies u
    ensures Digits(u[..]) && digit < BASE
    ensures old(Value(u[..]))
         == (digit * Value(v[vo + 1..vo + n + 1])) * Pow(u.Length - at - n - 1) + Value(u[..])
    ensures Value(u[..]) < Value(v[vo + 1..vo + n + 1]) * Pow(u.Length - at - n - 1)
  {
    ghost var w, vd := u[..], v[vo + 1..vo + n + 1];
    assert u[at..at + n + 1] == w[at..at + n + 1] && u[at..at + n] == w[at..at + n];
    WindowReady(w, at, n, vd);
    digit := DivideWindow(u, at, v, vo, n);
    ghost var w' := u[..];
    assert u[at..at + n + 1] == w'[at..at + n + 1];
    ghost var dv := digit * Value(vd);
    WindowMoves(w, w', at, n, Value(vd), dv);
  }

  /** One turn of the loop on j: the quotient so far gains a digit. */
  method NextDigit(u: array<nat>, at: nat, v: array<nat>, vo: nat, n: nat, ghost w0: nat, ghost qs: seq<nat>)
    returns (digit: nat)
    requires u != v && n >= 2 && at + n < u.Length && vo + n < v.Length
    requires Digits(u[..]) && Digits(v[vo + 1..vo + n + 1]) && v[vo + 1] > 0
    requires Value(u[..]) < Value(v[vo + 1..vo + n + 1]) * Pow(u.Length - at - n)
    requires w0 == (Value(qs) * Value(v[vo + 1..vo + n + 1])) * Pow(u.Length - at - n) + Value(u[..])
    modifies u
    ensures Digits(u[..]) && digit < BASE
    ensures Value(u[..]) < Value(v[vo + 1..vo + n + 1]) * Pow(u.Length - at - n - 1)
    ensures w0 == (Value(qs + [digit]) * Value(v[vo + 1..vo + n + 1])) * Pow(u.Length - at - n - 1) + Value(u[..])
  {
    ghost var w, vd := Value(u[..]), v[vo + 1..vo + n + 1];
    digit := DivideAt(u, at, v, vo, n);
    assert Init(qs + [digit]) == qs;
    QuotientStep(w0, Value(qs), Value(vd), Pow(u.Length - at - n - 1), Pow(u.Length - at - n), digit,
                 w, Value(u[..]), Value(qs + [digit]));
  }

  /** The loop on j: divide the number in u by v[1..n], leaving the quotient in q[0..m]. */
  method DivideDigits(u: array<nat>, uo: nat, v: array<nat>, vo: nat, q: array<nat>, qo: nat, m: nat, n: nat)
    requires u != v && u != q && v != q && n >= 2
    requires u.Length == uo + m + n + 1 && vo + n < v.Length && qo + m < q.Length
    requires Digits(u[..]) && Digits(v[vo + 1..vo + n + 1]) && v[vo + 1] > 0
    requires Value(u[..]) < Value(v[vo + 1..vo + n + 1]) * Pow(m + 1)
    modifies u, q
    ensures Digits(u[..]) && Digits(q[qo..qo + m + 1])
    ensures old(Value(u[..])) == Value(q[qo..qo + m + 1]) * Value(v[vo + 1..vo + n + 1]) + Value(u[..])
    ensures Value(u[..]) < Value(v[vo + 1..vo + n + 1])
    ensures forall k :: 0 <= k < q.Length && !(qo <= k <= qo + m) ==> q[k] == old(q[k])
  {
    ghost var vd := v[vo + 1..vo + n + 1];
    ghost var w0, qs: seq<nat> := u[..], [];
    var j: nat := 0;
    while j <= m
      invariant j <= m + 1
      invariant v[vo + 1..vo + n + 1] == vd && q[qo..qo + j] == qs
      invariant Digits(u[..]) && forall k :: qo <= k < qo + j ==> q[k] < BASE
      invariant Value(u[..]) < Value(vd) * Pow(m + 1 - j)
      invariant Value(w0) == (Value(qs) * Value(vd)) * Pow(m + 1 - j) + Value(u[..])
      invariant forall k :: 0 <= k < q.Length && !(qo <= k <= qo + m) ==> q[k] == old(q[k])
    {
      var digit := NextDigit(u, uo + j, v, vo, n, Value(w0), qs);
      q[qo + j] := digit;
      qs := qs + [digit];
      j := j + 1;
    }
    LastStep(Value(w0), Value(qs), Value(vd), Value(u[..]));
  }

  lemma {:induction false} LastStep(w0: nat, q: nat, v: nat, w: nat)
    requires w0 == (q * v) * Pow(0) + w && w < v * Pow(0)
    ensures w0 == q * v + w && w < v
  {
    var qv := q * v;
    assert qv * Pow(0) == qv;
  }

  // ---------------------------------------------------------------- D1, D8: shifts

  function TwoTo(k: nat): (p: nat)
    ensures p > 0
  {
    if k == 0 then 1 else 2 * TwoTo(k - 1)
  }

  /** `(u_int)x << k` */
  function ShiftUp(x: nat, k: nat): nat {
    Wrap(x * TwoTo(k))
  }

  /** `(u_int)x >> k` */
  function ShiftDown(x: nat, k: nat): (r: nat)
    ensures x == 0 ==> r == 0
  {
    DivideNat(x, TwoTo(k));
    x / TwoTo(k)
  }

  lemma {:induction false} DivideNat(x: nat, d: nat)
    requires d > 0
    ensures x / d >= 0 && (x == 0 ==> x / d == 0)
  {
  }

  lemma {:induction false} TwoToAdd(a: nat, b: nat, p: nat)
    requires p == TwoTo(b)
    ensures TwoTo(a + b) == TwoTo(a) * p
  {
    if a != 0 {
      TwoToAdd(a - 1, b, p);
      var less := TwoTo(a - 1);
      Distribute(TwoTo(a), less, less, p);
    }
  }

  lemma {:induction false} TwoToBase(d: nat, s: nat, t: nat)
    requires d <= 16 && s == TwoTo(d) && t == TwoTo(16 - d)
    ensures s * t == BASE
  {
    TwoToAdd(d, 16 - d, t);
    assert TwoTo(4) == 16;
    TwoToAdd(4, 4, 16);
    TwoToAdd(8, 8, 256);
  }

  lemma {:induction false} WrapLow(x: nat)
    ensures Wrap(x) % BASE == x % BASE
  {
    var w := x / WORD;
    assert x == WORD * w + Wrap(x);
  }

  /** Splitting a digit at a bit position: `s` and `t` are powers of two with product BASE. */
  lemma {:induction false} SplitHigh(x: nat, s: nat, t: nat)
    requires s * t == BASE && s > 0 && t > 0
    ensures x / t == x * s / BASE
  {
    var q, r := x / t, x % t;
    var qt := q * t;
    Quotients(x, t);
    Distribute(x, qt, r, s);
    assert qt * s == q * BASE;
    var r1 := r + 1;
    Monotone(r1, t, s);
    Distribute(r1, r, 1, s);
    DivideBy(x * s, BASE, q, r * s);
  }

  lemma {:induction false} SplitLow(x: nat, s: nat, t: nat)
    requires s * t == BASE && s > 0 && t > 0
    ensures x * t % BASE == (x % s) * t
  {
    var q, r := x / s, x % s;
    var qs := q * s;
    Quotients(x, s);
    Distribute(x, qs, r, t);
    assert qs * t == q * BASE;
    var r1 := r + 1;
    Monotone(r1, s, t);
    Distribute(r1, r, 1, t);
    DivideBy(x * t, BASE, q, r * t);
  }

  /** A part below BASE / s and a multiple of that bound do not overlap. */
  lemma {:induction false} DigitFits(hi: nat, lo: nat, s: nat, t: nat)
    requires s * t == BASE && hi < s && lo < t
    ensures hi * t + lo < BASE
  {
    var hi1 := hi + 1;
    Monotone(hi1, s, t);
    Distribute(hi1, hi, 1, t);
  }

  lemma {:induction false} HighPart(x: nat, s: nat, t: nat)
    requires s * t == BASE && t > 0 && x < BASE
    ensures 0 <= x / t < s
  {
    Quotients(x, t);
    var q := x / t;
    if q >= s {
      Monotone(s, q, t);
    }
  }

  /** Digit `i` after a left shift by the factor `s`: its low part and the carry from its right. */
  function ShiftedDigit(before: seq<nat>, i: nat, s: nat, c: nat): nat
    requires i < |before|
  {
    before[i] * s % BASE + (if i + 1 < |before| then before[i + 1] * s / BASE else c)
  }

  lemma {:induction false} LeftShiftStep(bl: nat, s: nat, c': nat, e: nat, c: nat, bi: nat, b: nat, ri: nat,
                                         row: nat, co: nat, p: nat, bp: nat)
    requires bl * s == BASE * c' + e && row == BASE * ri + e + c && b == BASE * bi + bl
    requires ri + co * p == bi * s + c' && bp == BASE * p
    ensures row + co * bp == b * s + c
  {
    var bb := BASE * bi;
    Distribute(b, bb, bl, s);
    Scale(bb, bi, BASE * s, s);
    Scale(BASE * co, co, bp, p);
  }

  /** Digit-wise shifting multiplies the number, but for what leaves the leading digit. */
  lemma {:induction false} LeftShifted(before: seq<nat>, after: seq<nat>, s: nat, c: nat)
    requires |before| == |after| > 0
    requires forall i :: 0 <= i < |before| ==> after[i] == ShiftedDigit(before, i, s, c)
    ensures Value(after) + (before[0] * s / BASE) * Pow(|before|) == Value(before) * s + c
  {
    var n := |before| - 1;
    var bl := before[n];
    var c', e := bl * s / BASE, bl * s % BASE;
    var co := before[0] * s / BASE;
    assert after[n] == ShiftedDigit(before, n, s, c) == e + c;
    if n == 0 {
      ValueOne(bl);
      ValueOne(after[0]);
      assert before == [bl] && after == [after[0]];
      LeftShiftStep(bl, s, c', e, c, 0, bl, 0, after[0], c', 1, BASE);
      assert Pow(1) == BASE * Pow(0);
    } else {
      var b1, a1 := Init(before), Init(after);
      assert forall i :: 0 <= i < n ==> ShiftedDigit(b1, i, s, c') == ShiftedDigit(before, i, s, c);
      LeftShifted(b1, a1, s, c');
      LeftShiftStep(bl, s, c', e, c, Value(b1), Value(before), Value(a1), Value(after), co, Pow(n), Pow(n + 1));
    }
  }

  /** The digit that `shl` writes, in 32-bit arithmetic, is the shifted digit. */
  lemma {:induction false} ShiftedDigitWritten(was: seq<nat>, i: nat, sh: nat)
    requires Digits(was) && i < |was| && 0 < sh < 16
    ensures var lo := LowHalf(ShiftUp(was[i], sh));
      var hi := if i + 1 < |was| then ShiftDown(was[i + 1], 16 - sh) else 0;
      ShiftedDigit(was, i, TwoTo(sh), 0) == lo + hi && lo + hi < BASE
  {
    var s, t := TwoTo(sh), TwoTo(16 - sh);
    TwoToBase(sh, s, t);
    WrapLow(was[i] * s);
    assert t * s == BASE;
    SplitLow(was[i], t, s);
    if i + 1 < |was| {
      var next := was[i + 1];
      SplitHigh(next, s, t);
      HighPart(next, s, t);
      Quotients(was[i], t);
      DigitFits(was[i] % t, next / t, t, s);
    }
  }

  /** `shl`: shift p[0..len] left; what falls out of the leading digit is lost. */
  method ShiftLeft(p: array<nat>, off: nat, len: nat, sh: nat)
    requires off + len < p.Length && 0 < sh < 16
    requires Digits(p[off..off + len + 1])
    modifies p
    ensures Digits(p[off..off + len + 1])
    ensures Value(p[off..off + len + 1]) + (old(p[off]) * TwoTo(sh) / BASE) * Pow(len + 1)
         == old(Value(p[off..off + len + 1])) * TwoTo(sh)
    ensures forall i :: 0 <= i < p.Length && !(off <= i <= off + len) ==> p[i] == old(p[i])
  {
    ghost var was := p[off..off + len + 1];
    ghost var fin := seq(len + 1, k requires 0 <= k <= len => ShiftedDigit(was, k, TwoTo(sh), 0));
    var i := 0;
    while i < len
      invariant 0 <= i <= len
      invariant forall k :: 0 <= k < p.Length ==>
        p[k] == if off <= k < off + i then fin[k - off] else old(p[k])
    {
      ShiftedDigitWritten(was, i, sh);
      p[off + i] := LowHalf(ShiftUp(p[off + i], sh)) + ShiftDown(p[off + i + 1], 16 - sh);
      i := i + 1;
    }
    ShiftedDigitWritten(was, len, sh);
    p[off + i] := LowHalf(ShiftUp(p[off + i], sh));
    assert p[off..off + len + 1] == fin;
    forall k | 0 <= k < |fin| ensures fin[k] < BASE {
      ShiftedDigitWritten(was, k, sh);
    }
    LeftShifted(was, fin, TwoTo(sh), 0);
  }

  /** Digit `k` after a right shift: its high part below the low part of the digit before it. */
  function RightShiftedDigit(before: seq<nat>, k: nat, s: nat, t: nat): int
    requires k < |before| && s > 0
  {
    (if k == 0 then 0 else (before[k - 1] % s) * t) + before[k] / s
  }

  lemma {:induction false} RightShiftStep(b0: nat, a0: nat, e0: nat, d: nat, q1: nat, e1: nat, s: nat, t: nat,
                                          b: nat, a: nat, x: nat)
    requires s * t == BASE && b0 == a0 * s + e0 && d == q1 * s + e1 && x == e0 * t + q1
    requires b == BASE * b0 + d && a == BASE * a0 + x
    ensures b == a * s + e1
  {
    var et, ba := e0 * t, BASE * a0;
    Distribute(a, ba, x, s);
    Distribute(x, et, q1, s);
    Scale(ba, a0, BASE * s, s);
    assert et * s == e0 * BASE;
  }

  lemma {:induction false} RightShifted(before: seq<nat>, after: seq<nat>, s: nat, t: nat)
    requires |before| == |after| > 0 && s > 0 && s * t == BASE && before[0] == 0
    requires forall k :: 0 <= k < |before| ==> after[k] == RightShiftedDigit(before, k, s, t)
    ensures Value(before) == Value(after) * s + Last(before) % s
  {
    var n := |before| - 1;
    ZeroShift(s);
    if n == 0 {
      ValueZeros(before);
      ValueZeros(after);
    } else {
      var b1, a1 := Init(before), Init(after);
      assert forall k :: 0 <= k < n ==> RightShiftedDigit(before, k, s, t) == RightShiftedDigit(b1, k, s, t);
      RightShifted(b1, a1, s, t);
      Quotients(before[n], s);
      RightShiftStep(Value(b1), Value(a1), before[n - 1] % s, before[n], before[n] / s, before[n] % s, s, t,
                     Value(before), Value(after), after[n]);
    }
  }

  function RightShiftedRow(before: seq<nat>, d: nat): seq<int>
    requires d <= 16
  {
    seq(|before|, k requires 0 <= k < |before| => RightShiftedDigit(before, k, TwoTo(d), TwoTo(16 - d)))
  }

  /** The digit the shift back writes, in 32-bit arithmetic. */
  lemma {:induction false} RightDigitWritten(was: seq<nat>, k: nat, d: nat)
    requires Digits(was) && 0 < d < 16 && k < |was| && was[0] == 0
    ensures RightShiftedDigit(was, k, TwoTo(d), TwoTo(16 - d))
         == ShiftDown(was[k], d) + (if k == 0 then 0 else LowHalf(ShiftUp(was[k - 1], 16 - d)))
    ensures 0 <= RightShiftedDigit(was, k, TwoTo(d), TwoTo(16 - d)) < BASE
  {
    var s, t := TwoTo(d), TwoTo(16 - d);
    TwoToBase(d, s, t);
    assert t * s == BASE;
    HighPart(was[k], t, s);
    if k > 0 {
      var y := was[k - 1];
      WrapLow(y * t);
      SplitLow(y, s, t);
      Quotients(y, s);
      DigitFits(y % s, was[k] / s, s, t);
    } else {
      ZeroShift(s);
    }
  }

  lemma {:induction false} RightDigitZero(was: seq<nat>, k: nat, d: nat)
    requires 0 < d < 16 && k < |was| && was[k] == 0 && (k > 0 ==> was[k - 1] == 0)
    ensures RightShiftedDigit(was, k, TwoTo(d), TwoTo(16 - d)) == 0
  {
    ZeroShift(TwoTo(d));
  }

  /** The remainder, shifted back down by d bits: u[lo+1..] becomes u[lo..] >> d. */
  method ShiftRight(u: array<nat>, lo: nat, d: nat)
    requires lo < u.Length && 0 < d < 16 && Digits(u[..])
    requires forall k :: 0 <= k <= lo ==> u[k] == 0
    modifies u
    ensures Digits(u[..])
    ensures old(Value(u[..])) == Value(u[..]) * TwoTo(d) + old(u[u.Length - 1]) % TwoTo(d)
  {
    ghost var was := u[..];
    ghost var row := RightShiftedRow(was, d);
    forall k | 0 <= k < |row| ensures 0 <= row[k] < BASE {
      RightDigitWritten(was, k, d);
    }
    ghost var fin: seq<nat> := row;
    var i := u.Length - 1;
    while i > lo
      invariant lo <= i < u.Length
      invariant forall k :: 0 <= k < u.Length ==> u[k] == if k <= i then was[k] else fin[k]
    {
      RightDigitWritten(was, i, d);
      u[i] := ShiftDown(u[i], d) + LowHalf(ShiftUp(u[i - 1], 16 - d));
      i := i - 1;
    }
    u[i] := 0;
    forall k | 0 <= k <= lo ensures fin[k] == 0 {
      RightDigitZero(was, k, d);
    }
    assert u[..] == fin && Last(was) == old(u[u.Length - 1]);
    TwoToBase(d, TwoTo(d), TwoTo(16 - d));
    RightShifted(was, fin, TwoTo(d), TwoTo(16 - d));
  }

  lemma {:induction false} ZeroShift(s: nat)
    requires s > 0
    ensures 0 / s == 0 && 0 % s == 0
  {
  }

  // ---------------------------------------------------------------- the whole division

  /** The four digits of a 64-bit number, in a[1..4]. */
  method SplitQuad(x: nat) returns (a: array<nat>)
    requires x < QUAD
    ensures fresh(a) && a.Length == 5 && Digits(a[1..]) && Value(a[1..]) == x
  {
    a := new nat[5];
    var high, low := x / WORD, x % WORD;
    a[1], a[2], a[3], a[4] := HighHalf(high), LowHalf(high), HighHalf(low), LowHalf(low);
    FourDigits(a[1..]);
  }

  lemma {:induction false} FourDigits(s: seq<nat>)
    requires |s| == 4
    ensures Value(s) == ((s[0] * BASE + s[1]) * BASE + s[2]) * BASE + s[3]
  {
    LeadingDigits(s, s);
    assert Init(s) == s[..3];
  }

  /** Put a[1..4] together again. */
  function JoinQuad(a: seq<nat>): nat
    requires |a| == 5
  {
    Combine(a[1], a[2]) * WORD + Combine(a[3], a[4])
  }

  lemma {:induction false} JoinFour(a: nat, b: nat, c: nat, d: nat)
    requires a < BASE && b < BASE && c < BASE && d < BASE
    ensures Combine(a, b) * WORD + Combine(c, d) == BASE * (BASE * (BASE * a + b) + c) + d
  {
    assert Combine(a, b) == a * BASE + b && Combine(c, d) == c * BASE + d;
  }

  lemma {:induction false} JoinQuadIs(a: seq<nat>)
    requires |a| == 5 && Digits(a[1..])
    ensures JoinQuad(a) == Value(a[1..])
  {
    FourDigits(a[1..]);
    assert a[1..][0] == a[1] && a[1..][1] == a[2] && a[1..][2] == a[3] && a[1..][3] == a[4];
    JoinFour(a[1], a[2], a[3], a[4]);
  }

  lemma {:induction false} ShortStep(u: nat, q: nat, r: nat, t: nat, d: nat, x: nat, y: nat, q': nat)
    requires t > 0 && u == q * t + r && r < t && d < BASE && x == BASE * r + d
    requires y == x / t && q' == BASE * q + y
    ensures y < BASE && BASE * u + d == q' * t + x % t
  {
    Quotients(x, t);
    var qb := BASE * q;
    Distribute(q', qb, y, t);
    Scale(qb, q, BASE * t, t);
    if y >= BASE {
      Monotone(BASE, y, t);
    }
  }

  /** One digit of the division by a single digit: rbj / t and rbj % t. */
  method ShortDigit(rem: nat, d: nat, t: nat, ghost u: nat, ghost q: nat)
    returns (y: nat, rem': nat, ghost u': nat, ghost q': nat)
    requires 0 < t < BASE && d < BASE && u == q * t + rem && rem < t
    ensures y < BASE && rem' < t && u' == BASE * u + d && q' == BASE * q + y && u' == q' * t + rem'
  {
    var rbj := Combine(rem, d);
    Quotients(rbj, t);
    y, rem' := rbj / t, rbj % t;
    u', q' := BASE * u + d, BASE * q + y;
    ShortStep(u, q, rem, t, d, rbj, y, q');
  }

  /** The one-digit divisor of exercise 16, unrolled as in the source. */
  method ShortDivide(u: array<nat>, t: nat) returns (q: nat, r: nat)
    requires u.Length == 5 && Digits(u[1..]) && 0 < t < BASE
    ensures Value(u[1..]) == q * t + r && r < t
  {
    FourDigits(u[1..]);
    assert forall k :: 1 <= k < 5 ==> u[k] == u[1..][k - 1];
    var q1, q2, q3, q4, rem: nat;
    ghost var x, y: nat;
    q1, rem, x, y := ShortDigit(0, u[1], t, 0, 0);
    q2, rem, x, y := ShortDigit(rem, u[2], t, x, y);
    q3, rem, x, y := ShortDigit(rem, u[3], t, x, y);
    q4, rem, x, y := ShortDigit(rem, u[4], t, x, y);
    JoinFour(q1, q2, q3, q4);
    q, r := Combine(q1, q2) * WORD + Combine(q3, q4), rem;
  }

  /** Count the divisor's digits; `v` moves so that v[1] is its leading digit. */
  method TrimDivisor(v: array<nat>) returns (n: nat)
    requires v.Length == 5 && Digits(v[1..]) && Value(v[1..]) > 0
    ensures 1 <= n <= 4 && (n >= 2 ==> v[5 - n] != 0)
    ensures Value(v[1..]) == Value(v[5 - n..])
  {
    var vo := 0;
    n := 4;
    while n > 1 && v[vo + 1] == 0
      invariant vo + n == 4 && 1 <= n <= 4
      invariant forall k :: 1 <= k <= vo ==> v[k] == 0
    {
      n := n - 1;
      vo := vo + 1;
    }
    assert v[1..][vo..] == v[5 - n..];
    ZeroPrefix(v[1..], vo);
  }

  /** Count the quotient's digits: leading zeros of the dividend lower m. */
  method TrimDividend(u: array<nat>, n: nat) returns (m: nat)
    requires u.Length == 5 && Digits(u[..]) && u[0] == 0 && 2 <= n <= 4
    requires Value(u[..]) >= Pow(n - 1)
    ensures m <= 4 - n
    ensures forall k :: 0 <= k <= 4 - m - n ==> u[k] == 0
    ensures Value(u[..]) < Pow(m + n)
  {
    var uo: nat := 0;
    m := 4 - n;
    while u[uo + 1] == 0
      invariant uo + m + n == 4
      invariant forall k :: 0 <= k <= uo ==> u[k] == 0
      decreases m
    {
      TooManyZeros(u[..], uo + 1, n);
      m := m - 1;
      uo := uo + 1;
    }
    SmallValue(u[..], uo + 1);
  }

  lemma {:induction false} SmallValue(s: seq<nat>, k: nat)
    requires k <= |s| && Digits(s) && forall i :: 0 <= i < k ==> s[i] == 0
    ensures Value(s) < Pow(|s| - k)
  {
    ZeroPrefix(s, k);
    ValueBound(s[k..]);
  }

  lemma {:induction false} TooManyZeros(s: seq<nat>, last: nat, n: nat)
    requires |s| == 5 && Digits(s) && last < 5 && 2 <= n <= 4
    requires forall i :: 0 <= i <= last ==> s[i] == 0
    requires Value(s) >= Pow(n - 1)
    ensures last + n < 5
  {
    SmallValue(s, last + 1);
    if last + n >= 5 {
      PowGrows(4 - last, n - 1);
    }
  }

  /** D1: the shift that brings the leading digit of v to at least BASE / 2. */
  method Normalizer(v1: nat) returns (d: nat)
    requires 0 < v1 < BASE
    ensures d < 16 && BASE / 2 <= v1 * TwoTo(d) < BASE
  {
    d := 0;
    var t := v1;
    while t < BASE / 2
      invariant t == v1 * TwoTo(d) < BASE
      decreases BASE - t
    {
      Doubling(v1, d, t);
      t := Wrap(t * 2);
      d := d + 1;
    }
    ShiftBound(v1, d);
  }

  lemma {:induction false} Doubling(v1: nat, d: nat, t: nat)
    requires t == v1 * TwoTo(d) && v1 > 0
    ensures t > 0 && 2 * t == v1 * TwoTo(d + 1)
  {
    Monotone(1, v1, TwoTo(d));
    var p, p2 := TwoTo(d), TwoTo(d + 1);
    assert p2 == 2 * p;
    assert v1 * p2 == 2 * (v1 * p);
  }

  lemma {:induction false} ShiftBound(v1: nat, d: nat)
    requires v1 > 0 && v1 * TwoTo(d) < BASE
    ensures d < 16
  {
    Monotone(1, v1, TwoTo(d));
    if d >= 16 {
      TwoToBase(16, TwoTo(16), 1);
      TwoToGrows(16, d);
    }
  }

  lemma {:induction false} TwoToGrows(a: nat, b: nat)
    requires a <= b
    ensures TwoTo(a) <= TwoTo(b)
  {
    if a < b {
      TwoToGrows(a, b - 1);
    }
  }

  lemma {:induction false} ScaledBound(u: nat, v: nat, s: nat, p: nat, us: nat, vs: nat)
    requires u < v * p && s > 0 && us == u * s && vs == v * s
    ensures us < vs * p
  {
    var vp, u1 := v * p, u + 1;
    Monotone(u1, vp, s);
    Distribute(u1, u, 1, s);
    assert vp * s == vs * p;
  }

  lemma {:induction false} DigitCountBound(u: nat, v: nat, m: nat, n: nat)
    requires n >= 1 && u < Pow(m + n) && v >= Pow(n - 1)
    ensures u < v * Pow(m + 1)
  {
    var p := Pow(m + 1);
    PowAdd(n - 1, m + 1, p);
    Monotone(Pow(n - 1), v, p);
  }

  lemma {:induction false} LeadingNonzero(s: seq<nat>)
    requires s != [] && s[0] != 0
    ensures Value(s) >= Pow(|s| - 1)
  {
    ValueSplit(s);
    var d := s[0];
    Monotone(1, d, Pow(|s| - 1));
  }

  lemma {:induction false} NoOverflow(v1: nat, s: nat, p: nat)
    requires v1 * s < BASE
    ensures (v1 * s / BASE) * p == 0
  {
    assert v1 * s / BASE == 0;
  }

  method ShiftDividend(u: array<nat>, uo: nat, d: nat)
    requires u.Length == 5 && uo <= 4 && 0 < d < 16 && Digits(u[..])
    requires forall k :: 0 <= k <= uo ==> u[k] == 0
    modifies u
    ensures Digits(u[..]) && Value(u[..]) == old(Value(u[..])) * TwoTo(d)
  {
    assert u[..][uo..] == u[uo..5];
    ZeroPrefix(u[..], uo);
    NoOverflow(0, TwoTo(d), Pow(5 - uo));
    ShiftLeft(u, uo, 4 - uo, d);
    assert u[..][uo..] == u[uo..5];
    ZeroPrefix(u[..], uo);
  }

  method ShiftDivisor(v: array<nat>, n: nat, d: nat)
    requires v.Length == 5 && 1 <= n <= 4 && 0 < d < 16 && Digits(v[5 - n..]) && v[5 - n] * TwoTo(d) < BASE
    modifies v
    ensures Digits(v[5 - n..]) && Value(v[5 - n..]) == old(Value(v[5 - n..])) * TwoTo(d)
  {
    NoOverflow(v[5 - n], TwoTo(d), Pow(n));
    assert v[5 - n..] == v[5 - n..5];
    ShiftLeft(v, 5 - n, n - 1, d);
    assert v[5 - n..] == v[5 - n..5];
  }

  /** D1: multiply u and v by the same power of two; nothing falls out of either. */
  method Normalize(u: array<nat>, uo: nat, v: array<nat>, n: nat, ghost uval: nat, ghost vval: nat) returns (d: nat)
    requires u != v && u.Length == 5 && v.Length == 5 && 2 <= n <= 4 && uo + n <= 4
    requires Digits(u[..]) && Digits(v[5 - n..]) && v[5 - n] != 0
    requires forall k :: 0 <= k <= uo ==> u[k] == 0
    requires uval == Value(u[..]) && vval == Value(v[5 - n..])
    modifies u, v
    ensures d < 16 && Digits(u[..]) && Digits(v[5 - n..])
    ensures BASE / 2 <= old(v[5 - n]) * TwoTo(d) < BASE
    ensures Value(u[..]) == uval * TwoTo(d) && Value(v[5 - n..]) == vval * TwoTo(d)
  {
    d := Normalizer(v[5 - n]);
    if d > 0 {
      ShiftDividend(u, uo, d);
      ShiftDivisor(v, n, d);
    }
  }

  lemma {:induction false} NormalizedLeading(vd: seq<nat>, vval: nat, s: nat)
    requires vd != [] && vval >= Pow(|vd| - 1) && s > 0 && Value(vd) == vval * s && Digits(vd)
    ensures vd[0] > 0
  {
    Monotone(1, s, vval);
    ValueSplit(vd);
    ValueBound(vd[1..]);
  }

  /** Undoing the normalisation gives the remainder of the original division. */
  lemma {:induction false} Unscale(u: nat, v: nat, s: nat, q: nat, us: nat, vs: nat, w: nat, r: nat, e: nat)
    requires s > 0 && us == u * s && vs == v * s && us == q * vs + w && w < vs
    requires w == r * s + e && e < s
    ensures u == q * v + r && r < v
  {
    var qv := q * v;
    assert q * vs == qv * s;
    var k := u - qv;
    Distribute(u, qv, k, s);
    DivideBy(w, s, r, e);
    DivideBy(w, s, k, 0);
    if r >= v {
      Monotone(v, r, s);
    }
  }

  /** After D1 the quotient has at most m + 1 digits and the divisor still starts with a digit that is not 0. */
  method ScaleOperands(u: array<nat>, v: array<nat>, m: nat, n: nat, ghost uval: nat, ghost vval: nat) returns (d: nat)
    requires u != v && u.Length == 5 && v.Length == 5 && 2 <= n <= 4 && m + n <= 4
    requires Digits(u[..]) && Digits(v[5 - n..]) && v[5 - n] != 0
    requires forall k :: 0 <= k <= 4 - m - n ==> u[k] == 0
    requires uval == Value(u[..]) < Pow(m + n) && vval == Value(v[5 - n..])
    modifies u, v
    ensures d < 16 && Digits(u[..]) && Digits(v[5 - n..]) && v[5 - n] > 0
    ensures Value(u[..]) == uval * TwoTo(d) && Value(v[5 - n..]) == vval * TwoTo(d)
    ensures Value(u[..]) < Value(v[5 - n..]) * Pow(m + 1)
  {
    LeadingNonzero(v[5 - n..]);
    d := Normalize(u, 4 - m - n, v, n, uval, vval);
    ghost var s := TwoTo(d);
    DigitCountBound(uval, vval, m, n);
    ScaledBound(uval, vval, s, Pow(m + 1), Value(u[..]), Value(v[5 - n..]));
    NormalizedLeading(v[5 - n..], vval, s);
  }

  /** D1 to D7: the quotient digits, and a remainder still scaled by the normalising factor. */
  method ScaledDivide(u: array<nat>, v: array<nat>, q: array<nat>, m: nat, n: nat, ghost uval: nat, ghost vval: nat)
    returns (d: nat, ghost us: nat, ghost vs: nat)
    requires u != v && u != q && v != q && u.Length == 5 && v.Length == 5 && q.Length == 5
    requires 2 <= n <= 4 && m + n <= 4
    requires Digits(u[..]) && Digits(v[5 - n..]) && v[5 - n] != 0
    requires forall k :: 0 <= k <= 4 - m - n ==> u[k] == 0
    requires uval == Value(u[..]) < Pow(m + n) && vval == Value(v[5 - n..])
    modifies u, v, q
    ensures d < 16 && Digits(u[..]) && Digits(q[4 - m..])
    ensures us == uval * TwoTo(d) && vs == vval * TwoTo(d)
    ensures us == Value(q[4 - m..]) * vs + Value(u[..]) && Value(u[..]) < vs
    ensures forall k :: 0 <= k < 5 - n ==> u[k] == 0
    ensures forall k :: 0 <= k < 4 - m ==> q[k] == old(q[k])
  {
    d := ScaleOperands(u, v, m, n, uval, vval);
    us, vs := Value(u[..]), Value(v[5 - n..]);
    assert v[5 - n..] == v[4 - n + 1..4 - n + n + 1];
    ghost var vd := v[5 - n..];
    DivideDigits(u, 4 - m - n, v, 4 - n, q, 4 - m, m, n);
    assert q[4 - m..4 - m + m + 1] == q[4 - m..];
    ValueBound(vd);
    LeadingZeros(u[..], n);
    assert forall k :: 0 <= k < 5 - n ==> u[k] == u[..][k];
  }

  /** Program D for a divisor of n >= 2 digits: the quotient digits and the shifted-back remainder. */
  method ProgramD(u: array<nat>, v: array<nat>, q: array<nat>, m: nat, n: nat, ghost uval: nat, ghost vval: nat)
    requires u != v && u != q && v != q && u.Length == 5 && v.Length == 5 && q.Length == 5
    requires 2 <= n <= 4 && m + n <= 4
    requires Digits(u[..]) && Digits(v[5 - n..]) && v[5 - n] != 0
    requires forall k :: 0 <= k <= 4 - m - n ==> u[k] == 0
    requires uval == Value(u[..]) < Pow(m + n) && vval == Value(v[5 - n..])
    modifies u, v, q
    ensures Digits(u[..]) && Digits(q[4 - m..])
    ensures uval == Value(q[4 - m..]) * vval + Value(u[..]) && Value(u[..]) < vval
    ensures forall k :: 0 <= k < 4 - m ==> q[k] == old(q[k])
  {
    var d, us, vs := ScaledDivide(u, v, q, m, n, uval, vval);
    ShiftBack(u, n, d, uval, vval, Value(q[4 - m..]), us, vs);
  }

  /** D8: shift the remainder back by the normalising factor. */
  method ShiftBack(u: array<nat>, n: nat, d: nat, ghost uval: nat, ghost vval: nat, ghost qval: nat,
                   ghost us: nat, ghost vs: nat)
    requires u.Length == 5 && 2 <= n <= 4 && d < 16 && Digits(u[..]) && forall k :: 0 <= k < 5 - n ==> u[k] == 0
    requires us == uval * TwoTo(d) && vs == vval * TwoTo(d)
    requires us == qval * vs + Value(u[..]) && Value(u[..]) < vs
    modifies u
    ensures Digits(u[..]) && uval == qval * vval + Value(u[..]) && Value(u[..]) < vval
  {
    ghost var s, w, last := TwoTo(d), Value(u[..]), u[4];
    if d > 0 {
      ShiftRight(u, 4 - n, d);
      Quotients(last, s);
      Unscale(uval, vval, s, qval, us, vs, w, Value(u[..]), last % s);
    }
  }

  lemma {:induction false} QuotientDigits(q: seq<nat>, m: nat)
    requires |q| == 5 && m <= 2 && Digits(q[4 - m..]) && forall k :: 0 <= k < 4 - m ==> q[k] == 0
    ensures JoinQuad(q) == Value(q[4 - m..])
  {
    assert forall k :: 0 <= k < 4 ==> q[1..][k] == q[k + 1];
    assert forall k :: 4 - m <= k < 5 ==> q[k] == q[4 - m..][k - (4 - m)];
    assert q[1..][3 - m..] == q[4 - m..];
    ZeroPrefix(q[1..], 3 - m);
    JoinQuadIs(q);
  }

  lemma {:induction false} RemainderDigits(u: seq<nat>)
    requires |u| == 5 && Digits(u) && Value(u) < QUAD
    ensures JoinQuad(u) == Value(u)
  {
    assert Pow(4) == QUAD by {
      assert Pow(2) == WORD;
    }
    LeadingZero(u);
    JoinQuadIs(u);
  }

  method ZeroFill(q: array<nat>, count: nat)
    requires count <= q.Length
    modifies q
    ensures forall k :: 0 <= k < q.Length ==> q[k] == if k < count then 0 else old(q[k])
  {
    var i := count;
    while i > 0
      invariant 0 <= i <= count
      invariant forall k :: 0 <= k < q.Length ==> q[k] == if i <= k < count then 0 else old(q[k])
    {
      i := i - 1;
      q[i] := 0;
    }
  }

  /** The division of Program D on the split operands, when the divisor has at least two digits. */
  method LongDivide(u: array<nat>, v: array<nat>, n: nat) returns (quotient: nat, remainder: nat)
    requires u != v && u.Length == 5 && v.Length == 5 && 2 <= n <= 4
    requires Digits(u[..]) && u[0] == 0 && Digits(v[5 - n..]) && v[5 - n] != 0
    requires Value(v[5 - n..]) <= Value(u[..]) < QUAD && Value(v[5 - n..]) < QUAD
    modifies u, v
    ensures old(Value(u[..])) == quotient * old(Value(v[5 - n..])) + remainder
    ensures remainder < old(Value(v[5 - n..]))
  {
    ghost var uval, vval := Value(u[..]), Value(v[5 - n..]);
    LeadingNonzero(v[5 - n..]);
    var m := TrimDividend(u, n);
    var q := new nat[5];
    ZeroFill(q, 4 - m);
    ProgramD(u, v, q, m, n, uval, vval);
    QuotientDigits(q[..], m);
    RemainderDigits(u[..]);
    assert q[..][4 - m..] == q[4 - m..];
    quotient, remainder := JoinQuad(q[..]), JoinQuad(u[..]);
  }

  /** The outcome of a division: a zero divisor raises the processor's divide fault. */
  datatype Division = DivideFault | Division(quotient: nat, remainder: nat)

  /** The dividend, with a zero digit in front. */
  method Dividend(uq: nat) returns (u: array<nat>)
    requires uq < QUAD
    ensures fresh(u) && u.Length == 5 && Digits(u[..]) && u[0] == 0 && Value(u[1..]) == uq == Value(u[..])
  {
    u := SplitQuad(uq);
    u[0] := 0;
    assert forall k :: 1 <= k < 5 ==> u[k] == u[1..][k - 1];
    ZeroPrefix(u[..], 1);
    assert u[..][1..] == u[1..];
  }

  /** The divisor, and how many digits it has. */
  method Divisor(vq: nat) returns (v: array<nat>, n: nat)
    requires 0 < vq < QUAD
    ensures fresh(v) && v.Length == 5 && 1 <= n <= 4 && Digits(v[5 - n..]) && v[5 - n] != 0 && Value(v[5 - n..]) == vq
  {
    v := SplitQuad(vq);
    n := TrimDivisor(v);
    assert forall k :: 1 <= k < 5 ==> v[k] == v[1..][k - 1];
  }

  /** `__qdivrem`, with the remainder always wanted. */
  method QDivRem(uq: nat, vq: nat) returns (r: Division)
    requires uq < QUAD && vq < QUAD
    ensures r.DivideFault? <==> vq == 0
    ensures r.Division? ==> uq == r.quotient * vq + r.remainder && r.remainder < vq
  {
    if vq == 0 {
      return DivideFault;
    }
    if uq < vq {
      return Division(0, uq);
    }
    var u := Dividend(uq);
    var v, n := Divisor(vq);
    var q, rem;
    if n == 1 {
      ValueOne(v[4]);
      assert v[4..] == [v[4]];
      q, rem := ShortDivide(u, v[4]);
    } else {
      q, rem := LongDivide(u, v, n);
    }
    r := Division(q, rem);
  }

  /** `__udivdi3` and `__umoddi3`: the two halves of the division, as the integers define them. */
  method UDivMod(a: nat, b: nat) returns (r: Division)
    requires a < QUAD && b < QUAD
    ensures b == 0 ==> r == DivideFault
    ensures b > 0 ==> r == Division(a / b, a % b)
  {
    r := QDivRem(a, b);
    if b > 0 {
      DivideBy(a, b, r.quotient, r.remainder);
    }
  }
}
