/**
 * Polynomials over GF(2) as bit strings, highest power first, and the shift register that divides by a
 * generator x^w + poly. The CRC routines of the firmware are instances with w = 16 and w = 8.
 */
module Gf2 {

  type Bits = seq<bool>

  function Zeros(n: nat): (z: Bits)
    ensures |z| == n
    ensures forall i :: 0 <= i < n ==> !z[i]
  {
    seq(n, _ => false)
  }

  function Xor(a: Bits, b: Bits): (c: Bits)
    requires |a| == |b|
    ensures |c| == |a|
    ensures forall i :: 0 <= i < |a| ==> c[i] == (a[i] != b[i])
  {
    seq(|a|, i requires 0 <= i < |a| => a[i] != b[i])
  }

  /** Multiplication by x modulo x^w + poly: shift left, and subtract the generator if x^w appeared. */
  function Shift(poly: Bits, s: Bits): (r: Bits)
    requires |s| == |poly| > 0
    ensures |r| == |s|
  {
    var t := s[1..] + [false];
    if s[0] then Xor(t, poly) else t
  }

  function Shifts(poly: Bits, s: Bits, n: nat): (r: Bits)
    requires |s| == |poly| > 0
    ensures |r| == |s|
    decreases n
  {
    if n == 0 then s else Shifts(poly, Shift(poly, s), n - 1)
  }

  /** One message bit enters at the top of the register. */
  function Feed(poly: Bits, s: Bits, m: Bits): (r: Bits)
    requires |s| == |poly| > 0
    ensures |r| == |s|
    decreases |m|
  {
    if m == [] then s else Feed(poly, Shift(poly, s[0 := s[0] != m[0]]), m[1..])
  }

  /** The bits of m, followed by zeros up to n bits. */
  function Pad(m: Bits, n: nat): (r: Bits)
    requires |m| <= n
    ensures |r| == n
  {
    m + Zeros(n - |m|)
  }

  // ----- polynomial division -----

  /** The generator x^w + poly as w + 1 bits. */
  function Generator(poly: Bits): Bits { [true] + poly }

  /** The product of q and the generator by shift-and-add: |q| + w bits. */
  ghost function Times(poly: Bits, q: Bits): (r: Bits)
    ensures |r| == |q| + |poly|
  {
    if q == [] then Zeros(|poly|)
    else
      var rest := [false] + Times(poly, q[1..]);
      if q[0] then Xor(Pad(Generator(poly), |rest|), rest) else rest
  }

  /** One step of long division: the dividend without its highest power. */
  ghost function Reduced(poly: Bits, d: Bits): (r: Bits)
    requires |d| > |poly| > 0
    ensures |r| == |d| - 1
  {
    if d[0] then Xor(d, Pad(Generator(poly), |d|))[1..] else d[1..]
  }

  /** The remainder of a bit string by schoolbook long division. */
  ghost function Remainder(poly: Bits, d: Bits): (r: Bits)
    requires |d| >= |poly| > 0
    ensures |r| == |poly|
    decreases |d|
  {
    if |d| == |poly| then d else Remainder(poly, Reduced(poly, d))
  }

  ghost function Quotient(poly: Bits, d: Bits): (q: Bits)
    requires |d| >= |poly| > 0
    ensures |q| == |d| - |poly|
    decreases |d|
  {
    if |d| == |poly| then [] else [d[0]] + Quotient(poly, Reduced(poly, d))
  }

  /** d == q * G + r, where r has fewer bits than the generator. */
  ghost predicate Divides(poly: Bits, d: Bits, q: Bits, r: Bits)
    requires |d| >= |poly| > 0
  {
    && |q| == |d| - |poly| && |r| == |poly|
    && d == Xor(Times(poly, q), Zeros(|q|) + r)
  }

  /** The multiple of the generator that one quotient bit contributes, at bit i of n. */
  predicate Contribution(poly: Bits, b: bool, n: nat, i: nat)
    requires |poly| < n && i < n
  {
    b && Pad(Generator(poly), n)[i]
  }

  lemma ContributionTop(poly: Bits, b: bool, n: nat)
    requires |poly| < n
    ensures Contribution(poly, b, n, 0) == b
  {
  }

  lemma ReducedBit(poly: Bits, d: Bits, i: nat)
    requires |d| > |poly| > 0 && 0 < i < |d|
    ensures Reduced(poly, d)[i - 1] == (d[i] != Contribution(poly, d[0], |d|, i))
  {
  }

  lemma {:induction false} DividesBit(poly: Bits, d: Bits, q: Bits, r: Bits, i: nat)
    requires |d| >= |poly| > 0 && i < |d| && Divides(poly, d, q, r)
    ensures |q| + |r| == |d| && d[i] == (Times(poly, q)[i] != (i >= |q| && r[i - |q|]))
  {
    hide Times;
    assert (Zeros(|q|) + r)[i] == (i >= |q| && r[i - |q|]);
  }

  lemma BehindZero(t: Bits, i: nat)
    requires i <= |t|
    ensures ([false] + t)[i] == (i > 0 && t[i - 1])
  {
  }

  lemma {:induction false} TimesBit(poly: Bits, q: Bits, i: nat)
    requires q != [] && i < |q| + |poly|
    ensures Times(poly, q)[i]
            == (Contribution(poly, q[0], |q| + |poly|, i) != (i > 0 && Times(poly, q[1..])[i - 1]))
  {
    hide Times, Pad, Generator, Xor;
    UnrollTimes(poly, q);
    BehindZero(Times(poly, q[1..]), i);
  }

  lemma {:induction false} DividesFromBits(poly: Bits, d: Bits, q: Bits, r: Bits)
    requires |d| >= |poly| > 0 && |q| == |d| - |poly| && |r| == |poly|
    requires forall i :: 0 <= i < |d| ==> d[i] == (Times(poly, q)[i] != (i >= |q| && r[i - |q|]))
    ensures Divides(poly, d, q, r)
  {
    hide Times;
    assert d == Xor(Times(poly, q), Zeros(|q|) + r);
  }

  /** Bit i of the dividend satisfies the division equation if bit i - 1 of the reduced one does. */
  lemma {:induction false} StepBit(poly: Bits, d: Bits, q: Bits, i: nat, below: bool)
    requires |d| > |poly| > 0 && |q| == |d| - |poly| && q[0] == d[0] && i < |d|
    requires i > 0 ==> Reduced(poly, d)[i - 1] == (Times(poly, q[1..])[i - 1] != below)
    ensures d[i] == (Times(poly, q)[i] != (i > 0 && below))
  {
    hide *;
    TimesBit(poly, q, i);
    if i == 0 {
      ContributionTop(poly, d[0], |d|);
    } else {
      ReducedBit(poly, d, i);
    }
  }

  lemma DivisionStep(poly: Bits, d: Bits, q: Bits, r: Bits)
    requires |d| > |poly| > 0 && |q| == |d| - |poly| && q[0] == d[0]
    requires Divides(poly, Reduced(poly, d), q[1..], r)
    ensures Divides(poly, d, q, r)
  {
    var d', q1 := Reduced(poly, d), q[1..];
    QuotientLength(poly, d', q1, r);
    hide *;
    forall i | 0 <= i < |d| ensures d[i] == (Times(poly, q)[i] != (i >= |q| && r[i - |q|])) {
      if i > 0 {
        DividesBit(poly, d', q1, r, i - 1);
      }
      StepBit(poly, d, q, i, i >= |q| && r[i - |q|]);
    }
    DividesFromBits(poly, d, q, r);
  }

  lemma {:induction false} UnrollTimes(poly: Bits, q: Bits)
    requires q != []
    ensures Times(poly, q) == var rest := [false] + Times(poly, q[1..]);
                              if q[0] then Xor(Pad(Generator(poly), |rest|), rest) else rest
  {
  }

  lemma {:induction false} DivisionExists(poly: Bits, d: Bits)
    requires |d| >= |poly| > 0
    ensures Divides(poly, d, Quotient(poly, d), Remainder(poly, d))
    decreases |d|
  {
    if |d| == |poly| {
      assert d == Xor(Times(poly, []), Zeros(0) + d);
    } else {
      var d' := Reduced(poly, d);
      DivisionExists(poly, d');
      var q := Quotient(poly, d);
      assert q == [d[0]] + Quotient(poly, d') && q[1..] == Quotient(poly, d');
      DivisionStep(poly, d, q, Remainder(poly, d'));
      hide Divides;
    }
  }

  /** And conversely. */
  lemma {:induction false} UnstepBit(poly: Bits, d: Bits, q: Bits, i: nat, below: bool)
    requires |d| > |poly| > 0 && |q| == |d| - |poly| && q[0] == d[0] && 0 < i < |d|
    requires d[i] == (Times(poly, q)[i] != below)
    ensures Reduced(poly, d)[i - 1] == (Times(poly, q[1..])[i - 1] != below)
  {
    hide *;
    TimesBit(poly, q, i);
    ReducedBit(poly, d, i);
  }

  lemma TopBit(poly: Bits, d: Bits, q: Bits, r: Bits)
    requires |d| > |poly| > 0 && Divides(poly, d, q, r)
    ensures |q| == |d| - |poly| && |r| == |poly| && q[0] == d[0]
  {
    QuotientLength(poly, d, q, r);
    hide *;
    DividesBit(poly, d, q, r, 0);
    TimesBit(poly, q, 0);
    ContributionTop(poly, q[0], |d|);
  }

  lemma DivisionUnstep(poly: Bits, d: Bits, q: Bits, r: Bits)
    requires |d| > |poly| > 0 && Divides(poly, d, q, r)
    ensures |q| > 0 && q[0] == d[0] && Divides(poly, Reduced(poly, d), q[1..], r)
  {
    hide *;
    TopBit(poly, d, q, r);
    var d', q1 := Reduced(poly, d), q[1..];
    forall i | 0 <= i < |d'| ensures d'[i] == (Times(poly, q1)[i] != (i >= |q1| && r[i - |q1|])) {
      DividesBit(poly, d, q, r, i + 1);
      UnstepBit(poly, d, q, i + 1, i + 1 >= |q| && r[i + 1 - |q|]);
    }
    DividesFromBits(poly, d', q1, r);
  }

  lemma QuotientLength(poly: Bits, d: Bits, q: Bits, r: Bits)
    requires |d| >= |poly| > 0 && Divides(poly, d, q, r)
    ensures |q| == |d| - |poly| && |r| == |poly|
  {
  }

  lemma {:induction false} DivisionUnique(poly: Bits, d: Bits, q: Bits, r: Bits)
    requires |d| >= |poly| > 0 && Divides(poly, d, q, r)
    ensures q == Quotient(poly, d) && r == Remainder(poly, d)
    decreases |d|
  {
    if |d| == |poly| {
      assert Zeros(|q|) + r == r;
      assert d == r;
    } else {
      DivisionUnstep(poly, d, q, r);
      DivisionUnique(poly, Reduced(poly, d), q[1..], r);
      assert q == [q[0]] + q[1..];
    }
  }

  /** The dividend of a CRC: the message times x^w, with the initial register added to its first w bits. */
  ghost function Dividend(init: Bits, m: Bits): (d: Bits)
    ensures |d| == |m| + |init|
  {
    Xor(m + Zeros(|init|), init + Zeros(|m|))
  }

  /** The register after a message is the remainder of its dividend by the generator. */
  lemma {:induction false} FeedIsRemainder(poly: Bits, s: Bits, m: Bits)
    requires |s| == |poly| > 0
    ensures Feed(poly, s, m) == Remainder(poly, Dividend(s, m))
    decreases |m|
  {
    if m == [] {
      assert Dividend(s, m) == s;
    } else {
      var s' := Shift(poly, s[0 := s[0] != m[0]]);
      FeedIsRemainder(poly, s', m[1..]);
      ReducedDividend(poly, s, m);
      hide Shift, Dividend, Xor, Pad;
    }
  }

  /** Feeding one bit is one step of the division of the dividend. */
  lemma ReducedDividend(poly: Bits, s: Bits, m: Bits)
    requires |s| == |poly| > 0 && m != []
    ensures Reduced(poly, Dividend(s, m)) == Dividend(Shift(poly, s[0 := s[0] != m[0]]), m[1..])
  {
    var d := Dividend(s, m);
    var s' := Shift(poly, s[0 := s[0] != m[0]]);
    var a, b := m + Zeros(|s|), s + Zeros(|m|);
    var a', b' := m[1..] + Zeros(|s|), s' + Zeros(|m| - 1);
    var g := Pad(Generator(poly), |d|);
    assert a' == a[1..];
    hide Shift, Dividend;
    assert d == Xor(a, b) && Dividend(s', m[1..]) == Xor(a', b') by { UnfoldDividends(s, m, s'); }
    assert d[0] == (s[0] != m[0]);
    ShiftBits(poly, s, m[0]);
    forall i | 0 <= i < |d| - 1 ensures Reduced(poly, d)[i] == Xor(a', b')[i] {
      assert Reduced(poly, d)[i] == (d[i + 1] != (d[0] && g[i + 1]));
    }
  }

  lemma UnfoldDividends(s: Bits, m: Bits, s': Bits)
    requires |s| == |s'| && m != []
    ensures Dividend(s, m) == Xor(m + Zeros(|s|), s + Zeros(|m|))
    ensures Dividend(s', m[1..]) == Xor(m[1..] + Zeros(|s|), s' + Zeros(|m| - 1))
  {
  }

  lemma ShiftBits(poly: Bits, s: Bits, bit: bool)
    requires |s| == |poly| > 0
    ensures var top := s[0] != bit;
            var r := Shift(poly, s[0 := top]);
            forall i :: 0 <= i < |s| ==> r[i] == ((i + 1 < |s| && s[i + 1]) != (top && poly[i]))
  {
  }

  // ----- bursts -----

  lemma ShiftLinear(poly: Bits, a: Bits, b: Bits)
    requires |a| == |b| == |poly| > 0
    ensures Shift(poly, Xor(a, b)) == Xor(Shift(poly, a), Shift(poly, b))
  {
  }

  /** With a constant term in the generator the register never merges two states. */
  lemma ShiftInjective(poly: Bits, a: Bits, b: Bits)
    requires |a| == |b| == |poly| > 0 && poly[|poly| - 1]
    requires Shift(poly, a) == Shift(poly, b)
    ensures a == b
  {
    var n := |poly| - 1;
    var u, v := Shift(poly, a), Shift(poly, b);
    assert u[n] == a[0] && v[n] == b[0];
    forall i | 1 <= i <= n ensures a[i] == b[i] {
      assert u[i - 1] == v[i - 1];
    }
  }

  lemma {:induction false} ShiftsInjective(poly: Bits, a: Bits, b: Bits, n: nat)
    requires |a| == |b| == |poly| > 0 && poly[|poly| - 1]
    requires Shifts(poly, a, n) == Shifts(poly, b, n)
    ensures a == b
    decreases n
  {
    hide Shift;
    if n > 0 {
      ShiftsInjective(poly, Shift(poly, a), Shift(poly, b), n - 1);
      ShiftInjective(poly, a, b);
    }
  }

  /** Up to w bits may be added to the register at once and shifted through afterwards. */
  lemma {:induction false} FeedIsXorThenShifts(poly: Bits, s: Bits, m: Bits)
    requires |s| == |poly| > 0 && |m| <= |poly|
    ensures Feed(poly, s, m) == Shifts(poly, Xor(s, Pad(m, |s|)), |m|)
    decreases |m|
  {
    var w := |s|;
    if m == [] {
      assert Xor(s, Pad(m, w)) == s;
    } else {
      var s0 := s[0 := s[0] != m[0]];
      var low := [false] + m[1..] + Zeros(w - |m|);
      assert Xor(s, Pad(m, w)) == Xor(s0, low);
      ShiftLinear(poly, s0, low);
      assert Shift(poly, low) == Pad(m[1..], w);
      FeedIsXorThenShifts(poly, Shift(poly, s0), m[1..]);
    }
  }

  lemma {:induction false} FeedConcat(poly: Bits, s: Bits, a: Bits, b: Bits)
    requires |s| == |poly| > 0
    ensures Feed(poly, s, a + b) == Feed(poly, Feed(poly, s, a), b)
    decreases |a|
  {
    if a == [] {
      assert a + b == b;
    } else {
      assert (a + b)[1..] == a[1..] + b;
      FeedConcat(poly, Shift(poly, s[0 := s[0] != a[0]]), a[1..], b);
    }
  }

  lemma {:induction false} FeedInjectiveInState(poly: Bits, s: Bits, t: Bits, m: Bits)
    requires |s| == |t| == |poly| > 0 && poly[|poly| - 1]
    requires Feed(poly, s, m) == Feed(poly, t, m)
    ensures s == t
    decreases |m|
  {
    if m != [] {
      var s1, t1 := s[0 := s[0] != m[0]], t[0 := t[0] != m[0]];
      FeedInjectiveInState(poly, Shift(poly, s1), Shift(poly, t1), m[1..]);
      ShiftInjective(poly, s1, t1);
      assert s[0] == t[0];
      assert forall i :: 0 < i < |s| ==> s[i] == s1[i] == t1[i] == t[i];
    }
  }

  /** m and m' have the same length and agree outside the window of n bits that starts at bit k. */
  ghost predicate DifferWithin(m: Bits, m': Bits, k: nat, n: nat) {
    && |m| == |m'| && k + n <= |m|
    && m[..k] == m'[..k] && m[k + n..] == m'[k + n..]
  }

  /** From one register state, two different windows of equal length n <= w give different states. */
  lemma {:induction false} WindowInjective(poly: Bits, s: Bits, b: Bits, b': Bits)
    requires |s| == |poly| > 0 && poly[|poly| - 1]
    requires |b| == |b'| <= |poly|
    requires Feed(poly, s, b) == Feed(poly, s, b')
    ensures b == b'
  {
    FeedIsXorThenShifts(poly, s, b);
    FeedIsXorThenShifts(poly, s, b');
    var x, x' := Xor(s, Pad(b, |s|)), Xor(s, Pad(b', |s|));
    ShiftsInjective(poly, x, x', |b|);
    forall i | 0 <= i < |b| ensures b[i] == b'[i] {
      assert x[i] == x'[i];
    }
  }

  /** Two messages that differ only inside a window, cut at its ends. */
  lemma WindowParts(m: Bits, m': Bits, k: nat, n: nat)
    requires DifferWithin(m, m', k, n)
    ensures m == m[..k] + (m[k..k + n] + m[k + n..])
    ensures m' == m[..k] + (m'[k..k + n] + m[k + n..])
  {
    assert m' == m'[..k] + (m'[k..k + n] + m'[k + n..]);
  }

  /** From one register state, equal registers after window and rest mean equal windows. */
  lemma {:induction false} WindowThenRest(poly: Bits, p: Bits, b: Bits, b': Bits, c: Bits)
    requires |p| == |poly| > 0 && poly[|poly| - 1] && |b| == |b'| <= |poly|
    requires Feed(poly, p, b + c) == Feed(poly, p, b' + c)
    ensures b == b'
  {
    hide Feed;
    FeedConcat(poly, p, b, c);
    FeedConcat(poly, p, b', c);
    FeedInjectiveInState(poly, Feed(poly, p, b), Feed(poly, p, b'), c);
    WindowInjective(poly, p, b, b');
  }

  /** No burst of at most w bits, wherever it lies, leaves the register unchanged. */
  lemma {:induction false} BurstDetected(poly: Bits, s: Bits, m: Bits, m': Bits, k: nat, n: nat)
    requires |s| == |poly| > 0 && poly[|poly| - 1]
    requires DifferWithin(m, m', k, n) && n <= |poly|
    ensures Feed(poly, s, m) == Feed(poly, s, m') <==> m == m'
  {
    hide Feed;
    if Feed(poly, s, m) == Feed(poly, s, m') {
      var a, b, b', c := m[..k], m[k..k + n], m'[k..k + n], m[k + n..];
      WindowParts(m, m', k, n);
      hide *;
      FeedConcat(poly, s, a, b + c);
      FeedConcat(poly, s, a, b' + c);
      WindowThenRest(poly, Feed(poly, s, a), b, b', c);
    }
  }

  /** Appending the register to the message, and only that, brings the register to zero. */
  lemma {:induction false} CodewordIffZero(poly: Bits, s: Bits, m: Bits, c: Bits)
    requires |s| == |c| == |poly| > 0 && poly[|poly| - 1]
    ensures Feed(poly, s, m + c) == Zeros(|poly|) <==> c == Feed(poly, s, m)
  {
    hide Feed, Shifts;
    var r, w := Feed(poly, s, m), |poly|;
    FeedConcat(poly, s, m, c);
    FeedIsXorThenShifts(poly, r, r);
    assert Xor(r, Pad(r, w)) == Zeros(w);
    ShiftsOfZeros(poly, w);
    if Feed(poly, r, c) == Zeros(w) {
      WindowInjective(poly, r, c, r);
    }
  }

  lemma {:induction false} ShiftsOfZeros(poly: Bits, n: nat)
    requires |poly| > 0
    ensures Shifts(poly, Zeros(|poly|), n) == Zeros(|poly|)
    decreases n
  {
    if n > 0 {
      assert Shift(poly, Zeros(|poly|)) == Zeros(|poly|);
      ShiftsOfZeros(poly, n - 1);
    }
  }
}
