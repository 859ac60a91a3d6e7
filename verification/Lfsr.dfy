/** The textbook polynomial division register behind every CRC of the firmware: a reflected
    linear feedback register of |poly| bits, least significant bit first, that takes the
    message one bit at a time. The byte-wise loops of the C code are compared with it. */
module Lfsr {

  type bits = seq<bool>

  /** One message bit enters the register. */
  function Shift(poly: bits, c: bits, bit: bool): (r: bits)
    requires |c| == |poly| > 0
    ensures |r| == |poly|
  {
    var feedback := c[0] != bit;
    seq(|c|, i requires 0 <= i < |c| => (i + 1 < |c| && c[i + 1]) != (feedback && poly[i]))
  }

  function Run(poly: bits, c: bits, message: bits): (r: bits)
    requires |c| == |poly| > 0
    ensures |r| == |poly|
  {
    if message == [] then c
    else Shift(poly, Run(poly, c, message[..|message| - 1]), message[|message| - 1])
  }

  /** Feeding a message in two pieces is feeding it in one. */
  lemma {:induction false} RunAppend(poly: bits, c: bits, a: bits, b: bits)
    requires |c| == |poly| > 0
    ensures Run(poly, c, a + b) == Run(poly, Run(poly, c, a), b)
  {
    if b == [] {
      assert a + b == a;
    } else {
      var m := a + b;
      assert m[..|m| - 1] == a + b[..|b| - 1];
      RunAppend(poly, c, a, b[..|b| - 1]);
    }
  }

  // ---- xor-ing several bits in first and shifting afterwards ----

  function Zeros(n: nat): bits {
    seq(n, i => false)
  }

  function Xor(x: bits, y: bits): (z: bits)
    requires |x| == |y|
    ensures |z| == |x|
  {
    seq(|x|, i requires 0 <= i < |x| => x[i] != y[i])
  }

  /** n shifts that take no message bit. */
  function Shifts(poly: bits, c: bits, n: nat): (r: bits)
    requires |c| == |poly| > 0
    ensures |r| == |poly|
  {
    if n == 0 then c else Shift(poly, Shifts(poly, c, n - 1), false)
  }

  /** Xor-ing y into the low end of the register and shifting n times feeds the first n bits
      of y one by one; the rest of y is still pending in the register. */
  lemma {:induction false} ShiftsFeedBits(poly: bits, c: bits, y: bits, n: nat)
    requires |c| == |poly| == |y| > 0 && n <= |y|
    ensures Shifts(poly, Xor(c, y), n) == Xor(Run(poly, c, y[..n]), y[n..] + Zeros(n))
  {
    if n == 0 {
      assert y[0..] + Zeros(0) == y;
    } else {
      ShiftsFeedBits(poly, c, y, n - 1);
      assert y[..n][..n - 1] == y[..n - 1];
      var r := Run(poly, c, y[..n - 1]);
      var pending := y[n - 1..] + Zeros(n - 1);
      assert pending[0] == y[n - 1];
      assert Shift(poly, Xor(r, pending), false)
          == Xor(Shift(poly, r, y[n - 1]), y[n..] + Zeros(n));
    }
  }

  /** The whole of a short message (a byte) fed by one xor and as many shifts. */
  lemma FeedWhole(poly: bits, c: bits, message: bits)
    requires |c| == |poly| >= |message| > 0
    ensures Shifts(poly, Xor(c, message + Zeros(|poly| - |message|)), |message|)
         == Run(poly, c, message)
  {
    var n := |message|;
    var y := message + Zeros(|poly| - n);
    ShiftsFeedBits(poly, c, y, n);
    assert y[..n] == message;
    assert y[n..] + Zeros(n) == Zeros(|poly|);
    var r := Run(poly, c, message);
    assert Xor(r, Zeros(|poly|)) == r;
  }

  // ---- no burst as wide as the register goes unnoticed ----

  predicate AgreeFrom(r: bits, s: bits, k: nat) {
    |r| == |s| && forall i :: k <= i < |r| ==> r[i] == s[i]
  }

  /** Registers that agree from position k up after one more bit each took the same feedback
      and agreed from position k + 1 up before. */
  lemma BackStep(poly: bits, r: bits, s: bits, a: bool, b: bool, k: nat)
    requires |r| == |s| == |poly| > 0 && poly[|poly| - 1]
    requires k < |poly| && AgreeFrom(Shift(poly, r, a), Shift(poly, s, b), k)
    ensures (r[0] != a) == (s[0] != b)
    ensures AgreeFrom(r, s, k + 1)
  {
    var x, y, top := Shift(poly, r, a), Shift(poly, s, b), |poly| - 1;
    assert x[top] == (r[0] != a) && y[top] == (s[0] != b);
    forall i | k + 1 <= i < |r|
      ensures r[i] == s[i]
    {
      assert x[i - 1] == y[i - 1];
    }
  }

  /** Up to |poly| message bits are determined by the registers before and after them. */
  lemma {:induction false} WindowInjective(poly: bits, c: bits, u: bits, v: bits, k: nat)
    requires |c| == |poly| > 0 && poly[|poly| - 1]
    requires |u| == |v| && |u| + k <= |poly|
    requires AgreeFrom(Run(poly, c, u), Run(poly, c, v), k)
    ensures u == v
    decreases |u|
  {
    if u != [] {
      var n := |u| - 1;
      BackStep(poly, Run(poly, c, u[..n]), Run(poly, c, v[..n]), u[n], v[n], k);
      WindowInjective(poly, c, u[..n], v[..n], k + 1);
      assert u == u[..n] + [u[n]] && v == v[..n] + [v[n]];
    }
  }

  /** Equal message bits never make different registers equal. */
  lemma {:induction false} RunInjective(poly: bits, r: bits, s: bits, message: bits)
    requires |r| == |s| == |poly| > 0 && poly[|poly| - 1]
    requires Run(poly, r, message) == Run(poly, s, message)
    ensures r == s
  {
    if message != [] {
      var n := |message| - 1;
      var x, y := Run(poly, r, message[..n]), Run(poly, s, message[..n]);
      BackStep(poly, x, y, message[n], message[n], 0);
      assert x == y;
      RunInjective(poly, r, s, message[..n]);
    }
  }

  /** Messages of one length that differ, and differ only inside a window no wider than the
      register, leave different remainders. */
  lemma BurstDetected(poly: bits, c: bits, before: bits, u: bits, v: bits, after: bits)
    requires |c| == |poly| > 0 && poly[|poly| - 1]
    requires |u| == |v| <= |poly| && u != v
    ensures Run(poly, c, before + u + after) != Run(poly, c, before + v + after)
  {
    hide Shift, Run;
    var m := Run(poly, c, before);
    RunAppend(poly, c, before, u);
    RunAppend(poly, c, before, v);
    RunAppend(poly, c, before + u, after);
    RunAppend(poly, c, before + v, after);
    if Run(poly, c, before + u + after) == Run(poly, c, before + v + after) {
      RunInjective(poly, Run(poly, m, u), Run(poly, m, v), after);
      WindowInjective(poly, m, u, v, 0);
      assert false;
    }
  }

  // ---- the register fed with its own content runs empty, and only then ----

  lemma {:induction false} RunOwnBits(poly: bits, c: bits, n: nat)
    requires |c| == |poly| > 0 && n <= |c|
    ensures Run(poly, c, c[..n]) == c[n..] + Zeros(n)
  {
    if n > 0 {
      assert c[..n][..n - 1] == c[..n - 1];
      RunOwnBits(poly, c, n - 1);
      var r := c[n - 1..] + Zeros(n - 1);
      assert r[0] == c[n - 1];
      assert Shift(poly, r, c[n - 1]) == c[n..] + Zeros(n);
    }
  }

  /** The register is empty after a message exactly when the last |poly| bits of the message
      are what the register held before them. */
  lemma ResidueZero(poly: bits, c: bits, tail: bits)
    requires |c| == |poly| == |tail| > 0 && poly[|poly| - 1]
    ensures Run(poly, c, tail) == Zeros(|poly|) <==> tail == c
  {
    RunOwnBits(poly, c, |c|);
    assert c[..|c|] == c && c[|c|..] + Zeros(|c|) == Zeros(|c|);
    if Run(poly, c, tail) == Zeros(|poly|) {
      WindowInjective(poly, c, tail, c, 0);
    }
  }

  // ---- a polynomial with an odd number of terms sees every odd number of flips ----

  predicate Odd(b: bits) {
    b != [] && Odd(b[..|b| - 1]) != b[|b| - 1]
  }

  lemma {:induction false} OddXor(x: bits, y: bits, z: bits)
    requires |x| == |y| == |z| && forall i :: 0 <= i < |x| ==> z[i] == (x[i] != y[i])
    ensures Odd(z) == (Odd(x) != Odd(y))
  {
    if x != [] {
      var n := |x| - 1;
      OddXor(x[..n], y[..n], z[..n]);
    }
  }

  lemma {:induction false} OddCons(b: bool, x: bits)
    ensures Odd([b] + x) == (Odd(x) != b)
  {
    if x == [] {
      assert ([b] + x)[..0] == [] && Odd([]) == false;
    } else {
      var n := |x| - 1;
      assert ([b] + x)[..n + 1] == [b] + x[..n];
      OddCons(b, x[..n]);
    }
  }

  lemma {:induction false} NotOdd(n: nat)
    ensures !Odd(Zeros(n))
  {
    if n > 0 {
      assert Zeros(n)[..n - 1] == Zeros(n - 1);
      NotOdd(n - 1);
    }
  }

  lemma OddShift(poly: bits, c: bits, bit: bool)
    requires |c| == |poly| > 0 && Odd(poly)
    ensures Odd(Shift(poly, c, bit)) == (Odd(c) != bit)
  {
    var feedback := c[0] != bit;
    var down, f := c[1..] + [false], if feedback then poly else Zeros(|poly|);
    assert Odd(down) == Odd(c[1..]) by { assert down[..|down| - 1] == c[1..]; }
    OddCons(c[0], c[1..]);
    assert c == [c[0]] + c[1..];
    NotOdd(|poly|);
    OddXor(down, f, Shift(poly, c, bit));
  }

  lemma {:induction false} ParityKept(poly: bits, c: bits, message: bits)
    requires |c| == |poly| > 0 && Odd(poly)
    ensures Odd(Run(poly, c, message)) == (Odd(c) != Odd(message))
  {
    if message != [] {
      var n := |message| - 1;
      ParityKept(poly, c, message[..n]);
      OddShift(poly, Run(poly, c, message[..n]), message[n]);
    }
  }
}
