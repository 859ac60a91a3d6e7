/** SHA-1 (sections 5.1.1 and 6.1.2 of FIPS 180-4), and the streaming form of src/web/ws.c. */
module Sha1 {
  import opened Bytes

  type reg = bv32

  datatype State = State(a: reg, b: reg, c: reg, d: reg, e: reg)

  const BLOCK := 64
  const H0: State := State(0x67452301, 0xEFCDAB89, 0x98BADCFE, 0x10325476, 0xC3D2E1F0)

  // ---- the standard ----

  function Rol(v: reg, n: bv6): reg
    requires 0 < n < 32
  {
    (v << n) | (v >> (32 - n))
  }

  function Ch(x: reg, y: reg, z: reg): reg { (x & y) ^ (!x & z) }
  function Parity(x: reg, y: reg, z: reg): reg { x ^ y ^ z }
  function Maj(x: reg, y: reg, z: reg): reg { (x & y) ^ (x & z) ^ (y & z) }
  function Sum(x: reg, y: reg): reg { x + y }
  function Xor4(w: reg, x: reg, y: reg, z: reg): reg { w ^ x ^ y ^ z }

  function Word(p: seq<byte>, i: nat): reg
    requires i + 4 <= |p|
  {
    ((p[i] as reg) << 24) | ((p[i + 1] as reg) << 16) | ((p[i + 2] as reg) << 8) | (p[i + 3] as reg)
  }

  /** Word t of the message schedule. */
  function Schedule(p: seq<byte>, t: nat): reg
    requires |p| == BLOCK
  {
    if t < 16 then Word(p, 4 * t)
    else
      Rol(Xor4(Schedule(p, t - 3), Schedule(p, t - 8), Schedule(p, t - 14), Schedule(p, t - 16)), 1)
  }

  function F(t: nat, x: reg, y: reg, z: reg): reg {
    if t < 20 then Ch(x, y, z) else if t < 40 then Parity(x, y, z)
    else if t < 60 then Maj(x, y, z) else Parity(x, y, z)
  }

  function K(t: nat): reg {
    if t < 20 then 0x5A827999 else if t < 40 then 0x6ED9EBA1
    else if t < 60 then 0x8F1BBCDC else 0xCA62C1D6
  }

  function Round(s: State, t: nat, w: reg): State {
    var x := Sum(Sum(Sum(Sum(Rol(s.a, 5), F(t, s.b, s.c, s.d)), s.e), K(t)), w);
    State(x, s.a, Rol(s.b, 30), s.c, s.d)
  }

  /** The working variables after t rounds. */
  function Rounds(h: State, p: seq<byte>, t: nat): State
    requires |p| == BLOCK
  {
    if t == 0 then h else Round(Rounds(h, p, t - 1), t - 1, Schedule(p, t - 1))
  }

  function Compress(h: State, p: seq<byte>): State
    requires |p| == BLOCK
  {
    var s := Rounds(h, p, 80);
    State(Sum(h.a, s.a), Sum(h.b, s.b), Sum(h.c, s.c), Sum(h.d, s.d), Sum(h.e, s.e))
  }

  predicate Whole(n: nat) {
    n % BLOCK == 0
  }

  /** The hash value after the blocks of m. */
  function Chain(m: seq<byte>): State
    requires Whole(|m|)
    decreases |m|
  {
    if m == [] then H0 else Compress(Chain(m[..|m| - BLOCK]), m[|m| - BLOCK..])
  }

  /** The number of zero bytes: as few as bring the length to 56 modulo 64. */
  function ZeroCount(n: nat): nat {
    (119 - n % BLOCK) % BLOCK
  }

  function Zeros(n: nat): (z: seq<byte>)
    ensures |z| == n
  {
    seq(n, _ => 0)
  }

  function Padded(m: seq<byte>): seq<byte> {
    m + [0x80] + Zeros(ZeroCount(|m|)) + PutBe(8, 8 * |m|)
  }

  function RegBytes(x: reg): seq<byte> {
    [((x >> 24) & 0xFF) as byte, ((x >> 16) & 0xFF) as byte, ((x >> 8) & 0xFF) as byte, (x & 0xFF) as byte]
  }

  function Digest(s: State): seq<byte> {
    RegBytes(s.a) + RegBytes(s.b) + RegBytes(s.c) + RegBytes(s.d) + RegBytes(s.e)
  }

  /** k zeros fill up the last block. */
  predicate Fills(n: nat, k: nat) {
    Whole(n + 9 + k)
  }

  /** The padding is the shortest that leaves whole blocks: fewer zeros would not do. */
  lemma PaddedWhole(m: seq<byte>)
    ensures Whole(|Padded(m)|) && |Padded(m)| == |m| + 9 + ZeroCount(|m|)
    ensures forall k :: 0 <= k < ZeroCount(|m|) ==> !Fills(|m|, k)
  {
    PutBeLength(8, 8 * |m|);
    hide PutBe;
    forall k: nat | k <= ZeroCount(|m|)
      ensures Fills(|m|, k) <==> k == ZeroCount(|m|)
    {
      ZerosFill(|m|, k);
    }
    assert Fills(|m|, ZeroCount(|m|));
  }

  lemma ZerosFill(n: nat, k: nat)
    requires k <= ZeroCount(n)
    ensures Fills(n, k) <==> k == ZeroCount(n)
  {
    var q, r := n / BLOCK, n % BLOCK;
    assert n == BLOCK * q + r;
  }

  /** The hash of a message. */
  function Hash(m: seq<byte>): seq<byte> {
    PaddedWhole(m);
    Digest(Chain(Padded(m)))
  }

  // ---- the C code's own bit expressions ----

  lemma ChoiceByOr(x: reg, y: reg, z: reg)
    ensures (x & y) | (!x & z) == Ch(x, y, z)
  {
  }

  lemma MajorityByOr(x: reg, y: reg, z: reg)
    ensures (x & y) | (x & z) | (y & z) == Maj(x, y, z)
  {
  }

  /** The round function as the code chooses it. */
  function Select(i: nat, b: reg, c: reg, d: reg): reg {
    if i < 20 then (b & c) | (!b & d)
    else if i < 40 then b ^ c ^ d
    else if i < 60 then (b & c) | (b & d) | (c & d)
    else b ^ c ^ d
  }

  lemma SelectIsF(i: nat, b: reg, c: reg, d: reg)
    ensures Select(i, b, c, d) == F(i, b, c, d)
  {
    ChoiceByOr(b, c, d);
    MajorityByOr(b, c, d);
  }

  // ---- streaming ----

  lemma FedMore(before: seq<byte>, p: seq<byte>, at: nat, n: nat)
    requires at + n <= |p|
    ensures before + p[..at] + p[at..at + n] == before + p[..at + n]
  {
  }

  lemma ChainNothing()
    ensures Whole(0) && Chain([]) == H0
  {
  }

  class Context {
    const buf: array<byte>
    var h: State
    var total: nat
    var buf_len: nat
    ghost var fed: seq<byte>

    ghost predicate Valid()
      reads this, buf
    {
      Buffered() && total == |fed|
    }

    /** sha1_init */
    constructor ()
      ensures Valid() && fed == [] && fresh(buf)
    {
      hide Compress, Chain, Whole;
      buf := new byte[BLOCK];
      h, total, buf_len, fed := H0, 0, 0, [];
      new;
      ChainNothing();
      assert buf[..0] == [] && fed[..0] == [];
    }

    /** sha1_block */
    method Block(p: seq<byte>)
      requires |p| == BLOCK
      modifies this`h
      ensures h == Compress(old(h), p)
    {
      hide Rol, F, Select, Sum, Schedule, K;
      var w := Expand(p);
      RoundsNone(h, p);
      var a, b, cc, d, e := h.a, h.b, h.c, h.d, h.e;
      for i := 0 to 80
        invariant State(a, b, cc, d, e) == Rounds(h, p, i) && h == old(h)
        invariant forall j :: 0 <= j < 80 ==> w[j] == Schedule(p, j)
      {
        SelectIsF(i, b, cc, d);
        RoundsStep(h, p, i);
        var g := Select(i, b, cc, d);
        var t := Sum(Sum(Sum(Sum(Rol(a, 5), g), e), K(i)), w[i]);
        e, d, cc, b, a := d, cc, Rol(b, 30), a, t;
      }
      h := State(Sum(h.a, a), Sum(h.b, b), Sum(h.c, cc), Sum(h.d, d), Sum(h.e, e));
    }

    /** The message schedule. */
    method Expand(p: seq<byte>) returns (w: array<reg>)
      requires |p| == BLOCK
      ensures fresh(w) && w.Length == 80 && forall j :: 0 <= j < 80 ==> w[j] == Schedule(p, j)
    {
      hide Rol, Xor4, Word, Schedule;
      w := new reg[80];
      for i := 0 to 16
        invariant forall j :: 0 <= j < i ==> w[j] == Schedule(p, j)
      {
        ScheduleStep(p, i);
        w[i] := Word(p, i * 4);
      }
      for i := 16 to 80
        invariant forall j :: 0 <= j < i ==> w[j] == Schedule(p, j)
      {
        ScheduleStep(p, i);
        w[i] := Rol(Xor4(w[i - 3], w[i - 8], w[i - 14], w[i - 16]), 1);
      }
    }

    /** sha1_update: bytes go through the 64-byte buffer; each time it is full a block is hashed. */
    method Update(p: seq<byte>)
      requires Valid()
      modifies this, buf
      ensures Valid() && fed == old(fed) + p
    {
      hide Compress, Chain, Whole;
      var at := 0;
      assert p[..0] == [];
      ghost var before := fed;
      total := total + |p|;
      while at < |p|
        invariant 0 <= at <= |p| && fed == before + p[..at] && total == |before| + |p|
        invariant Buffered()
      {
        var n := BLOCK - buf_len;
        if n > |p| - at {
          n := |p| - at;
        }
        Absorb(p[at..at + n]);
        FedMore(before, p, at, n);
        at := at + n;
      }
      assert p[..at] == p;
    }

    /** What Valid says, except for the byte count, which sha1_update adds first. */
    ghost predicate Buffered()
      reads this, buf
    {
      && buf.Length == BLOCK && buf_len == |fed| % BLOCK
      && buf[..buf_len] == fed[|fed| - buf_len..]
      && Whole(|fed| - buf_len) && h == Chain(fed[..|fed| - buf_len])
    }

    /** One round of sha1_update. */
    method Absorb(piece: seq<byte>)
      requires Buffered() && 0 < |piece| <= BLOCK - buf_len
      modifies this`h, this`buf_len, this`fed, buf
      ensures Buffered() && fed == old(fed) + piece
    {
      hide Compress, Chain, Whole;
      ghost var whole := |fed| - buf_len;
      Store(piece);
      Aligned(whole, buf_len);
      if buf_len == BLOCK {
        assert buf[..] == buf[..BLOCK];
        ChainStep(fed, whole);
        Block(buf[..]);
        buf_len := 0;
        assert fed[..|fed|] == fed && buf[..0] == fed[|fed|..];
      }
    }

    method Store(piece: seq<byte>)
      requires buf.Length == BLOCK && buf_len + |piece| <= BLOCK && buf_len <= |fed|
      requires buf[..buf_len] == fed[|fed| - buf_len..]
      modifies this`buf_len, this`fed, buf
      ensures buf_len == old(buf_len) + |piece| && fed == old(fed) + piece
      ensures buf[..buf_len] == fed[|fed| - buf_len..]
      ensures fed[..|fed| - buf_len] == old(fed[..|fed| - buf_len])
    {
      ghost var at := |fed| - buf_len;
      forall i | 0 <= i < |piece| {
        buf[buf_len + i] := piece[i];
      }
      assert (fed + piece)[at..] == fed[at..] + piece;
      fed := fed + piece;
      buf_len := buf_len + |piece|;
    }

    /** sha1_final */
    method Final() returns (out: seq<byte>)
      requires Valid() && 8 * total < 0x1_0000_0000_0000_0000
      modifies this, buf
      ensures out == Hash(old(fed))
    {
      hide Chain, Digest, PutBe, Padded;
      var bits := 8 * total;
      ghost var m := fed;
      Update([0x80]);
      PadZeros(m);
      Update(PutBe(8, bits));
      PaddedWhole(m);
      Finished(m);
      assert fed[..|fed|] == fed;
      out := Digest(h);
    }

    /** The loop that feeds zeros until eight bytes are left. */
    method PadZeros(ghost m: seq<byte>)
      requires Valid() && fed == m + [0x80]
      modifies this, buf
      ensures Valid() && fed == m + [0x80] + Zeros(ZeroCount(|m|))
    {
      hide Chain;
      ghost var k := 0;
      assert fed == m + [0x80] + Zeros(0);
      ZerosLeft(|m|, 0);
      while buf_len != 56
        invariant Valid() && k <= ZeroCount(|m|) && fed == m + [0x80] + Zeros(k)
        decreases ZeroCount(|m|) - k
      {
        ZerosLeft(|m|, k);
        Update([0]);
        assert Zeros(k) + [0] == Zeros(k + 1);
        k := k + 1;
      }
      ZerosLeft(|m|, k);
    }
  }

  lemma Finished(m: seq<byte>)
    ensures m + [0x80] + Zeros(ZeroCount(|m|)) + PutBe(8, 8 * |m|) == Padded(m)
  {
  }

  /** The padding loop stops exactly after the zeros the standard asks for. */
  lemma ZerosLeft(n: nat, k: nat)
    requires k <= ZeroCount(n)
    ensures (n + 1 + k) % BLOCK == 56 <==> k == ZeroCount(n)
  {
    var q, r := n / BLOCK, n % BLOCK;
    assert n == BLOCK * q + r;
  }

  lemma Aligned(whole: nat, part: nat)
    requires Whole(whole) && part <= BLOCK
    ensures (whole + part) % BLOCK == if part == BLOCK then 0 else part
  {
    var q := whole / BLOCK;
    assert whole == BLOCK * q;
  }

  lemma RoundsNone(h: State, p: seq<byte>)
    requires |p| == BLOCK
    ensures Rounds(h, p, 0) == h
  {
  }

  lemma RoundsStep(h: State, p: seq<byte>, t: nat)
    requires |p| == BLOCK
    ensures Rounds(h, p, t + 1) == Round(Rounds(h, p, t), t, Schedule(p, t))
  {
    hide Round, Schedule;
  }

  lemma ScheduleStep(p: seq<byte>, t: nat)
    requires |p| == BLOCK
    ensures Schedule(p, t)
            == if t < 16 then Word(p, t * 4)
               else Rol(Xor4(Schedule(p, t - 3), Schedule(p, t - 8), Schedule(p, t - 14), Schedule(p, t - 16)), 1)
  {
    hide Rol, Xor4, Word;
  }

  lemma ChainStep(m: seq<byte>, n: nat)
    requires Whole(n) && |m| == n + BLOCK
    ensures Whole(|m|) && Chain(m) == Compress(Chain(m[..n]), m[n..])
  {
    hide Compress;
    Aligned(n, BLOCK);
  }
}
