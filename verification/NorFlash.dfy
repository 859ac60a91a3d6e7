/** What erase and program do to the contents of a NOR flash: erase sets bytes to 0xFF, program
    can only clear bits. Pure facts, shared by every driver and every user of the flash. */
module NorFlash {
  import opened Bytes

  const PAGE := 256
  const SECTOR := 0x1000
  const CHIP := 0x100_0000

  lemma SubSlice(m: seq<byte>, a: nat, b: nat, c: nat, d: nat)
    requires a <= b <= |m| && c <= d <= b - a
    ensures m[a..b][c..d] == m[a + c..a + d]
  {
    var x, y := m[a..b][c..d], m[a + c..a + d];
    assert |x| == |y|;
    assert forall i :: 0 <= i < |x| ==> x[i] == y[i];
  }

  lemma JoinSlices(m: seq<byte>, a: nat, b: nat, k: nat)
    requires a <= b <= |m| && k <= b - a
    ensures m[..a] + m[a..b][..k] == m[..a + k]
  {
    SubSlice(m, a, b, 0, k);
    assert m[a..b][..k] == m[a..b][0..k];
  }

  function And(x: byte, y: byte): byte {
    x & y
  }

  /** m after programming d at a, with no page limit. */
  function Programmed(m: seq<byte>, a: nat, d: seq<byte>): (r: seq<byte>)
    ensures |r| == |m|
  {
    seq(|m|, i requires 0 <= i < |m| => if a <= i < a + |d| then And(m[i], d[i - a]) else m[i])
  }

  function Erased(m: seq<byte>, a: nat, n: nat): (r: seq<byte>)
    ensures |r| == |m|
  {
    seq(|m|, i requires 0 <= i < |m| => if a <= i < a + n then 0xFF else m[i])
  }

  predicate Blank(m: seq<byte>) {
    forall i :: 0 <= i < |m| ==> m[i] == 0xFF
  }

  lemma AndBlank(x: byte)
    ensures And(0xFF, x) == x
  {
  }

  lemma ProgrammedNothing(m: seq<byte>, a: nat)
    ensures Programmed(m, a, []) == m
  {
  }

  /** Two adjoining programs are one program of the joined data. */
  lemma ProgrammedSplit(m: seq<byte>, a: nat, d: seq<byte>, e: seq<byte>)
    ensures Programmed(Programmed(m, a, d), a + |d|, e) == Programmed(m, a, d + e)
  {
    hide And;
  }

  lemma ErasedSplit(m: seq<byte>, a: nat, n: nat, k: nat)
    ensures Erased(Erased(m, a, n), a + n, k) == Erased(m, a, n + k)
  {
  }

  /** Programming blank bytes stores the data. */
  lemma ProgrammedBlank(m: seq<byte>, a: nat, d: seq<byte>)
    requires a + |d| <= |m| && Blank(m[a..a + |d|])
    ensures Programmed(m, a, d)[a..a + |d|] == d
  {
    hide And;
    var r := Programmed(m, a, d);
    forall i | 0 <= i < |d|
      ensures r[a..a + |d|][i] == d[i]
    {
      assert m[a..a + |d|][i] == 0xFF;
      AndBlank(d[i]);
    }
  }

  /** Programming leaves every other range alone. */
  lemma ProgrammedElsewhere(m: seq<byte>, a: nat, d: seq<byte>, lo: nat, hi: nat)
    requires lo <= hi <= |m| && (hi <= a || a + |d| <= lo)
    ensures Programmed(m, a, d)[lo..hi] == m[lo..hi]
  {
    hide And;
  }

  lemma ErasedElsewhere(m: seq<byte>, a: nat, n: nat, lo: nat, hi: nat)
    requires lo <= hi <= |m| && (hi <= a || a + n <= lo)
    ensures Erased(m, a, n)[lo..hi] == m[lo..hi]
  {
  }
}
