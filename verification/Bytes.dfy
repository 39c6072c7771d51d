/** Bytes, disk blocks and the fields stored in them: bitmap bits, little-endian
  * block numbers (an indirect block is an array of 512 of them) and inodes. */
module Bytes {

  import opened Common

  type Byte = x: int | 0 <= x < 256

  const BSIZE := 4096

  type Block = b: seq<Byte> | |b| == BSIZE witness seq(BSIZE, i => 0)

  function Zeros(n: nat): (r: seq<Byte>) { seq(n, i => 0) }

  function ZeroBlock(): (r: Block) { Zeros(BSIZE) }

  /** s written over b from offset off on. */
  function Splice(b: seq<Byte>, off: nat, s: seq<Byte>): (r: seq<Byte>)
    requires off + |s| <= |b|
    ensures |r| == |b| && r[off..off + |s|] == s
    ensures forall i :: 0 <= i < off || off + |s| <= i < |b| ==> r[i] == b[i]
  {
    b[..off] + s + b[off + |s|..]
  }

  /** Reading a range that a write did not touch. */
  lemma SpliceFrame(b: seq<Byte>, off: nat, s: seq<Byte>, lo: nat, hi: nat)
    requires off + |s| <= |b| && lo <= hi <= |b| && (hi <= off || off + |s| <= lo)
    ensures Splice(b, off, s)[lo..hi] == b[lo..hi]
  {
  }

  // ---- little-endian integers --------------------------------------------

  function Pow256(k: nat): nat { if k == 0 then 1 else 256 * Pow256(k - 1) }

  function FromLE(s: seq<Byte>): (r: nat)
    ensures r < Pow256(|s|)
  {
    if s == [] then 0 else s[0] + 256 * FromLE(s[1..])
  }

  function ToLE(n: nat, k: nat): (r: seq<Byte>)
    ensures |r| == k
  {
    if k == 0 then [] else [n % 256] + ToLE(n / 256, k - 1)
  }

  lemma {:induction false} LERoundTrip(n: nat, k: nat)
    requires n < Pow256(k)
    ensures FromLE(ToLE(n, k)) == n
  {
    if k > 0 {
      LERoundTrip(n / 256, k - 1);
      assert ToLE(n, k)[1..] == ToLE(n / 256, k - 1);
    }
  }

  lemma {:induction false} LEBack(s: seq<Byte>)
    ensures ToLE(FromLE(s), |s|) == s
  {
    if s != [] {
      LEBack(s[1..]);
      var n := FromLE(s);
      assert n % 256 == s[0] && n / 256 == FromLE(s[1..]);
    }
  }

  lemma {:induction false} ToLEZero(k: nat)
    ensures ToLE(0, k) == Zeros(k)
  {
    if k > 0 {
      ToLEZero(k - 1);
      assert [0] + Zeros(k - 1) == Zeros(k);
    }
  }

  lemma {:induction false} FromLEZeros(k: nat)
    ensures FromLE(Zeros(k)) == 0
  {
    if k > 0 {
      FromLEZeros(k - 1);
      assert Zeros(k)[1..] == Zeros(k - 1);
    }
  }

  lemma Limits()
    ensures Pow256(2) == 0x1_0000 && Pow256(8) == U64
  {
    assert Pow256(4) == 0x1_0000_0000;
    assert Pow256(6) == 0x1_0000_0000_0000;
  }

  // ---- block numbers -----------------------------------------------------

  const NINDIRECT := 512

  function PtrAt(b: Block, j: nat): nat
    requires j < NINDIRECT
  {
    FromLE(b[8 * j..8 * j + 8])
  }

  function WithPtr(b: Block, j: nat, v: nat): Block
    requires j < NINDIRECT
  {
    Splice(b, 8 * j, ToLE(v, 8))
  }

  lemma PtrAtWithPtr(b: Block, j: nat, v: nat, k: nat)
    requires j < NINDIRECT && k < NINDIRECT && v < U64
    ensures PtrAt(WithPtr(b, j, v), k) == if j == k then v else PtrAt(b, k)
  {
    Limits();
    LERoundTrip(v, 8);
    if k < j { SpliceFrame(b, 8 * j, ToLE(v, 8), 8 * k, 8 * k + 8); }
    if k > j { SpliceFrame(b, 8 * j, ToLE(v, 8), 8 * k, 8 * k + 8); }
  }

  lemma PtrAtZero(j: nat)
    requires j < NINDIRECT
    ensures PtrAt(ZeroBlock(), j) == 0
  {
    FromLEZeros(8);
    assert ZeroBlock()[8 * j..8 * j + 8] == Zeros(8);
  }

  // ---- bitmap bits --------------------------------------------------------

  const BPB := 32768

  function Pow2(k: nat): nat { if k == 0 then 1 else 2 * Pow2(k - 1) }

  /** Bit k of x: (x & (1 << k)) != 0. */
  predicate Bit(x: nat, k: nat) {
    if k == 0 then x % 2 == 1 else Bit(x / 2, k - 1)
  }

  /** x with bit k set (x | (1 << k)) or cleared (x & ~(1 << k)). */
  function PutBit(x: nat, k: nat, on: bool): nat {
    if k == 0 then x - x % 2 + (if on then 1 else 0) else 2 * PutBit(x / 2, k - 1, on) + x % 2
  }

  lemma {:induction false} BitOfPutBit(x: nat, k: nat, on: bool, j: nat)
    ensures Bit(PutBit(x, k, on), j) <==> if j == k then on else Bit(x, j)
  {
    if k > 0 {
      assert PutBit(x, k, on) / 2 == PutBit(x / 2, k - 1, on);
      if j > 0 { BitOfPutBit(x / 2, k - 1, on, j - 1); }
    }
  }

  lemma {:induction false} PutBitBound(x: nat, k: nat, on: bool, w: nat)
    requires k < w && x < Pow2(w)
    ensures PutBit(x, k, on) < Pow2(w)
  {
    assert Pow2(w) == 2 * Pow2(w - 1);
    if k > 0 { PutBitBound(x / 2, k - 1, on, w - 1); } else { EvenBound(x, Pow2(w - 1)); }
  }

  lemma EvenBound(x: nat, n: nat)
    requires x < 2 * n
    ensures x - x % 2 + 1 < 2 * n
  {
  }

  predicate BitAt(b: Block, k: nat)
    requires k < BPB
  {
    Bit(b[k / 8], k % 8)
  }

  function WithBit(b: Block, k: nat, on: bool): (r: Block)
    requires k < BPB
    ensures forall j :: 0 <= j < BPB ==> (BitAt(r, j) <==> if j == k then on else BitAt(b, j))
  {
    assert Pow2(4) == 16 && Pow2(8) == 256;
    PutBitBound(b[k / 8], k % 8, on, 8);
    assert forall j :: 0 <= j < 8 ==>
      (Bit(PutBit(b[k / 8], k % 8, on), j) <==> if j == k % 8 then on else Bit(b[k / 8], j)) by {
      forall j | 0 <= j < 8
        ensures Bit(PutBit(b[k / 8], k % 8, on), j) <==> if j == k % 8 then on else Bit(b[k / 8], j)
      {
        BitOfPutBit(b[k / 8], k % 8, on, j);
      }
    }
    b[k / 8 := PutBit(b[k / 8], k % 8, on)]
  }

  // ---- inodes -------------------------------------------------------------

  const NDIRECT := 13
  const IPB := 32
  const DINODE := 128

  datatype Dinode = Dinode(typ: int, major: int, minor: int, nlink: int, size: nat, addrs: seq<nat>)

  predicate Short(x: int) { -0x8000 <= x < 0x8000 }

  /** The inodes that struct dinode can hold. */
  predicate Storable(d: Dinode) {
    && Short(d.typ) && Short(d.major) && Short(d.minor) && Short(d.nlink) && d.size < U64
    && |d.addrs| == NDIRECT + 1 && (forall k :: 0 <= k < |d.addrs| ==> d.addrs[k] < U64)
  }

  function FreshDinode(typ: int): Dinode { Dinode(typ, 0, 0, 0, 0, seq(NDIRECT + 1, k => 0)) }

  function EncodeShort(x: int): seq<Byte>
    requires Short(x)
  {
    ToLE(if x < 0 then x + 0x1_0000 else x, 2)
  }

  function DecodeShort(s: seq<Byte>): int
    requires |s| == 2
  {
    var n := FromLE(s);
    if n < 0x8000 then n else n - 0x1_0000
  }

  lemma ShortRoundTrip(x: int)
    requires Short(x)
    ensures DecodeShort(EncodeShort(x)) == x
  {
    Limits();
    LERoundTrip(if x < 0 then x + 0x1_0000 else x, 2);
  }

  /** An array of 64-bit integers as it lies in memory. */
  function Words(ws: seq<nat>): (s: seq<Byte>)
    ensures |s| == 8 * |ws|
  {
    if ws == [] then [] else ToLE(ws[0], 8) + Words(ws[1..])
  }

  lemma {:induction false} WordsAt(ws: seq<nat>, i: nat)
    requires i < |ws|
    ensures Words(ws)[8 * i..8 * i + 8] == ToLE(ws[i], 8)
  {
    hide ToLE;
    var w, rest := ToLE(ws[0], 8), Words(ws[1..]);
    assert Words(ws) == w + rest;
    if i == 0 {
      assert (w + rest)[..8] == w;
    } else {
      WordsAt(ws[1..], i - 1);
      assert (w + rest)[8 * i..8 * i + 8] == rest[8 * (i - 1)..8 * (i - 1) + 8];
    }
  }

  lemma AddrAt(a: seq<nat>, k: nat)
    requires k < |a| && forall i :: 0 <= i < |a| ==> a[i] < U64
    ensures FromLE(Words(a)[8 * k..8 * k + 8]) == a[k]
  {
    hide ToLE, FromLE, Words;
    Limits();
    WordsAt(a, k);
    LERoundTrip(a[k], 8);
  }

  function Encode(d: Dinode): (r: seq<Byte>)
    requires Storable(d)
    ensures |r| == DINODE
  {
    EncodeShort(d.typ) + EncodeShort(d.major) + EncodeShort(d.minor) + EncodeShort(d.nlink)
    + ToLE(d.size, 8) + Words(d.addrs)
  }

  function Decode(s: seq<Byte>): (d: Dinode)
    requires |s| == DINODE
    ensures |d.addrs| == NDIRECT + 1
  {
    Dinode(DecodeShort(s[0..2]), DecodeShort(s[2..4]), DecodeShort(s[4..6]), DecodeShort(s[6..8]),
           FromLE(s[8..16]), seq(NDIRECT + 1, k requires 0 <= k <= NDIRECT => FromLE(s[16 + 8 * k..24 + 8 * k])))
  }

  /** What iupdate stores is what ilock loads. */
  lemma DinodeRoundTrip(d: Dinode)
    requires Storable(d)
    ensures Decode(Encode(d)) == d
  {
    var s := Encode(d);
    assert s[0..2] == EncodeShort(d.typ) && s[2..4] == EncodeShort(d.major);
    assert s[4..6] == EncodeShort(d.minor) && s[6..8] == EncodeShort(d.nlink);
    assert s[8..16] == ToLE(d.size, 8) && s[16..] == Words(d.addrs);
    ShortRoundTrip(d.typ);
    ShortRoundTrip(d.major);
    ShortRoundTrip(d.minor);
    ShortRoundTrip(d.nlink);
    Limits();
    LERoundTrip(d.size, 8);
    forall k | 0 <= k <= NDIRECT ensures Decode(s).addrs[k] == d.addrs[k] {
      AddrAt(d.addrs, k);
      assert s[16 + 8 * k..24 + 8 * k] == s[16..][8 * k..8 * k + 8];
    }
  }

  function DinodeAt(b: Block, k: nat): (d: Dinode)
    requires k < IPB
    ensures |d.addrs| == NDIRECT + 1
  {
    Decode(b[DINODE * k..DINODE * k + DINODE])
  }

  function WithDinode(b: Block, k: nat, d: Dinode): Block
    requires k < IPB && Storable(d)
  {
    Splice(b, DINODE * k, Encode(d))
  }

  lemma DinodeAtWithDinode(b: Block, k: nat, d: Dinode, j: nat)
    requires k < IPB && j < IPB && Storable(d)
    ensures DinodeAt(WithDinode(b, k, d), j) == if j == k then d else DinodeAt(b, j)
  {
    DinodeRoundTrip(d);
    if j < k { SpliceFrame(b, DINODE * k, Encode(d), DINODE * j, DINODE * j + DINODE); }
    if j > k { SpliceFrame(b, DINODE * k, Encode(d), DINODE * j, DINODE * j + DINODE); }
  }
}
