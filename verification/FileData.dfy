/** What the calls of kernel/fs.c do to files: how a write changes the bytes of one
  * file and of no other, how truncation gives blocks back, and what the inode cache
  * keeps. All statements are about values; FileSystem runs the code. */
module FileData {
  import opened Common
  import opened Bytes
  import opened BufferCache
  import opened DiskLayout

  const NINODE := 30
  const ROOTDEV := DEV_RAMDISK

  datatype Inode = Inode(dev: nat, inum: nat, ref: nat, locked: bool, valid: bool, d: Dinode)

  lemma SpareBuffer(s: set<nat>)
    requires |s| <= 1
    ensures 0 !in s || 1 !in s
  {
    if 0 in s && 1 in s {
      SubsetCard({0, 1}, s);
    }
  }

  /** The bits of one bitmap block. */
  lemma BitsOfBlock(sb: SuperBlock, view: View, b: nat)
    requires Geometry(sb, |view|) && b % BPB == 0 && b < sb.size
    ensures BBlock(sb, b) < sb.inodeStart < DataStart(sb) <= |view|
    ensures forall x :: b <= x < b + BPB && x < sb.size ==>
              (InUse(sb, view, x) <==> BitAt(view[BBlock(sb, b)], x - b)) && BBlock(sb, x) == BBlock(sb, b)
  {
    forall x | b <= x < b + BPB && x < sb.size ensures BBlock(sb, x) == BBlock(sb, b) && x % BPB == x - b {
      assert x / BPB == b / BPB;
    }
  }

  /** The first file block beyond the n slots in use. */
  function NextBlock(n: nat): nat { if n <= NDIRECT then n else n - 1 }

  ghost function Capacity(sb: SuperBlock): int
    requires sb.nInodes > 0
  {
    sb.size - DataStart(sb)
  }

  /** One inode gained blocks: nothing else changed hands, other files keep their blocks
    * and their contents, and the inodes on disk are as they were. */
  ghost predicate Grows(sb: SuperBlock, i: nat, v: View, ns: seq<Dinode>, us: seq<nat>, ow: Owner,
                        v': View, ns': seq<Dinode>, us': seq<nat>, ow': Owner) {
    && Geometry(sb, |v|) && |v'| == |v| && |ns'| == |ns| == |us'| == |us| == sb.nInodes && i < |ns|
    && (forall j :: 0 <= j < |ns| && j != i ==> ns'[j] == ns[j] && us'[j] == us[j])
    && ns'[i] == ns[i].(addrs := ns'[i].addrs) && us'[i] >= us[i]
    && (forall b :: b in ow ==> b in ow' && ow'[b] == ow[b])
    && |ow'.Keys| == |ow.Keys| + us'[i] - us[i]
    && (forall b :: b in ow && ow[b].0 != i && b < |v| ==> v'[b] == v[b])
    && (forall j :: 0 <= j < sb.nInodes ==> OnDisk(sb, v', j) == OnDisk(sb, v, j))
  }

  /** All blocks but inode i's indirect one have the same contents. */
  ghost predicate SameData(i: nat, v: View, ow: Owner, v': View) {
    |v'| == |v| && forall b :: b in ow && ow[b] != (i, INDIRECT) && b < |v| ==> v'[b] == v[b]
  }

  /** A growing file keeps the blocks it has. */
  lemma GrownPtr(sb: SuperBlock, i: nat, v: View, ns: seq<Dinode>, us: seq<nat>, ow: Owner,
                 v': View, ns': seq<Dinode>, us': seq<nat>, ow': Owner, s: nat)
    requires Owned(sb, v, ns, us, ow, {}) && Owned(sb, v', ns', us', ow', {})
    requires Grows(sb, i, v, ns, us, ow, v', ns', us', ow') && s < us[i] <= NSLOTS
    requires |ns[i].addrs| == |ns'[i].addrs| == NDIRECT + 1
    ensures Ptr(v', ns'[i], s) == Ptr(v, ns[i], s)
  {
    assert InodeOk(v, ns[i], us[i], ow, i);
    assert SlotOk(v, ns[i], us[i], ow, i, s);
    assert OwnerOk(sb, v', ns', us', ow', Ptr(v, ns[i], s));
  }

  lemma AllocatedBlock(sb: SuperBlock, view: View, b: nat)
    requires Geometry(sb, |view|) && DataStart(sb) <= b < sb.size
    ensures |Allocated(sb, view, b)| == |view| && Allocated(sb, view, b)[b] == ZeroBlock()
    ensures forall x :: DataStart(sb) <= x < |view| && x != b ==> Allocated(sb, view, b)[x] == view[x]
    ensures forall j :: 0 <= j < sb.nInodes ==> OnDisk(sb, Allocated(sb, view, b), j) == OnDisk(sb, view, j)
  {
  }

  lemma OwnerInData(sb: SuperBlock, view: View, nodes: seq<Dinode>, used: seq<nat>, owner: Owner, pending: set<nat>,
        b: nat)
    requires Owned(sb, view, nodes, used, owner, pending) && b in owner
    ensures DataStart(sb) <= b < sb.size && InUse(sb, view, b)
  {
    assert OwnerOk(sb, view, nodes, used, owner, b);
    assert BitOk(sb, view, owner, pending, b);
  }

  /** The parts of ownership that do not mention blocks. */
  lemma OwnedBasics(sb: SuperBlock, view: View, nodes: seq<Dinode>, used: seq<nat>, owner: Owner, pending: set<nat>)
    requires Owned(sb, view, nodes, used, owner, pending)
    ensures Geometry(sb, |view|) && |nodes| == |used| == sb.nInodes
    ensures forall i :: 0 <= i < |nodes| ==> |nodes[i].addrs| == NDIRECT + 1 && used[i] <= NSLOTS
  {
    forall i | 0 <= i < |nodes| ensures |nodes[i].addrs| == NDIRECT + 1 && used[i] <= NSLOTS {
      assert InodeOk(view, nodes[i], used[i], owner, i);
    }
  }

  /** A free block b becomes the next slot, direct or indirect, of inode i. */
  lemma TopStep(sb: SuperBlock, i: nat, v: View, ns: seq<Dinode>, us: seq<nat>, ow: Owner, b: nat)
    requires Owned(sb, v, ns, us, ow, {}) && i < |ns| && us[i] <= INDIRECT
    requires b < sb.size && !InUse(sb, v, b)
    ensures |ns[i].addrs| == NDIRECT + 1
    ensures var v', ns', us', ow' := Allocated(sb, v, b), ns[i := WithAddr(ns[i], us[i], b)], us[i := us[i] + 1],
                ow[b := (i, us[i])];
            Owned(sb, v', ns', us', ow', {}) && Grows(sb, i, v, ns, us, ow, v', ns', us', ow') && SameData(i, v, ow, v')
  {
    hide InUse, InodeOk, OwnerOk, BitOk, OnDisk, Allocated;
    AllocateKeeps(sb, v, ns, us, ow, b);
    AllocatedBlock(sb, v, b);
    AttachKeeps(sb, Allocated(sb, v, b), ns, us, ow, i, b);
    forall x | x in ow && x < |v| ensures Allocated(sb, v, b)[x] == v[x] {
      OwnerInData(sb, v, ns, us, ow, {}, x);
    }
    assert ow[b := (i, us[i])].Keys == ow.Keys + {b};
  }

  /** A free block b becomes the next entry of inode i's indirect block. */
  lemma EntryStep(sb: SuperBlock, i: nat, v: View, ns: seq<Dinode>, us: seq<nat>, ow: Owner, b: nat)
    requires Owned(sb, v, ns, us, ow, {}) && i < |ns| && INDIRECT < us[i] < NSLOTS
    requires b < sb.size && !InUse(sb, v, b)
    ensures |ns[i].addrs| == NDIRECT + 1 && ns[i].addrs[INDIRECT] < |Allocated(sb, v, b)|
    ensures Allocated(sb, v, b)[ns[i].addrs[INDIRECT]] == v[ns[i].addrs[INDIRECT]]
    ensures var v', us', ow' := WithEntry(Allocated(sb, v, b), ns[i], us[i], b), us[i := us[i] + 1],
                ow[b := (i, us[i])];
            Owned(sb, v', ns, us', ow', {}) && Grows(sb, i, v, ns, us, ow, v', ns, us', ow') && SameData(i, v, ow, v')
  {
    hide InUse, InodeOk, OwnerOk, BitOk, Allocated;
    AllocateKeeps(sb, v, ns, us, ow, b);
    AllocatedBlock(sb, v, b);
    var mid := Allocated(sb, v, b);
    AttachEntryKeeps(sb, mid, ns, us, ow, i, b);
    IndirectOwned(sb, v, ns, us, ow, {}, i);
    OwnerInData(sb, v, ns, us, ow, {}, ns[i].addrs[INDIRECT]);
    var v' := WithEntry(mid, ns[i], us[i], b);
    forall x | x in ow && ow[x] != (i, INDIRECT) && x < |v| ensures v'[x] == v[x] {
      OwnerInData(sb, v, ns, us, ow, {}, x);
    }
    forall j | 0 <= j < sb.nInodes ensures OnDisk(sb, v', j) == OnDisk(sb, v, j) {
      assert IBlock(sb, j) < DataStart(sb);
    }
    assert ow[b := (i, us[i])].Keys == ow.Keys + {b};
  }

  lemma IndirectOwned(sb: SuperBlock, v: View, ns: seq<Dinode>, us: seq<nat>, ow: Owner, pending: set<nat>, i: nat)
    requires Owned(sb, v, ns, us, ow, pending) && i < |ns| && us[i] > INDIRECT
    ensures |ns[i].addrs| == NDIRECT + 1
    ensures ns[i].addrs[INDIRECT] in ow && ow[ns[i].addrs[INDIRECT]] == (i, INDIRECT)
  {
    assert InodeOk(v, ns[i], us[i], ow, i);
    assert SlotOk(v, ns[i], us[i], ow, i, INDIRECT);
  }

  /** A pointer is zero exactly in the slots not in use. */
  lemma ZeroIff(sb: SuperBlock, v: View, ns: seq<Dinode>, us: seq<nat>, ow: Owner, pending: set<nat>, i: nat, s: nat)
    requires Owned(sb, v, ns, us, ow, pending) && i < |ns| && s < NSLOTS
    ensures |ns[i].addrs| == NDIRECT + 1
    ensures Ptr(v, ns[i], s) == 0 <==> us[i] <= s
    ensures s < us[i] ==> Ptr(v, ns[i], s) in ow && ow[Ptr(v, ns[i], s)] == (i, s)
    ensures s < us[i] ==> DataStart(sb) <= Ptr(v, ns[i], s) < sb.size
  {
    assert InodeOk(v, ns[i], us[i], ow, i);
    assert SlotOk(v, ns[i], us[i], ow, i, s);
    if s < us[i] { assert OwnerOk(sb, v, ns, us, ow, Ptr(v, ns[i], s)); }
  }

  lemma GrowsTwice(sb: SuperBlock, i: nat, v: View, ns: seq<Dinode>, us: seq<nat>, ow: Owner,
                   v1: View, ns1: seq<Dinode>, us1: seq<nat>, ow1: Owner,
                   v2: View, ns2: seq<Dinode>, us2: seq<nat>, ow2: Owner)
    requires Grows(sb, i, v, ns, us, ow, v1, ns1, us1, ow1) && Grows(sb, i, v1, ns1, us1, ow1, v2, ns2, us2, ow2)
    ensures Grows(sb, i, v, ns, us, ow, v2, ns2, us2, ow2)
    ensures SameData(i, v, ow, v1) && SameData(i, v1, ow1, v2) ==> SameData(i, v, ow, v2)
  {
  }

  lemma TopPtr(v: View, d: Dinode, s: nat)
    requires |d.addrs| == NDIRECT + 1 && s <= INDIRECT
    ensures Ptr(v, d, s) == d.addrs[s]
  {
  }

  lemma OneMore(sb: SuperBlock, i: nat, v: View, ns: seq<Dinode>, us: seq<nat>, ow: Owner,
                v': View, ns': seq<Dinode>, us': seq<nat>, ow': Owner)
    requires Grows(sb, i, v, ns, us, ow, v', ns', us', ow')
    ensures |ns| == |ns'| == |us'| == |us| == sb.nInodes && |v'| == |v| && i < |ns'|
    ensures us'[i] >= us[i] && |ow'.Keys| == |ow.Keys| + us'[i] - us[i]
  {
  }

  lemma GrowsNot(sb: SuperBlock, i: nat, v: View, ns: seq<Dinode>, us: seq<nat>, ow: Owner)
    requires Geometry(sb, |v|) && |ns| == |us| == sb.nInodes && i < |ns|
    ensures Grows(sb, i, v, ns, us, ow, v, ns, us, ow) && SameData(i, v, ow, v)
  {
  }

  // ---- reading and writing files: one block at a time ----------------------

  /** One turn of writei's loop: chunk goes into the block that holds offset off. */
  ghost function Poke(v: View, d: Dinode, off: nat, chunk: seq<Byte>): View
    requires |d.addrs| == NDIRECT + 1 && off / BSIZE < MAXFILEBLK && off % BSIZE + |chunk| <= BSIZE
    requires Ptr(v, d, SlotOf(off / BSIZE)) < |v|
  {
    var b := Ptr(v, d, SlotOf(off / BSIZE));
    v[b := Splice(v[b], off % BSIZE, chunk)]
  }

  lemma PokeKeeps(sb: SuperBlock, i: nat, v: View, ns: seq<Dinode>, us: seq<nat>, ow: Owner, off: nat, chunk: seq<Byte>)
    requires Owned(sb, v, ns, us, ow, {}) && i < |ns|
    requires off / BSIZE < MAXFILEBLK && off % BSIZE + |chunk| <= BSIZE && SlotOf(off / BSIZE) < us[i]
    ensures |ns[i].addrs| == NDIRECT + 1 && Ptr(v, ns[i], SlotOf(off / BSIZE)) < |v|
    ensures var v' := Poke(v, ns[i], off, chunk);
            Owned(sb, v', ns, us, ow, {}) && Grows(sb, i, v, ns, us, ow, v', ns, us, ow)
  {
    var s := SlotOf(off / BSIZE);
    ZeroIff(sb, v, ns, us, ow, {}, i, s);
    var b := Ptr(v, ns[i], s);
    WriteKeeps(sb, v, ns, us, ow, {}, b, Splice(v[b], off % BSIZE, chunk));
    forall j | 0 <= j < sb.nInodes ensures IBlock(sb, j) < DataStart(sb) {}
  }

  /** ... and changes exactly those bytes of the file. */
  lemma PokeByte(sb: SuperBlock, i: nat, v: View, ns: seq<Dinode>, us: seq<nat>, ow: Owner, off: nat, chunk: seq<Byte>,
        k: nat)
    requires Owned(sb, v, ns, us, ow, {}) && i < |ns|
    requires off / BSIZE < MAXFILEBLK && off % BSIZE + |chunk| <= BSIZE && SlotOf(off / BSIZE) < us[i]
    requires k / BSIZE < MAXFILEBLK && SlotOf(k / BSIZE) < us[i]
    ensures |ns[i].addrs| == NDIRECT + 1 && Ptr(v, ns[i], SlotOf(off / BSIZE)) < |v|
    ensures ByteOf(Poke(v, ns[i], off, chunk), ns[i], k) ==
            if off <= k < off + |chunk| then chunk[k - off] else ByteOf(v, ns[i], k)
  {
    var s, t := SlotOf(off / BSIZE), SlotOf(k / BSIZE);
    ZeroIff(sb, v, ns, us, ow, {}, i, s);
    ZeroIff(sb, v, ns, us, ow, {}, i, t);
    PokeKeeps(sb, i, v, ns, us, ow, off, chunk);
    var v' := Poke(v, ns[i], off, chunk);
    GrownPtr(sb, i, v, ns, us, ow, v', ns, us, ow, t);
    if s == t {
      assert off / BSIZE == k / BSIZE;
      var b := Ptr(v, ns[i], s);
      var w := Splice(v[b], off % BSIZE, chunk);
      assert k - off == k % BSIZE - off % BSIZE;
      if off <= k < off + |chunk| {
        assert w[off % BSIZE..off % BSIZE + |chunk|][k - off] == chunk[k - off];
      }
    } else {
      assert off / BSIZE != k / BSIZE;
      assert !(off <= k < off + |chunk|);
    }
  }

  /** One turn of readi's loop. */
  lemma PeekBytes(sb: SuperBlock, i: nat, v: View, ns: seq<Dinode>, us: seq<nat>, ow: Owner, off: nat, m: nat)
    requires Owned(sb, v, ns, us, ow, {}) && i < |ns| && us[i] == SlotCount(ns[i].size)
    requires off + m <= ns[i].size && 0 < m && off % BSIZE + m <= BSIZE
    ensures |ns[i].addrs| == NDIRECT + 1 && off / BSIZE < MAXFILEBLK && SlotOf(off / BSIZE) < us[i]
    ensures Ptr(v, ns[i], SlotOf(off / BSIZE)) < |v|
    ensures Contents(v, ns[i])[off..off + m] == v[Ptr(v, ns[i], SlotOf(off / BSIZE))][off % BSIZE..off % BSIZE + m]
  {
    OwnedBasics(sb, v, ns, us, ow, {});
    var s := SlotOf(off / BSIZE);
    assert off / BSIZE <= (ns[i].size - 1) / BSIZE;
    ZeroIff(sb, v, ns, us, ow, {}, i, s);
    var b := Ptr(v, ns[i], s);
    forall k | off <= k < off + m ensures Contents(v, ns[i])[k] == v[b][off % BSIZE + k - off] {
      assert k / BSIZE == off / BSIZE && k % BSIZE == off % BSIZE + k - off;
    }
  }

  /** Byte k after `chunk` was written at o over a file of n slots. */
  ghost predicate PatchedAt(v: View, d: Dinode, n: nat, v': View, d': Dinode, o: nat, chunk: seq<Byte>, k: nat)
    requires |d.addrs| == |d'.addrs| == NDIRECT + 1
  {
    if o <= k < o + |chunk| then ByteOf(v', d', k) == chunk[k - o]
    else SlotOf(k / BSIZE) < n ==> ByteOf(v', d', k) == ByteOf(v, d, k)
  }

  ghost predicate Patched(v: View, d: Dinode, n: nat, v': View, d': Dinode, o: nat, chunk: seq<Byte>) {
    && |d.addrs| == |d'.addrs| == NDIRECT + 1
    && forall k :: 0 <= k < MAXFILEBLK * BSIZE ==> PatchedAt(v, d, n, v', d', o, chunk, k)
  }

  /** Two writes in a row are one. */
  lemma PatchedTwice(v: View, d: Dinode, n: nat, v1: View, d1: Dinode, n1: nat, v2: View, d2: Dinode,
                     o: nat, c1: seq<Byte>, c2: seq<Byte>)
    requires Patched(v, d, n, v1, d1, o, c1) && Patched(v1, d1, n1, v2, d2, o + |c1|, c2)
    requires n <= n1 && (c1 != [] ==> SlotCount(o + |c1|) <= n1)
    ensures Patched(v, d, n, v2, d2, o, c1 + c2)
  {
    forall k | 0 <= k < MAXFILEBLK * BSIZE ensures PatchedAt(v, d, n, v2, d2, o, c1 + c2, k) {
      assert PatchedAt(v, d, n, v1, d1, o, c1, k) && PatchedAt(v1, d1, n1, v2, d2, o + |c1|, c2, k);
      if o <= k < o + |c1| { assert k / BSIZE <= (o + |c1| - 1) / BSIZE; }
    }
  }

  lemma PatchedNot(v: View, d: Dinode, n: nat, o: nat)
    requires |d.addrs| == NDIRECT + 1
    ensures Patched(v, d, n, v, d, o, [])
  {
    forall k | 0 <= k < MAXFILEBLK * BSIZE ensures PatchedAt(v, d, n, v, d, o, [], k) {}
  }

  /** bmap does not change a byte of the file. */
  lemma MappedByte(sb: SuperBlock, i: nat, v: View, ns: seq<Dinode>, us: seq<nat>, ow: Owner,
                   v': View, ns': seq<Dinode>, us': seq<nat>, ow': Owner, k: nat)
    requires Owned(sb, v, ns, us, ow, {}) && Owned(sb, v', ns', us', ow', {})
    requires Grows(sb, i, v, ns, us, ow, v', ns', us', ow') && SameData(i, v, ow, v')
    requires k / BSIZE < MAXFILEBLK && SlotOf(k / BSIZE) < us[i]
    ensures |ns[i].addrs| == |ns'[i].addrs| == NDIRECT + 1 && ByteOf(v', ns'[i], k) == ByteOf(v, ns[i], k)
  {
    OwnedBasics(sb, v, ns, us, ow, {});
    OwnedBasics(sb, v', ns', us', ow', {});
    ZeroIff(sb, v, ns, us, ow, {}, i, SlotOf(k / BSIZE));
    GrownPtr(sb, i, v, ns, us, ow, v', ns', us', ow', SlotOf(k / BSIZE));
  }

  /** bmap followed by the copy into the block: one turn of writei's loop. */
  lemma PokePatches(sb: SuperBlock, i: nat, v: View, ns: seq<Dinode>, us: seq<nat>, ow: Owner,
                    v1: View, ns1: seq<Dinode>, us1: seq<nat>, ow1: Owner, off: nat, chunk: seq<Byte>)
    requires Owned(sb, v, ns, us, ow, {}) && Owned(sb, v1, ns1, us1, ow1, {})
    requires Grows(sb, i, v, ns, us, ow, v1, ns1, us1, ow1) && SameData(i, v, ow, v1)
    requires off / BSIZE < MAXFILEBLK && off % BSIZE + |chunk| <= BSIZE && SlotOf(off / BSIZE) < us1[i]
    ensures |ns[i].addrs| == |ns1[i].addrs| == NDIRECT + 1 && Ptr(v1, ns1[i], SlotOf(off / BSIZE)) < |v1|
    ensures Patched(v, ns[i], us[i], Poke(v1, ns1[i], off, chunk), ns1[i], off, chunk)
  {
    hide Owned, Grows, SameData, Ptr, ByteOf, Poke, OnDisk;
    OwnedBasics(sb, v, ns, us, ow, {});
    OneMore(sb, i, v, ns, us, ow, v1, ns1, us1, ow1);
    PokeKeeps(sb, i, v1, ns1, us1, ow1, off, chunk);
    var v' := Poke(v1, ns1[i], off, chunk);
    forall k | 0 <= k < MAXFILEBLK * BSIZE ensures PatchedAt(v, ns[i], us[i], v', ns1[i], off, chunk, k) {
      if off <= k < off + |chunk| { assert k / BSIZE == off / BSIZE; }
      if off <= k < off + |chunk| || SlotOf(k / BSIZE) < us[i] {
        PokeByte(sb, i, v1, ns1, us1, ow1, off, chunk, k);
      }
      if SlotOf(k / BSIZE) < us[i] { MappedByte(sb, i, v, ns, us, ow, v1, ns1, us1, ow1, k); }
    }
  }

  /** The byte sequence s with src written at off, extended if need be. */
  function Overwrite(s: seq<Byte>, off: nat, src: seq<Byte>): (r: seq<Byte>)
    requires off <= |s|
  {
    s[..off] + src + (if off + |src| < |s| then s[off + |src|..] else [])
  }

  lemma PatchedContents(v: View, d: Dinode, n: nat, v': View, d': Dinode, off: nat, src: seq<Byte>)
    requires Patched(v, d, n, v', d', off, src) && n == SlotCount(d.size) && off <= d.size
    requires d.size <= MAXFILEBLK * BSIZE && off + |src| <= MAXFILEBLK * BSIZE
    requires d'.size == if off + |src| > d.size then off + |src| else d.size
    ensures Contents(v', d') == Overwrite(Contents(v, d), off, src)
  {
    var c := Contents(v', d');
    var o := Overwrite(Contents(v, d), off, src);
    forall k | 0 <= k < |c| ensures c[k] == o[k] {
      assert PatchedAt(v, d, n, v', d', off, src, k);
      if k < d.size { assert k / BSIZE <= (d.size - 1) / BSIZE; }
    }
  }

  lemma SizeBound(size: nat)
    requires SlotCount(size) <= NSLOTS
    ensures size <= MAXFILEBLK * BSIZE
  {
  }

  function Max(a: int, b: int): int { if a > b then a else b }

  /** The blocks that a write of bytes [off, end) adds to a file that has n. */
  function MoreSlots(n: nat, off: nat, end: nat): nat
    requires off <= end
  {
    if off == end || SlotCount(end) <= n then 0 else SlotCount(end) - n
  }

  /** Other files do not change while inode i grows and its copy on disk is updated. */
  lemma OthersKept(sb: SuperBlock, i: nat, v: View, ns: seq<Dinode>, us: seq<nat>, ow: Owner,
                   v1: View, ns1: seq<Dinode>, us1: seq<nat>, ow1: Owner, v': View, j: nat)
    requires Owned(sb, v, ns, us, ow, {}) && AllStored(sb, v, ns, us) && j < |ns| && j != i
    requires Grows(sb, i, v, ns, us, ow, v1, ns1, us1, ow1)
    requires |v'| == |v1| && forall b :: DataStart(sb) <= b < |v1| ==> v'[b] == v1[b]
    ensures ns1[j] == ns[j] && us1[j] == us[j] && |ns[j].addrs| == NDIRECT + 1
    ensures Contents(v', ns[j]) == Contents(v, ns[j])
  {
    assert Stored(sb, v, ns, us, j);
    forall b | b in ow && ow[b].0 == j && b < |v| ensures v'[b] == v[b] {
      OwnerInData(sb, v, ns, us, ow, {}, b);
    }
    ContentsFrame(sb, v, v', ns, us, ow, {}, j);
  }

  lemma StoredSlots(sb: SuperBlock, v: View, ns: seq<Dinode>, us: seq<nat>, i: nat)
    requires Stored(sb, v, ns, us, i)
    ensures i < |ns| == |us| && us[i] == SlotCount(ns[i].size)
  {
  }

  /** The offsets of one turn of writei's loop, from tot bytes written to tot + m of n. */
  lemma WriteOffsets(off: nat, tot: nat, m: nat, n: nat, size: nat, us: nat, now: nat)
    requires off <= size && us == SlotCount(size) && tot + m <= n && 0 < m && (off + tot) % BSIZE + m <= BSIZE
    requires now == us + MoreSlots(us, off, off + tot) && off + n <= MAXFILEBLK * BSIZE
    ensures var o := off + tot; var s := SlotOf(o / BSIZE);
            && o / BSIZE < MAXFILEBLK && o / BSIZE <= NextBlock(now)
            && (tot > 0 ==> SlotCount(o) <= now)
            && us + MoreSlots(us, off, o + m) == (if now > s then now else s + 1)
            && MoreSlots(us, off, o + m) <= MoreSlots(us, off, off + n)
  {
    hide SlotCount, SlotOf, NextBlock;
    var o := off + tot;
    SlotOfEnd(o, m);
    SlotCountMono(o, o + m);
    SlotCountMono(o + m, off + n);
    if tot == 0 { SlotCountMono(off, size); }
    NextMono(SlotCount(o), now);
  }

  lemma NextMono(a: nat, b: nat)
    requires a <= b
    ensures NextBlock(a) <= NextBlock(b)
  {
  }

  lemma {:induction false} SlotCountMono(a: nat, b: nat)
    requires a <= b
    ensures SlotCount(a) <= SlotCount(b) && a / BSIZE <= NextBlock(SlotCount(a))
    ensures a % BSIZE != 0 ==> SlotOf(a / BSIZE) < SlotCount(a)
  {
    if 0 < a { assert (a - 1) / BSIZE <= (b - 1) / BSIZE; }
  }

  /** Writing bytes [off, off + m) within one block takes the file to the slots of off + m bytes. */
  lemma SlotOfEnd(off: nat, m: nat)
    requires 0 < m && off % BSIZE + m <= BSIZE
    ensures SlotCount(off + m) == SlotOf(off / BSIZE) + 1
    ensures off + m <= MAXFILEBLK * BSIZE ==> off / BSIZE < MAXFILEBLK
  {
    assert (off + m - 1) / BSIZE == off / BSIZE;
  }

  /** The pointers of an owned inode fit 64 bits. */
  lemma AddrsFit(sb: SuperBlock, v: View, ns: seq<Dinode>, us: seq<nat>, ow: Owner, i: nat)
    requires Owned(sb, v, ns, us, ow, {}) && i < |ns|
    ensures |ns[i].addrs| == NDIRECT + 1 && forall k :: 0 <= k <= NDIRECT ==> ns[i].addrs[k] < U64
  {
    OwnedBasics(sb, v, ns, us, ow, {});
    forall k | 0 <= k <= NDIRECT ensures ns[i].addrs[k] < U64 {
      ZeroIff(sb, v, ns, us, ow, {}, i, k);
    }
  }

  /** The block that holds inode i, with inode i replaced. */
  ghost function WithInode(sb: SuperBlock, v: View, i: nat, d: Dinode): View
    requires Geometry(sb, |v|) && i < sb.nInodes && Storable(d)
  {
    v[IBlock(sb, i) := WithDinode(v[IBlock(sb, i)], i % IPB, d)]
  }

  /** iupdate changes inode i on disk and nothing else. */
  lemma UpdateKeeps(sb: SuperBlock, v: View, ns: seq<Dinode>, us: seq<nat>, ow: Owner, i: nat, d: Dinode)
    requires Owned(sb, v, ns, us, ow, {}) && i < sb.nInodes && Storable(d)
    ensures Owned(sb, WithInode(sb, v, i, d), ns, us, ow, {})
    ensures |WithInode(sb, v, i, d)| == |v|
    ensures forall b :: DataStart(sb) <= b < |v| ==> WithInode(sb, v, i, d)[b] == v[b]
    ensures forall j :: 0 <= j < sb.nInodes ==>
              OnDisk(sb, WithInode(sb, v, i, d), j) == if j == i then d else OnDisk(sb, v, j)
  {
    var b := IBlock(sb, i);
    var v' := WithInode(sb, v, i, d);
    if b in ow { OwnerInData(sb, v, ns, us, ow, {}, b); }
    WriteKeeps(sb, v, ns, us, ow, {}, b, v'[b]);
    forall j | 0 <= j < sb.nInodes ensures OnDisk(sb, v', j) == if j == i then d else OnDisk(sb, v, j) {
      if IBlock(sb, j) == b { DinodeAtWithDinode(v[b], i % IPB, d, j % IPB); }
    }
  }

  /** Valid cached inodes agree with the kernel's view, and an inode number has at
    * most one live entry. */
  ghost predicate CacheOk(inodes: seq<Inode>, nodes: seq<Dinode>) {
    && |inodes| == NINODE
    && (forall p :: 0 <= p < NINODE && inodes[p].ref > 0 ==> EntryOk(inodes[p], nodes))
    && (forall p, q ::
          0 <= p < q < NINODE && inodes[p].ref > 0 && inodes[q].ref > 0 ==> inodes[p].inum != inodes[q].inum)
  }

  ghost predicate EntryOk(e: Inode, nodes: seq<Dinode>) {
    e.inum < |nodes| && e.dev == ROOTDEV && (e.valid ==> e.d == nodes[e.inum])
  }

  /** iget's effect on the cache. */
  ghost predicate Got(a: seq<Inode>, b: seq<Inode>, p: nat, i: nat) {
    && |a| == NINODE && p < NINODE
    && var e := a[p];
       if e.ref > 0 then e.inum == i && b == a[p := e.(ref := e.ref + 1)]
       else && (forall q :: 0 <= q < NINODE && a[q].ref > 0 ==> a[q].inum != i)
            && b == a[p := Inode(ROOTDEV, i, 1, e.locked, false, e.d)]
  }

  /** A change made to a cached inode. */
  lemma CacheUpdate(inodes: seq<Inode>, nodes: seq<Dinode>, p: nat, d: Dinode)
    requires CacheOk(inodes, nodes) && p < NINODE && inodes[p].ref > 0
    ensures inodes[p].inum < |nodes|
    ensures CacheOk(inodes[p := inodes[p].(d := d)], nodes[inodes[p].inum := d])
  {
    assert EntryOk(inodes[p], nodes);
    var inodes', nodes' := inodes[p := inodes[p].(d := d)], nodes[inodes[p].inum := d];
    forall q | 0 <= q < NINODE && inodes'[q].ref > 0 ensures EntryOk(inodes'[q], nodes') {
      assert EntryOk(inodes[q], nodes);
      assert p < q || q < p || p == q;
    }
  }

  lemma CacheEntry(inodes: seq<Inode>, nodes: seq<Dinode>, p: nat)
    requires CacheOk(inodes, nodes) && p < |inodes| && inodes[p].ref > 0
    ensures |inodes| == NINODE && EntryOk(inodes[p], nodes)
  {
  }

  const NDEV := 10

  /** The result of readi and writei: a byte count, -1, a call of the device's own
    * routine, or a panic. */
  datatype Io = Done(count: nat) | Fail | ToDevice(major: int) | Panicked

  /** readi of inode d: what the file, as a byte sequence, holds at off. */
  ghost predicate ReadSpec(v: View, d: Dinode, off: nat, n: nat, handlers: set<int>, r: Io, dst: seq<Byte>)
  {
    if d.typ == T_DEV then
      r == (if 0 <= d.major < NDEV && d.major in handlers then ToDevice(d.major) else Fail) && dst == []
    else if off > d.size || off + n >= U64 || |d.addrs| != NDIRECT + 1 then r == Fail && dst == []
    else
      var end := if off + n > d.size then d.size else off + n;
      r == Done(end - off) && dst == Contents(v, d)[off..end]
  }

  lemma NextCovers(bn: nat, n: nat)
    requires SlotOf(bn) < n
    ensures bn <= NextBlock(n)
  {
  }

  /** Inode i agrees with its copy on disk, and has exactly the blocks its size needs. */
  ghost predicate Stored(sb: SuperBlock, view: View, nodes: seq<Dinode>, used: seq<nat>, i: nat) {
    && Geometry(sb, |view|) && i < sb.nInodes == |nodes| == |used|
    && OnDisk(sb, view, i) == nodes[i] && used[i] == SlotCount(nodes[i].size) && Storable(nodes[i])
    && (nodes[i].typ == 0 ==> nodes[i].size == 0)
  }

  /** The inodes in use through the cache are allocated. */
  ghost predicate Typed(inodes: seq<Inode>) {
    forall p :: 0 <= p < |inodes| && inodes[p].ref > 0 && inodes[p].valid ==> inodes[p].d.typ != 0
  }

  ghost predicate AllStored(sb: SuperBlock, view: View, nodes: seq<Dinode>, used: seq<nat>) {
    forall i :: 0 <= i < sb.nInodes ==> Stored(sb, view, nodes, used, i)
  }

  /** The abstract state at one moment. */
  datatype Snapshot = Snapshot(inodes: seq<Inode>, view: View, nodes: seq<Dinode>, used: seq<nat>, owner: Owner)

  /** From z to y, `chunk` was written at o into one block of inode i's file. */
  ghost predicate OneBlock(sb: SuperBlock, i: nat, z: Snapshot, y: Snapshot, o: nat, chunk: seq<Byte>) {
    && Grows(sb, i, z.view, z.nodes, z.used, z.owner, y.view, y.nodes, y.used, y.owner)
    && y.used[i] == Max(z.used[i], SlotOf(o / BSIZE) + 1)
    && (y.used[i] == z.used[i] ==> y.nodes == z.nodes)
    && Patched(z.view, z.nodes[i], z.used[i], y.view, y.nodes[i], o, chunk)
  }

  /** From z to y, `done` was written at off of inode i's file. */
  ghost predicate WroteFrom(sb: SuperBlock, i: nat, z: Snapshot, y: Snapshot, off: nat, done: seq<Byte>) {
    && Grows(sb, i, z.view, z.nodes, z.used, z.owner, y.view, y.nodes, y.used, y.owner)
    && y.used[i] == z.used[i] + MoreSlots(z.used[i], off, off + |done|)
    && (y.used[i] == z.used[i] ==> y.nodes == z.nodes)
    && Patched(z.view, z.nodes[i], z.used[i], y.view, y.nodes[i], off, done)
    && |y.owner.Keys| == |z.owner.Keys| + y.used[i] - z.used[i] <= Capacity(sb)
  }

  lemma WroteMore(sb: SuperBlock, i: nat, z: Snapshot, y: Snapshot, x: Snapshot, off: nat, done: seq<Byte>,
        chunk: seq<Byte>, n: nat)
    requires WroteFrom(sb, i, z, y, off, done) && OneBlock(sb, i, y, x, off + |done|, chunk)
    requires Owned(sb, x.view, x.nodes, x.used, x.owner, {})
    requires z.used[i] == SlotCount(z.nodes[i].size) && off <= z.nodes[i].size
    requires 0 < |chunk| && (off + |done|) % BSIZE + |chunk| <= BSIZE
    requires |done| + |chunk| <= n && off + n <= MAXFILEBLK * BSIZE
    ensures WroteFrom(sb, i, z, x, off, done + chunk)
  {
    hide Owned, Grows, Patched, SlotCount, SlotOf, NextBlock, MoreSlots;
    OneMore(sb, i, z.view, z.nodes, z.used, z.owner, y.view, y.nodes, y.used, y.owner);
    WriteOffsets(off, |done|, |chunk|, n, z.nodes[i].size, z.used[i], y.used[i]);
    GrowsTwice(sb, i, z.view, z.nodes, z.used, z.owner, y.view, y.nodes, y.used, y.owner,
               x.view, x.nodes, x.used, x.owner);
    OneMore(sb, i, z.view, z.nodes, z.used, z.owner, x.view, x.nodes, x.used, x.owner);
    FullIff(sb, x.view, x.nodes, x.used, x.owner);
    PatchedTwice(z.view, z.nodes[i], z.used[i], y.view, y.nodes[i], y.used[i], x.view, x.nodes[i], off, done, chunk);
  }

  /** From z to y, writei put src at off of inode i's file and touched no other file. */
  ghost predicate FileWritten(sb: SuperBlock, i: nat, z: Snapshot, y: Snapshot, off: nat, src: seq<Byte>) {
    && |y.nodes| == |z.nodes| == sb.nInodes && i < sb.nInodes
    && (forall j :: 0 <= j < sb.nInodes ==> |z.nodes[j].addrs| == |y.nodes[j].addrs| == NDIRECT + 1)
    && off <= z.nodes[i].size
    && y.nodes[i] == z.nodes[i].(size := Max(z.nodes[i].size, off + |src|), addrs := y.nodes[i].addrs)
    && Contents(y.view, y.nodes[i]) == Overwrite(Contents(z.view, z.nodes[i]), off, src)
    && (forall j :: 0 <= j < sb.nInodes && j != i ==>
          y.nodes[j] == z.nodes[j] && Contents(y.view, y.nodes[j]) == Contents(z.view, z.nodes[j]))
    && |y.owner.Keys| == |z.owner.Keys| + MoreSlots(SlotCount(z.nodes[i].size), off, off + |src|)
  }

  ghost predicate Settles(sb: SuperBlock, y: Snapshot) {
    Owned(sb, y.view, y.nodes, y.used, y.owner, {}) && AllStored(sb, y.view, y.nodes, y.used)
  }

  /** writei within the file: no block and no inode changed. */
  lemma FinishSame(sb: SuperBlock, i: nat, z: Snapshot, y: Snapshot, off: nat, src: seq<Byte>)
    requires Settles(sb, z) && Owned(sb, y.view, y.nodes, y.used, y.owner, {}) && WroteFrom(sb, i, z, y, off, src)
    requires off <= z.nodes[i].size && (src == [] || off + |src| <= z.nodes[i].size)
    ensures Settles(sb, y) && y.nodes == z.nodes && y.used == z.used && FileWritten(sb, i, z, y, off, src)
  {
    OwnedBasics(sb, z.view, z.nodes, z.used, z.owner, {});
    assert Stored(sb, z.view, z.nodes, z.used, i);
    SizeBound(z.nodes[i].size);
    SlotCountMono(off + |src|, Max(off + |src|, z.nodes[i].size));
    assert y.used[i] == z.used[i];
    assert y.used == z.used;
    PatchedContents(z.view, z.nodes[i], z.used[i], y.view, y.nodes[i], off, src);
    forall j | 0 <= j < sb.nInodes && j != i ensures Contents(y.view, y.nodes[j]) == Contents(z.view, z.nodes[j]) {
      OthersKept(sb, i, z.view, z.nodes, z.used, z.owner, y.view, y.nodes, y.used, y.owner, y.view, j);
    }
    forall j | 0 <= j < sb.nInodes ensures Stored(sb, y.view, y.nodes, y.used, j) {
      assert Stored(sb, z.view, z.nodes, z.used, j);
    }
  }

  /** The state after writei has set the new size and called iupdate. */
  ghost function Resized(sb: SuperBlock, i: nat, y: Snapshot, size: nat): (x: Snapshot)
    requires Geometry(sb, |y.view|) && i < sb.nInodes && i < |y.nodes| && Storable(y.nodes[i].(size := size))
  {
    var d := y.nodes[i].(size := size);
    y.(view := WithInode(sb, y.view, i, d), nodes := y.nodes[i := d])
  }

  lemma ResizedStored(sb: SuperBlock, i: nat, z: Snapshot, y: Snapshot, size: nat)
    requires Settles(sb, z) && Owned(sb, y.view, y.nodes, y.used, y.owner, {})
    requires Grows(sb, i, z.view, z.nodes, z.used, z.owner, y.view, y.nodes, y.used, y.owner)
    requires size < U64 && y.used[i] == SlotCount(size) && z.nodes[i].typ != 0
    ensures Geometry(sb, |y.view|) && i < sb.nInodes && i < |y.nodes| && Storable(y.nodes[i].(size := size))
    ensures Settles(sb, Resized(sb, i, y, size))
  {
    hide InodeOk, OwnerOk, BitOk, OnDisk, WithInode;
    assert Stored(sb, z.view, z.nodes, z.used, i);
    AddrsFit(sb, y.view, y.nodes, y.used, y.owner, i);
    var d := y.nodes[i].(size := size);
    FieldsKeep(sb, y.view, y.nodes, y.used, y.owner, {}, i, d);
    UpdateKeeps(sb, y.view, y.nodes[i := d], y.used, y.owner, i, d);
    var x := Resized(sb, i, y, size);
    forall j | 0 <= j < sb.nInodes ensures Stored(sb, x.view, x.nodes, x.used, j) {
      assert Stored(sb, z.view, z.nodes, z.used, j);
    }
  }

  lemma SizeKept(sb: SuperBlock, i: nat, z: Snapshot, y: Snapshot, off: nat, src: seq<Byte>)
    requires WroteFrom(sb, i, z, y, off, src)
    ensures i < |y.nodes| == |z.nodes| && y.nodes[i].size == z.nodes[i].size
  {
  }

  /** writei beyond the end of the file. */
  lemma FinishGrow(sb: SuperBlock, i: nat, z: Snapshot, y: Snapshot, off: nat, src: seq<Byte>)
    requires Settles(sb, z) && Owned(sb, y.view, y.nodes, y.used, y.owner, {}) && WroteFrom(sb, i, z, y, off, src)
    requires off <= z.nodes[i].size < off + |src| <= MAXFILEBLK * BSIZE && src != [] && z.nodes[i].typ != 0
    ensures Geometry(sb, |y.view|) && i < sb.nInodes && i < |y.nodes| && Storable(y.nodes[i].(size := off + |src|))
    ensures var x := Resized(sb, i, y, off + |src|); Settles(sb, x) && FileWritten(sb, i, z, x, off, src)
  {
    hide InodeOk, OwnerOk, BitOk, OnDisk, WithInode, ByteOf, SlotOf;
    OwnedBasics(sb, z.view, z.nodes, z.used, z.owner, {});
    OwnedBasics(sb, y.view, y.nodes, y.used, y.owner, {});
    assert Stored(sb, z.view, z.nodes, z.used, i);
    SizeBound(z.nodes[i].size);
    SlotCountMono(z.nodes[i].size, off + |src|);
    ResizedStored(sb, i, z, y, off + |src|);
    var d := y.nodes[i].(size := off + |src|);
    var x := Resized(sb, i, y, off + |src|);
    OwnedBasics(sb, x.view, x.nodes, x.used, x.owner, {});
    FieldsKeep(sb, y.view, y.nodes, y.used, y.owner, {}, i, d);
    UpdateKeeps(sb, y.view, y.nodes[i := d], y.used, y.owner, i, d);
    PatchedSize(z.view, z.nodes[i], z.used[i], y.view, y.nodes[i], d, off, src);
    PatchedContents(z.view, z.nodes[i], z.used[i], y.view, d, off, src);
    forall b | b in y.owner && y.owner[b].0 == i && b < |y.view| ensures x.view[b] == y.view[b] {
      OwnerInData(sb, y.view, y.nodes, y.used, y.owner, {}, b);
    }
    ContentsFrame(sb, y.view, x.view, x.nodes, x.used, x.owner, {}, i);
    forall j | 0 <= j < sb.nInodes && j != i ensures Contents(x.view, x.nodes[j]) == Contents(z.view, z.nodes[j]) {
      OthersKept(sb, i, z.view, z.nodes, z.used, z.owner, y.view, y.nodes, y.used, y.owner, x.view, j);
    }
  }

  lemma PatchedSize(v: View, d: Dinode, n: nat, v': View, d1: Dinode, d2: Dinode, off: nat, src: seq<Byte>)
    requires Patched(v, d, n, v', d1, off, src) && d2.addrs == d1.addrs
    ensures Patched(v, d, n, v', d2, off, src)
  {
    forall k | 0 <= k < MAXFILEBLK * BSIZE ensures PatchedAt(v, d, n, v', d2, off, src, k) {
      assert PatchedAt(v, d, n, v', d1, off, src, k);
      assert ByteOf(v', d2, k) == ByteOf(v', d1, k);
    }
  }

  // ---- truncation -----------------------------------------------------------

  /** The blocks named by the slots in r. */
  ghost function BlocksIn(v: View, d: Dinode, r: set<nat>): set<nat>
    requires |d.addrs| == NDIRECT + 1
  {
    set s | s in r && s < NSLOTS :: Ptr(v, d, s)
  }

  ghost function SlotsUpTo(n: nat): (r: set<nat>)
    ensures forall s :: s in r <==> 0 <= s < n
  {
    if n == 0 then {} else SlotsUpTo(n - 1) + {n - 1}
  }

  /** Freeing the block of slot s leaves the blocks of the other slots. */
  lemma OneFreed(sb: SuperBlock, z: Snapshot, i: nat, r: set<nat>, s: nat)
    requires Owned(sb, z.view, z.nodes, z.used, z.owner, {}) && i < |z.nodes|
    requires s in r && forall t :: t in r ==> t < z.used[i]
    ensures |z.nodes[i].addrs| == NDIRECT + 1 && z.used[i] <= NSLOTS
    ensures Ptr(z.view, z.nodes[i], s) in BlocksIn(z.view, z.nodes[i], r)
    ensures BlocksIn(z.view, z.nodes[i], r) - {Ptr(z.view, z.nodes[i], s)} == BlocksIn(z.view, z.nodes[i], r - {s})
  {
    OwnedBasics(sb, z.view, z.nodes, z.used, z.owner, {});
    ZeroIff(sb, z.view, z.nodes, z.used, z.owner, {}, i, s);
    var d := z.nodes[i];
    forall t | t in r && t != s ensures Ptr(z.view, d, t) != Ptr(z.view, d, s) {
      ZeroIff(sb, z.view, z.nodes, z.used, z.owner, {}, i, t);
    }
  }

  /** itrunc, since the snapshot z, has given up inode i's blocks and still has to
    * free those of the slots in r. */
  ghost predicate Truncating(sb: SuperBlock, z: Snapshot, y: Snapshot, i: nat, r: set<nat>) {
    && i < |z.nodes| == |z.used| && |z.nodes[i].addrs| == NDIRECT + 1
    && Owned(sb, z.view, z.nodes, z.used, z.owner, {})
    && (forall t :: t in r ==> t < z.used[i])
    && y.nodes == z.nodes[i := NoAddrs(z.nodes[i])] && y.used == z.used[i := 0] && y.owner == OwnerWithout(z.owner, i)
    && Owned(sb, y.view, y.nodes, y.used, y.owner, BlocksIn(z.view, z.nodes[i], r))
    && |y.view| == |z.view| && (forall b :: DataStart(sb) <= b < |y.view| ==> y.view[b] == z.view[b])
    && (forall j :: 0 <= j < sb.nInodes ==> OnDisk(sb, y.view, j) == OnDisk(sb, z.view, j))
  }

  lemma StartTruncating(sb: SuperBlock, z: Snapshot, i: nat)
    requires Owned(sb, z.view, z.nodes, z.used, z.owner, {}) && i < |z.nodes|
    ensures |z.nodes[i].addrs| == NDIRECT + 1 && z.used[i] <= NSLOTS
    ensures Truncating(sb, z, z.(nodes := z.nodes[i := NoAddrs(z.nodes[i])], used := z.used[i := 0],
                                 owner := OwnerWithout(z.owner, i)), i, SlotsFrom(0, z.used[i]))
  {
    OwnedBasics(sb, z.view, z.nodes, z.used, z.owner, {});
    DetachKeeps(sb, z.view, z.nodes, z.used, z.owner, i);
    assert BlocksOf(z.view, z.nodes[i], z.used[i]) == BlocksIn(z.view, z.nodes[i], SlotsFrom(0, z.used[i]));
  }

  lemma FreeStep(sb: SuperBlock, z: Snapshot, y: Snapshot, i: nat, r: set<nat>, s: nat)
    requires Truncating(sb, z, y, i, r) && s in r && s < NSLOTS
    ensures var b := Ptr(z.view, z.nodes[i], s);
            && Geometry(sb, |y.view|) && DataStart(sb) <= b < sb.size && InUse(sb, y.view, b)
            && Truncating(sb, z, y.(view := WithInUse(sb, y.view, b, false)), i, r - {s})
  {
    hide InodeOk, OwnerOk, BitOk, OnDisk, InUse;
    var b := Ptr(z.view, z.nodes[i], s);
    OneFreed(sb, z, i, r, s);
    FreeKeeps(sb, y.view, y.nodes, y.used, y.owner, BlocksIn(z.view, z.nodes[i], r), b);
  }

  lemma TruncatingBasics(sb: SuperBlock, z: Snapshot, y: Snapshot, i: nat, r: set<nat>)
    requires Truncating(sb, z, y, i, r)
    ensures Owned(sb, z.view, z.nodes, z.used, z.owner, {}) && i < |z.nodes| == |z.used| == sb.nInodes
    ensures |z.nodes[i].addrs| == NDIRECT + 1 && z.used[i] <= NSLOTS && Geometry(sb, |z.view|) && |y.view| == |z.view|
  {
    OwnedBasics(sb, z.view, z.nodes, z.used, z.owner, {});
  }

  /** The slots from k up to n. */
  ghost function SlotsFrom(k: nat, n: nat): (r: set<nat>) { SlotsUpTo(n) - SlotsUpTo(k) }

  lemma NextSlot(k: nat, n: nat)
    ensures if k < n then k in SlotsFrom(k, n) && SlotsFrom(k, n) - {k} == SlotsFrom(k + 1, n)
            else SlotsFrom(k, n) == SlotsFrom(k + 1, n) == {}
  {
  }

  lemma NextEntry(k: nat, n: nat)
    requires INDIRECT < k
    ensures var r := {INDIRECT} + SlotsFrom(k, n);
            if k < n then k in r && r - {k} == {INDIRECT} + SlotsFrom(k + 1, n)
            else r == {INDIRECT} + SlotsFrom(k + 1, n) == {INDIRECT}
    ensures INDIRECT < n ==> SlotsFrom(INDIRECT, n) == {INDIRECT} + SlotsFrom(INDIRECT + 1, n)
  {
    NextSlot(k, n);
    NextSlot(INDIRECT, n);
  }

  /** The indirect block keeps its contents while blocks are being freed. */
  lemma TruncatingData(sb: SuperBlock, z: Snapshot, y: Snapshot, i: nat, r: set<nat>)
    requires Truncating(sb, z, y, i, r) && z.used[i] > INDIRECT
    ensures |z.nodes[i].addrs| == NDIRECT + 1
    ensures var x := z.nodes[i].addrs[INDIRECT];
            0 < DataStart(sb) <= x < |y.view| == |z.view| && y.view[x] == z.view[x]
  {
    ZeroIff(sb, z.view, z.nodes, z.used, z.owner, {}, i, INDIRECT);
  }

  lemma Truncated(sb: SuperBlock, z: Snapshot, y: Snapshot, i: nat)
    requires Truncating(sb, z, y, i, {})
    ensures Owned(sb, y.view, y.nodes, y.used, y.owner, {})
    ensures Geometry(sb, |y.view|) && |y.view| == |z.view|
    ensures forall b :: DataStart(sb) <= b < |y.view| ==> y.view[b] == z.view[b]
    ensures forall j :: 0 <= j < sb.nInodes ==> OnDisk(sb, y.view, j) == OnDisk(sb, z.view, j)
  {
    assert BlocksIn(z.view, z.nodes[i], {}) == {};
  }

  lemma EntryPtr(v: View, d: Dinode, j: nat)
    requires |d.addrs| == NDIRECT + 1 && 0 < d.addrs[INDIRECT] < |v| && j < NINDIRECT
    ensures Ptr(v, d, INDIRECT + 1 + j) == PtrAt(v[d.addrs[INDIRECT]], j)
  {
  }

  lemma StorableNone(d: Dinode)
    requires Storable(d)
    ensures Storable(NoAddrs(d)) && Storable(NoAddrs(d).(typ := 0))
  {
  }

  lemma OnDiskIs(sb: SuperBlock, view: View, i: nat)
    requires Geometry(sb, |view|) && i < sb.nInodes
    ensures IBlock(sb, i) < |view| && OnDisk(sb, view, i) == DinodeAt(view[IBlock(sb, i)], i % IPB)
  {
  }

  function Freed(d: Dinode): Dinode { NoAddrs(d).(typ := 0) }

  lemma FreedStorable(d: Dinode)
    requires Storable(d)
    ensures Storable(Freed(d)) && Freed(d) == NoAddrs(d).(typ := 0) && Freed(d).size == 0
  {
  }

  lemma StoredBasics(sb: SuperBlock, v: View, ns: seq<Dinode>, us: seq<nat>, i: nat)
    requires AllStored(sb, v, ns, us) && i < sb.nInodes
    ensures i < |ns| && Storable(ns[i])
  {
    assert Stored(sb, v, ns, us, i);
  }

  /** From z to y, inode i was freed: it lost exactly its own blocks, and no other file changed. */
  ghost predicate InodeFreed(sb: SuperBlock, i: nat, z: Snapshot, y: Snapshot) {
    && |y.nodes| == |z.nodes| == |z.used| == sb.nInodes && i < sb.nInodes
    && y.nodes == z.nodes[i := Freed(z.nodes[i])] && y.used == z.used[i := 0]
    && y.owner == OwnerWithout(z.owner, i)
    && (forall j :: 0 <= j < sb.nInodes && j != i ==>
          |z.nodes[j].addrs| == NDIRECT + 1 && Contents(y.view, z.nodes[j]) == Contents(z.view, z.nodes[j]))
  }

  lemma FreedStored(sb: SuperBlock, i: nat, z: Snapshot, y: Snapshot)
    requires Settles(sb, z) && i < sb.nInodes && Owned(sb, y.view, y.nodes, y.used, y.owner, {})
    requires y.nodes == z.nodes[i := Freed(z.nodes[i])] && y.used == z.used[i := 0]
    requires y.owner == OwnerWithout(z.owner, i)
    requires |y.view| == |z.view| && forall b :: DataStart(sb) <= b < |y.view| ==> y.view[b] == z.view[b]
    requires forall j :: 0 <= j < sb.nInodes ==>
               OnDisk(sb, y.view, j) == if j == i then Freed(z.nodes[i]) else OnDisk(sb, z.view, j)
    ensures Settles(sb, y) && InodeFreed(sb, i, z, y)
  {
    hide InodeOk, OwnerOk, BitOk, OnDisk, ByteOf, SlotOf;
    OwnedBasics(sb, z.view, z.nodes, z.used, z.owner, {});
    forall j | 0 <= j < sb.nInodes ensures Stored(sb, y.view, y.nodes, y.used, j) {
      assert Stored(sb, z.view, z.nodes, z.used, j);
      FreedStorable(z.nodes[j]);
    }
    forall j | 0 <= j < sb.nInodes && j != i ensures Contents(y.view, z.nodes[j]) == Contents(z.view, z.nodes[j]) {
      assert Stored(sb, z.view, z.nodes, z.used, j);
      forall b | b in z.owner && z.owner[b].0 == j && b < |z.view| ensures y.view[b] == z.view[b] {
        OwnerInData(sb, z.view, z.nodes, z.used, z.owner, {}, b);
      }
      ContentsFrame(sb, z.view, y.view, z.nodes, z.used, z.owner, {}, j);
    }
  }

  /** An allocated inode that no directory names is held, and valid, in the cache. */
  ghost predicate OrphansHeld(inodes: seq<Inode>, nodes: seq<Dinode>) {
    forall i :: 0 <= i < |nodes| && nodes[i].typ != 0 && nodes[i].nlink == 0 ==> HeldValid(inodes, i)
  }

  ghost predicate HeldValid(inodes: seq<Inode>, i: nat) {
    exists p :: 0 <= p < |inodes| && inodes[p].ref > 0 && inodes[p].valid && inodes[p].inum == i
  }

  /** The last step of iput keeps the cache consistent and loses no orphan. */
  lemma PutKeeps(sb: SuperBlock, z: Snapshot, y: Snapshot, p: nat)
    requires CacheOk(z.inodes, z.nodes) && Typed(z.inodes) && p < NINODE && z.inodes[p].ref > 0
    requires var e := z.inodes[p];
             if e.valid && e.d.nlink == 0 && e.ref == 1 then
               e.inum < |z.nodes| && y.nodes == z.nodes[e.inum := Freed(z.nodes[e.inum])] &&
               y.inodes == z.inodes[p := e.(ref := 0, valid := false, d := Freed(e.d))]
             else y.nodes == z.nodes && y.inodes == z.inodes[p := e.(ref := e.ref - 1)]
    ensures CacheOk(y.inodes, y.nodes) && Typed(y.inodes)
    ensures OrphansHeld(z.inodes, z.nodes) ==> OrphansHeld(y.inodes, y.nodes)
  {
    hide NoAddrs;
    assert EntryOk(z.inodes[p], z.nodes);
    forall q | 0 <= q < NINODE && y.inodes[q].ref > 0 ensures EntryOk(y.inodes[q], y.nodes) {
      assert EntryOk(z.inodes[q], z.nodes);
      assert q < p || p < q || p == q;
    }
    if OrphansHeld(z.inodes, z.nodes) {
      forall i | 0 <= i < |y.nodes| && y.nodes[i].typ != 0 && y.nodes[i].nlink == 0 ensures HeldValid(y.inodes, i) {
        assert HeldValid(z.inodes, i);
        var q :| 0 <= q < |z.inodes| && z.inodes[q].ref > 0 && z.inodes[q].valid && z.inodes[q].inum == i;
        assert EntryOk(z.inodes[q], z.nodes);
        assert y.inodes[q].ref > 0 && y.inodes[q].valid && y.inodes[q].inum == i;
      }
    }
  }

  lemma StoredOnDisk(sb: SuperBlock, v: View, ns: seq<Dinode>, us: seq<nat>, i: nat)
    requires AllStored(sb, v, ns, us) && i < sb.nInodes && Geometry(sb, |v|)
    ensures i < |ns| && OnDisk(sb, v, i) == ns[i]
  {
    assert Stored(sb, v, ns, us, i);
  }

  /** ialloc writes an empty inode over a free one. */
  lemma FreshStep(sb: SuperBlock, z: Snapshot, i: nat, typ: int)
    requires Settles(sb, z) && i < sb.nInodes && i < |z.nodes| && z.nodes[i].typ == 0 && Short(typ)
    ensures Geometry(sb, |z.view|) && Storable(FreshDinode(typ))
    ensures WithInode(sb, z.view, i, FreshDinode(typ)) ==
            z.view[IBlock(sb, i) := WithDinode(z.view[IBlock(sb, i)], i % IPB, FreshDinode(typ))]
    ensures Settles(sb, z.(view := WithInode(sb, z.view, i, FreshDinode(typ)), nodes := z.nodes[i := FreshDinode(typ)]))
    ensures forall j :: 0 <= j < sb.nInodes && j != i ==>
              |z.nodes[j].addrs| == NDIRECT + 1
              && Contents(WithInode(sb, z.view, i, FreshDinode(typ)), z.nodes[j]) == Contents(z.view, z.nodes[j])
  {
    hide InodeOk, OwnerOk, BitOk, OnDisk, ByteOf, SlotOf, Ptr;
    OwnedBasics(sb, z.view, z.nodes, z.used, z.owner, {});
    assert Stored(sb, z.view, z.nodes, z.used, i);
    var d := FreshDinode(typ);
    forall k | 0 <= k <= NDIRECT ensures z.nodes[i].addrs[k] == 0 {
      TopPtr(z.view, z.nodes[i], k);
      ZeroIff(sb, z.view, z.nodes, z.used, z.owner, {}, i, k);
    }
    assert d.addrs == z.nodes[i].addrs;
    FieldsKeep(sb, z.view, z.nodes, z.used, z.owner, {}, i, d);
    UpdateKeeps(sb, z.view, z.nodes[i := d], z.used, z.owner, i, d);
    var y := z.(view := WithInode(sb, z.view, i, d), nodes := z.nodes[i := d]);
    forall j | 0 <= j < sb.nInodes ensures Stored(sb, y.view, y.nodes, y.used, j) {
      assert Stored(sb, z.view, z.nodes, z.used, j);
    }
    forall j | 0 <= j < sb.nInodes && j != i ensures Contents(y.view, z.nodes[j]) == Contents(z.view, z.nodes[j]) {
      assert Stored(sb, z.view, z.nodes, z.used, j);
      forall b | b in z.owner && z.owner[b].0 == j && b < |z.view| ensures y.view[b] == z.view[b] {
        OwnerInData(sb, z.view, z.nodes, z.used, z.owner, {}, b);
      }
      ContentsFrame(sb, z.view, y.view, z.nodes, z.used, z.owner, {}, j);
    }
  }

  /** No valid cache entry can show a free inode. */
  lemma FreshEntry(inodes: seq<Inode>, nodes: seq<Dinode>, i: nat, typ: int)
    requires CacheOk(inodes, nodes) && Typed(inodes) && i < |nodes| && nodes[i].typ == 0
    ensures CacheOk(inodes, nodes[i := FreshDinode(typ)])
  {
    forall q | 0 <= q < NINODE && inodes[q].ref > 0 ensures EntryOk(inodes[q], nodes[i := FreshDinode(typ)]) {
      assert EntryOk(inodes[q], nodes);
    }
  }
}
