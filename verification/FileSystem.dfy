/** The block and inode layers of kernel/fs.c, running on the buffer cache. Each
  * call is one step. At most two buffers are held at any time, so the cache never
  * runs out, and no call sleeps for a buffer it holds itself. */
module FileSystem {
  import opened Common
  import opened Bytes
  import opened BufferCache
  import opened DiskLayout
  import opened FileData

  class Fs {
    const cache: Cache
    const sb: SuperBlock
    var inodes: seq<Inode>
    ghost var nodes: seq<Dinode>    // every inode, as the kernel sees it
    ghost var used: seq<nat>        // slots in use by each inode
    ghost var owner: Owner

    ghost predicate Valid()
      reads this, cache
    {
      && cache.Valid() && cache.OnlyHeld({})
      && Owned(sb, cache.view, nodes, used, owner, {})
      && CacheOk(inodes, nodes) && Typed(inodes)
      && AllStored(sb, cache.view, nodes, used)
    }

    /** fs_init on a cache over a well-formed image. */
    constructor (cache: Cache, sb: SuperBlock, ghost nodes: seq<Dinode>, ghost used: seq<nat>, ghost owner: Owner)
      requires cache.Valid() && cache.OnlyHeld({})
      requires Owned(sb, cache.view, nodes, used, owner, {})
      requires AllStored(sb, cache.view, nodes, used)
      ensures Valid() && this.cache == cache && this.sb == sb
      ensures this.nodes == nodes && this.used == used && this.owner == owner
      ensures |inodes| == NINODE && forall p :: 0 <= p < NINODE ==> inodes[p].ref == 0 && !inodes[p].locked
    {
      this.cache := cache;
      this.sb := sb;
      this.inodes := seq(NINODE, i => Inode(0, 0, 0, false, false, FreshDinode(0)));
      this.nodes := nodes;
      this.used := used;
      this.owner := owner;
    }

    // ---- buffers -----------------------------------------------------------

    /** bread with at most one other buffer held. */
    method Get(blk: nat, ghost s: set<nat>) returns (b: nat)
      requires cache.Valid() && cache.OnlyHeld(s) && |s| <= 1 && blk < |cache.view|
      requires forall h :: 0 <= h < NBUF && cache.bufs[h].locked ==> cache.bufs[h].blockNo != blk
      modifies cache
      ensures cache.Valid() && cache.view == old(cache.view)
      ensures cache.HeldPlus(b) && cache.OnlyHeld(s + {b})
      ensures var x := cache.bufs[b]; x.valid && x.blockNo == blk && x.data == cache.view[blk]
      ensures Settled(cache.bufs, cache.disk, b)
      ensures forall h :: 0 <= h < NBUF && old(cache.bufs)[h].locked && Settled(old(cache.bufs), old(cache.disk), h) ==>
                Settled(cache.bufs, cache.disk, h)
    {
      hide Coherent, Linked, Permutation, Recency;
      SpareBuffer(s);
      assert cache.SomeUnheld() by {
        assert !cache.bufs[0].locked || !cache.bufs[1].locked;
      }
      var r := cache.Bread(ROOTDEV, blk);
      b := r.value;
    }

    /** bwrite and brelse. */
    method Put(b: nat)
      requires cache.Valid() && b < NBUF && cache.bufs[b].locked && cache.bufs[b].valid
      modifies cache
      ensures cache.Valid() && cache.view == old(cache.view) && cache.disk == old(cache.disk)
      ensures cache.bufs == old(cache.bufs)[b := old(cache.bufs)[b].(dirty := true, locked := false, refCount := 0)]
    {
      hide Coherent, Linked, Permutation, Recency;
      var ok := cache.Bwrite(b);
      ok := cache.Brelse(b);
    }

    /** brelse of a buffer that was only read. */
    method Drop(b: nat)
      requires cache.Valid() && b < NBUF && cache.bufs[b].locked && cache.bufs[b].valid
      requires Settled(cache.bufs, cache.disk, b)
      modifies cache
      ensures cache.Valid() && cache.view == old(cache.view) && cache.disk == old(cache.disk)
      ensures cache.bufs == old(cache.bufs)[b := old(cache.bufs)[b].(locked := false, refCount := 0)]
    {
      hide Coherent, Linked, Permutation, Recency;
      var ok := cache.Brelse(b);
    }

    /** Held buffers are data or indirect blocks in use: never the blocks that the allocator touches. */
    ghost predicate HeldInUse()
      reads this, cache
      requires Geometry(sb, |cache.view|)
    {
      |cache.bufs| == NBUF &&
      forall h :: 0 <= h < NBUF && cache.bufs[h].locked ==>
        var x := cache.bufs[h].blockNo; DataStart(sb) <= x < sb.size && InUse(sb, cache.view, x)
    }

    method Bzero(blk: nat, ghost s: set<nat>)
      requires cache.Valid() && cache.OnlyHeld(s) && |s| <= 1 && blk < |cache.view|
      requires forall h :: 0 <= h < NBUF && cache.bufs[h].locked ==> cache.bufs[h].blockNo != blk
      modifies cache
      ensures cache.Valid() && cache.OnlyHeld(s) && cache.KeepsHeld()
      ensures cache.view == old(cache.view)[blk := ZeroBlock()]
    {
      hide Coherent, Linked, Permutation, Recency;
      var b := Get(blk, s);
      cache.Store(b, ZeroBlock());
      Put(b);
    }

    // ---- the bitmap ----------------------------------------------------------

    /** balloc's inner loop. */
    method FirstClear(data: Block, n: nat) returns (bi: nat)
      requires n <= BPB
      ensures bi <= n && (bi < n ==> !BitAt(data, bi))
      ensures forall x :: 0 <= x < bi ==> BitAt(data, x)
    {
      hide BitAt;
      bi := 0;
      while bi < n && BitAt(data, bi)
        invariant bi <= n
        invariant forall x :: 0 <= x < bi ==> BitAt(data, x)
      {
        bi := bi + 1;
      }
    }

    /** balloc once it found block x free, with its bitmap block in bp. */
    method Claim(bp: nat, x: nat, ghost s: set<nat>)
      requires cache.Valid() && Geometry(sb, |cache.view|) && |s| <= 1 && cache.OnlyHeld(s + {bp})
      requires x < sb.size
      requires bp < NBUF && cache.bufs[bp].locked && cache.bufs[bp].valid
      requires cache.bufs[bp].blockNo == BBlock(sb, x) && cache.bufs[bp].data == cache.view[BBlock(sb, x)]
      requires forall h :: 0 <= h < NBUF && h != bp && cache.bufs[h].locked ==> cache.bufs[h].blockNo != x
      modifies cache
      ensures cache.Valid() && cache.OnlyHeld(s) && cache.view == Allocated(sb, old(cache.view), x)
      ensures !cache.bufs[bp].locked
      ensures forall h :: 0 <= h < NBUF && h != bp ==>
                cache.bufs[h].locked == old(cache.bufs)[h].locked &&
                (cache.bufs[h].locked ==> cache.bufs[h] == old(cache.bufs)[h]) &&
                (cache.bufs[h].locked && Settled(old(cache.bufs), old(cache.disk), h) ==>
                   Settled(cache.bufs, cache.disk, h))
    {
      hide Coherent, Linked, Permutation, Recency, BitAt, WithBit;
      cache.Store(bp, WithBit(cache.bufs[bp].data, x % BPB, true));
      Put(bp);
      assert cache.view == WithInUse(sb, old(cache.view), x, true);
      Bzero(x, s);
    }

    /** One turn of balloc's outer loop: the bitmap block for blocks b and up. */
    method ScanBlock(b: nat, ghost s: set<nat>) returns (x: nat)
      requires cache.Valid() && Geometry(sb, |cache.view|) && cache.OnlyHeld(s) && |s| <= 1 && HeldInUse()
      requires b % BPB == 0 && b < sb.size
      modifies cache
      ensures cache.Valid() && cache.OnlyHeld(s) && cache.KeepsHeld() && x >= b
      ensures forall y :: b <= y < x && y < sb.size && y < b + BPB ==> InUse(sb, old(cache.view), y)
      ensures if x < b + BPB && x < sb.size
              then !InUse(sb, old(cache.view), x) && cache.view == Allocated(sb, old(cache.view), x)
              else cache.view == old(cache.view)
    {
      hide Coherent, Linked, Permutation, Recency, BitAt, WithBit, InUse, BBlock, Allocated;
      BitsOfBlock(sb, cache.view, b);
      var bp := Get(BBlock(sb, b), s);
      var bi := FirstClear(cache.bufs[bp].data, if sb.size - b < BPB then sb.size - b else BPB);
      x := b + bi;
      if bi < BPB && b + bi < sb.size {
        assert !InUse(sb, cache.view, b + bi);
        Claim(bp, b + bi, s);
      } else {
        Drop(bp);
      }
    }

    /** balloc: the first free block, marked in use and zeroed; a panic if there is none. */
    method Balloc(ghost s: set<nat>) returns (r: Outcome<nat>)
      requires cache.Valid() && Geometry(sb, |cache.view|) && cache.OnlyHeld(s) && |s| <= 1 && HeldInUse()
      modifies cache
      ensures r.Panic? <==> forall x :: 0 <= x < sb.size ==> InUse(sb, old(cache.view), x)
      ensures !r.Blocked?
      ensures r.Ok? ==> cache.Valid() && cache.OnlyHeld(s) && cache.KeepsHeld()
      ensures r.Ok? ==> r.value < sb.size && !InUse(sb, old(cache.view), r.value)
                        && cache.view == Allocated(sb, old(cache.view), r.value)
      ensures r.Ok? ==> forall x :: 0 <= x < r.value ==> InUse(sb, old(cache.view), x)
    {
      hide Coherent, Linked, Permutation, Recency, Settled, InUse, Allocated, Geometry;
      var b := 0;
      while b < sb.size
        invariant b % BPB == 0
        invariant cache.Valid() && cache.OnlyHeld(s) && cache.KeepsHeld() && cache.view == old(cache.view)
        invariant forall x :: 0 <= x < sb.size && x < b ==> InUse(sb, cache.view, x)
      {
        var x := ScanBlock(b, s);
        if x < b + BPB && x < sb.size { return Ok(x); }
        b := b + BPB;
      }
      r := Panic;
    }

    /** bfree: a panic if the block is not in use. */
    method Bfree(blk: nat, ghost s: set<nat>) returns (r: Outcome<()>)
      requires cache.Valid() && Geometry(sb, |cache.view|) && cache.OnlyHeld(s) && |s| <= 1
      requires forall h :: 0 <= h < NBUF && cache.bufs[h].locked ==> cache.bufs[h].blockNo >= sb.inodeStart
      requires blk < sb.size
      modifies cache
      ensures r == if InUse(sb, old(cache.view), blk) then Ok(()) else Panic
      ensures r.Ok? ==> cache.Valid() && cache.OnlyHeld(s) && cache.KeepsHeld()
                        && cache.view == WithInUse(sb, old(cache.view), blk, false)
    {
      hide Coherent, Linked, Permutation, Recency, BitAt, WithBit;
      var bp := Get(BBlock(sb, blk), s);
      var bi := blk % BPB;
      if !BitAt(cache.bufs[bp].data, bi) { return Panic; }
      cache.Store(bp, WithBit(cache.bufs[bp].data, bi, false));
      Put(bp);
      r := Ok(());
    }

    // ---- the block map -------------------------------------------------------

    /** The invariant while the inode in cache entry p is being changed: its copy on disk may lag. */
    ghost predicate Working(p: nat)
      reads this, cache
    {
      && cache.Valid() && cache.OnlyHeld({})
      && Owned(sb, cache.view, nodes, used, owner, {})
      && CacheOk(inodes, nodes)
      && p < NINODE == |inodes| && inodes[p].ref > 0 && inodes[p].valid
      && inodes[p].inum < |nodes| == |used| == sb.nInodes && inodes[p].d == nodes[inodes[p].inum]
    }

    twostate predicate Grew(i: nat)
      reads this, cache
    {
      Grows(sb, i, old(cache.view), old(nodes), old(used), old(owner), cache.view, nodes, used, owner)
    }

    /** ip->addrs[s] = balloc(...) for the next slot s, direct or indirect. */
    method AllocTop(p: nat, s: nat) returns (r: Outcome<nat>)
      requires Working(p) && s == used[inodes[p].inum] <= INDIRECT
      modifies this, cache
      ensures !r.Blocked? && (r.Panic? <==> old(|owner.Keys|) == Capacity(sb))
      ensures r.Ok? ==> Working(p) && Grew(old(inodes)[p].inum) && inodes[p].inum == old(inodes)[p].inum
      ensures r.Ok? ==> used == old(used)[inodes[p].inum := s + 1]
      ensures r.Ok? ==> inodes[p].d == WithAddr(old(inodes)[p].d, s, r.value)
      ensures r.Ok? ==> SameData(inodes[p].inum, old(cache.view), old(owner), cache.view)
      ensures r.Ok? ==> inodes == old(inodes)[p := old(inodes)[p].(d := nodes[inodes[p].inum])]
    {
      hide Coherent, Linked, Permutation, Recency, InUse, Owned, Grows, SameData, Allocated, CacheOk;
      ghost var i := inodes[p].inum;
      CacheEntry(inodes, nodes, p);
      OwnedBasics(sb, cache.view, nodes, used, owner, {});
      FullIff(sb, cache.view, nodes, used, owner);
      r := Balloc({});
      if !r.Ok? { return; }
      var b := r.value;
      TopStep(sb, i, old(cache.view), nodes, used, owner, b);
      CacheUpdate(inodes, nodes, p, WithAddr(inodes[p].d, s, b));
      inodes := inodes[p := inodes[p].(d := WithAddr(inodes[p].d, s, b))];
      nodes := nodes[i := WithAddr(nodes[i], s, b)];
      used := used[i := s + 1];
      owner := owner[b := (i, s)];
    }

    /** The inode in entry p has an indirect block, held in buffer bp. */
    ghost predicate HoldsIndirect(p: nat, bp: nat)
      reads this, cache
    {
      && cache.Valid() && cache.OnlyHeld({bp})
      && Owned(sb, cache.view, nodes, used, owner, {})
      && p < NINODE == |inodes| && inodes[p].inum < |nodes| == |used| == sb.nInodes
      && bp < NBUF && cache.bufs[bp].locked && cache.bufs[bp].valid
      && |nodes[inodes[p].inum].addrs| == NDIRECT + 1 && INDIRECT < used[inodes[p].inum]
      && var x := nodes[inodes[p].inum].addrs[INDIRECT];
         x < |cache.view| && cache.bufs[bp].blockNo == x && cache.bufs[bp].data == cache.view[x]
    }

    /** a[bn] = balloc(...) in the indirect block, followed by bwrite and brelse. */
    method NewEntry(p: nat, bp: nat, bn: nat) returns (r: Outcome<nat>)
      requires HoldsIndirect(p, bp) && bn < NINDIRECT && used[inodes[p].inum] == INDIRECT + 1 + bn
      modifies cache, this`used, this`owner
      ensures !r.Blocked? && (r.Panic? <==> old(|owner.Keys|) == Capacity(sb))
      ensures r.Ok? ==> cache.Valid() && cache.OnlyHeld({}) && Owned(sb, cache.view, nodes, used, owner, {})
      ensures r.Ok? ==> Grew(inodes[p].inum) && SameData(inodes[p].inum, old(cache.view), old(owner), cache.view)
      ensures r.Ok? ==> used == old(used)[inodes[p].inum := INDIRECT + 2 + bn]
      ensures r.Ok? ==> r.value == Ptr(cache.view, nodes[inodes[p].inum], INDIRECT + 1 + bn)
    {
      hide Coherent, Linked, Permutation, Recency, InUse, Owned, Grows, SameData, Allocated, PtrAt, WithPtr, Ptr;
      ghost var i := inodes[p].inum;
      ghost var v := cache.view;
      IndirectOwned(sb, v, nodes, used, owner, {}, i);
      OwnerInData(sb, v, nodes, used, owner, {}, nodes[i].addrs[INDIRECT]);
      OwnedBasics(sb, v, nodes, used, owner, {});
      FullIff(sb, v, nodes, used, owner);
      r := Balloc({bp});
      if !r.Ok? { return; }
      var addr := r.value;
      EntryStep(sb, i, v, nodes, used, owner, addr);
      ghost var v1 := cache.view;
      cache.Store(bp, WithPtr(cache.bufs[bp].data, bn, addr));
      assert cache.view == WithEntry(v1, nodes[i], INDIRECT + 1 + bn, addr);
      Put(bp);
      EntryPtrs(v1, nodes[i], INDIRECT + 1 + bn, addr, INDIRECT + 1 + bn);
      owner := owner[addr := (i, used[i])];
      used := used[i := used[i] + 1];
    }

    /** bmap's second half: entry bn of the indirect block, which exists. */
    method MapEntry(p: nat, bn: nat) returns (r: Outcome<nat>)
      requires Working(p) && bn < NINDIRECT
      requires INDIRECT < used[inodes[p].inum] && INDIRECT + 1 + bn <= used[inodes[p].inum]
      modifies cache, this`used, this`owner
      ensures var n := old(used[inodes[p].inum]);
              !r.Blocked? && (r.Panic? <==> n == INDIRECT + 1 + bn && old(|owner.Keys|) == Capacity(sb))
      ensures r.Ok? ==> Working(p) && Grew(inodes[p].inum)
      ensures r.Ok? ==> var i, s := inodes[p].inum, INDIRECT + 1 + bn;
                        used == old(used)[i := if old(used)[i] > s then old(used)[i] else s + 1] &&
                        |nodes[i].addrs| == NDIRECT + 1 && r.value == Ptr(cache.view, nodes[i], s)
      ensures r.Ok? ==> SameData(inodes[p].inum, old(cache.view), old(owner), cache.view)
      ensures r.Ok? && INDIRECT + 1 + bn < old(used[inodes[p].inum]) ==>
                cache.view == old(cache.view) && used == old(used) && owner == old(owner)
    {
      hide Coherent, Linked, Permutation, Recency, InUse, Owned, Grows, SameData, CacheOk, PtrAt;
      ghost var i := inodes[p].inum;
      ghost var v := cache.view;
      OwnedBasics(sb, v, nodes, used, owner, {});
      ZeroIff(sb, v, nodes, used, owner, {}, i, INDIRECT);
      ZeroIff(sb, v, nodes, used, owner, {}, i, INDIRECT + 1 + bn);
      var bp := Get(inodes[p].d.addrs[INDIRECT], {});
      var addr := PtrAt(cache.bufs[bp].data, bn);
      if addr == 0 {
        r := NewEntry(p, bp, bn);
      } else {
        GrowsNot(sb, i, v, nodes, used, owner);
        Drop(bp);
        r := Ok(addr);
      }
    }

    /** bmap's branch for the indirect block. */
    method MapIndirect(p: nat, bn: nat) returns (r: Outcome<nat>)
      requires Working(p) && bn < NINDIRECT && NDIRECT + bn <= NextBlock(used[inodes[p].inum])
      modifies this, cache
      ensures MapsBlock(p, NDIRECT + bn, r)
    {
      hide Coherent, Linked, Permutation, Recency, InUse, Owned, Grows, SameData, CacheOk, Ptr;
      ghost var i := inodes[p].inum;
      ghost var v, ns, us, ow := cache.view, nodes, used, owner;
      OwnedBasics(sb, v, nodes, used, owner, {});
      FullIff(sb, v, nodes, used, owner);
      GrowsNot(sb, i, v, nodes, used, owner);
      TopPtr(v, nodes[i], INDIRECT);
      ZeroIff(sb, v, nodes, used, owner, {}, i, INDIRECT);
      var addr := inodes[p].d.addrs[INDIRECT];
      if addr == 0 {
        r := AllocTop(p, INDIRECT);
        if !r.Ok? { return; }
        OneMore(sb, i, v, ns, us, ow, cache.view, nodes, used, owner);
        FullIff(sb, cache.view, nodes, used, owner);
      }
      ghost var v1, ns1, us1, ow1 := cache.view, nodes, used, owner;
      r := MapEntry(p, bn);
      if r.Ok? { GrowsTwice(sb, i, v, ns, us, ow, v1, ns1, us1, ow1, cache.view, nodes, used, owner); }
    }

    /** What bmap promises for file block bn of the inode in entry p. */
    twostate predicate MapsBlock(p: nat, bn: nat, new r: Outcome<nat>)
      reads this, cache
    {
      && p < |old(inodes)| && old(inodes)[p].inum < |old(used)|
      && sb.nInodes > 0 && bn < MAXFILEBLK && !r.Blocked?
      && var i, s := old(inodes)[p].inum, SlotOf(bn);
      && var n := old(used)[i];
      && (r.Panic? <==> s >= n && old(|owner.Keys|) + s + 1 - n > Capacity(sb))
      && (r.Ok? ==>
            && Working(p) && Grew(i) && SameData(i, old(cache.view), old(owner), cache.view)
            && inodes == old(inodes)[p := old(inodes)[p].(d := inodes[p].d)]
            && used[i] == (if n > s then n else s + 1)
            && |nodes[i].addrs| == NDIRECT + 1 && r.value == Ptr(cache.view, nodes[i], s))
      && (r.Ok? && s < n ==>
            cache.view == old(cache.view) && nodes == old(nodes) && used == old(used) && owner == old(owner))
    }

    /** bmap: the disk block of file block bn, allocated if it is the next one. It
      * panics for a block beyond the largest file, and when the disk is full. */
    method Bmap(p: nat, bn: nat) returns (r: Outcome<nat>)
      requires Working(p) && (bn < MAXFILEBLK ==> bn <= NextBlock(used[inodes[p].inum]))
      modifies this, cache
      ensures if bn < MAXFILEBLK then MapsBlock(p, bn, r) else r.Panic?
    {
      hide Coherent, Linked, Permutation, Recency, InUse, Owned, Grows, SameData, CacheOk, Ptr;
      if bn < NDIRECT {
        ghost var i := inodes[p].inum;
        OwnedBasics(sb, cache.view, nodes, used, owner, {});
        FullIff(sb, cache.view, nodes, used, owner);
        GrowsNot(sb, i, cache.view, nodes, used, owner);
        TopPtr(cache.view, nodes[i], bn);
        ZeroIff(sb, cache.view, nodes, used, owner, {}, i, bn);
        var addr := inodes[p].d.addrs[bn];
        if addr == 0 {
          r := AllocTop(p, bn);
          if r.Ok? { TopPtr(cache.view, nodes[i], bn); }
          return;
        }
        return Ok(addr);
      }
      var bi := bn - NDIRECT;
      if bi < NINDIRECT {
        r := MapIndirect(p, bi);
        return;
      }
      r := Panic;
    }

    // ---- inodes ---------------------------------------------------------------

    /** iupdate: write the cached inode through to disk. */
    method Iupdate(p: nat)
      requires Working(p) && Storable(inodes[p].d)
      modifies cache
      ensures Working(p)
      ensures Geometry(sb, |old(cache.view)|)
      ensures cache.view == WithInode(sb, old(cache.view), inodes[p].inum, inodes[p].d)
    {
      hide Coherent, Linked, Permutation, Recency, Owned, CacheOk, WithDinode;
      ghost var i := inodes[p].inum;
      OwnedBasics(sb, cache.view, nodes, used, owner, {});
      UpdateKeeps(sb, cache.view, nodes, used, owner, i, inodes[p].d);
      var bp := Get(IBlock(sb, inodes[p].inum), {});
      cache.Store(bp, WithDinode(cache.bufs[bp].data, inodes[p].inum % IPB, inodes[p].d));
      Put(bp);
      assert cache.view == WithInode(sb, old(cache.view), i, inodes[p].d);
    }

    /** The inode in entry p is live, valid and stored. */
    ghost predicate Ready(p: nat)
      reads this, cache
    {
      Working(p) && Stored(sb, cache.view, nodes, used, inodes[p].inum)
    }

    lemma ReadyOf(p: nat)
      requires Valid() && p < NINODE && inodes[p].ref > 0 && inodes[p].valid
      ensures Ready(p)
    {
      OwnedBasics(sb, cache.view, nodes, used, owner, {});
      assert EntryOk(inodes[p], nodes);
      assert Stored(sb, cache.view, nodes, used, inodes[p].inum);
    }

    /** One turn of readi's loop. */
    method ReadBlock(p: nat, o: nat, m: nat) returns (bytes: seq<Byte>)
      requires Ready(p) && o + m <= inodes[p].d.size && 0 < m && o % BSIZE + m <= BSIZE
      modifies this, cache
      ensures Ready(p) && cache.view == old(cache.view) && owner == old(owner)
      ensures nodes == old(nodes) && used == old(used) && inodes == old(inodes)
      ensures |inodes[p].d.addrs| == NDIRECT + 1 && bytes == Contents(cache.view, inodes[p].d)[o..o + m]
    {
      hide Coherent, Linked, Permutation, Recency, Owned, Grows, SameData, Ptr, Contents, SlotCount, SlotOf, CacheOk;
      ghost var i := inodes[p].inum;
      PeekBytes(sb, i, cache.view, nodes, used, owner, o, m);
      OwnedBasics(sb, cache.view, nodes, used, owner, {});
      ZeroIff(sb, cache.view, nodes, used, owner, {}, i, SlotOf(o / BSIZE));
      NextCovers(o / BSIZE, used[i]);
      var addr := Bmap(p, o / BSIZE);
      var bp := Get(addr.value, {});
      bytes := cache.bufs[bp].data[o % BSIZE..o % BSIZE + m];
      Drop(bp);
    }

    static lemma NextSlice(all: seq<Byte>, off: nat, o: nat, m: nat)
      requires off <= o && o + m <= |all|
      ensures all[off..o] + all[o..o + m] == all[off..o + m]
    {
    }

    /** readi's loop. */
    method ReadRange(p: nat, off: nat, n: nat) returns (dst: seq<Byte>)
      requires Ready(p) && off + n <= inodes[p].d.size
      modifies this, cache
      ensures Ready(p) && cache.view == old(cache.view) && owner == old(owner)
      ensures nodes == old(nodes) && used == old(used) && inodes == old(inodes)
      ensures |inodes[p].d.addrs| == NDIRECT + 1 && dst == Contents(cache.view, inodes[p].d)[off..off + n]
    {
      hide Coherent, Linked, Permutation, Recency, Owned, CacheOk, Stored, AllStored, Contents;
      OwnedBasics(sb, cache.view, nodes, used, owner, {});
      dst := [];
      ghost var all := Contents(cache.view, inodes[p].d);
      var tot := 0;
      while tot < n
        invariant Ready(p) && cache.view == old(cache.view)
        invariant nodes == old(nodes) && used == old(used) && inodes == old(inodes) && owner == old(owner)
        invariant tot <= n && off + n <= inodes[p].d.size == |all|
        invariant dst == all[off..off + tot]
      {
        var o := off + tot;
        var m := if n - tot < BSIZE - o % BSIZE then n - tot else BSIZE - o % BSIZE;
        var bytes := ReadBlock(p, o, m);
        dst := dst + bytes;
        NextSlice(all, off, o, m);
        tot := tot + m;
      }
    }

    /** readi. `handlers` are the device numbers that have a read routine. */
    method Readi(p: nat, off: nat, n: nat, handlers: set<int>) returns (r: Io, dst: seq<Byte>)
      requires Valid() && p < NINODE && inodes[p].ref > 0 && inodes[p].valid && off < U64 && n < U64
      modifies this, cache
      ensures Valid() && cache.view == old(cache.view) && owner == old(owner)
      ensures nodes == old(nodes) && used == old(used) && inodes == old(inodes)
      ensures ReadSpec(old(cache.view), old(inodes)[p].d, off, n, handlers, r, dst)
    {
      hide Coherent, Linked, Permutation, Recency, Owned, CacheOk, Stored, AllStored, Contents;
      ReadyOf(p);
      OwnedBasics(sb, cache.view, nodes, used, owner, {});
      dst := [];
      if inodes[p].d.typ == T_DEV {
        if inodes[p].d.major < 0 || inodes[p].d.major >= NDEV || inodes[p].d.major !in handlers { return Fail, []; }
        return ToDevice(inodes[p].d.major), [];
      }
      if off > inodes[p].d.size || off + n >= U64 { return Fail, []; }
      var n' := if off + n > inodes[p].d.size then inodes[p].d.size - off else n;
      dst := ReadRange(p, off, n');
      r := Done(n');
    }

    /** The copy into the block at the end of each turn of writei's loop. */
    method CopyIn(p: nat, addr: nat, o: nat, chunk: seq<Byte>)
      requires Working(p) && 0 < |chunk| && o % BSIZE + |chunk| <= BSIZE && o / BSIZE < MAXFILEBLK
      requires SlotOf(o / BSIZE) < used[inodes[p].inum] && |inodes[p].d.addrs| == NDIRECT + 1
      requires addr == Ptr(cache.view, inodes[p].d, SlotOf(o / BSIZE)) < |cache.view|
      modifies cache
      ensures Working(p) && Grew(inodes[p].inum) && cache.view == Poke(old(cache.view), inodes[p].d, o, chunk)
    {
      hide Coherent, Linked, Permutation, Recency, Owned, Grows, Ptr, CacheOk, OnDisk, Splice;
      PokeKeeps(sb, inodes[p].inum, cache.view, nodes, used, owner, o, chunk);
      var bp := Get(addr, {});
      cache.Store(bp, Splice(cache.bufs[bp].data, o % BSIZE, chunk));
      Put(bp);
    }

    /** One turn of writei's loop. */
    method WriteBlock(p: nat, o: nat, chunk: seq<Byte>) returns (ok: bool)
      requires Working(p) && 0 < |chunk| && o % BSIZE + |chunk| <= BSIZE && o / BSIZE < MAXFILEBLK
      requires o / BSIZE <= NextBlock(used[inodes[p].inum])
      modifies this, cache
      ensures var i, s := old(inodes)[p].inum, SlotOf(o / BSIZE);
              var n := old(used)[i];
              !ok <==> s >= n && old(|owner.Keys|) + s + 1 - n > Capacity(sb)
      ensures ok ==> Working(p) && OneBlock(sb, old(inodes)[p].inum, old(Snap()), Snap(), o, chunk)
      ensures ok ==> inodes == old(inodes)[p := old(inodes)[p].(d := inodes[p].d)]
    {
      hide Coherent, Linked, Permutation, Recency, Owned, Grows, SameData, Ptr, CacheOk, Patched, OnDisk, Poke, SlotOf,
           NextBlock;
      ghost var i := inodes[p].inum;
      ghost var v, ns, us, ow := cache.view, nodes, used, owner;
      OwnedBasics(sb, v, nodes, used, owner, {});
      var addr := Bmap(p, o / BSIZE);
      if !addr.Ok? { return false; }
      ghost var v1 := cache.view;
      PokePatches(sb, i, v, ns, us, ow, v1, nodes, used, owner, o, chunk);
      CopyIn(p, addr.value, o, chunk);
      GrowsTwice(sb, i, v, ns, us, ow, v1, nodes, used, owner, cache.view, nodes, used, owner);
      ok := true;
    }

    /** Since the snapshot z, `done` has been written at off of the file in entry p. */
    ghost predicate Written(p: nat, z: Snapshot, off: nat, done: seq<Byte>)
      reads this, cache
    {
      && Working(p) && p < |z.inodes| && sb.nInodes == |z.nodes| == |z.used|
      && var i := z.inodes[p].inum;
      && i < sb.nInodes && inodes == z.inodes[p := z.inodes[p].(d := inodes[p].d)]
      && WroteFrom(sb, i, z, Snap(), off, done)
    }

    /** One more turn of writei's loop. */
    method WriteTurn(p: nat, ghost z: Snapshot, off: nat, src: seq<Byte>, tot: nat, m: nat) returns (ok: bool)
      requires tot + m <= |src| && Written(p, z, off, src[..tot])
      requires z.used[z.inodes[p].inum] == SlotCount(z.nodes[z.inodes[p].inum].size)
      requires off <= z.nodes[z.inodes[p].inum].size
      requires 0 < m && (off + tot) % BSIZE + m <= BSIZE && off + |src| <= MAXFILEBLK * BSIZE
      modifies this, cache
      ensures ok ==> Written(p, z, off, src[..tot + m])
      ensures !ok ==> |z.owner.Keys| + MoreSlots(z.used[z.inodes[p].inum], off, off + |src|) > Capacity(sb)
    {
      hide Coherent, Linked, Permutation, Recency, Owned, Grows, CacheOk, Patched, OneBlock, SlotCount, SlotOf,
           NextBlock, MoreSlots;
      ghost var i := z.inodes[p].inum;
      ghost var y := Snap();
      OneMore(sb, i, z.view, z.nodes, z.used, z.owner, y.view, y.nodes, y.used, y.owner);
      WriteOffsets(off, tot, m, |src|, z.nodes[i].size, z.used[i], used[i]);
      ok := WriteBlock(p, off + tot, src[tot..tot + m]);
      if !ok { return; }
      WroteMore(sb, i, z, y, Snap(), off, src[..tot], src[tot..tot + m], |src|);
      assert src[..tot] + src[tot..tot + m] == src[..tot + m];
    }

    /** The abstract state without the inode cache. */
    ghost function Bare(): Snapshot
      reads this, cache
    {
      Snapshot([], cache.view, nodes, used, owner)
    }

    ghost function Snap(): Snapshot
      reads this, cache
    {
      Snapshot(inodes, cache.view, nodes, used, owner)
    }

    lemma NothingWritten(p: nat, off: nat)
      requires Working(p)
      ensures Written(p, Snap(), off, [])
    {
      var i := inodes[p].inum;
      OwnedBasics(sb, cache.view, nodes, used, owner, {});
      GrowsNot(sb, i, cache.view, nodes, used, owner);
      PatchedNot(cache.view, nodes[i], used[i], off);
      FullIff(sb, cache.view, nodes, used, owner);
    }

    /** writei's loop: src is written from off on, block by block. */
    method WriteAll(p: nat, off: nat, src: seq<Byte>) returns (ok: bool)
      requires Ready(p) && off <= inodes[p].d.size && off + |src| <= MAXFILEBLK * BSIZE
      modifies this, cache
      ensures ok <==> old(|owner.Keys|) + MoreSlots(old(used[inodes[p].inum]), off, off + |src|) <= Capacity(sb)
      ensures ok ==> Written(p, old(Snap()), off, src)
    {
      hide Working, Grows, Patched, SlotCount, MoreSlots, Stored;
      ghost var z := Snap();
      WorkingEntry(p);
      ghost var i := inodes[p].inum;
      StoredSlots(sb, cache.view, nodes, used, i);
      NothingWritten(p, off);
      var tot := 0;
      assert src[..0] == [];
      while tot < |src|
        invariant tot <= |src|
        invariant Written(p, z, off, src[..tot])
      {
        var o := off + tot;
        var m := if |src| - tot < BSIZE - o % BSIZE then |src| - tot else BSIZE - o % BSIZE;
        ok := WriteTurn(p, z, off, src, tot, m);
        if !ok { return; }
        tot := tot + m;
      }
      assert src[..tot] == src;
      ok := true;
    }

    lemma WorkingEntry(p: nat)
      requires Working(p)
      ensures p < |inodes| && inodes[p].inum < |nodes| && inodes[p].d == nodes[inodes[p].inum]
    {
    }

    /** writei. `handlers` are the device numbers that have a write routine. */
    method Writei(p: nat, src: seq<Byte>, off: nat, handlers: set<int>) returns (r: Io)
      requires Valid() && p < NINODE && inodes[p].ref > 0 && inodes[p].valid && off < U64 && |src| < U64
      modifies this, cache
      ensures var d := old(inodes)[p].d;
        var refused := off > d.size || off + |src| >= U64 || off + |src| > MAXFILEBLK * BSIZE;
        if d.typ == T_DEV then
          && r == (if 0 <= d.major < NDEV && d.major in handlers then ToDevice(d.major) else Fail)
          && Snap() == old(Snap()) && Valid()
        else if refused then
          r == Fail && Snap() == old(Snap()) && Valid()
        else if old(|owner.Keys|) + MoreSlots(SlotCount(d.size), off, off + |src|) > Capacity(sb) then
          r == Panicked
        else
          r == Done(|src|) && Valid() && FileWritten(sb, old(inodes)[p].inum, old(Snap()), Snap(), off, src)
          && inodes == old(inodes)[p := old(inodes)[p].(d := inodes[p].d)]
    {
      hide Coherent, Linked, Permutation, Recency, Owned, Grows, CacheOk, Stored, AllStored, WroteFrom, Contents,
           Overwrite, SlotCount, MoreSlots, OnDisk, WithInode;
      ReadyOf(p);
      if inodes[p].d.typ == T_DEV {
        if inodes[p].d.major < 0 || inodes[p].d.major >= NDEV || inodes[p].d.major !in handlers { return Fail; }
        return ToDevice(inodes[p].d.major);
      }
      if off > inodes[p].d.size || off + |src| >= U64 { return Fail; }
      if off + |src| > MAXFILEBLK * BSIZE { return Fail; }
      ghost var z := Snap();
      ghost var i := inodes[p].inum;
      StoredSlots(sb, cache.view, nodes, used, i);
      var ok := WriteAll(p, off, src);
      if !ok { return Panicked; }
      SizeKept(sb, i, z, Snap(), off, src);
      if |src| > 0 && off + |src| > inodes[p].d.size {
        FinishGrow(sb, i, z, Snap(), off, src);
        CacheUpdate(inodes, nodes, p, inodes[p].d.(size := off + |src|));
        SetFields(p, inodes[p].d.(size := off + |src|));
        Iupdate(p);
      } else {
        FinishSame(sb, i, z, Snap(), off, src);
      }
      r := Done(|src|);
    }

    /** Assignments to the fields of a cached inode, other than its block pointers. */
    method SetFields(p: nat, d: Dinode)
      requires Working(p) && d.addrs == inodes[p].d.addrs
      modifies this`inodes, this`nodes
      ensures Working(p) && inodes == old(inodes)[p := old(inodes)[p].(d := d)]
      ensures nodes == old(nodes)[inodes[p].inum := d]
    {
      hide Coherent, Linked, Permutation, Recency, Owned, CacheOk;
      FieldsKeep(sb, cache.view, nodes, used, owner, {}, inodes[p].inum, d);
      CacheUpdate(inodes, nodes, p, d);
      nodes := nodes[inodes[p].inum := d];
      inodes := inodes[p := inodes[p].(d := d)];
    }

    // ---- freeing an inode ------------------------------------------------------

    /** bfree of the block in slot s. */
    method FreeSlot(blk: nat, ghost i: nat, ghost z: Snapshot, ghost r: set<nat>, ghost s: nat, ghost held: set<nat>)
      requires cache.Valid() && cache.OnlyHeld(held) && |held| <= 1
      requires forall h :: 0 <= h < NBUF && cache.bufs[h].locked ==> cache.bufs[h].blockNo >= sb.inodeStart
      requires Truncating(sb, z, Bare(), i, r) && s in r && s < NSLOTS && blk == Ptr(z.view, z.nodes[i], s)
      modifies cache
      ensures cache.Valid() && cache.OnlyHeld(held) && cache.KeepsHeld()
      ensures Truncating(sb, z, Bare(), i, r - {s})
    {
      hide Coherent, Linked, Permutation, Recency, Truncating, InUse;
      FreeStep(sb, z, Bare(), i, r, s);
      var ok := Bfree(blk, held);
    }

    /** itrunc's first loop: the direct blocks. */
    method FreeDirect(p: nat, ghost z: Snapshot)
      requires cache.Valid() && cache.OnlyHeld({}) && p < |inodes| && inodes[p].inum < |z.nodes| == |z.used|
      requires Truncating(sb, z, Bare(), inodes[p].inum, SlotsFrom(0, z.used[inodes[p].inum]))
      requires inodes[p].d == z.nodes[inodes[p].inum]
      modifies cache, this`inodes
      ensures cache.Valid() && cache.OnlyHeld({}) && p < |inodes|
      ensures Truncating(sb, z, Bare(), old(inodes)[p].inum, SlotsFrom(NDIRECT, z.used[old(inodes)[p].inum]))
      ensures |inodes[p].d.addrs| == NDIRECT + 1
      ensures inodes == old(inodes)[p := old(inodes)[p].(d := old(inodes)[p].d.(addrs := inodes[p].d.addrs))]
      ensures inodes[p].d.addrs[INDIRECT] == old(inodes)[p].d.addrs[INDIRECT]
      ensures forall m :: 0 <= m < NDIRECT ==> inodes[p].d.addrs[m] == 0
    {
      hide Coherent, Linked, Permutation, Recency, Truncating, Ptr, SlotsFrom, Owned;
      ghost var i := inodes[p].inum;
      ghost var d := inodes[p].d;
      ghost var n := z.used[i];
      TruncatingBasics(sb, z, Bare(), i, SlotsFrom(0, n));
      var k := 0;
      while k < NDIRECT
        invariant k <= NDIRECT
        invariant cache.Valid() && cache.OnlyHeld({})
        invariant Truncating(sb, z, Bare(), i, SlotsFrom(k, n))
        invariant p < |inodes| && |inodes[p].d.addrs| == NDIRECT + 1
        invariant inodes == old(inodes)[p := old(inodes)[p].(d := d.(addrs := inodes[p].d.addrs))]
        invariant forall m :: 0 <= m < k ==> inodes[p].d.addrs[m] == 0
        invariant forall m :: k <= m <= NDIRECT ==> inodes[p].d.addrs[m] == d.addrs[m]
      {
        NextSlot(k, n);
        TopPtr(z.view, d, k);
        ZeroIff(sb, z.view, z.nodes, z.used, z.owner, {}, i, k);
        if inodes[p].d.addrs[k] != 0 {
          FreeSlot(inodes[p].d.addrs[k], i, z, SlotsFrom(k, n), k, {});
          inodes := inodes[p := inodes[p].(d := WithAddr(inodes[p].d, k, 0))];
        }
        k := k + 1;
      }
    }

    /** The indirect block of inode i is held in bp, and the first j blocks it names are free. */
    ghost predicate Emptying(bp: nat, z: Snapshot, i: nat, j: nat)
      requires i < |z.nodes| == |z.used| && |z.nodes[i].addrs| == NDIRECT + 1
      reads this, cache
    {
      && cache.Valid() && cache.OnlyHeld({bp}) && bp < NBUF && cache.bufs[bp].locked && cache.bufs[bp].valid
      && cache.bufs[bp].blockNo == z.nodes[i].addrs[INDIRECT] < |z.view|
      && cache.bufs[bp].data == z.view[z.nodes[i].addrs[INDIRECT]]
      && Settled(cache.bufs, cache.disk, bp)
      && Truncating(sb, z, Bare(), i, {INDIRECT} + SlotsFrom(INDIRECT + 1 + j, z.used[i]))
    }

    /** The block that entry j names, if any. */
    method FreeListed(bp: nat, ghost z: Snapshot, ghost i: nat, j: nat)
      requires i < |z.nodes| == |z.used| && |z.nodes[i].addrs| == NDIRECT + 1 && j < NINDIRECT
      requires z.used[i] > INDIRECT && Emptying(bp, z, i, j)
      modifies cache
      ensures Emptying(bp, z, i, j + 1)
    {
      hide Coherent, Linked, Permutation, Recency, Truncating, Ptr, SlotsFrom, Owned, PtrAt;
      ghost var r := {INDIRECT} + SlotsFrom(INDIRECT + 1 + j, z.used[i]);
      TruncatingBasics(sb, z, Bare(), i, r);
      TruncatingData(sb, z, Bare(), i, r);
      NextEntry(INDIRECT + 1 + j, z.used[i]);
      EntryPtr(z.view, z.nodes[i], j);
      ZeroIff(sb, z.view, z.nodes, z.used, z.owner, {}, i, INDIRECT + 1 + j);
      if PtrAt(cache.bufs[bp].data, j) != 0 {
        FreeSlot(PtrAt(cache.bufs[bp].data, j), i, z, r, INDIRECT + 1 + j, {bp});
      }
    }

    /** itrunc's second loop: the blocks named by the indirect block, then the indirect block. */
    method FreeIndirect(p: nat, ghost z: Snapshot, ghost i: nat)
      requires cache.Valid() && cache.OnlyHeld({}) && p < |inodes| && i < |z.nodes| == |z.used|
      requires z.used[i] > INDIRECT && Truncating(sb, z, Bare(), i, SlotsFrom(INDIRECT, z.used[i]))
      requires |inodes[p].d.addrs| == |z.nodes[i].addrs| == NDIRECT + 1
      requires inodes[p].d.addrs[INDIRECT] == z.nodes[i].addrs[INDIRECT]
      modifies cache, this`inodes
      ensures cache.Valid() && cache.OnlyHeld({})
      ensures Truncating(sb, z, Bare(), i, {})
      ensures inodes == old(inodes)[p := old(inodes)[p].(d := WithAddr(old(inodes)[p].d, INDIRECT, 0))]
    {
      hide Coherent, Linked, Permutation, Recency, Truncating, Ptr, SlotsFrom, Owned, PtrAt;
      ghost var d := z.nodes[i];
      ghost var n := z.used[i];
      TruncatingBasics(sb, z, Bare(), i, SlotsFrom(INDIRECT, n));
      TruncatingData(sb, z, Bare(), i, SlotsFrom(INDIRECT, n));
      NextEntry(INDIRECT + 1, n);
      var bp := Get(inodes[p].d.addrs[INDIRECT], {});
      var j := 0;
      while j < NINDIRECT
        invariant j <= NINDIRECT && Emptying(bp, z, i, j) && inodes == old(inodes)
      {
        FreeListed(bp, z, i, j);
        j := j + 1;
      }
      NextEntry(NSLOTS, n);
      Drop(bp);
      TopPtr(z.view, d, INDIRECT);
      FreeSlot(inodes[p].d.addrs[INDIRECT], i, z, {INDIRECT}, INDIRECT, {});
      assert {INDIRECT} - {INDIRECT} == {};
      inodes := inodes[p := inodes[p].(d := WithAddr(inodes[p].d, INDIRECT, 0))];
    }

    /** itrunc: all blocks of the file are freed, "freeing free block" is never reached. */
    method Itrunc(p: nat)
      requires Ready(p)
      modifies this, cache
      ensures Working(p) && Geometry(sb, |cache.view|) && Geometry(sb, |old(cache.view)|)
      ensures var i := old(inodes)[p].inum; var d := NoAddrs(old(inodes)[p].d);
              && inodes == old(inodes)[p := old(inodes)[p].(d := d)]
              && nodes == old(nodes)[i := d] && used == old(used)[i := 0] && owner == OwnerWithout(old(owner), i)
              && |cache.view| == |old(cache.view)|
              && (forall b :: DataStart(sb) <= b < |cache.view| ==> cache.view[b] == old(cache.view)[b])
              && (forall j :: 0 <= j < sb.nInodes ==>
                    OnDisk(sb, cache.view, j) == if j == i then d else OnDisk(sb, old(cache.view), j))
    {
      hide Coherent, Linked, Permutation, Recency, Truncating, SlotsFrom, Owned, CacheOk, OnDisk, WithInode, Storable,
           OwnerWithout, SlotCount, Ptr;
      ghost var z := Bare();
      ghost var i := inodes[p].inum;
      ghost var d := inodes[p].d;
      OwnedBasics(sb, cache.view, nodes, used, owner, {});
      CacheUpdate(inodes, nodes, p, NoAddrs(d));
      StartTruncating(sb, z, i);
      nodes := nodes[i := NoAddrs(d)];
      used := used[i := 0];
      owner := OwnerWithout(owner, i);
      FreeDirect(p, z);
      TopPtr(z.view, d, INDIRECT);
      ZeroIff(sb, z.view, z.nodes, z.used, z.owner, {}, i, INDIRECT);
      if inodes[p].d.addrs[INDIRECT] != 0 {
        FreeIndirect(p, z, i);
      } else {
        NextSlot(INDIRECT, z.used[i]);
      }
      inodes := inodes[p := inodes[p].(d := inodes[p].d.(size := 0))];
      assert inodes[p].d == NoAddrs(d);
      assert inodes == old(inodes)[p := old(inodes)[p].(d := NoAddrs(d))];
      Truncated(sb, z, Bare(), i);
      StorableNone(d);
      UpdateKeeps(sb, cache.view, nodes, used, owner, i, NoAddrs(d));
      Iupdate(p);
    }

    // ---- the inode cache ---------------------------------------------------------

    /** iget: one more reference to inode inum; a panic if it has no entry and all are taken. */
    method Iget(inum: nat) returns (r: Outcome<nat>)
      requires CacheOk(inodes, nodes) && inum < |nodes|
      modifies this`inodes
      ensures !r.Blocked? && CacheOk(inodes, nodes) && (old(Typed(inodes)) ==> Typed(inodes))
      ensures r.Panic? <==> forall p :: 0 <= p < NINODE ==> old(inodes)[p].ref > 0 && old(inodes)[p].inum != inum
      ensures r.Panic? ==> inodes == old(inodes)
      ensures r.Ok? ==> Got(old(inodes), inodes, r.value, inum)
    {
      var empty: nat := NINODE;
      var i := 0;
      while i < NINODE
        invariant i <= NINODE && empty <= NINODE
        invariant forall q :: 0 <= q < i && inodes[q].ref > 0 ==> inodes[q].inum != inum
        invariant empty < NINODE ==> inodes[empty].ref == 0
        invariant empty == NINODE ==> forall q :: 0 <= q < i ==> inodes[q].ref > 0
      {
        assert inodes[i].ref > 0 ==> EntryOk(inodes[i], nodes);
        if inodes[i].ref > 0 && inodes[i].dev == ROOTDEV && inodes[i].inum == inum {
          inodes := inodes[i := inodes[i].(ref := inodes[i].ref + 1)];
          return Ok(i);
        }
        if empty == NINODE && inodes[i].ref == 0 { empty := i; }
        i := i + 1;
      }
      if empty == NINODE { return Panic; }
      inodes := inodes[empty := inodes[empty].(dev := ROOTDEV, inum := inum, ref := 1, valid := false)];
      r := Ok(empty);
    }

    /** ilock: loads the inode if need be; panics on a dead entry or a free inode. */
    method Ilock(p: nat) returns (r: Outcome<()>)
      requires Valid() && p < NINODE
      modifies cache, this`inodes
      ensures var e := old(inodes)[p];
              && (r.Blocked? <==> e.ref > 0 && e.locked)
              && (r.Panic? <==> e.ref == 0 || (!e.locked && e.inum < |nodes| && nodes[e.inum].typ == 0))
              && (r.Ok? ==> Valid() && cache.view == old(cache.view) && e.inum < |nodes|)
              && (r.Ok? ==> inodes == old(inodes)[p := e.(locked := true, valid := true, d := nodes[e.inum])])
    {
      hide Coherent, Linked, Permutation, Recency, Owned, OnDisk, DinodeAt;
      if inodes[p].ref < 1 { return Panic; }
      CacheEntry(inodes, nodes, p);
      OwnedBasics(sb, cache.view, nodes, used, owner, {});
      ghost var i := inodes[p].inum;
      assert Stored(sb, cache.view, nodes, used, i);
      if inodes[p].locked { return Blocked; }
      inodes := inodes[p := inodes[p].(locked := true)];
      if inodes[p].valid {
        assert Typed(old(inodes));
        return Ok(());
      }
      var bp := Get(IBlock(sb, inodes[p].inum), {});
      var dip := DinodeAt(cache.bufs[bp].data, inodes[p].inum % IPB);
      OnDiskIs(sb, cache.view, i);
      inodes := inodes[p := inodes[p].(d := dip)];
      Drop(bp);
      inodes := inodes[p := inodes[p].(valid := true)];
      if inodes[p].d.typ == 0 { return Panic; }
      r := Ok(());
    }

    /** iunlock. */
    method Iunlock(p: nat) returns (ok: bool)
      requires p < |inodes|
      modifies this`inodes
      ensures ok <==> old(inodes)[p].locked && old(inodes)[p].ref > 0
      ensures inodes == if ok then old(inodes)[p := old(inodes)[p].(locked := false)] else old(inodes)
    {
      if !inodes[p].locked || inodes[p].ref < 1 { return false; }
      inodes := inodes[p := inodes[p].(locked := false)];
      ok := true;
    }

    /** The part of iput that frees the inode: contents, then the inode itself. */
    method Ifree(p: nat)
      requires Valid() && p < NINODE && inodes[p].ref > 0 && inodes[p].valid
      modifies this, cache
      ensures var e := old(inodes)[p]; var z := old(Snap());
              && inodes == z.inodes[p := e.(valid := false, d := Freed(e.d))]
              && Settles(sb, Snap()) && cache.Valid() && cache.OnlyHeld({})
              && InodeFreed(sb, e.inum, z, Snap())
    {
      hide Coherent, Linked, Permutation, Recency, Owned, CacheOk, OnDisk, Stored, AllStored, Storable, WithInode,
           NoAddrs;
      ReadyOf(p);
      ghost var z := Snap();
      ghost var i := inodes[p].inum;
      ghost var d := inodes[p].d;
      assert Storable(d) by { StoredBasics(sb, cache.view, nodes, used, i); }
      Itrunc(p);
      ghost var y := Snap();
      FreedStorable(d);
      SetFields(p, inodes[p].d.(typ := 0));
      UpdateKeeps(sb, cache.view, nodes, used, owner, i, Freed(d));
      Iupdate(p);
      FreedStored(sb, i, z, Snap());
      inodes := inodes[p := inodes[p].(valid := false)];
    }

    /** iput: gives up one reference. The last reference to an unlinked inode frees it. */
    method Iput(p: nat) returns (r: Outcome<()>)
      requires Valid() && p < NINODE && inodes[p].ref > 0
      modifies this, cache
      ensures !r.Panic? && (r.Blocked? <==> old(inodes)[p].locked)
      ensures r.Ok? ==> Valid() && (old(OrphansHeld(inodes, nodes)) ==> OrphansHeld(inodes, nodes))
      ensures r.Ok? ==> var e := old(inodes)[p]; var z := old(Snap());
                if e.valid && e.d.nlink == 0 && e.ref == 1 then
                  InodeFreed(sb, e.inum, z, Snap())
                      && inodes == z.inodes[p := e.(ref := 0, valid := false, d := Freed(e.d))]
                else
                  Snap() == z.(inodes := z.inodes[p := e.(ref := e.ref - 1)])
    {
      hide Coherent, Linked, Permutation, Recency, Owned, OnDisk, Stored, AllStored, NoAddrs, Contents;
      if inodes[p].locked { return Blocked; }
      ghost var z := Snap();
      CacheEntry(inodes, nodes, p);
      if inodes[p].valid && inodes[p].d.nlink == 0 && inodes[p].ref == 1 {
        Ifree(p);
      }
      inodes := inodes[p := inodes[p].(ref := inodes[p].ref - 1)];
      PutKeeps(sb, z, Snap(), p);
      r := Ok(());
    }

    /** ialloc: the first free inode gets the type and one reference in the cache. */
    method Ialloc(typ: int) returns (r: Outcome<nat>)
      requires Valid() && Short(typ) && typ != 0
      modifies this, cache
      ensures r.Ok? ==> Valid() && r.value < NINODE && var p := r.value; var i := inodes[p].inum; var z := old(Snap());
                && 1 <= i < sb.nInodes && z.nodes[i].typ == 0 && (forall j :: 1 <= j < i ==> z.nodes[j].typ != 0)
                && Got(z.inodes, inodes, p, i)
                && nodes == z.nodes[i := FreshDinode(typ)] && used == z.used && owner == z.owner
                && (forall j :: 0 <= j < sb.nInodes && j != i ==>
                      && |z.nodes[j].addrs| == NDIRECT + 1
                      && Contents(cache.view, z.nodes[j]) == Contents(z.view, z.nodes[j]))
      ensures r.Panic? <==>
                || (forall j :: 1 <= j < sb.nInodes ==> old(nodes)[j].typ != 0)
                || (exists i ::
                      && 1 <= i < sb.nInodes && old(nodes)[i].typ == 0
                      && (forall j :: 1 <= j < i ==> old(nodes)[j].typ != 0)
                      && forall p :: 0 <= p < NINODE ==> old(inodes)[p].ref > 0 && old(inodes)[p].inum != i)
      ensures !r.Blocked? && (r.Panic? ==> inodes == old(inodes))
    {
      hide Coherent, Linked, Permutation, Recency, Owned, OnDisk, CacheOk, Stored, AllStored, DinodeAt, WithDinode,
           Contents, FreshDinode, Storable;
      ghost var z := Snap();
      OwnedBasics(sb, cache.view, nodes, used, owner, {});
      var inum := 1;
      while inum < sb.nInodes
        invariant 1 <= inum <= sb.nInodes
        invariant cache.Valid() && cache.OnlyHeld({}) && Snap() == z && Geometry(sb, |cache.view|)
        invariant forall j :: 1 <= j < inum ==> nodes[j].typ != 0
      {
        StoredOnDisk(sb, cache.view, nodes, used, inum);
        OnDiskIs(sb, cache.view, inum);
        var bp := Get(IBlock(sb, inum), {});
        if DinodeAt(cache.bufs[bp].data, inum % IPB).typ == 0 {
          FreshStep(sb, z, inum, typ);
          FreshEntry(inodes, nodes, inum, typ);
          cache.Store(bp, WithDinode(cache.bufs[bp].data, inum % IPB, FreshDinode(typ)));
          Put(bp);
          nodes := nodes[inum := FreshDinode(typ)];
          r := Iget(inum);
          return;
        }
        Drop(bp);
        inum := inum + 1;
      }
      r := Panic;
    }
  }
}
