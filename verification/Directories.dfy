/** dir_lookup, dir_link and path walking of kernel/fs.c, on the inode layer. */
module Directories {
  import opened Common
  import opened Bytes
  import opened BufferCache
  import opened DiskLayout
  import opened FileData
  import opened FileSystem
  import opened DirEntries

  const ROOTINO := 1

  // ---- references in the inode cache --------------------------------------------------

  /** n more references than before; a live entry keeps its inode and stays loaded. */
  predicate Kept(e: Inode, e': Inode, n: nat) {
    e'.ref == e.ref + n && (e.ref > 0 ==> e'.inum == e.inum && (e.valid ==> e'.valid))
  }

  /** From a to b exactly the references h were added, counted by entry. */
  ghost predicate Holds(a: seq<Inode>, b: seq<Inode>, h: multiset<nat>) {
    |a| == |b| && forall q :: 0 <= q < |b| ==> Kept(a[q], b[q], h[q])
  }

  /** Exactly the entries in l are locked. */
  ghost predicate Locks(inodes: seq<Inode>, l: set<nat>) {
    forall q :: 0 <= q < |inodes| ==> (inodes[q].locked <==> q in l)
  }

  lemma HoldsNone(a: seq<Inode>)
    ensures Holds(a, a, multiset{})
  {
  }

  lemma HoldsGot(z: seq<Inode>, a: seq<Inode>, b: seq<Inode>, h: multiset<nat>, l: set<nat>, p: nat, i: nat)
    requires Holds(z, a, h) && Locks(a, l) && Got(a, b, p, i)
    ensures Holds(z, b, h + multiset{p}) && Locks(b, l) && b[p].ref > 0 && b[p].inum == i
  {
    forall q | 0 <= q < |b| ensures Kept(z[q], b[q], (h + multiset{p})[q]) { assert Kept(z[q], a[q], h[q]); }
  }

  /** A reference given back. */
  lemma HoldsPut(z: seq<Inode>, a: seq<Inode>, h: multiset<nat>, l: set<nat>, p: nat)
    requires Holds(z, a, h) && Locks(a, l) && p in h && p < |a|
    ensures a[p].ref > 0
    ensures var b := a[p := a[p].(ref := a[p].ref - 1)]; Holds(z, b, h - multiset{p}) && Locks(b, l)
  {
    assert Kept(z[p], a[p], h[p]);
    var b := a[p := a[p].(ref := a[p].ref - 1)];
    forall q | 0 <= q < |b| ensures Kept(z[q], b[q], (h - multiset{p})[q]) { assert Kept(z[q], a[q], h[q]); }
  }

  /** A change to a held entry that keeps its inode and its references. */
  lemma HoldsSet(z: seq<Inode>, a: seq<Inode>, h: multiset<nat>, p: nat, e: Inode)
    requires Holds(z, a, h) && p < |a| && e.ref == a[p].ref && e.inum == a[p].inum && (a[p].valid ==> e.valid)
    ensures Holds(z, a[p := e], h)
  {
    forall q | 0 <= q < |a| ensures Kept(z[q], a[p := e][q], h[q]) { assert Kept(z[q], a[q], h[q]); }
  }

  lemma HoldsOrphans(a: seq<Inode>, b: seq<Inode>, h: multiset<nat>, nodes: seq<Dinode>)
    requires Holds(a, b, h) && OrphansHeld(a, nodes)
    ensures OrphansHeld(b, nodes)
  {
    forall j | 0 <= j < |nodes| && nodes[j].typ != 0 && nodes[j].nlink == 0 ensures HeldValid(b, j) {
      var q :| 0 <= q < |a| && a[q].ref > 0 && a[q].valid && a[q].inum == j;
      assert Kept(a[q], b[q], h[q]);
      assert b[q].ref > 0 && b[q].valid && b[q].inum == j;
    }
  }

  /** iput of a reference held on top of those of z frees no inode: an unlinked inode is
    * referenced in z already. */
  lemma NotLast(z: seq<Inode>, a: seq<Inode>, nodes: seq<Dinode>, h: multiset<nat>, p: nat)
    requires CacheOk(a, nodes) && Typed(a) && p < NINODE && p in h && Holds(z, a, h) && OrphansHeld(z, nodes)
    ensures a[p].ref > 0 && !(a[p].valid && a[p].d.nlink == 0 && a[p].ref == 1)
  {
    assert Kept(z[p], a[p], h[p]);
    assert EntryOk(a[p], nodes);
    var i := a[p].inum;
    forall q | 0 <= q < |z| && z[q].ref > 0 && z[q].inum == i ensures q == p {
      assert Kept(z[q], a[q], h[q]);
      assert q == p || q < p || p < q;
    }
    assert a[p].valid && a[p].d.nlink == 0 ==> HeldValid(z, i);
  }

  // ---- dir_lookup and dir_link -------------------------------------------------------------

  /** No entry of the cache can be used for inode i. */
  ghost predicate NoRoom(inodes: seq<Inode>, i: nat) {
    forall p :: 0 <= p < |inodes| ==> inodes[p].ref > 0 && inodes[p].inum != i
  }

  /** The contents name only inodes of the disk. */
  ghost predicate InRange(c: seq<Byte>, nInodes: nat) { forall k :: 0 <= k < Slots(c) ==> InumAt(c, k) < nInodes }

  ghost predicate IsDir(fs: Fs, p: nat, c: seq<Byte>)
    reads fs, fs.cache
  {
    && fs.Valid() && p < NINODE && p < |fs.inodes| && fs.inodes[p].ref > 0 && fs.inodes[p].valid
    && |fs.inodes[p].d.addrs| == NDIRECT + 1 && c == Contents(fs.cache.view, fs.inodes[p].d) && InRange(c, |fs.nodes|)
  }

  lemma DirBound(fs: Fs, p: nat)
    requires fs.Valid() && p < NINODE && fs.inodes[p].ref > 0 && fs.inodes[p].valid
    ensures fs.inodes[p].d.size <= MAXFILEBLK * BSIZE
  {
    hide Owned, Coherent, Linked, Permutation, Recency, OnDisk;
    OwnedBasics(fs.sb, fs.cache.view, fs.nodes, fs.used, fs.owner, {});
    assert EntryOk(fs.inodes[p], fs.nodes);
    assert Stored(fs.sb, fs.cache.view, fs.nodes, fs.used, fs.inodes[p].inum);
  }

  lemma DirNode(fs: Fs, p: nat, c: seq<Byte>)
    requires IsDir(fs, p, c)
    ensures fs.inodes[p].inum < |fs.nodes| && fs.nodes[fs.inodes[p].inum] == fs.inodes[p].d
  {
    hide Owned, AllStored, Contents, Coherent, Linked, Permutation, Recency;
    assert EntryOk(fs.inodes[p], fs.nodes);
  }

  /** One turn of the two scanning loops: the 32 bytes at off, or a short read. */
  method ReadEntry(fs: Fs, p: nat, off: nat, ghost c: seq<Byte>) returns (ok: bool, inum: nat, name: seq<Byte>)
    requires IsDir(fs, p, c) && fs.inodes[p].d.typ == T_DIR && off % ENTRY == 0 && off < |c|
    modifies fs, fs.cache
    ensures IsDir(fs, p, c) && fs.Snap() == old(fs.Snap())
    ensures ok <==> off / ENTRY < Slots(c)
    ensures ok ==> inum == InumAt(c, off / ENTRY) && Key(name) == KeyAt(c, off / ENTRY)
  {
    hide Fs.Valid, Contents, InRange, FromLE, KeyN;
    DirBound(fs, p);
    var r, de := fs.Readi(p, off, ENTRY, {});
    ok := r == Done(ENTRY);
    inum, name := 0, [];
    if ok {
      inum, name := FromLE(de[..8]), de[8..];
      assert c[off..off + ENTRY][..8] == c[off..off + 8] && c[off..off + ENTRY][8..] == c[off + 8..off + ENTRY];
    }
  }

  method DirLookup(fs: Fs, p: nat, name: seq<Byte>, ghost c: seq<Byte>) returns (r: Outcome<Option<nat>>, off: nat)
    requires IsDir(fs, p, c)
    modifies fs, fs.cache
    ensures var k := Find(c, Key(name), 0);
            && !r.Blocked?
            && (r.Panic? <==>
                  || old(fs.inodes)[p].d.typ != T_DIR
                  || (if k < Slots(c) then NoRoom(old(fs.inodes), InumAt(c, k)) else |c| % ENTRY != 0))
            && (r == Ok(None) ==> k == Slots(c) && fs.Valid() && fs.Snap() == old(fs.Snap()))
            && (r.Ok? && r.value.Some? ==>
                  k < Slots(c) && off == ENTRY * k && Got(old(fs.inodes), fs.inodes, r.value.value, InumAt(c, k)))
    ensures r.Ok? ==> fs.Valid() && fs.Snap() == old(fs.Snap()).(inodes := fs.inodes)
    ensures r.Panic? ==> fs.inodes == old(fs.inodes)
  {
    hide Fs.Valid, Contents, FromLE, KeyN, Find, InumAt, KeyAt;
    off := 0;
    if fs.inodes[p].d.typ != T_DIR { return Panic, 0; }
    while off < fs.inodes[p].d.size
      invariant IsDir(fs, p, c) && fs.Snap() == old(fs.Snap()) && off % ENTRY == 0 && off / ENTRY <= Slots(c)
      invariant forall j :: 0 <= j < off / ENTRY ==> !Matches(c, Key(name), j)
    {
      ghost var k := off / ENTRY;
      var ok, inum, field := ReadEntry(fs, p, off, c);
      if !ok {
        FindIs(c, Key(name), Slots(c));
        return Panic, 0;
      }
      if inum != 0 {
        var cmp := StrNCmp(name, field, DIRSIZ);
        if cmp == 0 {
          FindIs(c, Key(name), k);
          var g := FoundEntry(fs, p, inum, c, k);
          if g.Panic? { return Panic, 0; }
          return Ok(Some(g.value)), off;
        }
      }
      off := off + ENTRY;
    }
    FindIs(c, Key(name), Slots(c));
    r := Ok(None);
  }

  method FoundEntry(fs: Fs, p: nat, inum: nat, ghost c: seq<Byte>, ghost k: nat) returns (r: Outcome<nat>)
    requires IsDir(fs, p, c) && k < Slots(c) && inum == InumAt(c, k)
    modifies fs`inodes
    ensures !r.Blocked? && (r.Panic? <==> NoRoom(old(fs.inodes), inum)) && (r.Panic? ==> fs.inodes == old(fs.inodes))
    ensures r.Ok? ==> fs.Valid() && Got(old(fs.inodes), fs.inodes, r.value, inum)
  {
    hide Contents, FromLE, Owned, AllStored, Coherent, Linked, Permutation, Recency;
    r := fs.Iget(inum);
  }

  /** The first unused slot, or the end. */
  function FreeSlot(c: seq<Byte>, k: nat): (f: nat)
    requires k <= Slots(c)
    ensures k <= f <= Slots(c) && (f < Slots(c) ==> InumAt(c, f) == 0)
    ensures forall j :: k <= j < f ==> InumAt(c, j) != 0
    decreases Slots(c) - k
  {
    if k == Slots(c) || InumAt(c, k) == 0 then k else FreeSlot(c, k + 1)
  }

  method FindSlot(fs: Fs, p: nat, ghost c: seq<Byte>) returns (off: nat)
    requires IsDir(fs, p, c) && fs.inodes[p].d.typ == T_DIR && |c| % ENTRY == 0
    modifies fs, fs.cache
    ensures IsDir(fs, p, c) && fs.Snap() == old(fs.Snap()) && off == ENTRY * FreeSlot(c, 0)
  {
    hide Fs.Valid, Contents, FromLE, KeyN, InRange, InumAt, KeyAt;
    off := 0;
    while off < fs.inodes[p].d.size
      invariant IsDir(fs, p, c) && fs.Snap() == old(fs.Snap()) && off % ENTRY == 0 && off / ENTRY <= Slots(c)
      invariant FreeSlot(c, off / ENTRY) == FreeSlot(c, 0)
    {
      var ok, inum, _ := ReadEntry(fs, p, off, c);
      assert ok;                       // whole entries only, so no short read
      if inum == 0 { break; }
      off := off + ENTRY;
    }
  }

  /** The directory at p gained the name, and nothing else changed. */
  ghost predicate Bound(sb: SuperBlock, z: Snapshot, y: Snapshot, i: nat, c: seq<Byte>, name: seq<Byte>, inum: nat) {
    && i < |y.nodes| && |y.nodes[i].addrs| == NDIRECT + 1
    && var c' := Contents(y.view, y.nodes[i]);
       && |c'| % ENTRY == 0
       && (forall key :: DirGet(c', key) == if key == Key(name) then inum else DirGet(c, key))
       && (exists field ::
             && |field| == DIRSIZ && Key(field) == Key(name)
             && FileWritten(sb, i, z, y, ENTRY * FreeSlot(c, 0), EntryBytes(inum, field)))
  }

  method DirLink(fs: Fs, p: nat, name: seq<Byte>, inum: nat, ghost c: seq<Byte>, ghost l: set<nat>)
    returns (r: Outcome<bool>)
    requires IsDir(fs, p, c) && 0 < inum < U64 && Locks(fs.inodes, l)
    modifies fs, fs.cache
    ensures r == Ok(true) ==>
              && fs.Valid() && DirGet(c, Key(name)) == 0
              && Bound(fs.sb, old(fs.Snap()), fs.Snap(), old(fs.inodes)[p].inum, c, name, inum)
    ensures r == Ok(true) ==> fs.inodes == old(fs.inodes)[p := old(fs.inodes)[p].(d := fs.inodes[p].d)]
    ensures r == Ok(false) ==>
              && fs.Valid() && DirGet(c, Key(name)) != 0 && fs.Snap() == old(fs.Snap()).(inodes := fs.inodes)
              && Holds(old(fs.inodes), fs.inodes, multiset{}) && Locks(fs.inodes, l)
    ensures r.Blocked? ==> DirGet(c, Key(name)) != 0 && l != {}
    ensures r.Panic? <==> LinkPanics(fs.sb, old(fs.Snap()), p, c, name)
  {
    hide Fs.Valid, Contents, FromLE, ToLE, KeyN, InumAt, KeyAt, Overwrite, EntryBytes, MoreSlots, Capacity, SlotCount;
    ghost var z, i := fs.Snap(), fs.inodes[p].inum;
    DirNode(fs, p, c);
    var found, _ := DirLookup(fs, p, name, c);
    if found.Panic? { return Panic; }
    if found.value.Some? {
      var q := found.value.value;
      ghost var a := fs.inodes;
      HoldsNone(z.inodes);
      HoldsGot(z.inodes, z.inodes, a, multiset{}, l, q, DirGet(c, Key(name)));
      HoldsPut(z.inodes, a, multiset{} + multiset{q}, l, q);
      var put := fs.Iput(q);
      if put.Blocked? { return Blocked; }
      assert multiset{} + multiset{q} - multiset{q} == multiset{};
      return Ok(false);
    }
    var off := FindSlot(fs, p, c);
    var field := StrNCpy(name, DIRSIZ);
    DirBound(fs, p);
    var de := EntryBytes(inum, field);
    assert fs.Snap() == z;
    var w := fs.Writei(p, de, off, {});
    if w != Done(ENTRY) { return Panic; }
    BoundBy(fs.sb, z, fs.Snap(), i, c, name, field, inum, off / ENTRY);
    r := Ok(true);
  }

  /** dir_link's panics: not a directory, a torn entry, no inode entry, no room in the file
    * or on the disk. */
  ghost predicate LinkPanics(sb: SuperBlock, z: Snapshot, p: nat, c: seq<Byte>, name: seq<Byte>)
    requires p < |z.inodes| && sb.nInodes > 0
  {
    var d, k, off := z.inodes[p].d, Find(c, Key(name), 0), ENTRY * FreeSlot(c, 0);
    || d.typ != T_DIR
    || (if k < Slots(c) then NoRoom(z.inodes, InumAt(c, k))
        else
          || |c| % ENTRY != 0 || off + ENTRY > MAXFILEBLK * BSIZE
          || |z.owner.Keys| + MoreSlots(SlotCount(d.size), off, off + ENTRY) > Capacity(sb))
  }

  lemma BoundBy(sb: SuperBlock, z: Snapshot, y: Snapshot, i: nat, c: seq<Byte>, name: seq<Byte>, field: seq<Byte>,
        inum: nat, k: nat)
    requires |field| == DIRSIZ && Key(field) == Key(name) && 0 < inum < U64 && |c| % ENTRY == 0 && k == FreeSlot(c, 0)
    requires i < |z.nodes| && |z.nodes[i].addrs| == NDIRECT + 1 && c == Contents(z.view, z.nodes[i])
    requires FileWritten(sb, i, z, y, ENTRY * k, EntryBytes(inum, field)) && DirGet(c, Key(name)) == 0
    ensures Bound(sb, z, y, i, c, name, inum)
  {
    hide Contents, FromLE, ToLE, KeyN, InumAt, KeyAt, Overwrite, EntryBytes, DirGet;
    var c' := Contents(y.view, y.nodes[i]);
    LinkSlots(c, k, inum, field);
    forall key
      ensures DirGet(c', key) == if key == Key(name) then inum else DirGet(c, key)
    {
      LinkGet(c, k, inum, field, key);
    }
  }
}
