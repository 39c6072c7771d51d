/** is_dir_empty and sys_unlink of kernel/sysfile.c, on the inode layer. */
module Unlink {
  import opened Common
  import opened Bytes
  import opened BufferCache
  import opened DiskLayout
  import opened FileData
  import opened FileSystem
  import opened DirEntries
  import opened Directories
  import opened Paths
  import opened LinkTable
  import opened SysFile
  import L = Links

  /** is_dir_empty, on a directory of whole entries: every slot after the first two is unused. */
  method IsDirEmpty(fs: Fs, p: nat) returns (empty: bool)
    requires fs.Valid() && GoodDir(fs, p)
    modifies fs, fs.cache
    ensures fs.Valid() && fs.Snap() == old(fs.Snap())
    ensures empty <==> L.EmptyDir(EntriesOf(old(DirOf(fs, p))))
  {
    hide Fs.Valid, Contents, FromLE, KeyN, InRange, InumAt, KeyAt;
    ghost var c := DirOf(fs, p);
    var off := 2 * ENTRY;
    while off < fs.inodes[p].d.size
      invariant IsDir(fs, p, c) && GoodDir(fs, p) && DirOf(fs, p) == c && fs.Snap() == old(fs.Snap())
      invariant off % ENTRY == 0 && off >= 2 * ENTRY
      invariant forall k :: 2 <= k < off / ENTRY && k < Slots(c) ==> InumAt(c, k) == 0
    {
      var ok, inum, _ := ReadEntry(fs, p, off, c);
      assert ok;
      if inum != 0 {
        assert EntriesOf(c)[off / ENTRY].inum != 0;
        return false;
      }
      off := off + ENTRY;
    }
    empty := true;
  }

  // ---- what unlink does to the table ---------------------------------------------------------

  function Fall(n: int): int { if n == -0x8000 then 0x7FFF else n - 1 }

  /** From z to y the entry k of dpi, which named i, was cleared and the links were counted down. */
  ghost predicate Cut(z: Snapshot, y: Snapshot, dpi: nat, k: nat, i: nat) {
    && OnlyTwo(z, y, i, dpi) && 0 < i < |z.nodes| && dpi < |z.nodes| && i != dpi
    && z.nodes[dpi].typ == T_DIR && k < |NodeOf(z, dpi).dir|
    && NodeOf(y, i) == NodeOf(z, i).(nlink := Fall(z.nodes[i].nlink))
    && y.nodes[dpi].typ == T_DIR && NodeOf(y, dpi).dir == NodeOf(z, dpi).dir[k := L.Entry(0, [])]
    && y.nodes[dpi].nlink == (if z.nodes[i].typ == T_DIR then Fall(z.nodes[dpi].nlink) else z.nodes[dpi].nlink)
    && y.nodes[i].size == z.nodes[i].size && y.nodes[dpi].size % ENTRY == 0
  }

  lemma CutAbs(z: Snapshot, y: Snapshot, dpi: nat, k: nat, i: nat)
    requires Cut(z, y, dpi, k, i) && z.nodes[i].nlink >= 0 && z.nodes[dpi].nlink >= 0
    ensures Abs(y) == L.Unlink(Abs(z), dpi, k, i)
  {
    hide Contents, EntriesOf;
    var t := L.Unlink(Abs(z), dpi, k, i);
    forall n | 0 <= n < |z.nodes| ensures Abs(y)[n] == t[n] {
      if n != i && n != dpi { assert SameFile(z, y, n); }
    }
  }

  lemma CutNodeOk(z: Snapshot, y: Snapshot, dpi: nat, k: nat, i: nat, n: nat)
    requires Cut(z, y, dpi, k, i) && DiskOk(z) && n < |z.nodes|
    ensures NodeOk(y, n)
  {
    hide Contents, EntriesOf, InRange;
    assert NodeOk(z, n);
    BelowInRange(Contents(z.view, z.nodes[n]), |z.nodes|);
    BelowInRange(Contents(y.view, y.nodes[n]), |z.nodes|);
    if n != i && n != dpi { assert SameFile(z, y, n); }
  }

  lemma CutDisk(z: Snapshot, y: Snapshot, dpi: nat, k: nat, i: nat)
    requires Cut(z, y, dpi, k, i) && LinkedDisk(z) && L.CanUnlink(Abs(z), dpi, k, i)
    ensures LinkedDisk(y) && Abs(y) == L.Unlink(Abs(z), dpi, k, i)
  {
    hide Contents, EntriesOf, NodeOk, L.Names;
    L.Slot2(Abs(z), dpi, k, i);
    assert L.CountsOk(Abs(z), i) && z.nodes[dpi].nlink > 0;
    CutAbs(z, y, dpi, k, i);
    L.UnlinkKeeps(Abs(z), dpi, k, i);
    forall n | 0 <= n < |y.nodes| ensures NodeOk(y, n) { CutNodeOk(z, y, dpi, k, i, n); }
    forall n | 0 <= n < |y.nodes| && y.nodes[n].typ == T_DIR ensures y.nodes[n].size % ENTRY == 0 {
      if n != i && n != dpi { assert SameFile(z, y, n); }
    }
  }

  lemma ZeroEntry()
    ensures EntryBytes(0, Zeros(DIRSIZ)) == Zeros(ENTRY) && Key(Zeros(DIRSIZ)) == []
  {
    ToLEZero(8);
    assert Zeros(8) + Zeros(DIRSIZ) == Zeros(ENTRY);
    assert CharAt(Zeros(DIRSIZ), 0) == 0;
  }

  /** The entry that sys_unlink may clear, by the tests it makes. */
  lemma CanCut(z: Snapshot, dpi: nat, i: nat, key: seq<Byte>)
    requires DiskOk(z) && Shaped(z) && dpi < |z.nodes| && z.nodes[dpi].typ == T_DIR && z.nodes[dpi].nlink > 0
    requires i != dpi
    requires Step(z, dpi, key) == At(i) && key != L.DOT && key != L.DOTDOT && i < |z.nodes|
    requires z.nodes[i].typ == T_DIR ==> L.EmptyDir(NodeOf(z, i).dir)
    ensures var k := Find(Contents(z.view, z.nodes[dpi]), key, 0); L.CanUnlink(Abs(z), dpi, k, i)
  {
    hide Contents, KeyN, InumAt, KeyAt, DiskOk;
    var c := Contents(z.view, z.nodes[dpi]);
    var k := Find(c, key, 0);
    assert EntriesOf(c)[k] == L.Entry(InumAt(c, k), KeyAt(c, k));
  }

  // ---- the steps of sys_unlink ------------------------------------------------------------------

  /** The zeroed entry written over slot k. */
  method ClearEntry(fs: Fs, dp: nat, off: nat, ghost k: nat, ghost z: Snapshot, ghost h: multiset<nat>,
        ghost l: set<nat>) returns (ok: bool)
    requires Mid(fs, z, h, l) && GoodDir(fs, dp) && k < Slots(DirOf(fs, dp)) && off == ENTRY * k
    modifies fs, fs.cache
    ensures ok && Mid(fs, z, h, l) && Loaded(fs, dp) && fs.inodes[dp].d.typ == T_DIR
    ensures OnlyNode(old(fs.Snap()), fs.Snap(), old(fs.inodes)[dp].inum)
    ensures SameFields(old(fs.inodes)[dp].d, fs.inodes[dp].d)
    ensures fs.inodes == old(fs.inodes)[dp := old(fs.inodes)[dp].(d := fs.inodes[dp].d)]
    ensures |fs.inodes[dp].d.addrs| == NDIRECT + 1 && fs.inodes[dp].d.size % ENTRY == 0
    ensures EntriesOf(Contents(fs.cache.view, fs.inodes[dp].d)) == EntriesOf(old(DirOf(fs, dp)))[k := L.Entry(0, [])]
  {
    hide Fs.Valid, Holds, Locks, Contents, KeyN, InumAt, KeyAt, EntriesOf, EntryBytes, MoreSlots, Capacity, SlotCount,
         FileWritten;
    ghost var c, y, i := DirOf(fs, dp), fs.Snap(), fs.inodes[dp].inum;
    DirBound(fs, dp);
    NoGrowth(fs, dp, off);
    ValidShaped(fs);
    var r := fs.Writei(dp, Zeros(ENTRY), off, {});
    ok := r == Done(ENTRY);
    ZeroEntry();
    WrittenOnly(fs.sb, i, y, fs.Snap(), off, Zeros(ENTRY));
    WrittenFields(fs.sb, i, y, fs.Snap(), off, Zeros(ENTRY));
    EntriesWritten(c, k, 0, Zeros(DIRSIZ));
    LinkSlots(c, k, 0, Zeros(DIRSIZ));
    HoldsSet(z.inodes, y.inodes, h, dp, fs.inodes[dp]);
    LocksKept(y.inodes, fs.inodes, l, dp);
    ValidShaped(fs);
    NodeLoaded(fs, dp);
  }

  /** A write inside the file needs no block, so it cannot find the disk full. */
  lemma NoGrowth(fs: Fs, p: nat, off: nat)
    requires fs.Valid() && Loaded(fs, p) && off + ENTRY <= fs.inodes[p].d.size
    ensures fs.sb.nInodes > 0
    ensures |fs.owner.Keys| + MoreSlots(SlotCount(fs.inodes[p].d.size), off, off + ENTRY) <= Capacity(fs.sb)
  {
    hide Owned, AllStored, Coherent, Linked, Permutation, Recency, CacheOk, SlotCount;
    OwnedBasics(fs.sb, fs.cache.view, fs.nodes, fs.used, fs.owner, {});
    FullIff(fs.sb, fs.cache.view, fs.nodes, fs.used, fs.owner);
    SlotCountMono(off + ENTRY, fs.inodes[p].d.size);
  }

  lemma FallStorable(fs: Fs, p: nat)
    requires fs.Valid() && Loaded(fs, p)
    ensures Storable(fs.inodes[p].d.(nlink := Fall(fs.inodes[p].d.nlink)))
  {
    hide Coherent, Linked, Permutation, Recency, Owned, OnDisk;
    ValidShaped(fs);
    StoredBasics(fs.sb, fs.cache.view, fs.nodes, fs.used, fs.inodes[p].inum);
  }

  /** nlink-- and iupdate of a loaded inode. */
  method CountDown(fs: Fs, p: nat, ghost z: Snapshot, ghost h: multiset<nat>, ghost l: set<nat>)
    requires Mid(fs, z, h, l) && Loaded(fs, p) && fs.inodes[p].d.typ != 0
    modifies fs, fs.cache
    ensures Mid(fs, z, h, l) && Loaded(fs, p) && OnlyNode(old(fs.Snap()), fs.Snap(), old(fs.inodes)[p].inum)
    ensures var d := old(fs.inodes)[p].d.(nlink := Fall(old(fs.inodes)[p].d.nlink));
            && fs.inodes == old(fs.inodes)[p := old(fs.inodes)[p].(d := d)]
            && |d.addrs| == NDIRECT + 1 && Contents(fs.cache.view, d) == old(Contents(fs.cache.view, fs.inodes[p].d))
  {
    hide Fs.Valid, Holds, Locks, Contents, OnlyNode;
    ghost var a := fs.inodes;
    ValidShaped(fs);
    FallStorable(fs, p);
    Update(fs, p, fs.inodes[p].d.(nlink := Fall(fs.inodes[p].d.nlink)));
    HoldsSet(z.inodes, a, h, p, fs.inodes[p]);
    LocksKept(a, fs.inodes, l, p);
    ValidShaped(fs);
    NodeLoaded(fs, p);
  }

  /** The middle of sys_unlink: the entry is cleared and the links counted down; the parent is
    * given up in between, once its own count is written. */
  method CutLinks(fs: Fs, dp: nat, q: nat, off: nat, ghost k: nat, ghost z: Snapshot) returns (ok: bool)
    requires Mid(fs, z, multiset{dp} + multiset{q}, {dp} + {q}) && fs.Snap() == z.(inodes := fs.inodes) && dp != q
    requires dp < NINODE && q < NINODE
    requires GoodDir(fs, dp) && Loaded(fs, q) && fs.inodes[q].d.typ != 0 && fs.inodes[q].inum != fs.inodes[dp].inum
    requires 0 < fs.inodes[q].inum
    requires k < Slots(DirOf(fs, dp)) && off == ENTRY * k && OrphansHeld(z.inodes, z.nodes)
    requires fs.inodes[q].d.typ == T_DIR ==> fs.inodes[dp].d.nlink >= 2
    modifies fs, fs.cache
    ensures ok && Mid(fs, z, multiset{q}, {q}) && Loaded(fs, q)
    ensures fs.inodes[q].inum == old(fs.inodes)[q].inum
    ensures Cut(z, fs.Snap(), old(fs.inodes)[dp].inum, k, fs.inodes[q].inum)
  {
    hide Fs.Valid, Holds, Locks, Contents, KeyN, InumAt, KeyAt, EntriesOf, OnlyNode, OrphansHeld, OnlyTwo;
    ghost var h, l := multiset{dp} + multiset{q}, {dp} + {q};
    ghost var y0, dpi, i := fs.Snap(), fs.inodes[dp].inum, fs.inodes[q].inum;
    ValidShaped(fs);
    ok := ClearEntry(fs, dp, off, k, z, h, l);
    ghost var y1 := fs.Snap();
    ValidShaped(fs);
    OtherDir(fs, y0, q, dpi);
    OnlyTwoOne(y0, y1, dpi, i);
    if fs.inodes[q].d.typ == T_DIR {
      CountDown(fs, dp, z, h, l);
      OtherDir(fs, y1, q, dpi);
      OnlyTwoStep(y0, y1, fs.Snap(), dpi, i);
    }
    ghost var y2 := fs.Snap();
    ParentSafe(z, y0, y2, dpi, i);
    DropParent(fs, dp, z, h, l);
    assert h - multiset{dp} == multiset{q} && l - {dp} == {q};
    ghost var y3 := fs.Snap();
    TwoView(y0, y2, y3, dpi, i);
    CountDown(fs, q, z, multiset{q}, {q});
    OnlyTwoStep(y0, y3, fs.Snap(), dpi, i);
    SameNode(y3, fs.Snap(), dpi, i);
    MadeBy(z, y0, fs.Snap(), dpi, i);
    TwoSwap(z, fs.Snap(), dpi, i);
  }

  lemma ParentSafe(z: Snapshot, y0: Snapshot, y: Snapshot, dpi: nat, i: nat)
    requires y0.nodes == z.nodes && y0.view == z.view && OnlyTwo(y0, y, dpi, i) && dpi < |z.nodes| && i < |z.nodes|
    requires y.nodes[i] == z.nodes[i] && (y.nodes[dpi].nlink == z.nodes[dpi].nlink || y.nodes[dpi].nlink >= 1)
    requires y.nodes[dpi].typ == z.nodes[dpi].typ
    requires OrphansHeld(z.inodes, z.nodes)
    ensures OrphansHeld(z.inodes, y.nodes)
  {
    hide Contents;
    forall j | 0 <= j < |y.nodes| && y.nodes[j].typ != 0 && y.nodes[j].nlink == 0 ensures HeldValid(z.inodes, j) {
      if j != i && j != dpi { assert SameFile(y0, y, j); }
    }
  }

  lemma TwoView(z: Snapshot, x: Snapshot, y: Snapshot, i: nat, j: nat)
    requires OnlyTwo(z, x, i, j) && y.nodes == x.nodes && y.view == x.view
    ensures OnlyTwo(z, y, i, j)
  {
    hide Contents;
    forall n | 0 <= n < |z.nodes| && n != i && n != j ensures SameFile(z, y, n) { assert SameFile(z, x, n); }
  }

  lemma TwoSwap(z: Snapshot, y: Snapshot, i: nat, j: nat)
    requires OnlyTwo(z, y, i, j)
    ensures OnlyTwo(z, y, j, i)
  {
    hide Contents;
  }

  lemma SameNode(x: Snapshot, y: Snapshot, dpi: nat, i: nat)
    requires OnlyNode(x, y, i) && dpi < |x.nodes| && dpi != i
    ensures dpi < |y.nodes| && y.nodes[dpi] == x.nodes[dpi] && |x.nodes[dpi].addrs| == NDIRECT + 1
    ensures Contents(y.view, y.nodes[dpi]) == Contents(x.view, x.nodes[dpi])
  {
    hide Contents;
    assert SameFile(x, y, dpi);
  }

  // ---- the last iput -----------------------------------------------------------------------------

  lemma FreedAbs(sb: SuperBlock, z: Snapshot, y: Snapshot, i: nat)
    requires Shaped(z) && Shaped(y) && InodeFreed(sb, i, z, y) && z.nodes[i].nlink == 0
    ensures Abs(y) == L.Free(Abs(z), i)
  {
    hide Contents, EntriesOf;
    forall j | 0 <= j < |z.nodes| && j != i ensures NodeOf(y, j) == NodeOf(z, j) {}
    assert NodeOf(y, i) == L.Node(0, 0, []);
  }

  lemma FreedDisk(sb: SuperBlock, z: Snapshot, y: Snapshot, i: nat)
    requires LinkedDisk(z) && Shaped(y) && InodeFreed(sb, i, z, y) && 0 < i && z.nodes[i].nlink == 0
    requires z.nodes[i].typ != 0
    ensures LinkedDisk(y) && Abs(y) == L.Free(Abs(z), i)
  {
    hide Contents, L.Names, EntriesOf;
    FreedAbs(sb, z, y, i);
    L.FreeKeeps(Abs(z), i);
    forall n | 0 <= n < |y.nodes| ensures NodeOk(y, n) { assert NodeOk(z, n); }
  }

  lemma SameDisk(z: Snapshot, y: Snapshot)
    requires LinkedDisk(z) && y.nodes == z.nodes && y.view == z.view
    ensures LinkedDisk(y) && Abs(y) == Abs(z)
  {
    hide Contents, L.Wf;
    AbsSame(z, y);
    forall n | 0 <= n < |y.nodes| ensures NodeOk(y, n) { assert NodeOk(z, n); }
  }

  /** iunlock and iput of the inode that lost a link: it is freed if this was its last link and
    * its last reference. */
  method LastPut(fs: Fs, q: nat, ghost z: Snapshot)
    requires Mid(fs, z, multiset{q}, {q}) && q < NINODE && Loaded(fs, q) && OrphansHeld(fs.inodes, fs.nodes)
    requires 0 < fs.inodes[q].inum
    requires LinkedDisk(fs.Snap())
    modifies fs, fs.cache
    ensures Mid(fs, z, multiset{}, {}) && OrphansHeld(fs.inodes, fs.nodes) && LinkedDisk(fs.Snap())
    ensures var i := old(fs.inodes)[q].inum; var t := Abs(old(fs.Snap()));
            Abs(fs.Snap()) == t || (t[i].nlink == 0 && t[i].typ != 0 && Abs(fs.Snap()) == L.Free(t, i))
  {
    hide Owned, AllStored, Coherent, Linked, Permutation, Recency, OrphansHeld, Contents, EntriesOf, InodeFreed, L.Free,
         Abs, LinkedDisk;
    ghost var a, y := fs.inodes, fs.Snap();
    assert y.inodes[q].d.typ != 0;
    var ok := fs.Iunlock(q);
    UnlockKeeps(a, fs.inodes, fs.nodes, q);
    assert OrphansHeld(fs.inodes, fs.nodes) by {
      HoldsNone(a);
      HoldsSet(a, a, multiset{}, q, fs.inodes[q]);
      HoldsOrphans(a, fs.inodes, multiset{}, fs.nodes);
    }
    ghost var b := fs.inodes;
    var r := fs.Iput(q);
    PutBack(z.inodes, a, fs.inodes, q);
    ValidShaped(fs);
    if b[q].valid && b[q].d.nlink == 0 && b[q].ref == 1 {
      FreedView(fs.sb, y, y.(inodes := b), fs.Snap(), b[q].inum);
      FreedDisk(fs.sb, y, fs.Snap(), b[q].inum);
    } else {
      SameDisk(y, fs.Snap());
    }
    AbsAt(y, b[q].inum);
  }

  lemma AbsAt(z: Snapshot, i: nat)
    requires Shaped(z) && i < |z.nodes|
    ensures Abs(z)[i].nlink == z.nodes[i].nlink && Abs(z)[i].typ == z.nodes[i].typ
  {
  }

  lemma FreedView(sb: SuperBlock, z: Snapshot, z': Snapshot, y: Snapshot, i: nat)
    requires InodeFreed(sb, i, z', y) && z'.nodes == z.nodes && z'.view == z.view && z'.used == z.used
    requires z'.owner == z.owner
    ensures InodeFreed(sb, i, z, y) && |y.nodes| == |z.nodes|
  {
    hide Contents;
  }

  lemma PutBack(z: seq<Inode>, a: seq<Inode>, b: seq<Inode>, q: nat)
    requires Holds(z, a, multiset{q}) && Locks(a, {q}) && q < |a| && |b| == |a| && b == a[q := b[q]]
    requires b[q].ref == a[q].ref - 1 && !b[q].locked && b[q].inum == a[q].inum
    requires b[q].ref > 0 ==> b[q].valid == a[q].valid
    ensures Holds(z, b, multiset{}) && Locks(b, {})
  {
    forall p | 0 <= p < |b| ensures Kept(z[p], b[p], multiset{}[p]) { assert Kept(z[p], a[p], multiset{q}[p]); }
  }

  lemma CutOrphans(z: Snapshot, y: Snapshot, dpi: nat, k: nat, i: nat, q: nat)
    requires Cut(z, y, dpi, k, i) && OrphansHeld(z.inodes, z.nodes) && Holds(z.inodes, y.inodes, multiset{q})
    requires q < |y.inodes| && y.inodes[q].ref > 0 && y.inodes[q].valid && y.inodes[q].inum == i
    requires y.nodes[dpi].nlink == z.nodes[dpi].nlink || y.nodes[dpi].nlink >= 1
    ensures OrphansHeld(y.inodes, y.nodes)
  {
    hide Contents, EntriesOf;
    HoldsOrphans(z.inodes, y.inodes, multiset{q}, z.nodes);
    forall j | 0 <= j < |y.nodes| && y.nodes[j].typ != 0 && y.nodes[j].nlink == 0 ensures HeldValid(y.inodes, j) {
      if j != i && j != dpi { assert SameFile(z, y, j); }
    }
  }

  // ---- sys_unlink ---------------------------------------------------------------------------------

  /** What was unlinked: entry k of dpi, naming i. */
  datatype Cutting = Uncut | Gone(dpi: nat, k: nat, i: nat)

  ghost predicate Unlinks(fs: Fs, z: Snapshot, done: bool, m: Cutting)
    requires Shaped(z)
    reads fs, fs.cache
  {
    if !done then Holding(fs, z, multiset{}, {})
    else
      && Mid(fs, z, multiset{}, {}) && OrphansHeld(fs.inodes, fs.nodes) && m.Gone?
      && L.CanUnlink(Abs(z), m.dpi, m.k, m.i) && LinkedDisk(fs.Snap())
      && var t := L.Unlink(Abs(z), m.dpi, m.k, m.i);
         Abs(fs.Snap()) == t || (t[m.i].nlink == 0 && Abs(fs.Snap()) == L.Free(t, m.i))
  }

  ghost predicate NonEmpty(z: Snapshot, i: nat)
    requires i < |z.nodes|
  {
    |z.nodes[i].addrs| == NDIRECT + 1 && z.nodes[i].typ == T_DIR && !L.EmptyDir(NodeOf(z, i).dir)
  }

  /** What the path asks of sys_unlink, with w where its parent leads: the entry of the last
    * component goes; or nothing happens, for want of a parent or a name, for "." and "..", or
    * because the name is that of a directory with entries. */
  ghost predicate UnlinksAt(z: Snapshot, w: Walked, cs: seq<seq<Byte>>, done: bool, m: Cutting) {
    if done then
      && m.Gone? && w == At(m.dpi) && Found(z, w, cs, At(m.i)) && |z.nodes[m.dpi].addrs| == NDIRECT + 1
      && m.k == Find(Contents(z.view, z.nodes[m.dpi]), Key(Last(cs)), 0)
    else
      || w == Missing || (cs != [] && (Key(Last(cs)) == L.DOT || Key(Last(cs)) == L.DOTDOT)) || Found(z, w, cs, Missing)
      || exists i: nat :: i < |z.nodes| && Found(z, w, cs, At(i)) && NonEmpty(z, i)
  }

  /** The tests before sys_unlink changes anything, with both inodes locked. */
  ghost predicate BothLocked(fs: Fs, z: Snapshot, dp: nat, q: nat)
    reads fs, fs.cache
  {
    && Holding(fs, z, multiset{dp} + multiset{q}, {dp} + {q}) && dp < NINODE && q < NINODE && dp != q
    && Loaded(fs, dp) && Loaded(fs, q) && fs.inodes[dp].d.typ == T_DIR
  }

  /** From the locked pair to the end. */
  method Finish(fs: Fs, dp: nat, q: nat, off: nat, ghost key: seq<Byte>, ghost z: Snapshot)
    returns (r: Outcome<bool>, ghost m: Cutting)
    requires BothLocked(fs, z, dp, q) && LinkedDisk(z) && OrphansHeld(z.inodes, z.nodes)
    requires Step(z, fs.inodes[dp].inum, key) == At(fs.inodes[q].inum) && key != L.DOT && key != L.DOTDOT
    requires fs.inodes[dp].d.nlink > 0 && fs.inodes[dp].inum != fs.inodes[q].inum
    requires off == ENTRY * Find(Contents(z.view, z.nodes[fs.inodes[dp].inum]), key, 0)
    modifies fs, fs.cache
    ensures r.Ok? && Unlinks(fs, z, r.value, m)
    ensures r == Ok(true) ==>
              m == Gone(old(fs.inodes)[dp].inum, Find(Contents(z.view, z.nodes[old(fs.inodes)[dp].inum]), key, 0),
                  old(fs.inodes)[q].inum)
    ensures r == Ok(false) ==> var i := old(fs.inodes)[q].inum; i < |z.nodes| && NonEmpty(z, i)
  {
    hide Fs.Valid, OrphansHeld, Holds, Locks, Contents, KeyN, InumAt, KeyAt, EntriesOf, L.Wf, Abs, OnlyTwo, L.CanUnlink,
         L.Unlink, L.Free;
    m := Uncut;
    ghost var dpi, i := fs.inodes[dp].inum, fs.inodes[q].inum;
    ghost var k := Find(Contents(z.view, z.nodes[dpi]), key, 0);
    TargetFacts(fs, z, dp, q, key);
    if fs.inodes[q].d.nlink < 1 { return Panic, m; }
    if fs.inodes[q].d.typ == T_DIR {
      var empty := IsDirEmpty(fs, q);
      if !empty {
        HandOver(fs, q, z, multiset{dp} + multiset{q}, {dp} + {q});
        assert multiset{dp} + multiset{q} - multiset{q} == multiset{dp} && {dp} + {q} - {q} == {dp};
        HandOver(fs, dp, z, multiset{dp}, {dp});
        assert multiset{dp} - multiset{dp} == multiset{} && {dp} - {dp} == {};
        return Ok(false), m;
      }
    }
    CanCut(z, dpi, i, key);
    ParentLinks(z, dpi, k, i);
    var ok := CutLinks(fs, dp, q, off, k, z);
    assert ok;
    CutOrphans(z, fs.Snap(), dpi, k, i, q);
    CutDisk(z, fs.Snap(), dpi, k, i);
    LastPut(fs, q, z);
    r, m := Ok(true), Gone(dpi, k, i);
  }

  lemma TargetFacts(fs: Fs, z: Snapshot, dp: nat, q: nat, key: seq<Byte>)
    requires BothLocked(fs, z, dp, q) && LinkedDisk(z)
    requires Step(z, fs.inodes[dp].inum, key) == At(fs.inodes[q].inum)
    ensures GoodDir(fs, dp) && (fs.inodes[q].d.typ == T_DIR ==> GoodDir(fs, q)) && 0 < fs.inodes[q].inum < |z.nodes|
    ensures var i := fs.inodes[q].inum;
            && z.nodes[i].nlink >= 0 && fs.inodes[q].d == z.nodes[i]
            && (z.nodes[i].typ == T_DIR ==> EntriesOf(DirOf(fs, q)) == NodeOf(z, i).dir)
    ensures var dpi := fs.inodes[dp].inum;
            && dpi < |z.nodes| && DirOf(fs, dp) == Contents(z.view, z.nodes[dpi])
            && Find(DirOf(fs, dp), key, 0) < Slots(DirOf(fs, dp)) && fs.inodes[dp].d == z.nodes[dpi]
    ensures fs.inodes[q].d.typ != 0 && Mid(fs, z, multiset{dp} + multiset{q}, {dp} + {q})
    ensures fs.inodes[dp].d.nlink > 0 && key != L.DOT ==> fs.inodes[q].d.nlink >= 1
  {
    hide Fs.Valid, Holds, Locks, Contents, KeyN, InumAt, KeyAt, L.Names;
    assert NodeOk(z, fs.inodes[dp].inum) && NodeOk(z, fs.inodes[q].inum);
    assert L.CountsOk(Abs(z), fs.inodes[q].inum);
    assert fs.inodes[q].d.typ != 0 by { LoadedTyped(fs, q); }
    if fs.inodes[dp].d.nlink > 0 && key != L.DOT { EntryCounts(z, fs.inodes[dp].inum, key); }
  }

  /** A name in a linked directory counts. */
  lemma EntryCounts(z: Snapshot, dpi: nat, key: seq<Byte>)
    requires LinkedDisk(z) && dpi < |z.nodes| && z.nodes[dpi].typ == T_DIR && z.nodes[dpi].nlink > 0
    requires Step(z, dpi, key).At? && key != L.DOT
    ensures L.Names(Abs(z), Step(z, dpi, key).inum) > 0
  {
    hide Contents, KeyN, InumAt, KeyAt, L.Names, DiskOk, L.Wf;
    var c := Contents(z.view, z.nodes[dpi]);
    var k := Find(c, key, 0);
    assert EntriesOf(c)[k] == L.Entry(InumAt(c, k), KeyAt(c, k));
    L.NameCounts(Abs(z), dpi, k);
  }

  lemma LoadedTyped(fs: Fs, q: nat)
    requires fs.Valid() && Loaded(fs, q)
    ensures fs.inodes[q].d.typ != 0
  {
    hide Owned, AllStored, Coherent, Linked, Permutation, Recency, CacheOk;
  }

  lemma ParentLinks(z: Snapshot, dpi: nat, k: nat, i: nat)
    requires Shaped(z) && L.Wf(Abs(z)) && L.CanUnlink(Abs(z), dpi, k, i)
    ensures dpi < |z.nodes| && i < |z.nodes| && (z.nodes[i].typ == T_DIR ==> z.nodes[dpi].nlink >= 2)
    ensures z.nodes[dpi].nlink >= 0
  {
    hide L.Wf, L.Names;
    if z.nodes[i].typ == T_DIR { L.ParentStays(Abs(z), dpi, k, i); }
  }

  /** sys_unlink: either nothing changed and no reference was gained, or one entry is gone,
    * every link count is exact again, and an inode without links and references is free. It
    * never waits for a lock that it holds itself. */
  method SysUnlink(fs: Fs, path: seq<Byte>, cwd: nat, name0: seq<Byte>) returns (r: Outcome<bool>, ghost m: Cutting)
    requires Ready(fs, path, cwd) && |name0| == DIRSIZ && 0 < Start(fs.inodes, path, cwd) && LinkedDisk(fs.Snap())
    requires Start(fs.inodes, path, cwd) < |fs.nodes|
    modifies fs, fs.cache
    ensures !r.Blocked? && (r.Ok? ==> Unlinks(fs, old(fs.Snap()), r.value, m))
    ensures r.Ok? ==>
              UnlinksAt(old(fs.Snap()),
                  FollowParent(old(fs.Snap()), Start(old(fs.inodes), path, cwd), Components(path)), Components(path),
                  r.value, m)
    ensures r.Panic? ==>
              FollowParent(old(fs.Snap()), Start(old(fs.inodes), path, cwd), Components(path)) == Bad || CacheFull(fs)
  {
    hide Fs.Valid, OrphansHeld, DiskOk, Holds, Locks, Contents, KeyN, DirGet, Got, Components, Step, FollowParent, L.Wf,
         Abs, L.CanUnlink, L.Unlink, L.Free, Find, WholeDirs;
    m := Uncut;
    ghost var z := fs.Snap();
    var parent, name := OpenParent(fs, path, cwd, name0);
    if parent.Panic? { return Panic, m; }
    if parent.value == None { return Ok(false), m; }
    var dp := parent.value.value;
    assert {dp} - {dp} == {} && multiset{dp} - multiset{dp} == multiset{};
    DotKeys();
    var dot := StrNCmp(name, DotName(), DIRSIZ);
    var dotdot := StrNCmp(name, DotDotName(), DIRSIZ);
    if dot == 0 || dotdot == 0 {
      HandOver(fs, dp, z, multiset{dp}, {dp});
      return Ok(false), m;
    }
    r, m := UnlinkName(fs, dp, name, z);
  }

  /** From the locked parent on, with a name that is neither "." nor "..". */
  method UnlinkName(fs: Fs, dp: nat, name: seq<Byte>, ghost z: Snapshot) returns (r: Outcome<bool>, ghost m: Cutting)
    requires Holding(fs, z, multiset{dp}, {dp}) && Loaded(fs, dp) && fs.inodes[dp].d.typ == T_DIR
    requires 0 < fs.inodes[dp].inum
    requires LinkedDisk(z) && OrphansHeld(z.inodes, z.nodes) && Key(name) != L.DOT && Key(name) != L.DOTDOT
    modifies fs, fs.cache
    ensures !r.Blocked? && (r.Ok? ==> Unlinks(fs, z, r.value, m)) && (r.Panic? ==> CacheFull(fs))
    ensures r.Ok? ==> NameGone(z, old(fs.inodes)[dp].inum, Key(name), r.value, m)
  {
    hide Fs.Valid, OrphansHeld, DiskOk, Holds, Locks, Contents, KeyN, DirGet, Got, Step, L.Wf, Abs, L.CanUnlink,
         L.Unlink, L.Free, Find, WholeDirs;
    m := Uncut;
    ghost var dpi := fs.inodes[dp].inum;
    ghost var a := fs.inodes;
    assert {dp} - {dp} == {} && multiset{dp} - multiset{dp} == multiset{};
    LookupSound(z, dpi, Key(name));
    var found, off := Search(fs, dp, name, z, multiset{dp}, {dp});
    if found.Panic? { return Panic, m; }
    if found.value == None {
      HandOver(fs, dp, z, multiset{dp}, {dp});
      return Ok(false), m;
    }
    var q := found.value.value;
    GotKeeps(a, fs.inodes, q, fs.inodes[q].inum, dp);
    assert q != dp;
    ValidShaped(fs);
    DistinctInums(fs, dp, q);
    HeldEntry(fs, z, multiset{dp} + multiset{q}, {dp}, q);
    var entered := Enter(fs, q, z, multiset{dp} + multiset{q}, {dp});
    assert entered.Ok?;
    r, m := Finish(fs, dp, q, off, Key(name), z);
  }

  /** The entry of the key in directory dpi goes; or there is none, or it names a directory with
    * entries. */
  ghost predicate NameGone(z: Snapshot, dpi: nat, key: seq<Byte>, done: bool, m: Cutting) {
    && DiskOk(z) && dpi < |z.nodes| && |z.nodes[dpi].addrs| == NDIRECT + 1
    && if done then m.Gone? && m.dpi == dpi && Step(z, dpi, key) == At(m.i)
        && m.k == Find(Contents(z.view, z.nodes[dpi]), key, 0)
       else || Step(z, dpi, key) == Missing
            || exists i: nat :: i < |z.nodes| && Step(z, dpi, key) == At(i) && NonEmpty(z, i)
  }

  /** A lookup in a directory meets no torn entry, and what it finds under a name other than
    * the dots is allocated and not the directory itself; in a removed directory it finds
    * nothing. */
  lemma LookupSound(z: Snapshot, dpi: nat, key: seq<Byte>)
    requires LinkedDisk(z) && 0 < dpi < |z.nodes| && z.nodes[dpi].typ == T_DIR && key != L.DOT && key != L.DOTDOT
    ensures Step(z, dpi, key) != Bad
    ensures Step(z, dpi, key).At? ==> z.nodes[dpi].nlink > 0
    ensures Step(z, dpi, key).At? ==> Step(z, dpi, key).inum != dpi && z.nodes[Step(z, dpi, key).inum].typ != 0
  {
    hide Contents, KeyN, InumAt, KeyAt, L.Names, DiskOk, L.Wf, L.Rising;
    var c := Contents(z.view, z.nodes[dpi]);
    assert |c| == z.nodes[dpi].size by { ContentsSize(z, dpi); }
    if Step(z, dpi, key).At? {
      var k := Find(c, key, 0);
      assert EntriesOf(c)[k] == L.Entry(InumAt(c, k), KeyAt(c, k));
      L.NameSound(Abs(z), dpi, k);
    }
  }

  lemma GotKeeps(a: seq<Inode>, b: seq<Inode>, q: nat, i: nat, p: nat)
    requires Got(a, b, q, i) && p < |a| && a[p].ref > 0
    ensures |b| == |a| && b[p].inum == a[p].inum && b[p].valid == a[p].valid && b[p].d == a[p].d && b[p].ref > 0
  {
  }

  lemma DistinctInums(fs: Fs, p: nat, q: nat)
    requires fs.Valid() && p < NINODE && q < NINODE && p != q && |fs.inodes| == NINODE && fs.inodes[p].ref > 0
    requires fs.inodes[q].ref > 0
    ensures fs.inodes[p].inum != fs.inodes[q].inum
  {
    hide Owned, AllStored, Coherent, Linked, Permutation, Recency;
    assert p < q || q < p;
  }
}
