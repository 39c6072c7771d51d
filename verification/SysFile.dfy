/** create of kernel/sysfile.c, on the inode layer. */
module SysFile {
  import opened Common
  import opened Bytes
  import opened BufferCache
  import opened DiskLayout
  import opened FileData
  import opened FileSystem
  import opened DirEntries
  import opened Directories
  import opened Paths
  import opened LinkTable
  import L = Links

  /** The cache since z: the references h were added, the entries l are locked; the disk may
    * have changed. */
  ghost predicate Mid(fs: Fs, z: Snapshot, h: multiset<nat>, l: set<nat>)
    reads fs, fs.cache
  {
    fs.Valid() && Holds(z.inodes, fs.inodes, h) && Locks(fs.inodes, l) && |fs.nodes| == |z.nodes| && Shaped(fs.Snap())
  }

  lemma ValidShaped(fs: Fs)
    requires fs.Valid()
    ensures Shaped(fs.Snap()) && Settles(fs.sb, fs.Snap()) && |fs.nodes| == fs.sb.nInodes && |fs.inodes| == NINODE
  {
    hide Coherent, Linked, Permutation, Recency;
    OwnedBasics(fs.sb, fs.cache.view, fs.nodes, fs.used, fs.owner, {});
  }

  /** New fields of a loaded inode, written through to disk: no file changes. */
  method Update(fs: Fs, p: nat, d: Dinode)
    requires fs.Valid() && Loaded(fs, p) && Storable(d) && d.typ != 0
    requires d.addrs == fs.inodes[p].d.addrs && d.size == fs.inodes[p].d.size
    modifies fs, fs.cache
    ensures fs.Valid() && fs.inodes == old(fs.inodes)[p := old(fs.inodes)[p].(d := d)]
    ensures fs.nodes == old(fs.nodes)[old(fs.inodes)[p].inum := d] && fs.owner == old(fs.owner)
    ensures OnlyNode(old(fs.Snap()), fs.Snap(), old(fs.inodes)[p].inum)
    ensures |d.addrs| == NDIRECT + 1 && Contents(fs.cache.view, d) == old(Contents(fs.cache.view, fs.inodes[p].d))
  {
    hide Coherent, Linked, Permutation, Recency, Owned, OnDisk, WithInode, Contents;
    ghost var z, i := fs.Snap(), fs.inodes[p].inum;
    ValidShaped(fs);
    FieldsSettle(fs.sb, z, i, d);
    fs.ReadyOf(p);
    fs.SetFields(p, d);
    fs.Iupdate(p);
    OnlyNodeView(z, z.(view := WithInode(fs.sb, z.view, i, d), nodes := z.nodes[i := d]), fs.Snap(), i);
  }

  // ---- a new inode -------------------------------------------------------------------------

  /** The locked entries are loaded. */
  ghost predicate LockedLoaded(fs: Fs, l: set<nat>)
    reads fs
  {
    forall q :: q in l ==> Loaded(fs, q) && fs.nodes[fs.inodes[q].inum].typ != 0
  }

  lemma FreshUnlocked(fs: Fs, a: seq<Inode>, nodes: seq<Dinode>, l: set<nat>, p: nat, i: nat)
    requires Got(a, fs.inodes, p, i) && Locks(a, l) && i < |nodes| && nodes[i].typ == 0
    requires forall q :: q in l ==> q < |a| && a[q].ref > 0 && a[q].inum < |nodes| && nodes[a[q].inum].typ != 0
    ensures p !in l && !fs.inodes[p].locked
  {
  }

  /** ialloc, ilock and the first iupdate of create: inode i, which was free, has the type and
    * one link, and no other inode changed. */
  method NewInode(fs: Fs, typ: int, major: int, minor: int, ghost z: Snapshot, ghost h: multiset<nat>,
        ghost l: set<nat>)
    returns (r: Outcome<nat>)
    requires Mid(fs, z, h, l) && LockedLoaded(fs, l) && Short(typ) && typ != 0 && Short(major) && Short(minor)
    modifies fs, fs.cache
    ensures !r.Blocked? && (r.Panic? ==> NoFreeInode(old(fs.nodes)) || CacheFull(fs))
    ensures r.Ok? ==>
              && r.value < NINODE && r.value !in l && Mid(fs, z, h + multiset{r.value}, l + {r.value})
              && Loaded(fs, r.value)
    ensures r.Ok? ==> var p := r.value; var i := fs.inodes[p].inum;
              && 1 <= i < |old(fs.nodes)| && old(fs.nodes)[i].typ == 0 && OnlyNode(old(fs.Snap()), fs.Snap(), i)
              && fs.inodes[p].d == FreshDinode(typ).(major := major, minor := minor, nlink := 1)
              && fs.nodes == old(fs.nodes)[i := fs.inodes[p].d] && fs.owner == old(fs.owner)
              && fs.inodes == old(fs.inodes)[p := fs.inodes[p]]
  {
    hide Fs.Valid, Holds, Locks, Contents;
    ghost var z0, a := fs.Snap(), fs.inodes;
    ValidShaped(fs);
    r := fs.Ialloc(typ);
    if !r.Ok? { return; }
    var p := r.value;
    ghost var i := fs.inodes[p].inum;
    ValidShaped(fs);
    AllocOnly(z0, fs.Snap(), i);
    HoldsGot(z.inodes, a, fs.inodes, h, l, p, i);
    FreshUnlocked(fs, a, z0.nodes, l, p, i);
    ghost var b, y := fs.inodes, fs.Snap();
    var locked := fs.Ilock(p);
    assert locked.Ok?;
    HoldsSet(z.inodes, b, h + multiset{p}, p, fs.inodes[p]);
    OnlyNodeView(z0, y, fs.Snap(), i);
    ghost var c, x := fs.inodes, fs.Snap();
    FreshFields(typ, major, minor);
    Update(fs, p, fs.inodes[p].d.(major := major, minor := minor, nlink := 1));
    OnlyNodeTwice(z0, x, fs.Snap(), i);
    HoldsSet(z.inodes, c, h + multiset{p}, p, fs.inodes[p]);
    LocksSet(b, c, fs.inodes, l, p);
    ValidShaped(fs);
  }

  lemma FreshFields(typ: int, major: int, minor: int)
    requires Short(typ) && Short(major) && Short(minor)
    ensures Storable(FreshDinode(typ).(major := major, minor := minor, nlink := 1))
  {
  }

  lemma LocksSet(b: seq<Inode>, c: seq<Inode>, e: seq<Inode>, l: set<nat>, p: nat)
    requires Locks(b, l) && p < |b| && |c| == |b| && |e| == |b|
    requires c == b[p := c[p]] && c[p].locked && e == c[p := e[p]] && e[p].locked
    ensures Locks(e, l + {p})
  {
  }

  lemma AllocOnly(z: Snapshot, y: Snapshot, i: nat)
    requires Shaped(z) && Shaped(y) && i < |z.nodes| == |y.nodes| && y.nodes == z.nodes[i := y.nodes[i]]
    requires forall j :: 0 <= j < |z.nodes| && j != i ==> Contents(y.view, z.nodes[j]) == Contents(z.view, z.nodes[j])
    ensures OnlyNode(z, y, i)
  {
    hide Contents;
    forall j | 0 <= j < |z.nodes| && j != i ensures SameFile(z, y, j) {}
  }

  ghost predicate NoFreeInode(nodes: seq<Dinode>) { forall j :: 1 <= j < |nodes| ==> nodes[j].typ != 0 }

  // ---- a new entry -------------------------------------------------------------------------

  /** The loaded directory of entry p holds whole entries, all of them on the disk. */
  ghost predicate GoodDir(fs: Fs, p: nat)
    reads fs, fs.cache
  {
    && Loaded(fs, p) && fs.inodes[p].d.typ == T_DIR && |fs.inodes[p].d.addrs| == NDIRECT + 1
    && var c := Contents(fs.cache.view, fs.inodes[p].d); |c| % ENTRY == 0 && InRange(c, |fs.nodes|)
  }

  ghost function DirOf(fs: Fs, p: nat): seq<Byte>
    reads fs, fs.cache
    requires GoodDir(fs, p)
  {
    Contents(fs.cache.view, fs.inodes[p].d)
  }

  lemma EntriesRange(c: seq<Byte>, c': seq<Byte>, k: nat, e: L.Entry, n: nat)
    requires InRange(c, n) && k <= Slots(c) && EntriesOf(c') == L.PutEntry(EntriesOf(c), k, e) && e.inum < n
    ensures InRange(c', n)
  {
    hide InumAt, KeyAt;
    forall j | 0 <= j < Slots(c') ensures InumAt(c', j) < n {
      assert EntriesOf(c')[j].inum == InumAt(c', j);
      assert j < Slots(c) ==> EntriesOf(c)[j].inum == InumAt(c, j);
    }
  }

  /** The directory is as large as a file can be. */
  ghost predicate Full(c: seq<Byte>) { ENTRY * FreeSlot(c, 0) + ENTRY > MAXFILEBLK * BSIZE }

  /** The blocks that one more entry takes. */
  ghost function Need(c: seq<Byte>): nat {
    MoreSlots(SlotCount(|c|), ENTRY * FreeSlot(c, 0), ENTRY * FreeSlot(c, 0) + ENTRY)
  }

  /** dir_link of a new name. */
  method LinkIn(fs: Fs, p: nat, name: seq<Byte>, inum: nat, ghost z: Snapshot, ghost h: multiset<nat>,
        ghost l: set<nat>)
    returns (ok: bool)
    requires Mid(fs, z, h, l) && GoodDir(fs, p) && DirGet(DirOf(fs, p), Key(name)) == 0 && 0 < inum < |fs.nodes|
    requires inum < U64
    modifies fs, fs.cache
    ensures fs.sb.nInodes > 0
    ensures !ok ==> Full(old(DirOf(fs, p))) || old(|fs.owner.Keys|) + old(Need(DirOf(fs, p))) > Capacity(fs.sb)
    ensures ok ==> |fs.owner.Keys| == old(|fs.owner.Keys|) + old(Need(DirOf(fs, p)))
    ensures ok ==> Mid(fs, z, h, l) && GoodDir(fs, p) && OnlyNode(old(fs.Snap()), fs.Snap(), old(fs.inodes)[p].inum)
    ensures ok ==> fs.inodes == old(fs.inodes)[p := old(fs.inodes)[p].(d := fs.inodes[p].d)]
    ensures ok ==> SameFields(old(fs.inodes)[p].d, fs.inodes[p].d)
    ensures ok ==>
              var c := old(DirOf(fs, p));
              EntriesOf(DirOf(fs, p)) == L.PutEntry(EntriesOf(c), FreeSlot(c, 0), L.Entry(inum, Key(name)))
    ensures ok ==>
              forall key ::
                DirGet(DirOf(fs, p), key) == if key == Key(name) then inum else DirGet(old(DirOf(fs, p)), key)
  {
    hide Fs.Valid, Holds, Locks, Contents, KeyN, InumAt, KeyAt, DirGet, EntriesOf, EntryBytes;
    ghost var c, y, i := DirOf(fs, p), fs.Snap(), fs.inodes[p].inum;
    LinkNeeds(fs, p, name);
    var r := DirLink(fs, p, name, inum, c, l);
    ok := r.Ok?;
    if ok {
      assert r.value;
      LinkedIn(fs.sb, y, fs.Snap(), i, c, name, inum);
      HoldsSet(z.inodes, y.inodes, h, p, fs.inodes[p]);
      ValidShaped(fs);
      LocksKept(y.inodes, fs.inodes, l, p);
      NodeLoaded(fs, p);
      EntriesRange(c, Contents(fs.cache.view, fs.inodes[p].d), FreeSlot(c, 0), L.Entry(inum, Key(name)), |fs.nodes|);
    }
  }

  predicate SameFields(d: Dinode, d': Dinode) {
    d'.typ == d.typ && d'.nlink == d.nlink && d'.major == d.major && d'.minor == d.minor
  }

  lemma NodeLoaded(fs: Fs, p: nat)
    requires fs.Valid() && p < NINODE && p < |fs.inodes| && fs.inodes[p].ref > 0 && fs.inodes[p].valid
    ensures Loaded(fs, p)
  {
    hide Coherent, Linked, Permutation, Recency, Owned, AllStored;
    assert EntryOk(fs.inodes[p], fs.nodes);
  }

  lemma LocksKept(a: seq<Inode>, b: seq<Inode>, l: set<nat>, p: nat)
    requires Locks(a, l) && p < |a| && |b| == |a| && b == a[p := b[p]] && b[p].locked == a[p].locked
    ensures Locks(b, l)
  {
  }

  lemma LinkedIn(sb: SuperBlock, z: Snapshot, y: Snapshot, i: nat, c: seq<Byte>, name: seq<Byte>, inum: nat)
    requires Shaped(z) && i < |z.nodes| && z.nodes[i].typ == T_DIR && c == Contents(z.view, z.nodes[i])
    requires |c| % ENTRY == 0 && inum < U64
    requires Bound(sb, z, y, i, c, name, inum)
    ensures OnlyNode(z, y, i) && SameFields(z.nodes[i], y.nodes[i]) && y.nodes[i].typ == T_DIR
    ensures EntriesOf(Contents(y.view, y.nodes[i])) ==
                L.PutEntry(EntriesOf(c), FreeSlot(c, 0), L.Entry(inum, Key(name)))
    ensures |y.owner.Keys| == |z.owner.Keys| + Need(c)
  {
    hide Contents, KeyN, InumAt, KeyAt, DirGet, EntriesOf, EntryBytes, Overwrite, FileWritten;
    var field :| |field| == DIRSIZ && Key(field) == Key(name)
        && FileWritten(sb, i, z, y, ENTRY * FreeSlot(c, 0), EntryBytes(inum, field));
    WrittenOnly(sb, i, z, y, ENTRY * FreeSlot(c, 0), EntryBytes(inum, field));
    WrittenFields(sb, i, z, y, ENTRY * FreeSlot(c, 0), EntryBytes(inum, field));
    EntriesWritten(c, FreeSlot(c, 0), inum, field);
  }

  lemma WrittenFields(sb: SuperBlock, i: nat, z: Snapshot, y: Snapshot, off: nat, src: seq<Byte>)
    requires FileWritten(sb, i, z, y, off, src) && Shaped(z)
    ensures i < |z.nodes| == |y.nodes| && SameFields(z.nodes[i], y.nodes[i])
    ensures |y.nodes[i].addrs| == NDIRECT + 1 && off <= |Contents(z.view, z.nodes[i])|
    ensures Contents(y.view, y.nodes[i]) == Overwrite(Contents(z.view, z.nodes[i]), off, src)
    ensures |y.owner.Keys| == |z.owner.Keys| + MoreSlots(SlotCount(|Contents(z.view, z.nodes[i])|), off, off + |src|)
  {
    hide Contents, Overwrite, MoreSlots, SlotCount;
    ContentsSize(z, i);
  }

  lemma ContentsSize(z: Snapshot, i: nat)
    requires i < |z.nodes| && |z.nodes[i].addrs| == NDIRECT + 1
    ensures |Contents(z.view, z.nodes[i])| == z.nodes[i].size
  {
  }

  /** What a new name takes is all that dir_link can fail for. */
  lemma LinkNeeds(fs: Fs, p: nat, name: seq<Byte>)
    requires fs.Valid() && GoodDir(fs, p) && DirGet(DirOf(fs, p), Key(name)) == 0
    ensures p < |fs.inodes| && fs.sb.nInodes > 0
    ensures LinkPanics(fs.sb, fs.Snap(), p, DirOf(fs, p), name) ==>
              Full(DirOf(fs, p)) || |fs.owner.Keys| + Need(DirOf(fs, p)) > Capacity(fs.sb)
  {
    hide Owned, AllStored, Coherent, Linked, Permutation, Recency, CacheOk, SlotCount, MoreSlots, KeyN, KeyAt;
    OwnedBasics(fs.sb, fs.cache.view, fs.nodes, fs.used, fs.owner, {});
    ContentsSize(fs.Snap(), fs.inodes[p].inum);
  }

  // ---- create ----------------------------------------------------------------------------

  /** ++ on a link count, a 16-bit signed integer. */
  function Bump(n: int): int { if n == 0x7FFF then -0x8000 else n + 1 }

  ghost predicate OnlyTwo(z: Snapshot, y: Snapshot, i: nat, j: nat) {
    && |y.nodes| == |z.nodes| && Shaped(z) && Shaped(y)
    && (forall n :: 0 <= n < |z.nodes| && n != i && n != j ==> SameFile(z, y, n))
  }

  lemma OnlyTwoStep(z: Snapshot, x: Snapshot, y: Snapshot, i: nat, j: nat)
    requires OnlyTwo(z, x, i, j) && (OnlyNode(x, y, i) || OnlyNode(x, y, j))
    ensures OnlyTwo(z, y, i, j)
  {
    hide Contents;
    forall n | 0 <= n < |z.nodes| && n != i && n != j
      ensures SameFile(z, y, n)
    {
      assert SameFile(z, x, n) && SameFile(x, y, n);
    }
  }

  lemma OnlyTwoOne(z: Snapshot, y: Snapshot, i: nat, j: nat)
    requires OnlyNode(z, y, i)
    ensures OnlyTwo(z, y, i, j)
  {
  }

  /** The entry of another inode is untouched by a change to inode i. */
  lemma OtherDir(fs: Fs, x: Snapshot, q: nat, i: nat)
    requires fs.Valid() && OnlyNode(x, fs.Snap(), i) && q < NINODE && q < |fs.inodes| == |x.inodes|
    requires fs.inodes[q] == x.inodes[q]
    requires x.inodes[q].ref > 0 && x.inodes[q].valid && x.inodes[q].inum < |x.nodes| && x.inodes[q].inum != i
    requires x.inodes[q].d == x.nodes[x.inodes[q].inum]
    ensures Loaded(fs, q) && |fs.inodes[q].d.addrs| == NDIRECT + 1
    ensures Contents(fs.cache.view, fs.inodes[q].d) == Contents(x.view, x.inodes[q].d)
  {
    hide Fs.Valid, Contents;
    assert SameFile(x, fs.Snap(), x.inodes[q].inum);
  }

  /** The directory part of create: one more link to the parent, and the two dots. */
  method MakeDots(fs: Fs, dp: nat, p: nat, ghost z: Snapshot, ghost h: multiset<nat>, ghost l: set<nat>)
    returns (ok: bool)
    requires Mid(fs, z, h, l) && GoodDir(fs, dp) && GoodDir(fs, p) && DirOf(fs, p) == [] && fs.sb.nInodes <= U64
    requires fs.inodes[dp].inum != fs.inodes[p].inum && 0 < fs.inodes[p].inum && 0 < fs.inodes[dp].inum
    modifies fs, fs.cache
    ensures fs.sb.nInodes > 0 && (!ok ==> old(|fs.owner.Keys|) + 1 > Capacity(fs.sb))
    ensures ok ==> |fs.owner.Keys| == old(|fs.owner.Keys|) + 1
    ensures ok ==> Mid(fs, z, h, l) && GoodDir(fs, dp) && GoodDir(fs, p) && DirOf(fs, dp) == old(DirOf(fs, dp))
    ensures ok ==> OnlyTwo(old(fs.Snap()), fs.Snap(), old(fs.inodes)[p].inum, old(fs.inodes)[dp].inum)
    ensures ok ==> EntriesOf(DirOf(fs, p)) == L.Dots(old(fs.inodes)[p].inum, old(fs.inodes)[dp].inum)
    ensures ok ==>
              fs.inodes == old(fs.inodes)[p := old(fs.inodes)[p].(d := fs.inodes[p].d)][dp :=
                  old(fs.inodes)[dp].(d := fs.inodes[dp].d)]
    ensures ok ==> SameFields(old(fs.inodes)[p].d, fs.inodes[p].d)
    ensures ok ==> SameFields(old(fs.inodes)[dp].d.(nlink := Bump(old(fs.inodes)[dp].d.nlink)), fs.inodes[dp].d)
  {
    hide Fs.Valid, Holds, Locks, Contents, KeyN, InumAt, KeyAt, DirGet, EntriesOf, OnlyNode, Need, Full, Capacity;
    ghost var y0, i, dpi := fs.Snap(), fs.inodes[p].inum, fs.inodes[dp].inum;
    ValidShaped(fs);
    ghost var a := fs.inodes;
    BumpStorable(fs, dp);
    Update(fs, dp, fs.inodes[dp].d.(nlink := Bump(fs.inodes[dp].d.nlink)));
    ghost var y1 := fs.Snap();
    HoldsSet(z.inodes, a, h, dp, fs.inodes[dp]);
    LocksKept(a, fs.inodes, l, dp);
    ValidShaped(fs);
    OnlyTwoOne(y0, y1, dpi, i);
    OtherDir(fs, y0, p, dpi);
    NodeLoaded(fs, dp);
    DotKeys();
    assert DirGet([], Key(DotName())) == 0 && DirGet([], Key(DotDotName())) == 0 && Need([]) == 1 && !Full([]) by {
      NoEntries();
    }
    ok := LinkIn(fs, p, DotName(), fs.inodes[p].inum, z, h, l);
    if !ok { return; }
    ghost var y2 := fs.Snap();
    OnlyTwoStep(y0, y1, y2, dpi, i);
    OtherDir(fs, y1, dp, i);
    DotNeeds(DirOf(fs, p), i);
    assert |fs.owner.Keys| <= Capacity(fs.sb) by { NoMore(fs); }
    ok := LinkIn(fs, p, DotDotName(), fs.inodes[dp].inum, z, h, l);
    OnlyTwoStep(y0, y2, fs.Snap(), dpi, i);
    OtherDir(fs, y2, dp, i);
    TwoDots(i, dpi);
  }

  /** The two dots share the first block. */
  lemma DotNeeds(c: seq<Byte>, i: nat)
    requires EntriesOf(c) == [L.Entry(i, L.DOT)] && i > 0 && |c| % ENTRY == 0
    ensures Need(c) == 0 && !Full(c)
  {
    hide InumAt, KeyAt;
    assert |EntriesOf(c)| == Slots(c) == 1;
    assert EntriesOf(c)[0].inum == InumAt(c, 0);
  }

  lemma NoMore(fs: Fs)
    requires fs.Valid()
    ensures fs.sb.nInodes > 0 && |fs.owner.Keys| <= Capacity(fs.sb)
  {
    hide AllStored, Coherent, Linked, Permutation, Recency, CacheOk, Owned;
    OwnedBasics(fs.sb, fs.cache.view, fs.nodes, fs.used, fs.owner, {});
    FullIff(fs.sb, fs.cache.view, fs.nodes, fs.used, fs.owner);
  }

  lemma BumpStorable(fs: Fs, p: nat)
    requires fs.Valid() && Loaded(fs, p)
    ensures Storable(fs.inodes[p].d.(nlink := Bump(fs.inodes[p].d.nlink)))
  {
    hide Coherent, Linked, Permutation, Recency, Owned, OnDisk;
    ValidShaped(fs);
    StoredBasics(fs.sb, fs.cache.view, fs.nodes, fs.used, fs.inodes[p].inum);
  }

  function DotName(): seq<Byte> { [46] }

  function DotDotName(): seq<Byte> { [46, 46] }

  lemma DotKeys()
    ensures Key(DotName()) == L.DOT && Key(DotDotName()) == L.DOTDOT && Key(DotName()) != Key(DotDotName())
  {
    assert DotName()[1..] == [] && DotDotName()[1..] == [46] && [46][1..] == [];
    assert KeyN([46], 24) == [46] && KeyN([46], 23) == [46];
  }

  lemma NoEntries()
    ensures forall key :: DirGet([], key) == 0
    ensures Need([]) == 1 && !Full([])
    ensures EntriesOf([]) == []
  {
  }

  lemma TwoDots(i: nat, dpi: nat)
    ensures FreeSlot([], 0) == 0
    ensures L.PutEntry([], 0, L.Entry(i, L.DOT)) == [L.Entry(i, L.DOT)]
    ensures forall c :: EntriesOf(c) == [L.Entry(i, L.DOT)] && i > 0 ==> FreeSlot(c, 0) == 1
    ensures L.PutEntry([L.Entry(i, L.DOT)], 1, L.Entry(dpi, L.DOTDOT)) == L.Dots(i, dpi)
  {
    hide InumAt, KeyAt;
    forall c | EntriesOf(c) == [L.Entry(i, L.DOT)] && i > 0 ensures FreeSlot(c, 0) == 1 {
      assert EntriesOf(c)[0].inum == InumAt(c, 0);
    }
  }

  /** From z to y create made inode i, named in slot k of directory dpi. */
  ghost predicate Made(z: Snapshot, y: Snapshot, dpi: nat, k: nat, key: seq<Byte>, i: nat, typ: int) {
    && OnlyTwo(z, y, i, dpi) && 0 < i < |z.nodes| && 0 < dpi < |z.nodes| && i != dpi && z.nodes[i].typ == 0 && typ != 0
    && z.nodes[dpi].typ == y.nodes[dpi].typ == T_DIR && k <= |NodeOf(z, dpi).dir|
    && NodeOf(y, i) == L.Node(typ, 1, if typ == T_DIR then L.Dots(i, dpi) else [])
    && y.nodes[dpi].nlink == (if typ == T_DIR then Bump(z.nodes[dpi].nlink) else z.nodes[dpi].nlink)
    && NodeOf(y, dpi).dir == L.PutEntry(NodeOf(z, dpi).dir, k, L.Entry(i, key))
    && y.nodes[i].size % ENTRY == 0 && y.nodes[dpi].size % ENTRY == 0
  }

  /** On the table of inodes that is Links' create, if and only if the link count of the
    * parent does not overflow. */
  lemma MadeAbs(z: Snapshot, y: Snapshot, dpi: nat, k: nat, key: seq<Byte>, i: nat, typ: int)
    requires Made(z, y, dpi, k, key, i, typ)
    ensures Abs(y) == L.Create(Abs(z), dpi, k, key, i, typ) <==> !(typ == T_DIR && z.nodes[dpi].nlink == 0x7FFF)
  {
    hide Contents, EntriesOf;
    var t := L.Create(Abs(z), dpi, k, key, i, typ);
    assert Abs(y)[dpi].nlink == t[dpi].nlink <==> !(typ == T_DIR && z.nodes[dpi].nlink == 0x7FFF);
    forall n | 0 <= n < |z.nodes| && n != dpi ensures Abs(y)[n] == t[n] {
      if n != i && n != dpi { assert SameFile(z, y, n); }
    }
  }

  lemma MadeOrphans(z: Snapshot, y: Snapshot, dpi: nat, k: nat, key: seq<Byte>, i: nat, typ: int)
    requires Made(z, y, dpi, k, key, i, typ) && OrphansHeld(z.inodes, z.nodes) && z.nodes[dpi].nlink >= 0
    ensures OrphansHeld(z.inodes, y.nodes)
  {
    hide Contents, EntriesOf;
    forall j | 0 <= j < |y.nodes| && y.nodes[j].typ != 0 && y.nodes[j].nlink == 0 ensures HeldValid(z.inodes, j) {
      if j != i && j != dpi { assert SameFile(z, y, j); }
    }
  }

  /** No room for the entry in its directory, or on the disk for it and a new directory. */
  ghost predicate Cramped(sb: SuperBlock, z: Snapshot, c: seq<Byte>, typ: int)
    requires sb.nInodes > 0
  {
    Full(c) || |z.owner.Keys| + One(typ == T_DIR) + Need(c) > Capacity(sb)
  }

  /** The part of create that makes a new inode, up to its name in the parent. */
  method Make(fs: Fs, dp: nat, name: seq<Byte>, typ: int, major: int, minor: int, ghost z: Snapshot)
    returns (r: Outcome<nat>)
    requires Holding(fs, z, multiset{dp}, {dp}) && GoodDir(fs, dp) && DirGet(DirOf(fs, dp), Key(name)) == 0
    requires 0 < fs.inodes[dp].inum
    requires Short(typ) && typ != 0 && Short(major) && Short(minor) && fs.sb.nInodes <= U64
    modifies fs, fs.cache
    ensures fs.sb.nInodes > 0 && !r.Blocked?
    ensures r.Panic? ==> NoFreeInode(z.nodes) || CacheFull(fs) || Cramped(fs.sb, z, old(DirOf(fs, dp)), typ)
    ensures r.Ok? ==>
              var p, dpi := r.value, old(fs.inodes)[dp].inum;
              && p < NINODE && p != dp && Mid(fs, z, multiset{dp} + multiset{p}, {dp} + {p}) && Loaded(fs, p)
              && Loaded(fs, dp)
              && Made(z, fs.Snap(), dpi, FreeSlot(old(DirOf(fs, dp)), 0), Key(name), fs.inodes[p].inum, typ)
              && fs.inodes[p].d.major == major && fs.inodes[p].d.minor == minor
  {
    hide Fs.Valid, Holds, Locks, Contents, KeyN, InumAt, KeyAt, DirGet, EntriesOf, OnlyNode, Need, Full, Capacity,
         NoFreeInode, CacheFull, FreeSlot, OnlyTwo;
    ghost var dpi := fs.inodes[dp].inum;
    assert fs.sb.nInodes > 0 by { NoMore(fs); }
    r := NewIn(fs, dp, typ, major, minor, z);
    if !r.Ok? { return; }
    var p := r.value;
    ghost var i, y1 := fs.inodes[p].inum, fs.Snap();
    ghost var h, l := multiset{dp} + multiset{p}, {dp} + {p};
    var ok := FillNew(fs, dp, p, typ, z, h, l);
    if !ok { return Panic; }
    OnlyTwoJoin(z, y1, fs.Snap(), i, dpi);
    ghost var y2 := fs.Snap();
    ok := LinkIn(fs, dp, name, fs.inodes[p].inum, z, h, l);
    if !ok { return Panic; }
    OnlyTwoStep(z, y2, fs.Snap(), i, dpi);
    OtherDir(fs, y2, p, dpi);
  }

  /** The entries of the new inode: the two dots of a directory, and none otherwise. */
  method FillNew(fs: Fs, dp: nat, p: nat, typ: int, ghost z: Snapshot, ghost h: multiset<nat>, ghost l: set<nat>)
    returns (ok: bool)
    requires Mid(fs, z, h, l) && GoodDir(fs, dp) && Loaded(fs, p) && fs.inodes[p].d.typ == typ && fs.sb.nInodes <= U64
    requires |fs.inodes[p].d.addrs| == NDIRECT + 1 && Contents(fs.cache.view, fs.inodes[p].d) == []
    requires typ == T_DIR ==> GoodDir(fs, p)
    requires fs.inodes[dp].inum != fs.inodes[p].inum && 0 < fs.inodes[p].inum && 0 < fs.inodes[dp].inum
    modifies fs, fs.cache
    ensures fs.sb.nInodes > 0 && (!ok ==> typ == T_DIR && old(|fs.owner.Keys|) + 1 > Capacity(fs.sb))
    ensures ok ==> |fs.owner.Keys| == old(|fs.owner.Keys|) + One(typ == T_DIR) && |fs.nodes| <= U64
    ensures ok ==> Mid(fs, z, h, l) && GoodDir(fs, dp) && Loaded(fs, p) && DirOf(fs, dp) == old(DirOf(fs, dp))
    ensures ok ==> OnlyTwo(old(fs.Snap()), fs.Snap(), old(fs.inodes)[p].inum, old(fs.inodes)[dp].inum)
    ensures ok ==> |fs.inodes[p].d.addrs| == NDIRECT + 1
    ensures ok ==>
              EntriesOf(Contents(fs.cache.view, fs.inodes[p].d)) ==
                if typ == T_DIR then L.Dots(old(fs.inodes)[p].inum, old(fs.inodes)[dp].inum) else []
    ensures ok ==>
              fs.inodes == old(fs.inodes)[p := old(fs.inodes)[p].(d := fs.inodes[p].d)][dp :=
                  old(fs.inodes)[dp].(d := fs.inodes[dp].d)]
    ensures ok ==>
              SameFields(old(fs.inodes)[p].d, fs.inodes[p].d) && |Contents(fs.cache.view, fs.inodes[p].d)| % ENTRY == 0
    ensures ok ==>
              var d := old(fs.inodes)[dp].d;
              SameFields(if typ == T_DIR then d.(nlink := Bump(d.nlink)) else d, fs.inodes[dp].d)
  {
    hide Fs.Valid, Holds, Locks, Contents, KeyN, InumAt, KeyAt, DirGet, EntriesOf, OnlyNode, Need, Full, Capacity;
    ghost var y0 := fs.Snap();
    ValidShaped(fs);
    assert fs.sb.nInodes > 0 by { NoMore(fs); }
    ok := true;
    if typ == T_DIR {
      ok := MakeDots(fs, dp, p, z, h, l);
      if ok { ValidShaped(fs); }
    } else {
      assert EntriesOf([]) == [] by { NoEntries(); }
    }
  }

  /** The new inode, beside its parent. */
  method NewIn(fs: Fs, dp: nat, typ: int, major: int, minor: int, ghost z: Snapshot) returns (r: Outcome<nat>)
    requires Holding(fs, z, multiset{dp}, {dp}) && GoodDir(fs, dp)
    requires Short(typ) && typ != 0 && Short(major) && Short(minor)
    modifies fs, fs.cache
    ensures !r.Blocked? && (r.Panic? ==> NoFreeInode(z.nodes) || CacheFull(fs))
    ensures r.Ok? ==>
              var p, dpi := r.value, old(fs.inodes)[dp].inum;
              && p < NINODE && p != dp && Mid(fs, z, multiset{dp} + multiset{p}, {dp} + {p}) && fs.owner == z.owner
              && GoodDir(fs, dp) && DirOf(fs, dp) == old(DirOf(fs, dp)) && fs.inodes[dp] == old(fs.inodes)[dp]
              && Loaded(fs, p) && fs.inodes[p].d == FreshDinode(typ).(major := major, minor := minor, nlink := 1)
              && var i := fs.inodes[p].inum;
                 && 0 < i < |z.nodes| && i != dpi && z.nodes[i].typ == 0 && OnlyTwo(z, fs.Snap(), i, dpi)
                 && Contents(fs.cache.view, fs.inodes[p].d) == [] && (typ == T_DIR ==> GoodDir(fs, p))
  {
    hide Fs.Valid, Holds, Locks, Contents, KeyN, InumAt, KeyAt, EntriesOf, OnlyNode;
    ghost var dpi := fs.inodes[dp].inum;
    ValidShaped(fs);
    AbsSame(z, fs.Snap());
    ghost var y0 := fs.Snap();
    r := NewInode(fs, typ, major, minor, z, multiset{dp}, {dp});
    if !r.Ok? { return; }
    var p := r.value;
    ghost var i := fs.inodes[p].inum;
    ValidShaped(fs);
    OtherDir(fs, y0, dp, i);
    OnlyTwoOne(y0, fs.Snap(), i, dpi);
    MadeBy(z, y0, fs.Snap(), i, dpi);
    NewContents(fs, p, typ);
  }

  lemma NewContents(fs: Fs, p: nat, typ: int)
    requires fs.Valid() && Loaded(fs, p) && fs.inodes[p].d.size == 0 && Shaped(fs.Snap())
    ensures Contents(fs.cache.view, fs.inodes[p].d) == []
    ensures fs.inodes[p].d.typ == T_DIR ==> GoodDir(fs, p) && DirOf(fs, p) == []
    ensures EntriesOf([]) == []
  {
    hide Fs.Valid;
    assert |Contents(fs.cache.view, fs.inodes[p].d)| == 0;
  }

  lemma OnlyTwoJoin(z: Snapshot, x: Snapshot, y: Snapshot, i: nat, j: nat)
    requires OnlyTwo(z, x, i, j) && OnlyTwo(x, y, i, j)
    ensures OnlyTwo(z, y, i, j)
  {
    hide Contents;
    forall n | 0 <= n < |z.nodes| && n != i && n != j
      ensures SameFile(z, y, n)
    {
      assert SameFile(z, x, n) && SameFile(x, y, n);
    }
  }

  /** Only the cache differs between z and y0. */
  lemma MadeBy(z: Snapshot, y0: Snapshot, y: Snapshot, i: nat, j: nat)
    requires y0.nodes == z.nodes && y0.view == z.view && OnlyTwo(y0, y, i, j)
    ensures OnlyTwo(z, y, i, j)
  {
    hide Contents;
    forall n | 0 <= n < |z.nodes| && n != i && n != j ensures SameFile(z, y, n) { assert SameFile(y0, y, n); }
  }

  /** iunlock and iput of the parent, after the disk has changed: it frees nothing. */
  method DropParent(fs: Fs, dp: nat, ghost z: Snapshot, ghost h: multiset<nat>, ghost l: set<nat>)
    requires Mid(fs, z, h, l) && dp < NINODE && dp in h && dp in l && OrphansHeld(z.inodes, fs.nodes)
    modifies fs, fs.cache
    ensures Mid(fs, z, h - multiset{dp}, l - {dp}) && fs.Snap() == old(fs.Snap()).(inodes := fs.inodes)
    ensures |fs.inodes| == |old(fs.inodes)|
    ensures forall q :: 0 <= q < |fs.inodes| && q != dp ==> fs.inodes[q] == old(fs.inodes)[q]
  {
    hide Owned, AllStored, Coherent, Linked, Permutation, Recency, OrphansHeld, Holds;
    ghost var a := fs.inodes;
    assert a[dp].ref > 0 by { HeldLive(z.inodes, a, h, dp); }
    var ok := fs.Iunlock(dp);
    UnlockKeeps(a, fs.inodes, fs.nodes, dp);
    HoldsSet(z.inodes, a, h, dp, fs.inodes[dp]);
    NotLast(z.inodes, fs.inodes, fs.nodes, h, dp);
    HoldsPut(z.inodes, fs.inodes, h, l - {dp}, dp);
    var r := fs.Iput(dp);
  }

  lemma HeldLive(z: seq<Inode>, a: seq<Inode>, h: multiset<nat>, p: nat)
    requires Holds(z, a, h) && p in h && p < |a|
    ensures a[p].ref > 0
  {
    assert Kept(z[p], a[p], h[p]);
  }

  lemma {:induction false} ParentIsDir(z: Snapshot, i: nat, cs: seq<seq<Byte>>)
    requires DiskOk(z) && i < |z.nodes| && FollowParent(z, i, cs).At?
    ensures FollowParent(z, i, cs).inum < |z.nodes| && z.nodes[FollowParent(z, i, cs).inum].typ == T_DIR
    ensures i > 0 ==> FollowParent(z, i, cs).inum > 0
    decreases |cs|
  {
    hide DiskOk, Contents, DirGet;
    if |cs| > 1 { ParentIsDir(z, Step(z, i, Key(cs[0])).inum, cs[1..]); }
  }

  lemma StepPositive(z: Snapshot, i: nat, key: seq<Byte>)
    requires DiskOk(z) && i < |z.nodes|
    ensures Step(z, i, key).At? ==> Step(z, i, key).inum > 0
  {
    hide DiskOk, Contents, DirGet;
  }

  lemma {:induction false} FollowPositive(z: Snapshot, i: nat, cs: seq<seq<Byte>>)
    requires DiskOk(z) && i < |z.nodes| && i > 0 && Follow(z, i, cs).At?
    ensures Follow(z, i, cs).inum > 0
    decreases |cs|
  {
    hide DiskOk, Step;
    if cs != [] {
      StepPositive(z, i, Key(cs[0]));
      FollowPositive(z, Step(z, i, Key(cs[0])).inum, cs[1..]);
    }
  }

  /** What create made, if it made anything. */
  datatype Making = Nothing | New(dpi: nat, k: nat, key: seq<Byte>)

  /** create: nothing, with no reference gained; an existing file, locked and referenced; or
    * a new inode, locked and referenced, under a name that was not there. */
  ghost predicate Creates(fs: Fs, z: Snapshot, typ: int, p: Option<nat>, m: Making)
    reads fs, fs.cache
  {
    match p
    case None => m == Nothing && Holding(fs, z, multiset{}, {})
    case Some(p) =>
      && p < NINODE && Loaded(fs, p) && 0 < fs.inodes[p].inum
      && match m
         case Nothing => Holding(fs, z, multiset{p}, {p}) && typ == T_FILE && fs.inodes[p].d.typ == T_FILE
         case New(dpi, k, key) =>
           && Mid(fs, z, multiset{p}, {p})
           && Made(z, fs.Snap(), dpi, k, key, fs.inodes[p].inum, typ) && NewName(z, dpi, k, key)
  }

  /** What the path asks of create, with w where its parent leads: the name was not there and
    * is now in w; a plain file under that name; or nothing, for want of a parent or because
    * something else has the name. */
  ghost predicate CreatesAt(z: Snapshot, typ: int, w: Walked, cs: seq<seq<Byte>>, inum: Option<nat>, m: Making) {
    if m.New? then w == At(m.dpi) && cs != [] && m.key == Key(Last(cs))
    else if inum.Some? then Found(z, w, cs, At(inum.value))
    else
      || w == Missing
      || exists i: nat :: i < |z.nodes| && Found(z, w, cs, At(i)) && !(typ == T_FILE && z.nodes[i].typ == T_FILE)
  }

  /** The number of the inode in entry p. */
  ghost function InumIn(inodes: seq<Inode>, p: Option<nat>): Option<nat> {
    if p.Some? && p.value < |inodes| then Some(inodes[p.value].inum) else None
  }

  /** What create can panic for: a torn directory or a free inode on the way, no entry in the
    * inode cache, no free inode, no room for the entry. */
  ghost predicate CreatePanics(fs: Fs, z: Snapshot, typ: int, w: Walked, cs: seq<seq<Byte>>)
    reads fs
  {
    || w == Bad || Found(z, w, cs, Bad)
    || (exists i: nat :: i < |z.nodes| && Found(z, w, cs, At(i)) && z.nodes[i].typ == 0)
    || CacheFull(fs) || NoFreeInode(z.nodes)
    || (w.At? && w.inum < |z.nodes| && |z.nodes[w.inum].addrs| == NDIRECT + 1 && fs.sb.nInodes > 0
        && Cramped(fs.sb, z, Contents(z.view, z.nodes[w.inum]), typ))
  }

  function Last(cs: seq<seq<Byte>>): seq<Byte>
    requires cs != []
  {
    cs[|cs| - 1]
  }

  /** The last component, looked up in directory w, leads to t. */
  ghost predicate Found(z: Snapshot, w: Walked, cs: seq<seq<Byte>>, t: Walked) {
    DiskOk(z) && w.At? && w.inum < |z.nodes| && cs != [] && Step(z, w.inum, Key(Last(cs))) == t
  }

  ghost predicate NewName(z: Snapshot, dpi: nat, k: nat, key: seq<Byte>) {
    && dpi < |z.nodes| && |z.nodes[dpi].addrs| == NDIRECT + 1
    && var c := Contents(z.view, z.nodes[dpi]); DirGet(c, key) == 0 && k == FreeSlot(c, 0)
  }

  /** namei_parent and ilock: the parent directory, locked, and the last component. */
  method OpenParent(fs: Fs, path: seq<Byte>, cwd: nat, name0: seq<Byte>)
    returns (r: Outcome<Option<nat>>, name: seq<Byte>)
    requires Ready(fs, path, cwd) && |name0| == DIRSIZ && 0 < Start(fs.inodes, path, cwd)
    modifies fs, fs.cache
    ensures !r.Blocked?
    ensures r == Ok(None) ==> Holding(fs, old(fs.Snap()), multiset{}, {})
    ensures r.Panic? ==>
              FollowParent(old(fs.Snap()), Start(old(fs.inodes), path, cwd), Components(path)) == Bad || CacheFull(fs)
    ensures r == Ok(None) ==>
              FollowParent(old(fs.Snap()), Start(old(fs.inodes), path, cwd), Components(path)) == Missing
    ensures r.Ok? && r.value.Some? ==>
              var dp := r.value.value;
              && Holding(fs, old(fs.Snap()), multiset{dp}, {dp}) && Loaded(fs, dp) && fs.inodes[dp].d.typ == T_DIR
              && 0 < fs.inodes[dp].inum
              && FollowParent(old(fs.Snap()), Start(old(fs.inodes), path, cwd), Components(path)) ==
                     At(fs.inodes[dp].inum)
              && Components(path) != [] && Key(name) == Key(Components(path)[|Components(path)| - 1])
  {
    hide Fs.Valid, OrphansHeld, DiskOk, Holds, Locks, Contents, KeyN, DirGet, Got, Components, Step, FollowParent,
         Follow;
    ghost var z, start := fs.Snap(), Start(fs.inodes, path, cwd);
    r, name := Namex(fs, path, true, cwd, name0);
    if r.Ok? && r.value.Some? {
      var dp := r.value.value;
      ParentIsDir(z, start, Components(path));
      var entered := Enter(fs, dp, z, multiset{dp}, {});
      assert entered.Ok? && {} + {dp} == {dp};
    }
  }

  ghost predicate NonNegative(nodes: seq<Dinode>) {
    forall i :: 0 < i < |nodes| && nodes[i].typ == T_DIR ==> nodes[i].nlink >= 0
  }

  /** create in the locked parent, where the name is free. */
  method MakeIn(fs: Fs, dp: nat, name: seq<Byte>, typ: int, major: int, minor: int, ghost z: Snapshot)
    returns (r: Outcome<Option<nat>>, ghost m: Making)
    requires Holding(fs, z, multiset{dp}, {dp}) && GoodDir(fs, dp) && DirGet(DirOf(fs, dp), Key(name)) == 0
    requires 0 < fs.inodes[dp].inum
    requires Short(typ) && typ != 0 && Short(major) && Short(minor) && fs.sb.nInodes <= U64
    requires OrphansHeld(z.inodes, z.nodes) && NonNegative(z.nodes)
    modifies fs, fs.cache
    ensures !r.Blocked? && (r.Ok? ==> Creates(fs, z, typ, r.value, m) && r.value.Some? && m.New?)
    ensures fs.sb.nInodes > 0
    ensures r.Panic? ==> NoFreeInode(z.nodes) || CacheFull(fs) || Cramped(fs.sb, z, old(DirOf(fs, dp)), typ)
    ensures r.Ok? ==> m.dpi == old(fs.inodes)[dp].inum && m.key == Key(name)
    ensures r.Ok? ==> fs.inodes[r.value.value].d.major == major && fs.inodes[r.value.value].d.minor == minor
  {
    hide Fs.Valid, OrphansHeld, Holds, Locks, Contents, KeyN, DirGet, EntriesOf, Made, Need, Full, Capacity, Cramped;
    ghost var dpi, k := fs.inodes[dp].inum, FreeSlot(DirOf(fs, dp), 0);
    m := Nothing;
    var made := Make(fs, dp, name, typ, major, minor, z);
    if !made.Ok? { return Panic, m; }
    var p := made.value;
    ghost var y := fs.Snap();
    MadeOrphans(z, y, dpi, k, Key(name), fs.inodes[p].inum, typ);
    DropParent(fs, dp, z, multiset{dp} + multiset{p}, {dp} + {p});
    assert multiset{dp} + multiset{p} - multiset{dp} == multiset{p} && {dp} + {p} - {dp} == {p};
    MadeCache(z, y, fs.Snap(), dpi, k, Key(name), fs.inodes[p].inum, typ);
    MadePositive(z, y, dpi, k, Key(name), fs.inodes[p].inum, typ);
    r, m := Ok(Some(p)), New(dpi, k, Key(name));
  }

  /** create. */
  method Create(fs: Fs, path: seq<Byte>, typ: int, major: int, minor: int, cwd: nat, name0: seq<Byte>)
    returns (r: Outcome<Option<nat>>, ghost m: Making)
    requires Ready(fs, path, cwd) && |name0| == DIRSIZ && 0 < Start(fs.inodes, path, cwd) && fs.sb.nInodes <= U64
    requires Short(typ) && typ != 0 && Short(major) && Short(minor) && NonNegative(fs.nodes)
    modifies fs, fs.cache
    ensures !r.Blocked? && (r.Ok? ==> Creates(fs, old(fs.Snap()), typ, r.value, m))
    ensures r.Ok? ==>
              CreatesAt(old(fs.Snap()), typ,
                  FollowParent(old(fs.Snap()), Start(old(fs.inodes), path, cwd), Components(path)), Components(path),
                  InumIn(fs.inodes, r.value), m)
    ensures r.Panic? ==>
              CreatePanics(fs, old(fs.Snap()), typ,
                  FollowParent(old(fs.Snap()), Start(old(fs.inodes), path, cwd), Components(path)), Components(path))
    ensures r.Ok? && m.New? ==> fs.inodes[r.value.value].d.major == major && fs.inodes[r.value.value].d.minor == minor
  {
    hide Fs.Valid, OrphansHeld, DiskOk, Holds, Locks, Contents, KeyN, DirGet, Got, Components, Step, FollowParent, Made;
    m := Nothing;
    ghost var z := fs.Snap();
    var parent, name := OpenParent(fs, path, cwd, name0);
    if parent.Panic? { return Panic, m; }
    if parent.value == None { return Ok(None), m; }
    var dp := parent.value.value;
    ghost var dpi := fs.inodes[dp].inum;
    var search, _ := Search(fs, dp, name, z, multiset{dp}, {dp});
    if search.Panic? { return Panic, m; }
    if search.value.Some? {
      StepPositive(z, dpi, Key(name));
      ghost var i := fs.inodes[search.value.value].inum;
      r := Existing(fs, dp, search.value.value, typ, z);
      assert Found(z, At(dpi), Components(path), At(i));
      return r, m;
    }
    MissingDir(fs, dp, name, z);
    r, m := MakeIn(fs, dp, name, typ, major, minor, z);
  }

  lemma MadePositive(z: Snapshot, y: Snapshot, dpi: nat, k: nat, key: seq<Byte>, i: nat, typ: int)
    requires Made(z, y, dpi, k, key, i, typ)
    ensures i > 0
  {
  }

  lemma MadeCache(z: Snapshot, y: Snapshot, y': Snapshot, dpi: nat, k: nat, key: seq<Byte>, i: nat, typ: int)
    requires Made(z, y, dpi, k, key, i, typ) && y'.nodes == y.nodes && y'.view == y.view
    ensures Made(z, y', dpi, k, key, i, typ)
  {
    hide Contents, EntriesOf;
    forall n | 0 <= n < |z.nodes| && n != i && n != dpi ensures SameFile(z, y', n) { assert SameFile(z, y, n); }
  }

  lemma MissingDir(fs: Fs, dp: nat, name: seq<Byte>, z: Snapshot)
    requires Holding(fs, z, multiset{dp}, {dp}) && Loaded(fs, dp) && DiskOk(z) && fs.inodes[dp].d.typ == T_DIR
    requires Step(z, fs.inodes[dp].inum, Key(name)) == Missing
    ensures GoodDir(fs, dp) && DirGet(DirOf(fs, dp), Key(name)) == 0
    ensures DirOf(fs, dp) == Contents(z.view, z.nodes[fs.inodes[dp].inum])
  {
    hide Fs.Valid, Holds, Locks, Contents, KeyN, DirGet;
    assert NodeOk(z, fs.inodes[dp].inum);
  }

  /** create when the name is taken: the inode itself if both are plain files. */
  method Existing(fs: Fs, dp: nat, q: nat, typ: int, ghost z: Snapshot) returns (r: Outcome<Option<nat>>)
    requires Holding(fs, z, multiset{dp} + multiset{q}, {dp}) && dp < NINODE && HasEntry(fs, q)
    requires OrphansHeld(z.inodes, z.nodes)
    requires 0 < fs.inodes[q].inum
    modifies fs, fs.cache
    ensures !r.Blocked? && (r.Ok? ==> Creates(fs, z, typ, r.value, Nothing))
    ensures r.Panic? ==> z.nodes[old(fs.inodes)[q].inum].typ == 0
    ensures r.Ok? ==>
              var i := old(fs.inodes)[q].inum;
              i < |z.nodes| && (r.value == None <==> !(typ == T_FILE && z.nodes[i].typ == T_FILE))
    ensures r.Ok? && r.value.Some? ==> r.value.value == q && fs.inodes[q].inum == old(fs.inodes)[q].inum
  {
    hide Fs.Valid, OrphansHeld, Holds, Locks;
    HandOver(fs, dp, z, multiset{dp} + multiset{q}, {dp});
    assert multiset{dp} + multiset{q} - multiset{dp} == multiset{q} && {dp} - {dp} == {};
    HeldEntry(fs, z, multiset{q}, {}, q);
    var entered := Enter(fs, q, z, multiset{q}, {});
    if entered.Panic? { return Panic; }
    assert {} + {q} == {q} && {q} - {q} == {} && multiset{q} - multiset{q} == multiset{};
    if typ == T_FILE && fs.inodes[q].d.typ == T_FILE { return Ok(Some(q)); }
    HandOver(fs, q, z, multiset{q}, {q});
    r := Ok(None);
  }

  /** Every directory holds whole entries. */
  ghost predicate WholeDirs(z: Snapshot) {
    forall i :: 0 <= i < |z.nodes| && z.nodes[i].typ == T_DIR ==> z.nodes[i].size % ENTRY == 0
  }

  /** The disk on which the link counts are exact, as create and sys_unlink keep it. */
  ghost predicate LinkedDisk(z: Snapshot) {
    Shaped(z) && WholeDirs(z) && DiskOk(z) && L.Wf(Abs(z)) && |z.nodes| < 0x7FFF
  }

  ghost predicate EntriesBelow(dir: seq<L.Entry>, n: nat) { forall k :: 0 <= k < |dir| ==> dir[k].inum < n }

  lemma BelowInRange(c: seq<Byte>, n: nat)
    ensures InRange(c, n) <==> EntriesBelow(EntriesOf(c), n)
  {
    hide InumAt, KeyAt;
    if EntriesBelow(EntriesOf(c), n) {
      forall k | 0 <= k < Slots(c) ensures InumAt(c, k) < n { assert EntriesOf(c)[k].inum == InumAt(c, k); }
    }
  }

  lemma MadeNodeOk(z: Snapshot, y: Snapshot, dpi: nat, k: nat, key: seq<Byte>, i: nat, typ: int, n: nat)
    requires Made(z, y, dpi, k, key, i, typ) && DiskOk(z) && n < |z.nodes|
    ensures NodeOk(y, n)
  {
    hide Contents, EntriesOf, InRange;
    assert NodeOk(z, n) && NodeOk(z, dpi);
    BelowInRange(Contents(z.view, z.nodes[dpi]), |z.nodes|);
    BelowInRange(Contents(y.view, y.nodes[n]), |z.nodes|);
    if n != i && n != dpi { assert SameFile(z, y, n); }
  }

  lemma MadeDisk(z: Snapshot, y: Snapshot, dpi: nat, k: nat, key: seq<Byte>, i: nat, typ: int)
    requires Made(z, y, dpi, k, key, i, typ) && NewName(z, dpi, k, key) && LinkedDisk(z)
    requires 0 < z.nodes[dpi].nlink
    ensures LinkedDisk(y)
  {
    hide Contents, EntriesOf, NodeOk, L.Wf, Abs, DirGet;
    CreateCounts(z, y, dpi, k, key, i, typ);
    forall n | 0 <= n < |y.nodes| ensures NodeOk(y, n) { MadeNodeOk(z, y, dpi, k, key, i, typ, n); }
    forall n | 0 <= n < |y.nodes| && y.nodes[n].typ == T_DIR ensures y.nodes[n].size % ENTRY == 0 {
      if n != i && n != dpi { assert SameFile(z, y, n); }
    }
  }

  /** So create keeps the link counts exact if and only if the parent is still linked. The
    * parent's own count does not overflow: there are not that many inodes. */
  lemma CreateCounts(z: Snapshot, y: Snapshot, dpi: nat, k: nat, key: seq<Byte>, i: nat, typ: int)
    requires Made(z, y, dpi, k, key, i, typ) && NewName(z, dpi, k, key) && L.Wf(Abs(z)) && |z.nodes| < 0x7FFF
    ensures L.Wf(Abs(y)) <==> 0 < z.nodes[dpi].nlink
    ensures 0 < z.nodes[dpi].nlink ==> L.CanCreate(Abs(z), dpi, k, key, i, typ)
    ensures Abs(y) == L.Create(Abs(z), dpi, k, key, i, typ)
  {
    hide Contents, KeyN, InumAt, KeyAt, L.Names, L.Create, L.Ranked;
    var t := Abs(z);
    L.FewLinks(t, dpi);
    MadeAbs(z, y, dpi, k, key, i, typ);
    assert L.CountsOk(t, dpi);
    if 0 < z.nodes[dpi].nlink {
      var c := Contents(z.view, z.nodes[dpi]);
      assert L.DirOk(t, dpi);
      assert EntriesOf(c)[0].inum == InumAt(c, 0) && EntriesOf(c)[1].inum == InumAt(c, 1);
      assert Matches(c, L.DOT, 0) && Matches(c, L.DOTDOT, 1);
      forall n | 0 <= n < Slots(c) && EntriesOf(c)[n].inum != 0 ensures EntriesOf(c)[n].key != key {
        assert !Matches(c, key, n);
      }
      L.CreateKeeps(t, dpi, k, key, i, typ);
    } else {
      L.CreateRemoved(t, dpi, k, key, i, typ);
    }
  }
}
