/** skip_elem, namex and the walk along a path of kernel/fs.c. */
module Paths {
  import opened Common
  import opened Bytes
  import opened BufferCache
  import opened DiskLayout
  import opened FileData
  import opened FileSystem
  import opened DirEntries
  import opened Directories

  const SLASH: Byte := 47

  // ---- components ---------------------------------------------------------------------

  function SkipSlash(s: seq<Byte>): (t: seq<Byte>)
    ensures |t| <= |s| && (t != [] ==> t[0] != SLASH)
  {
    if s != [] && s[0] == SLASH then SkipSlash(s[1..]) else s
  }

  function ElemLength(s: seq<Byte>): (n: nat)
    ensures n <= |s|
  {
    if s == [] || s[0] == SLASH then 0 else 1 + ElemLength(s[1..])
  }

  /** The non-empty components between slashes. */
  function Components(s: seq<Byte>): seq<seq<Byte>>
    decreases |s|
  {
    var t := SkipSlash(s);
    if t == [] then []
    else
      assert ElemLength(t) > 0;
      [t[..ElemLength(t)]] + Components(t[ElemLength(t)..])
  }

  lemma SkippedComponents(s: seq<Byte>)
    ensures Components(SkipSlash(s)) == Components(s) && (Components(s) == [] <==> SkipSlash(s) == [])
  {
    assert SkipSlash(SkipSlash(s)) == SkipSlash(s);
  }

  lemma SlashFirst(s: seq<Byte>)
    ensures Components([47] + s) == Components(s)
  {
    assert ([47] + s)[1..] == s;
  }

  lemma {:induction false} ElemLengthJoin(p: seq<Byte>, q: seq<Byte>)
    ensures ElemLength(p + [47] + q) == ElemLength(p)
  {
    if p == [] {
      assert ([] + [47] + q)[0] == 47;
    } else if p[0] != 47 {
      assert (p + [47] + q)[1..] == p[1..] + [47] + q;
      ElemLengthJoin(p[1..], q);
    }
  }

  /** A path that starts with a component. */
  lemma ElemFirst(s: seq<Byte>)
    requires s != [] && s[0] != 47
    ensures ElemLength(s) > 0 && Components(s) == [s[..ElemLength(s)]] + Components(s[ElemLength(s)..])
  {
    assert SkipSlash(s) == s;
  }

  /** The components of two paths with a slash between them are those of the one and the other. */
  lemma {:induction false} ComponentsJoin(p: seq<Byte>, q: seq<Byte>)
    ensures Components(p + [47] + q) == Components(p) + Components(q)
    decreases |p|
  {
    hide Components, ElemLength;
    var s := p + [47] + q;
    if p == [] {
      assert s == [47] + q;
      SlashFirst(q);
      assert Components([]) == [] by { NoComponents(); }
    } else if p[0] == 47 {
      assert s == [47] + (p[1..] + [47] + q) && p == [47] + p[1..];
      SlashFirst(p[1..] + [47] + q);
      SlashFirst(p[1..]);
      ComponentsJoin(p[1..], q);
    } else {
      var n := ElemLength(p);
      ElemLengthJoin(p, q);
      ElemFirst(p);
      ElemFirst(s);
      assert s[..n] == p[..n] && s[n..] == p[n..] + [47] + q;
      ComponentsJoin(p[n..], q);
    }
  }

  lemma NoComponents()
    ensures Components([]) == []
  {
  }

  /** A name without slashes is one component. */
  lemma {:induction false} ComponentsOne(w: seq<Byte>)
    requires w != [] && forall k :: 0 <= k < |w| ==> w[k] != 47
    ensures Components(w) == [w]
  {
    hide Components, ElemLength;
    ElemFirst(w);
    ElemAll(w);
    NoComponents();
    assert w[..|w|] == w && w[|w|..] == [];
  }

  lemma {:induction false} ElemAll(w: seq<Byte>)
    requires forall k :: 0 <= k < |w| ==> w[k] != 47
    ensures ElemLength(w) == |w|
  {
    if w != [] { ElemAll(w[1..]); }
  }

  method SkipSlashes(path: seq<Byte>, i: nat) returns (j: nat)
    requires i <= |path|
    ensures i <= j <= |path| && path[j..] == SkipSlash(path[i..])
  {
    j := i;
    while CharAt(path, j) == SLASH
      invariant i <= j <= |path| && SkipSlash(path[j..]) == SkipSlash(path[i..])
      decreases |path| - j
    {
      assert path[j..][1..] == path[j + 1..];
      j := j + 1;
    }
  }

  method ElemEnd(path: seq<Byte>, i: nat) returns (j: nat)
    requires i <= |path| && forall k :: 0 <= k < |path| ==> path[k] != 0
    ensures i <= j <= |path| && j == i + ElemLength(path[i..])
  {
    j := i;
    while CharAt(path, j) != SLASH && CharAt(path, j) != 0
      invariant i <= j <= |path| && j + ElemLength(path[j..]) == i + ElemLength(path[i..])
      decreases |path| - j
    {
      assert path[j..][1..] == path[j + 1..];
      j := j + 1;
    }
  }

  /** skip_elem: the next component, cut to a name of at most 24 bytes, and the path after
    * it; nothing if there is none. */
  method SkipElem(path: seq<Byte>, i: nat, name0: seq<Byte>) returns (rest: Option<nat>, name: seq<Byte>)
    requires i <= |path| && |name0| == DIRSIZ && forall k :: 0 <= k < |path| ==> path[k] != 0
    ensures |name| == DIRSIZ
    ensures rest == None <==> Components(path[i..]) == []
    ensures rest.Some? ==>
              var cs := Components(path[i..]);
              i < rest.value <= |path| && Components(path[rest.value..]) == cs[1..] && Key(name) == Key(cs[0])
    ensures rest.Some? ==> (rest.value == |path| <==> |Components(path[i..])| == 1)
  {
    hide Components, SkipSlash, ElemLength, KeyN;
    name := name0;
    var s := SkipSlashes(path, i);
    SkippedComponents(path[i..]);
    if CharAt(path, s) == 0 { return None, name; }
    var e := ElemEnd(path, s);
    FirstComponent(path, i, s, e);
    ghost var elem := path[s..e];
    if e - s >= DIRSIZ {
      name := path[s..s + DIRSIZ];
      assert name == elem[..DIRSIZ];
    } else {
      name := path[s..e] + [0] + name0[e - s + 1..];
    }
    CutKey(elem, name, name0);
    var j := SkipSlashes(path, e);
    SkippedComponents(path[e..]);
    rest := Some(j);
  }

  lemma FirstComponent(path: seq<Byte>, i: nat, s: nat, e: nat)
    requires i <= s < |path| && path[s..] == SkipSlash(path[i..]) && e == s + ElemLength(path[s..])
    ensures s < e && Components(path[i..]) == [path[s..e]] + Components(path[e..])
  {
    hide SkipSlash;
    var t := path[s..];
    assert t[0] == path[s];
    assert t[..e - s] == path[s..e] && t[e - s..] == path[e..];
  }

  lemma CutKey(elem: seq<Byte>, name: seq<Byte>, name0: seq<Byte>)
    requires |name0| == DIRSIZ && forall k :: 0 <= k < |elem| ==> elem[k] != 0
    requires name == if |elem| >= DIRSIZ then elem[..DIRSIZ] else elem + [0] + name0[|elem| + 1..]
    ensures |name| == DIRSIZ && Key(name) == Key(elem)
  {
    hide KeyN;
    if |elem| >= DIRSIZ {
      forall j | 0 <= j < DIRSIZ ensures CharAt(name, j) == CharAt(elem, j) != 0 { assert name[j] == elem[j]; }
      KeysAgree(name, elem, DIRSIZ);
    } else {
      forall j | 0 <= j < |elem| ensures CharAt(name, j) == CharAt(elem, j) != 0 { assert name[j] == elem[j]; }
      assert name[|elem|] == 0;
      KeysDiffer(name, elem, DIRSIZ, |elem|);
    }
  }

  // ---- the walk as a fold ----------------------------------------------------------------

  datatype Walked =
    | At(inum: nat)
    | Missing
    | Bad                              // a free inode or a torn directory: the kernel panics

  ghost predicate DiskOk(z: Snapshot) {
    forall i :: 0 <= i < |z.nodes| ==> NodeOk(z, i)
  }

  ghost predicate NodeOk(z: Snapshot, i: nat)
    requires i < |z.nodes|
  {
    |z.nodes[i].addrs| == NDIRECT + 1 && (z.nodes[i].typ == T_DIR ==> InRange(Contents(z.view, z.nodes[i]), |z.nodes|))
  }

  /** One component: the name looked up in directory i. */
  ghost function Step(z: Snapshot, i: nat, key: seq<Byte>): (w: Walked)
    requires DiskOk(z) && i < |z.nodes|
    ensures w.At? ==> w.inum < |z.nodes|
  {
    assert NodeOk(z, i);
    var d := z.nodes[i];
    if d.typ == 0 then Bad
    else if d.typ != T_DIR then Missing
    else
      var c := Contents(z.view, d);
      if DirGet(c, key) != 0 then At(DirGet(c, key)) else if |c| % ENTRY != 0 then Bad else Missing
  }

  /** namei: every component looked up in turn. */
  ghost function Follow(z: Snapshot, i: nat, cs: seq<seq<Byte>>): Walked
    requires DiskOk(z) && i < |z.nodes|
    decreases |cs|
  {
    if cs == [] then At(i)
    else
      match Step(z, i, Key(cs[0]))
      case At(j) => Follow(z, j, cs[1..])
      case w => w
  }

  /** namei_parent: all but the last component, and what they lead to must be a directory. */
  ghost function FollowParent(z: Snapshot, i: nat, cs: seq<seq<Byte>>): Walked
    requires DiskOk(z) && i < |z.nodes|
    decreases |cs|
  {
    if cs == [] then Missing
    else if |cs| == 1 then (if z.nodes[i].typ == 0 then Bad else if z.nodes[i].typ != T_DIR then Missing else At(i))
    else
      match Step(z, i, Key(cs[0]))
      case At(j) => FollowParent(z, j, cs[1..])
      case w => w
  }

  ghost function Goal(z: Snapshot, i: nat, cs: seq<seq<Byte>>, parent: bool): Walked
    requires DiskOk(z) && i < |z.nodes|
  {
    if parent then FollowParent(z, i, cs) else Follow(z, i, cs)
  }

  /** A path leads on from where its first part leads. */
  lemma {:induction false} FollowJoin(z: Snapshot, i: nat, a: seq<seq<Byte>>, b: seq<seq<Byte>>)
    requires DiskOk(z) && i < |z.nodes|
    ensures var w := Follow(z, i, a);
            if w.At? then
              w.inum < |z.nodes| && Follow(z, i, a + b) == Follow(z, w.inum, b)
            else Follow(z, i, a + b) == w
    decreases |a|
  {
    hide DiskOk, Step;
    if a == [] {
      assert a + b == b;
    } else {
      assert (a + b)[0] == a[0] && (a + b)[1..] == a[1..] + b;
      var w := Step(z, i, Key(a[0]));
      if w.At? { FollowJoin(z, w.inum, a[1..], b); }
    }
  }

  /** A path leads to the last name, looked up where its parent is. */
  lemma {:induction false} FollowLast(z: Snapshot, i: nat, a: seq<seq<Byte>>, c: seq<Byte>)
    requires DiskOk(z) && i < |z.nodes|
    ensures var w := FollowParent(z, i, a + [c]);
            if w.At? then w.inum < |z.nodes| && Follow(z, i, a + [c]) == Step(z, w.inum, Key(c))
            else Follow(z, i, a + [c]) == w
    decreases |a|
  {
    hide DiskOk;
    if a == [] {
      assert a + [c] == [c] && [c][1..] == [];
    } else {
      assert (a + [c])[0] == a[0] && (a + [c])[1..] == a[1..] + [c];
      var w := Step(z, i, Key(a[0]));
      if w.At? { FollowLast(z, w.inum, a[1..], c); }
    }
  }

  // ---- holding inodes during the walk -------------------------------------------------------

  /** Nothing changed since z but the inode cache; there the references h are held on top of
    * those of z, and the entries l are locked. */
  ghost predicate Holding(fs: Fs, z: Snapshot, h: multiset<nat>, l: set<nat>)
    reads fs, fs.cache
  {
    fs.Valid() && fs.Snap() == z.(inodes := fs.inodes) && Holds(z.inodes, fs.inodes, h) && Locks(fs.inodes, l)
  }

  /** Entry p is held. */
  ghost predicate HasEntry(fs: Fs, p: nat)
    reads fs
  {
    p < NINODE && p < |fs.inodes| && fs.inodes[p].ref > 0 && fs.inodes[p].inum < |fs.nodes|
  }

  /** No entry of the inode cache is free. */
  ghost predicate CacheFull(fs: Fs)
    reads fs
  {
    forall q :: 0 <= q < |fs.inodes| ==> fs.inodes[q].ref > 0
  }

  ghost predicate Loaded(fs: Fs, p: nat)
    reads fs
  {
    HasEntry(fs, p) && fs.inodes[p].valid && fs.inodes[p].d == fs.nodes[fs.inodes[p].inum]
  }

  lemma HeldEntry(fs: Fs, z: Snapshot, h: multiset<nat>, l: set<nat>, p: nat)
    requires Holding(fs, z, h, l) && p < NINODE && p in h
    ensures HasEntry(fs, p) && (fs.inodes[p].valid ==> Loaded(fs, p))
  {
    hide Owned, AllStored, Coherent, Linked, Permutation, Recency;
    assert Kept(z.inodes[p], fs.inodes[p], h[p]);
    assert EntryOk(fs.inodes[p], fs.nodes);
  }

  /** iput of a held reference. */
  method LetGo(fs: Fs, p: nat, ghost z: Snapshot, ghost h: multiset<nat>, ghost l: set<nat>)
    requires Holding(fs, z, h, l) && p < NINODE && p in h && p !in l && OrphansHeld(z.inodes, z.nodes)
    modifies fs, fs.cache
    ensures Holding(fs, z, h - multiset{p}, l)
    ensures fs.inodes == old(fs.inodes)[p := fs.inodes[p]] && fs.inodes[p].inum == old(fs.inodes)[p].inum
    ensures fs.inodes[p].valid == old(fs.inodes)[p].valid && fs.inodes[p].d == old(fs.inodes)[p].d
  {
    hide Owned, AllStored, Coherent, Linked, Permutation, Recency, OrphansHeld, Holds, Locks;
    assert !fs.inodes[p].locked by { LockFree(fs.inodes, l, p); }
    NotLast(z.inodes, fs.inodes, fs.nodes, h, p);
    HoldsPut(z.inodes, fs.inodes, h, l, p);
    var r := fs.Iput(p);
  }

  lemma LockFree(inodes: seq<Inode>, l: set<nat>, p: nat)
    requires Locks(inodes, l) && p !in l && p < |inodes|
    ensures !inodes[p].locked
  {
  }

  /** ilock of a held entry: a panic exactly if its inode is free. */
  method Enter(fs: Fs, p: nat, ghost z: Snapshot, ghost h: multiset<nat>, ghost l: set<nat>) returns (r: Outcome<()>)
    requires Holding(fs, z, h, l) && p < NINODE && p in h && p !in l && HasEntry(fs, p)
    modifies fs`inodes, fs.cache
    ensures !r.Blocked? && (r.Panic? <==> z.nodes[old(fs.inodes)[p].inum].typ == 0)
    ensures r.Ok? ==> Holding(fs, z, h, l + {p}) && Loaded(fs, p) && fs.inodes == old(fs.inodes)[p := fs.inodes[p]]
    ensures r.Ok? ==> fs.inodes[p].inum == old(fs.inodes)[p].inum
  {
    hide Owned, AllStored, Coherent, Linked, Permutation, Recency, Holds;
    ghost var a := fs.inodes;
    r := fs.Ilock(p);
    if r.Ok? { HoldsSet(z.inodes, a, h, p, fs.inodes[p]); }
  }

  method Leave(fs: Fs, p: nat, ghost z: Snapshot, ghost h: multiset<nat>, ghost l: set<nat>)
    requires Holding(fs, z, h, l) && p < NINODE && p in h && p in l && HasEntry(fs, p)
    modifies fs`inodes
    ensures Holding(fs, z, h, l - {p}) && HasEntry(fs, p)
    ensures fs.inodes == old(fs.inodes)[p := old(fs.inodes)[p].(locked := false)]
  {
    hide Owned, AllStored, Coherent, Linked, Permutation, Recency, Holds;
    ghost var a := fs.inodes;
    var ok := fs.Iunlock(p);
    HoldsSet(z.inodes, a, h, p, fs.inodes[p]);
    UnlockKeeps(a, fs.inodes, fs.nodes, p);
  }

  lemma UnlockKeeps(a: seq<Inode>, b: seq<Inode>, nodes: seq<Dinode>, p: nat)
    requires CacheOk(a, nodes) && Typed(a) && p < |a| && b == a[p := a[p].(locked := false)]
    ensures CacheOk(b, nodes) && Typed(b)
  {
    forall q | 0 <= q < NINODE && b[q].ref > 0 ensures EntryOk(b[q], nodes) { assert EntryOk(a[q], nodes); }
  }

  /** dir_lookup in a locked directory: one more reference, on what was found. */
  method Search(fs: Fs, p: nat, name: seq<Byte>, ghost z: Snapshot, ghost h: multiset<nat>, ghost l: set<nat>)
    returns (r: Outcome<Option<nat>>, off: nat)
    requires Holding(fs, z, h, l) && Loaded(fs, p) && DiskOk(z) && fs.inodes[p].d.typ == T_DIR
    modifies fs, fs.cache
    ensures var w := Step(z, old(fs.inodes)[p].inum, Key(name));
            && !r.Blocked?
            && (r.Panic? ==> w == Bad || CacheFull(fs))
            && (r == Ok(None) ==> w == Missing && Holding(fs, z, h, l) && fs.inodes == old(fs.inodes))
            && (r.Ok? && r.value.Some? ==> w.At?)
    ensures r.Ok? && r.value.Some? ==>
              var q := r.value.value;
              && Holding(fs, z, h + multiset{q}, l) && HasEntry(fs, q)
              && Got(old(fs.inodes), fs.inodes, q, fs.inodes[q].inum)
    ensures r.Ok? && r.value.Some? ==> Step(z, old(fs.inodes)[p].inum, Key(name)) == At(fs.inodes[r.value.value].inum)
    ensures r.Ok? && r.value.Some? ==>
              var i := old(fs.inodes)[p].inum;
              |z.nodes[i].addrs| == NDIRECT + 1 && off == ENTRY * Find(Contents(z.view, z.nodes[i]), Key(name), 0)
  {
    hide Owned, AllStored, Coherent, Linked, Permutation, Recency, Contents, InumAt, Find, Holds, Locks;
    assert NodeOk(z, fs.inodes[p].inum);
    ghost var c, a := Contents(z.view, fs.inodes[p].d), fs.inodes;
    r, off := DirLookup(fs, p, name, c);
    if r.Ok? && r.value.Some? {
      HoldsGot(z.inodes, a, fs.inodes, h, l, r.value.value, DirGet(c, Key(name)));
    }
  }

  /** The directory just searched is given up, and with it its lock. */
  method HandOver(fs: Fs, p: nat, ghost z: Snapshot, ghost h: multiset<nat>, ghost l: set<nat>)
    requires Holding(fs, z, h, l) && OrphansHeld(z.inodes, z.nodes) && p < NINODE && p in h && p in l
    modifies fs, fs.cache
    ensures Holding(fs, z, h - multiset{p}, l - {p}) && p < |old(fs.inodes)| == |fs.inodes|
    ensures forall q :: 0 <= q < |fs.inodes| ==> fs.inodes[q].inum == old(fs.inodes)[q].inum
  {
    hide Fs.Valid, OrphansHeld, Holds, Locks;
    HeldEntry(fs, z, h, l, p);
    Leave(fs, p, z, h, l);
    LetGo(fs, p, z, h, l - {p});
  }

  // ---- namex --------------------------------------------------------------------------------

  ghost predicate Ready(fs: Fs, path: seq<Byte>, cwd: nat)
    reads fs, fs.cache
  {
    && fs.Valid() && Locks(fs.inodes, {}) && OrphansHeld(fs.inodes, fs.nodes) && DiskOk(fs.Snap())
    && ROOTINO < |fs.nodes|
    && (CharAt(path, 0) != SLASH ==> cwd < NINODE && cwd < |fs.inodes| && fs.inodes[cwd].ref > 0)
    && forall k :: 0 <= k < |path| ==> path[k] != 0
  }

  function Start(inodes: seq<Inode>, path: seq<Byte>, cwd: nat): nat
    requires CharAt(path, 0) == SLASH || cwd < |inodes|
  {
    if CharAt(path, 0) == SLASH then ROOTINO else inodes[cwd].inum
  }

  lemma BeginHolding(fs: Fs, z: Snapshot, p: nat, i: nat)
    requires fs.Valid() && fs.Snap() == z.(inodes := fs.inodes) && i < |z.nodes|
    requires Got(z.inodes, fs.inodes, p, i) && Locks(z.inodes, {})
    ensures Holding(fs, z, multiset{p}, {}) && HasEntry(fs, p) && fs.inodes[p].inum == i
  {
    hide Fs.Valid;
    HoldsNone(z.inodes);
    HoldsGot(z.inodes, z.inodes, fs.inodes, multiset{}, {}, p, i);
    assert multiset{} + multiset{p} == multiset{p};
  }

  /** The first reference: to the root by iget, or to the working directory by idup. */
  method Begin(fs: Fs, path: seq<Byte>, cwd: nat) returns (r: Outcome<nat>)
    requires Ready(fs, path, cwd)
    modifies fs`inodes
    ensures !r.Blocked? && (r.Panic? ==> CacheFull(fs) && fs.inodes == old(fs.inodes))
    ensures r.Ok? ==> Holding(fs, old(fs.Snap()), multiset{r.value}, {}) && HasEntry(fs, r.value)
    ensures r.Ok? ==> fs.inodes[r.value].inum == Start(old(fs.inodes), path, cwd)
  {
    hide Owned, AllStored, Coherent, Linked, Permutation, Recency, OrphansHeld, DiskOk, Holding;
    ghost var z := fs.Snap();
    if CharAt(path, 0) == SLASH {
      r := fs.Iget(ROOTINO);
      if r.Panic? { return; }
      BeginHolding(fs, z, r.value, ROOTINO);
    } else {
      assert EntryOk(fs.inodes[cwd], fs.nodes);
      fs.inodes := fs.inodes[cwd := fs.inodes[cwd].(ref := fs.inodes[cwd].ref + 1)];
      DupKeeps(z.inodes, fs.inodes, fs.nodes, cwd);
      BeginHolding(fs, z, cwd, fs.inodes[cwd].inum);
      r := Ok(cwd);
    }
  }

  lemma DupKeeps(a: seq<Inode>, b: seq<Inode>, nodes: seq<Dinode>, p: nat)
    requires CacheOk(a, nodes) && Typed(a) && p < |a| && a[p].ref > 0 && b == a[p := a[p].(ref := a[p].ref + 1)]
    ensures CacheOk(b, nodes) && Typed(b)
  {
    forall q | 0 <= q < NINODE && b[q].ref > 0 ensures EntryOk(b[q], nodes) { assert EntryOk(a[q], nodes); }
  }

  /** What namex returns, as its callers may rely on it. */
  ghost predicate Walks(fs: Fs, z: Snapshot, g: Walked, r: Outcome<Option<nat>>)
    reads fs, fs.cache
  {
    match r
    case Blocked => false
    case Panic => g == Bad || CacheFull(fs)
    case Ok(None) => g == Missing && Holding(fs, z, multiset{}, {})
    case Ok(Some(p)) => Holding(fs, z, multiset{p}, {}) && HasEntry(fs, p) && g == At(fs.inodes[p].inum)
  }

  /** namex equals the fold of lookups over the components of the path: it gains exactly one
    * reference, on the inode it returns, and none when it returns nothing. */
  method Namex(fs: Fs, path: seq<Byte>, parent: bool, cwd: nat, name0: seq<Byte>)
    returns (r: Outcome<Option<nat>>, name: seq<Byte>)
    requires Ready(fs, path, cwd) && |name0| == DIRSIZ
    modifies fs, fs.cache
    ensures Start(old(fs.inodes), path, cwd) < |old(fs.nodes)|
    ensures var z := old(fs.Snap());
            Walks(fs, z, Goal(z, Start(z.inodes, path, cwd), Components(path), parent), r)
    ensures path != [] && path[0] == 47 ==>
              var z := old(fs.Snap());
              1 < |z.nodes| && Walks(fs, z, Goal(z, 1, Components(path), parent), r)
    ensures path == [] || path[0] != 47 ==>
              var z := old(fs.Snap());
              && cwd < |z.inodes| && z.inodes[cwd].inum < |z.nodes|
              && Walks(fs, z, Goal(z, z.inodes[cwd].inum, Components(path), parent), r)
    ensures r.Panic? && Components(path) == [] ==> fs.inodes == old(fs.inodes)
    ensures parent && r.Ok? && r.value.Some? ==>
              Components(path) != [] && Key(name) == Key(Components(path)[|Components(path)| - 1])
  {
    hide Fs.Valid, OrphansHeld, DiskOk, Holding, Components, KeyN, Step, Got;
    ghost var z, start := fs.Snap(), Start(fs.inodes, path, cwd);
    name := name0;
    assert start < |z.nodes| by { StartOk(fs, path, cwd); }
    var first := Begin(fs, path, cwd);
    if first.Panic? { return Panic, name; }
    var p, i: nat := first.value, 0;
    ghost var g := Goal(z, start, Components(path), parent);
    ghost var last := if Components(path) == [] then [] else Components(path)[|Components(path)| - 1];
    assert path[0..] == path;
    while true
      invariant i <= |path| && |name| == DIRSIZ && Holding(fs, z, multiset{p}, {}) && HasEntry(fs, p)
      invariant fs.nodes == z.nodes
      invariant g == Goal(z, fs.inodes[p].inum, Components(path[i..]), parent)
      invariant Components(path) == [] ==> i == 0
      invariant Components(path[i..]) != [] ==>
                  Components(path) != [] && Components(path[i..])[|Components(path[i..])| - 1] == last
      decreases |path| - i
    {
      ghost var cs := Components(path[i..]);
      var rest;
      rest, name := SkipElem(path, i, name);
      if rest == None { break; }
      ghost var j := fs.inodes[p].inum;
      var next := WalkOne(fs, p, name, parent && rest.value == |path|, z);
      if j < |z.nodes| { GoalOne(z, j, cs, parent); }
      if next.Panic? { return Panic, name; }
      if next.value == None { return Ok(None), name; }
      if parent && rest.value == |path| { return Ok(Some(p)), name; }
      p, i := next.value.value, rest.value;
    }
    if parent {
      LetGo(fs, p, z, multiset{p}, {});
      assert multiset{p} - multiset{p} == multiset{};
      return Ok(None), name;
    }
    r := Ok(Some(p));
  }

  /** What one component leads to; stay is namex's test for the last one, with parent set. */
  ghost function OneStep(z: Snapshot, i: nat, key: seq<Byte>, stay: bool): Walked
    requires DiskOk(z) && i < |z.nodes|
  {
    if !stay then Step(z, i, key)
    else if z.nodes[i].typ == 0 then Bad else if z.nodes[i].typ != T_DIR then Missing else At(i)
  }

  /** One turn of namex's loop. */
  method WalkOne(fs: Fs, p: nat, name: seq<Byte>, stay: bool, ghost z: Snapshot) returns (r: Outcome<Option<nat>>)
    requires Holding(fs, z, multiset{p}, {}) && HasEntry(fs, p) && fs.nodes == z.nodes && DiskOk(z)
    requires OrphansHeld(z.inodes, z.nodes)
    modifies fs, fs.cache
    ensures r.Ok? ==> fs.nodes == old(fs.nodes)
    ensures Walks(fs, z, OneStep(z, old(fs.inodes)[p].inum, Key(name), stay), r)
    ensures stay && r.Ok? && r.value.Some? ==> r.value.value == p
  {
    hide Fs.Valid, OrphansHeld, DiskOk, Holds, Locks, Contents, Find, KeyN, Got;
    ghost var i := fs.inodes[p].inum;
    var entered := Enter(fs, p, z, multiset{p}, {});
    if entered.Panic? { return Panic; }
    assert {} + {p} == {p} && {p} - {p} == {} && multiset{p} - multiset{p} == multiset{};
    if fs.inodes[p].d.typ != T_DIR {
      HandOver(fs, p, z, multiset{p}, {p});
      return Ok(None);
    }
    if stay {
      Leave(fs, p, z, multiset{p}, {p});
      return Ok(Some(p));
    }
    var found, _ := Search(fs, p, name, z, multiset{p}, {p});
    if found.Panic? { return Panic; }
    if found.value == None {
      HandOver(fs, p, z, multiset{p}, {p});
      return Ok(None);
    }
    var q := found.value.value;
    HandOver(fs, p, z, multiset{p} + multiset{q}, {p});
    assert multiset{p} + multiset{q} - multiset{p} == multiset{q};
    HeldEntry(fs, z, multiset{q}, {}, q);
    r := Ok(Some(q));
  }

  lemma StartOk(fs: Fs, path: seq<Byte>, cwd: nat)
    requires Ready(fs, path, cwd)
    ensures Start(fs.inodes, path, cwd) < |fs.nodes|
  {
    hide Owned, AllStored, Coherent, Linked, Permutation, Recency, DiskOk;
    if CharAt(path, 0) != SLASH { assert EntryOk(fs.inodes[cwd], fs.nodes); }
  }

  lemma GoalOne(z: Snapshot, i: nat, cs: seq<seq<Byte>>, parent: bool)
    requires DiskOk(z) && i < |z.nodes| && cs != []
    ensures var w := OneStep(z, i, Key(cs[0]), parent && |cs| == 1);
            Goal(z, i, cs, parent) == if w.At? && !(parent && |cs| == 1) then Goal(z, w.inum, cs[1..], parent) else w
  {
    hide DiskOk, Step;
  }
}
