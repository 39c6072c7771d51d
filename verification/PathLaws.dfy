/** Where paths lead, on a disk whose directories are a tree: the dots, and the working directory
  * of sys_chdir (kernel/sysfile.c).
  */
module PathLaws {
  import opened Common
  import opened Bytes
  import opened DiskLayout
  import opened FileData
  import opened DirEntries
  import opened Directories
  import opened Paths
  import opened LinkTable
  import opened SysFile
  import L = Links

  /** A lookup that finds something finds an entry of the table. */
  lemma StepEntry(z: Snapshot, i: nat, key: seq<Byte>) returns (n: nat)
    requires LinkedDisk(z) && i < |z.nodes| && Step(z, i, key).At?
    ensures z.nodes[i].typ == T_DIR && n < |Abs(z)[i].dir| && Abs(z)[i].dir[n] == L.Entry(Step(z, i, key).inum, key)
    ensures Step(z, i, key).inum != 0
  {
    hide Contents, KeyN, InumAt, KeyAt, DiskOk, L.Wf;
    var c := Contents(z.view, z.nodes[i]);
    n := Find(c, key, 0);
    assert EntriesOf(c)[n] == L.Entry(InumAt(c, n), KeyAt(c, n));
  }

  /** A directory looked up under the key of one of its entries, the first with that key. */
  lemma EntryStep(z: Snapshot, i: nat, n: nat)
    requires LinkedDisk(z) && i < |z.nodes| && z.nodes[i].typ == T_DIR && n < |Abs(z)[i].dir|
    requires Abs(z)[i].dir[n].inum != 0
    requires forall m :: 0 <= m < n ==> Abs(z)[i].dir[m].inum == 0 || Abs(z)[i].dir[m].key != Abs(z)[i].dir[n].key
    ensures Step(z, i, Abs(z)[i].dir[n].key) == At(Abs(z)[i].dir[n].inum)
  {
    hide Contents, KeyN, InumAt, KeyAt, DiskOk, L.Wf;
    var c, dir := Contents(z.view, z.nodes[i]), Abs(z)[i].dir;
    forall m | 0 <= m <= n ensures dir[m] == L.Entry(InumAt(c, m), KeyAt(c, m)) {}
    FindIs(c, dir[n].key, n);
  }

  /** Every entry is found under its name. */
  lemma EntryFound(z: Snapshot, i: nat, n: nat)
    requires LinkedDisk(z) && i < |z.nodes| && z.nodes[i].typ == T_DIR && n < |Abs(z)[i].dir|
    requires Abs(z)[i].dir[n].inum != 0
    ensures Step(z, i, Abs(z)[i].dir[n].key) == At(Abs(z)[i].dir[n].inum)
  {
    hide Contents, DiskOk, L.AllCounts, L.Tree, L.Sole, L.Ranked, L.AllRemoved, Step;
    var dir := Abs(z)[i].dir;
    assert L.Distinct(dir);
    EntryStep(z, i, n);
  }

  /** "." leads to the directory itself. */
  lemma DotLeads(z: Snapshot, d: nat)
    requires LinkedDisk(z) && 0 < d < |z.nodes| && z.nodes[d].typ == T_DIR
    ensures Follow(z, d, [[46]]) == At(d)
  {
    hide Contents, DiskOk, L.Names, L.ParentOk, L.AllCounts, L.Sole, L.Ranked;
    var t := Abs(z);
    assert L.DirOk(t, d) && L.Removed(t, d);
    EntryStep(z, d, 0);
    PlainKey([46]);
    FollowOne(z, d, [46]);
  }

  /** ".." of a directory leads to the directory it is in; that of the root to the root. */
  lemma DotDotLeads(z: Snapshot, d: nat, p: nat, k: nat)
    requires LinkedDisk(z) && d < |z.nodes| && L.Linked(Abs(z)[d])
    requires if d == 1 then p == 1 else L.Child(Abs(z), p, k, d)
    ensures Follow(z, d, [[46, 46]]) == At(p)
  {
    hide Contents, DiskOk, L.Names, L.AllCounts, L.Ranked;
    var t := Abs(z);
    assert L.DirOk(t, d);
    EntryStep(z, d, 1);
    PlainKey([46, 46]);
    FollowOne(z, d, [46, 46]);
  }

  lemma FollowOne(z: Snapshot, d: nat, c: seq<Byte>)
    requires DiskOk(z) && d < |z.nodes|
    ensures Follow(z, d, [c]) == Step(z, d, Key(c))
  {
    hide DiskOk, Step, KeyN;
    assert [c][1..] == [];
  }

  /** A name without NULs is cut to 24 bytes. */
  lemma PlainKey(s: seq<Byte>)
    requires forall k :: 0 <= k < |s| ==> s[k] != 0
    ensures Key(s) == if |s| <= 24 then s else s[..24]
  {
    hide KeyN;
    KeyChars(s, DIRSIZ);
  }

  lemma {:induction false} ParentIs(z: Snapshot, i: nat, a: seq<seq<Byte>>, c: seq<Byte>)
    requires DiskOk(z) && i < |z.nodes| && FollowParent(z, i, a + [c]).At?
    ensures Follow(z, i, a) == FollowParent(z, i, a + [c])
    decreases |a|
  {
    hide DiskOk, Step;
    if a == [] {
      assert a + [c] == [c];
    } else {
      assert (a + [c])[0] == a[0] && (a + [c])[1..] == a[1..] + [c];
      ParentIs(z, Step(z, i, Key(a[0])).inum, a[1..], c);
    }
  }

  // ---- create -----------------------------------------------------------------------------------

  /** The disk y is z after create put inode i under key in directory dpi. */
  ghost predicate After(z: Snapshot, y: Snapshot, dpi: nat, k: nat, key: seq<Byte>, i: nat, typ: int) {
    && LinkedDisk(z) && LinkedDisk(y) && L.CanCreate(Abs(z), dpi, k, key, i, typ)
    && Abs(y) == L.Create(Abs(z), dpi, k, key, i, typ)
  }

  lemma StepMade(z: Snapshot, y: Snapshot, dpi: nat, k: nat, key: seq<Byte>, i: nat, typ: int, a: nat, name: seq<Byte>)
    requires After(z, y, dpi, k, key, i, typ) && a < |z.nodes| && Step(z, a, name).At?
    ensures a < |y.nodes| && Step(y, a, name) == Step(z, a, name)
  {
    hide Contents, DiskOk, L.Wf, Step, WholeDirs, EntriesOf;
    var n := StepEntry(z, a, name);
    var t, u := Abs(z), Abs(y);
    assert t[a] == NodeOf(z, a) && t[i] == NodeOf(z, i) && u[a] == NodeOf(y, a);
    assert u[a].typ == T_DIR && n < |u[a].dir| && u[a].dir[n] == t[a].dir[n];
    EntryFound(y, a, n);
  }

  /** No path is lost by create. */
  lemma {:induction false} FollowMade(z: Snapshot, y: Snapshot, dpi: nat, k: nat, key: seq<Byte>, i: nat, typ: int,
        a: nat, cs: seq<seq<Byte>>)
    requires After(z, y, dpi, k, key, i, typ) && a < |z.nodes| && Follow(z, a, cs).At?
    ensures a < |y.nodes| && Follow(y, a, cs) == Follow(z, a, cs)
    decreases |cs|
  {
    hide Contents, DiskOk, L.Wf, Step, Shaped, WholeDirs, L.CanCreate, L.Create;
    assert |y.nodes| == |z.nodes| by { SameSize(z, y, dpi, k, key, i, typ); }
    if cs != [] {
      StepMade(z, y, dpi, k, key, i, typ, a, Key(cs[0]));
      FollowMade(z, y, dpi, k, key, i, typ, Step(z, a, Key(cs[0])).inum, cs[1..]);
    }
  }

  lemma SameSize(z: Snapshot, y: Snapshot, dpi: nat, k: nat, key: seq<Byte>, i: nat, typ: int)
    requires After(z, y, dpi, k, key, i, typ)
    ensures |y.nodes| == |z.nodes| && dpi < |y.nodes|
  {
    hide Contents, DiskOk, L.Wf;
  }

  /** The path of what was created leads to it. */
  lemma CreatedLeads(z: Snapshot, y: Snapshot, dpi: nat, k: nat, i: nat, typ: int, s: nat, cs: seq<seq<Byte>>)
    requires cs != [] && After(z, y, dpi, k, Key(cs[|cs| - 1]), i, typ)
    requires s < |z.nodes| && FollowParent(z, s, cs) == At(dpi)
    ensures s < |y.nodes| && Follow(y, s, cs) == At(i)
  {
    hide Contents, DiskOk, L.Wf, Step, Shaped, WholeDirs, Follow, FollowParent;
    var n, key := |cs| - 1, Key(cs[|cs| - 1]);
    assert cs == cs[..n] + [cs[n]];
    ParentIs(z, s, cs[..n], cs[n]);
    FollowMade(z, y, dpi, k, key, i, typ, s, cs[..n]);
    FollowJoin(y, s, cs[..n], [cs[n]]);
    FollowOne(y, dpi, cs[n]);
    assert Abs(y)[dpi].dir[k] == L.Entry(i, key);
    EntryFound(y, dpi, k);
  }

  // ---- unlink -------------------------------------------------------------------------------------

  /** The disk y is z after sys_unlink cleared entry k of dpi, which named i, and freed i or not. */
  ghost predicate AfterCut(z: Snapshot, y: Snapshot, dpi: nat, k: nat, i: nat) {
    && LinkedDisk(z) && LinkedDisk(y) && L.CanUnlink(Abs(z), dpi, k, i)
    && var t := L.Unlink(Abs(z), dpi, k, i); Abs(y) == t || Abs(y) == L.Free(t, i)
  }

  lemma StepCut(z: Snapshot, y: Snapshot, dpi: nat, k: nat, i: nat, a: nat, name: seq<Byte>)
    requires AfterCut(z, y, dpi, k, i) && a < |y.nodes| && Step(y, a, name).At?
    ensures a < |z.nodes| && Step(z, a, name) == Step(y, a, name)
  {
    hide Contents, DiskOk, L.Wf, Step, WholeDirs, EntriesOf;
    var n := StepEntry(y, a, name);
    var t, u := Abs(z), Abs(y);
    assert t[a] == NodeOf(z, a) && u[a] == NodeOf(y, a);
    assert t[a].typ == T_DIR && n < |t[a].dir| && t[a].dir[n] == u[a].dir[n];
    EntryFound(z, a, n);
  }

  /** A path that leads somewhere after unlink led there before. */
  lemma {:induction false} FollowCut(z: Snapshot, y: Snapshot, dpi: nat, k: nat, i: nat, a: nat, cs: seq<seq<Byte>>)
    requires AfterCut(z, y, dpi, k, i) && a < |y.nodes| && Follow(y, a, cs).At?
    ensures a < |z.nodes| && Follow(z, a, cs) == Follow(y, a, cs)
    decreases |cs|
  {
    hide Contents, DiskOk, L.Wf, Step, Shaped, WholeDirs, L.CanUnlink, L.Unlink;
    assert |y.nodes| == |z.nodes| by { CutSize(z, y, dpi, k, i); }
    if cs != [] {
      StepCut(z, y, dpi, k, i, a, Key(cs[0]));
      FollowCut(z, y, dpi, k, i, Step(y, a, Key(cs[0])).inum, cs[1..]);
    }
  }

  lemma CutSize(z: Snapshot, y: Snapshot, dpi: nat, k: nat, i: nat)
    requires AfterCut(z, y, dpi, k, i)
    ensures |y.nodes| == |z.nodes|
  {
    hide Contents, DiskOk, L.Wf;
  }

  lemma CutAbsent(z: Snapshot, y: Snapshot, dpi: nat, k: nat, i: nat)
    requires AfterCut(z, y, dpi, k, i)
    ensures dpi < |y.nodes| == |z.nodes| && k < |Abs(z)[dpi].dir|
    ensures y.nodes[dpi].typ == T_DIR ==> L.Absent(Abs(y)[dpi].dir, Abs(z)[dpi].dir[k].key)
  {
    hide Contents, DiskOk, L.AllCounts, L.Tree, L.Sole, L.Ranked, L.AllRemoved;
    assert L.Distinct(Abs(z)[dpi].dir);
  }

  /** The path of what was unlinked leads nowhere. */
  lemma CutLeads(z: Snapshot, y: Snapshot, dpi: nat, k: nat, i: nat, s: nat, cs: seq<seq<Byte>>)
    requires AfterCut(z, y, dpi, k, i) && cs != [] && s < |z.nodes| && FollowParent(z, s, cs) == At(dpi)
    requires k < |Abs(z)[dpi].dir| && Abs(z)[dpi].dir[k].key == Key(cs[|cs| - 1])
    ensures s < |y.nodes| && !Follow(y, s, cs).At?
  {
    hide Contents, DiskOk, L.Wf, Step, Shaped, WholeDirs, Follow, FollowParent, L.CanUnlink, L.Unlink;
    CutAbsent(z, y, dpi, k, i);
    var n := |cs| - 1;
    assert cs == cs[..n] + [cs[n]];
    ParentIs(z, s, cs[..n], cs[n]);
    FollowJoin(y, s, cs[..n], [cs[n]]);
    if Follow(y, s, cs).At? {
      assert Follow(y, s, cs[..n]).At?;
      FollowCut(z, y, dpi, k, i, s, cs[..n]);
      FollowOne(y, dpi, cs[n]);
      var m := StepEntry(y, dpi, Key(cs[n]));
    }
  }

  /** Where a path leads from the working directory b: the root if it begins with a slash. */
  ghost function Leads(z: Snapshot, b: nat, path: seq<Byte>): Walked
    requires DiskOk(z) && 1 < |z.nodes| && b < |z.nodes|
  {
    Follow(z, if path != [] && path[0] == 47 then 1 else b, Components(path))
  }

  /** Where its parent leads. */
  ghost function ParentLeads(z: Snapshot, b: nat, path: seq<Byte>): Walked
    requires DiskOk(z) && 1 < |z.nodes| && b < |z.nodes|
  {
    FollowParent(z, if path != [] && path[0] == 47 then 1 else b, Components(path))
  }

  /** From z with directory b to y with directory j: a relative path leads where, before, it
    * led with the path and a slash in front. */
  ghost predicate LeadsOn(z: Snapshot, b: nat, y: Snapshot, j: nat, path: seq<Byte>) {
    && DiskOk(z) && 1 < |z.nodes| && b < |z.nodes| && DiskOk(y) && 1 < |y.nodes| && j < |y.nodes|
    && (forall q :: q == [] || q[0] != 47 ==> Leads(y, j, q) == Leads(z, b, path + [47] + q))
  }

  // ---- the working directory -----------------------------------------------------------------

  lemma {:induction false} OffFollow(z: Snapshot, rank: seq<nat>, b: nat, i: nat, cs: seq<seq<Byte>>)
    requires LinkedDisk(z) && L.Rising(Abs(z), rank) && 0 < b < |z.nodes| && z.nodes[b].nlink <= 0
    requires 0 < i < |z.nodes| && (i == b || L.Off(Abs(z), rank, b, i)) && Follow(z, i, cs).At?
    ensures Follow(z, i, cs).inum == b || L.Off(Abs(z), rank, b, Follow(z, i, cs).inum)
    decreases |cs|
  {
    hide DiskOk, Step, L.Wf, L.Rising, L.Off, Shaped, WholeDirs;
    if cs != [] {
      var n := StepEntry(z, i, Key(cs[0]));
      L.OffStays(Abs(z), rank, b, i, n);
      OffFollow(z, rank, b, Step(z, i, Key(cs[0])).inum, cs[1..]);
    }
  }

  lemma {:induction false} FollowKept(z: Snapshot, y: Snapshot, rank: seq<nat>, b: nat, i: nat, cs: seq<seq<Byte>>)
    requires LinkedDisk(z) && L.Rising(Abs(z), rank) && 0 < b < |z.nodes| && z.nodes[b].nlink <= 0
    requires 0 < i < |z.nodes| && L.Off(Abs(z), rank, b, i) && OnlyNode(z, y, b) && DiskOk(y)
    ensures Follow(y, i, cs) == Follow(z, i, cs)
    decreases |cs|
  {
    hide DiskOk, L.Wf, L.Rising, L.Off, Shaped, WholeDirs, Contents, DirGet;
    RisingSize(Abs(z), rank);
    if cs != [] {
      L.OffNot(Abs(z), rank, b, i);
      assert SameFile(z, y, i);
      assert Step(y, i, Key(cs[0])) == Step(z, i, Key(cs[0]));
      if Step(z, i, Key(cs[0])).At? {
        var n := StepEntry(z, i, Key(cs[0]));
        L.OffStays(Abs(z), rank, b, i, n);
        FollowKept(z, y, rank, b, Step(z, i, Key(cs[0])).inum, cs[1..]);
      }
    }
  }

  /** The walk to j goes on from j after inode b, where it may have begun, is freed. */
  lemma FollowOn(z: Snapshot, y: Snapshot, b: nat, i: nat, ps: seq<seq<Byte>>, cs: seq<seq<Byte>>)
    requires LinkedDisk(z) && DiskOk(y) && 0 < b < |z.nodes| && (i == b || i == ROOTINO) && i < |z.nodes|
    requires Follow(z, i, ps).At? && Follow(z, i, ps).inum < |y.nodes|
    requires || (y.nodes == z.nodes && y.view == z.view)
             || (OnlyNode(z, y, b) && z.nodes[b].nlink == 0 && Follow(z, i, ps).inum != b)
    ensures Follow(y, Follow(z, i, ps).inum, cs) == Follow(z, i, ps + cs)
  {
    hide DiskOk, L.Rising, Shaped, WholeDirs, Contents, Follow, L.Tree, L.AllCounts, L.Sole, OnlyNode;
    FollowJoin(z, i, ps, cs);
    var j := Follow(z, i, ps).inum;
    if y.nodes == z.nodes && y.view == z.view {
      FollowSame(z, y, j, cs);
    } else {
      var rank :| L.Rising(Abs(z), rank);
      RisingSize(Abs(z), rank);
      OffFollow(z, rank, b, i, ps);
      FollowKept(z, y, rank, b, j, cs);
    }
  }

  lemma ChdirLeads(z: Snapshot, y: Snapshot, b: nat, j: nat, path: seq<Byte>)
    requires LinkedDisk(z) && DiskOk(y) && 0 < b < |z.nodes| && 1 < |z.nodes| == |y.nodes| && path != []
    requires Leads(z, b, path) == At(j) && j < |y.nodes|
    requires || (y.nodes == z.nodes && y.view == z.view)
             || (OnlyNode(z, y, b) && z.nodes[b].nlink == 0 && j != b)
    ensures LeadsOn(z, b, y, j, path)
  {
    hide DiskOk, Follow, Components, OnlyNode, L.Wf, Shaped, WholeDirs;
    var i := if path[0] == 47 then 1 else b;
    forall q | q == [] || q[0] != 47 ensures Leads(y, j, q) == Leads(z, b, path + [47] + q) {
      ComponentsJoin(path, q);
      FollowOn(z, y, b, i, Components(path), Components(q));
    }
  }

  lemma RisingSize(t: L.Table, rank: seq<nat>)
    requires L.Rising(t, rank)
    ensures |rank| == |t|
  {
  }

  lemma {:induction false} FollowSame(z: Snapshot, y: Snapshot, i: nat, cs: seq<seq<Byte>>)
    requires DiskOk(z) && DiskOk(y) && i < |z.nodes| && y.nodes == z.nodes && y.view == z.view
    ensures Follow(y, i, cs) == Follow(z, i, cs)
    decreases |cs|
  {
    hide DiskOk, Contents, DirGet;
    if cs != [] && Step(z, i, Key(cs[0])).At? { FollowSame(z, y, Step(z, i, Key(cs[0])).inum, cs[1..]); }
  }
}
