/** Link counts over every run of create and unlink (kernel/sysfile.c), on the tree of
  * directories: a table of inodes, each directory a sequence of entries.
  */
module Links {

  import opened Common

  const ROOT := 1

  type Key = seq<int>

  const DOT: Key := [46]
  const DOTDOT: Key := [46, 46]

  datatype Entry = Entry(inum: nat, key: Key)

  datatype Node = Node(typ: int, nlink: int, dir: seq<Entry>)

  type Table = seq<Node>

  // ---- counting names ----------------------------------------------------------------

  /** Entries other than "." that name inode i. */
  function NamesIn(dir: seq<Entry>, i: nat): nat { CountIf(dir, Naming(i)) }

  function Naming(i: nat): Entry -> bool { (e: Entry) => Counts(e, i) }

  predicate Counts(e: Entry, i: nat) { e.inum == i && e.key != DOT }

  predicate Linked(n: Node) { n.typ == T_DIR && n.nlink > 0 }

  function InDir(n: Node, i: nat): nat { if Linked(n) then NamesIn(n.dir, i) else 0 }

  function NamesUpTo(t: Table, i: nat, n: nat): nat
    requires n <= |t|
  {
    if n == 0 then 0 else NamesUpTo(t, i, n - 1) + InDir(t[n - 1], i)
  }

  /** How many entries of linked directories name inode i. */
  function Names(t: Table, i: nat): nat { NamesUpTo(t, i, |t|) }

  lemma {:induction false} NamesUpdate(t: Table, d: nat, x: Node, i: nat, n: nat)
    requires d < |t| && n <= |t|
    ensures NamesUpTo(t[d := x], i, n) ==
              if d < n then NamesUpTo(t, i, n) - InDir(t[d], i) + InDir(x, i) else NamesUpTo(t, i, n)
  {
    if n > 0 { NamesUpdate(t, d, x, i, n - 1); }
  }

  lemma {:induction false} NamesZero(t: Table, i: nat, n: nat)
    requires n <= |t| && forall d :: 0 <= d < |t| ==> InDir(t[d], i) == 0
    ensures NamesUpTo(t, i, n) == 0
  {
    if n > 0 { NamesZero(t, i, n - 1); }
  }

  lemma {:induction false} NamesAtLeast(t: Table, i: nat, n: nat, d: nat)
    requires d < n <= |t|
    ensures NamesUpTo(t, i, n) >= InDir(t[d], i)
  {
    if d < n - 1 { NamesAtLeast(t, i, n - 1, d); }
  }

  // ---- the tree ----------------------------------------------------------------------------

  /** "." and ".." come first, and nothing else has those names. */
  ghost predicate Shape(t: Table, d: nat)
    requires d < |t|
  {
    var dir := t[d].dir;
    && |dir| >= 2 && dir[0] == Entry(d, DOT) && dir[1].key == DOTDOT
    && (forall k :: 0 <= k < |dir| ==> dir[k].inum < |t|)
    && (forall k ::
          2 <= k < |dir| && dir[k].inum != 0 ==> dir[k].key != DOT && dir[k].key != DOTDOT && dir[k].inum != ROOT)
  }

  /** Entry k of directory d names c, k not being "." or "..". */
  ghost predicate Child(t: Table, d: nat, k: nat, c: nat) {
    d < |t| && Linked(t[d]) && 2 <= k < |t[d].dir| && t[d].dir[k].inum == c
  }

  ghost predicate ParentOk(t: Table, d: nat)
    requires d < |t| && |t[d].dir| >= 2
  {
    var p := t[d].dir[1].inum;
    if d == ROOT then p == ROOT else p != 0 && exists k :: Child(t, p, k, d)
  }

  ghost predicate CountsOk(t: Table, i: nat)
    requires i < |t|
  {
    Names(t, i) == if t[i].typ == 0 then 0 else t[i].nlink
  }

  ghost predicate AllCounts(t: Table) { forall i :: 1 <= i < |t| ==> CountsOk(t, i) }

  ghost predicate DirOk(t: Table, d: nat)
    requires d < |t|
  {
    Linked(t[d]) ==> d != 0 && Shape(t, d) && ParentOk(t, d)
  }

  ghost predicate Tree(t: Table) { forall d :: 0 <= d < |t| ==> DirOk(t, d) }

  /** A directory has one place. */
  ghost predicate Sole(t: Table) {
    forall d, k, d', k', c ::
      0 < c < |t| && t[c].typ == T_DIR && Child(t, d, k, c) && Child(t, d', k', c) ==> d == d' && k == k'
  }

  /** A directory that was removed holds nothing but its dots. */
  ghost predicate Removed(t: Table, d: nat)
    requires d < |t|
  {
    var dir := t[d].dir;
    t[d].typ == T_DIR && t[d].nlink <= 0 ==>
      && |dir| >= 2 && dir[0] == Entry(d, DOT) && dir[1].key == DOTDOT && dir[1].inum < |t| && EmptyDir(dir)
  }

  ghost predicate AllRemoved(t: Table) { forall d :: 1 <= d < |t| ==> Removed(t, d) }

  /** No two entries of a directory have the same name. */
  ghost predicate Distinct(dir: seq<Entry>) {
    forall a, b :: 0 <= a < b < |dir| && dir[a].inum != 0 && dir[b].inum != 0 ==> dir[a].key != dir[b].key
  }

  predicate Absent(dir: seq<Entry>, key: Key) { forall n :: 0 <= n < |dir| && dir[n].inum != 0 ==> dir[n].key != key }

  ghost predicate AllDistinct(t: Table) { forall d :: 0 <= d < |t| ==> Distinct(t[d].dir) }

  predicate Dir(t: Table, c: nat) { 0 < c < |t| && t[c].typ == T_DIR }

  /** A directory is ranked above the directory it is in, and a removed one above the directory
    * that its ".." still names. */
  ghost predicate Rising(t: Table, rank: seq<nat>) {
    && |rank| == |t|
    && (forall d: nat, k: nat, c: nat :: Child(t, d, k, c) && Dir(t, c) ==> rank[d] < rank[c])
    && (forall d: nat :: 0 < d < |t| ==> Above(t, rank, d))
  }

  ghost predicate Above(t: Table, rank: seq<nat>, d: nat)
    requires d < |t| == |rank|
  {
    t[d].typ == T_DIR && t[d].nlink <= 0 && |t[d].dir| >= 2 && Dir(t, t[d].dir[1].inum) ==>
      rank[t[d].dir[1].inum] < rank[d]
  }

  ghost predicate Ranked(t: Table) { exists rank :: Rising(t, rank) }

  /** The link count of each inode is the number of entries that name it, and the linked
    * directories form a tree below the root; no directory has a name twice. */
  ghost predicate Wf(t: Table) {
    && ROOT < |t| && Linked(t[ROOT]) && AllCounts(t) && Tree(t) && Sole(t) && Ranked(t) && AllRemoved(t)
    && AllDistinct(t)
  }

  /** The directories from the root down to one of them. */
  ghost predicate Path(t: Table, ds: seq<nat>) {
    ds != [] && ds[0] == ROOT && forall n :: 0 < n < |ds| ==> InIt(t, ds[n - 1], ds[n])
  }

  ghost predicate InIt(t: Table, d: nat, c: nat) { exists k :: Child(t, d, k, c) }

  /** So the linked directories are a tree: each can be reached from the root. */
  lemma Reached(t: Table, d: nat) returns (ds: seq<nat>)
    requires Wf(t) && d < |t| && Linked(t[d])
    ensures Path(t, ds) && ds[|ds| - 1] == d
  {
    hide AllCounts, Sole;
    var rank :| Rising(t, rank);
    ds := ReachedBy(t, rank, d);
  }

  lemma {:induction false} ReachedBy(t: Table, rank: seq<nat>, d: nat) returns (ds: seq<nat>)
    requires Tree(t) && Rising(t, rank) && d < |t| && Linked(t[d])
    ensures Path(t, ds) && ds[|ds| - 1] == d
    decreases if |rank| == |t| then rank[d] else 0
  {
    hide Shape, InIt;
    assert DirOk(t, d);
    assert |t[d].dir| >= 2 by { ShapeOf(t, d); }
    ds := [d];
    if d != ROOT {
      var p := t[d].dir[1].inum;
      var k :| Child(t, p, k, d);
      ds := ReachedBy(t, rank, p);
      assert InIt(t, p, d) by { Inside(t, p, k, d); }
      ds := ds + [d];
    }
  }

  lemma Inside(t: Table, d: nat, k: nat, c: nat)
    requires Child(t, d, k, c)
    ensures InIt(t, d, c)
  {
  }

  /** No directory is inside itself. */
  lemma NotInside(t: Table, d: nat, k: nat, c: nat)
    requires Wf(t) && Child(t, d, k, c) && Dir(t, c)
    ensures c != d
  {
    hide AllCounts, Tree, Sole;
    var rank :| Rising(t, rank);
  }

  /** An entry other than "." counts. */
  lemma NameCounts(t: Table, d: nat, k: nat)
    requires d < |t| && Linked(t[d]) && k < |t[d].dir| && t[d].dir[k].key != DOT
    ensures Names(t, t[d].dir[k].inum) > 0
  {
    CountSome(t[d].dir, k, Naming(t[d].dir[k].inum));
    NamesAtLeast(t, t[d].dir[k].inum, |t|, d);
  }

  /** No entry of a linked directory names a free inode. */
  lemma NoDangling(t: Table, d: nat, k: nat)
    requires Wf(t) && d < |t| && Linked(t[d]) && k < |t[d].dir| && t[d].dir[k].inum != 0
    ensures t[d].dir[k].inum < |t| && t[t[d].dir[k].inum].typ != 0
  {
    hide Sole, Names, ParentOk;
    var e := t[d].dir[k];
    assert DirOk(t, d);
    if e.key != DOT {
      NameCounts(t, d, k);
      assert CountsOk(t, e.inum);
    }
  }

  /** A name other than the dots, in a directory: the directory is linked, and what it names is
    * allocated and another inode. */
  lemma NameSound(t: Table, d: nat, k: nat)
    requires Wf(t) && Dir(t, d) && k < |t[d].dir| && t[d].dir[k].inum != 0
    requires t[d].dir[k].key != DOT && t[d].dir[k].key != DOTDOT
    ensures t[d].nlink > 0 && t[d].dir[k].inum != d
    ensures t[d].dir[k].inum < |t| && t[t[d].dir[k].inum].typ != 0
  {
    hide AllCounts, Sole, Ranked, ParentOk;
    assert Removed(t, d) && DirOk(t, d);
    NoDangling(t, d, k);
    if t[d].dir[k].inum == d { NotInside(t, d, k, d); }
  }

  // ---- create -----------------------------------------------------------------------------

  function PutEntry(dir: seq<Entry>, k: nat, e: Entry): seq<Entry>
    requires k <= |dir|
  {
    if k < |dir| then dir[k := e] else dir + [e]
  }

  lemma CountPut(dir: seq<Entry>, k: nat, e: Entry, i: nat)
    requires k <= |dir|
    ensures NamesIn(PutEntry(dir, k, e), i) ==
                NamesIn(dir, i) + One(Counts(e, i)) - (if k < |dir| then One(Counts(dir[k], i)) else 0)
  {
    if k < |dir| { CountUpdate(dir, k, e, Naming(i)); } else { assert (dir + [e])[..|dir|] == dir; }
  }

  function Dots(i: nat, dp: nat): seq<Entry> { [Entry(i, DOT), Entry(dp, DOTDOT)] }

  /** create: a new inode i of the given type, named in slot k of directory dp. */
  function Create(t: Table, dp: nat, k: nat, key: Key, i: nat, typ: int): Table
    requires dp < |t| && i < |t| && k <= |t[dp].dir|
  {
    var d := One(typ == T_DIR);
    t[i := Node(typ, 1, if typ == T_DIR then Dots(i, dp) else [])]
     [dp := t[dp].(nlink := t[dp].nlink + d, dir := PutEntry(t[dp].dir, k, Entry(i, key)))]
  }

  /** What create has established when it makes an inode: the name is new, so it is neither
    * "." nor "..", the slot is unused and the inode is free. */
  ghost predicate CanCreate(t: Table, dp: nat, k: nat, key: Key, i: nat, typ: int) {
    && dp < |t| && Linked(t[dp]) && 0 < i < |t| && t[i].typ == 0 && typ != 0
    && k <= |t[dp].dir| && (k < |t[dp].dir| ==> t[dp].dir[k].inum == 0) && key != DOT && key != DOTDOT
    && Absent(t[dp].dir, key)
  }

  lemma DotsCount(i: nat, dp: nat, j: nat)
    ensures NamesIn(Dots(i, dp), j) == One(j == dp)
  {
    var dir := Dots(i, dp);
    assert |DOT| == 1 && |DOTDOT| == 2;
    CountZero(dir[..1], Naming(j));
  }

  lemma CreateNames(t: Table, dp: nat, k: nat, key: Key, i: nat, typ: int, j: nat)
    requires CanCreate(t, dp, k, key, i, typ) && 0 < j
    ensures Names(Create(t, dp, k, key, i, typ), j) == Names(t, j) + One(j == i) + One(typ == T_DIR && j == dp)
  {
    hide NamesUpTo;
    var x := Node(typ, 1, if typ == T_DIR then Dots(i, dp) else []);
    var y := t[dp].(nlink := t[dp].nlink + One(typ == T_DIR), dir := PutEntry(t[dp].dir, k, Entry(i, key)));
    NamesUpdate(t, i, x, j, |t|);
    NamesUpdate(t[i := x], dp, y, j, |t|);
    DotsCount(i, dp, j);
    CountPut(t[dp].dir, k, Entry(i, key), j);
  }

  /** Nothing names a free inode. */
  lemma Unnamed(t: Table, d: nat, k: nat, i: nat)
    requires AllCounts(t) && 0 < i < |t| && t[i].typ == 0 && d < |t| && Linked(t[d]) && k < |t[d].dir|
    requires t[d].dir[k].key != DOT
    ensures t[d].dir[k].inum != i
  {
    hide Names;
    NameCounts(t, d, k);
    assert CountsOk(t, i);
  }

  lemma CreateDirOk(t: Table, dp: nat, k: nat, key: Key, i: nat, typ: int, d: nat)
    requires Wf(t) && CanCreate(t, dp, k, key, i, typ) && d < |t|
    ensures DirOk(Create(t, dp, k, key, i, typ), d)
  {
    hide Names, Sole, AllCounts;
    var u := Create(t, dp, k, key, i, typ);
    assert DirOk(t, dp) && DirOk(t, d);
    assert k >= 2;
    if d == i {
      assert Child(u, dp, k, i);
    } else if Linked(u[d]) {
      var p := t[d].dir[1].inum;
      if d != ROOT {
        var n :| Child(t, p, n, d);
        assert Child(u, p, n, d);
      }
    }
  }

  lemma CreateSole(t: Table, dp: nat, k: nat, key: Key, i: nat, typ: int)
    requires Wf(t) && CanCreate(t, dp, k, key, i, typ)
    ensures Sole(Create(t, dp, k, key, i, typ))
  {
    hide Names, Shape;
    var u := Create(t, dp, k, key, i, typ);
    forall d, n, c | 0 < c < |t| && u[c].typ == T_DIR && Child(u, d, n, c)
      ensures if c == i then d == dp && n == k else t[c].typ == T_DIR && Child(t, d, n, c)
    {
      CreateChild(t, dp, k, key, i, typ, d, n, c);
    }
  }

  lemma CreateChild(t: Table, dp: nat, k: nat, key: Key, i: nat, typ: int, d: nat, n: nat, c: nat)
    requires Wf(t) && CanCreate(t, dp, k, key, i, typ) && 0 < c < |t| && Child(Create(t, dp, k, key, i, typ), d, n, c)
    ensures if c == i then d == dp && n == k else Child(t, d, n, c)
  {
    hide Names, Sole, ParentOk;
    assert DirOk(t, d) && DirOk(t, dp);
    if !(d == dp && n == k) && d != i {
      assert Child(t, d, n, c);
      if c == i { Unnamed(t, d, n, i); }
    }
  }

  /** The ranks after create: the removed directories go above all others. */
  function Lifted(t: Table, rank: seq<nat>, dp: nat, i: nat): (high: seq<nat>)
    requires |rank| == |t| && dp < |t|
    ensures |high| == |t|
    ensures i < |t| ==> high[i] == rank[dp] + 1
    ensures forall c ::
              0 <= c < |t| && c != i ==>
                high[c] == if t[c].typ == T_DIR && t[c].nlink <= 0 then rank[c] + rank[dp] + 2 else rank[c]
  {
    seq(|t|, c requires 0 <= c < |t| =>
      if c == i then rank[dp] + 1
      else if t[c].typ == T_DIR && t[c].nlink <= 0 then rank[c] + rank[dp] + 2 else rank[c])
  }

  lemma CreateRanked(t: Table, dp: nat, k: nat, key: Key, i: nat, typ: int)
    requires Wf(t) && CanCreate(t, dp, k, key, i, typ)
    ensures Ranked(Create(t, dp, k, key, i, typ))
  {
    hide Names, Sole, Tree, AllCounts;
    var u := Create(t, dp, k, key, i, typ);
    var rank :| Rising(t, rank);
    var high := Lifted(t, rank, dp, i);
    forall d: nat, n: nat, c: nat | Child(u, d, n, c) && Dir(u, c) ensures high[d] < high[c] {
      CreateChild(t, dp, k, key, i, typ, d, n, c);
      if d == i && c != i { NoChild(t, i, n, c); }
    }
    forall d: nat | 0 < d < |t| ensures Above(u, high, d) { assert Above(t, rank, d); }
    assert Rising(u, high);
  }

  lemma NoChild(t: Table, i: nat, n: nat, c: nat)
    requires Child(t, i, n, c)
    ensures t[i].typ != 0
  {
  }

  lemma PutDistinct(dir: seq<Entry>, k: nat, e: Entry)
    requires Distinct(dir) && k <= |dir| && Absent(dir, e.key)
    ensures Distinct(PutEntry(dir, k, e))
  {
  }

  lemma CreateKeeps(t: Table, dp: nat, k: nat, key: Key, i: nat, typ: int)
    requires Wf(t) && CanCreate(t, dp, k, key, i, typ)
    ensures Wf(Create(t, dp, k, key, i, typ))
  {
    hide Names, Sole, Shape, ParentOk, Ranked;
    var u := Create(t, dp, k, key, i, typ);
    forall j | 1 <= j < |u| ensures CountsOk(u, j) {
      CreateNames(t, dp, k, key, i, typ, j);
      assert CountsOk(t, j);
    }
    forall d | 0 <= d < |u| ensures DirOk(u, d) { CreateDirOk(t, dp, k, key, i, typ, d); }
    CreateSole(t, dp, k, key, i, typ);
    assert |DOT| == 1 && |DOTDOT| == 2;
    PutDistinct(t[dp].dir, k, Entry(i, key));
    forall d | 1 <= d < |u| ensures Removed(u, d) { assert Removed(t, d); }
    CreateRanked(t, dp, k, key, i, typ);
  }

  /** In a removed directory create breaks it: the new name is in no linked directory, and a
    * new ".." links the directory again that no directory holds. */
  lemma CreateRemoved(t: Table, dp: nat, k: nat, key: Key, i: nat, typ: int)
    requires Wf(t) && Dir(t, dp) && t[dp].nlink == 0 && k <= |t[dp].dir| && 0 < i < |t| && t[i].typ == 0 && typ != 0
    ensures !Wf(Create(t, dp, k, key, i, typ))
  {
    hide NamesUpTo, Sole, Ranked, AllRemoved;
    var u := Create(t, dp, k, key, i, typ);
    if typ == T_DIR {
      if Wf(u) {
        assert DirOk(u, dp) && CountsOk(t, dp);
        var p, n :| Child(u, p, n, dp);
        NotInside(u, p, n, dp);
        assert Child(t, p, n, dp);
        assert DirOk(t, p);
        NameCounts(t, p, n);
      }
    } else {
      var x := Node(typ, 1, []);
      NamesUpdate(t, i, x, i, |t|);
      NamesUpdate(t[i := x], dp, u[dp], i, |t|);
      assert CountsOk(t, i) && !CountsOk(u, i);
    }
  }

  // ---- how many links -----------------------------------------------------------------------

  /** At most the entries a and b count. */
  lemma {:induction false} CountTwo(dir: seq<Entry>, i: nat, a: nat, b: nat)
    requires forall k :: 0 <= k < |dir| && Counts(dir[k], i) ==> k == a || k == b
    ensures NamesIn(dir, i) <= One(a < |dir|) + One(b < |dir|) && (a == b ==> NamesIn(dir, i) <= 1)
    decreases |dir|
  {
    if dir != [] { CountTwo(dir[..|dir| - 1], i, a, b); }
  }

  /** A directory is named by the ".." of each other directory and by its parent. */
  lemma {:induction false} NamesBound(t: Table, i: nat, d: nat, k: nat, n: nat)
    requires Tree(t) && Dir(t, i) && n <= |t|
    requires forall d': nat, k': nat :: Child(t, d', k', i) ==> d' == d && k' == k
    ensures NamesUpTo(t, i, n) <= n - One(n > 0) + One(d < n)
  {
    hide ParentOk;
    if n > 0 {
      NamesBound(t, i, d, k, n - 1);
      if Linked(t[n - 1]) {
        assert DirOk(t, n - 1);
        var dir := t[n - 1].dir;
        forall j | 0 <= j < |dir| && Counts(dir[j], i) ensures j == 1 || (n - 1 == d && j == k) {
          assert j >= 2 ==> Child(t, n - 1, j, i);
        }
        CountTwo(dir, i, 1, if n - 1 == d then k else 1);
      }
    }
  }

  /** So a directory has no more links than there are inodes. */
  lemma FewLinks(t: Table, i: nat)
    requires Wf(t) && Dir(t, i)
    ensures t[i].nlink <= |t|
  {
    hide NamesUpTo, Ranked, AllRemoved, Tree;
    assert CountsOk(t, i);
    if d: nat, k: nat :| Child(t, d, k, i) {
      NamesBound(t, i, d, k, |t|);
    } else {
      NamesBound(t, i, |t|, 0, |t|);
    }
  }

  // ---- unlink ------------------------------------------------------------------------------

  /** sys_unlink: slot k of dp, which names i, is cleared; i loses a link, and dp one if the
    * ".." of i was its. */
  function Unlink(t: Table, dp: nat, k: nat, i: nat): Table
    requires dp < |t| && i < |t| && k < |t[dp].dir|
  {
    var u := t[dp := t[dp].(nlink := t[dp].nlink - One(t[i].typ == T_DIR), dir := t[dp].dir[k := Entry(0, [])])];
    u[i := u[i].(nlink := u[i].nlink - 1)]
  }

  predicate EmptyDir(dir: seq<Entry>) { forall k :: 2 <= k < |dir| ==> dir[k].inum == 0 }

  /** What sys_unlink has established: a linked directory dp, whose slot k has a name other
    * than "." and ".."; a directory must be empty. */
  ghost predicate CanUnlink(t: Table, dp: nat, k: nat, i: nat) {
    && dp < |t| && Linked(t[dp]) && k < |t[dp].dir| && t[dp].dir[k].key != DOT && t[dp].dir[k].key != DOTDOT
    && t[dp].dir[k].inum == i && 0 < i < |t| && i != dp && (t[i].typ == T_DIR ==> EmptyDir(t[i].dir))
  }

  lemma Slot2(t: Table, dp: nat, k: nat, i: nat)
    requires Wf(t) && CanUnlink(t, dp, k, i)
    ensures k >= 2 && Child(t, dp, k, i) && i != ROOT && t[i].typ != 0
  {
    hide Names, Sole, AllCounts, ParentOk;
    assert DirOk(t, dp);
    NoDangling(t, dp, k);
  }

  /** Nothing but its parent's entry names an empty directory. */
  lemma OnlyName(t: Table, dp: nat, k: nat, i: nat, d: nat, n: nat)
    requires Wf(t) && CanUnlink(t, dp, k, i) && t[i].typ == T_DIR && d < |t| && Linked(t[d]) && n < |t[d].dir|
    requires Counts(t[d].dir[n], i)
    ensures d == dp && n == k
  {
    hide Names, AllCounts;
    Slot2(t, dp, k, i);
    assert DirOk(t, d);
    assert d != ROOT ==> exists m :: Child(t, t[d].dir[1].inum, m, d);
    assert Child(t, d, n, i);
  }

  lemma ClearedNames(t: Table, dp: nat, k: nat, i: nat, j: nat)
    requires CanUnlink(t, dp, k, i) && 0 < j
    ensures Names(t[dp := t[dp].(dir := t[dp].dir[k := Entry(0, [])])], j) == Names(t, j) - One(j == i)
  {
    hide NamesUpTo, CountIf;
    NamesUpdate(t, dp, t[dp].(dir := t[dp].dir[k := Entry(0, [])]), j, |t|);
    CountUpdate(t[dp].dir, k, Entry(0, []), Naming(j));
  }

  lemma EmptyLinks(t: Table, dp: nat, k: nat, i: nat)
    requires Wf(t) && CanUnlink(t, dp, k, i) && t[i].typ == T_DIR
    ensures t[i].nlink == 1 && Linked(t[i]) && |t[i].dir| >= 2 && t[i].dir[1].inum == dp
  {
    hide Sole, Tree, NamesUpTo;
    var u := t[dp := t[dp].(dir := t[dp].dir[k := Entry(0, [])])];
    ClearedNames(t, dp, k, i, i);
    assert DOT != [] by { assert |DOT| == 1; }
    forall d | 0 <= d < |u| ensures InDir(u[d], i) == 0 {
      if Linked(u[d]) {
        forall n | 0 <= n < |u[d].dir| ensures !Counts(u[d].dir[n], i) {
          if Counts(t[d].dir[n], i) { OnlyName(t, dp, k, i, d, n); }
        }
        CountZero(u[d].dir, Naming(i));
      }
    }
    NamesZero(u, i, |u|);
    assert CountsOk(t, i);
    ItsParent(t, dp, k, i);
  }

  lemma ItsParent(t: Table, dp: nat, k: nat, i: nat)
    requires Wf(t) && CanUnlink(t, dp, k, i) && t[i].typ == T_DIR && Linked(t[i])
    ensures |t[i].dir| >= 2 && t[i].dir[1].inum == dp
  {
    hide Names, AllCounts;
    Slot2(t, dp, k, i);
    assert DirOk(t, i);
    var p := t[i].dir[1].inum;
    var n :| Child(t, p, n, i);
  }

  lemma EmptyCount(dir: seq<Entry>, j: nat)
    requires |dir| >= 2 && dir[0].key == DOT && dir[1].key == DOTDOT && EmptyDir(dir) && j > 0
    ensures NamesIn(dir, j) == One(j == dir[1].inum)
  {
    assert |DOT| == 1 && |DOTDOT| == 2;
    var rest := dir[1 := Entry(0, DOT)];
    CountUpdate(dir, 1, Entry(0, DOT), Naming(j));
    CountZero(rest, Naming(j));
  }

  /** The parent keeps a link: its own name, or the ".." of the root. */
  lemma ParentStays(t: Table, dp: nat, k: nat, i: nat)
    requires Wf(t) && CanUnlink(t, dp, k, i) && t[i].typ == T_DIR
    ensures t[dp].nlink >= 2
  {
    hide Sole, NamesUpTo, NamesIn;
    EmptyLinks(t, dp, k, i);
    Slot2(t, dp, k, i);
    assert |DOT| == 1 && |DOTDOT| == 2;
    assert DirOk(t, dp) && DirOk(t, i) && CountsOk(t, dp);
    var x := t[i].(nlink := 0);
    NamesUpdate(t, i, x, dp, |t|);
    EmptyCount(t[i].dir, dp);
    var u := t[i := x];
    if dp == ROOT {
      NameCounts(u, ROOT, 1);
    } else {
      var p := t[dp].dir[1].inum;
      var n :| Child(t, p, n, dp);
      assert DirOk(t, p);
      NameCounts(u, p, n);
    }
  }

  lemma UnlinkNames(t: Table, dp: nat, k: nat, i: nat, j: nat)
    requires Wf(t) && CanUnlink(t, dp, k, i) && 0 < j < |t|
    ensures Names(Unlink(t, dp, k, i), j) == Names(t, j) - One(j == i) - One(t[i].typ == T_DIR && j == dp)
  {
    hide NamesUpTo, NamesIn, Tree, Sole;
    ClearedNames(t, dp, k, i, j);
    var dir := t[dp].dir[k := Entry(0, [])];
    var u := t[dp := t[dp].(dir := dir)];
    if t[i].typ == T_DIR {
      EmptyLinks(t, dp, k, i);
      ParentStays(t, dp, k, i);
      assert Shape(t, i) by { assert Tree(t); ShapeOf(t, i); }
      EmptyCount(t[i].dir, j);
    }
    var y := t[dp].(nlink := t[dp].nlink - One(t[i].typ == T_DIR), dir := dir);
    NamesUpdate(u, dp, y, j, |t|);
    assert u[dp := y] == t[dp := y];
    var x := t[i].(nlink := t[i].nlink - 1);
    NamesUpdate(t[dp := y], i, x, j, |t|);
  }

  lemma ShapeOf(t: Table, d: nat)
    requires Tree(t) && d < |t| && Linked(t[d])
    ensures Shape(t, d)
  {
    assert DirOk(t, d);
  }

  lemma UnlinkDirOk(t: Table, dp: nat, k: nat, i: nat, d: nat)
    requires Wf(t) && CanUnlink(t, dp, k, i) && d < |t|
    ensures DirOk(Unlink(t, dp, k, i), d)
  {
    hide Names, AllCounts;
    var u := Unlink(t, dp, k, i);
    Slot2(t, dp, k, i);
    if t[i].typ == T_DIR { EmptyLinks(t, dp, k, i); ParentStays(t, dp, k, i); }
    assert DirOk(t, d);
    if Linked(u[d]) && d != ROOT {
      var p := t[d].dir[1].inum;
      var n :| Child(t, p, n, d);
      assert Child(u, p, n, d);
    }
  }

  lemma UnlinkSole(t: Table, dp: nat, k: nat, i: nat)
    requires Wf(t) && CanUnlink(t, dp, k, i)
    ensures Sole(Unlink(t, dp, k, i)) && Ranked(Unlink(t, dp, k, i))
  {
    hide Names, AllCounts, Tree;
    var u := Unlink(t, dp, k, i);
    Slot2(t, dp, k, i);
    if t[i].typ == T_DIR {
      ParentStays(t, dp, k, i);
      EmptyLinks(t, dp, k, i);
    }
    forall d, n, c | 0 < c < |t| && u[c].typ == T_DIR && Child(u, d, n, c)
      ensures t[c].typ == T_DIR && Child(t, d, n, c)
    {
    }
    var rank :| Rising(t, rank);
    forall d: nat | 0 < d < |t| ensures Above(u, rank, d) { assert Above(t, rank, d); }
    assert Rising(u, rank);
  }

  lemma UnlinkKeeps(t: Table, dp: nat, k: nat, i: nat)
    requires Wf(t) && CanUnlink(t, dp, k, i)
    ensures Wf(Unlink(t, dp, k, i))
  {
    hide Names, Sole, Tree, NamesIn, Ranked;
    var u := Unlink(t, dp, k, i);
    Slot2(t, dp, k, i);
    forall j | 1 <= j < |u| ensures CountsOk(u, j) {
      UnlinkNames(t, dp, k, i, j);
      assert CountsOk(t, j);
    }
    assert Tree(u) by { forall d | 0 <= d < |u| ensures DirOk(u, d) { UnlinkDirOk(t, dp, k, i, d); } TreeIs(u); }
    UnlinkSole(t, dp, k, i);
    if t[i].typ == T_DIR { ParentStays(t, dp, k, i); EmptyLinks(t, dp, k, i); ShapeOf(t, i); }
    forall d | 1 <= d < |u| ensures Removed(u, d) { assert Removed(t, d); }
  }

  lemma TreeIs(t: Table)
    requires forall d :: 0 <= d < |t| ==> DirOk(t, d)
    ensures Tree(t)
  {
  }

  // ---- the last iput ---------------------------------------------------------------------

  /** iput frees an unlinked inode. */
  function Free(t: Table, i: nat): Table
    requires i < |t|
  {
    t[i := Node(0, 0, [])]
  }

  lemma FreeKeeps(t: Table, i: nat)
    requires Wf(t) && 0 < i < |t| && t[i].typ != 0 && t[i].nlink == 0
    ensures Wf(Free(t, i))
  {
    hide NamesUpTo;
    var u := Free(t, i);
    forall j | 1 <= j < |u| ensures CountsOk(u, j) {
      NamesUpdate(t, i, Node(0, 0, []), j, |t|);
      assert CountsOk(t, j);
    }
    forall d | 0 <= d < |u| ensures DirOk(u, d) {
      assert DirOk(t, d);
      if Linked(u[d]) && d != ROOT {
        var p := t[d].dir[1].inum;
        var n :| Child(t, p, n, d);
        assert Child(u, p, n, d);
      }
    }
    forall d, n, c | 0 < c < |t| && u[c].typ == T_DIR && Child(u, d, n, c) ensures Child(t, d, n, c) {}
    forall d | 1 <= d < |u| ensures Removed(u, d) { assert Removed(t, d); }
    var rank :| Rising(t, rank);
    forall d: nat | 0 < d < |t| ensures Above(u, rank, d) { assert Above(t, rank, d); }
    assert Rising(u, rank);
  }

  // ---- the base case ------------------------------------------------------------------------

  /** The table mkfs starts with: a root directory that is its own parent, with one link. */
  function RootOnly(n: nat): Table
    requires n > ROOT
  {
    seq(n, i => Node(0, 0, []))[ROOT := Node(T_DIR, 1, Dots(ROOT, ROOT))]
  }

  lemma RootOnlyWf(n: nat)
    requires n > ROOT
    ensures Wf(RootOnly(n))
  {
    hide NamesUpTo, NamesIn;
    var e: Table, x := seq(n, i => Node(0, 0, [])), Node(T_DIR, 1, Dots(ROOT, ROOT));
    var t := RootOnly(n);
    forall i | 1 <= i < n ensures CountsOk(t, i) {
      NamesZero(e, i, n);
      NamesUpdate(e, ROOT, x, i, n);
      DotsCount(ROOT, ROOT, i);
    }
    forall d | 0 <= d < n ensures DirOk(t, d) {}
    assert |DOT| == 1 && |DOTDOT| == 2;
    var rank := seq(n, i => 0);
    forall d: nat | 0 < d < |t| ensures Above(t, rank, d) {}
    assert Rising(t, rank);
  }

  // ---- a removed directory cannot be reached again -----------------------------------------------

  /** From inode k no walk leads to the removed inode b. */
  ghost predicate Off(t: Table, rank: seq<nat>, b: nat, k: nat)
    requires |rank| == |t| && b < |t|
  {
    0 < k < |t| && (t[k].nlink > 0 || (Dir(t, b) && (t[k].typ != T_DIR || rank[k] < rank[b])))
  }

  lemma OffStays(t: Table, rank: seq<nat>, b: nat, k: nat, n: nat)
    requires Wf(t) && Rising(t, rank) && 0 < b < |t| && t[b].nlink <= 0 && Dir(t, k)
    requires Off(t, rank, b, k) || k == b
    requires n < |t[k].dir| && t[k].dir[n].inum != 0
    ensures Off(t, rank, b, t[k].dir[n].inum) || (k == b && t[k].dir[n].inum == b)
  {
    hide Names, Sole, Ranked;
    var e := t[k].dir[n].inum;
    assert DirOk(t, k) && Removed(t, k) && Above(t, rank, k);
    if Linked(t[k]) && n >= 2 {
      NameCounts(t, k, n);
      assert CountsOk(t, e);
    }
  }

  lemma OffNot(t: Table, rank: seq<nat>, b: nat, k: nat)
    requires |rank| == |t| && b < |t| && t[b].nlink <= 0 && Off(t, rank, b, k)
    ensures k != b
  {
  }

  // ---- runs ---------------------------------------------------------------------------------

  ghost predicate Step(t: Table, u: Table) {
    || (exists dp: nat, k: nat, key, i: nat, typ ::
          CanCreate(t, dp, k, key, i, typ) && u == Create(t, dp, k, key, i, typ))
    || (exists dp: nat, k: nat, i: nat :: CanUnlink(t, dp, k, i) && u == Unlink(t, dp, k, i))
    || (exists i: nat :: 0 < i < |t| && t[i].typ != 0 && t[i].nlink == 0 && u == Free(t, i))
  }

  ghost predicate IsRun(ts: seq<Table>) {
    ts != [] && Wf(ts[0]) && forall n, m :: 0 <= n && m == n + 1 < |ts| ==> Step(ts[n], ts[m])
  }

  lemma StepKeeps(t: Table, u: Table)
    requires Wf(t) && Step(t, u)
    ensures Wf(u)
  {
    hide Wf;
    if dp: nat, k: nat, key, i: nat, typ :| CanCreate(t, dp, k, key, i, typ) && u == Create(t, dp, k, key, i, typ) {
      CreateKeeps(t, dp, k, key, i, typ);
    } else if dp: nat, k: nat, i: nat :| CanUnlink(t, dp, k, i) && u == Unlink(t, dp, k, i) {
      UnlinkKeeps(t, dp, k, i);
    } else {
      var i: nat :| 0 < i < |t| && t[i].typ != 0 && t[i].nlink == 0 && u == Free(t, i);
      FreeKeeps(t, i);
    }
  }

  /** In every state of every run the link counts are exact and no entry dangles. */
  lemma {:induction false} LinkCountsExact(ts: seq<Table>, n: nat, i: nat)
    requires IsRun(ts) && n < |ts| && 0 < i < |ts[n]|
    ensures Wf(ts[n]) && Names(ts[n], i) == if ts[n][i].typ == 0 then 0 else ts[n][i].nlink
  {
    hide Names, Sole, Tree, Step;
    RunKeeps(ts, n);
    assert CountsOk(ts[n], i);
  }

  lemma {:induction false} RunKeeps(ts: seq<Table>, n: nat)
    requires IsRun(ts) && n < |ts|
    ensures Wf(ts[n])
  {
    hide Wf, Step;
    if n > 0 {
      RunKeeps(ts, n - 1);
      StepKeeps(ts[n - 1], ts[n]);
    }
  }
}
