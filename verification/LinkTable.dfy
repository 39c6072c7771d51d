/** The disk as the table of inodes that Links reasons about, and what each step of create
  * and unlink does to that table.
  */
module LinkTable {
  import opened Common
  import opened Bytes
  import opened DiskLayout
  import opened FileData
  import opened DirEntries
  import opened Directories
  import opened Paths
  import L = Links

  function EntriesOf(c: seq<Byte>): (dir: seq<L.Entry>)
    ensures |dir| == Slots(c)
  {
    seq(Slots(c), k requires 0 <= k < Slots(c) => L.Entry(InumAt(c, k), KeyAt(c, k)))
  }

  ghost predicate Shaped(z: Snapshot) { forall i :: 0 <= i < |z.nodes| ==> |z.nodes[i].addrs| == NDIRECT + 1 }

  ghost function NodeOf(z: Snapshot, i: nat): L.Node
    requires i < |z.nodes| && |z.nodes[i].addrs| == NDIRECT + 1
  {
    var d := z.nodes[i];
    L.Node(d.typ, d.nlink, if d.typ == T_DIR then EntriesOf(Contents(z.view, d)) else [])
  }

  /** The inodes of the disk with their link counts and directory entries. */
  ghost function Abs(z: Snapshot): (t: L.Table)
    requires Shaped(z)
    ensures |t| == |z.nodes| && forall i :: 0 <= i < |t| ==> t[i] == NodeOf(z, i)
  {
    seq(|z.nodes|, i requires 0 <= i < |z.nodes| => NodeOf(z, i))
  }

  /** From z to y no file but that of inode i changed. */
  ghost predicate OnlyNode(z: Snapshot, y: Snapshot, i: nat) {
    && |y.nodes| == |z.nodes| && Shaped(z) && Shaped(y)
    && (forall j :: 0 <= j < |z.nodes| && j != i ==> SameFile(z, y, j))
  }

  ghost predicate SameFile(z: Snapshot, y: Snapshot, j: nat)
    requires j < |z.nodes| == |y.nodes| && Shaped(z) && Shaped(y)
  {
    y.nodes[j] == z.nodes[j] && Contents(y.view, y.nodes[j]) == Contents(z.view, z.nodes[j])
  }

  lemma OnlyNodeView(z: Snapshot, x: Snapshot, y: Snapshot, i: nat)
    requires OnlyNode(z, x, i) && y.nodes == x.nodes && y.view == x.view
    ensures OnlyNode(z, y, i)
  {
    hide Contents;
    forall j | 0 <= j < |z.nodes| && j != i ensures SameFile(z, y, j) { assert SameFile(z, x, j); }
  }

  lemma OnlyNodeTwice(z: Snapshot, x: Snapshot, y: Snapshot, i: nat)
    requires OnlyNode(z, x, i) && OnlyNode(x, y, i)
    ensures OnlyNode(z, y, i)
  {
    hide Contents;
    forall j | 0 <= j < |z.nodes| && j != i ensures SameFile(z, y, j) { assert SameFile(z, x, j) && SameFile(x, y, j); }
  }

  /** Only the cache differs. */
  lemma AbsSame(z: Snapshot, y: Snapshot)
    requires Shaped(z) && y.nodes == z.nodes && y.view == z.view
    ensures Shaped(y) && Abs(y) == Abs(z)
  {
    hide Contents, EntriesOf;
    assert forall j :: 0 <= j < |z.nodes| ==> NodeOf(y, j) == NodeOf(z, j);
  }

  // ---- new fields of an inode ----------------------------------------------------------------

  /** iupdate after a change of fields other than size and blocks. */
  lemma FieldsSettle(sb: SuperBlock, z: Snapshot, i: nat, d: Dinode)
    requires Settles(sb, z) && i < |z.nodes| && d.addrs == z.nodes[i].addrs && d.size == z.nodes[i].size && Storable(d)
    requires d.typ != 0
    ensures Geometry(sb, |z.view|) && i < sb.nInodes
    ensures var y := z.(view := WithInode(sb, z.view, i, d), nodes := z.nodes[i := d]);
            Settles(sb, y) && OnlyNode(z, y, i) && Contents(y.view, d) == Contents(z.view, z.nodes[i])
  {
    hide InodeOk, OwnerOk, BitOk, OnDisk, ByteOf, SlotOf, Ptr, WithInode;
    OwnedBasics(sb, z.view, z.nodes, z.used, z.owner, {});
    FieldsKeep(sb, z.view, z.nodes, z.used, z.owner, {}, i, d);
    UpdateKeeps(sb, z.view, z.nodes[i := d], z.used, z.owner, i, d);
    var y := z.(view := WithInode(sb, z.view, i, d), nodes := z.nodes[i := d]);
    forall j | 0 <= j < sb.nInodes
      ensures Stored(sb, y.view, y.nodes, y.used, j)
    {
      assert Stored(sb, z.view, z.nodes, z.used, j);
    }
    forall j | 0 <= j < sb.nInodes ensures Contents(y.view, z.nodes[j]) == Contents(z.view, z.nodes[j]) {
      assert Stored(sb, z.view, z.nodes, z.used, j);
      forall b | b in z.owner && z.owner[b].0 == j && b < |z.view| ensures y.view[b] == z.view[b] {
        OwnerInData(sb, z.view, z.nodes, z.used, z.owner, {}, b);
      }
      ContentsFrame(sb, z.view, y.view, z.nodes, z.used, z.owner, {}, j);
    }
    assert Contents(y.view, d) == Contents(y.view, z.nodes[i]) by { SameBytes(y.view, d, z.nodes[i]); }
    forall j | 0 <= j < |z.nodes| && j != i ensures SameFile(z, y, j) {}
  }

  lemma SameBytes(v: View, d: Dinode, d': Dinode)
    requires d.addrs == d'.addrs && d.size == d'.size && |d.addrs| == NDIRECT + 1
    ensures Contents(v, d) == Contents(v, d')
  {
    forall k | 0 <= k < d.size ensures ByteOf(v, d, k) == ByteOf(v, d', k) {}
  }

  // ---- a directory entry ----------------------------------------------------------------------

  /** Writing the 32 bytes of an entry at slot k. */
  lemma EntriesWritten(c: seq<Byte>, k: nat, inum: nat, field: seq<Byte>)
    requires k <= Slots(c) && |c| % ENTRY == 0 && |field| == DIRSIZ && inum < U64
    ensures EntriesOf(Overwrite(c, ENTRY * k, EntryBytes(inum, field))) ==
                L.PutEntry(EntriesOf(c), k, L.Entry(inum, Key(field)))
  {
    hide KeyN, FromLE, ToLE, Overwrite, InumAt, KeyAt, EntryBytes;
    LinkSlots(c, k, inum, field);
    var c' := Overwrite(c, ENTRY * k, EntryBytes(inum, field));
    var a, b := EntriesOf(c'), L.PutEntry(EntriesOf(c), k, L.Entry(inum, Key(field)));
    assert |a| == |b|;
    forall j | 0 <= j < |a| ensures a[j] == b[j] { EntryWritten(c, k, inum, field, j); }
  }

  lemma WrittenOnly(sb: SuperBlock, i: nat, z: Snapshot, y: Snapshot, off: nat, src: seq<Byte>)
    requires FileWritten(sb, i, z, y, off, src)
    ensures OnlyNode(z, y, i)
  {
    hide Contents;
    forall j | 0 <= j < |z.nodes| && j != i ensures SameFile(z, y, j) {}
  }
}
