/** Who owns which disk block: the bitmap, the inodes and the indirect blocks of
  * kernel/fs.c as one invariant over the array of blocks, and what each step of
  * the block allocator and the block map does to it.
  *
  * The pointers of an inode are numbered by slot: 0..12 are the direct ones, 13
  * is the indirect block, 14.. are the entries of the indirect block. Files have
  * no holes, so the slots in use are always 0..n-1 for some n.
  */
module DiskLayout {
  import opened Common
  import opened Bytes

  datatype SuperBlock = SuperBlock(size: nat, nInodes: nat, inodeStart: nat, bmapStart: nat)

  /** The geometry that mkfs writes. */
  const MKFS := SuperBlock(4096, 96, 3, 2)

  const MAXFILEBLK := NDIRECT + NINDIRECT
  const INDIRECT := NDIRECT            // slot of the indirect block
  const NSLOTS := NDIRECT + 1 + NINDIRECT

  type View = seq<Block>

  function BBlock(sb: SuperBlock, b: nat): nat { b / BPB + sb.bmapStart }

  function IBlock(sb: SuperBlock, i: nat): nat { i / IPB + sb.inodeStart }

  /** The first block after the metadata: reserved, superblock, bitmap, inodes. */
  function DataStart(sb: SuperBlock): nat
    requires sb.nInodes > 0
  {
    sb.inodeStart + (sb.nInodes - 1) / IPB + 1
  }

  predicate Geometry(sb: SuperBlock, n: nat) {
    && sb.nInodes > 1 && sb.size > 0 && sb.bmapStart > 0
    && sb.bmapStart + (sb.size - 1) / BPB + 1 <= sb.inodeStart
    && DataStart(sb) <= sb.size <= n < U64
  }

  lemma MkfsGeometry()
    ensures Geometry(MKFS, 4096) && DataStart(MKFS) == 6
  {
  }

  predicate InUse(sb: SuperBlock, view: View, b: nat)
    requires Geometry(sb, |view|) && b < sb.size
  {
    BitAt(view[BBlock(sb, b)], b % BPB)
  }

  function OnDisk(sb: SuperBlock, view: View, i: nat): Dinode
    requires Geometry(sb, |view|) && i < sb.nInodes
  {
    DinodeAt(view[IBlock(sb, i)], i % IPB)
  }

  /** The slot of file block bn. */
  function SlotOf(bn: nat): nat { if bn < NDIRECT then bn else bn + 1 }

  /** How many slots a file of this size uses. */
  function SlotCount(size: nat): nat {
    if size == 0 then 0 else SlotOf((size - 1) / BSIZE) + 1
  }

  /** The pointer in slot s of inode d; 0 when there is none. */
  function Ptr(view: View, d: Dinode, s: nat): nat
    requires |d.addrs| == NDIRECT + 1 && s < NSLOTS
  {
    if s <= INDIRECT then d.addrs[s]
    else if 0 < d.addrs[INDIRECT] < |view| then PtrAt(view[d.addrs[INDIRECT]], s - INDIRECT - 1)
    else 0
  }

  type Owner = map<nat, (nat, nat)>    // block number to (inode number, slot)

  ghost predicate SlotOk(view: View, d: Dinode, n: nat, owner: Owner, i: nat, s: nat)
    requires |d.addrs| == NDIRECT + 1 && s < NSLOTS
  {
    var p := Ptr(view, d, s);
    if s < n then p in owner && owner[p] == (i, s) else p == 0
  }

  ghost predicate InodeOk(view: View, d: Dinode, n: nat, owner: Owner, i: nat) {
    && |d.addrs| == NDIRECT + 1 && n <= NSLOTS
    && forall s :: 0 <= s < NSLOTS ==> SlotOk(view, d, n, owner, i, s)
  }

  ghost predicate OwnerOk(sb: SuperBlock, view: View, nodes: seq<Dinode>, used: seq<nat>, owner: Owner, b: nat)
    requires b in owner && sb.nInodes > 0 && |nodes| == |used|
  {
    var (i, s) := owner[b];
    && DataStart(sb) <= b < sb.size
    && i < |nodes| && s < used[i] <= NSLOTS && |nodes[i].addrs| == NDIRECT + 1
    && Ptr(view, nodes[i], s) == b
  }

  ghost predicate BitOk(sb: SuperBlock, view: View, owner: Owner, pending: set<nat>, b: nat)
    requires Geometry(sb, |view|) && b < sb.size
  {
    InUse(sb, view, b) <==> b < DataStart(sb) || b in owner || b in pending
  }

  /** The set bits of the bitmap are the metadata blocks, the blocks named by
    * inodes, each named by exactly one pointer, and the blocks in `pending`:
    * allocated but not yet stored in a pointer, or no longer in a pointer but
    * not yet freed. */
  ghost predicate Owned(sb: SuperBlock, view: View, nodes: seq<Dinode>, used: seq<nat>, owner: Owner,
        pending: set<nat>) {
    && Geometry(sb, |view|)
    && |nodes| == |used| == sb.nInodes
    && (forall i :: 0 <= i < |nodes| ==> InodeOk(view, nodes[i], used[i], owner, i))
    && (forall b :: b in owner ==> OwnerOk(sb, view, nodes, used, owner, b))
    && (forall b :: 0 <= b < sb.size ==> BitOk(sb, view, owner, pending, b))
    && (forall b :: b in pending ==> DataStart(sb) <= b < sb.size && b !in owner)
  }

  /** Views that agree on every block that another step looks at. */
  ghost predicate SamePointers(view: View, view': View, owner: Owner) {
    && |view'| == |view|
    && forall b :: b in owner && owner[b].1 == INDIRECT && b < |view| ==> view'[b] == view[b]
  }

  /** An inode keeps its pointers when the indirect blocks keep their contents. */
  lemma PtrFrame(view: View, view': View, d: Dinode, n: nat, owner: Owner, i: nat, s: nat)
    requires InodeOk(view, d, n, owner, i) && SamePointers(view, view', owner) && s < NSLOTS
    ensures Ptr(view', d, s) == Ptr(view, d, s)
  {
    assert SlotOk(view, d, n, owner, i, INDIRECT);
  }

  lemma InodeFrame(view: View, view': View, d: Dinode, n: nat, owner: Owner, i: nat)
    requires InodeOk(view, d, n, owner, i) && SamePointers(view, view', owner)
    ensures InodeOk(view', d, n, owner, i)
  {
    forall s | 0 <= s < NSLOTS ensures SlotOk(view', d, n, owner, i, s) {
      assert SlotOk(view, d, n, owner, i, s);
      PtrFrame(view, view', d, n, owner, i, s);
    }
  }

  /** A step that leaves the indirect blocks alone keeps all ownership but that of
    * the blocks whose bits it changes. */
  lemma OwnedFrame(sb: SuperBlock, view: View, view': View, nodes: seq<Dinode>, used: seq<nat>, owner: Owner,
                   pending: set<nat>, pending': set<nat>)
    requires Owned(sb, view, nodes, used, owner, pending) && SamePointers(view, view', owner)
    requires forall b :: 0 <= b < sb.size ==> BitOk(sb, view', owner, pending', b)
    requires forall b :: b in pending' ==> DataStart(sb) <= b < sb.size && b !in owner
    ensures Owned(sb, view', nodes, used, owner, pending')
  {
    forall i | 0 <= i < |nodes| ensures InodeOk(view', nodes[i], used[i], owner, i) {
      InodeFrame(view, view', nodes[i], used[i], owner, i);
    }
    forall b | b in owner ensures OwnerOk(sb, view', nodes, used, owner, b) {
      assert OwnerOk(sb, view, nodes, used, owner, b);
      var (i, s) := owner[b];
      PtrFrame(view, view', nodes[i], used[i], owner, i, s);
    }
  }

  /** The bit of block b switched. */
  function WithInUse(sb: SuperBlock, view: View, b: nat, on: bool): (r: View)
    requires Geometry(sb, |view|) && b < sb.size
    ensures |r| == |view|
    ensures forall x :: 0 <= x < sb.size ==> (InUse(sb, r, x) <==> if x == b then on else InUse(sb, view, x))
    ensures forall x :: DataStart(sb) <= x < |view| ==> r[x] == view[x]
    ensures forall i :: 0 <= i < sb.nInodes ==> OnDisk(sb, r, i) == OnDisk(sb, view, i)
  {
    view[BBlock(sb, b) := WithBit(view[BBlock(sb, b)], b % BPB, on)]
  }

  /** balloc: the bit is set and the block zeroed. */
  function Allocated(sb: SuperBlock, view: View, b: nat): (r: View)
    requires Geometry(sb, |view|) && b < sb.size
  {
    WithInUse(sb, view, b, true)[b := ZeroBlock()]
  }

  lemma AllocateKeeps(sb: SuperBlock, view: View, nodes: seq<Dinode>, used: seq<nat>, owner: Owner, b: nat)
    requires Owned(sb, view, nodes, used, owner, {}) && b < sb.size && !InUse(sb, view, b)
    ensures DataStart(sb) <= b && b !in owner
    ensures Owned(sb, Allocated(sb, view, b), nodes, used, owner, {b})
    ensures forall i :: 0 <= i < sb.nInodes ==> OnDisk(sb, Allocated(sb, view, b), i) == OnDisk(sb, view, i)
  {
    assert BitOk(sb, view, owner, {}, b);
    var mid := WithInUse(sb, view, b, true);
    var view' := Allocated(sb, view, b);
    forall x | 0 <= x < sb.size ensures BitOk(sb, view', owner, {b}, x) {
      assert BitOk(sb, view, owner, {}, x);
      assert InUse(sb, view', x) == InUse(sb, mid, x);
    }
    forall x | x in owner && x < |view| ensures view'[x] == view[x] {
      assert OwnerOk(sb, view, nodes, used, owner, x);
    }
    OwnedFrame(sb, view, view', nodes, used, owner, {}, {b});
  }

  /** bfree of a pending block. Its bit is set, so "freeing free block" cannot happen. */
  lemma FreeKeeps(sb: SuperBlock, view: View, nodes: seq<Dinode>, used: seq<nat>, owner: Owner, pending: set<nat>,
        b: nat)
    requires Owned(sb, view, nodes, used, owner, pending) && b in pending
    ensures b < sb.size && InUse(sb, view, b)
    ensures Owned(sb, WithInUse(sb, view, b, false), nodes, used, owner, pending - {b})
  {
    assert BitOk(sb, view, owner, pending, b);
    var view' := WithInUse(sb, view, b, false);
    forall x | 0 <= x < sb.size ensures BitOk(sb, view', owner, pending - {b}, x) {
      assert BitOk(sb, view, owner, pending, x);
    }
    forall x | x in owner && x < |view| ensures view'[x] == view[x] {
      assert OwnerOk(sb, view, nodes, used, owner, x);
    }
    OwnedFrame(sb, view, view', nodes, used, owner, pending, pending - {b});
  }

  /** Writes to data blocks and to inode blocks do not touch ownership. */
  lemma WriteKeeps(sb: SuperBlock, view: View, nodes: seq<Dinode>, used: seq<nat>, owner: Owner, pending: set<nat>,
                   b: nat, data: Block)
    requires Owned(sb, view, nodes, used, owner, pending) && b < |view|
    requires b in owner ==> owner[b].1 != INDIRECT
    requires b >= sb.inodeStart
    ensures Owned(sb, view[b := data], nodes, used, owner, pending)
  {
    var view' := view[b := data];
    forall x | 0 <= x < sb.size ensures BitOk(sb, view', owner, pending, x) {
      assert BitOk(sb, view, owner, pending, x);
      assert BBlock(sb, x) < sb.inodeStart;
    }
    OwnedFrame(sb, view, view', nodes, used, owner, pending, pending);
  }

  /** Other inodes do not notice that a block got an owner or changed hands. */
  lemma InodeOwnerFrame(view: View, d: Dinode, n: nat, owner: Owner, owner': Owner, i: nat)
    requires InodeOk(view, d, n, owner, i)
    requires forall b :: b in owner && owner[b].0 == i ==> b in owner' && owner'[b] == owner[b]
    ensures InodeOk(view, d, n, owner', i)
  {
    forall s | 0 <= s < NSLOTS ensures SlotOk(view, d, n, owner', i, s) {
      assert SlotOk(view, d, n, owner, i, s);
    }
  }

  function WithAddr(d: Dinode, s: nat, b: nat): Dinode
    requires s < |d.addrs|
  {
    d.(addrs := d.addrs[s := b])
  }

  /** ip->addrs[s] = b: the pending, zeroed block b becomes the next slot of inode i. */
  lemma AttachKeeps(sb: SuperBlock, view: View, nodes: seq<Dinode>, used: seq<nat>, owner: Owner, i: nat, b: nat)
    requires Owned(sb, view, nodes, used, owner, {b}) && i < |nodes|
    requires used[i] <= INDIRECT && view[b] == ZeroBlock()
    ensures |nodes[i].addrs| == NDIRECT + 1
    ensures Owned(sb, view, nodes[i := WithAddr(nodes[i], used[i], b)], used[i := used[i] + 1],
                  owner[b := (i, used[i])], {})
  {
    var s := used[i];
    var d := nodes[i];
    assert InodeOk(view, d, s, owner, i);
    var d' := WithAddr(d, s, b);
    var owner', n := owner[b := (i, s)], s + 1;
    forall x | 0 <= x < NSLOTS ensures SlotOk(view, d', n, owner', i, x) {
      assert SlotOk(view, d, s, owner, i, x) && SlotOk(view, d, s, owner, i, INDIRECT);
      if s == INDIRECT && x > INDIRECT { PtrAtZero(x - INDIRECT - 1); }
    }
    forall j | 0 <= j < |nodes| && j != i ensures InodeOk(view, nodes[j], used[j], owner', j) {
      InodeOwnerFrame(view, nodes[j], used[j], owner, owner', j);
    }
    AttachOwners(sb, view, nodes, used, owner, i, b, d');
  }

  lemma AttachOwners(sb: SuperBlock, view: View, nodes: seq<Dinode>, used: seq<nat>, owner: Owner, i: nat, b: nat,
        d': Dinode)
    requires Owned(sb, view, nodes, used, owner, {b}) && i < |nodes|
    requires used[i] <= INDIRECT && |nodes[i].addrs| == NDIRECT + 1 && d' == WithAddr(nodes[i], used[i], b)
    ensures var owner' := owner[b := (i, used[i])];
            && (forall x :: x in owner' ==> OwnerOk(sb, view, nodes[i := d'], used[i := used[i] + 1], owner', x))
            && (forall x :: 0 <= x < sb.size ==> BitOk(sb, view, owner', {}, x))
  {
    var s := used[i];
    var owner' := owner[b := (i, s)];
    var nodes', used' := nodes[i := d'], used[i := s + 1];
    forall x | x in owner' ensures OwnerOk(sb, view, nodes', used', owner', x) {
      if x != b {
        assert OwnerOk(sb, view, nodes, used, owner, x);
        var (j, t) := owner[x];
        if j == i { assert Ptr(view, d', t) == Ptr(view, nodes[i], t); }
      }
    }
    forall x | 0 <= x < sb.size ensures BitOk(sb, view, owner', {}, x) {
      assert BitOk(sb, view, owner, {b}, x);
    }
  }

  /** The view once entry s - 14 of d's indirect block names b. */
  function WithEntry(view: View, d: Dinode, s: nat, b: nat): View
    requires |d.addrs| == NDIRECT + 1 && d.addrs[INDIRECT] < |view| && INDIRECT < s < NSLOTS
  {
    view[d.addrs[INDIRECT] := WithPtr(view[d.addrs[INDIRECT]], s - INDIRECT - 1, b)]
  }

  lemma EntryPtrs(view: View, d: Dinode, s: nat, b: nat, x: nat)
    requires |d.addrs| == NDIRECT + 1 && 0 < d.addrs[INDIRECT] < |view| && INDIRECT < s < NSLOTS && b < U64
    requires x < NSLOTS
    ensures Ptr(WithEntry(view, d, s, b), d, x) == if x == s then b else Ptr(view, d, x)
  {
    if x > INDIRECT { PtrAtWithPtr(view[d.addrs[INDIRECT]], s - INDIRECT - 1, b, x - INDIRECT - 1); }
  }

  /** a[bn] = b in the indirect block: the pending block b becomes the next slot of inode i. */
  lemma AttachEntryKeeps(sb: SuperBlock, view: View, nodes: seq<Dinode>, used: seq<nat>, owner: Owner, i: nat, b: nat)
    requires Owned(sb, view, nodes, used, owner, {b}) && i < |nodes|
    requires INDIRECT < used[i] < NSLOTS
    ensures |nodes[i].addrs| == NDIRECT + 1 && nodes[i].addrs[INDIRECT] < |view|
    ensures Owned(sb, WithEntry(view, nodes[i], used[i], b), nodes, used[i := used[i] + 1],
                  owner[b := (i, used[i])], {})
  {
    var s := used[i];
    var d := nodes[i];
    assert InodeOk(view, d, s, owner, i);
    assert SlotOk(view, d, s, owner, i, INDIRECT);
    var ind := d.addrs[INDIRECT];
    assert OwnerOk(sb, view, nodes, used, owner, ind);
    var view' := WithEntry(view, d, s, b);
    var owner', n := owner[b := (i, s)], s + 1;
    forall x | 0 <= x < NSLOTS ensures SlotOk(view', d, n, owner', i, x) {
      assert SlotOk(view, d, s, owner, i, x);
      EntryPtrs(view, d, s, b, x);
    }
    forall j | 0 <= j < |nodes| && j != i
      ensures InodeOk(view', nodes[j], used[j], owner', j)
      ensures forall x :: 0 <= x < NSLOTS ==> Ptr(view', nodes[j], x) == Ptr(view, nodes[j], x)
    {
      OtherIndirect(sb, view, nodes, used, owner, {b}, i, j);
      InodeOwnerFrame(view, nodes[j], used[j], owner, owner', j);
      forall x | 0 <= x < NSLOTS ensures SlotOk(view', nodes[j], used[j], owner', j, x) {
        assert SlotOk(view, nodes[j], used[j], owner', j, x);
      }
    }
    var used' := used[i := s + 1];
    forall x | x in owner' ensures OwnerOk(sb, view', nodes, used', owner', x) {
      if x == b { EntryPtrs(view, d, s, b, s); } else {
        assert OwnerOk(sb, view, nodes, used, owner, x);
        var (j, t) := owner[x];
        if j == i { EntryPtrs(view, d, s, b, t); }
      }
    }
    forall x | 0 <= x < sb.size ensures BitOk(sb, view', owner', {}, x) {
      assert BitOk(sb, view, owner, {b}, x);
      assert BBlock(sb, x) < sb.inodeStart;
    }
  }

  /** Two inodes never share an indirect block. */
  lemma OtherIndirect(sb: SuperBlock, view: View, nodes: seq<Dinode>, used: seq<nat>, owner: Owner, pending: set<nat>,
                      i: nat, j: nat)
    requires Owned(sb, view, nodes, used, owner, pending) && i < |nodes| && j < |nodes| && i != j
    ensures |nodes[i].addrs| == |nodes[j].addrs| == NDIRECT + 1
    ensures nodes[i].addrs[INDIRECT] != 0 ==> nodes[j].addrs[INDIRECT] != nodes[i].addrs[INDIRECT]
  {
    assert InodeOk(view, nodes[i], used[i], owner, i) && InodeOk(view, nodes[j], used[j], owner, j);
    assert SlotOk(view, nodes[i], used[i], owner, i, INDIRECT);
    assert SlotOk(view, nodes[j], used[j], owner, j, INDIRECT);
  }

  /** The blocks that the first n slots of d name. */
  ghost function BlocksOf(view: View, d: Dinode, n: nat): set<nat>
    requires |d.addrs| == NDIRECT + 1 && n <= NSLOTS
  {
    set s | 0 <= s < n :: Ptr(view, d, s)
  }

  function NoAddrs(d: Dinode): Dinode { d.(size := 0, addrs := seq(NDIRECT + 1, k => 0)) }

  ghost function OwnerWithout(owner: Owner, i: nat): Owner {
    map b | b in owner && owner[b].0 != i :: owner[b]
  }

  /** itrunc gives up all blocks of inode i; what is left is to free them. */
  lemma DetachKeeps(sb: SuperBlock, view: View, nodes: seq<Dinode>, used: seq<nat>, owner: Owner, i: nat)
    requires Owned(sb, view, nodes, used, owner, {}) && i < |nodes|
    ensures |nodes[i].addrs| == NDIRECT + 1 && used[i] <= NSLOTS
    ensures Owned(sb, view, nodes[i := NoAddrs(nodes[i])], used[i := 0], OwnerWithout(owner, i),
                  BlocksOf(view, nodes[i], used[i]))
  {
    var d := nodes[i];
    assert InodeOk(view, d, used[i], owner, i);
    var owner' := OwnerWithout(owner, i);
    var nodes', used', pending := nodes[i := NoAddrs(d)], used[i := 0], BlocksOf(view, d, used[i]);
    forall s | 0 <= s < NSLOTS ensures SlotOk(view, NoAddrs(d), 0, owner', i, s) {}
    forall j | 0 <= j < |nodes| && j != i ensures InodeOk(view, nodes[j], used[j], owner', j) {
      InodeOwnerFrame(view, nodes[j], used[j], owner, owner', j);
    }
    forall b | b in owner' ensures OwnerOk(sb, view, nodes', used', owner', b) {
      assert OwnerOk(sb, view, nodes, used, owner, b);
    }
    forall b ensures b in pending <==> b in owner && owner[b].0 == i {
      if b in pending {
        var s :| 0 <= s < used[i] && b == Ptr(view, d, s);
        assert SlotOk(view, d, used[i], owner, i, s);
      }
      if b in owner && owner[b].0 == i { assert OwnerOk(sb, view, nodes, used, owner, b); }
    }
    forall b | b in pending ensures DataStart(sb) <= b < sb.size {
      assert OwnerOk(sb, view, nodes, used, owner, b);
    }
    forall b | 0 <= b < sb.size ensures BitOk(sb, view, owner', pending, b) {
      assert BitOk(sb, view, owner, {}, b);
    }
  }

  /** Changing the other fields of an inode does not touch ownership. */
  lemma FieldsKeep(sb: SuperBlock, view: View, nodes: seq<Dinode>, used: seq<nat>, owner: Owner, pending: set<nat>,
                   i: nat, d: Dinode)
    requires Owned(sb, view, nodes, used, owner, pending) && i < |nodes| && d.addrs == nodes[i].addrs
    ensures Owned(sb, view, nodes[i := d], used, owner, pending)
  {
    assert InodeOk(view, nodes[i], used[i], owner, i);
    forall s | 0 <= s < NSLOTS ensures SlotOk(view, d, used[i], owner, i, s) {
      assert SlotOk(view, nodes[i], used[i], owner, i, s);
    }
    var nodes' := nodes[i := d];
    forall b | b in owner ensures OwnerOk(sb, view, nodes', used, owner, b) {
      assert OwnerOk(sb, view, nodes, used, owner, b);
      var (j, s) := owner[b];
      assert Ptr(view, nodes'[j], s) == Ptr(view, nodes[j], s);
    }
  }

  // ---- capacity ------------------------------------------------------------

  ghost function Range(lo: nat, hi: nat): (r: set<nat>)
    requires lo <= hi
    ensures forall b :: b in r <==> lo <= b < hi
    decreases hi - lo
  {
    if lo == hi then {} else Range(lo + 1, hi) + {lo}
  }

  lemma {:induction false} RangeCard(lo: nat, hi: nat, s: set<nat>)
    requires lo <= hi && forall b :: b in s <==> lo <= b < hi
    ensures |s| == hi - lo
  {
    if lo == hi {
      assert s == {};
    } else {
      RangeCard(lo, hi - 1, s - {hi - 1});
    }
  }

  lemma SubsetCard(s: set<nat>, t: set<nat>)
    requires s <= t
    ensures |s| <= |t| && (|s| == |t| ==> s == t)
  {
    assert t == s + (t - s);
  }

  /** balloc finds no free block if and only if every data block has an owner. */
  lemma FullIff(sb: SuperBlock, view: View, nodes: seq<Dinode>, used: seq<nat>, owner: Owner)
    requires Owned(sb, view, nodes, used, owner, {})
    ensures |owner.Keys| <= sb.size - DataStart(sb)
    ensures (forall b :: 0 <= b < sb.size ==> InUse(sb, view, b)) <==> |owner.Keys| == sb.size - DataStart(sb)
  {
    var all := Range(DataStart(sb), sb.size);
    RangeCard(DataStart(sb), sb.size, all);
    forall b | b in owner.Keys ensures b in all { assert OwnerOk(sb, view, nodes, used, owner, b); }
    SubsetCard(owner.Keys, all);
    if forall b :: 0 <= b < sb.size ==> InUse(sb, view, b) {
      forall b | b in all ensures b in owner.Keys { assert BitOk(sb, view, owner, {}, b); }
      assert owner.Keys == all;
    }
    if owner.Keys == all {
      forall b | 0 <= b < sb.size ensures InUse(sb, view, b) { assert BitOk(sb, view, owner, {}, b); }
    }
  }

  // ---- contents -------------------------------------------------------------

  /** Byte k of the file d. */
  function ByteOf(view: View, d: Dinode, k: nat): Byte
    requires |d.addrs| == NDIRECT + 1
  {
    if k / BSIZE < MAXFILEBLK then
      var b := Ptr(view, d, SlotOf(k / BSIZE));
      if b < |view| then view[b][k % BSIZE] else 0
    else 0
  }

  /** The file d as a sequence of bytes. */
  function Contents(view: View, d: Dinode): (r: seq<Byte>)
    requires |d.addrs| == NDIRECT + 1
    ensures |r| == d.size && forall k :: 0 <= k < d.size ==> r[k] == ByteOf(view, d, k)
  {
    seq(d.size, k requires 0 <= k => ByteOf(view, d, k))
  }

  /** A file keeps its contents when the blocks it owns keep theirs. */
  lemma ContentsFrame(sb: SuperBlock, view: View, view': View, nodes: seq<Dinode>, used: seq<nat>, owner: Owner,
                      pending: set<nat>, i: nat)
    requires Owned(sb, view, nodes, used, owner, pending) && i < |nodes| && |view'| == |view|
    requires forall b :: b in owner && owner[b].0 == i && b < |view| ==> view'[b] == view[b]
    requires used[i] == SlotCount(nodes[i].size)
    ensures |nodes[i].addrs| == NDIRECT + 1 && Contents(view', nodes[i]) == Contents(view, nodes[i])
  {
    var d := nodes[i];
    assert InodeOk(view, d, used[i], owner, i);
    forall k | 0 <= k < d.size ensures ByteOf(view', d, k) == ByteOf(view, d, k) {
      var s := SlotOf(k / BSIZE);
      assert k / BSIZE <= (d.size - 1) / BSIZE;
      assert SlotOk(view, d, used[i], owner, i, s);
      assert s >= INDIRECT ==> SlotOk(view, d, used[i], owner, i, INDIRECT);
    }
  }
}
