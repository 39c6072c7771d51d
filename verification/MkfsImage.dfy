/** The image that tools/mkfs.c makes before it adds the host's files: the superblock, a root
  * directory with ".", ".." and the console, and the bitmap. It meets every invariant that the
  * kernel's calls keep, so they are kept from boot on.
  */
module MkfsImage {
  import opened Common
  import opened Bytes
  import opened BufferCache
  import opened DiskLayout
  import opened FileData
  import opened FileSystem
  import opened DirEntries
  import opened Directories
  import opened Paths
  import opened LinkTable
  import opened SysFile
  import opened Unlink
  import opened OpenFiles
  import D = Descriptors
  import L = Links

  const CONSOLE_INO := 2
  const ROOT_BLOCK := 6                // the first data block

  function ConsoleName(): seq<Byte> { [99, 111, 110, 115, 111, 108, 101] }

  /** strncpy's field of 24 bytes. */
  function Field(name: seq<Byte>): (f: seq<Byte>)
    requires |name| <= DIRSIZ
    ensures |f| == DIRSIZ
  {
    name + Zeros(DIRSIZ - |name|)
  }

  function Entries(): (c: seq<Byte>)
    ensures |c| == 3 * ENTRY
  {
    EntryBytes(ROOTINO, Field(DotName())) + EntryBytes(ROOTINO, Field(DotDotName())) +
    EntryBytes(CONSOLE_INO, Field(ConsoleName()))
  }

  function RootInode(): Dinode { Dinode(T_DIR, 0, 0, 1, 3 * ENTRY, FreshDinode(0).addrs[0 := ROOT_BLOCK]) }

  function ConsoleInode(): Dinode { FreshDinode(T_DEV).(major := 1, minor := 1, nlink := 1) }

  lemma InodesFit()
    ensures Storable(RootInode()) && Storable(ConsoleInode())
  {
  }

  function InodeBlock(): Block {
    InodesFit();
    WithDinode(WithDinode(ZeroBlock(), ROOTINO, RootInode()), CONSOLE_INO, ConsoleInode())
  }

  function SuperBytes(): Block { Words([4096, 4090, 96, 3, 2]) + Zeros(BSIZE - 40) }

  function ImageBlock(b: int): Block {
    if b == 1 then SuperBytes()
    else if b == MKFS.bmapStart then ZeroBlock()[0 := 0x7F]
    else if b == MKFS.inodeStart then InodeBlock()
    else if b == ROOT_BLOCK then Entries() + Zeros(BSIZE - 3 * ENTRY)
    else ZeroBlock()
  }

  function RootImage(): (v: View)
    ensures |v| == MKFS.size && forall b :: 0 <= b < MKFS.size ==> v[b] == ImageBlock(b)
  {
    seq(MKFS.size, b => ImageBlock(b))
  }

  function ImageNode(i: int): (d: Dinode)
    ensures |d.addrs| == NDIRECT + 1
  {
    if i == ROOTINO then RootInode() else if i == CONSOLE_INO then ConsoleInode() else FreshDinode(0)
  }

  function ImageNodes(): (ns: seq<Dinode>)
    ensures |ns| == MKFS.nInodes && forall i :: 0 <= i < |ns| ==> ns[i] == ImageNode(i)
  {
    seq(MKFS.nInodes, i => ImageNode(i))
  }

  function ImageUsed(): (us: seq<nat>)
    ensures |us| == MKFS.nInodes && forall i :: 0 <= i < |us| ==> us[i] == if i == ROOTINO then 1 else 0
  {
    seq(MKFS.nInodes, i => if i == ROOTINO then 1 else 0)
  }

  function ImageOwner(): Owner { map[ROOT_BLOCK := (ROOTINO, 0)] }

  function ImageSnap(): Snapshot { Snapshot([], RootImage(), ImageNodes(), ImageUsed(), ImageOwner()) }

  // ---- the superblock -----------------------------------------------------------------------

  /** read_sb. */
  function SuperAt(b: Block): SuperBlock {
    SuperBlock(FromLE(b[0..8]), FromLE(b[16..24]), FromLE(b[24..32]), FromLE(b[32..40]))
  }

  lemma SuperWord(ws: seq<nat>, rest: seq<Byte>, k: nat)
    requires k < |ws| && forall i :: 0 <= i < |ws| ==> ws[i] < U64
    ensures 8 * k + 8 <= |Words(ws) + rest| && FromLE((Words(ws) + rest)[8 * k..8 * k + 8]) == ws[k]
  {
    hide Words, FromLE;
    AddrAt(ws, k);
    assert (Words(ws) + rest)[8 * k..8 * k + 8] == Words(ws)[8 * k..8 * k + 8];
  }

  /** What mkfs writes as the superblock is what read_sb reads. */
  lemma SuperBack()
    ensures SuperAt(RootImage()[1]) == MKFS
  {
    hide Words, FromLE;
    var ws, rest: seq<Byte> := [4096, 4090, 96, 3, 2], Zeros(BSIZE - 40);
    SuperWord(ws, rest, 0);
    SuperWord(ws, rest, 2);
    SuperWord(ws, rest, 3);
    SuperWord(ws, rest, 4);
  }

  // ---- the bitmap and the inodes -------------------------------------------------------------

  lemma ZeroSlice(n: nat, lo: nat, hi: nat)
    requires lo <= hi <= n
    ensures Zeros(n)[lo..hi] == Zeros(hi - lo)
  {
  }

  lemma {:induction false} ZeroBits(k: nat)
    ensures !Bit(0, k)
  {
    if k > 0 { ZeroBits(k - 1); }
  }

  lemma FirstSevenBits(k: nat)
    requires k < 8
    ensures Bit(0x7F, k) <==> k < 7
  {
    assert Bit(0x7F, 0) && Bit(0x3F, 0) && Bit(0x1F, 0) && Bit(0xF, 0) && Bit(7, 0) && Bit(3, 0) && Bit(1, 0);
    assert 0x7F / 2 == 0x3F && 0x3F / 2 == 0x1F && 0x1F / 2 == 0xF && 0xF / 2 == 7;
    if k >= 1 { assert Bit(0x7F, k) == Bit(0x3F, k - 1); }
    if k >= 2 { assert Bit(0x3F, k - 1) == Bit(0x1F, k - 2); }
    if k >= 3 { assert Bit(0x1F, k - 2) == Bit(0xF, k - 3); }
    if k >= 4 { assert Bit(0xF, k - 3) == Bit(7, k - 4); }
    if k >= 5 { assert Bit(7, k - 4) == Bit(3, k - 5); }
    if k >= 6 { assert Bit(3, k - 5) == Bit(1, k - 6); }
    if k >= 7 { assert Bit(1, k - 6) == Bit(0, k - 7); ZeroBits(k - 7); }
  }

  lemma ZeroDecode()
    ensures Decode(Zeros(DINODE)) == FreshDinode(0)
  {
    hide FromLE;
    FromLEZeros(2);
    FromLEZeros(8);
    var s := Zeros(DINODE);
    ZeroSlice(DINODE, 0, 2);
    ZeroSlice(DINODE, 2, 4);
    ZeroSlice(DINODE, 4, 6);
    ZeroSlice(DINODE, 6, 8);
    ZeroSlice(DINODE, 8, 16);
    forall m | 0 <= m <= NDIRECT ensures FromLE(s[16 + 8 * m..24 + 8 * m]) == 0 {
      ZeroSlice(DINODE, 16 + 8 * m, 24 + 8 * m);
    }
  }

  lemma ZeroDinode(k: nat)
    requires k < IPB
    ensures DinodeAt(ZeroBlock(), k) == FreshDinode(0)
  {
    hide Decode, FreshDinode;
    ZeroSlice(BSIZE, DINODE * k, DINODE * k + DINODE);
    ZeroDecode();
  }

  lemma ImageBit(b: nat)
    requires b < MKFS.size
    ensures Geometry(MKFS, MKFS.size) && (InUse(MKFS, RootImage(), b) <==> b < 7)
  {
    hide RootImage;
    MkfsGeometry();
    assert BBlock(MKFS, b) == 2 && b % BPB == b;
    assert RootImage()[2] == ImageBlock(2);
    if b < 8 { FirstSevenBits(b); } else { ZeroBits(b % 8); }
  }

  lemma ImageInode(i: nat)
    requires i < MKFS.nInodes
    ensures Stored(MKFS, RootImage(), ImageNodes(), ImageUsed(), i)
  {
    hide DinodeAt, WithDinode, RootImage;
    MkfsGeometry();
    InodesFit();
    var b := ImageBlock(IBlock(MKFS, i));
    assert RootImage()[IBlock(MKFS, i)] == b;
    ZeroDinode(i % IPB);
    if i < IPB {
      var one := WithDinode(ZeroBlock(), ROOTINO, RootInode());
      DinodeAtWithDinode(ZeroBlock(), ROOTINO, RootInode(), i);
      DinodeAtWithDinode(one, CONSOLE_INO, ConsoleInode(), i);
    }
  }

  lemma ImageOwned()
    ensures Owned(MKFS, RootImage(), ImageNodes(), ImageUsed(), ImageOwner(), {})
  {
    hide RootImage, InUse, ImageNodes, ImageUsed;
    MkfsGeometry();
    var v, ns, us, ow := RootImage(), ImageNodes(), ImageUsed(), ImageOwner();
    forall i | 0 <= i < |ns| ensures InodeOk(v, ns[i], us[i], ow, i) {
      forall s | 0 <= s < NSLOTS ensures SlotOk(v, ns[i], us[i], ow, i, s) { assert ns[i] == ImageNode(i); }
    }
    forall b | 0 <= b < MKFS.size ensures BitOk(MKFS, v, ow, {}, b) { ImageBit(b); }
  }

  // ---- the root directory --------------------------------------------------------------------

  lemma ImageContents()
    ensures Contents(RootImage(), RootInode()) == Entries()
  {
    hide RootImage, Entries, EntryBytes;
    var c := Contents(RootImage(), RootInode());
    assert RootImage()[ROOT_BLOCK] == ImageBlock(ROOT_BLOCK);
    forall k | 0 <= k < |c| ensures c[k] == Entries()[k] {
      assert k / BSIZE == 0 && SlotOf(0) == 0;
      assert c[k] == ByteOf(RootImage(), RootInode(), k);
    }
  }

  lemma NameKeys()
    ensures Key(Field(DotName())) == L.DOT && Key(Field(DotDotName())) == L.DOTDOT
    ensures Key(Field(ConsoleName())) == ConsoleName()
  {
    FieldKey(DotName());
    FieldKey(DotDotName());
    FieldKey(ConsoleName());
  }

  lemma FieldKey(name: seq<Byte>)
    requires |name| < DIRSIZ && forall k :: 0 <= k < |name| ==> name[k] != 0
    ensures Key(Field(name)) == name
  {
    hide KeyN;
    assert Field(name)[|name|] == 0;
    assert Field(name)[..|name|] == name;
    KeyIs(Field(name), DIRSIZ, |name|);
  }

  lemma {:induction false} KeyIs(s: seq<Byte>, n: nat, k: nat)
    requires k < n && k < |s| && s[k] == 0 && forall j :: 0 <= j < k ==> s[j] != 0
    ensures KeyN(s, n) == s[..k]
  {
    if k > 0 {
      KeyIs(s[1..], n - 1, k - 1);
      assert [s[0]] + s[1..][..k - 1] == s[..k];
    }
  }

  lemma ImageEntries()
    ensures EntriesOf(Entries()) == L.Dots(ROOTINO, ROOTINO) + [L.Entry(CONSOLE_INO, ConsoleName())]
  {
    hide EntryBytes, KeyN, InumAt, KeyAt, EntriesOf;
    var a, b, c := EntryBytes(ROOTINO, Field(DotName())), EntryBytes(ROOTINO, Field(DotDotName())),
        EntryBytes(CONSOLE_INO, Field(ConsoleName()));
    assert Overwrite([], 0, a) == a && Overwrite(a, ENTRY, b) == a + b && Overwrite(a + b, 2 * ENTRY, c) == a + b + c;
    NameKeys();
    assert EntriesOf([]) == [] by { NoEntries(); }
    EntriesWritten([], 0, ROOTINO, Field(DotName()));
    EntriesWritten(a, 1, ROOTINO, Field(DotDotName()));
    EntriesWritten(a + b, 2, CONSOLE_INO, Field(ConsoleName()));
  }

  /** The table of links: the root alone, and then the console in it. */
  ghost function ImageTable(): L.Table {
    L.Create(L.RootOnly(MKFS.nInodes), ROOTINO, 2, ConsoleName(), CONSOLE_INO, T_DEV)
  }

  lemma TableWf()
    ensures L.Wf(ImageTable())
  {
    hide L.Wf;
    L.RootOnlyWf(MKFS.nInodes);
    assert L.CanCreate(L.RootOnly(MKFS.nInodes), ROOTINO, 2, ConsoleName(), CONSOLE_INO, T_DEV) by {
      assert |ConsoleName()| == 7 && |L.DOT| == 1 && |L.DOTDOT| == 2;
    }
    L.CreateKeeps(L.RootOnly(MKFS.nInodes), ROOTINO, 2, ConsoleName(), CONSOLE_INO, T_DEV);
  }

  lemma ImageAbs()
    ensures Shaped(ImageSnap()) && Abs(ImageSnap()) == ImageTable()
  {
    hide Contents, EntriesOf, Entries, RootImage, ImageNodes, ImageUsed;
    var z, t := ImageSnap(), ImageTable();
    ImageContents();
    ImageEntries();
    forall i | 0 <= i < |z.nodes| ensures NodeOf(z, i) == t[i] { assert z.nodes[i] == ImageNode(i); }
  }

  lemma NoOrphans(inodes: seq<Inode>)
    ensures OrphansHeld(inodes, ImageNodes())
  {
    hide ImageNodes;
    forall i | 0 <= i < |ImageNodes()| ensures ImageNodes()[i] == ImageNode(i) {}
  }

  lemma ImageNodeOk(i: nat)
    requires i < |ImageNodes()|
    ensures NodeOk(ImageSnap(), i)
  {
    hide RootImage, Contents, Entries, EntriesOf, InRange, ImageNodes;
    var z := ImageSnap();
    assert z.nodes[i] == ImageNode(i);
    if i == ROOTINO {
      ImageContents();
      ImageEntries();
      BelowInRange(Entries(), |z.nodes|);
    }
  }

  /** The image meets the invariants of the disk. */
  lemma RootImageLinked()
    ensures Settles(MKFS, ImageSnap()) && LinkedDisk(ImageSnap()) && Abs(ImageSnap()) == ImageTable()
  {
    hide RootImage, Contents, Entries, Stored, Owned, L.Wf, ImageNodes, ImageUsed, EntriesOf, InRange, Abs;
    ImageOwned();
    forall i | 0 <= i < MKFS.nInodes ensures Stored(MKFS, RootImage(), ImageNodes(), ImageUsed(), i) { ImageInode(i); }
    ImageAbs();
    TableWf();
    var z := ImageSnap();
    forall i | 0 <= i < |z.nodes| ensures NodeOk(z, i) { ImageNodeOk(i); }
    hide NodeOk;
  }

  /** The kernel boots on the image: its caches empty, the first process in the root. Every call
    * that takes a path can follow. */
  method Boot(free: seq<nat>, name0: seq<Byte>) returns (k: Kernel, pr: nat)
    requires |name0| == DIRSIZ && forall i, j :: 0 <= i < j < |free| ==> free[i] != free[j]
    ensures k.Valid() && pr < D.NPROC && |k.cwds| == D.NPROC && 0 <= k.cwds[pr] < |k.fs.inodes|
    ensures k.fs.inodes[k.cwds[pr]].inum == ROOTINO
    ensures Shaped(k.fs.Snap()) && Abs(k.fs.Snap()) == ImageTable()
  {
    hide Kernel.Inv, Owned, AllStored, LinkedDisk, Abs, RootImage, ImageTable, ImageNodes, ImageUsed, Fs.Valid,
         Cache.Valid, OrphansHeld;
    RootImageLinked();
    var cache := new Cache(RootImage());
    var fs := new Fs(cache, MKFS, ImageNodes(), ImageUsed(), ImageOwner());
    SameDisk(ImageSnap(), fs.Snap());
    AbsSame(ImageSnap(), fs.Snap());
    assert OrphansHeld(fs.inodes, fs.nodes) by { NoOrphans(fs.inodes); }
    k := new Kernel(fs, free);
    pr := 0;
    assert k.fs.inodes[0].ref == 0;
    var r := k.UserInit(pr, name0);
    assert r.Ok?;
    AbsSame(ImageSnap(), k.fs.Snap());
  }
}
