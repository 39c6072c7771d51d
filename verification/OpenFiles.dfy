/** Descriptors, pipes and working directories on the file system: kernel/file.c, the ends of
  * pipes in kernel/pipe.c, the system calls of kernel/sysfile.c that open and close, and what
  * fork and exit in kernel/proc.c do with open files.
  */
module OpenFiles {
  import opened Common
  import opened Bytes
  import opened BufferCache
  import opened DiskLayout
  import opened FileData
  import opened FileSystem
  import opened DirEntries
  import opened Directories
  import opened Paths
  import opened LinkTable
  import opened SysFile
  import opened PathLaws
  import opened Unlink
  import D = Descriptors
  import L = Links

  /** Cached references are exactly the open files on an inode, the working directories, and
    * what the kernel holds in the middle of a call. */
  ghost predicate InodesOk(inodes: seq<Inode>, files: seq<D.File>, cwds: seq<int>, iheld: multiset<nat>) {
    && |inodes| == NINODE && |cwds| == D.NPROC
    && (forall p :: 0 <= p < NINODE ==> inodes[p].ref == D.Opens(files, p) + D.Uses(cwds, p) + iheld[p])
    && (forall p :: 0 <= p < NINODE && inodes[p].ref > 0 ==> inodes[p].inum > 0)
    && (forall f :: 0 <= f < |files| && files[f].ref > 0 && files[f].typ == D.FdInode ==> files[f].ip < NINODE)
    && (forall i :: 0 <= i < |cwds| ==> cwds[i] == D.NONE || 0 <= cwds[i] < NINODE)
    && (forall f :: 0 <= f < |files| ==> Fits(files[f], inodes))
  }

  /** An open file on an inode: it is loaded, and it is no directory if the file is writable. */
  ghost predicate Fits(x: D.File, inodes: seq<Inode>) {
    && x.off < U64
    && (x.ref > 0 && x.typ == D.FdInode ==>
          x.ip < |inodes| && inodes[x.ip].valid && (x.writable ==> inodes[x.ip].d.typ != T_DIR))
  }

  /** Between calls every file in use has a type. */
  ghost predicate AllTyped(files: seq<D.File>) {
    forall f :: 0 <= f < |files| && files[f].ref > 0 ==> files[f].typ != D.FdNone
  }

  /** From a to b no loaded inode became a directory, nor was it dropped while referenced. */
  ghost predicate KeepsTypes(a: seq<Inode>, b: seq<Inode>) {
    && |a| == |b|
    && forall q ::
         0 <= q < |a| && a[q].ref > 0 && b[q].ref > 0 && a[q].valid ==>
           b[q].valid && (b[q].d.typ == T_DIR ==> a[q].d.typ == T_DIR)
  }

  /** No inode in use became a directory. */
  ghost predicate NoNewDir(nodes: seq<Dinode>, nodes': seq<Dinode>) {
    && |nodes'| == |nodes|
    && forall j :: 0 <= j < |nodes| && nodes[j].typ != T_DIR && nodes[j].typ != 0 ==> nodes'[j].typ != T_DIR
  }

  lemma ValidCache(fs: Fs)
    requires fs.Valid()
    ensures CacheOk(fs.inodes, fs.nodes) && Typed(fs.inodes)
  {
  }

  /** Inodes keep their type while they are in use. */
  lemma TypesByDisk(a: seq<Inode>, nodes: seq<Dinode>, b: seq<Inode>, nodes': seq<Dinode>, h: multiset<nat>)
    requires CacheOk(a, nodes) && CacheOk(b, nodes') && Typed(a) && Holds(a, b, h) && NoNewDir(nodes, nodes')
    ensures KeepsTypes(a, b)
  {
    forall q | 0 <= q < |a| && a[q].ref > 0 && b[q].ref > 0 && a[q].valid
      ensures b[q].valid && (b[q].d.typ == T_DIR ==> a[q].d.typ == T_DIR)
    {
      assert Kept(a[q], b[q], h[q]) && EntryOk(a[q], nodes) && EntryOk(b[q], nodes');
    }
  }

  /** An open file's inode is referenced. */
  lemma FileHeld(inodes: seq<Inode>, files: seq<D.File>, cwds: seq<int>, iheld: multiset<nat>, f: nat)
    requires |inodes| == NINODE
    requires forall p :: 0 <= p < NINODE ==> inodes[p].ref == D.Opens(files, p) + D.Uses(cwds, p) + iheld[p]
    requires f < |files| && files[f].ref > 0 && files[f].typ == D.FdInode && files[f].ip < NINODE
    ensures inodes[files[f].ip].ref > 0
  {
    hide CountIf;
    CountSome(files, f, D.On(files[f].ip));
  }

  function Slot(pr: nat, fd: nat): (i: nat)
    ensures pr < D.NPROC && fd < D.NOFILE ==> i < D.NPROC * D.NOFILE
  {
    pr * D.NOFILE + fd
  }

  ghost predicate PagesOk(pipes: map<nat, D.Ends>, free: seq<nat>) {
    && (forall k :: 0 <= k < |free| ==> free[k] !in pipes)
    && (forall j, k :: 0 <= j < k < |free| ==> free[j] != free[k])
  }

  /** An entry in use keeps its inode. */
  ghost predicate SameInums(a: seq<Inode>, b: seq<Inode>) {
    |b| == |a| && forall q :: 0 <= q < |a| && a[q].ref > 0 ==> b[q].inum == a[q].inum
  }

  ghost predicate AllInums(a: seq<Inode>, b: seq<Inode>) {
    |b| == |a| && forall q :: 0 <= q < |a| ==> b[q].inum == a[q].inum
  }

  lemma ReleaseInums(a: seq<Inode>, b: seq<Inode>, c: seq<Inode>, p: nat)
    requires p < |a| && b == a[p := a[p].(locked := false)] && |c| == |b| && c == b[p := c[p]] && c[p].inum == b[p].inum
    ensures AllInums(a, c)
  {
  }

  lemma HoldsInums(a: seq<Inode>, b: seq<Inode>, h: multiset<nat>)
    requires Holds(a, b, h)
    ensures SameInums(a, b)
  {
    forall q | 0 <= q < |a| && a[q].ref > 0 ensures b[q].inum == a[q].inum { assert Kept(a[q], b[q], h[q]); }
  }

  /** iput of entry p: the inode in it is freed if it was loaded, without links, and this was
    * the last reference; nothing else on the disk changes. */
  ghost predicate PutAs(z: Snapshot, y: Snapshot, p: nat)
    requires p < |z.inodes|
  {
    && |y.inodes| == |z.inodes| && y.inodes == z.inodes[p := y.inodes[p]]
    && y.inodes[p].inum == z.inodes[p].inum && y.inodes[p].ref == z.inodes[p].ref - 1
    && (!(z.inodes[p].valid && z.inodes[p].d.nlink == 0 && z.inodes[p].ref == 1) ==> y == z.(inodes := y.inodes))
  }

  /** No descriptor of the process is free. */
  ghost predicate NoFd(fds: seq<int>, pr: nat) {
    pr < D.NPROC && |fds| == D.NPROC * D.NOFILE && forall i :: 0 <= i < D.NOFILE ==> fds[Slot(pr, i)] != D.NONE
  }

  ghost predicate OneFd(fds: seq<int>, pr: nat) {
    pr < D.NPROC && |fds| == D.NPROC * D.NOFILE &&
    forall i, j :: 0 <= i < D.NOFILE && 0 <= j < D.NOFILE && fds[Slot(pr, i)] == fds[Slot(pr, j)] == D.NONE ==> i == j
  }

  ghost predicate NoFile(files: seq<D.File>) { forall f :: 0 <= f < |files| ==> files[f].ref > 0 }

  ghost predicate OneFile(files: seq<D.File>) {
    forall f, g :: 0 <= f < |files| && 0 <= g < |files| && files[f].ref == 0 && files[g].ref == 0 ==> f == g
  }

  /** On the table of links, create put inode inum, with the type, under its name. */
  ghost predicate MadeAt(z: Snapshot, y: Snapshot, typ: int, inum: Option<nat>, m: Making) {
    && m.New? && inum.Some? && Shaped(z) && Shaped(y) && L.CanCreate(Abs(z), m.dpi, m.k, m.key, inum.value, typ)
    && Abs(y) == L.Create(Abs(z), m.dpi, m.k, m.key, inum.value, typ)
  }

  /** The inode that sys_open opens: with O_CREATE the one create gives, otherwise the one that
    * the path leads to, unless it is a directory and not opened for reading only. */
  ghost predicate Opened(z: Snapshot, omode: nat, w: Walked, dp: Walked, cs: seq<seq<Byte>>, inum: Option<nat>,
        m: Making) {
    if Bit(omode, 9) then CreatesAt(z, T_FILE, dp, cs, inum, m)
    else
      m == SysFile.Nothing &&
      match inum
      case Some(i) => w == At(i) && i < |z.nodes| && (z.nodes[i].typ != T_DIR || omode == 0)
      case None => w == Missing || (w.At? && w.inum < |z.nodes| && z.nodes[w.inum].typ == T_DIR && omode != 0)
  }

  ghost predicate OpenPanics(fs: Fs, z: Snapshot, omode: nat, w: Walked, dp: Walked, cs: seq<seq<Byte>>)
    reads fs
  {
    if Bit(omode, 9) then CreatePanics(fs, z, T_FILE, dp, cs) else LookupPanics(fs, z, w)
  }

  /** The result of file_read and file_write: the -1 of a file not open for it, a call of the
    * pipe, or what readi or writei gave. */
  datatype FileIo = Refused | OnPipe(p: nat) | Moved(io: Io)

  /** writei of src at off to the inode of entry p. */
  ghost predicate WriteSpec(sb: SuperBlock, z: Snapshot, y: Snapshot, p: nat, off: nat, src: seq<Byte>,
        handlers: set<int>, io: Io)
    requires p < |z.inodes| && sb.nInodes > 0
  {
    var d := z.inodes[p].d;
    if d.typ == T_DEV then
      io == (if 0 <= d.major < NDEV && d.major in handlers then ToDevice(d.major) else Fail) && y == z
    else if off > d.size || off + |src| >= U64 || off + |src| > MAXFILEBLK * BSIZE then
      io == Fail && y == z
    else if |z.owner.Keys| + MoreSlots(SlotCount(d.size), off, off + |src|) > Capacity(sb) then
      io == Panicked
    else
      io == Done(|src|) && FileWritten(sb, z.inodes[p].inum, z, y, off, src)
  }

  /** From x to x' the file moved on by what was transferred; dev is what a device answers. */
  predicate MovedOn(x: D.File, x': D.File, io: Io, dev: int) {
    && x' == x.(off := x'.off)
    && (io.Done? ==> x'.off == x.off + io.count)
    && (io.ToDevice? ==> x'.off == if dev > 0 then (x.off + dev) % U64 else x.off)
    && (io == Fail ==> x'.off == x.off)
  }

  /** What namei and ilock can panic for. */
  ghost predicate LookupPanics(fs: Fs, z: Snapshot, w: Walked)
    reads fs
  {
    w == Bad || CacheFull(fs) || (w.At? && w.inum < |z.nodes| && z.nodes[w.inum].typ == 0)
  }

  /** iunlock of an entry that is locked. */
  method UnlockEntry(fs: Fs, p: nat)
    requires fs.Valid() && p < NINODE && p < |fs.inodes| && fs.inodes[p].locked && fs.inodes[p].ref > 0
    modifies fs`inodes
    ensures fs.Valid() && fs.inodes == old(fs.inodes)[p := old(fs.inodes)[p].(locked := false)]
  {
    hide Owned, AllStored, Coherent, Linked, Permutation, Recency;
    ghost var a := fs.inodes;
    var ok := fs.Iunlock(p);
    UnlockKeeps(a, fs.inodes, fs.nodes, p);
  }

  lemma LocksBack(a: seq<Inode>, b: seq<Inode>, p: nat)
    requires Locks(a, {}) && p < |a| && |b| == |a| && b == a[p := b[p]] && !b[p].locked
    requires b[p].ref == a[p].ref && b[p].inum == a[p].inum && (a[p].valid ==> b[p].valid)
    ensures Locks(b, {}) && Holds(a, b, multiset{})
  {
    forall q | 0 <= q < |b| ensures Kept(a[q], b[q], multiset{}[q]) {}
  }

  /** Only the caches differ. */
  lemma WrittenFrom(sb: SuperBlock, i: nat, z: Snapshot, b: Snapshot, y: Snapshot, x: Snapshot, off: nat,
        src: seq<Byte>)
    requires FileWritten(sb, i, b, y, off, src) && b == z.(inodes := b.inodes) && x == y.(inodes := x.inodes)
    ensures FileWritten(sb, i, z, x, off, src)
  {
    hide Contents, Overwrite, MoreSlots, SlotCount;
  }

  /** ilock, writei and iunlock of an inode that is loaded and not locked. */
  method WriteLocked(fs: Fs, p: nat, off: nat, src: seq<Byte>, handlers: set<int>) returns (io: Io)
    requires fs.Valid() && p < NINODE && p < |fs.inodes| && off < U64 && |src| < U64 && fs.sb.nInodes > 0
    requires var e := fs.inodes[p];
             e.ref > 0 && !e.locked && e.valid && e.inum < |fs.nodes| && e.d == fs.nodes[e.inum] && e.d.typ != 0
    modifies fs, fs.cache
    ensures WriteSpec(fs.sb, old(fs.Snap()), fs.Snap(), p, off, src, handlers, io)
    ensures io != Panicked ==> fs.Valid() && |fs.inodes| == |old(fs.inodes)|
    ensures io != Panicked ==> fs.inodes == old(fs.inodes)[p := old(fs.inodes)[p].(d := fs.inodes[p].d)]
  {
    hide Fs.Valid, FileWritten, MoreSlots, SlotCount, Capacity;
    ghost var z := fs.Snap();
    var locked := fs.Ilock(p);
    ghost var b := fs.Snap();
    io := fs.Writei(p, src, off, handlers);
    if io == Panicked { return; }
    ghost var y := fs.Snap();
    UnlockEntry(fs, p);
    if io.Done? { WrittenFrom(fs.sb, z.inodes[p].inum, z, b, y, fs.Snap(), off, src); }
  }

  lemma SameOrphans(inodes: seq<Inode>, nodes: seq<Dinode>, nodes': seq<Dinode>)
    requires OrphansHeld(inodes, nodes) && |nodes'| == |nodes|
    requires forall j :: 0 <= j < |nodes| ==> nodes'[j].typ == nodes[j].typ && nodes'[j].nlink == nodes[j].nlink
    ensures OrphansHeld(inodes, nodes')
  {
  }

  class Kernel {
    const fs: Fs
    var files: seq<D.File>             // ftable
    var fds: seq<int>                  // ofile[fd] of process pr, at pr * NOFILE + fd
    var cwds: seq<int>                 // cwd of each process
    var pipes: map<nat, D.Ends>        // the pipes, by their page
    var free: seq<nat>                 // the free pages

    /** The file system at rest but for the locks l. */
    ghost predicate Disk(l: set<nat>)
      reads fs, fs.cache
    {
      fs.Valid() && Locks(fs.inodes, l) && OrphansHeld(fs.inodes, fs.nodes) && LinkedDisk(fs.Snap())
    }

    /** The invariant, in the middle of a call that holds some references and locks. */
    ghost predicate Inv(held: multiset<nat>, iheld: multiset<nat>, l: set<nat>)
      reads this, fs, fs.cache
    {
      && D.FilesOk(files, fds, held) && D.PipesOk(files, pipes) && PagesOk(pipes, free)
      && InodesOk(fs.inodes, files, cwds, iheld) && Disk(l)
    }

    /** Between system calls. */
    ghost predicate Valid()
      reads this, fs, fs.cache
    {
      Inv(multiset{}, multiset{}, {}) && AllTyped(files)
    }

    ghost function Pages(): set<nat>
      reads this
    {
      pipes.Keys + set k | 0 <= k < |free| :: free[k]
    }

    constructor (fs: Fs, free: seq<nat>)
      requires fs.Valid() && Locks(fs.inodes, {}) && OrphansHeld(fs.inodes, fs.nodes) && LinkedDisk(fs.Snap())
      requires |fs.inodes| == NINODE && forall p :: 0 <= p < NINODE ==> fs.inodes[p].ref == 0
      requires forall j, k :: 0 <= j < k < |free| ==> free[j] != free[k]
      ensures Valid() && this.fs == fs && this.free == free && |cwds| == D.NPROC
      ensures forall pr :: 0 <= pr < D.NPROC ==> cwds[pr] == D.NONE
    {
      this.fs := fs;
      files := seq(D.NFILE, i => D.File(D.FdNone, 0, false, false, 0, 0, 0));
      fds := seq(D.NPROC * D.NOFILE, i => D.NONE);
      cwds := seq(D.NPROC, i => D.NONE);
      pipes := map[];
      this.free := free;
      new;
      hide Fs.Valid, OrphansHeld, LinkedDisk;
      forall f | 0 <= f < D.NFILE ensures D.Uses(fds, f) == 0 { CountZero(fds, D.Is(f)); }
      forall p | 0 <= p < NINODE
        ensures D.Opens(files, p) == 0 && D.Uses(cwds, p) == 0
      {
        CountZero(cwds, D.Is(p));
        CountZero(files, D.On(p));
      }
    }

    /** user_init's part: the first process starts in the root. A panic only if the inode cache
      * is full. */
    method UserInit(pr: nat, name0: seq<Byte>) returns (r: Outcome<()>)
      requires Valid() && pr < D.NPROC && cwds[pr] == D.NONE && |name0| == DIRSIZ
      modifies this`cwds, fs, fs.cache
      ensures !r.Blocked? && (r.Panic? ==> CacheFull(fs) && fs.inodes == old(fs.inodes))
      ensures r.Ok? ==> Valid() && fs.Snap() == old(fs.Snap()).(inodes := fs.inodes)
      ensures r.Ok? ==>
                cwds == old(cwds)[pr := cwds[pr]] && 0 <= cwds[pr] < |fs.inodes| && fs.inodes[cwds[pr]].inum == ROOTINO
    {
      hide Fs.Valid, OrphansHeld, D.FilesOk, D.PipesOk, PagesOk, LinkedDisk, InodesOk, DiskOk, Components, Holds, Locks;
      ghost var z := fs.Snap();
      RootReady();
      assert Components([SLASH]) == [] by { NoComponent(); }
      var ip, _ := Namex(fs, [SLASH], false, 0, name0);
      if ip.Panic? { return Panic; }
      var p := ip.value.value;
      Rested(z, multiset{p}, {});
      CwdTaken(fs.inodes, files, cwds, pr, p);
      cwds := cwds[pr := p];
      r := Ok(());
    }

    lemma RootReady()
      requires Valid()
      ensures CacheOk(fs.inodes, fs.nodes) && Typed(fs.inodes)
      ensures Ready(fs, [SLASH], 0) && DiskOk(fs.Snap()) && ROOTINO < |fs.nodes| && |cwds| == D.NPROC
      ensures Start(fs.inodes, [SLASH], 0) == ROOTINO
    {
      hide Fs.Valid, OrphansHeld, D.FilesOk, D.PipesOk, PagesOk, D.Opens, L.Names;
      ValidCache(fs);
    }

    // ---- references ---------------------------------------------------------------------------

    /** iput of a reference in the kernel's hands; the last one to an unlinked inode frees it. */
    method PutInode(p: nat, ghost held: multiset<nat>, ghost iheld: multiset<nat>, ghost l: set<nat>)
      requires Inv(held, iheld, l) && p < NINODE && p in iheld && p !in l
      modifies fs, fs.cache
      ensures Inv(held, iheld - multiset{p}, l)
      ensures |old(fs.inodes)| == NINODE && PutAs(old(fs.Snap()), fs.Snap(), p)
      ensures OnlyNode(old(fs.Snap()), fs.Snap(), old(fs.inodes)[p].inum)
    {
      hide Owned, AllStored, Coherent, Linked, Permutation, Recency, OrphansHeld, D.FilesOk, D.PipesOk, PagesOk,
           InodeFreed, LinkedDisk;
      ghost var a, z := fs.inodes, fs.Snap();
      assert Kept(a[p], a[p], 0) && a[p].ref > 0;
      var r := fs.Iput(p);
      PutCounts(a, fs.inodes, files, cwds, iheld, p);
      ValidShaped(fs);
      if a[p].valid && a[p].d.nlink == 0 && a[p].ref == 1 {
        EntryTyped(a, z.nodes, p);
        FreedDisk(fs.sb, z, fs.Snap(), a[p].inum);
        LinkedShaped(z);
        FreedOnly(fs.sb, z, fs.Snap(), a[p].inum);
      } else {
        SameDisk(z, fs.Snap());
        LinkedShaped(z);
        OnlySame(z, fs.Snap(), a[p].inum);
      }
    }

    // ---- files -------------------------------------------------------------------------------

    /** file_alloc: an unused file, now held; none if all are in use. */
    method FileAlloc(ghost held: multiset<nat>, ghost iheld: multiset<nat>, ghost l: set<nat>) returns (f: int)
      requires Inv(held, iheld, l)
      modifies this`files
      ensures if f == D.NONE then files == old(files) && forall g :: 0 <= g < D.NFILE ==> files[g].ref > 0
              else && 0 <= f < D.NFILE && old(files)[f].ref == 0 && files == old(files)[f := old(files)[f].(ref := 1)]
                   && f !in held && files[f].typ == D.FdNone
                   && Inv(held + multiset{f as nat}, iheld, l)
    {
      hide Disk, PagesOk, D.Uses, D.Opens, D.PipesOk;
      f := 0;
      while f < D.NFILE
        invariant 0 <= f <= D.NFILE && files == old(files) && forall g :: 0 <= g < f ==> files[g].ref > 0
      {
        if files[f].ref == 0 {
          ghost var a, n: nat, x := files, f, files[f].(ref := 1);
          D.FileSet(a, fds, held, held + multiset{n}, n, x);
          D.PipesSame(a, a[n := x], pipes);
          OpensSame(a, n, x, fs.inodes, cwds, iheld);
          files := files[f := files[f].(ref := 1)];
          return;
        }
        f := f + 1;
      }
      f := D.NONE;
    }

    /** pipe_close: the end is closed, and the page freed with the second end. */
    method PipeClose(p: nat, writable: bool)
      requires p in pipes && PagesOk(pipes, free)
      modifies this`pipes, this`free
      ensures PagesOk(pipes, free) && Pages() == old(Pages())
      ensures var e := D.Closed(old(pipes)[p], writable);
              if e.readOpen || e.writeOpen then pipes == old(pipes)[p := e] && free == old(free)
              else pipes == old(pipes) - {p} && free == [p] + old(free)
    {
      var e := pipes[p];
      if writable { e := e.(writeOpen := false); } else { e := e.(readOpen := false); }
      pipes := pipes[p := e];
      if !e.readOpen && !e.writeOpen {
        pipes := pipes - {p};
        free := [p] + free;
        PageBack(old(pipes), old(free), p);
        assert pipes == old(pipes) - {p};
      } else {
        assert pipes.Keys == old(pipes).Keys;
      }
    }

    /** file_close of a held reference: the last one closes the end of the pipe, or gives up
      * the inode. */
    method FileClose(f: nat, ghost held: multiset<nat>, ghost iheld: multiset<nat>, ghost l: set<nat>)
      requires Inv(held, iheld, l) && f < D.NFILE && f in held && (files[f].typ == D.FdInode ==> files[f].ip !in l)
      modifies this`files, this`pipes, this`free, fs, fs.cache
      ensures Inv(held - multiset{f}, iheld, l) && Pages() == old(Pages())
      ensures var x := old(files)[f];
              && |old(files)| == D.NFILE
              && files == old(files)[f := if x.ref > 1 then x.(ref := x.ref - 1) else x.(ref := 0, typ := D.FdNone)]
              && ((x.typ == D.FdPipe && x.ref == 1) || (pipes == old(pipes) && free == old(free)))
    {
      hide Disk, D.Uses, D.Opens, D.PipesOk, InodesOk, PagesOk;
      ghost var a := files;
      if files[f].ref - 1 > 0 {
        ghost var x := files[f].(ref := files[f].ref - 1);
        D.FileSet(a, fds, held, held - multiset{f}, f, x);
        D.PipesSame(a, a[f := x], pipes);
        OpensSame(a, f, x, fs.inodes, cwds, iheld);
        files := files[f := files[f].(ref := files[f].ref - 1)];
        return;
      }
      CloseLast(f, held, iheld, l);
    }

    /** file_close of the last reference. */
    method CloseLast(f: nat, ghost held: multiset<nat>, ghost iheld: multiset<nat>, ghost l: set<nat>)
      requires Inv(held, iheld, l) && f < D.NFILE && f in held && (files[f].typ == D.FdInode ==> files[f].ip !in l)
      requires files[f].ref == 1
      modifies this`files, this`pipes, this`free, fs, fs.cache
      ensures Inv(held - multiset{f}, iheld, l) && Pages() == old(Pages())
      ensures files == old(files)[f := old(files)[f].(ref := 0, typ := D.FdNone)]
      ensures old(files)[f].typ == D.FdPipe || (pipes == old(pipes) && free == old(free))
    {
      hide Disk, D.Uses, D.Opens, D.PipesOk, InodesOk, PagesOk, D.FilesOk;
      ghost var a := files;
      FdsLength(files, fds, held);
      var ff := files[f];
      ghost var x := files[f].(ref := 0, typ := D.FdNone);
      D.FileSet(a, fds, held, held - multiset{f}, f, x);
      files := files[f := files[f].(ref := 0, typ := D.FdNone)];
      if ff.typ == D.FdPipe {
        D.PipeEndGone(a, pipes, f);
        OpensSame(a, f, x, fs.inodes, cwds, iheld);
        PipeClose(ff.pipe, ff.writable);
      } else if ff.typ == D.FdInode {
        D.PipesSame(a, files, pipes);
        OpensLess(a, f, x, fs.inodes, cwds, iheld);
        PutInode(ff.ip, held - multiset{f}, iheld + multiset{ff.ip}, l);
        assert iheld + multiset{ff.ip} - multiset{ff.ip} == iheld;
      } else {
        D.PipesSame(a, files, pipes);
        OpensSame(a, f, x, fs.inodes, cwds, iheld);
      }
    }

    // ---- descriptors -------------------------------------------------------------------------

    /** fd_alloc: the lowest free descriptor of the process. */
    method FdAlloc(pr: nat, f: int) returns (fd: int)
      requires pr < D.NPROC && |fds| == D.NPROC * D.NOFILE
      modifies this`fds
      ensures fd == D.NONE ==> fds == old(fds) && forall i :: 0 <= i < D.NOFILE ==> fds[Slot(pr, i)] != D.NONE
      ensures fd != D.NONE ==>
                0 <= fd < D.NOFILE && old(fds)[Slot(pr, fd)] == D.NONE && fds == old(fds)[Slot(pr, fd) := f]
      ensures fd != D.NONE ==> forall i :: 0 <= i < fd ==> old(fds)[Slot(pr, i)] != D.NONE
    {
      fd := 0;
      while fd < D.NOFILE
        invariant 0 <= fd <= D.NOFILE && fds == old(fds) && forall i :: 0 <= i < fd ==> fds[Slot(pr, i)] != D.NONE
      {
        if fds[Slot(pr, fd)] == D.NONE {
          fds := fds[Slot(pr, fd) := f];
          return;
        }
        fd := fd + 1;
      }
      fd := D.NONE;
    }

    /** sys_dup. */
    method SysDup(pr: nat, oldFd: int) returns (fd: int)
      requires Valid() && pr < D.NPROC
      modifies this`fds, this`files
      ensures Valid()
      ensures fd == D.NONE ==> fds == old(fds) && files == old(files)
      ensures fd == D.NONE <==>
                oldFd < 0 || oldFd >= D.NOFILE || old(fds)[Slot(pr, oldFd)] == D.NONE || NoFd(old(fds), pr)
      ensures fd != D.NONE ==>
                && 0 <= fd < D.NOFILE && old(fds)[Slot(pr, fd)] == D.NONE
                && forall i :: 0 <= i < fd ==> old(fds)[Slot(pr, i)] != D.NONE
      ensures fd != D.NONE ==> fds == old(fds)[Slot(pr, fd) := old(fds)[Slot(pr, oldFd)]] && fds[Slot(pr, fd)] != D.NONE
    {
      hide Disk, D.Uses, D.Opens, D.PipesOk, InodesOk, PagesOk;
      if oldFd < 0 || oldFd >= D.NOFILE || fds[Slot(pr, oldFd)] == D.NONE { return D.NONE; }
      var f := fds[Slot(pr, oldFd)];
      D.SlotFile(files, fds, multiset{}, Slot(pr, oldFd));
      ghost var b := fds;
      fd := FdAlloc(pr, f);
      if fd == D.NONE { return; }
      ghost var a, n: nat, x := files, f, files[f].(ref := files[f].ref + 1);
      D.FileSet(a, b, multiset{}, multiset{n}, n, x);
      D.SlotSet(a[n := x], b, multiset{n}, multiset{}, Slot(pr, fd), f);
      D.PipesSame(a, a[n := x], pipes);
      OpensSame(a, n, x, fs.inodes, cwds, multiset{});
      files := files[f := files[f].(ref := files[f].ref + 1)];
    }

    /** sys_close: false is the -1 of a descriptor that is not open. */
    method SysClose(pr: nat, fd: int) returns (ok: bool)
      requires Valid() && pr < D.NPROC
      modifies this, fs, fs.cache
      ensures Valid() && Pages() == old(Pages()) && cwds == old(cwds)
      ensures ok <==> 0 <= fd < D.NOFILE && old(fds)[Slot(pr, fd)] != D.NONE
      ensures fds == if ok then old(fds)[Slot(pr, fd) := D.NONE] else old(fds)
    {
      hide Disk, D.Uses, D.Opens, D.PipesOk, InodesOk, PagesOk;
      if fd < 0 || fd >= D.NOFILE || fds[Slot(pr, fd)] == D.NONE { return false; }
      var f: nat := fds[Slot(pr, fd)];
      D.SlotSet(files, fds, multiset{}, multiset{f}, Slot(pr, fd), D.NONE);
      fds := fds[Slot(pr, fd) := D.NONE];
      FileClose(f, multiset{f}, multiset{}, {});
      assert multiset{f} - multiset{f} == multiset{};
      ok := true;
    }

    // ---- pipes -------------------------------------------------------------------------------

    /** pipe_alloc: two held files on a new pipe, or, on any of its error exits, nothing. */
    method PipeAlloc() returns (ok: bool, f0: nat, f1: nat)
      requires Valid()
      modifies this, fs, fs.cache
      ensures fds == old(fds) && cwds == old(cwds) && Pages() == old(Pages())
      ensures !ok ==> Valid() && files == old(files) && pipes == old(pipes) && free == old(free)
      ensures !ok <==> old(free) == [] || OneFile(old(files))
      ensures ok ==> f0 < D.NFILE && f1 < D.NFILE && f0 != f1 && Inv(multiset{f0} + multiset{f1}, multiset{}, {})
      ensures ok ==>
                && files[f0].typ == D.FdPipe == files[f1].typ && files[f0].pipe == files[f1].pipe
                && files[f0].pipe !in old(pipes)
      ensures ok ==>
                && files[f0].readable && !files[f0].writable && !files[f1].readable && files[f1].writable
                && AllTyped(files)
    {
      hide Disk, D.Uses, D.Opens, D.PipesOk, InodesOk, PagesOk, D.FilesOk;
      ok, f0, f1 := false, 0, 0;
      FdsLength(files, fds, multiset{});
      var a := FileAlloc(multiset{}, multiset{}, {});
      if a == D.NONE { return; }
      f0 := a;
      assert multiset{} + multiset{f0} == multiset{f0} && multiset{f0} - multiset{f0} == multiset{};
      FdsLength(files, fds, multiset{f0});
      ghost var first := files;
      assert first[f0].typ == D.FdNone;
      var b := FileAlloc(multiset{f0}, multiset{}, {});
      if b == D.NONE {
        FileClose(f0, multiset{f0}, multiset{}, {});
        assert files == old(files);
        return;
      }
      f1 := b;
      ghost var h := multiset{f0} + multiset{f1};
      assert h - multiset{f0} == multiset{f1} && multiset{f1} - multiset{f1} == multiset{};
      if free == [] {
        FileClose(f0, h, multiset{}, {});
        FileClose(f1, multiset{f1}, multiset{}, {});
        assert files == old(files);
        return;
      }
      FdsLength(files, fds, h);
      assert files == first[f1 := files[f1]];
      OpenEnds(f0, f1, h);
      ok := true;
    }

    /** The page of the new pipe, and its two files. */
    method OpenEnds(f0: nat, f1: nat, ghost h: multiset<nat>)
      requires Inv(h, multiset{}, {}) && f0 < D.NFILE && f1 < D.NFILE && f0 != f1 && f0 in h && f1 in h && free != []
      requires files[f0].typ == D.FdNone && files[f1].typ == D.FdNone
      modifies this`files, this`pipes, this`free
      ensures Inv(h, multiset{}, {}) && Pages() == old(Pages()) && files[f0].pipe == old(free)[0]
      ensures old(free)[0] !in old(pipes)
      ensures files[f0].typ == D.FdPipe == files[f1].typ && files[f0].pipe == files[f1].pipe
      ensures files[f0].readable && !files[f0].writable && !files[f1].readable && files[f1].writable
      ensures |old(files)| == D.NFILE && files == old(files)[f0 := files[f0]][f1 := files[f1]]
    {
      hide Disk, D.Uses, D.Opens, D.PipesOk, InodesOk;
      var p := free[0];
      ghost var a, x := files, files[f0].(typ := D.FdPipe, readable := true, writable := false, pipe := p);
      ghost var y := files[f1].(typ := D.FdPipe, readable := false, writable := true, pipe := p);
      D.FileSet(a, fds, h, h, f0, x);
      D.FileSet(a[f0 := x], fds, h, h, f1, y);
      D.PipeMade(a, pipes, f0, f1, p, x, y);
      OpensSame(a, f0, x, fs.inodes, cwds, multiset{});
      OpensSame(a[f0 := x], f1, y, fs.inodes, cwds, multiset{});
      PageTaken(pipes, free);
      free := free[1..];
      pipes := pipes[p := D.Ends(true, true)];
      files := files[f0 := files[f0].(typ := D.FdPipe, readable := true, writable := false, pipe := p)];
      files := files[f1 := files[f1].(typ := D.FdPipe, readable := false, writable := true, pipe := p)];
    }

    /** The error exits of sys_pipe. */
    method DropEnds(rf: nat, wf: nat)
      requires Inv(multiset{rf} + multiset{wf}, multiset{}, {}) && AllTyped(files) && rf != wf && rf < D.NFILE
      requires wf < D.NFILE
      requires |files| == D.NFILE && files[rf].typ == D.FdPipe == files[wf].typ
      modifies this`files, this`pipes, this`free, fs, fs.cache
      ensures Valid() && Pages() == old(Pages())
    {
      hide Disk, D.Uses, D.Opens, D.PipesOk, InodesOk, PagesOk, D.FilesOk;
      ghost var h := multiset{rf} + multiset{wf};
      assert h - multiset{rf} == multiset{wf} && multiset{wf} - multiset{wf} == multiset{};
      FileClose(rf, h, multiset{}, {});
      FileClose(wf, multiset{wf}, multiset{}, {});
    }

    /** sys_pipe: two descriptors, or, on either of its error exits, no descriptor, no file and
      * no page is kept. */
    method SysPipe(pr: nat) returns (ok: bool, fd0: int, fd1: int)
      requires Valid() && pr < D.NPROC
      modifies this, fs, fs.cache
      ensures Valid() && Pages() == old(Pages()) && cwds == old(cwds)
      ensures !ok ==> fds == old(fds)
      ensures !ok <==> old(free) == [] || OneFile(old(files)) || OneFd(old(fds), pr)
      ensures ok ==> 0 <= fd0 < fd1 < D.NOFILE && old(fds)[Slot(pr, fd0)] == old(fds)[Slot(pr, fd1)] == D.NONE
      ensures ok ==> forall i :: 0 <= i < fd1 && i != fd0 ==> old(fds)[Slot(pr, i)] != D.NONE
      ensures ok ==> var f, g := fds[Slot(pr, fd0)], fds[Slot(pr, fd1)];
                && 0 <= f < D.NFILE && 0 <= g < D.NFILE && fds == old(fds)[Slot(pr, fd0) := f][Slot(pr, fd1) := g]
                && D.OnPipe(files[f], files[f].pipe, false) && D.OnPipe(files[g], files[f].pipe, true)
    {
      hide Disk, D.Uses, D.Opens, D.PipesOk, InodesOk, PagesOk, D.FilesOk;
      var made, rf, wf := PipeAlloc();
      ok, fd0, fd1 := false, D.NONE, D.NONE;
      if !made { return; }
      ghost var h := multiset{rf} + multiset{wf};
      assert h - multiset{rf} == multiset{wf} && multiset{wf} - multiset{wf} == multiset{};
      FdsLength(files, fds, h);
      ghost var b := fds;
      fd0 := FdAlloc(pr, rf);
      if fd0 == D.NONE {
        DropEnds(rf, wf);
        return;
      }
      D.SlotSet(files, b, h, multiset{wf}, Slot(pr, fd0), rf);
      fd1 := FdAlloc(pr, wf);
      if fd1 == D.NONE {
        fds := fds[Slot(pr, fd0) := D.NONE];
        assert fds == b;
        DropEnds(rf, wf);
        return;
      }
      D.SlotSet(files, b[Slot(pr, fd0) := rf], multiset{wf}, multiset{}, Slot(pr, fd1), wf);
      HeldFiles(files, fds, Slot(pr, fd0));
      HeldFiles(files, fds, Slot(pr, fd1));
      ok := true;
    }

    // ---- fork and exit -----------------------------------------------------------------------

    /** fork's part: the child's table is a copy of the parent's, and so is its directory. */
    method ForkFiles(child: nat, parent: nat)
      requires Valid() && child < D.NPROC && parent < D.NPROC && child != parent && cwds[child] == D.NONE
      requires cwds[parent] != D.NONE
      requires forall i :: 0 <= i < D.NOFILE ==> fds[Slot(child, i)] == D.NONE
      modifies this`files, this`fds, this`cwds, fs`inodes
      ensures Valid() && cwds == old(cwds)[child := old(cwds)[parent]]
      ensures forall i :: 0 <= i < D.NOFILE ==> fds[Slot(child, i)] == old(fds)[Slot(parent, i)]
      ensures |fds| == |old(fds)|
      ensures forall j :: 0 <= j < |fds| && !(Slot(child, 0) <= j < Slot(child, D.NOFILE)) ==> fds[j] == old(fds)[j]
    {
      hide Disk, D.Uses, D.Opens, D.PipesOk, InodesOk, PagesOk;
      for i := 0 to D.NOFILE
        invariant Valid() && cwds == old(cwds) && fs.inodes == old(fs.inodes) && |fds| == |old(fds)|
        invariant forall j :: 0 <= j < |fds| && !(Slot(child, 0) <= j < Slot(child, i)) ==> fds[j] == old(fds)[j]
        invariant forall n :: 0 <= n < i ==> fds[Slot(child, n)] == old(fds)[Slot(parent, n)]
      {
        assert fds[Slot(parent, i)] == old(fds)[Slot(parent, i)] && fds[Slot(child, i)] == D.NONE;
        if fds[Slot(parent, i)] != D.NONE { DupTo(fds[Slot(parent, i)], Slot(child, i), Slot(parent, i)); }
      }
      DupCwd(child, parent);
    }

    method DupTo(f: int, slot: nat, ghost from: nat)
      requires Valid() && slot < |fds| && fds[slot] == D.NONE && from < |fds| && fds[from] == f != D.NONE
      modifies this`files, this`fds
      ensures Valid() && fds == old(fds)[slot := f]
    {
      hide Disk, D.Uses, D.Opens, D.PipesOk, InodesOk, PagesOk;
      D.SlotFile(files, fds, multiset{}, from);
      ghost var a, n: nat, x := files, f, files[f].(ref := files[f].ref + 1);
      D.FileSet(a, fds, multiset{}, multiset{n}, n, x);
      D.SlotSet(a[n := x], fds, multiset{n}, multiset{}, slot, f);
      D.PipesSame(a, a[n := x], pipes);
      OpensSame(a, n, x, fs.inodes, cwds, multiset{});
      files := files[f := files[f].(ref := files[f].ref + 1)];
      fds := fds[slot := f];
    }

    /** idup of the parent's working directory. */
    method DupCwd(child: nat, parent: nat)
      requires Valid() && child < D.NPROC && parent < D.NPROC && cwds[child] == D.NONE && cwds[parent] != D.NONE
      modifies this`cwds, fs`inodes
      ensures Valid() && cwds == old(cwds)[child := old(cwds)[parent]]
    {
      hide D.Uses, D.Opens, D.PipesOk, PagesOk, D.FilesOk, Owned, AllStored, Coherent, Linked, Permutation, Recency,
           OrphansHeld, LinkedDisk;
      var p := cwds[parent];
      ghost var a, z, n: nat := fs.inodes, fs.Snap(), p;
      CwdLive(a, files, cwds, multiset{}, parent);
      fs.inodes := fs.inodes[p := fs.inodes[p].(ref := fs.inodes[p].ref + 1)];
      DupKeeps(a, fs.inodes, fs.nodes, n);
      DupHolds(a, fs.inodes, fs.nodes, n);
      SameDisk(z, fs.Snap());
      CwdAdded(a, fs.inodes, files, cwds, child, n);
      cwds := cwds[child := p];
    }

    /** exit's part: every descriptor is closed and the working directory given up. */
    method ExitFiles(pr: nat)
      requires Valid() && pr < D.NPROC
      modifies this, fs, fs.cache
      ensures Valid() && Pages() == old(Pages()) && cwds == old(cwds)[pr := D.NONE]
      ensures forall i :: 0 <= i < D.NOFILE ==> fds[Slot(pr, i)] == D.NONE
      ensures |fds| == |old(fds)|
      ensures forall j :: 0 <= j < |fds| && !(Slot(pr, 0) <= j < Slot(pr, D.NOFILE)) ==> fds[j] == old(fds)[j]
    {
      hide Disk, D.Uses, D.Opens, D.PipesOk, InodesOk, PagesOk, D.FilesOk;
      FdsLength(files, fds, multiset{});
      for i := 0 to D.NOFILE
        invariant Valid() && Pages() == old(Pages()) && cwds == old(cwds) && |fds| == |old(fds)|
        invariant forall n :: 0 <= n < i ==> fds[Slot(pr, n)] == D.NONE
        invariant forall j :: 0 <= j < |fds| && !(Slot(pr, 0) <= j < Slot(pr, i)) ==> fds[j] == old(fds)[j]
      {
        if fds[Slot(pr, i)] != D.NONE { var _ := SysClose(pr, i); }
      }
      CwdRange(fs.inodes, files, cwds, pr);
      if cwds[pr] != D.NONE {
        var p: nat := cwds[pr];
        CwdDropped(fs.inodes, files, cwds, pr, p);
        cwds := cwds[pr := D.NONE];
        PutInode(p, multiset{}, multiset{p}, {});
        assert multiset{p} - multiset{p} == multiset{};
      }
    }

    // ---- opening ------------------------------------------------------------------------------

    /** What a path call asks of its process: a working directory and a C string. */
    ghost predicate Asks(pr: nat, path: seq<Byte>)
      reads this, fs, fs.cache
    {
      Valid() && pr < D.NPROC && |cwds| == D.NPROC && cwds[pr] != D.NONE && forall k :: 0 <= k < |path| ==> path[k] != 0
    }

    /** The parent that the path leads to is still linked. */
    ghost predicate ParentOpen(pr: nat, path: seq<Byte>)
      reads this, fs, fs.cache
    {
      && Asks(pr, path)
      && var w := ParentAt(pr, path);
         w.At? ==> w.inum < |fs.nodes| && 0 < fs.nodes[w.inum].nlink
    }

    lemma AsksTyped(pr: nat, path: seq<Byte>)
      requires ParentOpen(pr, path)
      ensures AllTyped(files)
    {
      hide ParentAt, Inv, AllTyped;
    }

    /** Where the path leads. */
    ghost function FileAt(pr: nat, path: seq<Byte>): Walked
      requires Asks(pr, path)
      reads this, fs, fs.cache
    {
      AsksReady(pr, path);
      Follow(fs.Snap(), Start(fs.inodes, path, cwds[pr]), Components(path))
    }

    /** A path leads from the root if it begins with a slash, and from the working directory if
      * not. */
    lemma FileAtIs(pr: nat, path: seq<Byte>)
      requires Asks(pr, path)
      ensures DiskOk(fs.Snap()) && 1 < |fs.nodes| && 0 <= cwds[pr] < |fs.inodes| == NINODE && LinkedDisk(fs.Snap())
      ensures fs.inodes[cwds[pr]].ref > 0 && 0 < fs.inodes[cwds[pr]].inum < |fs.nodes|
      ensures FileAt(pr, path) == Leads(fs.Snap(), fs.inodes[cwds[pr]].inum, path)
      ensures ParentAt(pr, path) == ParentLeads(fs.Snap(), fs.inodes[cwds[pr]].inum, path)
    {
      hide Follow, FollowParent, Components, DiskOk, LinkedDisk;
      AsksReady(pr, path);
    }

    /** Where the path leads, but for its last component. */
    ghost function ParentAt(pr: nat, path: seq<Byte>): Walked
      requires Asks(pr, path)
      reads this, fs, fs.cache
    {
      AsksReady(pr, path);
      FollowParent(fs.Snap(), Start(fs.inodes, path, cwds[pr]), Components(path))
    }

    lemma AsksReady(pr: nat, path: seq<Byte>)
      requires Asks(pr, path)
      ensures |fs.inodes| == NINODE && 0 <= cwds[pr] < NINODE && Ready(fs, path, cwds[pr])
      ensures fs.inodes[cwds[pr]].ref > 0 && fs.inodes[cwds[pr]].inum < |fs.nodes|
      ensures 0 < fs.inodes[cwds[pr]].inum && Start(fs.inodes, path, cwds[pr]) > 0
      ensures CacheOk(fs.inodes, fs.nodes) && Typed(fs.inodes)
      ensures NonNegative(fs.nodes) && fs.sb.nInodes <= U64 && Shaped(fs.Snap()) && DiskOk(fs.Snap())
      ensures Start(fs.inodes, path, cwds[pr]) < |fs.nodes|
    {
      hide Fs.Valid, OrphansHeld, D.FilesOk, D.PipesOk, PagesOk, D.Opens, L.Names;
      CwdLive(fs.inodes, files, cwds, multiset{}, pr);
      ValidShaped(fs);
      ValidCache(fs);
      StartOk(fs, path, cwds[pr]);
      forall i | 0 < i < |fs.nodes| && fs.nodes[i].typ == T_DIR
        ensures fs.nodes[i].nlink >= 0
      {
        CountedNode(fs.Snap(), i);
      }
    }

    /** iunlock of a held inode. */
    method Unlock(p: nat, ghost held: multiset<nat>, ghost iheld: multiset<nat>, ghost l: set<nat>)
      requires Inv(held, iheld, l) && p < NINODE && p in iheld && p in l
      modifies fs`inodes
      ensures Inv(held, iheld, l - {p}) && fs.inodes == old(fs.inodes)[p := old(fs.inodes)[p].(locked := false)]
    {
      hide Owned, AllStored, Coherent, Linked, Permutation, Recency, OrphansHeld, D.FilesOk, D.PipesOk, PagesOk,
           LinkedDisk, D.Opens, D.Uses;
      ghost var a, z := fs.inodes, fs.Snap();
      var ok := fs.Iunlock(p);
      UnlockKeeps(a, fs.inodes, fs.nodes, p);
      HoldsNone(a);
      HoldsSet(a, a, multiset{}, p, fs.inodes[p]);
      HoldsOrphans(a, fs.inodes, multiset{}, fs.nodes);
      SameDisk(z, fs.Snap());
      FitsKept(a, fs.inodes, files, cwds, iheld, iheld);
    }

    /** iunlock and iput. */
    method Release(p: nat, ghost held: multiset<nat>)
      requires Inv(held, multiset{p}, {p}) && p < NINODE
      modifies fs, fs.cache
      ensures Inv(held, multiset{}, {}) && |old(fs.inodes)| == NINODE
      ensures old(fs.inodes)[p].d.nlink != 0 ==> fs.Snap() == old(fs.Snap()).(inodes := fs.inodes)
      ensures AllInums(old(fs.inodes), fs.inodes)
    {
      assert |fs.inodes| == NINODE;
      hide Inv, AllInums, OnlyNode;
      ghost var a := fs.inodes;
      Unlock(p, held, multiset{p}, {p});
      assert {p} - {p} == {} && multiset{p} - multiset{p} == multiset{};
      ghost var b := fs.inodes;
      PutInode(p, held, multiset{p}, {});
      ReleaseInums(a, b, fs.inodes, p);
    }

    /** A call of the file system that changed the cache only. */
    lemma Rested(z: Snapshot, h: multiset<nat>, l: set<nat>)
      requires D.FilesOk(files, fds, multiset{}) && D.PipesOk(files, pipes) && PagesOk(pipes, free)
      requires InodesOk(z.inodes, files, cwds, multiset{}) && OrphansHeld(z.inodes, z.nodes) && LinkedDisk(z)
      requires Holding(fs, z, h, l) && forall p :: p in h ==> p < NINODE && p < |fs.inodes| && fs.inodes[p].inum > 0
      requires CacheOk(z.inodes, z.nodes) && Typed(z.inodes)
      ensures Inv(multiset{}, h, l)
    {
      hide Fs.Valid, OrphansHeld, D.FilesOk, D.PipesOk, PagesOk, LinkedDisk;
      assert CacheOk(fs.inodes, fs.nodes) && Typed(fs.inodes) by { ValidCache(fs); }
      TypesByDisk(z.inodes, z.nodes, fs.inodes, fs.nodes, h);
      HoldsCounts(z.inodes, fs.inodes, files, cwds, h);
      HoldsOrphans(z.inodes, fs.inodes, h, z.nodes);
      SameDisk(z, fs.Snap());
    }

    /** A call that changed the disk as create does. */
    lemma Changed(z: Snapshot, h: multiset<nat>, l: set<nat>)
      requires D.FilesOk(files, fds, multiset{}) && D.PipesOk(files, pipes) && PagesOk(pipes, free)
      requires InodesOk(z.inodes, files, cwds, multiset{}) && OrphansHeld(z.inodes, fs.nodes) && LinkedDisk(fs.Snap())
      requires Mid(fs, z, h, l) && forall p :: p in h ==> p < NINODE && p < |fs.inodes| && fs.inodes[p].inum > 0
      requires CacheOk(z.inodes, z.nodes) && Typed(z.inodes) && NoNewDir(z.nodes, fs.nodes)
      ensures Inv(multiset{}, h, l)
    {
      hide Fs.Valid, OrphansHeld, D.FilesOk, D.PipesOk, PagesOk, LinkedDisk;
      assert CacheOk(fs.inodes, fs.nodes) && Typed(fs.inodes) by { ValidCache(fs); }
      TypesByDisk(z.inodes, z.nodes, fs.inodes, fs.nodes, h);
      HoldsCounts(z.inodes, fs.inodes, files, cwds, h);
      HoldsOrphans(z.inodes, fs.inodes, h, fs.nodes);
    }

    /** create: an inode, locked and held; nothing; or a panic. */
    method CreateAt(pr: nat, path: seq<Byte>, typ: int, major: int, minor: int, name0: seq<Byte>)
      returns (r: Outcome<Option<nat>>, ghost m: Making)
      requires ParentOpen(pr, path) && |name0| == DIRSIZ
      requires Short(typ) && typ != 0 && Short(major) && Short(minor)
      modifies fs, fs.cache
      ensures !r.Blocked?
      ensures r.Panic? ==> CreatePanics(fs, old(fs.Snap()), typ, old(ParentAt(pr, path)), Components(path))
      ensures r.Ok? ==>
                CreatesAt(old(fs.Snap()), typ, old(ParentAt(pr, path)), Components(path), InumIn(fs.inodes, r.value), m)
      ensures r.Ok? ==>
                if m.New? then MadeAt(old(fs.Snap()), fs.Snap(), typ, InumIn(fs.inodes, r.value), m)
                else fs.Snap() == old(fs.Snap()).(inodes := fs.inodes) && (r.value.Some? ==> typ == T_FILE)
      ensures r.Ok? && m.New? ==>
                && r.value.Some? && fs.inodes[r.value.value].d.major == major
                && fs.inodes[r.value.value].d.minor == minor && fs.inodes[r.value.value].d.nlink == 1
      ensures r.Ok? && r.value.Some? ==> r.value.value < |fs.inodes| && fs.inodes[r.value.value].d.typ == typ
      ensures r == Ok(None) ==> Valid()
      ensures r.Ok? ==> SameInums(old(fs.inodes), fs.inodes)
      ensures r.Ok? && r.value.Some? ==>
                && r.value.value < NINODE && Inv(multiset{}, multiset{r.value.value}, {r.value.value})
                && Loaded(fs, r.value.value)
    {
      hide Fs.Valid, OrphansHeld, D.FilesOk, D.PipesOk, PagesOk, LinkedDisk, InodesOk, DiskOk, Ready, FollowParent,
           Components, Made, Holds, SameInums;
      AsksReady(pr, path);
      ghost var z := fs.Snap();
      r, m := Create(fs, path, typ, major, minor, cwds[pr], name0);
      if r.Ok? {
        HoldsInums(z.inodes, fs.inodes, if r.value.Some? then multiset{r.value.value} else multiset{});
        if r.value == None {
          Rested(z, multiset{}, {});
        } else {
          var p := r.value.value;
          if m == SysFile.Nothing {
            Rested(z, multiset{p}, {p});
          } else {
            MadeFacts(z, fs.Snap(), m.dpi, m.k, m.key, fs.inodes[p].inum, typ);
            Changed(z, multiset{p}, {p});
          }
        }
      }
    }

    /** namei and ilock: the inode, locked and held; nothing; or a panic. */
    method Lookup(pr: nat, path: seq<Byte>, name0: seq<Byte>) returns (r: Outcome<Option<nat>>)
      requires Asks(pr, path) && |name0| == DIRSIZ
      modifies fs, fs.cache
      ensures !r.Blocked? && (r.Panic? ==> LookupPanics(fs, old(fs.Snap()), old(FileAt(pr, path))))
      ensures r.Ok? ==> fs.Snap() == old(fs.Snap()).(inodes := fs.inodes)
      ensures r == Ok(None) ==> Valid() && old(FileAt(pr, path)) == Missing
      ensures r.Ok? && r.value.Some? ==>
                && r.value.value < NINODE && Inv(multiset{}, multiset{r.value.value}, {r.value.value})
                && Loaded(fs, r.value.value)
      ensures r.Ok? && r.value.Some? ==> old(FileAt(pr, path)) == At(fs.inodes[r.value.value].inum)
      ensures r.Ok? && r.value.Some? ==> Holds(old(fs.inodes), fs.inodes, multiset{r.value.value})
    {
      hide Fs.Valid, OrphansHeld, D.FilesOk, D.PipesOk, PagesOk, LinkedDisk, InodesOk, DiskOk, Ready, Follow,
           Components, Holds, Locks;
      AsksReady(pr, path);
      ghost var z, start := fs.Snap(), Start(fs.inodes, path, cwds[pr]);
      var name;
      r, name := Namex(fs, path, false, cwds[pr], name0);
      if r.Panic? { return; }
      if r.value == None {
        Rested(z, multiset{}, {});
        return;
      }
      var p := r.value.value;
      FollowPositive(z, start, Components(path));
      var entered := Enter(fs, p, z, multiset{p}, {});
      if entered.Panic? { return Panic; }
      assert {} + {p} == {p};
      Rested(z, multiset{p}, {p});
    }

    /** The locked inode that sys_open opens. */
    method OpenInode(pr: nat, path: seq<Byte>, omode: nat, name0: seq<Byte>)
      returns (r: Outcome<Option<nat>>, ghost m: Making)
      requires Asks(pr, path) && (Bit(omode, 9) ==> ParentOpen(pr, path)) && |name0| == DIRSIZ
      modifies fs, fs.cache
      ensures !r.Blocked?
      ensures r.Panic? ==>
                OpenPanics(fs, old(fs.Snap()), omode, old(FileAt(pr, path)), old(ParentAt(pr, path)), Components(path))
      ensures r.Ok? ==>
                Opened(old(fs.Snap()), omode, old(FileAt(pr, path)), old(ParentAt(pr, path)), Components(path),
                       InumIn(fs.inodes, r.value), m)
      ensures r.Ok? && m.New? ==> MadeAt(old(fs.Snap()), fs.Snap(), T_FILE, InumIn(fs.inodes, r.value), m)
      ensures r == Ok(None) ==> Valid()
      ensures r.Ok? && r.value.Some? ==> SameInums(old(fs.inodes), fs.inodes)
      ensures r.Ok? && r.value.Some? && !m.New? ==> fs.Snap() == old(fs.Snap()).(inodes := fs.inodes)
      ensures r.Ok? && r.value.Some? ==>
                r.value.value < NINODE && Inv(multiset{}, multiset{r.value.value}, {r.value.value})
      ensures r.Ok? && r.value.Some? ==>
                Loaded(fs, r.value.value) && (fs.inodes[r.value.value].d.typ == T_DIR ==> omode == 0)
    {
      hide Inv, ParentOpen, FileAt, ParentAt, CreatesAt, CreatePanics, MadeAt, SameInums, Holds;
      ghost var z := fs.inodes;
      m := SysFile.Nothing;
      if Bit(omode, 9) {
        r, m := CreateAt(pr, path, T_FILE, 0, 0, name0);
        return;
      }
      r := Lookup(pr, path, name0);
      if r.Ok? && r.value.Some? { HoldsInums(z, fs.inodes, multiset{r.value.value}); }
      if r.Ok? && r.value.Some? && fs.inodes[r.value.value].d.typ == T_DIR && omode != 0 {
        Release(r.value.value, multiset{});
        return Ok(None), m;
      }
    }

    /** sys_open: a descriptor for a new open file on the inode, or, on any of its error exits,
      * no reference is kept to an inode or a file. */
    method SysOpen(pr: nat, path: seq<Byte>, omode: nat, name0: seq<Byte>) returns (r: Outcome<int>, ghost m: Making)
      requires Asks(pr, path) && (Bit(omode, 9) ==> ParentOpen(pr, path)) && |name0| == DIRSIZ
      modifies this, fs, fs.cache
      ensures !r.Blocked?
      ensures r.Panic? ==>
                OpenPanics(fs, old(fs.Snap()), omode, old(FileAt(pr, path)), old(ParentAt(pr, path)), Components(path))
      ensures r.Ok? ==> Valid() && cwds == old(cwds) && pipes == old(pipes) && free == old(free)
      ensures r.Ok? && r.value == D.NONE ==> fds == old(fds) && files == old(files)
      ensures r.Ok? && r.value == D.NONE ==>
                || NoFile(files) || NoFd(fds, pr)
                || Opened(old(fs.Snap()), omode, old(FileAt(pr, path)), old(ParentAt(pr, path)), Components(path),
                          None, m)
      ensures r.Ok? && r.value != D.NONE ==> 0 <= r.value < D.NOFILE && old(fds)[Slot(pr, r.value)] == D.NONE
      ensures r.Ok? && r.value != D.NONE ==>
                var f := fds[Slot(pr, r.value)];
                && 0 <= f < D.NFILE && fds == old(fds)[Slot(pr, r.value) := f] && old(files)[f].ref == 0
                && files == old(files)[f := files[f]] && files[f].typ == D.FdInode && files[f].ref == 1
                && files[f].off == 0
                && files[f].readable == !Bit(omode, 0) && files[f].writable == (Bit(omode, 0) || Bit(omode, 1))
                && var inum := InumIn(fs.inodes, Some(files[f].ip));
                   && inum.Some?
                   && Opened(old(fs.Snap()), omode, old(FileAt(pr, path)), old(ParentAt(pr, path)), Components(path),
                          inum, m)
                   && (m.New? ==> MadeAt(old(fs.Snap()), fs.Snap(), T_FILE, inum, m))
                   && Asks(pr, path) && FileAt(pr, path) == At(inum.value)
    {
      hide Disk, D.Uses, D.Opens, D.PipesOk, InodesOk, PagesOk, D.FilesOk, ParentOpen, FileAt, ParentAt, Opened,
           OpenPanics, MadeAt, Inv, SameInums, AllInums, LinkedDisk, DiskOk, Leads, ParentLeads;
      FileAtIs(pr, path);
      ghost var z, b, a := fs.Snap(), fs.inodes[cwds[pr]].inum, fs.inodes;
      var found;
      found, m := OpenInode(pr, path, omode, name0);
      if found.Panic? { return Panic, m; }
      if found.value == None { return Ok(D.NONE), m; }
      ghost var y := fs.Snap();
      var fd := OpenOn(pr, found.value.value, omode);
      r := Ok(fd);
      if fd != D.NONE {
        if m.New? { MadeSame(z, y, fs.Snap(), T_FILE, InumIn(y.inodes, found.value), m); }
        StaysThere(a, y.inodes, fs.inodes, cwds[pr]);
        FileAtIs(pr, path);
        OpenLeads(z, fs.Snap(), b, path, omode, fs.inodes[found.value.value].inum, m);
      }
    }

    /** The rest of sys_open, with the inode locked and held. */
    method OpenOn(pr: nat, p: nat, omode: nat) returns (fd: int)
      requires Inv(multiset{}, multiset{p}, {p}) && AllTyped(files) && p < NINODE && pr < D.NPROC
      requires Loaded(fs, p) && (fs.inodes[p].d.typ == T_DIR ==> omode == 0)
      modifies this, fs, fs.cache
      ensures Valid() && cwds == old(cwds) && pipes == old(pipes) && free == old(free)
      ensures fd == D.NONE ==> fds == old(fds) && files == old(files) && (NoFile(files) || NoFd(fds, pr))
      ensures fd != D.NONE ==>
                && 0 <= fd < D.NOFILE && old(fds)[Slot(pr, fd)] == D.NONE
                && var f := fds[Slot(pr, fd)];
                   && 0 <= f < D.NFILE && fds == old(fds)[Slot(pr, fd) := f] && old(files)[f].ref == 0
                   && files == old(files)[f := files[f]] && files[f].typ == D.FdInode && files[f].ref == 1
                   && files[f].ip == p && files[f].off == 0
                   && files[f].readable == !Bit(omode, 0) && files[f].writable == (Bit(omode, 0) || Bit(omode, 1))
      ensures fd != D.NONE ==>
                && fs.Snap() == old(fs.Snap()).(inodes := fs.inodes)
                && InumIn(fs.inodes, Some(p)) == InumIn(old(fs.inodes), Some(p)) != None
                && AllInums(old(fs.inodes), fs.inodes)
    {
      hide Disk, D.Uses, D.Opens, D.PipesOk, PagesOk, D.FilesOk, Bit, InodesOk;
      FdsLength(files, fds, multiset{});
      var a := FileAlloc(multiset{}, multiset{p}, {p});
      if a == D.NONE {
        Release(p, multiset{});
        return D.NONE;
      }
      var f: nat := a;
      assert multiset{} + multiset{f} == multiset{f} && multiset{f} - multiset{f} == multiset{};
      ghost var b := fds;
      fd := FdAlloc(pr, f);
      if fd == D.NONE {
        FileClose(f, multiset{f}, multiset{p}, {p});
        Release(p, multiset{});
        return;
      }
      D.SlotSet(files, b, multiset{f}, multiset{}, Slot(pr, fd), f);
      assert {p} - {p} == {};
      Unlock(p, multiset{}, multiset{p}, {p});
      assert omode == 0 ==> !Bit(omode, 0) && !Bit(omode, 1) by { NoBits(); }
      BindFile(f, p, !Bit(omode, 0), Bit(omode, 0) || Bit(omode, 1));
    }

    /** The fields of the new open file: the reference to the inode is now the file's. */
    method BindFile(f: nat, p: nat, readable: bool, writable: bool)
      requires Inv(multiset{}, multiset{p}, {}) && f < D.NFILE && files[f].ref > 0 && files[f].typ == D.FdNone
      requires p < NINODE
      requires p < |fs.inodes| && fs.inodes[p].valid && (writable ==> fs.inodes[p].d.typ != T_DIR)
      requires forall g :: 0 <= g < |files| && files[g].ref > 0 && files[g].typ == D.FdNone ==> g == f
      modifies this`files
      ensures Valid()
      ensures files == old(files)[f :=
                  old(files)[f].(typ := D.FdInode, ip := p, off := 0, readable := readable, writable := writable)]
    {
      hide Disk, D.Uses, D.Opens, D.PipesOk, InodesOk, PagesOk;
      ghost var a, x := files,
          files[f].(typ := D.FdInode, ip := p, off := 0, readable := readable, writable := writable);
      D.FileSet(a, fds, multiset{}, multiset{}, f, x);
      D.PipesSame(a, a[f := x], pipes);
      OpensMore(a, f, x, fs.inodes, cwds, p);
      files := files[f := files[f].(typ := D.FdInode, ip := p, off := 0, readable := readable, writable := writable)];
    }

    // ---- reading and writing -----------------------------------------------------------------

    lemma FileEntry(f: nat)
      requires Valid() && f < D.NFILE && |files| == D.NFILE && files[f].ref > 0 && files[f].typ == D.FdInode
      ensures files[f].ip < |fs.inodes| == NINODE && files[f].off < U64
      ensures var e := fs.inodes[files[f].ip];
              && e.ref > 0 && !e.locked && e.valid && e.inum < |fs.nodes| && e.d == fs.nodes[e.inum] && e.d.typ != 0
              && (files[f].writable ==> e.d.typ != T_DIR)
    {
      hide D.Opens, D.Uses, D.FilesOk, D.PipesOk, PagesOk, LinkedDisk, OrphansHeld, Fs.Valid;
      ValidCache(fs);
      assert Fits(files[f], fs.inodes);
      FileHeld(fs.inodes, files, cwds, multiset{}, f);
      assert EntryOk(fs.inodes[files[f].ip], fs.nodes);
    }

    /** file_read. A read of a pipe goes to the pipe and one of a device to the device, whose
      * answer is dev; a read of a file returns its bytes from the offset on and moves the
      * offset. Neither the disk nor the cache changes, and no panic can happen. */
    method FileRead(f: nat, n: nat, handlers: set<int>, dev: int) returns (r: FileIo, dst: seq<Byte>)
      requires Valid() && f < D.NFILE && |files| == D.NFILE && files[f].ref > 0 && n < U64
      modifies this`files, fs, fs.cache
      ensures Valid() && fs.Snap() == old(fs.Snap())
      ensures var x := old(files)[f];
              if !x.readable then r == Refused && files == old(files)
              else if x.typ == D.FdPipe then r == OnPipe(x.pipe) && files == old(files)
              else
                && r.Moved? && x.ip < |old(fs.inodes)|
                && ReadSpec(old(fs.cache.view), old(fs.inodes)[x.ip].d, x.off, n, handlers, r.io, dst)
                && |files| == |old(files)| && files == old(files)[f := files[f]] && MovedOn(x, files[f], r.io, dev)
                && (r.io.Done? ==> files[f].off == x.off + r.io.count) && (r.io == Fail ==> files[f].off == x.off)
    {
      hide Fs.Valid, ReadSpec, OrphansHeld, D.FilesOk, D.PipesOk, PagesOk, LinkedDisk, InodesOk;
      if !files[f].readable { return Refused, []; }
      if files[f].typ == D.FdPipe { return OnPipe(files[f].pipe), []; }
      FileEntry(f);
      ValidCache(fs);
      var p := files[f].ip;
      ghost var a, z := fs.inodes, fs.Snap();
      var locked := fs.Ilock(p);
      var io;
      io, dst := fs.Readi(p, files[f].off, n, handlers);
      UnlockEntry(fs, p);
      assert fs.inodes == a;
      HoldsNone(a);
      Rested(z, multiset{}, {});
      ReadEnd(z.view, a[p].d, files[f].off, n, handlers, io, dst);
      Advance(f, io, dev);
      r := Moved(io);
    }

    method MoveTo(f: nat, off: nat)
      requires Valid() && f < D.NFILE && |files| == D.NFILE && off < U64
      modifies this`files
      ensures Valid() && files == old(files)[f := old(files)[f].(off := off)]
    {
      hide Disk, D.Uses, D.Opens, D.PipesOk, InodesOk, PagesOk, D.FilesOk;
      ghost var a, x := files, files[f].(off := off);
      assert a[f].ref == 0 ==> a[f].typ == D.FdNone by { Unused(a, fds, f); }
      D.FileSet(a, fds, multiset{}, multiset{}, f, x);
      D.PipesSame(a, a[f := x], pipes);
      OpensSame(a, f, x, fs.inodes, cwds, multiset{});
      files := files[f := files[f].(off := off)];
    }

    /** if(r>0) f->off += r. */
    method Advance(f: nat, io: Io, dev: int)
      requires Valid() && f < D.NFILE && |files| == D.NFILE && files[f].off < U64
      requires io.Done? ==> files[f].off + io.count < U64
      modifies this`files
      ensures Valid() && |files| == D.NFILE && files == old(files)[f := files[f]]
      ensures MovedOn(old(files)[f], files[f], io, dev)
    {
      hide Inv, AllTyped;
      if io.Done? && io.count > 0 {
        MoveTo(f, files[f].off + io.count);
      } else if io.ToDevice? && dev > 0 {
        MoveTo(f, (files[f].off + dev) % U64);
      }
    }

    /** file_write. As file_read, but that a write to a file splices the bytes in at the offset,
      * on the disk too, and changes no other file and no link count: a file open for writing is
      * never a directory. A panic exactly if the disk has not room for the blocks needed. */
    method FileWrite(f: nat, src: seq<Byte>, handlers: set<int>, dev: int) returns (r: FileIo)
      requires Valid() && f < D.NFILE && |files| == D.NFILE && files[f].ref > 0 && |src| < U64
      modifies this`files, fs, fs.cache
      ensures var x := old(files)[f];
              if !x.writable then r == Refused && Valid() && fs.Snap() == old(fs.Snap()) && files == old(files)
              else if x.typ == D.FdPipe then
                r == OnPipe(x.pipe) && Valid() && fs.Snap() == old(fs.Snap()) && files == old(files)
              else
                && r.Moved? && x.ip < |old(fs.inodes)| && fs.sb.nInodes > 0
                && WriteSpec(fs.sb, old(fs.Snap()), fs.Snap(), x.ip, x.off, src, handlers, r.io)
                && |files| == |old(files)| && files == old(files)[f := files[f]]
                && (r.io != Panicked ==> Valid() && MovedOn(x, files[f], r.io, dev))
                && (r.io.Done? ==> files[f].off == x.off + r.io.count) && (r.io == Fail ==> files[f].off == x.off)
                && (r.io != Panicked ==>
                      Shaped(old(fs.Snap())) && Shaped(fs.Snap()) && Abs(fs.Snap()) == Abs(old(fs.Snap())))
                && (r.io != Panicked ==>
                      && |fs.inodes| == |old(fs.inodes)|
                      && fs.inodes == old(fs.inodes)[x.ip := old(fs.inodes)[x.ip].(d := fs.inodes[x.ip].d)])
    {
      hide Fs.Valid, OrphansHeld, D.FilesOk, D.PipesOk, PagesOk, LinkedDisk, InodesOk, FileWritten, Abs, MoreSlots,
           SlotCount, Capacity;
      if !files[f].writable { return Refused; }
      if files[f].typ == D.FdPipe { return OnPipe(files[f].pipe); }
      FileEntry(f);
      ValidCache(fs);
      var p := files[f].ip;
      ghost var a, z := fs.inodes, fs.Snap();
      assert fs.sb.nInodes > 0 by { NoMore(fs); }
      LinkedShaped(z);
      var io := WriteLocked(fs, p, files[f].off, src, handlers);
      if io == Panicked { return Moved(io); }
      LocksBack(a, fs.inodes, p);
      ValidShaped(fs);
      if io.Done? {
        WrittenLinks(fs.sb, z.inodes[p].inum, z, fs.Snap(), files[f].off, src);
        SameOrphans(z.inodes, z.nodes, fs.nodes);
        Changed(z, multiset{}, {});
      } else {
        Rested(z, multiset{}, {});
      }
      Advance(f, io, dev);
      r := Moved(io);
    }

    lemma InvCache(held: multiset<nat>, iheld: multiset<nat>, l: set<nat>)
      requires Inv(held, iheld, l)
      ensures CacheOk(fs.inodes, fs.nodes)
    {
      hide Fs.Valid, OrphansHeld, D.FilesOk, D.PipesOk, PagesOk, LinkedDisk, InodesOk;
      ValidCache(fs);
    }

    /** sys_chdir. */
    method SysChdir(pr: nat, path: seq<Byte>, name0: seq<Byte>) returns (r: Outcome<bool>)
      requires Asks(pr, path) && |name0| == DIRSIZ
      modifies this`cwds, fs, fs.cache
      ensures !r.Blocked?
      ensures r.Ok? ==> Valid() && |cwds| == |old(cwds)| && cwds == old(cwds)[pr := cwds[pr]] && cwds[pr] != D.NONE
      ensures r == Ok(false) ==> cwds == old(cwds)
      ensures r.Panic? ==> LookupPanics(fs, old(fs.Snap()), old(FileAt(pr, path)))
      ensures r == Ok(true) ==>
                && 0 <= cwds[pr] < |fs.inodes| && old(FileAt(pr, path)) == At(fs.inodes[cwds[pr]].inum)
                && fs.inodes[cwds[pr]].inum < |old(fs.nodes)| && old(fs.nodes)[fs.inodes[cwds[pr]].inum].typ == T_DIR
      ensures r == Ok(false) ==>
                var w := old(FileAt(pr, path));
                w == Missing || (w.At? && w.inum < |old(fs.nodes)| && old(fs.nodes)[w.inum].typ != T_DIR)
      ensures r == Ok(true) && path != [] ==>
                && 0 <= old(cwds)[pr] < |old(fs.inodes)|
                && LeadsOn(old(fs.Snap()), old(fs.inodes)[old(cwds)[pr]].inum, fs.Snap(), fs.inodes[cwds[pr]].inum,
                       path)
    {
      hide Disk, D.Uses, D.Opens, D.PipesOk, InodesOk, PagesOk, D.FilesOk, FileAt, PutAs, OnlyNode, LeadsOn, LinkedDisk,
           DiskOk, Holds, Follow, Components, CacheOk;
      FileAtIs(pr, path);
      ghost var z, b := fs.Snap(), fs.inodes[cwds[pr]].inum;
      var found := Lookup(pr, path, name0);
      if found.Panic? { return Panic; }
      if found.value == None { return Ok(false); }
      var p := found.value.value;
      if fs.inodes[p].d.typ != T_DIR {
        Release(p, multiset{});
        return Ok(false);
      }
      assert {p} - {p} == {};
      ghost var a := fs.inodes;
      Unlock(p, multiset{}, multiset{p}, {p});
      InvCache(multiset{}, multiset{p}, {});
      CwdSwap(fs.inodes, files, cwds, pr, p);
      var was: nat := cwds[pr];
      cwds := cwds[pr := p];
      ghost var x := fs.Snap();
      PutInode(was, multiset{}, multiset{was}, {});
      assert multiset{was} - multiset{was} == multiset{};
      r := Ok(true);
      PutAway(z, a, x, fs.Snap(), p, was);
      FileAtIs(pr, []);
      if path != [] { ChdirLeads(z, fs.Snap(), b, fs.inodes[p].inum, path); }
    }

    /** sys_mkdir and sys_mknod: create, then give the new inode up. */
    method SysMake(pr: nat, path: seq<Byte>, typ: int, major: int, minor: int, name0: seq<Byte>)
      returns (r: Outcome<bool>, ghost m: Making, ghost i: Option<nat>)
      requires ParentOpen(pr, path) && |name0| == DIRSIZ
      requires (typ == T_DIR || typ == T_DEV) && Short(major) && Short(minor)
      modifies fs, fs.cache
      ensures !r.Blocked?
      ensures r.Panic? ==> CreatePanics(fs, old(fs.Snap()), typ, old(ParentAt(pr, path)), Components(path))
      ensures r.Ok? ==> Valid() && CreatesAt(old(fs.Snap()), typ, old(ParentAt(pr, path)), Components(path), i, m)
      ensures r == Ok(true) ==> MadeAt(old(fs.Snap()), fs.Snap(), typ, i, m)
      ensures r == Ok(true) ==>
                i.value < |fs.nodes| && fs.nodes[i.value].major == major && fs.nodes[i.value].minor == minor
      ensures r == Ok(false) ==> i == None && m == SysFile.Nothing && fs.Snap() == old(fs.Snap()).(inodes := fs.inodes)
      ensures r == Ok(true) ==> Asks(pr, path) && FileAt(pr, path) == At(i.value)
    {
      hide Inv, ParentOpen, ParentAt, CreatesAt, CreatePanics, L.Create, L.CanCreate, Shaped, Abs, AllTyped, SameInums,
           AllInums, FileAt, LinkedDisk, DiskOk, ParentLeads, Leads;
      assert AllTyped(files) by { AsksTyped(pr, path); }
      assert Asks(pr, path) by { OpenAsks(pr, path); }
      FileAtIs(pr, path);
      ghost var z, b := fs.Snap(), fs.inodes[cwds[pr]].inum;
      ghost var a := fs.inodes;
      var made;
      made, m := CreateAt(pr, path, typ, major, minor, name0);
      i := None;
      if made.Panic? { return Panic, m, i; }
      if made.value == None { return Ok(false), m, i; }
      i := InumIn(fs.inodes, made.value);
      ghost var y, x := fs.Snap(), fs.inodes;
      Release(made.value.value, multiset{});
      AbsSame(y, fs.Snap());
      r := Ok(true);
      StaysThere(a, x, fs.inodes, cwds[pr]);
      FileAtIs(pr, path);
      MadeLeads(z, fs.Snap(), b, path, typ, i, m);
    }

    lemma OpenAsks(pr: nat, path: seq<Byte>)
      requires ParentOpen(pr, path)
      ensures Asks(pr, path)
    {
      hide Inv;
    }

    /** sys_unlink keeps all of it. */
    method UnlinkAt(pr: nat, path: seq<Byte>, name0: seq<Byte>) returns (r: Outcome<bool>, ghost m: Cutting)
      requires Asks(pr, path) && |name0| == DIRSIZ
      modifies fs, fs.cache
      ensures !r.Blocked?
      ensures r.Ok? ==> Valid() && UnlinksAt(old(fs.Snap()), old(ParentAt(pr, path)), Components(path), r.value, m)
      ensures r.Ok? ==> Shaped(old(fs.Snap())) && Unlinks(fs, old(fs.Snap()), r.value, m)
      ensures r.Panic? ==> old(ParentAt(pr, path)) == Bad || CacheFull(fs)
      ensures r == Ok(true) ==> Asks(pr, path) && !FileAt(pr, path).At?
    {
      hide Fs.Valid, OrphansHeld, D.FilesOk, D.PipesOk, PagesOk, LinkedDisk, InodesOk, DiskOk, Ready, FollowParent,
           Components, Holds, Locks, Abs, L.CanUnlink, L.Unlink, L.Free, FileAt, ParentAt, Leads, SameInums, UnlinksAt,
           CacheOk, Typed, NonNegative, KeepsTypes, NoNewDir;
      FileAtIs(pr, path);
      AsksReady(pr, path);
      ghost var z, b := fs.Snap(), fs.inodes[cwds[pr]].inum;
      r, m := SysUnlink(fs, path, cwds[pr], name0);
      if r.Ok? {
        if r.value {
          assert Shaped(fs.Snap()) by { LinkedShaped(fs.Snap()); }
          CutTypes(z, fs.Snap(), m.dpi, m.k, m.i);
          ValidCache(fs);
          TypesByDisk(z.inodes, z.nodes, fs.inodes, fs.nodes, multiset{});
          HoldsCounts(z.inodes, fs.inodes, files, cwds, multiset{});
          HoldsInums(z.inodes, fs.inodes, multiset{});
          assert fs.inodes[cwds[pr]].inum == b by { StaysHere(z.inodes, fs.inodes, cwds[pr]); }
          FileAtIs(pr, path);
          UnlinkedLeads(z, fs.Snap(), b, path, m);
        } else {
          Rested(z, multiset{}, {});
        }
      }
    }
  }

  lemma StaysThere(a: seq<Inode>, x: seq<Inode>, y: seq<Inode>, p: int)
    requires SameInums(a, x) && AllInums(x, y) && 0 <= p < |a| && a[p].ref > 0
    ensures |y| == |a| && y[p].inum == a[p].inum
  {
  }

  lemma StaysHere(a: seq<Inode>, x: seq<Inode>, p: int)
    requires SameInums(a, x) && 0 <= p < |a| && a[p].ref > 0
    ensures |x| == |a| && x[p].inum == a[p].inum
  {
  }

  lemma UnlinkedLeads(z: Snapshot, y: Snapshot, b: nat, path: seq<Byte>, m: Cutting)
    requires LinkedDisk(z) && LinkedDisk(y) && DiskOk(z) && DiskOk(y) && 1 < |z.nodes| && b < |z.nodes|
    requires 1 < |y.nodes| && b < |y.nodes| && Shaped(z) && Shaped(y)
    requires UnlinksAt(z, ParentLeads(z, b, path), Components(path), true, m) && L.CanUnlink(Abs(z), m.dpi, m.k, m.i)
    requires var t := L.Unlink(Abs(z), m.dpi, m.k, m.i); Abs(y) == t || Abs(y) == L.Free(t, m.i)
    ensures !Leads(y, b, path).At?
  {
    hide LinkedDisk, DiskOk, Follow, FollowParent, Components, KeyN, InumAt, KeyAt, Contents, L.Unlink, L.Free;
    var s, cs := if path != [] && path[0] == 47 then 1 else b, Components(path);
    var c := Contents(z.view, z.nodes[m.dpi]);
    assert EntriesOf(c)[m.k] == L.Entry(InumAt(c, m.k), KeyAt(c, m.k));
    CutLeads(z, y, m.dpi, m.k, m.i, s, cs);
  }

  lemma MadeLeads(z: Snapshot, y: Snapshot, b: nat, path: seq<Byte>, typ: int, i: Option<nat>, m: Making)
    requires LinkedDisk(z) && LinkedDisk(y) && DiskOk(z) && DiskOk(y) && 1 < |z.nodes| && b < |z.nodes|
    requires 1 < |y.nodes| && b < |y.nodes|
    requires MadeAt(z, y, typ, i, m) && CreatesAt(z, typ, ParentLeads(z, b, path), Components(path), i, m)
    ensures Leads(y, b, path) == At(i.value)
  {
    hide LinkedDisk, DiskOk, Abs, Shaped, L.Create, L.CanCreate, Follow, FollowParent, Components;
    var s := if path != [] && path[0] == 47 then 1 else b;
    CreatedLeads(z, y, m.dpi, m.k, i.value, typ, s, Components(path));
  }

  /** After sys_open the path leads to the inode that was opened. */
  lemma OpenLeads(z: Snapshot, y: Snapshot, b: nat, path: seq<Byte>, omode: nat, i: nat, m: Making)
    requires LinkedDisk(z) && LinkedDisk(y) && DiskOk(z) && DiskOk(y) && 1 < |z.nodes| && b < |z.nodes|
    requires 1 < |y.nodes| && b < |y.nodes|
    requires Opened(z, omode, Leads(z, b, path), ParentLeads(z, b, path), Components(path), Some(i), m)
    requires if m.New? then MadeAt(z, y, T_FILE, Some(i), m) else y.nodes == z.nodes && y.view == z.view
    ensures Leads(y, b, path) == At(i)
  {
    hide LinkedDisk, DiskOk, Follow, FollowParent, Components, MadeAt, Step;
    var s, cs := if path != [] && path[0] == 47 then 1 else b, Components(path);
    if m.New? {
      MadeLeads(z, y, b, path, T_FILE, Some(i), m);
    } else {
      FollowSame(z, y, s, cs);
      if Bit(omode, 9) {
        var n := |cs| - 1;
        assert cs == cs[..n] + [cs[n]];
        FollowLast(z, s, cs[..n], cs[n]);
      }
    }
  }

  lemma EntryTyped(a: seq<Inode>, nodes: seq<Dinode>, p: nat)
    requires CacheOk(a, nodes) && Typed(a) && p < NINODE && a[p].ref > 0 && a[p].valid
    ensures a[p].inum < |nodes| && nodes[a[p].inum] == a[p].d && a[p].d.typ != 0
  {
    assert EntryOk(a[p], nodes);
  }

  lemma PutCounts(a: seq<Inode>, b: seq<Inode>, files: seq<D.File>, cwds: seq<int>, iheld: multiset<nat>, p: nat)
    requires InodesOk(a, files, cwds, iheld) && p < NINODE && p in iheld && |b| == |a| && b == a[p := b[p]]
    requires b[p].ref == a[p].ref - 1 && b[p].inum == a[p].inum
    requires b[p].ref > 0 ==> b[p].valid == a[p].valid && b[p].d == a[p].d
    ensures InodesOk(b, files, cwds, iheld - multiset{p})
  {
    hide CountIf;
    FitsKept(a, b, files, cwds, iheld, iheld - multiset{p});
  }

  lemma FitsKept(a: seq<Inode>, b: seq<Inode>, files: seq<D.File>, cwds: seq<int>, iheld: multiset<nat>,
        iheld': multiset<nat>)
    requires InodesOk(a, files, cwds, iheld) && KeepsTypes(a, b)
    requires forall p :: 0 <= p < NINODE ==> b[p].ref == D.Opens(files, p) + D.Uses(cwds, p) + iheld'[p]
    ensures forall f :: 0 <= f < |files| ==> Fits(files[f], b)
  {
    hide CountIf;
    forall f | 0 <= f < |files| ensures Fits(files[f], b) {
      assert Fits(files[f], a);
      if files[f].ref > 0 && files[f].typ == D.FdInode {
        FileHeld(a, files, cwds, iheld, f);
        FileHeld(b, files, cwds, iheld', f);
      }
    }
  }

  lemma PageBack(pipes: map<nat, D.Ends>, free: seq<nat>, p: nat)
    requires PagesOk(pipes, free) && p in pipes
    ensures PagesOk(pipes - {p}, [p] + free)
    ensures (pipes - {p}).Keys + (set k | 0 <= k < |[p] + free| :: ([p] + free)[k]) ==
                pipes.Keys + (set k | 0 <= k < |free| :: free[k])
  {
    var a, b := (set k | 0 <= k < |[p] + free| :: ([p] + free)[k]), (set k | 0 <= k < |free| :: free[k]);
    forall x | x in a ensures x in b + {p} {}
    forall x | x in b + {p} ensures x in a {
      if x != p {
        var k :| 0 <= k < |free| && free[k] == x;
        assert ([p] + free)[k + 1] == x;
      } else {
        assert ([p] + free)[0] == p;
      }
    }
  }

  /** A file that is on an inode neither before nor after, or on the same one both times. */
  lemma OpensSame(files: seq<D.File>, f: nat, x: D.File, inodes: seq<Inode>, cwds: seq<int>, iheld: multiset<nat>)
    requires InodesOk(inodes, files, cwds, iheld) && f < |files|
    requires forall p: nat :: D.OnInode(x, p) == D.OnInode(files[f], p)
    requires (x.off == files[f].off || x.off < U64) && (x.typ == D.FdInode ==> x.writable == files[f].writable)
    ensures InodesOk(inodes, files[f := x], cwds, iheld)
  {
    hide CountIf;
    forall p: nat | p < NINODE
      ensures D.Opens(files[f := x], p) == D.Opens(files, p)
    {
      CountUpdate(files, f, x, D.On(p));
    }
    assert D.OnInode(x, x.ip) == D.OnInode(files[f], x.ip);
  }

  /** The last reference to an open file goes: its reference to the inode is now held. */
  lemma OpensLess(files: seq<D.File>, f: nat, x: D.File, inodes: seq<Inode>, cwds: seq<int>, iheld: multiset<nat>)
    requires InodesOk(inodes, files, cwds, iheld) && f < |files| && files[f].ref > 0 && files[f].typ == D.FdInode
    requires x.ref == 0 && x.off == files[f].off
    ensures files[f].ip < NINODE && InodesOk(inodes, files[f := x], cwds, iheld + multiset{files[f].ip})
  {
    hide CountIf;
    var h := iheld + multiset{files[f].ip};
    forall p: nat | p < NINODE
      ensures D.Opens(files[f := x], p) + h[p] == D.Opens(files, p) + iheld[p]
    {
      CountUpdate(files, f, x, D.On(p));
    }
  }

  lemma PageTaken(pipes: map<nat, D.Ends>, free: seq<nat>)
    requires PagesOk(pipes, free) && free != []
    ensures PagesOk(pipes[free[0] := D.Ends(true, true)], free[1..])
    ensures pipes[free[0] := D.Ends(true, true)].Keys + (set k | 0 <= k < |free[1..]| :: free[1..][k]) ==
                pipes.Keys + (set k | 0 <= k < |free| :: free[k])
  {
    var a, b := (set k | 0 <= k < |free[1..]| :: free[1..][k]), (set k | 0 <= k < |free| :: free[k]);
    forall x | x in b ensures x in a + {free[0]} {
      var k :| 0 <= k < |free| && free[k] == x;
      if k > 0 { assert free[1..][k - 1] == x; }
    }
    forall x | x in a + {free[0]} ensures x in b {
      if x != free[0] {
        var k :| 0 <= k < |free[1..]| && free[1..][k] == x;
        assert free[k + 1] == x;
      }
    }
  }

  lemma FdsLength(files: seq<D.File>, fds: seq<int>, held: multiset<nat>)
    requires D.FilesOk(files, fds, held)
    ensures |fds| == D.NPROC * D.NOFILE && |files| == D.NFILE
  {
  }

  lemma HeldFiles(files: seq<D.File>, fds: seq<int>, i: nat)
    requires D.FilesOk(files, fds, multiset{}) && i < |fds| && fds[i] != D.NONE
    ensures 0 <= fds[i] < D.NFILE && |files| == D.NFILE && files[fds[i]].ref > 0
  {
    D.SlotFile(files, fds, multiset{}, i);
  }

  lemma CwdRange(inodes: seq<Inode>, files: seq<D.File>, cwds: seq<int>, pr: nat)
    requires InodesOk(inodes, files, cwds, multiset{}) && pr < D.NPROC
    ensures |cwds| == D.NPROC && (cwds[pr] == D.NONE || 0 <= cwds[pr] < NINODE)
  {
  }

  lemma CwdLive(inodes: seq<Inode>, files: seq<D.File>, cwds: seq<int>, iheld: multiset<nat>, pr: nat)
    requires InodesOk(inodes, files, cwds, iheld) && pr < D.NPROC && cwds[pr] != D.NONE
    ensures 0 <= cwds[pr] < NINODE && inodes[cwds[pr]].ref > 0
  {
    CountSome(cwds, pr, D.Is(cwds[pr]));
  }

  lemma CwdAdded(a: seq<Inode>, b: seq<Inode>, files: seq<D.File>, cwds: seq<int>, pr: nat, p: nat)
    requires InodesOk(a, files, cwds, multiset{}) && pr < D.NPROC && cwds[pr] == D.NONE && p < NINODE && a[p].ref > 0
    requires b == a[p := a[p].(ref := a[p].ref + 1)]
    ensures InodesOk(b, files, cwds[pr := p], multiset{})
  {
    hide CountIf;
    forall f | 0 <= f < |files| ensures Fits(files[f], b) { assert Fits(files[f], a); }
    forall q: nat | q < NINODE
      ensures D.Uses(cwds[pr := p], q) == D.Uses(cwds, q) + One(q == p)
    {
      CountUpdate(cwds, pr, p, D.Is(q));
    }
  }

  lemma ReadEnd(v: View, d: Dinode, off: nat, n: nat, handlers: set<int>, io: Io, dst: seq<Byte>)
    requires ReadSpec(v, d, off, n, handlers, io, dst) && off < U64
    ensures io != Panicked && (io.Done? ==> off + io.count < U64)
  {
    hide Contents;
  }

  lemma Unused(files: seq<D.File>, fds: seq<int>, f: nat)
    requires D.FilesOk(files, fds, multiset{}) && f < D.NFILE
    ensures files[f].ref == 0 ==> files[f].typ == D.FdNone
  {
  }

  /** The descriptors of different processes, and different ones of a process, do not share a slot. */
  lemma SlotsApart(p: nat, i: nat, q: nat, j: nat)
    requires p < 64 && q < 64 && i < 16 && j < 16
    ensures Slot(p, i) < D.NPROC * D.NOFILE && (Slot(p, i) == Slot(q, j) <==> p == q && i == j)
  {
  }

  /** The modes of sys_open: 0x001 for writing only, 0x002 for both, 0x200 to create. */
  lemma OpenModes(omode: nat)
    ensures Bit(omode, 0) <==> omode % 2 == 1
    ensures Bit(omode, 1) <==> omode / 2 % 2 == 1
    ensures Bit(omode, 9) <==> omode / 0x200 % 2 == 1
  {
    var a, b, c := omode / 8, omode / 64, omode / 512;
    assert omode / 2 / 2 / 2 == a && a / 2 / 2 / 2 == b && b / 2 / 2 / 2 == c;
    EightLess(omode, 6);
    EightLess(a, 3);
    EightLess(b, 0);
  }

  lemma EightLess(x: nat, k: nat)
    ensures Bit(x, k + 3) == Bit(x / 2 / 2 / 2, k)
  {
    assert Bit(x, k + 3) == Bit(x / 2, k + 2) && Bit(x / 2, k + 2) == Bit(x / 2 / 2, k + 1);
  }

  lemma NoBits()
    ensures !Bit(0, 0) && !Bit(0, 1)
  {
    assert Bit(0, 1) == Bit(0, 0);
  }

  lemma NoComponent()
    ensures Components([SLASH]) == []
  {
    assert [SLASH][1..] == [];
  }

  /** A held reference becomes the working directory's. */
  lemma CwdTaken(a: seq<Inode>, files: seq<D.File>, cwds: seq<int>, pr: nat, p: nat)
    requires InodesOk(a, files, cwds, multiset{p}) && pr < D.NPROC && cwds[pr] == D.NONE && p < NINODE
    ensures InodesOk(a, files, cwds[pr := p], multiset{})
  {
    hide CountIf;
    forall q: nat | q < NINODE
      ensures D.Uses(cwds[pr := p], q) == D.Uses(cwds, q) + multiset{p}[q]
    {
      CountUpdate(cwds, pr, p, D.Is(q));
    }
  }

  lemma CwdDropped(a: seq<Inode>, files: seq<D.File>, cwds: seq<int>, pr: nat, p: nat)
    requires InodesOk(a, files, cwds, multiset{}) && pr < D.NPROC && cwds[pr] == p && p < NINODE
    ensures InodesOk(a, files, cwds[pr := D.NONE], multiset{p})
  {
    hide CountIf;
    forall q: nat | q < NINODE
      ensures D.Uses(cwds[pr := D.NONE], q) + multiset{p}[q] == D.Uses(cwds, q)
    {
      CountUpdate(cwds, pr, D.NONE, D.Is(q));
    }
  }

  lemma DupHolds(a: seq<Inode>, b: seq<Inode>, nodes: seq<Dinode>, p: nat)
    requires OrphansHeld(a, nodes) && p < |a| && a[p].ref > 0 && b == a[p := a[p].(ref := a[p].ref + 1)]
    ensures OrphansHeld(b, nodes) && (Locks(a, {}) ==> Locks(b, {}))
  {
    forall q | 0 <= q < |b| ensures Kept(a[q], b[q], multiset{p}[q]) {}
    HoldsOrphans(a, b, multiset{p}, nodes);
  }

  lemma MadeFacts(z: Snapshot, y: Snapshot, dpi: nat, k: nat, key: seq<Byte>, i: nat, typ: int)
    requires Made(z, y, dpi, k, key, i, typ) && NewName(z, dpi, k, key) && LinkedDisk(z)
    requires OrphansHeld(z.inodes, z.nodes)
    requires dpi < |z.nodes| && 0 < z.nodes[dpi].nlink
    ensures LinkedDisk(y) && OrphansHeld(z.inodes, y.nodes) && i < |y.nodes| && y.nodes[i].nlink == 1
    ensures y.nodes[i].typ == typ
    ensures NoNewDir(z.nodes, y.nodes)
    ensures MadeAt(z, y, typ, Some(i), SysFile.New(dpi, k, key))
  {
    hide NewName, OrphansHeld, Contents, EntriesOf, DiskOk, WholeDirs, L.Wf, L.Create, L.CanCreate, Abs;
    MadeDisk(z, y, dpi, k, key, i, typ);
    MadeOrphans(z, y, dpi, k, key, i, typ);
    CreateCounts(z, y, dpi, k, key, i, typ);
    forall j | 0 <= j < |z.nodes| && j != i && j != dpi ensures y.nodes[j] == z.nodes[j] { assert SameFile(z, y, j); }
  }

  /** unlink gives no inode a new type, but for the free one. */
  lemma CutTypes(z: Snapshot, y: Snapshot, dpi: nat, k: nat, i: nat)
    requires Shaped(z) && Shaped(y) && L.CanUnlink(Abs(z), dpi, k, i)
    requires var t := L.Unlink(Abs(z), dpi, k, i); Abs(y) == t || Abs(y) == L.Free(t, i)
    ensures NoNewDir(z.nodes, y.nodes)
  {
    hide Contents, EntriesOf;
    forall j | 0 <= j < |z.nodes| && z.nodes[j].typ != T_DIR && z.nodes[j].typ != 0 ensures y.nodes[j].typ != T_DIR {
      assert Abs(y)[j].typ == y.nodes[j].typ && Abs(z)[j].typ == z.nodes[j].typ;
    }
  }

  lemma MadeSame(z: Snapshot, y: Snapshot, y': Snapshot, typ: int, inum: Option<nat>, m: Making)
    requires MadeAt(z, y, typ, inum, m) && y'.nodes == y.nodes && y'.view == y.view
    ensures MadeAt(z, y', typ, inum, m)
  {
    hide L.Create, L.CanCreate, Abs;
    AbsSame(y, y');
  }

  /** A write to a file that is no directory changes nothing in the table of links. */
  lemma WrittenLinks(sb: SuperBlock, i: nat, z: Snapshot, y: Snapshot, off: nat, src: seq<Byte>)
    requires FileWritten(sb, i, z, y, off, src) && LinkedDisk(z) && z.nodes[i].typ != T_DIR
    ensures LinkedDisk(y) && Abs(y) == Abs(z) && NoNewDir(z.nodes, y.nodes)
    ensures forall j :: 0 <= j < |z.nodes| ==> y.nodes[j].typ == z.nodes[j].typ && y.nodes[j].nlink == z.nodes[j].nlink
  {
    hide Contents, L.Wf, EntriesOf, Overwrite, MoreSlots, SlotCount, InRange;
    WrittenOnly(sb, i, z, y, off, src);
    forall j | 0 <= j < |z.nodes|
      ensures && NodeOf(y, j) == NodeOf(z, j) && NodeOk(y, j) && y.nodes[j].typ == z.nodes[j].typ
              && y.nodes[j].nlink == z.nodes[j].nlink
    {
      assert NodeOk(z, j);
      if j != i { assert SameFile(z, y, j); }
    }
    assert Abs(y) == Abs(z);
  }

  lemma FreedOnly(sb: SuperBlock, z: Snapshot, y: Snapshot, i: nat)
    requires InodeFreed(sb, i, z, y) && Shaped(z) && Shaped(y)
    ensures OnlyNode(z, y, i)
  {
    hide Contents;
  }

  lemma OnlySame(z: Snapshot, y: Snapshot, i: nat)
    requires Shaped(z) && y.nodes == z.nodes && y.view == z.view
    ensures OnlyNode(z, y, i)
  {
    hide Contents;
  }

  /** From z on, entry p was gained and then the one of was given up: if that freed an inode, it is not p's. */
  lemma PutAway(z: Snapshot, a: seq<Inode>, x: Snapshot, y: Snapshot, p: nat, was: nat)
    requires |z.inodes| == NINODE && p < NINODE && was < NINODE && z.inodes[was].ref > 0
    requires Holds(z.inodes, a, multiset{p}) && x.inodes == a[p := a[p].(locked := false)]
    requires x.nodes == z.nodes && x.view == z.view && CacheOk(x.inodes, x.nodes)
    requires PutAs(x, y, was) && OnlyNode(x, y, x.inodes[was].inum)
    ensures |y.inodes| == NINODE && y.inodes[p].inum == a[p].inum && |y.nodes| == |z.nodes|
    ensures || (y.nodes == z.nodes && y.view == z.view)
            || (&& OnlyNode(z, y, z.inodes[was].inum) && z.nodes[z.inodes[was].inum].nlink == 0
                && a[p].inum != z.inodes[was].inum)
  {
    hide Contents, InodeFreed;
    var b := z.inodes[was].inum;
    assert Kept(z.inodes[was], a[was], multiset{p}[was]);
    assert Kept(z.inodes[p], a[p], multiset{p}[p]);
    assert EntryOk(x.inodes[was], x.nodes);
    assert p == was || p < was || was < p;
    assert x.inodes[was].inum == b;
    if !(y.nodes == z.nodes && y.view == z.view) {
      forall j | 0 <= j < |z.nodes| && j != b ensures SameFile(z, y, j) { assert SameFile(x, y, j); }
    }
  }

  lemma LinkedShaped(z: Snapshot)
    requires LinkedDisk(z)
    ensures Shaped(z)
  {
  }

  lemma CountedNode(z: Snapshot, i: nat)
    requires LinkedDisk(z) && i < |z.nodes| && z.nodes[i].typ != 0 && i > 0
    ensures z.nodes[i].nlink >= 0
  {
    hide L.Names, DiskOk, WholeDirs, Contents;
    assert L.CountsOk(Abs(z), i);
  }

  lemma HoldsCounts(a: seq<Inode>, b: seq<Inode>, files: seq<D.File>, cwds: seq<int>, h: multiset<nat>)
    requires InodesOk(a, files, cwds, multiset{}) && Holds(a, b, h) && KeepsTypes(a, b)
    requires forall p :: p in h ==> p < NINODE && p < |b| && b[p].inum > 0
    ensures InodesOk(b, files, cwds, h)
  {
    hide CountIf;
    forall p | 0 <= p < NINODE
      ensures b[p].ref == D.Opens(files, p) + D.Uses(cwds, p) + h[p] && (b[p].ref > 0 ==> b[p].inum > 0)
    {
      assert Kept(a[p], b[p], h[p]);
    }
    FitsKept(a, b, files, cwds, multiset{}, h);
  }

  /** A held reference becomes an open file's. */
  lemma OpensMore(files: seq<D.File>, f: nat, x: D.File, inodes: seq<Inode>, cwds: seq<int>, p: nat)
    requires InodesOk(inodes, files, cwds, multiset{p}) && f < |files| && files[f].typ == D.FdNone && x.ref > 0
    requires x.typ == D.FdInode && x.ip == p && p < NINODE
    requires Fits(x, inodes)
    ensures InodesOk(inodes, files[f := x], cwds, multiset{})
  {
    hide CountIf;
    forall q: nat | q < NINODE
      ensures D.Opens(files[f := x], q) == D.Opens(files, q) + multiset{p}[q]
    {
      CountUpdate(files, f, x, D.On(q));
    }
  }

  /** The held reference becomes the working directory's, and the old one is held. */
  lemma CwdSwap(a: seq<Inode>, files: seq<D.File>, cwds: seq<int>, pr: nat, p: nat)
    requires InodesOk(a, files, cwds, multiset{p}) && pr < D.NPROC && cwds[pr] != D.NONE && p < NINODE
    ensures 0 <= cwds[pr] < NINODE && InodesOk(a, files, cwds[pr := p], multiset{cwds[pr] as nat})
  {
    hide CountIf;
    forall q: nat | q < NINODE
      ensures D.Uses(cwds[pr := p], q) + multiset{cwds[pr] as nat}[q] == D.Uses(cwds, q) + multiset{p}[q]
    {
      CountUpdate(cwds, pr, p, D.Is(q));
    }
  }
}
