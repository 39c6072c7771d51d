/** Several calls of file_read and file_write (kernel/file.c) on open files, one after the other:
  * the offset makes them one transfer.
  */
module FileRuns {
  import opened Common
  import opened Bytes
  import opened BufferCache
  import opened DiskLayout
  import opened FileData
  import opened FileSystem
  import opened LinkTable
  import opened SysFile
  import opened OpenFiles
  import D = Descriptors

  function Least(a: nat, b: nat): nat { if a < b then a else b }

  /** File f is open on an inode that is no device. */
  ghost predicate OnFile(k: Kernel, f: nat)
    reads k, k.fs, k.fs.cache
  {
    && k.Valid() && f < D.NFILE && |k.files| == D.NFILE && k.files[f].ref > 0 && k.files[f].typ == D.FdInode
    && k.files[f].ip < |k.fs.inodes| && k.fs.inodes[k.files[f].ip].d.typ != T_DEV
  }

  lemma OnFileNode(k: Kernel, f: nat)
    requires OnFile(k, f)
    ensures var e := k.fs.inodes[k.files[f].ip];
            && e.inum < |k.fs.nodes| && e.d == k.fs.nodes[e.inum] && |e.d.addrs| == NDIRECT + 1
            && |Contents(k.fs.cache.view, e.d)| == e.d.size
  {
    hide Kernel.Inv, Contents, Fs.Valid;
    k.FileEntry(f);
    assert k.fs.Valid() by { ValidFs(k); }
    ValidShaped(k.fs);
  }

  lemma ValidFs(k: Kernel)
    requires k.Valid()
    ensures k.fs.Valid() && LinkedDisk(k.fs.Snap())
  {
    hide Fs.Valid, LinkedDisk, D.FilesOk, D.PipesOk, InodesOk, PagesOk;
  }

  lemma ReadOne(v: View, d: Dinode, off: nat, n: nat, io: Io, dst: seq<Byte>)
    requires ReadSpec(v, d, off, n, {}, io, dst) && d.typ != T_DEV && off <= d.size && off + n < U64
    requires |d.addrs| == NDIRECT + 1 && |Contents(v, d)| == d.size
    ensures |dst| == Least(n, d.size - off) && io == Done(|dst|) && dst == Contents(v, d)[off..off + |dst|]
  {
    hide Contents;
  }

  /** The bytes a are what the file has from off on, n of them or as many as there are. */
  ghost predicate Gives(v: View, d: Dinode, off: nat, n: nat, a: seq<Byte>) {
    && |d.addrs| == NDIRECT + 1 && off <= d.size == |Contents(v, d)|
    && |a| == Least(n, d.size - off) && a == Contents(v, d)[off..off + |a|]
  }

  /** One read: what it returns, and where it leaves the file. */
  method ReadSome(k: Kernel, f: nat, n: nat) returns (a: seq<Byte>)
    requires OnFile(k, f) && k.files[f].readable
    requires k.files[f].off <= k.fs.inodes[k.files[f].ip].d.size && k.files[f].off + n < U64
    modifies k`files, k.fs, k.fs.cache
    ensures OnFile(k, f) && k.fs.Snap() == old(k.fs.Snap())
    ensures k.files[f] == old(k.files)[f].(off := old(k.files)[f].off + |a|)
    ensures Gives(k.fs.cache.view, k.fs.inodes[k.files[f].ip].d, old(k.files)[f].off, n, a)
  {
    hide Kernel.Valid, Contents, ReadSpec;
    OnFileNode(k, f);
    ghost var off, v, d := k.files[f].off, k.fs.cache.view, k.fs.inodes[k.files[f].ip].d;
    var r;
    r, a := k.FileRead(f, n, {}, 0);
    ReadOne(v, d, off, n, r.io, a);
  }

  /** Two reads of n and m bytes give, one after the other, what one read of n + m bytes gives. */
  method ReadTwice(k: Kernel, f: nat, n: nat, m: nat) returns (a: seq<Byte>, b: seq<Byte>)
    requires OnFile(k, f) && k.files[f].readable
    requires k.files[f].off <= k.fs.inodes[k.files[f].ip].d.size && k.files[f].off + n + m < U64
    modifies k`files, k.fs, k.fs.cache
    ensures k.Valid() && k.fs.Snap() == old(k.fs.Snap())
    ensures var x := old(k.files)[f];
            var d := old(k.fs.inodes)[x.ip].d;
            && |d.addrs| == NDIRECT + 1 && x.off <= Least(x.off + n + m, d.size) <= |Contents(k.fs.cache.view, d)|
            && a + b == Contents(k.fs.cache.view, d)[x.off..Least(x.off + n + m, d.size)]
            && |a| == Least(n, d.size - x.off) && |k.files| == D.NFILE && k.files[f].off == x.off + |a + b|
  {
    hide Kernel.Valid, Contents;
    ghost var off := k.files[f].off;
    a := ReadSome(k, f, n);
    b := ReadSome(k, f, m);
    Fs.NextSlice(Contents(k.fs.cache.view, k.fs.inodes[k.files[f].ip].d), off, off + |a|, |b|);
  }

  // ---- writing --------------------------------------------------------------------------------

  lemma OverwriteTwice(c: seq<Byte>, off: nat, s: seq<Byte>, t: seq<Byte>)
    requires off <= |c|
    ensures off + |s| <= |Overwrite(c, off, s)|
    ensures Overwrite(Overwrite(c, off, s), off + |s|, t) == Overwrite(c, off, s + t)
  {
  }

  /** Two writes, the second where the first ended, are one write. */
  lemma WrittenTwice(sb: SuperBlock, i: nat, z: Snapshot, x: Snapshot, y: Snapshot, off: nat, s: seq<Byte>,
        t: seq<Byte>)
    requires FileWritten(sb, i, z, x, off, s) && FileWritten(sb, i, x, y, off + |s|, t)
    requires |Contents(z.view, z.nodes[i])| == z.nodes[i].size
    ensures FileWritten(sb, i, z, y, off, s + t)
  {
    hide Contents, Overwrite;
    OverwriteTwice(Contents(z.view, z.nodes[i]), off, s, t);
  }

  /** Two writes of s and t leave the disk as one write of both leaves it. */
  method WriteTwice(k: Kernel, f: nat, s: seq<Byte>, t: seq<Byte>) returns (r1: FileIo, r2: FileIo)
    requires OnFile(k, f) && k.files[f].writable && |s| < U64 && |t| < U64
    modifies k`files, k.fs, k.fs.cache
    ensures r1 == Moved(Done(|s|)) && r2 == Moved(Done(|t|)) ==>
              var x := old(k.files)[f];
              && k.Valid() && |k.files| == D.NFILE && k.files[f].off == x.off + |s + t|
              && FileWritten(k.fs.sb, old(k.fs.inodes)[x.ip].inum, old(k.fs.Snap()), k.fs.Snap(), x.off, s + t)
  {
    hide Kernel.Valid, Contents, FileWritten, MoreSlots, SlotCount, Capacity;
    OnFileNode(k, f);
    r2 := Refused;
    r1 := k.FileWrite(f, s, {}, 0);
    if r1 != Moved(Done(|s|)) { return; }
    ghost var z, x, i := old(k.fs.Snap()), k.fs.Snap(), k.fs.inodes[k.files[f].ip].inum;
    r2 := k.FileWrite(f, t, {}, 0);
    if r2 == Moved(Done(|t|)) {
      WrittenTwice(k.fs.sb, i, z, x, k.fs.Snap(), old(k.files)[f].off, s, t);
    }
  }

  /** What was written through one open file is read through another at the same place. */
  method WriteRead(k: Kernel, f: nat, g: nat, s: seq<Byte>) returns (r: FileIo, dst: seq<Byte>)
    requires OnFile(k, f) && OnFile(k, g) && f != g && k.files[f].writable && k.files[g].readable && |s| < U64
    requires k.files[g].ip == k.files[f].ip && k.files[g].off == k.files[f].off
    modifies k`files, k.fs, k.fs.cache
    ensures r == Moved(Done(|s|)) ==> k.Valid() && dst == s
  {
    hide Kernel.Valid, Contents, MoreSlots, SlotCount, Capacity;
    OnFileNode(k, f);
    dst := [];
    r := k.FileWrite(f, s, {}, 0);
    if r != Moved(Done(|s|)) { return; }
    k.FileEntry(g);
    OnFileNode(k, g);
    var q;
    q, dst := k.FileRead(g, |s|, {}, 0);
  }
}
