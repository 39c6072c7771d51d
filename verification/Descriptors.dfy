/** The open-file table of kernel/file.c and what the descriptors, pipes and working
  * directories of all processes hold, as pure counting facts.
  */
module Descriptors {

  import opened Common

  const NFILE := 100
  const NOFILE := 16
  const NPROC := 64

  const NONE := -1                     // a null pointer in a table of indices

  datatype FdType = FdNone | FdPipe | FdInode

  datatype File = File(typ: FdType, ref: nat, readable: bool, writable: bool, pipe: nat, ip: nat, off: nat)

  datatype Ends = Ends(readOpen: bool, writeOpen: bool)

  // ---- counting ---------------------------------------------------------------------

  function Is(x: int): int -> bool { (y: int) => y == x }

  /** How often x occurs in a table of indices. */
  function Uses(s: seq<int>, x: int): nat { CountIf(s, Is(x)) }

  predicate OnInode(f: File, p: nat) { f.ref > 0 && f.typ == FdInode && f.ip == p }

  function On(p: nat): File -> bool { (f: File) => OnInode(f, p) }

  /** The open files on the inode of cache entry p. */
  function Opens(files: seq<File>, p: nat): nat { CountIf(files, On(p)) }

  // ---- files and descriptors ----------------------------------------------------------------

  /** The reference count of each file is the number of descriptors that point at it, plus
    * what the kernel holds in the middle of a call; an unused file has no type. */
  ghost predicate FilesOk(files: seq<File>, fds: seq<int>, held: multiset<nat>) {
    && |files| == NFILE && |fds| == NPROC * NOFILE
    && (forall f ::
          0 <= f < NFILE ==> files[f].ref == Uses(fds, f) + held[f] && (files[f].ref == 0 ==> files[f].typ == FdNone))
    && (forall i :: 0 <= i < |fds| ==> fds[i] == NONE || 0 <= fds[i] < NFILE)
  }

  lemma SlotFile(files: seq<File>, fds: seq<int>, held: multiset<nat>, i: nat)
    requires FilesOk(files, fds, held) && i < |fds| && fds[i] != NONE
    ensures 0 <= fds[i] < NFILE && files[fds[i]].ref > 0
  {
    CountSome(fds, i, Is(fds[i]));
  }

  /** A descriptor slot is set or cleared. */
  lemma SlotSet(files: seq<File>, fds: seq<int>, held: multiset<nat>, held': multiset<nat>, i: nat, v: int)
    requires FilesOk(files, fds, held) && i < |fds| && (v == NONE || 0 <= v < NFILE)
    requires forall f: nat :: f < NFILE ==> held'[f] + One(v == f) == held[f] + One(fds[i] == f)
    ensures FilesOk(files, fds[i := v], held')
  {
    hide CountIf;
    forall f | 0 <= f < NFILE ensures files[f].ref == Uses(fds[i := v], f) + held'[f] {
      CountUpdate(fds, i, v, Is(f));
      var n: nat := f;
      assert held'[n] + One(v == n) == held[n] + One(fds[i] == n);
    }
  }

  /** A file's own fields and count change. */
  lemma FileSet(files: seq<File>, fds: seq<int>, held: multiset<nat>, held': multiset<nat>, f: nat, x: File)
    requires FilesOk(files, fds, held) && f < NFILE && x.ref + held[f] == files[f].ref + held'[f]
    requires x.ref == 0 ==> x.typ == FdNone
    requires forall g: nat :: g != f ==> held'[g] == held[g]
    ensures FilesOk(files[f := x], fds, held')
  {
    hide CountIf;
  }

  // ---- pipes ----------------------------------------------------------------------------------

  predicate OnPipe(f: File, p: nat, w: bool) { f.ref > 0 && f.typ == FdPipe && f.pipe == p && f.writable == w }

  ghost predicate EndHeld(files: seq<File>, p: nat, w: bool) { exists f :: 0 <= f < |files| && OnPipe(files[f], p, w) }

  ghost predicate Known(files: seq<File>, pipes: map<nat, Ends>) {
    forall f :: 0 <= f < |files| && files[f].ref > 0 && files[f].typ == FdPipe ==> files[f].pipe in pipes
  }

  /** One file for each end. */
  ghost predicate Solo(files: seq<File>) {
    forall f, g, p, w ::
      0 <= f < |files| && 0 <= g < |files| && OnPipe(files[f], p, w) && OnPipe(files[g], p, w) ==> f == g
  }

  ghost predicate EndsOk(files: seq<File>, pipes: map<nat, Ends>) {
    forall p :: p in pipes ==> PipeOk(files, pipes[p], p)
  }

  /** Each end of each pipe is marked open exactly while its one file is open, and a pipe with
    * no open end has no page. */
  ghost predicate PipesOk(files: seq<File>, pipes: map<nat, Ends>) {
    Known(files, pipes) && EndsOk(files, pipes) && Solo(files)
  }

  ghost predicate PipeOk(files: seq<File>, e: Ends, p: nat) {
    && (e.readOpen || e.writeOpen) && (e.readOpen <==> EndHeld(files, p, false))
    && (e.writeOpen <==> EndHeld(files, p, true))
  }

  /** Changes that leave every live pipe file as it was. */
  lemma PipesSame(files: seq<File>, files': seq<File>, pipes: map<nat, Ends>)
    requires PipesOk(files, pipes) && |files'| == |files|
    requires forall f :: 0 <= f < |files| ==> SamePipe(files[f], files'[f])
    ensures PipesOk(files', pipes)
  {
    forall f, p, w | 0 <= f < |files|
      ensures OnPipe(files'[f], p, w) == OnPipe(files[f], p, w)
    {
      assert SamePipe(files[f], files'[f]);
    }
    forall f | 0 <= f < |files'| && files'[f].ref > 0 && files'[f].typ == FdPipe
      ensures files'[f].pipe in pipes
    {
      assert SamePipe(files[f], files'[f]);
    }
    forall p | p in pipes
      ensures PipeOk(files', pipes[p], p)
    {
      SameEnds(files, files', p, false);
      SameEnds(files, files', p, true);
    }
  }

  predicate SamePipe(f: File, f': File) {
    && (f.ref > 0 && f.typ == FdPipe <==> f'.ref > 0 && f'.typ == FdPipe)
    && (f.ref > 0 && f.typ == FdPipe ==> f'.pipe == f.pipe && f'.writable == f.writable)
  }

  lemma SameEnds(files: seq<File>, files': seq<File>, p: nat, w: bool)
    requires |files'| == |files| && forall f :: 0 <= f < |files| ==> OnPipe(files'[f], p, w) == OnPipe(files[f], p, w)
    ensures EndHeld(files', p, w) == EndHeld(files, p, w)
  {
    if EndHeld(files, p, w) { var f :| 0 <= f < |files| && OnPipe(files[f], p, w); assert OnPipe(files'[f], p, w); }
    if EndHeld(files', p, w) { var f :| 0 <= f < |files| && OnPipe(files'[f], p, w); assert OnPipe(files[f], p, w); }
  }

  lemma SoloSub(files: seq<File>, x: seq<File>)
    requires Solo(files) && |x| == |files|
    requires forall g, p, w :: 0 <= g < |x| && OnPipe(x[g], p, w) ==> OnPipe(files[g], p, w)
    ensures Solo(x)
  {
  }

  /** The last reference to one end goes: that end closes, and with the second one the page. */
  lemma PipeEndGone(files: seq<File>, pipes: map<nat, Ends>, f: nat)
    requires PipesOk(files, pipes) && f < |files| && files[f].ref > 0 && files[f].typ == FdPipe
    ensures files[f].pipe in pipes
    ensures var x, p, e := files[f := files[f].(ref := 0, typ := FdNone)], files[f].pipe,
                Closed(pipes[files[f].pipe], files[f].writable);
            if e.readOpen || e.writeOpen then PipesOk(x, pipes[p := e]) else PipesOk(x, pipes - {p})
  {
    hide Solo, EndHeld;
    var p, w := files[f].pipe, files[f].writable;
    var x, e := files[f := files[f].(ref := 0, typ := FdNone)], Closed(pipes[p], w);
    SoloSub(files, x);
    assert PipeOk(files, pipes[p], p) && OnPipe(files[f], p, w);
    GoneEnds(files, f, p, w);
    forall q | q in pipes && q != p ensures PipeOk(x, pipes[q], q) {
      OtherEnds(files, f, q, false);
      OtherEnds(files, f, q, true);
    }
    forall g | 0 <= g < |x| && x[g].ref > 0 && x[g].typ == FdPipe && x[g].pipe == p
      ensures EndHeld(x, p, !w)
    {
      LeftEnd(files, f, g);
    }
  }

  lemma LeftEnd(files: seq<File>, f: nat, g: nat)
    requires Solo(files) && f < |files| && g < |files| && f != g && OnPipe(files[f], files[f].pipe, files[f].writable)
    requires files[g].ref > 0 && files[g].typ == FdPipe && files[g].pipe == files[f].pipe
    ensures EndHeld(files[f := files[f].(ref := 0, typ := FdNone)], files[f].pipe, !files[f].writable)
  {
    var p := files[f].pipe;
    assert OnPipe(files[g], p, files[g].writable);
    assert OnPipe(files[f := files[f].(ref := 0, typ := FdNone)][g], p, !files[f].writable);
  }

  function Closed(e: Ends, w: bool): Ends { if w then e.(writeOpen := false) else e.(readOpen := false) }

  lemma GoneEnds(files: seq<File>, f: nat, p: nat, w: bool)
    requires f < |files| && OnPipe(files[f], p, w) && Solo(files)
    ensures var x := files[f := files[f].(ref := 0, typ := FdNone)];
            !EndHeld(x, p, w) && (EndHeld(x, p, !w) <==> EndHeld(files, p, !w))
  {
    var x := files[f := files[f].(ref := 0, typ := FdNone)];
    forall g | 0 <= g < |x| ensures !OnPipe(x[g], p, w) { if g != f && OnPipe(files[g], p, w) { assert false; } }
    SameEnds(files, x, p, !w);
  }

  lemma OtherEnds(files: seq<File>, f: nat, q: nat, w: bool)
    requires f < |files| && files[f].ref > 0 && files[f].typ == FdPipe && files[f].pipe != q
    ensures EndHeld(files[f := files[f].(ref := 0, typ := FdNone)], q, w) == EndHeld(files, q, w)
  {
    SameEnds(files, files[f := files[f].(ref := 0, typ := FdNone)], q, w);
  }

  /** pipe_alloc: two files, one for each end of a new pipe. */
  lemma PipeMade(files: seq<File>, pipes: map<nat, Ends>, f: nat, g: nat, p: nat, x: File, y: File)
    requires PipesOk(files, pipes) && f < |files| && g < |files| && f != g && p !in pipes
    requires files[f].typ != FdPipe && files[g].typ != FdPipe && OnPipe(x, p, false) && OnPipe(y, p, true)
    ensures PipesOk(files[f := x][g := y], pipes[p := Ends(true, true)])
  {
    hide Solo, EndHeld;
    var z := files[f := x][g := y];
    assert EndHeld(z, p, false) && EndHeld(z, p, true) by { NewEnds(z, f, g, p); }
    forall q | q in pipes ensures PipeOk(z, pipes[q], q) {
      SameEnds(files, z, q, false);
      SameEnds(files, z, q, true);
      assert PipeOk(files, pipes[q], q);
    }
    SoloMade(files, pipes, f, g, p, x, y);
  }

  lemma NewEnds(z: seq<File>, f: nat, g: nat, p: nat)
    requires f < |z| && g < |z| && OnPipe(z[f], p, false) && OnPipe(z[g], p, true)
    ensures EndHeld(z, p, false) && EndHeld(z, p, true)
  {
  }

  lemma SoloMade(files: seq<File>, pipes: map<nat, Ends>, f: nat, g: nat, p: nat, x: File, y: File)
    requires Solo(files) && Known(files, pipes) && f < |files| && g < |files| && f != g && p !in pipes
    requires OnPipe(x, p, false) && OnPipe(y, p, true)
    ensures Solo(files[f := x][g := y])
  {
    var z := files[f := x][g := y];
    forall h, q, w | 0 <= h < |z| && OnPipe(z[h], q, w)
      ensures if q == p then h == (if w then g else f) else OnPipe(files[h], q, w)
    {
    }
  }
}
