/** kernel/exec.c on any file: the headers it reads, the address space it builds from them, and
  * the argument stack on top.
  */
module ExecImage {
  import opened Common
  import opened Bytes
  import opened Elf
  import opened PageTables
  import opened Mappings
  import opened Teardown
  import opened Image
  import opened AddressSpaces
  import opened UserBytes
  import opened ArgStack

  // ---- building ------------------------------------------------------------------------------

  /** n pages were added to the new space, from page 1 on. */
  ghost predicate Pages(m1: Memory, m': Memory, root: nat, n: nat) {
    exists want :: |want| == n && Populated(m1, m', root, 1, want, 0)
  }

  /** What holds between the segments: from m a space root was made, holding user pages from
    * page 1 up to the size. */
  ghost predicate Building(m: Memory, m1: Memory, m': Memory, root: nat, sz: nat) {
    && Rooted(m, m1, root) && Pos(root, 0, 0) in m'.tabs && 4096 <= sz <= USER_TOP
    && Pages(m1, m', root, PagesUp(sz) - 1) && ImageOf(m', root, sz) && AllSeven(m', root, sz)
  }

  ghost predicate AllSeven(m: Memory, root: nat, sz: nat) {
    forall v: nat :: 1 <= v < PagesUp(sz) ==> Flags(Lookup(m, root, v)) == 7
  }

  /** A failed build: the space can be freed with any size. */
  ghost predicate Abandoned(m: Memory, m1: Memory, m': Memory, root: nat) {
    Rooted(m, m1, root) && Pos(root, 0, 0) in m'.tabs && exists n: nat :: Pages(m1, m', root, n)
  }

  lemma BuildingAbandoned(m: Memory, m1: Memory, m': Memory, root: nat, sz: nat)
    requires Building(m, m1, m', root, sz)
    ensures Abandoned(m, m1, m', root)
  {
    hide Pages, Rooted, ImageOf, AllSeven;
    var n: nat := PagesUp(sz) - 1;
    assert Pages(m1, m', root, n);
  }

  /** The bytes from page 1 to the size are those of the segments. */
  ghost predicate BytesOf(m: Memory, root: nat, sz: nat, hs: seq<Option<ProgHeader>>, file: seq<Byte>) {
    forall a: nat :: 4096 <= a < PagesUp(sz) * 4096 ==> ByteAt(m, root, a) == SegByte(hs, file, a)
  }

  lemma PopulatedTwice(m1: Memory, m2: Memory, m3: Memory, r: nat, w1: seq<Content>, w2: seq<Content>)
    requires Populated(m1, m2, r, 1, w1, 0) && Populated(m2, m3, r, 1 + |w1|, w2, 0)
    ensures Populated(m1, m3, r, 1, w1 + w2, 0)
  {
    hide Lookup, Target, Flags, Present, HoldsPage;
    forall j | 0 <= j < |w1 + w2| ensures HoldsPage(m1, m3, r, 1 + j, (w1 + w2)[j]) {
      if j < |w1| { HoldsOn(m1, m2, m3, r, w1, w2, j); } else { HoldsNew(m1, m2, m3, r, w1, w2, j - |w1|); }
    }
  }

  lemma HoldsOn(m1: Memory, m2: Memory, m3: Memory, r: nat, w1: seq<Content>, w2: seq<Content>, j: nat)
    requires Populated(m1, m2, r, 1, w1, 0) && Populated(m2, m3, r, 1 + |w1|, w2, 0) && j < |w1|
    ensures HoldsPage(m1, m3, r, 1 + j, w1[j])
  {
    hide Lookup, Target, Flags, Present;
    assert HoldsPage(m1, m2, r, 1 + j, w1[j]);
    assert Lookup(m3, r, 1 + j) == Lookup(m2, r, 1 + j);
  }

  lemma HoldsNew(m1: Memory, m2: Memory, m3: Memory, r: nat, w1: seq<Content>, w2: seq<Content>, j: nat)
    requires Populated(m1, m2, r, 1, w1, 0) && Populated(m2, m3, r, 1 + |w1|, w2, 0) && j < |w2|
    ensures HoldsPage(m1, m3, r, 1 + |w1| + j, w2[j])
  {
    hide Lookup, Target, Flags, Present;
    assert HoldsPage(m2, m3, r, 1 + |w1| + j, w2[j]);
  }

  /** What is mapped at page v. */
  function ContentOf(m: Memory, r: nat, v: nat): Content {
    var e := Lookup(m, r, v);
    Content(Flags(e), if Target(e) in m.mem then m.mem[Target(e)] else Filled(0))
  }

  /** A space whose frames hold other bytes, or with another flag on a page. */
  lemma PagesAgain(m1: Memory, m: Memory, m': Memory, root: nat, n: nat)
    requires Pages(m1, m, root, n) && m'.role == m.role && m'.tabs == m.tabs && m'.kernel == m.kernel
    requires forall f :: f in m1.role && Plain(m1.role[f]) && f in m1.mem ==> f in m'.mem && m'.mem[f] == m1.mem[f]
    requires forall r: nat, v: nat ::
               || Lookup(m', r, v) == Lookup(m, r, v)
               || (&& r == root && 1 <= v < 1 + n && Present(Lookup(m', r, v))
                   && Target(Lookup(m', r, v)) == Target(Lookup(m, r, v)))
    requires forall f :: f in m.mem ==> f in m'.mem
    ensures Pages(m1, m', root, n)
  {
    hide Lookup, Target, Flags, Present;
    var want :| |want| == n && Populated(m1, m, root, 1, want, 0);
    var want' := seq(n, j requires 0 <= j => ContentOf(m', root, 1 + j));
    forall j | 0 <= j < n
      ensures HoldsPage(m1, m', root, 1 + j, want'[j])
    {
      assert HoldsPage(m1, m, root, 1 + j, want[j]);
    }
    forall r: nat, v: nat ensures (r == root && 1 <= v < 1 + n) || Lookup(m', r, v) == Lookup(m1, r, v) {
      assert (r == root && 1 <= v < 1 + n) || Lookup(m, r, v) == Lookup(m1, r, v);
    }
    assert Populated(m1, m', root, 1, want', 0);
  }

  /** No frame belonged to the new space before. */
  lemma NoneOf(m: Memory, m1: Memory, root: nat)
    requires Owned(m) && Rooted(m, m1, root)
    ensures forall f :: f in m1.role ==> !OfSpace(m1, root, f)
  {
    hide Target, Flags;
    forall f | f in m1.role ensures !OfSpace(m1, root, f) {
      assert f in m.role ==> LeafBack(m, f);
    }
  }

  lemma PagesFrame(m1: Memory, m: Memory, m': Memory, root: nat, n: nat)
    requires Pages(m1, m, root, n) && (forall f :: f in m1.role ==> !OfSpace(m1, root, f))
    requires m'.role == m.role
    requires forall f ::
               f in m.mem ==>
                 f in m'.mem && (OfSpace(m, root, f) || (f in m.role && m.role[f].Table?) || m'.mem[f] == m.mem[f])
    ensures forall f :: f in m1.role && Plain(m1.role[f]) && f in m1.mem ==> f in m'.mem && m'.mem[f] == m1.mem[f]
  {
    hide Lookup, HoldsPage;
    var want :| |want| == n && Populated(m1, m, root, 1, want, 0);
  }

  /** Bytes written into the space leave it as built. */
  lemma WroteBuilding(m: Memory, m1: Memory, m2: Memory, m3: Memory, root: nat, sz: nat, va: nat, data: seq<Byte>)
    requires Owned(m) && Building(m, m1, m2, root, sz) && Wrote(m2, m3, root, va, data)
    ensures Building(m, m1, m3, root, sz)
  {
    hide Rooted, Lookup, Pages, ByteAt, Flags, Target;
    NoneOf(m, m1, root);
    PagesFrame(m1, m2, m3, root, PagesUp(sz) - 1);
    PagesAgain(m1, m2, m3, root, PagesUp(sz) - 1);
    ImageSame(m2, m3, root, sz);
    forall v: nat | 1 <= v < PagesUp(sz)
      ensures Flags(Lookup(m3, root, v)) == 7
    {
      assert Lookup(m3, root, v) == Lookup(m2, root, v);
    }
  }

  lemma SevenMore(m2: Memory, m3: Memory, root: nat, sz: nat, newSz: nat)
    requires AllSeven(m2, root, sz) && 0 < sz <= newSz
    requires Populated(m2, m3, root, PagesUp(sz), ZeroPages(PagesUp(newSz) - PagesUp(sz)), 0)
    ensures AllSeven(m3, root, newSz)
  {
    hide Lookup, Target, Flags, Present, Filled;
    var k := PagesUp(newSz) - PagesUp(sz);
    forall v: nat | 1 <= v < PagesUp(newSz) ensures Flags(Lookup(m3, root, v)) == 7 {
      if v >= PagesUp(sz) {
        var j := v - PagesUp(sz);
        assert ZeroPages(k)[j] == Content(7, Filled(0));
        assert HoldsPage(m2, m3, root, PagesUp(sz) + j, ZeroPages(k)[j]);
      } else {
        assert Lookup(m3, root, v) == Lookup(m2, root, v);
      }
    }
  }

  lemma BuildMore(m: Memory, m1: Memory, m2: Memory, m3: Memory, root: nat, sz: nat, newSz: nat)
    requires Building(m, m1, m2, root, sz) && sz <= newSz < USER_TOP
    requires Populated(m2, m3, root, PagesUp(sz), ZeroPages(PagesUp(newSz) - PagesUp(sz)), 0)
    ensures Building(m, m1, m3, root, newSz)
  {
    hide Rooted, Lookup, Populated, ZeroPages, ImageOf, AllSeven;
    var k := PagesUp(newSz) - PagesUp(sz);
    assert |ZeroPages(k)| == k by { ZeroPagesLength(k); }
    var want :| |want| == PagesUp(sz) - 1 && Populated(m1, m2, root, 1, want, 0);
    PopulatedTwice(m1, m2, m3, root, want, ZeroPages(k));
    assert |want + ZeroPages(k)| == PagesUp(newSz) - 1;
    ImageGrow(m2, m3, root, sz, newSz, ZeroPages(k));
    SevenMore(m2, m3, root, sz, newSz);
    assert Pos(root, 0, 0) in m3.tabs by { PopulatedTabs(m2, m3, root, PagesUp(sz), ZeroPages(k)); }
  }

  lemma PopulatedTabs(m: Memory, m': Memory, root: nat, lo: nat, want: seq<Content>)
    requires Populated(m, m', root, lo, want, 0) && Pos(root, 0, 0) in m.tabs
    ensures Pos(root, 0, 0) in m'.tabs
  {
  }

  lemma ZeroPagesLength(n: nat)
    ensures |ZeroPages(n)| == n
  {
  }

  lemma NewByteZero(m2: Memory, m3: Memory, root: nat, lo: nat, k: nat, a: nat)
    requires Populated(m2, m3, root, lo, ZeroPages(k), 0) && lo <= a / 4096 < lo + k
    ensures ByteAt(m3, root, a) == 0
  {
    hide Lookup, Target, Flags, Filled, PageByte, Present;
    var j := a / 4096 - lo;
    assert ZeroPages(k)[j] == Content(7, Filled(0));
    assert HoldsPage(m2, m3, root, lo + j, ZeroPages(k)[j]);
    ZeroByte(a % 4096);
  }

  lemma OldByteStays(m2: Memory, m3: Memory, root: nat, lo: nat, want: seq<Content>, a: nat)
    requires RolesOk(m2) && Owned(m2) && Present(Lookup(m2, root, a / 4096)) && a / 4096 < lo
    requires Populated(m2, m3, root, lo, want, 0)
    ensures ByteAt(m3, root, a) == ByteAt(m2, root, a)
  {
    hide Lookup, Target, PageByte, HoldsPage;
    assert LeafAt(m2, root, a / 4096);
  }

  /** New pages are zero, and the old ones keep their bytes. */
  lemma BytesMore(m2: Memory, m3: Memory, root: nat, sz: nat, newSz: nat, hs: seq<Option<ProgHeader>>, file: seq<Byte>)
    requires RolesOk(m2) && Owned(m2) && ImageOf(m2, root, sz) && BytesOf(m2, root, sz, hs, file)
    requires Top(hs) <= sz <= newSz
    requires AllLoadable(file, hs)
    requires Populated(m2, m3, root, PagesUp(sz), ZeroPages(PagesUp(newSz) - PagesUp(sz)), 0)
    ensures BytesOf(m3, root, newSz, hs, file)
  {
    hide Lookup, ByteAt, SegByte, Loadable, Populated, ZeroPages, RolesOk, Owned, Top;
    var k := PagesUp(newSz) - PagesUp(sz);
    forall a: nat | 4096 <= a < PagesUp(newSz) * 4096 ensures ByteAt(m3, root, a) == SegByte(hs, file, a) {
      if a / 4096 >= PagesUp(sz) {
        NewByteZero(m2, m3, root, PagesUp(sz), k, a);
        PastTop(hs, file, a);
      } else {
        OldByteStays(m2, m3, root, PagesUp(sz), ZeroPages(k), a);
      }
    }
  }

  lemma BuildStuck(m: Memory, m1: Memory, m2: Memory, m3: Memory, root: nat, sz: nat)
    requires Building(m, m1, m2, root, sz) && Owned(m2) && Grown(m2, m3, root) && SameEntries(m2, m3)
    ensures Abandoned(m, m1, m3, root)
  {
    hide Populated, Rooted, ImageOf, Lookup, Owned, SameEntries, AllSeven;
    var want :| |want| == PagesUp(sz) - 1 && Populated(m1, m2, root, 1, want, 0);
    PopulatedGrow(m1, m2, m3, root, 1, want, 0);
    var n: nat := PagesUp(sz) - 1;
    assert Pages(m1, m3, root, n);
  }

  /** alloc_uvm on the image: never a panic; 0 if memory ran out. */
  method GrowImage(vm: Vm, root: nat, sz: nat, newSz: nat, ghost m: Memory, ghost m1: Memory,
        ghost hs: seq<Option<ProgHeader>>, ghost file: seq<Byte>)
    returns (sz': nat)
    requires vm.Valid() && Owned(vm.M()) && Building(m, m1, vm.M(), root, sz) && BytesOf(vm.M(), root, sz, hs, file)
    requires Top(hs) <= sz && AllLoadable(file, hs)
    modifies vm
    ensures vm.Valid() && Owned(vm.M())
    ensures if sz' == 0 then Abandoned(m, m1, vm.M(), root)
            else Building(m, m1, vm.M(), root, sz') && sz' == if newSz < sz then sz else newSz
    ensures sz' != 0 ==> BytesOf(vm.M(), root, sz', hs, file)
    ensures sz' == 0 ==> newSz >= sz && (newSz >= USER_TOP || |old(vm.free)| <= 4 * (PagesUp(newSz) - PagesUp(sz)))
    ensures sz' != 0 ==> |vm.free| + 4 * (PagesUp(sz') - PagesUp(sz)) >= |old(vm.free)|
  {
    hide TreeOk, Chained, Owned, Populated, Rooted, Lookup, Unmapped, ZeroPages, Filled, Grown, SameEntries, Abandoned,
         Pages, AllSeven, BytesOf, Loadable;
    ghost var m2 := vm.M();
    ImageAbove(m2, root, sz, newSz);
    GrownRefl(m2, root);
    vm.ValidTree();
    TreeParts(m2);
    hide ImageOf;
    var res := vm.AllocUvm(root, sz, newSz);
    assert res != Panic;
    sz' := res.value;
    if sz' == 0 { BuildStuck(m, m1, m2, vm.M(), root, sz); }
    else if sz <= newSz {
      BuildMore(m, m1, m2, vm.M(), root, sz, newSz);
      BytesMore(m2, vm.M(), root, sz, newSz, hs, file);
    }
  }

  // ---- load_uvm --------------------------------------------------------------------------------

  /** The bytes that readi gives for n bytes at off: fewer at the end of the file. */
  function ReadAt(file: seq<Byte>, off: nat, n: nat): (s: seq<Byte>)
    ensures |s| <= n && (n > 0 ==> (|s| == n <==> off + n <= |file|))
  {
    if off > |file| then [] else if off + n > |file| then file[off..] else file[off..off + n]
  }

  /** load_uvm: every page is there, so no panic; the bytes of the file are put where they
    * belong if and only if the file has them. */
  method LoadUvm(vm: Vm, r: nat, va: nat, file: seq<Byte>, offset: nat, n: nat, ghost total: nat)
    returns (res: Prompt<bool>, ghost data: seq<Byte>)
    requires vm.Valid() && Owned(vm.M()) && Pos(r, 0, 0) in vm.tabs && ImageOf(vm.M(), r, total)
    requires 4096 <= va && va % 4096 == 0 && va + n <= total <= USER_TOP
    modifies vm
    ensures vm.Valid() && Owned(vm.M()) && Wrote(old(vm.M()), vm.M(), r, va, data)
    ensures res == Ok(n == 0 || offset + n <= |file|)
    ensures res == Ok(true) ==> |data| == n && (n > 0 ==> data == file[offset..offset + n])
  {
    hide TreeOk, Chained, Owned, Lookup, Wrote, ImageOf;
    ghost var m := vm.M();
    WroteNone(m, r, va);
    data := [];
    var i := 0;
    while i < n
      invariant i % 4096 == 0 && vm.Valid() && Owned(vm.M()) && vm.tabs == m.tabs && Wrote(m, vm.M(), r, va, data)
      invariant |data| == if i < n then i else n
      invariant i > 0 ==> offset + |data| <= |file| && data == file[offset..offset + |data|]
    {
      var v := (va + i) / 4096;
      assert 1 <= v < PagesUp(total);
      ImageHas(m, vm.M(), r, va, data, total, v);
      var e := FrameOf(vm, r, v);
      var many := if n - i < 4096 then n - i else 4096;
      var got := ReadAt(file, offset + i, many);
      ghost var m2 := vm.M();
      StoreBytes(vm, Target(e), 0, got, r, v);
      assert v * 4096 == va + i;
      WroteMore(m, m2, vm.M(), r, va, data, got);
      WroteTabs(m2, vm.M(), r, va + i, got);
      data := data + got;
      if |got| != many { return Ok(false), data; }
      i := i + 4096;
    }
    res := Ok(true);
  }

  lemma ImageHas(m: Memory, m': Memory, r: nat, va: nat, data: seq<Byte>, total: nat, v: nat)
    requires ImageOf(m, r, total) && Wrote(m, m', r, va, data) && 1 <= v < PagesUp(total)
    ensures Present(Lookup(m', r, v))
  {
    hide Lookup, ByteAt;
    assert Lookup(m', r, v) == Lookup(m, r, v);
  }

  /** The bytes after a segment was loaded. */
  lemma BytesLoaded(m2: Memory, m3: Memory, root: nat, sz: nat, hs: seq<Option<ProgHeader>>, file: seq<Byte>,
        h: Option<ProgHeader>, data: seq<Byte>)
    requires BytesOf(m2, root, sz, hs, file) && Loads(h) && Loadable(file, h)
    requires Wrote(m2, m3, root, h.value.vaddr, data)
    requires |data| == h.value.fileSz && (|data| > 0 ==> data == file[h.value.offset..h.value.offset + h.value.fileSz])
    ensures BytesOf(m3, root, sz, hs + [h], file)
  {
    hide ByteAt;
    assert (hs + [h])[..|hs|] == hs;
    forall a: nat | 4096 <= a < PagesUp(sz) * 4096 ensures ByteAt(m3, root, a) == SegByte(hs + [h], file, a) {
      assert ByteAt(m3, root, a) == NewAt(m2, root, h.value.vaddr, data, root, a);
    }
  }

  lemma BytesSkipped(m: Memory, root: nat, sz: nat, hs: seq<Option<ProgHeader>>, file: seq<Byte>, h: Option<ProgHeader>)
    requires BytesOf(m, root, sz, hs, file) && !Loads(h)
    ensures BytesOf(m, root, sz, hs + [h], file)
  {
    hide ByteAt;
    assert (hs + [h])[..|hs|] == hs;
  }

  /** One program header. */
  method AddSegment(vm: Vm, root: nat, sz: nat, h: Option<ProgHeader>, file: seq<Byte>, ghost m: Memory,
        ghost m1: Memory,
        ghost hs: seq<Option<ProgHeader>>)
    returns (ok: bool, sz': nat)
    requires vm.Valid() && Owned(m) && Owned(vm.M()) && Building(m, m1, vm.M(), root, sz)
    requires BytesOf(vm.M(), root, sz, hs, file)
    requires Top(hs) <= sz && AllLoadable(file, hs)
    requires h.Some? ==> h.value.vaddr < U64 && h.value.memSz < U64
    modifies vm
    ensures vm.Valid() && Owned(vm.M()) && sz' <= USER_TOP
    ensures if ok then
              Building(m, m1, vm.M(), root, sz') && BytesOf(vm.M(), root, sz', hs + [h], file)
            else Abandoned(m, m1, vm.M(), root)
    ensures ok ==>
              && Loadable(file, h) && sz' == Extended(sz, h)
              && |vm.free| + 4 * (PagesUp(sz') - PagesUp(sz)) >= |old(vm.free)|
    ensures !ok ==>
              || !Loadable(file, h) || Extended(sz, h) >= USER_TOP
              || |old(vm.free)| <= 4 * (PagesUp(Extended(sz, h)) - PagesUp(sz))
  {
    hide TreeOk, Chained, Owned, Rooted, Lookup, ImageOf, Abandoned, Pages, AllSeven, BytesOf, Wrote;
    sz' := sz;
    BuildingAbandoned(m, m1, vm.M(), root, sz);
    if h == None { return false, sz; }
    var s := h.value;
    if s.typ != PT_LOAD {
      BytesSkipped(vm.M(), root, sz, hs, file, h);
      return true, sz;
    }
    if s.memSz < s.fileSz { return false, sz; }
    WrapIff(s.vaddr, s.memSz);
    if (s.vaddr + s.memSz) % U64 < s.vaddr { return false, sz; }
    sz' := GrowImage(vm, root, sz, (s.vaddr + s.memSz) % U64, m, m1, hs, file);
    if sz' == 0 { return false, 0; }
    ghost var m2 := vm.M();
    BuildingAbandoned(m, m1, m2, root, sz');
    if s.vaddr < 4096 { return false, sz'; }
    if s.vaddr % 4096 != 0 { return false, sz'; }
    ghost var data;
    var res;
    res, data := LoadUvm(vm, root, s.vaddr, file, s.offset, s.fileSz, sz');
    WroteBuilding(m, m1, m2, vm.M(), root, sz', s.vaddr, data);
    BuildingAbandoned(m, m1, vm.M(), root, sz');
    WroteTabs(m2, vm.M(), root, s.vaddr, data);
    assert vm.free == m2.free by { WroteFree(m2, vm.M(), root, s.vaddr, data); }
    if res != Ok(true) { return false, sz'; }
    BytesLoaded(m2, vm.M(), root, sz', hs, file, h, data);
    ok := true;
  }

  lemma WroteFree(m: Memory, m': Memory, r: nat, va: nat, data: seq<Byte>)
    requires Wrote(m, m', r, va, data)
    ensures m'.free == m.free
  {
  }

  lemma WrapIff(a: nat, b: nat)
    requires a < U64 && b < U64
    ensures (a + b) % U64 < a <==> a + b >= U64
    ensures a + b < U64 ==> (a + b) % U64 == a + b
  {
  }

  // ---- the guard page ----------------------------------------------------------------------------

  /** The exit at bad: no other space is touched, whatever size free_vm is given. */
  method Discard(vm: Vm, root: nat, sz: nat, ghost m: Memory, ghost m1: Memory)
    requires vm.Valid() && Owned(vm.M()) && TreeOk(m) && Owned(m) && Abandoned(m, m1, vm.M(), root) && sz <= USER_TOP
    modifies vm
    ensures vm.Valid() && Owned(vm.M()) && OnlyLoss(m, vm.M())
  {
    hide TreeOk, Chained, Owned, Populated, Rooted, Lookup, Freed, OnlyLoss;
    ghost var m2 := vm.M();
    ghost var n: nat :| Pages(m1, m2, root, n);
    ghost var want :| |want| == n && Populated(m1, m2, root, 1, want, 0);
    FramesPositive(m);
    assert root in m.role by { RootedFrame(m, m1, root); }
    var _ := vm.FreeVm(root, sz);
    TabsBack(m, m1, m2, vm.M(), root, want, PagesUp(sz));
    TreeParts(m);
    FailedBy(m, m1, m2, vm.M(), root, want, PagesUp(sz));
  }

  lemma RootedFrame(m: Memory, m1: Memory, root: nat)
    requires Rooted(m, m1, root)
    ensures root in m.role && m.role[root] == Free
  {
  }

  /** The image that exec hands over: every page from 1 to the size, present and writable, and for
    * the user all but the guard page under the last; nothing else in use changed. */
  ghost predicate ExecBuilt(m: Memory, m': Memory, root: nat, sz: nat) {
    && root in m.role && m.role[root] == Free && Pos(root, 0, 0) in m'.tabs
    && 3 * 4096 <= sz <= USER_TOP && sz % 4096 == 0 && ImageOf(m', root, sz)
    && (forall v: nat :: 1 <= v < sz / 4096 ==> (UserBit(Lookup(m', root, v)) <==> v != sz / 4096 - 2))
    && (forall v: nat :: 1 <= v < sz / 4096 ==> Flags(Lookup(m', root, v)) == if v == sz / 4096 - 2 then 3 else 7)
    && (forall r: nat, v: nat :: r != root ==> Lookup(m', r, v) == Lookup(m, r, v))
    && (forall f :: f in m.role && m.role[f] != Free ==> f in m'.role && m'.role[f] == m.role[f])
    && (forall f :: f in m.role && Plain(m.role[f]) && f in m.mem ==> f in m'.mem && m'.mem[f] == m.mem[f])
  }

  lemma SevenIsUser(e: nat)
    requires Flags(e) == 7
    ensures UserBit(e) && Present(e) && Present(e - 4) && !UserBit(e - 4) && Target(e - 4) == Target(e) && e >= 4
    ensures Flags(e - 4) == 3
  {
    var f := e / 4096;
    assert e == f * 4096 + 7;
    SplitWord(f, 7);
    SplitWord(f, 3);
    UserParts(f);
  }

  lemma UserParts(f: nat)
    ensures UserBit(f * 4096 + 7) && !UserBit(f * 4096 + 3)
  {
    assert (f * 4096 + 7) / 4 == 2 * (512 * f) + 1 && (f * 4096 + 3) / 4 == 2 * (512 * f);
    Parity(512 * f, 1);
    Parity(512 * f, 0);
  }

  lemma ClearedOwned(m: Memory, m': Memory, r: nat, v: nat)
    requires Owned(m) && m'.role == m.role && Present(Lookup(m, r, v)) && Present(Lookup(m', r, v))
    requires Target(Lookup(m', r, v)) == Target(Lookup(m, r, v))
    requires forall r': nat, u: nat :: (r', u) != (r, v) ==> Lookup(m', r', u) == Lookup(m, r', u)
    ensures Owned(m')
  {
    hide Lookup, Target;
    forall r': nat, u: nat ensures LeafAt(m', r', u) { assert LeafAt(m, r', u); }
    forall f | f in m'.role ensures LeafBack(m', f) { assert LeafBack(m, f); }
  }

  lemma BuiltBy(m: Memory, m1: Memory, m2: Memory, m3: Memory, root: nat, sz: nat)
    requires Building(m, m1, m2, root, sz) && sz % 4096 == 0 && 3 * 4096 <= sz
    requires m3.role == m2.role && m3.tabs == m2.tabs
    requires forall f :: f in m2.role && Plain(m2.role[f]) && f in m2.mem ==> f in m3.mem && m3.mem[f] == m2.mem[f]
    requires forall r: nat, u: nat ::
               Lookup(m3, r, u) == if r == root && u == sz / 4096 - 2 then Lookup(m2, root, u) - 4 else Lookup(m2, r, u)
    ensures ExecBuilt(m, m3, root, sz)
  {
    hide Lookup, Target, Flags, UserBit, HoldsPage, Present;
    var n := sz / 4096;
    assert PagesUp(sz) == n;
    var want :| |want| == n - 1 && Populated(m1, m2, root, 1, want, 0);
    forall v: nat | 1 <= v < n
      ensures (UserBit(Lookup(m3, root, v)) <==> v != n - 2) && Present(Lookup(m3, root, v))
      ensures Flags(Lookup(m3, root, v)) == if v == n - 2 then 3 else 7
    {
      SevenIsUser(Lookup(m2, root, v));
    }
    forall v: nat
      ensures Present(Lookup(m3, root, v)) <==> 1 <= v < n
    {
      assert Present(Lookup(m2, root, v)) <==> 1 <= v < n;
    }
    forall r: nat, v: nat | r != root
      ensures Lookup(m3, r, v) == Lookup(m, r, v)
    {
      assert Lookup(m2, r, v) == Lookup(m1, r, v);
    }
  }

  /** No frame but those of tables changed. */
  ghost predicate OnlyTables(m: Memory, m': Memory) {
    forall f :: f in m.mem ==> f in m'.mem && ((f in m.role && m.role[f].Table?) || m'.mem[f] == m.mem[f])
  }

  /** The guard page keeps its frame, so the space can still be freed, and every byte stays. */
  lemma ClearedPages(m: Memory, m1: Memory, m2: Memory, m3: Memory, root: nat, sz: nat)
    requires Owned(m) && Building(m, m1, m2, root, sz) && sz % 4096 == 0 && 3 * 4096 <= sz
    requires m3.role == m2.role && m3.tabs == m2.tabs && m3.kernel == m2.kernel
    requires OnlyTables(m2, m3)
    requires forall r: nat, u: nat ::
               Lookup(m3, r, u) == if r == root && u == sz / 4096 - 2 then Lookup(m2, root, u) - 4 else Lookup(m2, r, u)
    ensures Abandoned(m, m1, m3, root)
  {
    hide Rooted, Lookup, Pages, Flags, Target, Present, UserBit;
    var n: nat := PagesUp(sz) - 1;
    SevenIsUser(Lookup(m2, root, sz / 4096 - 2));
    NoneOf(m, m1, root);
    PagesFrame(m1, m2, m3, root, n);
    PagesAgain(m1, m2, m3, root, n);
    assert Pages(m1, m3, root, n);
  }

  lemma ClearedBytes(m2: Memory, m3: Memory, root: nat, sz: nat, hs: seq<Option<ProgHeader>>, file: seq<Byte>)
    requires Owned(m2) && AllSeven(m2, root, sz) && sz % 4096 == 0 && 3 * 4096 <= sz && BytesOf(m2, root, sz, hs, file)
    requires m3.role == m2.role
    requires OnlyTables(m2, m3)
    requires RolesOk(m2)
    requires forall r: nat, u: nat ::
               Lookup(m3, r, u) == if r == root && u == sz / 4096 - 2 then Lookup(m2, root, u) - 4 else Lookup(m2, r, u)
    ensures BytesOf(m3, root, sz, hs, file)
  {
    hide Lookup, Flags, PageByte, UserBit, SegByte;
    forall a: nat | 4096 <= a < PagesUp(sz) * 4096 ensures ByteAt(m3, root, a) == SegByte(hs, file, a) {
      var v := a / 4096;
      assert Flags(Lookup(m2, root, v)) == 7 && LeafAt(m2, root, v);
      SevenIsUser(Lookup(m2, root, v));
      assert ByteAt(m3, root, a) == ByteAt(m2, root, a);
    }
  }

  /** clear_pte_u on the guard page of a finished image; the page is there, so no panic. */
  method ClearGuard(vm: Vm, root: nat, sz: nat, ghost m: Memory, ghost m1: Memory, ghost hs: seq<Option<ProgHeader>>,
        ghost file: seq<Byte>)
    requires vm.Valid() && Owned(m) && Owned(vm.M()) && Building(m, m1, vm.M(), root, sz)
    requires BytesOf(vm.M(), root, sz, hs, file)
    requires sz % 4096 == 0 && 3 * 4096 <= sz
    modifies vm
    ensures vm.Valid() && Owned(vm.M()) && ExecBuilt(m, vm.M(), root, sz) && Abandoned(m, m1, vm.M(), root)
    ensures BytesOf(vm.M(), root, sz, hs, file)
  {
    hide TreeOk, Chained, Owned, Rooted, Lookup, ExecBuilt, UserBit, SetEntry, Flags, Target, Grown, SameEntries, Pages,
         OnlyTables, RolesOk, BytesOf, Abandoned, ImageOf;
    ghost var m2 := vm.M();
    var v := (sz - 2 * 4096) / 4096;
    SevenIsUser(Lookup(m2, root, v));
    var slot := vm.Walk(root, v, false);
    vm.ValidTree();
    TreeParts(m2);
    TableFrame(m2, Pos(root, 3, v / WORDS));
    LookupAt(m2, root, v);
    SetEntryKeeps(m2, root, v, Lookup(m2, root, v) - 4);
    SetGrown(m2, root, v, Lookup(m2, root, v) - 4);
    SetRoles(m2, root, v, Lookup(m2, root, v) - 4);
    var e := vm.mem[slot.value.table][slot.value.index];
    vm.StoreEntry(slot.value, if UserBit(e) then e - 4 else e, root, v);
    ClearedOwned(m2, vm.M(), root, v);
    BuiltBy(m, m1, m2, vm.M(), root, sz);
    ClearedPages(m, m1, m2, vm.M(), root, sz);
    ClearedBytes(m2, vm.M(), root, sz, hs, file);
  }

  lemma SetRoles(m: Memory, r: nat, vpn: nat, w: nat)
    requires TreeOk(m) && Pos(r, 3, vpn / WORDS) in m.tabs && m.tabs[Pos(r, 3, vpn / WORDS)] in m.mem
    ensures var m' := SetEntry(m, r, vpn, w);
            && m'.role == m.role && m'.tabs == m.tabs && OnlyTables(m, m')
            && forall f :: f in m.role && Plain(m.role[f]) && f in m.mem ==> f in m'.mem && m'.mem[f] == m.mem[f]
  {
    hide TreeOk;
    TableFrame(m, Pos(r, 3, vpn / WORDS));
  }

  // ---- exec ----------------------------------------------------------------------------------------

  ghost predicate GoodFile(file: seq<Byte>) { IsElf(file) && AllLoadable(file, Headers(file)) }

  lemma PagesMono(a: nat, b: nat)
    requires a <= b
    ensures PagesUp(a) <= PagesUp(b) && PagesUp(4096) == 1
  {
  }

  /** The loop over the program headers. */
  method AddSegments(vm: Vm, root: nat, hs: seq<Option<ProgHeader>>, file: seq<Byte>, ghost m: Memory, ghost m1: Memory)
    returns (ok: bool, sz: nat)
    requires vm.Valid() && Owned(m) && Owned(vm.M()) && Building(m, m1, vm.M(), root, 4096)
    requires BytesOf(vm.M(), root, 4096, [], file)
    requires forall i :: 0 <= i < |hs| && hs[i].Some? ==> hs[i].value.vaddr < U64 && hs[i].value.memSz < U64
    modifies vm
    ensures vm.Valid() && Owned(vm.M()) && sz <= USER_TOP
    ensures if ok then
              Building(m, m1, vm.M(), root, sz) && BytesOf(vm.M(), root, sz, hs, file)
            else Abandoned(m, m1, vm.M(), root)
    ensures ok ==> sz == Top(hs) && AllLoadable(file, hs) && |vm.free| + 4 * (PagesUp(sz) - 1) >= |old(vm.free)|
    ensures !ok ==> !AllLoadable(file, hs) || Top(hs) >= USER_TOP || |old(vm.free)| <= 4 * (PagesUp(Top(hs)) - 1)
  {
    hide TreeOk, Chained, Owned, Building, Abandoned, Loadable, BytesOf, PagesUp, Extended;
    sz := 4096;
    ghost var had := |vm.free|;
    assert hs[..0] == [];
    PagesMono(4096, 4096);
    for i := 0 to |hs|
      invariant vm.Valid() && Owned(vm.M()) && Building(m, m1, vm.M(), root, sz)
      invariant BytesOf(vm.M(), root, sz, hs[..i], file)
      invariant sz == Top(hs[..i]) && |vm.free| + 4 * (PagesUp(sz) - 1) >= had
      invariant forall j :: 0 <= j < i ==> Loadable(file, hs[j])
    {
      TopMono(hs, i);
      TopMono(hs, i + 1);
      PagesMono(Extended(sz, hs[i]), Top(hs));
      ok, sz := AddSegment(vm, root, sz, hs[i], file, m, m1, hs[..i]);
      assert hs[..i] + [hs[i]] == hs[..i + 1];
      if !ok { return; }
    }
    assert hs[..|hs|] == hs;
    BuildBounds(m, m1, vm.M(), root, sz);
    ok := true;
  }

  /** exec up to the guard page, on the bytes of any file: on success an exact image that holds
    * the segments of the file; on failure nothing in use changed; no panic on either way. */
  method Build(vm: Vm, file: seq<Byte>) returns (root: nat, sz: nat, ghost m1: Memory)
    requires vm.Valid() && Owned(vm.M()) && (|file| >= EHSIZE ==> PhNum(file) < 0x8000)
    modifies vm
    ensures vm.Valid() && Owned(vm.M())
    ensures if root == 0 then OnlyLoss(old(vm.M()), vm.M())
            else ExecBuilt(old(vm.M()), vm.M(), root, sz) && Abandoned(old(vm.M()), m1, vm.M(), root)
    ensures root != 0 ==> GoodFile(file) && sz == PagesUp(Top(Headers(file))) * 4096 + 2 * 4096
    ensures root != 0 ==> BytesOf(vm.M(), root, sz, Headers(file), file)
    ensures root == 0 ==>
              || !GoodFile(file) || PagesUp(Top(Headers(file))) * 4096 + 2 * 4096 >= USER_TOP
              || |old(vm.free)| <= 4 * (PagesUp(Top(Headers(file))) + 2)
  {
    hide TreeOk, Chained, Owned, Rooted, Building, Abandoned, ExecBuilt, OnlyLoss, Loadable, BytesOf, Headers,
         DecodeElf;
    ghost var m := vm.M();
    m1 := m;
    root, sz := 0, 0;
    FailedAtOnce(m);
    if |file| < EHSIZE { return; }
    if DecodeElf(file[..EHSIZE]).magic != ELF_MAGIC { return; }
    root := vm.SetupUvm();
    if root == 0 { return; }
    m1 := vm.M();
    var hs := Headers(file);
    BuildStart(m, m1, root, file);
    var ok;
    ok, sz := AddSegments(vm, root, hs, file, m, m1);
    if !ok {
      Discard(vm, root, sz, m, m1);
      return 0, 0, m1;
    }
    BuildBounds(m, m1, vm.M(), root, sz);
    var up := PagesUp(sz) * 4096;
    BuildRound(m, m1, vm.M(), root, sz, up, hs, file);
    sz := GrowImage(vm, root, up, up + 2 * 4096, m, m1, hs, file);
    if sz == 0 {
      Discard(vm, root, 0, m, m1);
      return 0, 0, m1;
    }
    ClearGuard(vm, root, sz, m, m1, hs, file);
  }

  lemma BuildStart(m: Memory, m1: Memory, root: nat, file: seq<Byte>)
    requires Rooted(m, m1, root)
    ensures Building(m, m1, m1, root, 4096) && BytesOf(m1, root, 4096, [], file)
  {
    hide Rooted, Lookup, Populated;
    ImageEmpty(m, m1, root);
    PopulatedNone(m1, root, 1);
    var want: seq<Content> := [];
    assert |want| == 0 && Populated(m1, m1, root, 1, want, 0);
    assert Pos(root, 0, 0) in m1.tabs by { RootedIn(m, m1, root); }
  }

  lemma BuildBounds(m: Memory, m1: Memory, m': Memory, root: nat, sz: nat)
    requires Building(m, m1, m', root, sz)
    ensures 4096 <= sz <= USER_TOP
  {
  }

  lemma BuildRound(m: Memory, m1: Memory, m': Memory, root: nat, sz: nat, up: nat, hs: seq<Option<ProgHeader>>,
        file: seq<Byte>)
    requires Building(m, m1, m', root, sz) && up == PagesUp(sz) * 4096 && BytesOf(m', root, sz, hs, file)
    ensures PagesUp(up) == PagesUp(sz) && sz <= up
    ensures Building(m, m1, m', root, up) && BytesOf(m', root, up, hs, file)
  {
    hide Rooted, Pages, Lookup, ByteAt, SegByte;
  }

  /** What exec leaves: the image, with the segments below the stack page and the arguments in it. */
  ghost predicate Runs(m: Memory, m': Memory, root: nat, sz: nat, file: seq<Byte>, argv: seq<seq<Byte>>, ptrs: seq<nat>,
        sp: nat)
    requires |file| >= EHSIZE
  {
    && ExecBuilt(m, m', root, sz) && sz == PagesUp(Top(Headers(file))) * 4096 + 2 * 4096
    && (forall a: nat :: 4096 <= a && a + 4096 < sz ==> ByteAt(m', root, a) == SegByte(Headers(file), file, a))
    && StackOk(View(m', root, sz), sz, argv, ptrs, sp)
  }

  lemma RunsBy(m: Memory, m2: Memory, m3: Memory, root: nat, sz: nat, file: seq<Byte>, argv: seq<seq<Byte>>,
        ptrs: seq<nat>, sp: nat)
    requires |file| >= EHSIZE && Owned(m) && ExecBuilt(m, m2, root, sz)
    requires sz == PagesUp(Top(Headers(file))) * 4096 + 2 * 4096
    requires BytesOf(m2, root, sz, Headers(file), file) && OnlyBytes(m2, m3, root) && StaysBelow(m2, m3, root, sz)
    requires StackOk(View(m3, root, sz), sz, argv, ptrs, sp) && forall f :: f in m.role ==> !OfSpace(m, root, f)
    ensures Runs(m, m3, root, sz, file, argv, ptrs, sp)
  {
    hide Lookup, ByteAt, SegByte, Headers, StackOk, View, UserBit;
    ImageSame(m2, m3, root, sz);
    forall a: nat | 4096 <= a && a + 4096 < sz ensures ByteAt(m3, root, a) == SegByte(Headers(file), file, a) {
      assert PagesUp(sz) * 4096 == sz;
      assert ByteAt(m3, root, a) == ByteAt(m2, root, a);
    }
    forall r: nat, v: nat ensures Lookup(m3, r, v) == Lookup(m2, r, v) {}
    forall f | f in m.role && Plain(m.role[f]) && f in m.mem ensures f in m3.mem && m3.mem[f] == m.mem[f] {
      assert m2.role[f] == m.role[f] && !OfSpace(m, root, f);
    }
  }

  lemma BytesAbandoned(m: Memory, m1: Memory, m2: Memory, m3: Memory, root: nat)
    requires Owned(m) && Abandoned(m, m1, m2, root) && OnlyBytes(m2, m3, root) && Pos(root, 0, 0) in m3.tabs
    ensures Abandoned(m, m1, m3, root)
  {
    hide Rooted, Lookup, Pages;
    var n: nat :| Pages(m1, m2, root, n);
    NoneOf(m, m1, root);
    PagesFrame(m1, m2, m3, root, n);
    forall r: nat, v: nat ensures Lookup(m3, r, v) == Lookup(m2, r, v) {}
    PagesAgain(m1, m2, m3, root, n);
  }

  lemma BuiltGuard(m: Memory, m': Memory, root: nat, sz: nat)
    requires ExecBuilt(m, m', root, sz)
    ensures 3 * 4096 <= sz <= USER_TOP && sz % 4096 == 0 && Guarded(m', root, sz) && Pos(root, 0, 0) in m'.tabs
  {
    hide Lookup, UserBit;
    assert PagesUp(sz) == sz / 4096;
  }

  lemma OldSpace(m: Memory, m': Memory, root: nat, sz: nat)
    requires TreeOk(m) && Owned(m) && ExecBuilt(m, m', root, sz)
    ensures forall f :: f in m.role ==> !OfSpace(m, root, f)
  {
    hide FreeOk, Flags, UserBit;
    forall f | f in m.role ensures !OfSpace(m, root, f) {
      if OfSpace(m, root, f) {
        assert LeafBack(m, f);
        var pos := Pos(root, 3, m.role[f].vpn / WORDS);
        assert pos in m.tabs;
        RootOf(m, pos);
      }
    }
  }

  /** exec on the bytes of any file: a space that holds the program and its arguments, or, on any
    * of its failures, everything in use as before. */
  method Exec(vm: Vm, file: seq<Byte>, argv: seq<seq<Byte>>) returns (root: nat, sz: nat, sp: nat, ptrs: seq<nat>)
    requires vm.Valid() && Owned(vm.M()) && (|file| >= EHSIZE ==> PhNum(file) < 0x8000)
    modifies vm
    ensures vm.Valid() && Owned(vm.M())
    ensures root == 0 ==> OnlyLoss(old(vm.M()), vm.M())
    ensures root != 0 ==> GoodFile(file) && Fits(sz, argv) && Runs(old(vm.M()), vm.M(), root, sz, file, argv, ptrs, sp)
    ensures root == 0 ==>
              || !GoodFile(file) || !Fits(PagesUp(Top(Headers(file))) * 4096 + 2 * 4096, argv)
              || PagesUp(Top(Headers(file))) * 4096 + 2 * 4096 >= USER_TOP
              || |old(vm.free)| <= 4 * (PagesUp(Top(Headers(file))) + 2)
  {
    hide TreeOk, Chained, Owned, Abandoned, ExecBuilt, OnlyLoss, GoodFile, BytesOf, Headers, Runs, Fits, Guarded,
         StackOk, View, OnlyBytes, StaysBelow;
    ghost var m := vm.M();
    ghost var m1;
    sp, ptrs := 0, [];
    root, sz, m1 := Build(vm, file);
    if root == 0 { return; }
    ghost var m2 := vm.M();
    BuiltGuard(m, m2, root, sz);
    vm.ValidTree();
    assert |file| >= EHSIZE by { hide Headers; GoodElf(file); }
    var ok;
    ok, sp, ptrs := PushArgs(vm, root, sz, argv);
    if !ok {
      BytesAbandoned(m, m1, m2, vm.M(), root);
      Discard(vm, root, sz, m, m1);
      return 0, sz, 0, [];
    }
    OldSpace(m, m2, root, sz);
    RunsBy(m, m2, vm.M(), root, sz, file, argv, ptrs, sp);
  }

  // ---- exec of a program --------------------------------------------------------------------------

  /** What a segment of type 1 must be like. */
  predicate GoodSegment(p: ProgHeader, size: nat) {
    && p.fileSz <= p.memSz && p.vaddr + p.memSz < U64 && 4096 <= p.vaddr && p.vaddr % 4096 == 0
    && (p.fileSz == 0 || p.offset + p.fileSz <= size)
  }

  /** The segment has the byte at a in its part of the file. */
  predicate FileByte(p: ProgHeader, a: nat) { p.typ == 1 && p.vaddr <= a < p.vaddr + p.fileSz }

  ghost predicate GoodProgram(h: ElfHeader, ps: seq<ProgHeader>, size: nat) {
    h.magic == 0x464C_457F && forall i :: 0 <= i < |ps| && ps[i].typ == 1 ==> GoodSegment(ps[i], size)
  }

  /** The address past the image: the end of the highest segment, in whole pages, and two more for
    * the guard and the stack. */
  ghost predicate SizeFor(ps: seq<ProgHeader>, sz: nat) {
    && sz % 4096 == 0 && 3 * 4096 <= sz
    && (forall i :: 0 <= i < |ps| && ps[i].typ == 1 ==> ps[i].vaddr + ps[i].memSz <= sz - 2 * 4096)
    && (sz == 3 * 4096 || exists i :: 0 <= i < |ps| && ps[i].typ == 1 && ps[i].vaddr + ps[i].memSz > sz - 3 * 4096)
  }

  /** Below the stack page each byte is that of the last segment that has it in the file, or 0. */
  ghost predicate ProgramAt(m: Memory, root: nat, sz: nat, ps: seq<ProgHeader>, file: seq<Byte>) {
    forall a: nat :: 4096 <= a && a + 4096 < sz ==>
      && (forall i :: 0 <= i < |ps| && FileByte(ps[i], a) && (forall j :: i < j < |ps| ==> !FileByte(ps[j], a)) ==>
            ps[i].offset + (a - ps[i].vaddr) < |file| && ByteAt(m, root, a) == file[ps[i].offset + (a - ps[i].vaddr)])
      && ((forall j :: 0 <= j < |ps| ==> !FileByte(ps[j], a)) ==> ByteAt(m, root, a) == 0)
  }

  lemma GoodFileIff(file: seq<Byte>, h: ElfHeader, ps: seq<ProgHeader>)
    requires ElfOf(file, h, ps)
    ensures GoodFile(file) <==> GoodProgram(h, ps, |file|)
  {
    hide DecodeElf, HeaderAt, ElfOf, Headers;
    assert |file| >= EHSIZE by { ElfSize(file, h, ps); }
    HeadersBack(file, h, ps);
    forall i | 0 <= i < |ps|
      ensures Loadable(file, Headers(file)[i]) <==> (ps[i].typ == 1 ==> GoodSegment(ps[i], |file|))
    {
      assert Headers(file)[i] == Some(ps[i]);
    }
  }

  lemma SizeIs(file: seq<Byte>, h: ElfHeader, ps: seq<ProgHeader>)
    requires ElfOf(file, h, ps)
    ensures SizeFor(ps, PagesUp(Top(Headers(file))) * 4096 + 2 * 4096)
  {
    hide ElfOf, Headers, Top;
    assert |file| >= EHSIZE by { ElfSize(file, h, ps); }
    HeadersBack(file, h, ps);
    var hs := Headers(file);
    TopMax(hs);
    forall i | 0 <= i < |ps| ensures hs[i] == Some(ps[i]) {}
  }

  lemma ProgramBytes(m: Memory, root: nat, sz: nat, file: seq<Byte>, h: ElfHeader, ps: seq<ProgHeader>)
    requires ElfOf(file, h, ps) && GoodProgram(h, ps, |file|)
    requires forall a: nat :: 4096 <= a && a + 4096 < sz ==> ByteAt(m, root, a) == SegByte(Headers(file), file, a)
    ensures ProgramAt(m, root, sz, ps, file)
  {
    hide ElfOf, Headers, ByteAt, SegByte;
    assert |file| >= EHSIZE by { ElfSize(file, h, ps); }
    HeadersBack(file, h, ps);
    var hs := Headers(file);
    forall a: nat, j | 4096 <= a && 0 <= j < |ps| ensures Covers(file, hs[j], a) <==> FileByte(ps[j], a) {
      assert hs[j] == Some(ps[j]);
    }
    forall a: nat, i | 4096 <= a && a + 4096 < sz && 0 <= i < |ps| && FileByte(ps[i], a) &&
                       (forall j :: i < j < |ps| ==> !FileByte(ps[j], a))
      ensures ps[i].offset + (a - ps[i].vaddr) < |file| && ByteAt(m, root, a) == file[ps[i].offset + (a - ps[i].vaddr)]
    {
      assert hs[i] == Some(ps[i]);
      SegByteLast(hs, file, a, i);
    }
    forall a: nat | 4096 <= a && a + 4096 < sz && (forall j :: 0 <= j < |ps| ==> !FileByte(ps[j], a))
      ensures ByteAt(m, root, a) == 0
    {
      SegByteNone(hs, file, a);
    }
  }

  /** exec of a file made of these headers: the program runs, at the addresses they give, if every
    * segment is good, the arguments fit and there is room and memory enough. */
  method ExecProgram(vm: Vm, file: seq<Byte>, argv: seq<seq<Byte>>, ghost h: ElfHeader, ghost ps: seq<ProgHeader>)
    returns (root: nat, sz: nat, sp: nat, ptrs: seq<nat>)
    requires vm.Valid() && Owned(vm.M()) && ElfOf(file, h, ps) && |ps| < 0x8000
    modifies vm
    ensures vm.Valid() && Owned(vm.M())
    ensures root == 0 ==> OnlyLoss(old(vm.M()), vm.M())
    ensures root != 0 ==> GoodProgram(h, ps, |file|) && SizeFor(ps, sz) && Fits(sz, argv)
    ensures root != 0 ==>
              ExecBuilt(old(vm.M()), vm.M(), root, sz) && StackOk(View(vm.M(), root, sz), sz, argv, ptrs, sp)
    ensures root != 0 ==> ProgramAt(vm.M(), root, sz, ps, file)
    ensures root == 0 && GoodProgram(h, ps, |file|) ==>
              exists n: nat :: SizeFor(ps, n) && (!Fits(n, argv) || n >= USER_TOP || 1024 * |old(vm.free)| <= n)
  {
    hide TreeOk, Chained, Owned, ExecBuilt, OnlyLoss, GoodFile, Headers, Fits, StackOk, View, Top, SizeFor, GoodProgram,
         ProgramAt, ElfOf, PagesUp, ByteAt, SegByte;
    assert |file| >= EHSIZE by { ElfSize(file, h, ps); }
    HeadersBack(file, h, ps);
    GoodFileIff(file, h, ps);
    SizeIs(file, h, ps);
    root, sz, sp, ptrs := Exec(vm, file, argv);
    if root != 0 { ProgramBytes(vm.M(), root, sz, file, h, ps); }
  }

  lemma ElfSize(file: seq<Byte>, h: ElfHeader, ps: seq<ProgHeader>)
    requires ElfOf(file, h, ps)
    ensures |file| >= EHSIZE && |ps| == h.phNum
  {
  }

  lemma GoodElf(file: seq<Byte>)
    requires GoodFile(file)
    ensures |file| >= EHSIZE
  {
  }
}
