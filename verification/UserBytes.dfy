/** User memory as bytes: what stands at a virtual address of a space, through its page tables,
  * and the stores that load_uvm and copy_out of kernel/vm.c make.
  */
module UserBytes {
  import opened Common
  import opened Bytes
  import opened PageTables
  import opened Mappings
  import opened Image
  import opened AddressSpaces

  predicate UserBit(e: nat) { e / 4 % 2 == 1 }

  /** Byte k of a page of words. */
  function PageByte(p: Page, k: nat): Byte
    requires k < 4096
  {
    ToLE(p[k / 8], 8)[k % 8]
  }

  function NewByte(p: Page, off: nat, data: seq<Byte>, k: nat): Byte
    requires k < 4096
  {
    if off <= k < off + |data| then data[k - off] else PageByte(p, k)
  }

  function NewWord(p: Page, off: nat, data: seq<Byte>, i: nat): (s: seq<Byte>)
    requires i < WORDS
    ensures |s| == 8 && forall j :: 0 <= j < 8 ==> s[j] == NewByte(p, off, data, 8 * i + j)
  {
    [NewByte(p, off, data, 8 * i), NewByte(p, off, data, 8 * i + 1), NewByte(p, off, data, 8 * i + 2),
     NewByte(p, off, data, 8 * i + 3), NewByte(p, off, data, 8 * i + 4), NewByte(p, off, data, 8 * i + 5),
     NewByte(p, off, data, 8 * i + 6), NewByte(p, off, data, 8 * i + 7)]
  }

  /** memcpy of data into the page at off. */
  function PageWith(p: Page, off: nat, data: seq<Byte>): (q: Page)
    ensures forall i :: 0 <= i < WORDS ==> q[i] == FromLE(NewWord(p, off, data, i))
  {
    seq(WORDS, i requires 0 <= i < WORDS => FromLE(NewWord(p, off, data, i)))
  }

  lemma PageByteWith(p: Page, off: nat, data: seq<Byte>, k: nat)
    requires k < 4096
    ensures PageByte(PageWith(p, off, data), k) == NewByte(p, off, data, k)
  {
    hide ToLE, FromLE, NewByte, PageWith;
    var i := k / 8;
    LEBack(NewWord(p, off, data, i));
    assert k == 8 * i + k % 8;
  }

  lemma ZeroByte(k: nat)
    requires k < 4096
    ensures PageByte(Filled(0), k) == 0
  {
    hide ToLE;
    ToLEZero(8);
  }

  /** The byte at address a of the space r; 0 where nothing is mapped. */
  function ByteAt(m: Memory, r: nat, a: nat): Byte {
    var e := Lookup(m, r, a / 4096);
    if Present(e) && Target(e) in m.mem then PageByte(m.mem[Target(e)], a % 4096) else 0
  }

  ghost predicate UserPage(m: Memory, r: nat, v: nat) { Present(Lookup(m, r, v)) && UserBit(Lookup(m, r, v)) }

  /** From m to m' the bytes from va on became data, and no other byte of any space changed, nor
    * any entry or role. */
  ghost predicate Wrote(m: Memory, m': Memory, r: nat, va: nat, data: seq<Byte>) {
    && m'.role == m.role && m'.tabs == m.tabs && m'.free == m.free && m'.kernel == m.kernel && SameEntries(m, m')
    && (forall f :: f in m.mem ==> f in m'.mem && (OfSpace(m, r, f) || m'.mem[f] == m.mem[f]))
    && (forall r': nat, a: nat :: ByteAt(m', r', a) == NewAt(m, r, va, data, r', a))
  }

  /** Frame f holds a page of the space r. */
  predicate OfSpace(m: Memory, r: nat, f: nat) { f in m.role && m.role[f].Leaf? && m.role[f].root == r }

  function NewAt(m: Memory, r: nat, va: nat, data: seq<Byte>, r': nat, a: nat): Byte {
    if r' == r && va <= a < va + |data| then data[a - va] else ByteAt(m, r', a)
  }

  lemma WroteNone(m: Memory, r: nat, va: nat)
    ensures Wrote(m, m, r, va, [])
  {
    hide Lookup, PageByte;
  }

  lemma WroteMore(m: Memory, m1: Memory, m2: Memory, r: nat, va: nat, s: seq<Byte>, t: seq<Byte>)
    requires Wrote(m, m1, r, va, s) && Wrote(m1, m2, r, va + |s|, t)
    ensures Wrote(m, m2, r, va, s + t)
  {
    hide Lookup, ByteAt;
    forall r': nat, a: nat ensures ByteAt(m2, r', a) == NewAt(m, r, va, s + t, r', a) {
      assert ByteAt(m2, r', a) == NewAt(m1, r, va + |s|, t, r', a);
      assert ByteAt(m1, r', a) == NewAt(m, r, va, s, r', a);
    }
    assert SameEntries(m, m2) by { SameTwice(m, m1, m2); }
  }

  lemma StoredWrote(m: Memory, r: nat, v: nat, off: nat, data: seq<Byte>)
    requires TreeOk(m) && Owned(m) && Present(Lookup(m, r, v)) && off + |data| <= 4096
    ensures var f := Target(Lookup(m, r, v)); f in m.role && m.role[f] == Leaf(r, v) && f in m.mem
    ensures var f := Target(Lookup(m, r, v)); var m' := m.(mem := m.mem[f := PageWith(m.mem[f], off, data)]);
            TreeOk(m') && Owned(m') && Wrote(m, m', r, v * 4096 + off, data)
  {
    hide TreeOk, Lookup, PageWith, PageByte, Target;
    assert LeafAt(m, r, v);
    var f := Target(Lookup(m, r, v));
    assert f in m.mem by { TreeParts(m); }
    var m' := m.(mem := m.mem[f := PageWith(m.mem[f], off, data)]);
    FillKeeps(m, f, PageWith(m.mem[f], off, data));
    forall r': nat, u: nat ensures LeafAt(m', r', u) { assert LeafAt(m, r', u); }
    forall g | g in m'.role ensures LeafBack(m', g) { assert LeafBack(m, g); }
    forall r': nat, a: nat ensures ByteAt(m', r', a) == NewAt(m, r, v * 4096 + off, data, r', a) {
      assert LeafAt(m, r', a / 4096);
      assert a == a / 4096 * 4096 + a % 4096;
      if r' == r && a / 4096 == v { PageByteWith(m.mem[f], off, data, a % 4096); }
    }
  }

  /** memcpy into the frame of page v. */
  method StoreBytes(vm: Vm, f: nat, off: nat, data: seq<Byte>, ghost r: nat, ghost v: nat)
    requires vm.Valid() && Owned(vm.M()) && Present(Lookup(vm.M(), r, v)) && f == Target(Lookup(vm.M(), r, v))
    requires off + |data| <= 4096
    modifies vm`mem
    ensures vm.Valid() && Owned(vm.M()) && Wrote(old(vm.M()), vm.M(), r, v * 4096 + off, data)
    ensures f in old(vm.mem) && vm.mem == old(vm.mem)[f := PageWith(old(vm.mem)[f], off, data)]
  {
    hide TreeOk, Chained, Owned, Lookup, PageWith, Wrote, Target, Present;
    StoredWrote(vm.M(), r, v, off, data);
    ChainedKept(vm.M(), vm.freeList, f, PageWith(vm.mem[f], off, data));
    vm.mem := vm.mem[f := PageWith(vm.mem[f], off, data)];
  }

  /** What walk_pml4 finds at the entry of a page. */
  method FrameOf(vm: Vm, r: nat, v: nat) returns (e: nat)
    requires vm.Valid() && Pos(r, 0, 0) in vm.tabs && v < USER_PAGES
    modifies vm
    ensures vm.Valid() && vm.M() == old(vm.M())
    ensures if Present(Lookup(vm.M(), r, v)) then e == Lookup(vm.M(), r, v) else e == 0
  {
    hide TreeOk, Chained, Lookup, Present, SameEntries, Grown;
    var slot := vm.Walk(r, v, false);
    if slot == None { return 0; }
    vm.ValidTree();
    TableFrame(vm.M(), Pos(r, 3, v / WORDS));
    LookupAt(vm.M(), r, v);
    e := vm.mem[slot.value.table][slot.value.index];
  }

  // ---- copy_out ---------------------------------------------------------------------------------

  /** Every page that a range of n > 0 bytes at va touches is a user page. */
  ghost predicate Reachable(m: Memory, r: nat, va: nat, n: nat) {
    forall v: nat :: va / 4096 <= v <= (va + n - 1) / 4096 ==> UserPage(m, r, v)
  }

  lemma OnePage(m: Memory, r: nat, va: nat, done: nat, n: nat)
    requires n > 0 && !UserPage(m, r, (va + done) / 4096)
    ensures !Reachable(m, r, va, done + n)
  {
    hide UserPage;
    var v := (va + done) / 4096;
    assert va / 4096 <= v <= (va + (done + n) - 1) / 4096;
  }

  lemma NextPage(m: Memory, r: nat, va: nat, done: nat, n: nat)
    requires done == 0 || (Reachable(m, r, va, done) && (va + done) % 4096 == 0)
    requires 0 < n <= 4096 - (va + done) % 4096 && UserPage(m, r, (va + done) / 4096)
    ensures Reachable(m, r, va, done + n)
  {
    hide UserPage;
    assert (va + (done + n) - 1) / 4096 == (va + done) / 4096;
    if done > 0 { assert (va + done - 1) / 4096 == (va + done) / 4096 - 1; }
  }

  /** copy_out writes the whole range when each of its pages is a user page, and otherwise fails
    * after writing the part before the first page that is not. */
  method CopyOut(vm: Vm, r: nat, va: nat, data: seq<Byte>) returns (ok: bool, ghost k: nat)
    requires vm.Valid() && Owned(vm.M()) && Pos(r, 0, 0) in vm.tabs && va + |data| <= USER_TOP
    modifies vm
    ensures vm.Valid() && Owned(vm.M()) && k <= |data| && Wrote(old(vm.M()), vm.M(), r, va, data[..k])
    ensures ok <==> data == [] || Reachable(old(vm.M()), r, va, |data|)
    ensures ok <==> k == |data|
  {
    hide TreeOk, Chained, Owned, Lookup, Wrote, Reachable, Target, Present;
    ghost var m := vm.M();
    var done, at: nat := 0, va;
    assert data[..0] == [];
    WroteNone(m, r, va);
    while done < |data|
      invariant vm.Valid() && Owned(vm.M()) && Pos(r, 0, 0) in vm.tabs && vm.tabs == m.tabs
      invariant done <= |data| && at == va + done && Wrote(m, vm.M(), r, va, data[..done])
      invariant done == 0 || done == |data| || at % 4096 == 0
      invariant done > 0 ==> Reachable(m, r, va, done)
      decreases |data| - done
    {
      var va0 := at / 4096 * 4096;
      var e := FrameOf(vm, r, va0 / 4096);
      SamePages(m, vm.M(), r, va, data[..done], va0 / 4096);
      if !Present(e) || !UserBit(e) {
        OnePage(m, r, va, done, |data| - done);
        return false, done;
      }
      var n := 4096 - (at - va0);
      n := if n > |data| - done then |data| - done else n;
      NextPage(m, r, va, done, n);
      ghost var m1 := vm.M();
      StoreBytes(vm, Target(e), at - va0, data[done..done + n], r, va0 / 4096);
      WroteMore(m, m1, vm.M(), r, va, data[..done], data[done..done + n]);
      WroteTabs(m1, vm.M(), r, at, data[done..done + n]);
      assert data[..done] + data[done..done + n] == data[..done + n];
      done := done + n;
      at := at + n;
    }
    assert data[..done] == data;
    ok, k := true, |data|;
  }

  lemma WroteTabs(m: Memory, m': Memory, r: nat, va: nat, data: seq<Byte>)
    requires Wrote(m, m', r, va, data)
    ensures m'.tabs == m.tabs && m'.role == m.role && SameEntries(m, m')
  {
  }

  lemma SamePages(m: Memory, m': Memory, r: nat, va: nat, data: seq<Byte>, v: nat)
    requires Wrote(m, m', r, va, data)
    ensures Lookup(m', r, v) == Lookup(m, r, v)
  {
  }
}
