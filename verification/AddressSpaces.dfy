/** The address-space operations of kernel/vm.c on the page tables: walking, mapping,
  * growing, shrinking, copying and freeing, with the free list of kernel/kalloc.c
  * threaded through the free pages.
  */
module AddressSpaces {
  import opened Common
  import opened PageTables
  import opened Mappings
  import opened Teardown
  import opened Image

  function Link(free: seq<nat>, k: nat): nat { if k < |free| then free[k] * 4096 else 0 }

  /** The free list as kalloc.c threads it through the free pages. */
  ghost predicate Chained(mem: map<nat, Page>, head: nat, free: seq<nat>) {
    && head == Link(free, 0)
    && forall k :: 0 <= k < |free| ==> free[k] in mem && mem[free[k]][0] == Link(free, k + 1)
  }

  lemma ChainedPush(mem: map<nat, Page>, head: nat, free: seq<nat>, f: nat, p: Page)
    requires Chained(mem, head, free) && p[0] == head && forall k :: 0 <= k < |free| ==> free[k] != f
    ensures Chained(mem[f := p], f * 4096, [f] + free)
  {
    forall k | 0 <= k < |[f] + free| ensures mem[f := p][([f] + free)[k]][0] == Link([f] + free, k + 1) {
      if k > 0 { assert free[k - 1] in mem; }
    }
  }

  lemma ChainedPop(mem: map<nat, Page>, head: nat, free: seq<nat>, p: Page)
    requires Chained(mem, head, free) && free != [] && forall k :: 0 < k < |free| ==> free[k] != free[0]
    ensures free[0] in mem && Chained(mem[free[0] := p], mem[free[0]][0], free[1..])
  {
    forall k | 0 <= k < |free[1..]| ensures mem[free[0] := p][free[1..][k]][0] == Link(free[1..], k + 1) {
      assert free[k + 1] in mem;
    }
  }

  lemma FreeList(m: Memory)
    requires TreeOk(m)
    ensures forall k :: 0 <= k < |m.free| ==> m.free[k] > 0
    ensures forall j, k :: 0 <= j < k < |m.free| ==> m.free[j] != m.free[k]
  {
  }

  lemma Head(mem: map<nat, Page>, head: nat, free: seq<nat>)
    requires Chained(mem, head, free) && forall k :: 0 <= k < |free| ==> free[k] > 0
    ensures if free == [] then head == 0 else head > 0 && head / 4096 == free[0] && free[0] in mem
  {
  }

  lemma FreeTaken(m: Memory, f: nat)
    requires TreeOk(m) && f in m.role && m.role[f] != Free
    ensures forall k :: 0 <= k < |m.free| ==> m.free[k] != f
  {
  }

  /** From m to m' exactly the frames from a to b became managed, all of them free. */
  ghost predicate Adopted(m: Memory, m': Memory, a: nat, b: nat) {
    && m'.tabs == m.tabs && (forall f :: f in m'.role <==> f in m.role || a <= f < b)
    && (forall f :: f in m'.role ==> m'.role[f] == if a <= f < b then Free else m.role[f])
    && |m'.free| == |m.free| + b - a
  }

  lemma AdoptedNone(m: Memory, a: nat)
    ensures Adopted(m, m, a, a)
  {
  }

  lemma AdoptedFresh(m: Memory, m': Memory, a: nat, g: nat)
    requires Adopted(m, m', a, g) && g !in m.role && TreeOk(m')
    ensures g !in m'.role && g !in m'.free
  {
  }

  lemma AdoptedStep(m: Memory, m': Memory, a: nat, g: nat, link: nat)
    requires Adopted(m, m', a, g) && a <= g
    ensures Adopted(m, Pushed(m', g, link), a, g + 1)
  {
    hide Filled;
  }

  lemma ChainedKept(m: Memory, head: nat, f: nat, p: Page)
    requires TreeOk(m) && Chained(m.mem, head, m.free) && f in m.role && m.role[f] != Free
    ensures Chained(m.mem[f := p], head, m.free)
  {
    FreeTaken(m, f);
  }

  /** A page with no last-level table has no entry; with one, all its ancestors exist. */
  lemma NoEntry(m: Memory, r: nat, vpn: nat, lv: nat)
    requires TreeOk(m) && vpn < USER_PAGES && lv <= 3 && Pos(r, lv, Prefix(vpn, lv)) !in m.tabs
    ensures Lookup(m, r, vpn) == 0
  {
    hide TreeOk;
    LastLevel(vpn);
    if Pos(r, 3, vpn / WORDS) in m.tabs { AncestorOf(m, r, vpn, lv); assert false; }
  }

  /** What walk_pml4 returns: the table and the index of an entry. */
  datatype Slot = Slot(table: nat, index: nat)

  class Vm {
    const lo: nat                      // first frame after the bump allocator
    const hi: nat                      // PHY_STOP
    const kpml4: Page
    var mem: map<nat, Page>
    var freeList: nat                  // kmem.free_list: an address, 0 for none
    ghost var free: seq<nat>
    ghost var role: map<nat, Role>
    ghost var tabs: map<Pos, nat>

    ghost function M(): Memory
      reads this
    {
      Memory(mem, free, role, tabs, kpml4)
    }

    ghost predicate Valid()
      reads this
    {
      TreeOk(M()) && Chained(mem, freeList, free) && Managed()
    }

    constructor (lo: nat, hi: nat, mem: map<nat, Page>, kpml4: Page)
      requires lo > 0
      ensures Valid() && Owned(M()) && this.lo == lo && this.hi == hi
      ensures M() == Memory(mem, [], map[], map[], kpml4)
    {
      this.lo := lo;
      this.hi := hi;
      this.kpml4 := kpml4;
      this.mem := mem;
      freeList := 0;
      free := [];
      role := map[];
      tabs := map[];
    }

    method Kalloc() returns (f: nat)
      requires Valid()
      modifies this
      ensures Valid()
      ensures f == 0 <==> old(free) == []
      ensures f == 0 ==> M() == old(M())
      ensures f != 0 ==> f == old(free)[0] && M() == Popped(old(M()))
    {
      hide TreeOk, Filled, Chained;
      FreeList(M());
      if freeList == 0 {
        assert free == [] by { Head(mem, freeList, free); }
        return 0;
      }
      Head(mem, freeList, free);
      PoppedKeeps(M());
      f := freeList / 4096;
      ChainedPop(mem, freeList, free, Filled(0x0202_0202_0202_0202));
      freeList := mem[f][0];
      mem := mem[f := Filled(0x0202_0202_0202_0202)];
      role := role[f := Taken];
      free := free[1..];
    }

    ghost predicate Managed()
      reads this
    {
      lo > 0 && forall f :: f in role ==> lo <= f < hi
    }

    /** kfree: a panic exactly outside the managed range. The list stays a list if the page was
      * not on it, and every frame keeps one role if the page was handed out. */
    method Kfree(f: nat) returns (ok: bool)
      modifies this
      ensures ok <==> lo <= f < hi
      ensures M() == if ok then Pushed(old(M()), f, old(freeList)) else old(M())
      ensures old(Chained(mem, freeList, free)) && f !in old(free) ==> Chained(mem, freeList, free)
      ensures old(Valid()) && f in old(role) && old(role)[f] == Taken ==> Valid()
    {
      hide Filled, Chained, TreeOk;
      if f < lo || f >= hi { return false; }
      assert Filled(0x0101_0101_0101_0101)[0 := freeList][0] == freeList;
      if Valid() && f in role && role[f] == Taken {
        PushedKeeps(M(), f, freeList);
        FreeTaken(M(), f);
      }
      if Chained(mem, freeList, free) && f !in free {
        ChainedPush(mem, freeList, free, f, Filled(0x0101_0101_0101_0101)[0 := freeList]);
      }
      mem := mem[f := Filled(0x0101_0101_0101_0101)];
      mem := mem[f := mem[f][0 := freeList]];
      freeList := f * 4096;
      role := role[f := Free];
      free := [f] + free;
      assert mem == old(mem)[f := Filled(0x0101_0101_0101_0101)[0 := old(freeList)]];
      ok := true;
    }

    /** free_range: every whole page of the range, none of them managed before, joins the free
      * list; a panic exactly if one of them is outside the memory that kfree accepts. */
    method FreeRange(start: nat, end: nat) returns (ok: bool)
      requires Valid() && Owned(M()) && forall f :: PagesUp(start) <= f < end / 4096 ==> f !in role
      modifies this
      ensures ok <==> PagesUp(start) >= end / 4096 || (lo <= PagesUp(start) && end / 4096 <= hi)
      ensures ok ==> Valid() && Owned(M()) && SameEntries(old(M()), M())
      ensures ok ==>
                var first := PagesUp(start);
                Adopted(old(M()), M(), first, if first < end / 4096 then end / 4096 else first)
    {
      hide TreeOk, Chained, Owned, SameEntries, Filled, Adopted;
      ghost var m, first := M(), PagesUp(start);
      GrownRefl(m, 0);
      AdoptedNone(m, first);
      var p := PagesUp(start) * 4096;
      while p + 4096 <= end
        invariant p % 4096 == 0 && first <= p / 4096 && (p / 4096 <= end / 4096 || p / 4096 == first)
        invariant Valid() && Owned(M()) && SameEntries(m, M()) && Adopted(m, M(), first, p / 4096)
        invariant p / 4096 == first || (lo <= first && p / 4096 <= hi)
        decreases end - p
      {
        ghost var m1, g := M(), p / 4096;
        AdoptedFresh(m, m1, first, g);
        if lo <= g < hi {
          AdoptedKeeps(m1, g, freeList);
          AdoptedOwned(m1, g, freeList);
          AdoptedStep(m, m1, first, g, freeList);
          SameTwice(m, m1, Pushed(m1, g, freeList));
        }
        ok := Kfree(p / 4096);
        if !ok { return; }
        p := p + 4096;
      }
      ok := true;
    }

    /** kalloc, memset and the new entry of one level of walk_pml4. */
    method GrowAt(t: nat, i: nat, ghost pos: Pos) returns (f: nat)
      requires Valid() && pos in tabs && tabs[pos] == t && pos.lv < 3 && i < Limit(pos.lv) && ChildPos(pos, i) !in tabs
      modifies this
      ensures Valid()
      ensures f == 0 ==> old(free) == [] && M() == old(M())
      ensures f != 0 ==> Grown(old(M()), M(), pos.root) && SameEntries(old(M()), M())
      ensures f != 0 ==> ChildPos(pos, i) in tabs && tabs[ChildPos(pos, i)] == f && |free| + 1 == |old(free)|
    {
      hide TreeOk, Chained, Filled, TableEntry, Grown, SameEntries;
      ghost var m := M();
      f := Kalloc();
      if f == 0 { return; }
      GrowTableKeeps(m, pos, i);
      TableFrame(m, pos);
      PoppedKeeps(m);
      ChainedKept(M(), freeList, f, Filled(0));
      FillKeeps(M(), f, Filled(0));
      mem := mem[f := Filled(0)];
      ChainedKept(M(), freeList, t, mem[t][i := TableEntry(f)]);
      mem := mem[t := mem[t][i := TableEntry(f)]];
      tabs, role := tabs[ChildPos(pos, i) := f], role[f := Table(ChildPos(pos, i))];
      assert M() == GrowTable(m, pos, i);
    }

    /** walk_pml4 reaches the entry that the flat table gives for the page. Without alloc it
      * finds exactly the present entries; with alloc it makes the missing tables, changes no
      * page's entry, and fails only when no page is left. */
    method Walk(r: nat, vpn: nat, alloc: bool) returns (slot: Option<Slot>)
      requires Valid() && Pos(r, 0, 0) in tabs && vpn < USER_PAGES
      modifies this
      ensures Valid()
      ensures !alloc ==> M() == old(M()) && (slot.Some? <==> Present(Lookup(M(), r, vpn)))
      ensures Grown(old(M()), M(), r) && SameEntries(old(M()), M())
      ensures alloc && slot == None ==> free == [] && |old(free)| <= 2 && !Present(Lookup(old(M()), r, vpn))
      ensures |free| + 3 >= |old(free)|
      ensures slot.Some? ==>
                Pos(r, 3, vpn / WORDS) in tabs && slot.value == Slot(tabs[Pos(r, 3, vpn / WORDS)], vpn % WORDS)
    {
      hide TreeOk, Chained, TableEntry, Lookup, Grown, SameEntries, Span, Valid;
      ghost var m := M();
      GrownRefl(m, r);
      assert TreeOk(M()) by { ValidTree(); }
      var t, level: nat := r, 0;
      assert tabs[Pos(r, 0, 0)] == r by { RootFrame(m, r); }
      while level < 3
        invariant Valid() && level <= 3 && Pos(r, level, Prefix(vpn, level)) in tabs
        invariant tabs[Pos(r, level, Prefix(vpn, level))] == t
        invariant Grown(m, M(), r) && SameEntries(m, M()) && (!alloc ==> M() == m) && |free| + level >= |old(free)|
      {
        var i := Index(vpn, level);
        ghost var pos := Pos(r, level, Prefix(vpn, level));
        PrefixStep(vpn, level);
        assert TreeOk(M()) by { ValidTree(); }
        ReadLevel(M(), pos, i);
        if Present(mem[t][i]) {
          if Huge(mem[t][i]) { assert false; }    // the user half holds no large page
          t := Target(mem[t][i]);
        } else {
          NoEntry(M(), r, vpn, level + 1);
          if !alloc { return None; }
          EntryKept(m, M(), r, vpn);
          ghost var m1 := M();
          t := GrowAt(t, i, pos);
          if t == 0 { return None; }
          GrownTwice(m, m1, M(), r);
          SameTwice(m, m1, M());
        }
        level := level + 1;
      }
      LastLevel(vpn);
      assert TreeOk(M()) by { ValidTree(); }
      TableFrame(M(), Pos(r, 3, vpn / WORDS));
      LookupAt(M(), r, vpn);
      if alloc || Present(mem[t][Index(vpn, 3)]) {
        return Some(Slot(t, Index(vpn, 3)));
      }
      return None;
    }

    method StoreEntry(slot: Slot, w: nat, ghost r: nat, ghost vpn: nat)
      requires Valid() && Pos(r, 3, vpn / WORDS) in tabs && slot == Slot(tabs[Pos(r, 3, vpn / WORDS)], vpn % WORDS)
      modifies this`mem
      ensures Valid() && tabs[Pos(r, 3, vpn / WORDS)] in old(mem) && M() == SetEntry(old(M()), r, vpn, w)
    {
      hide TreeOk, Chained;
      SetEntryKeeps(M(), r, vpn, w);
      TableFrame(M(), Pos(r, 3, vpn / WORDS));
      ChainedKept(M(), freeList, slot.table, mem[slot.table][slot.index := w]);
      mem := mem[slot.table := mem[slot.table][slot.index := w]];
    }

    /** map_pages maps its range page by page, up to the first page that is already mapped
      * (a panic) or for which no table can be made (failure); n pages are then mapped, and
      * all of them on success. Nothing else changes. */
    method MapPages(r: nat, va: nat, size: nat, pa: nat, perm: nat) returns (res: Prompt<bool>, ghost n: nat)
      requires Valid() && Pos(r, 0, 0) in tabs && size > 0 && va + size <= USER_PAGES * 4096 && perm < 4096
      modifies this
      ensures Valid() && Grown(old(M()), M(), r) && Mapped(old(M()), M(), r, va / 4096, n, pa, perm)
      ensures n <= (va + size - 1) / 4096 - va / 4096 + 1
      ensures res == Ok(true) <==> n == (va + size - 1) / 4096 - va / 4096 + 1
      ensures forall v :: va / 4096 <= v < va / 4096 + n ==> !Present(Lookup(old(M()), r, v))
      ensures |free| + 3 * (if res == Ok(true) then n else n + 1) >= |old(free)|
      ensures res == Ok(false) ==> free == [] && |old(free)| <= 3 * n + 2
      ensures res == Panic <==> res != Ok(true) && Present(Lookup(old(M()), r, va / 4096 + n))
    {
      hide TreeOk, Chained, Lookup, Grown, Mapped, SameEntries, LeafEntry, SetEntry, Present;
      ghost var m := M();
      var first, last: nat := va / 4096, (va + size - 1) / 4096;
      var it, frame: nat := first, pa;
      n := 0;
      GrownRefl(m, r);
      assert Mapped(m, m, r, first, 0, pa, perm) by { MappedNone(m, r, first, pa, perm); }
      while true
        invariant Valid() && first <= it <= last && it == first + n && frame == pa + n && Pos(r, 0, 0) in tabs
        invariant Grown(m, M(), r) && Mapped(m, M(), r, first, n, pa, perm)
        invariant forall v :: first <= v < first + n ==> !Present(Lookup(m, r, v))
        invariant |free| + 3 * n >= |old(free)|
        decreases last - it
      {
        ghost var m1 := M();
        var slot := Walk(r, it, true);
        GrownTwice(m, m1, M(), r);
        if slot == None {
          MappedSame(m, m1, M(), r, first, n, pa, perm);
          MappedBeyond(m, m1, r, first, n, pa, perm, it);
          return Ok(false), n;
        }
        ghost var m2 := M();
        TableFrame(m2, Pos(r, 3, it / WORDS));
        LookupAt(m2, r, it);
        MappedSame(m, m1, m2, r, first, n, pa, perm);
        MappedBeyond(m, m2, r, first, n, pa, perm, it);
        if Present(mem[slot.value.table][slot.value.index]) {
          return Panic, n;
        }
        MappedStep(m, m1, m2, r, first, n, pa, perm);
        SetGrown(m2, r, it, LeafEntry(frame, perm));
        StoreEntry(slot.value, LeafEntry(frame, perm), r, it);
        GrownTwice(m, m2, M(), r);
        GrownRoot(m, M(), r);
        n := n + 1;
        if it == last { break; }
        it, frame := it + 1, frame + 1;
      }
      res := Ok(true);
    }

    /** kfree of a mapped page and its cleared entry: no double free, and no panic. */
    method FreePage(slot: Slot, ghost r: nat, ghost v: nat)
      requires Valid() && Pos(r, 3, v / WORDS) in tabs && slot == Slot(tabs[Pos(r, 3, v / WORDS)], v % WORDS)
      requires Target(Lookup(M(), r, v)) in role && role[Target(Lookup(M(), r, v))] == Leaf(r, v)
      modifies this
      ensures Valid() && tabs == old(tabs) && role == old(role)[old(Target(Lookup(M(), r, v))) := Free]
      ensures forall r': nat, u: nat :: Lookup(M(), r', u) == if r' == r && u == v then 0 else old(Lookup(M(), r', u))
      ensures forall g ::
                g in old(role) && Plain(old(role)[g]) && g != old(Target(Lookup(M(), r, v))) && g in old(mem) ==>
                  g in mem && mem[g] == old(mem)[g]
    {
      hide TreeOk, Chained, Lookup, SetEntry, Unmap;
      ghost var m1, link := M(), freeList;
      TableFrame(m1, Pos(r, 3, v / WORDS));
      LookupAt(m1, r, v);
      var f := Target(mem[slot.table][slot.index]);
      assert f != 0 by { FramesPositive(m1); }
      UnmapKeeps(m1, r, v, f, link);
      PushedKeeps(m1, f, link);
      FreeTaken(m1, f);
      var ok := Kfree(f);
      assert ok;
      StoreEntry(slot, 0, r, v);
      UnmapIs(m1, r, v, f, link);
    }

    /** dealloc_uvm never panics, and frees exactly the swept pages of its range. */
    method DeallocUvm(r: nat, oldSz: nat, newSz: nat) returns (sz: nat)
      requires Valid() && Owned(M()) && Pos(r, 0, 0) in tabs && oldSz <= USER_PAGES * 4096
      modifies this
      ensures Valid() && Owned(M())
      ensures sz == if newSz >= oldSz then oldSz else newSz
      ensures Released(old(M()), M(), r, PagesUp(newSz), PagesUp(oldSz))
    {
      hide TreeOk, Chained, Lookup, Released, SetEntry, Owned, Swept, SweepFrom, Grown, SameEntries, AllPresent, Unmap;
      ghost var m, first, last := M(), PagesUp(newSz), PagesUp(oldSz);
      if newSz >= oldSz {
        ReleasedNone(m, r, first, last);
        return oldSz;
      }
      var addr := PagesUp(newSz) * 4096;
      ReleasedNone(m, r, first, first);
      assert AllPresent(m, r, SweepFrom(first, first), first) by { SweepStart(m, r, first, first); }
      while addr < oldSz
        invariant Valid() && addr % 4096 == 0 && first <= addr / 4096
        invariant Released(m, M(), r, first, if addr / 4096 <= last then addr / 4096 else last) && tabs == m.tabs
        invariant addr < oldSz ==> AllPresent(m, r, SweepFrom(first, addr / 4096), addr / 4096)
        decreases oldSz + 0x20_0000 - addr
      {
        ghost var m1, v := M(), addr / 4096;
        var slot := Walk(r, addr / 4096, false);
        ReleasedAt(m, m1, r, first, v);
        if slot == None {
          addr := (addr + 0x20_0000) / 0x20_0000 * 0x20_0000;
          addr := addr - 4096;
          NextRegion(v, addr);
          ghost var u := if addr / 4096 + 1 <= last then addr / 4096 + 1 else last;
          SweptJump(m, r, first, v, u);
          ReleasedSame(m, m1, r, first, v, u);
          SweepStart(m, r, first, addr / 4096 + 1);
        } else {
          assert TreeOk(m1) by { ValidTree(); }
          TableFrame(m1, Pos(r, 3, v / WORDS));
          LookupAt(m1, r, v);
          var f := Target(mem[slot.value.table][slot.value.index]);
          SweptStep(m, r, first, v);
          FreePage(slot.value, r, v);
          ReleasedStep(m, m1, M(), r, first, v, f);
        }
        addr := addr + 4096;
      }
      ReleasedOwned(m, M(), r, first, last);
      sz := newSz;
    }

    /** kalloc on behalf of a growing address space. */
    method TakePage(r: nat, ghost m0: Memory, ghost lo: nat, ghost want: seq<Content>) returns (f: nat)
      requires Valid() && Owned(M()) && Populated(m0, M(), r, lo, want, 0) && 0 !in m0.role
      modifies this
      ensures Valid() && Owned(M()) && tabs == old(tabs) && Populated(m0, M(), r, lo, want, f)
      ensures |free| + 1 >= |old(free)|
      ensures f == 0 ==> M() == old(M()) && free == []
      ensures f != 0 ==> f in m0.role && m0.role[f] == Free && f in role && role[f] == Taken
    {
      hide TreeOk, Chained, Populated, Owned, Filled;
      ghost var m := M();
      f := Kalloc();
      if f != 0 { PopulatedTake(m0, m, r, lo, want); }
    }

    /** Filling the page taken and mapping it as the next page. */
    method PlacePage(f: nat, p: Page, r: nat, vpn: nat, perm: nat, ghost m0: Memory, ghost lo: nat,
          ghost want: seq<Content>)
      returns (res: Prompt<bool>)
      requires Valid() && Owned(M()) && Pos(r, 0, 0) in tabs && vpn < USER_PAGES && vpn == lo + |want| && perm < 4096
      requires Populated(m0, M(), r, lo, want, f) && f in m0.role && m0.role[f] == Free && f in role && role[f] == Taken
      modifies this
      ensures Valid() && Owned(M()) && Pos(r, 0, 0) in tabs
      ensures res == Ok(true) ==> Populated(m0, M(), r, lo, want + [Content(Flags(LeafEntry(f, perm)), p)], 0)
      ensures res == Ok(false) ==>
                Populated(m0, M(), r, lo, want, f) && f in role && role[f] == Taken && free == [] && |old(free)| <= 2
      ensures |free| + 3 >= |old(free)|
      ensures res == Panic ==> Present(Lookup(m0, r, vpn))
    {
      hide TreeOk, Chained, Populated, Owned, Lookup, LeafEntry, Flags, Grown, SameEntries, Mapped, Present;
      PopulatedFill(m0, M(), r, lo, want, f, p);
      ChainedKept(M(), freeList, f, p);
      FillKeeps(M(), f, p);
      mem := mem[f := p];
      ghost var m2, n := M(), 0;
      assert Lookup(m2, r, vpn) == Lookup(m0, r, vpn) by { PopulatedBeyond(m0, m2, r, lo, want, f, vpn); }
      res, n := MapPages(r, vpn * 4096, 4096, f, perm);
      GrownRoot(m2, M(), r);
      GrownTaken(m2, M(), r, f);
      if n == 0 {
        MappedZero(m2, M(), r, vpn, f, perm);
        PopulatedGrow(m0, m2, M(), r, lo, want, f);
      } else {
        PopulatedMap(m0, m2, M(), r, lo, want, f, perm);
        MapOwned(m2, M(), r, vpn, f, perm);
        RetagKeeps(M(), f, Leaf(r, vpn));
        role := role[f := Leaf(r, vpn)];
      }
    }

    /** alloc_uvm: on success the new pages are zeroed pages of their own; when memory runs
      * out, every entry is as before and every page taken is free again, except that page
      * tables may stay; a panic only on a range that is partly mapped. */
    method AllocUvm(r: nat, oldSz: nat, newSz: nat) returns (res: Prompt<nat>)
      requires Valid() && Owned(M()) && Pos(r, 0, 0) in tabs
      modifies this
      ensures Valid() && Owned(M())
      ensures newSz < oldSz ==> res == Ok(oldSz) && M() == old(M())
      ensures oldSz <= newSz && newSz >= USER_TOP ==> res == Ok(0) && M() == old(M())
      ensures oldSz <= newSz < USER_TOP ==> AllocResult(old(M()), M(), r, oldSz, newSz, res)
    {
      hide TreeOk, Chained, Populated, Owned, Lookup, LeafEntry, Flags, Grown, SameEntries, GrownBut, Present, Unmapped,
           Released, Filled;
      ghost var m0, first, last := M(), PagesUp(oldSz), PagesUp(newSz);
      if newSz < oldSz { return Ok(oldSz); }
      if newSz >= USER_TOP { return Ok(0); }
      FramesPositive(m0);
      PopulatedNone(m0, r, first);
      var addr := PagesUp(oldSz) * 4096;
      ghost var want: seq<Content> := [];
      while addr < newSz
        invariant Valid() && Owned(M()) && Pos(r, 0, 0) in tabs && addr % 4096 == 0
        invariant addr / 4096 == first + |want| <= last
        invariant Populated(m0, M(), r, first, want, 0) && want == ZeroPages(|want|) && |free| + 4 * |want| >= |m0.free|
      {
        var f := TakePage(r, m0, first, want);
        if f == 0 {
          GiveBack(r, oldSz, newSz, 0, m0, want);
          return Ok(0);
        }
        ghost var m1 := M();
        var ok := PlacePage(f, Filled(0), r, addr / 4096, 6, m0, first, want);
        if ok == Panic {
          UnmappedNot(m0, r, first, last, addr / 4096);
          return Panic;
        }
        if ok == Ok(false) {
          GiveBack(r, oldSz, newSz, f, m0, want);
          return Ok(0);
        }
        assert ok.value;
        ZeroFlags(f);
        want := want + [Content(7, Filled(0))];
        addr := addr + 4096;
      }
      res := Ok(newSz);
    }

    /** The two error exits of alloc_uvm. */
    method GiveBack(r: nat, oldSz: nat, newSz: nat, f: nat, ghost m0: Memory, ghost want: seq<Content>)
      requires Valid() && Owned(M()) && Owned(m0) && Pos(r, 0, 0) in tabs && newSz < USER_TOP && 0 !in m0.role
      requires Populated(m0, M(), r, PagesUp(oldSz), want, f) && PagesUp(oldSz) + |want| <= PagesUp(newSz)
      requires f != 0 ==> f in m0.role && m0.role[f] == Free && f in role && role[f] == Taken
      modifies this
      ensures Valid() && Owned(M())
      ensures Unmapped(m0, r, PagesUp(oldSz), PagesUp(newSz)) ==> Grown(m0, M(), r) && SameEntries(m0, M())
    {
      hide TreeOk, Chained, Populated, Owned, Lookup, Grown, SameEntries, GrownBut, Present, Unmapped, Released, Gone;
      ghost var m1 := M();
      var _ := DeallocUvm(r, newSz, oldSz);
      ghost var m2 := M();
      if Unmapped(m0, r, PagesUp(oldSz), PagesUp(newSz)) {
        RollBack(m0, m1, m2, r, PagesUp(oldSz), want, PagesUp(newSz), f);
        if f == 0 { GrownButNone(m0, m2, r); } else { GrownButFreed(m0, m2, r, f, freeList); }
      }
      if f != 0 {
        ReleasedTaken(m1, m2, r, PagesUp(oldSz), PagesUp(newSz), f);
        PushedOwned(m2, f, freeList);
        PushedKeeps(m2, f, freeList);
        FreeTaken(m2, f);
        var ok := Kfree(f);
        assert ok;
        if Unmapped(m0, r, PagesUp(oldSz), PagesUp(newSz)) { SameTwice(m0, m2, M()); }
      }
    }

    /** free_entry gives exactly the tables of the subtree to kfree, each once. */
    method FreeEntry(table: nat, level: nat, ghost pos: Pos, ghost m: Memory, ghost gone: set<Pos>)
      returns (ghost gone': set<Pos>)
      requires TreeOk(m) && Torn(m, M(), gone) && Chained(mem, freeList, free) && Managed()
      requires pos in m.tabs && table == m.tabs[pos] && level == pos.lv <= 3 && forall p :: p in gone ==> !Under(p, pos)
      modifies this
      ensures Torn(m, M(), gone') && Chained(mem, freeList, free) && Managed()
      ensures forall p :: p in gone' <==> p in gone || (p in m.tabs && Under(p, pos))
      decreases 3 - level
    {
      hide TreeOk, TablesOk, Chained, Torn, Up, Below, Under;
      gone' := gone;
      TreeParts(m);
      assert Under(pos, pos) by { UnderSelf(pos); }
      BelowAll(m, pos);
      BelowNone(m, pos);
      if level < 3 {
        var i, max := 0, if level == 0 then HALF else WORDS;
        while i < max
          invariant i <= max && Torn(m, M(), gone') && Chained(mem, freeList, free) && Managed()
          invariant forall p :: p in gone' <==> p in gone || Below(m, p, pos, i)
        {
          TornTable(m, M(), gone', pos);
          ReadLevel(m, pos, i);
          BelowStep(m, pos, i);
          if Present(mem[table][i]) {
            forall p | p in gone' ensures !Under(p, ChildPos(pos, i)) { NotYet(m, p, pos, i, gone); }
            gone' := FreeEntry(Target(mem[table][i]), level + 1, ChildPos(pos, i), m, gone');
          }
          i := i + 1;
        }
      }
      DropTable(table, pos, m, gone');
      gone' := gone' + {pos};
    }

    method DropTable(table: nat, ghost pos: Pos, ghost m: Memory, ghost gone: set<Pos>)
      requires TreeOk(m) && Torn(m, M(), gone) && Chained(mem, freeList, free) && Managed()
      requires pos in m.tabs && table == m.tabs[pos] && pos !in gone
      modifies this
      ensures Torn(m, M(), gone + {pos}) && Chained(mem, freeList, free) && Managed()
    {
      hide TreeOk, Chained, Torn, Discard;
      ghost var m1, link := M(), freeList;
      TornTable(m, m1, gone, pos);
      TornFree(m, m1, gone, pos);
      TornStep(m, m1, gone, pos, link);
      var ok := Kfree(table);
      assert ok;
      tabs := tabs - {pos};
      assert M() == Discard(m1, pos, link) by { DiscardIs(m1, pos, link); }
    }

    /** free_vm. */
    method FreeVm(r: nat, sz: nat) returns (res: Prompt<()>)
      requires Valid() && Owned(M()) && (r != 0 ==> Pos(r, 0, 0) in tabs) && sz <= USER_TOP
      modifies this
      ensures Valid() && Owned(M())
      ensures res == Panic <==> r == 0
      ensures r != 0 ==> Freed(old(M()), M(), r, PagesUp(sz))
    {
      hide TreeOk, Chained, Torn, Up, Owned, Released, Lookup, Freed, Forget;
      if r == 0 { return Panic; }
      ghost var m := M();
      var _ := DeallocUvm(r, sz, 0);
      ghost var m1 := M();
      assert m1.tabs == m.tabs by { ReleasedTabs(m, m1, r, 0, PagesUp(sz)); }
      TornNone(m1);
      RootFrame(m1, r);
      ghost var gone := FreeEntry(r, 0, Pos(r, 0, 0), m1, {});
      forall p ensures p in gone <==> p in m1.tabs && p.root == r { if p in m1.tabs { AllUnderRoot(m1, r, p); } }
      ghost var m2 := M();
      TornAll(m1, m2, gone, r);
      TreeParts(m);
      FreedByTearing(m, m1, m2, r, PagesUp(sz), gone);
      ForgetKeeps(m2, r);
      role := Forget(role, r);
      assert M() == m2.(role := Forget(m2.role, r));
      FreedOwned(m, M(), r, PagesUp(sz));
      assert Managed() by { ForgetKeys(m2.role, r); }
      res := Ok(());
    }

    /** setup_uvm: a new address space with no page mapped and the kernel's upper half. */
    method SetupUvm() returns (root: nat)
      requires Valid() && Owned(M())
      modifies this
      ensures Valid() && Owned(M())
      ensures root == 0 ==> old(free) == [] && M() == old(M())
      ensures root != 0 ==> Rooted(old(M()), M(), root) && |free| + 1 == |old(free)|
    {
      hide TreeOk, Chained, Owned, Rooted, TopTable;
      ghost var m := M();
      root := Kalloc();
      if root == 0 { return; }
      RootedBy(m);
      FreeHead(m);
      var page := Filled(0);
      for i := HALF to WORDS
        invariant forall j :: 0 <= j < WORDS ==> page[j] == if HALF <= j < i then kpml4[j] else 0
      {
        page := page[i := kpml4[i]];
      }
      assert page == TopTable(kpml4) by { TopTableIs(kpml4, page); }
      ChainedKept(M(), freeList, root, page);
      mem := mem[root := page];
      tabs, role := tabs[Pos(root, 0, 0) := root], role[root := Table(Pos(root, 0, 0))];
      assert M() == NewRoot(Popped(m), root);
      RootedOwned(m, M(), root);
    }

    /** One turn of copy_uvm; when memory runs out, the page taken is given back. */
    method CopyPage(r: nat, root: nat, vpn: nat, ghost m: Memory, ghost m1: Memory, ghost want: seq<Content>)
      returns (ok: Prompt<bool>, ghost c: Content)
      requires Valid() && Owned(M()) && TreeOk(m) && Owned(m) && Rooted(m, m1, root) && r != root
      requires vpn == 1 + |want| < USER_PAGES
      requires Populated(m1, M(), root, 1, want, 0) && Pos(root, 0, 0) in tabs && Pos(r, 0, 0) in tabs
      requires 0 !in m1.role && Pos(r, 0, 0) in m1.tabs
      modifies this
      ensures Valid() && Owned(M()) && Pos(root, 0, 0) in tabs
      ensures ok == Panic ==> !Present(Lookup(m, r, vpn))
      ensures ok == Ok(false) ==> Populated(m1, M(), root, 1, want, 0) && |old(free)| <= 3
      ensures |free| + 4 >= |old(free)|
      ensures ok == Ok(true) ==>
                Populated(m1, M(), root, 1, want + [c], 0) && CopyOf(m, r, vpn, c) && Pos(r, 0, 0) in tabs
    {
      hide TreeOk, Chained, Owned, Rooted, Populated, Lookup, CopyOf, Present, Target, Flags, RolesOk, TablesOk, Filled,
           LeafEntry, Grown, SameEntries;
      c := Content(0, Filled(0));
      ghost var m2 := M();
      var slot := Walk(r, vpn, false);
      SourcePage(m, m1, m2, r, root, want, vpn);
      if slot == None { return Panic, c; }
      assert TreeOk(m2) by { ValidTree(); }
      TableFrame(m2, Pos(r, 3, vpn / WORDS));
      LookupAt(m2, r, vpn);
      var e := mem[slot.value.table][slot.value.index];
      var f := TakePage(root, m1, 1, want);
      if f == 0 { return Ok(false), c; }
      TreeParts(m);
      SourceKept(m, m1, M(), r, root, want, f, vpn);
      var p := mem[Target(e)];
      c := Content(Flags(e), p);
      CopyFlags(f, e);
      ok := PlacePage(f, p, root, vpn, Flags(e), m1, 1, want);
      assert ok != Panic by { RootedEmpty(m, m1, root, vpn); }
      if ok == Ok(false) {
        PutBack(f, root, m1, want);
      } else {
        assert ok.value;
        PopulatedRoot(m1, M(), root, want + [c], r);
      }
    }

    method PutBack(f: nat, ghost root: nat, ghost m1: Memory, ghost want: seq<Content>)
      requires Valid() && Owned(M()) && Populated(m1, M(), root, 1, want, f)
      requires f in m1.role && m1.role[f] == Free && f in role && role[f] == Taken
      modifies this
      ensures Valid() && Owned(M()) && tabs == old(tabs) && Populated(m1, M(), root, 1, want, 0)
      ensures |free| >= |old(free)|
    {
      hide TreeOk, Chained, Owned, Populated, Filled, SameEntries;
      PushedPopulated(m1, M(), root, want, f, freeList);
      PushedOwned(M(), f, freeList);
      PushedKeeps(M(), f, freeList);
      FreeTaken(M(), f);
      var freed := Kfree(f);
      assert freed;
    }

    /** copy_uvm: a copy of the pages 1 .. sz in frames of their own, a panic only if one of
      * them is missing, or, out of memory, nothing. Then a frame is lost if and only if the
      * first page had been copied: with its data, the root and three tables that takes five. */
    method CopyUvm(r: nat, sz: nat) returns (res: Prompt<nat>)
      requires Valid() && Owned(M()) && Pos(r, 0, 0) in tabs && sz <= USER_TOP
      modifies this
      ensures Valid() && Owned(M())
      ensures res == Panic ==> !AllPresent(old(M()), r, 1, PagesUp(sz))
      ensures res.Ok? && res.value != 0 ==> Copied(old(M()), M(), r, res.value, if sz == 0 then 1 else PagesUp(sz))
      ensures res == Ok(0) ==> OnlyLoss(old(M()), M()) && |old(free)| <= 4 * PagesUp(sz)
      ensures res == Ok(0) ==> (Leaked(old(M()), M()) <==> |old(free)| >= 5)
      ensures res.Ok? && res.value != 0 && sz > 4096 ==> |old(free)| >= PagesUp(sz) + 3
    {
      hide TreeOk, Chained, Owned, Rooted, Populated, Lookup, Copied, OnlyLoss, CopyOf, Present, AllPresent, Leaked;
      ghost var m := M();
      FramesPositive(m);
      var root := SetupUvm();
      if root == 0 {
        FailedAtOnce(m);
        return Ok(0);
      }
      ghost var m1 := M();
      RootedTabs(m, m1, root, r);
      PopulatedNone(m1, root, 1);
      ghost var want: seq<Content> := [];
      var addr := 4096;
      while addr < sz
        invariant Valid() && Owned(M()) && addr % 4096 == 0 && addr / 4096 == 1 + |want|
        invariant addr < sz + 4096 || addr == 4096
        invariant Populated(m1, M(), root, 1, want, 0) && Pos(root, 0, 0) in tabs && Pos(r, 0, 0) in tabs
        invariant forall j :: 0 <= j < |want| ==> CopyOf(m, r, 1 + j, want[j])
        invariant |free| + 1 + 4 * |want| >= |old(free)|
      {
        ghost var c;
        var ok;
        ok, c := CopyPage(r, root, addr / 4096, m, m1, want);
        if ok == Panic {
          AbsentPage(m, r, addr / 4096, PagesUp(sz));
          return Panic;
        }
        if ok == Ok(false) {
          if want != [] { FramesUsed(m, m1, M(), root, want); }
          res := Abandon(root, addr, m, m1, want);
          return;
        }
        assert ok.value;
        want := want + [c];
        addr := addr + 4096;
      }
      CopiedBy(m, m1, M(), r, root, want, 1 + |want|);
      if want != [] { FramesUsed(m, m1, M(), root, want); }
      res := Ok(root);
    }

    /** The error exit of copy_uvm. */
    method Abandon(root: nat, addr: nat, ghost m: Memory, ghost m1: Memory, ghost want: seq<Content>)
      returns (res: Prompt<nat>)
      requires Valid() && Owned(M()) && TreeOk(m) && Owned(m) && Rooted(m, m1, root) && root != 0
      requires Pos(root, 0, 0) in tabs
      requires Populated(m1, M(), root, 1, want, 0) && addr == (1 + |want|) * 4096 <= USER_TOP
      modifies this
      ensures Valid() && Owned(M()) && res == Ok(0) && OnlyLoss(m, M())
      ensures want != [] <==> Leaked(m, M())
    {
      hide TreeOk, Chained, Owned, Rooted, Populated, Lookup, Freed, OnlyLoss;
      ghost var m2 := M();
      var _ := FreeVm(root, addr);
      assert M().tabs == m.tabs by { TabsBack(m, m1, m2, M(), root, want, 1 + |want|); }
      TreeParts(m);
      FramesPositive(m);
      FailedBy(m, m1, m2, M(), root, want, 1 + |want|);
      if want != [] { FailedLoses(m, m1, m2, M(), root, want); }
      res := Ok(0);
    }

    /** grow_proc on the process whose space is r and whose size is sz; newSz is the size
      * it keeps. The image stays exact, except that shrinking to exactly 0 fails after
      * pages were freed: then it stays exact if and only if no page from 2 MiB on was mapped. */
    method GrowProc(r: nat, sz: nat, n: int) returns (ok: Prompt<bool>, newSz: nat)
      requires Valid() && Owned(M()) && Pos(r, 0, 0) in tabs && 0 < sz < USER_TOP && ImageOf(M(), r, sz)
      requires -0x8000_0000_0000_0000 <= n < 0x8000_0000_0000_0000
      modifies this
      ensures Valid() && Owned(M()) && ok != Panic && 0 < newSz < USER_TOP
      ensures ok == Ok(true) ==> ImageOf(M(), r, newSz) && newSz == if sz + n < 0 then sz else sz + n
      ensures ok == Ok(false) ==> newSz == sz && (ImageOf(M(), r, sz) <==> sz + n != 0 || PagesUp(sz) <= WORDS)
      ensures n > 0 && ok == Ok(false) ==> Grown(old(M()), M(), r) && SameEntries(old(M()), M())
      ensures ok == Ok(false) ==>
                sz + n == 0 || sz + n >= USER_TOP || (n > 0 && |old(free)| <= 4 * (PagesUp(sz + n) - PagesUp(sz)))
    {
      hide TreeOk, Chained, Owned, Populated, Lookup, Released, ImageOf, Unmapped, Grown, SameEntries;
      ghost var m := M();
      ok, newSz := Ok(true), sz;
      if n > 0 {
        var res := AllocUvm(r, sz, sz + n);
        ImageAbove(m, r, sz, sz + n);
        GrownRefl(m, r);
        assert res != Panic;
        if res.value == 0 {
          ImageSame(m, M(), r, sz);
          return Ok(false), sz;
        }
        newSz := res.value;
        ImageGrow(m, M(), r, sz, newSz, ZeroPages(PagesUp(newSz) - PagesUp(sz)));
      } else if n < 0 {
        var target := if sz + n < 0 then sz + n + 0x1_0000_0000_0000_0000 else sz + n;
        var res := DeallocUvm(r, sz, target);
        if target >= sz { ImageNothing(m, M(), r, sz, target); }
        else if target == 0 { ImageZero(m, M(), r, sz); }
        else { ImageShrink(m, M(), r, sz, target); }
        if res == 0 { return Ok(false), sz; }
        newSz := res;
      }
    }

    lemma ValidTree()
      requires Valid()
      ensures TreeOk(M())
    {
    }
  }

  function ZeroPages(n: nat): seq<Content> { seq(n, i => Content(7, Filled(0))) }

  ghost predicate AllocResult(m0: Memory, m: Memory, r: nat, oldSz: nat, newSz: nat, res: Prompt<nat>)
    requires oldSz <= newSz
  {
    var first, last := PagesUp(oldSz), PagesUp(newSz);
    || (&& res == Ok(newSz) && Populated(m0, m, r, first, ZeroPages(last - first), 0)
        && |m.free| + 4 * (last - first) >= |m0.free|)
    || (&& res == Ok(0) && |m0.free| <= 4 * (last - first)
        && (Unmapped(m0, r, first, last) ==> Grown(m0, m, r) && SameEntries(m0, m)))
    || (res == Panic && !Unmapped(m0, r, first, last))
  }

  lemma ZeroFlags(f: nat)
    ensures Flags(LeafEntry(f, 6)) == 7
  {
  }

  lemma UnmappedNot(m: Memory, r: nat, lo: nat, hi: nat, v: nat)
    requires lo <= v < hi && Present(Lookup(m, r, v))
    ensures !Unmapped(m, r, lo, hi)
  {
  }

  lemma PopulatedBeyond(m0: Memory, m: Memory, r: nat, lo: nat, want: seq<Content>, held: nat, v: nat)
    requires Populated(m0, m, r, lo, want, held) && v >= lo + |want|
    ensures Lookup(m, r, v) == Lookup(m0, r, v)
  {
  }

  lemma GrownTaken(m: Memory, m': Memory, r: nat, f: nat)
    requires Grown(m, m', r) && f in m.role && m.role[f] == Taken
    ensures f in m'.role && m'.role[f] == Taken
  {
  }

  lemma ReleasedTaken(m: Memory, m': Memory, r: nat, lo: nat, hi: nat, f: nat)
    requires Released(m, m', r, lo, hi) && f in m.role && m.role[f] == Taken
    ensures f in m'.role && m'.role[f] == Taken
  {
  }

  lemma MappedZero(m: Memory, m': Memory, r: nat, first: nat, pa: nat, perm: nat)
    requires perm < 4096 && Mapped(m, m', r, first, 0, pa, perm)
    ensures SameEntries(m, m')
  {
  }

  lemma UnderSelf(pos: Pos)
    ensures Under(pos, pos)
  {
  }

  lemma TreeParts(m: Memory)
    requires TreeOk(m)
    ensures RolesOk(m) && TablesOk(m)
  {
  }

  lemma BelowNone(m: Memory, pos: Pos)
    ensures forall p :: !Below(m, p, pos, 0)
    ensures forall p, i: nat :: Below(m, p, pos, i) ==> p in m.tabs && p != pos && Under(p, pos)
  {
  }

  lemma NotYet(m: Memory, p: Pos, pos: Pos, i: nat, gone: set<Pos>)
    requires i < WORDS && (p in gone || Below(m, p, pos, i)) && forall q :: q in gone ==> !Under(q, pos)
    ensures !Under(p, ChildPos(pos, i))
  {
    if Under(p, ChildPos(pos, i)) { ChildUnder(p, pos, i); assert false; }
  }

  lemma TornFree(m: Memory, m': Memory, gone: set<Pos>, pos: Pos)
    requires TreeOk(m) && Torn(m, m', gone) && pos in m.tabs && pos !in gone
    ensures forall k :: 0 <= k < |m'.free| ==> m'.free[k] != m.tabs[pos]
  {
    hide TreeOk;
    TornTable(m, m', gone, pos);
  }

  lemma DiscardIs(m: Memory, pos: Pos, link: nat)
    requires pos in m.tabs
    ensures Discard(m, pos, link) == Pushed(m, m.tabs[pos], link).(tabs := m.tabs - {pos})
  {
  }

  lemma ForgetKeys(role: map<nat, Role>, r: nat)
    ensures Forget(role, r).Keys == role.Keys
  {
  }

  lemma ReleasedTabs(m: Memory, m': Memory, r: nat, lo: nat, hi: nat)
    requires Released(m, m', r, lo, hi)
    ensures m'.tabs == m.tabs
  {
  }

  lemma FreeHead(m: Memory)
    requires TreeOk(m) && m.free != []
    ensures m.free[0] in m.role
  {
  }

  lemma TopTableIs(kernel: Page, page: Page)
    requires forall j :: 0 <= j < WORDS ==> page[j] == if HALF <= j < WORDS then kernel[j] else 0
    ensures page == TopTable(kernel)
  {
  }

  /** Some frame that was free is lost. */
  ghost predicate Leaked(m: Memory, m': Memory) {
    exists f :: f in m.role && m.role[f] == Free && f in m'.role && m'.role[f] == Lost
  }

  function Elements(q: seq<nat>): set<nat> { set x | x in q }

  lemma {:induction false} ElementsSize(q: seq<nat>)
    ensures |Elements(q)| <= |q|
  {
    if q != [] {
      ElementsSize(q[1..]);
      assert q == [q[0]] + q[1..];
      assert Elements(q) == Elements(q[1..]) + {q[0]};
    }
  }

  lemma SubsetSize(s: set<nat>, t: set<nat>)
    requires s <= t
    ensures |s| <= |t|
  {
    assert t == s + (t - s);
  }

  lemma FreeSize(m: Memory, s: set<nat>)
    requires TreeOk(m) && forall f :: f in s ==> f in m.role && m.role[f] == Free
    ensures |s| <= |m.free|
  {
    hide RolesOk, TablesOk;
    ElementsSize(m.free);
    SubsetSize(s, Elements(m.free));
  }

  /** The frames of the first k pages: all different, and free before. */
  lemma {:induction false} PageFrames(m: Memory, m': Memory, r: nat, want: seq<Content>, k: nat) returns (s: set<nat>)
    requires Populated(m, m', r, 1, want, 0) && k <= |want|
    ensures |s| == k
    ensures forall f :: f in s ==> f in m.role && m.role[f] == Free && m'.role[f].Leaf? && m'.role[f].vpn <= k
  {
    hide Lookup, Target, Flags;
    s := {};
    if k > 0 {
      s := PageFrames(m, m', r, want, k - 1);
      assert HoldsPage(m, m', r, 1 + (k - 1), want[k - 1]);
      s := s + {Target(Lookup(m', r, k))};
    }
  }

  /** A new table of the new space was a free frame. */
  lemma TableFresh(m: Memory, m1: Memory, m2: Memory, root: nat, want: seq<Content>, lv: nat)
    requires TreeOk(m) && Rooted(m, m1, root) && Populated(m1, m2, root, 1, want, 0) && TreeOk(m2)
    requires 1 <= lv <= 3 && Pos(root, lv, 0) in m2.tabs
    ensures var f := m2.tabs[Pos(root, lv, 0)];
            f in m.role && m.role[f] == Free && f != root && m2.role[f] == Table(Pos(root, lv, 0))
  {
    hide Lookup, TableOk, FreeOk, HoldsPage;
    TableFrame(m2, Pos(root, lv, 0));
  }

  /** A copy of the first pages took the root, three tables and a frame for each page. */
  lemma FramesUsed(m: Memory, m1: Memory, m2: Memory, root: nat, want: seq<Content>)
    requires TreeOk(m) && Rooted(m, m1, root) && Populated(m1, m2, root, 1, want, 0) && TreeOk(m2) && want != []
    ensures |m.free| >= |want| + 4
  {
    hide TreeOk, Rooted, Lookup, Populated;
    var s := PageFrames(m1, m2, root, want, |want|);
    FirstPresent(m1, m2, root, want);
    LastLevel(1);
    AncestorOf(m2, root, 1, 1);
    AncestorOf(m2, root, 1, 2);
    TableFresh(m, m1, m2, root, want, 1);
    TableFresh(m, m1, m2, root, want, 2);
    TableFresh(m, m1, m2, root, want, 3);
    RootedFrees(m, m1, root, s);
    var t := {root, m2.tabs[Pos(root, 1, 0)], m2.tabs[Pos(root, 2, 0)], m2.tabs[Pos(root, 3, 0)]};
    assert |s + t| == |s| + |t|;
    FreeSize(m, s + t);
  }

  lemma FirstPresent(m1: Memory, m2: Memory, root: nat, want: seq<Content>)
    requires Populated(m1, m2, root, 1, want, 0) && want != []
    ensures Pos(root, 3, 1 / WORDS) in m2.tabs
  {
    assert HoldsPage(m1, m2, root, 1 + 0, want[0]);
  }

  lemma RootedFrees(m: Memory, m1: Memory, root: nat, s: set<nat>)
    requires Rooted(m, m1, root) && forall f :: f in s ==> f in m1.role && m1.role[f] == Free
    ensures root in m.role && m.role[root] == Free && root !in s
    ensures forall f :: f in s ==> f in m.role && m.role[f] == Free
  {
  }

  lemma FailedAtOnce(m: Memory)
    ensures OnlyLoss(m, m) && !Leaked(m, m)
  {
  }

  lemma RootedTabs(m: Memory, m1: Memory, root: nat, r: nat)
    requires Rooted(m, m1, root) && Pos(r, 0, 0) in m.tabs
    ensures r != root && Pos(r, 0, 0) in m1.tabs && Pos(root, 0, 0) in m1.tabs && m1.role.Keys == m.role.Keys
  {
  }

  lemma RootedEmpty(m: Memory, m1: Memory, root: nat, v: nat)
    requires Rooted(m, m1, root)
    ensures !Present(Lookup(m1, root, v))
  {
  }

  /** The source page as the copy sees it: as it was before the copy began. */
  lemma SourcePage(m: Memory, m1: Memory, m2: Memory, r: nat, root: nat, want: seq<Content>, v: nat)
    requires Owned(m) && Rooted(m, m1, root) && Populated(m1, m2, root, 1, want, 0) && r != root
    ensures Lookup(m2, r, v) == Lookup(m, r, v)
  {
    hide Lookup;
  }

  lemma SourceKept(m: Memory, m1: Memory, m2: Memory, r: nat, root: nat, want: seq<Content>, f: nat, v: nat)
    requires RolesOk(m) && Owned(m) && Rooted(m, m1, root) && Populated(m1, m2, root, 1, want, f)
    requires Present(Lookup(m, r, v))
    ensures Target(Lookup(m, r, v)) in m2.mem
    ensures CopyOf(m, r, v, Content(Flags(Lookup(m, r, v)), m2.mem[Target(Lookup(m, r, v))]))
  {
    hide Lookup, Target, Flags;
    assert LeafAt(m, r, v);
  }

  lemma AbsentPage(m: Memory, r: nat, v: nat, hi: nat)
    requires 1 <= v < hi && !Present(Lookup(m, r, v))
    ensures !AllPresent(m, r, 1, hi)
  {
  }

  lemma CopyFlags(f: nat, e: nat)
    requires Present(e)
    ensures Flags(e) < 4096
    ensures Flags(LeafEntry(f, Flags(e))) == Flags(e)
  {
  }

  lemma PopulatedRoot(m0: Memory, m: Memory, root: nat, want: seq<Content>, r: nat)
    requires Populated(m0, m, root, 1, want, 0)
    ensures Pos(r, 0, 0) in m0.tabs ==> Pos(r, 0, 0) in m.tabs
  {
  }

  lemma PushedPopulated(m0: Memory, m: Memory, r: nat, want: seq<Content>, f: nat, link: nat)
    requires TreeOk(m) && Populated(m0, m, r, 1, want, f) && f in m.role && m.role[f] == Taken && f in m0.role
    requires m0.role[f] == Free
    ensures Populated(m0, Pushed(m, f, link), r, 1, want, 0)
  {
    hide TreeOk, Lookup, Filled, Target, Flags;
    PushedKeeps(m, f, link);
    forall j | 0 <= j < |want|
      ensures HoldsPage(m0, Pushed(m, f, link), r, 1 + j, want[j])
    {
      assert HoldsPage(m0, m, r, 1 + j, want[j]);
    }
  }

  lemma TabsBack(m: Memory, m1: Memory, m2: Memory, m3: Memory, root: nat, want: seq<Content>, hi: nat)
    requires Rooted(m, m1, root) && Populated(m1, m2, root, 1, want, 0) && Freed(m2, m3, root, hi) && TreeOk(m)
    requires TreeOk(m2)
    ensures m3.tabs == m.tabs
  {
    hide TreeOk, Lookup, FreedRole, HoldsPage;
    forall p | p in m3.tabs ensures p in m.tabs { NewTables(m, m1, m2, root, want, p); }
  }

  lemma NewTables(m: Memory, m1: Memory, m2: Memory, root: nat, want: seq<Content>, p: Pos)
    requires TreeOk(m) && Rooted(m, m1, root) && Populated(m1, m2, root, 1, want, 0) && TreeOk(m2) && p in m2.tabs
    requires p.root != root
    ensures p in m.tabs
  {
    hide Lookup, HoldsPage, FreeOk, TableOk;
    TableFrame(m2, p);
    var f := m2.tabs[p];
  }

  lemma FramesPositive(m: Memory)
    requires TreeOk(m)
    ensures forall f :: f in m.role ==> f > 0
  {
  }

  lemma UnmapIs(m: Memory, r: nat, v: nat, f: nat, link: nat)
    requires Pos(r, 3, v / WORDS) in m.tabs && m.tabs[Pos(r, 3, v / WORDS)] in m.mem
    ensures Unmap(m, r, v, f, link) == SetEntry(Pushed(m, f, link), r, v, 0)
  {
  }

  lemma NextRegion(v: nat, addr: nat)
    requires addr + 4096 == (v * 4096 + 0x20_0000) / 0x20_0000 * 0x20_0000
    ensures addr / 4096 + 1 == (v / WORDS + 1) * WORDS && addr % 4096 == 0
  {
    var q, low := v / WORDS + 1, v % WORDS;
    assert v * 4096 + 0x20_0000 == 0x20_0000 * q + 4096 * low && 0 <= 4096 * low < 0x20_0000;
    assert (v * 4096 + 0x20_0000) / 0x20_0000 == q;
    assert addr == 4096 * (WORDS * q - 1);
  }

  lemma SweepStart(m: Memory, r: nat, lo: nat, v: nat)
    requires v == lo || (v >= lo && v % WORDS == 0)
    ensures AllPresent(m, r, SweepFrom(lo, v), v)
  {
  }

  lemma GrownRefl(m: Memory, r: nat)
    ensures Grown(m, m, r) && SameEntries(m, m)
  {
  }

  lemma SameTwice(m: Memory, m1: Memory, m2: Memory)
    requires SameEntries(m, m1) && SameEntries(m1, m2)
    ensures SameEntries(m, m2)
  {
    hide Lookup;
  }

  lemma RootFrame(m: Memory, r: nat)
    requires TreeOk(m) && Pos(r, 0, 0) in m.tabs
    ensures m.tabs[Pos(r, 0, 0)] == r && r in m.mem && r in m.role && m.role[r] == Table(Pos(r, 0, 0))
  {
    assert TableOk(m, Pos(r, 0, 0));
  }

  lemma LookupAt(m: Memory, r: nat, vpn: nat)
    requires Pos(r, 3, vpn / WORDS) in m.tabs && m.tabs[Pos(r, 3, vpn / WORDS)] in m.mem
    ensures Lookup(m, r, vpn) == m.mem[m.tabs[Pos(r, 3, vpn / WORDS)]][vpn % WORDS]
  {
  }
}
