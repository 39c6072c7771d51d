/** Which pages of a process are mapped: exec, fork and sbrk keep the mapped pages exactly
  * those from the null page up to the size.
  */
module Image {
  import opened PageTables
  import opened Mappings
  import opened Teardown

  const USER_TOP := USER_PAGES * 4096

  function PagesUp(sz: nat): nat { (sz + 4095) / 4096 }

  /** The page at 0 is never mapped; every other page below the size is. */
  ghost predicate ImageOf(m: Memory, r: nat, sz: nat) {
    forall v: nat :: Present(Lookup(m, r, v)) <==> 1 <= v < PagesUp(sz)
  }

  /** In bytes: from 4096 up to the size every address is mapped, and no page is that lies wholly
    * beyond. */
  lemma ImageInBytes(m: Memory, r: nat, sz: nat)
    requires ImageOf(m, r, sz)
    ensures forall a: nat :: 4096 <= a < sz ==> Present(Lookup(m, r, a / 4096))
    ensures forall v: nat :: Present(Lookup(m, r, v)) ==> 4096 <= v * 4096 < sz
  {
    hide Lookup;
  }

  lemma ImageAbove(m: Memory, r: nat, sz: nat, newSz: nat)
    requires ImageOf(m, r, sz) && 0 < sz
    ensures Unmapped(m, r, PagesUp(sz), PagesUp(newSz)) && AllPresent(m, r, 1, PagesUp(sz))
  {
    hide Lookup;
  }

  lemma ImageEmpty(m: Memory, m1: Memory, root: nat)
    requires Rooted(m, m1, root)
    ensures ImageOf(m1, root, 4096)
  {
  }

  lemma RootedIn(m: Memory, m1: Memory, root: nat)
    requires Rooted(m, m1, root)
    ensures Pos(root, 0, 0) in m1.tabs
  {
  }

  lemma ImageSame(m: Memory, m': Memory, r: nat, sz: nat)
    requires ImageOf(m, r, sz) && SameEntries(m, m')
    ensures ImageOf(m', r, sz)
  {
    hide Lookup;
    forall v: nat
      ensures Present(Lookup(m', r, v)) <==> 1 <= v < PagesUp(sz)
    {
      assert Lookup(m', r, v) == Lookup(m, r, v);
    }
  }

  lemma ImageGrow(m: Memory, m': Memory, r: nat, sz: nat, newSz: nat, want: seq<Content>)
    requires ImageOf(m, r, sz) && 0 < sz <= newSz && Populated(m, m', r, PagesUp(sz), want, 0)
    requires |want| == PagesUp(newSz) - PagesUp(sz)
    ensures ImageOf(m', r, newSz)
  {
    hide Lookup, PagesUp, Present, Target, Flags;
    assert PagesUp(sz) >= 1 by { SomePage(sz); }
    forall v: nat ensures Present(Lookup(m', r, v)) <==> 1 <= v < PagesUp(newSz) {
      if PagesUp(sz) <= v < PagesUp(newSz) {
        assert HoldsPage(m, m', r, PagesUp(sz) + (v - PagesUp(sz)), want[v - PagesUp(sz)]);
      } else {
        assert Lookup(m', r, v) == Lookup(m, r, v);
      }
    }
  }

  lemma SomePage(sz: nat)
    ensures sz > 0 ==> PagesUp(sz) >= 1
  {
  }

  lemma ImageNothing(m: Memory, m': Memory, r: nat, sz: nat, target: nat)
    requires ImageOf(m, r, sz) && target >= sz && Released(m, m', r, PagesUp(target), PagesUp(sz))
    ensures ImageOf(m', r, sz)
  {
    hide Lookup;
    forall v: nat ensures Lookup(m', r, v) == Lookup(m, r, v) { assert !Swept(m, r, PagesUp(target), PagesUp(sz), v); }
  }

  /** Over an image, dealloc_uvm to a positive size meets no hole: it frees its whole range. */
  lemma ImageShrink(m: Memory, m': Memory, r: nat, sz: nat, target: nat)
    requires ImageOf(m, r, sz) && 0 < target <= sz && Released(m, m', r, PagesUp(target), PagesUp(sz))
    ensures ImageOf(m', r, target)
    ensures forall v: nat :: Swept(m, r, PagesUp(target), PagesUp(sz), v) <==> PagesUp(target) <= v < PagesUp(sz)
  {
    hide Lookup;
    forall v: nat ensures Swept(m, r, PagesUp(target), PagesUp(sz), v) <==> PagesUp(target) <= v < PagesUp(sz) {}
    forall v: nat ensures Present(Lookup(m', r, v)) <==> 1 <= v < PagesUp(target) {
      assert Lookup(m', r, v) == if Swept(m, r, PagesUp(target), PagesUp(sz), v) then 0 else Lookup(m, r, v);
    }
  }

  /** Down to 0 it starts in the null page's hole: it frees exactly the pages from 2 MiB on. */
  lemma ImageZero(m: Memory, m': Memory, r: nat, sz: nat)
    requires ImageOf(m, r, sz) && 0 < sz && Released(m, m', r, PagesUp(0), PagesUp(sz))
    ensures forall v: nat :: Swept(m, r, PagesUp(0), PagesUp(sz), v) <==> WORDS <= v < PagesUp(sz)
    ensures ImageOf(m', r, sz) <==> PagesUp(sz) <= WORDS
  {
    hide Lookup;
    forall v: nat ensures Swept(m, r, PagesUp(0), PagesUp(sz), v) <==> WORDS <= v < PagesUp(sz) {
      if v < WORDS { assert SweepFrom(0, v) == 0 && !Present(Lookup(m, r, 0)); }
    }
    forall v: nat ensures Lookup(m', r, v) == if WORDS <= v < PagesUp(sz) then 0 else Lookup(m, r, v) {
      assert Lookup(m', r, v) == if Swept(m, r, PagesUp(0), PagesUp(sz), v) then 0 else Lookup(m, r, v);
    }
    if PagesUp(sz) > WORDS { assert !Present(Lookup(m', r, WORDS)); }
  }

  /** A copy has the image of its parent, whose own image stays. */
  lemma ImageCopy(m: Memory, m': Memory, r: nat, n: nat, sz: nat)
    requires ImageOf(m, r, sz) && 0 < sz && r != n && Copied(m, m', r, n, PagesUp(sz))
    ensures ImageOf(m', n, sz) && ImageOf(m', r, sz)
  {
    hide Lookup, Target, Flags, CopyOf;
    forall v: nat ensures Present(Lookup(m', n, v)) <==> 1 <= v < PagesUp(sz) {
      if 1 <= v < PagesUp(sz) { assert CopiedPage(m, m', r, n, v); }
    }
    forall v: nat ensures Lookup(m', r, v) == Lookup(m, r, v) {}
  }
}
