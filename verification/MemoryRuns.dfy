/** Two runs from boot in which kernel/vm.c and kernel/proc.c lose pages. */
module MemoryRuns {
  import opened Common
  import opened PageTables
  import opened Mappings
  import opened Teardown
  import opened Image
  import opened AddressSpaces

  /** kinit, setup_uvm and alloc_uvm: a space with the pages 1 .. n mapped. */
  method Boot(hi: nat, n: nat) returns (vm: Vm, r: nat)
    requires 4 * n + 3 < hi && 0 < n && n + 1 < USER_PAGES
    ensures fresh(vm) && vm.Valid() && Owned(vm.M()) && Pos(r, 0, 0) in vm.tabs && ImageOf(vm.M(), r, (n + 1) * 4096)
    ensures |vm.free| + 4 * n + 2 >= hi && vm.lo == 1 && vm.hi == hi
  {
    hide TreeOk, Chained, Owned, Rooted, Populated, Lookup, ImageOf, Unmapped, SameEntries, Grown, Filled;
    vm := new Vm(1, hi, map[], Filled(0));
    var ok := vm.FreeRange(4096, hi * 4096);
    assert |vm.free| == hi - 1;
    ghost var m := vm.M();
    r := vm.SetupUvm();
    ImageEmpty(m, vm.M(), r);
    assert Pos(r, 0, 0) in vm.tabs by { RootedIn(m, vm.M(), r); }
    ghost var m1 := vm.M();
    ImageAbove(m1, r, 4096, (n + 1) * 4096);
    var res := vm.AllocUvm(r, 4096, (n + 1) * 4096);
    assert res == Ok((n + 1) * 4096);
    ImageGrow(m1, vm.M(), r, 4096, (n + 1) * 4096, ZeroPages(n));
    PopulatedRoot(m1, vm.M(), r, ZeroPages(n), r);
  }

  /** The pages that the kernel holds for other ends. */
  ghost predicate Holds(vm: Vm, taken: seq<nat>)
    reads vm
  {
    && (forall k :: 0 <= k < |taken| ==> taken[k] in vm.role && vm.role[taken[k]] == Taken)
    && (forall j, k :: 0 <= j < k < |taken| ==> taken[j] != taken[k])
  }

  /** Every free page is taken. */
  method Drain(vm: Vm, ghost r: nat, ghost sz: nat) returns (taken: seq<nat>)
    requires vm.Valid() && Owned(vm.M()) && ImageOf(vm.M(), r, sz)
    modifies vm
    ensures vm.Valid() && Owned(vm.M()) && ImageOf(vm.M(), r, sz) && vm.tabs == old(vm.tabs)
    ensures vm.free == [] && |taken| == |old(vm.free)| && Holds(vm, taken)
  {
    hide TreeOk, Chained, Owned, Lookup, ImageOf, Filled, SameEntries;
    taken := [];
    while true
      invariant vm.Valid() && Owned(vm.M()) && ImageOf(vm.M(), r, sz) && vm.tabs == old(vm.tabs)
      invariant |taken| + |vm.free| == |old(vm.free)| && Holds(vm, taken)
      decreases |vm.free|
    {
      ghost var m := vm.M();
      var f := vm.Kalloc();
      if f == 0 { return; }
      PoppedOwned(m);
      ImageSame(m, vm.M(), r, sz);
      FreeHeld(m, f);
      taken := taken + [f];
    }
  }

  lemma FreeHeld(m: Memory, f: nat)
    requires TreeOk(m) && f in m.free
    ensures f in m.role && m.role[f] == Free
  {
  }

  /** n of the pages taken are given back. */
  method Refill(vm: Vm, taken: seq<nat>, n: nat, ghost r: nat, ghost sz: nat)
    requires vm.Valid() && Owned(vm.M()) && ImageOf(vm.M(), r, sz) && Holds(vm, taken) && n <= |taken| && vm.free == []
    modifies vm
    ensures vm.Valid() && Owned(vm.M()) && ImageOf(vm.M(), r, sz) && vm.tabs == old(vm.tabs) && |vm.free| == n
  {
    hide TreeOk, Chained, Owned, Lookup, ImageOf, Filled, SameEntries;
    for i := 0 to n
      invariant vm.Valid() && Owned(vm.M()) && ImageOf(vm.M(), r, sz) && vm.tabs == old(vm.tabs)
      invariant |vm.free| == i && Holds(vm, taken[i..])
    {
      ghost var m := vm.M();
      assert taken[i..][0] == taken[i];
      PushedOwned(m, taken[i], vm.freeList);
      var ok := vm.Kfree(taken[i]);
      ImageSame(m, vm.M(), r, sz);
      assert taken[i + 1..] == taken[i..][1..];
    }
  }

  /** A process with two pages forks when five pages are free: copy_uvm copies the first page,
    * finds no frame for the second, and a frame is lost. */
  method ForkLoses() returns (vm: Vm, r: nat, ghost m: Memory)
    ensures TreeOk(m) && Owned(m) && ImageOf(m, r, 0x3000) && |m.free| == 5
    ensures Leaked(m, vm.M())
  {
    hide TreeOk, Chained, Owned, Lookup, Filled, Leaked, Copied, OnlyLoss;
    vm, r := Boot(20, 2);
    var taken := Drain(vm, r, 0x3000);
    Refill(vm, taken, 5, r, 0x3000);
    m := vm.M();
    assert AllPresent(m, r, 1, PagesUp(0x3000));
    var res := vm.CopyUvm(r, 0x3000);
  }

  /** A process with a page at 2 MiB shrinks to exactly 0: grow_proc fails, and the size it
    * keeps is no longer the size of what is mapped. */
  method ShrinkLoses() returns (vm: Vm, r: nat, sz: nat)
    ensures sz == 0x20_1000 && !ImageOf(vm.M(), r, sz)
  {
    hide TreeOk, Chained, Owned, Lookup, ImageOf;
    vm, r := Boot(3000, 512);
    var ok;
    ok, sz := vm.GrowProc(r, 0x20_1000, -0x20_1000);
    assert ok.Ok? && !ok.value;
  }
}
