/** The argument stack that kernel/exec.c builds with copy_out in the page above the guard
  * page, through the page tables of the new space.
  */
module ArgStack {
  import opened Common
  import opened Bytes
  import opened PageTables
  import opened Mappings
  import opened Image
  import opened AddressSpaces
  import opened UserBytes

  const MAXARG := 32
  const PGSIZE := 4096

  /** User memory as bytes at addresses. */
  type Flat = map<nat, Byte>

  /** The bytes s stand at a. */
  ghost predicate Holds(mem: Flat, a: nat, s: seq<Byte>) {
    forall x :: a <= x < a + |s| ==> x in mem && mem[x] == s[x - a]
  }

  function Nth(s: seq<Byte>, a: nat, x: nat): Byte
    requires a <= x < a + |s|
  {
    s[x - a]
  }

  function Written(mem: Flat, a: nat, s: seq<Byte>): Flat {
    mem + map x: nat | a <= x < a + |s| :: Nth(s, a, x)
  }

  lemma WrittenHolds(mem: Flat, a: nat, s: seq<Byte>)
    ensures Holds(Written(mem, a, s), a, s)
  {
  }

  lemma WrittenFrame(mem: Flat, a: nat, s: seq<Byte>, b: nat, t: seq<Byte>)
    requires Holds(mem, b, t) && (b + |t| <= a || a + |s| <= b)
    ensures Holds(Written(mem, a, s), b, t)
  {
  }

  /** The bytes of the space r below sz. */
  ghost function View(m: Memory, r: nat, sz: nat): Flat { map a: nat | a < sz :: ByteAt(m, r, a) }

  lemma ViewWrote(m: Memory, m': Memory, r: nat, sz: nat, va: nat, data: seq<Byte>)
    requires Wrote(m, m', r, va, data) && va + |data| <= sz
    ensures View(m', r, sz) == Written(View(m, r, sz), va, data)
  {
    hide ByteAt;
    forall a: nat | a < sz ensures View(m', r, sz)[a] == Written(View(m, r, sz), va, data)[a] {
      assert ByteAt(m', r, a) == NewAt(m, r, va, data, r, a);
    }
  }

  // ---- where exec puts things ---------------------------------------------------------

  /** The stack pointer after the first n strings, each with its NUL, aligned to 8. */
  function SpAfter(sz: nat, argv: seq<seq<Byte>>, n: nat): int
    requires n <= |argv|
  {
    if n == 0 then sz else (SpAfter(sz, argv, n - 1) - (|argv[n - 1]| + 1)) / 8 * 8
  }

  function FinalSp(sz: nat, argv: seq<seq<Byte>>): int {
    (SpAfter(sz, argv, |argv|) - (|argv| + 1) * 8 - 8) / 16 * 16 - 8
  }

  /** The arguments are few enough and all fit in the last page. */
  predicate Fits(sz: nat, argv: seq<seq<Byte>>) {
    |argv| <= MAXARG && FinalSp(sz, argv) + 8 >= sz - PGSIZE
  }

  /** Strings with their NULs, rounded up to 8 bytes each. */
  function Padded(argv: seq<seq<Byte>>, n: nat): nat
    requires n <= |argv|
  {
    if n == 0 then 0 else Padded(argv, n - 1) + (|argv[n - 1]| + 1 + 7) / 8 * 8
  }

  lemma {:induction false} SpAfterIs(sz: nat, argv: seq<seq<Byte>>, n: nat)
    requires sz % 8 == 0 && n <= |argv|
    ensures SpAfter(sz, argv, n) == sz - Padded(argv, n) && SpAfter(sz, argv, n) % 8 == 0
  {
    if n > 0 {
      SpAfterIs(sz, argv, n - 1);
      RoundDown(SpAfter(sz, argv, n - 1), |argv[n - 1]| + 1);
    }
  }

  lemma RoundDown(sp: int, k: nat)
    requires sp % 8 == 0
    ensures (sp - k) / 8 * 8 == sp - (k + 7) / 8 * 8
  {
    var q, low := (k + 7) / 8, (k + 7) % 8;
    assert sp - k == 8 * (sp / 8 - q) + (7 - low);
    assert (sp - k) / 8 == sp / 8 - q;
  }

  /** The arguments fit if and only if there are at most 32 and the padded strings, the array with
    * its null and argc take no more than the page. */
  lemma FitsIff(sz: nat, argv: seq<seq<Byte>>)
    requires sz % 4096 == 0
    ensures Fits(sz, argv) <==> |argv| <= 32 && Padded(argv, |argv|) + 8 * (|argv| + 2) <= 4096
  {
    hide SpAfter, Padded, FinalSp;
    assert sz % 8 == 0 && (sz - 4096) % 16 == 0 by { PageAligned(sz); }
    SpAfterIs(sz, argv, |argv|);
    var sp := SpAfter(sz, argv, |argv|);
    FinalIs(sz, argv, sp);
    RoundedAbove(sp - (|argv| + 1) * 8 - 8, sz - 4096);
  }

  lemma PageAligned(sz: nat)
    requires sz % 4096 == 0
    ensures sz % 8 == 0 && (sz - 4096) % 16 == 0
  {
    var q := sz / 4096;
    assert sz == 8 * (512 * q) && sz - 4096 == 16 * (256 * q - 256);
  }

  lemma RoundedAbove(x: int, low: int)
    requires low % 16 == 0
    ensures x / 16 * 16 >= low <==> x >= low
  {
    var q := low / 16;
    assert low == 16 * q;
  }

  lemma {:induction false} SpFalls(sz: nat, argv: seq<seq<Byte>>, n: nat, k: nat)
    requires n <= k <= |argv|
    ensures SpAfter(sz, argv, k) <= SpAfter(sz, argv, n)
    decreases k
  {
    if n < k { SpFalls(sz, argv, n, k - 1); }
  }

  lemma SpNext(sz: nat, argv: seq<seq<Byte>>, n: nat)
    requires n < |argv|
    ensures SpAfter(sz, argv, n + 1) == (SpAfter(sz, argv, n) - (|argv[n]| + 1)) / 8 * 8
    ensures SpAfter(sz, argv, n) - 8 < SpAfter(sz, argv, n + 1) + |argv[n]| + 1 <= SpAfter(sz, argv, n)
  {
  }

  lemma SpStart(sz: nat, argv: seq<seq<Byte>>)
    ensures SpAfter(sz, argv, 0) == sz
  {
  }

  lemma FinalIs(sz: nat, argv: seq<seq<Byte>>, sp: int)
    requires sp == SpAfter(sz, argv, |argv|)
    ensures FinalSp(sz, argv) == (sp - (|argv| + 1) * 8 - 8) / 16 * 16 - 8
  {
  }

  lemma FinalBelow(sz: nat, argv: seq<seq<Byte>>, n: nat)
    requires n <= |argv|
    ensures FinalSp(sz, argv) + 16 + 8 * (|argv| + 1) <= SpAfter(sz, argv, n) && FinalSp(sz, argv) % 16 == 8
  {
    SpFalls(sz, argv, n, |argv|);
  }

  // ---- the stack a program starts with ---------------------------------------------------

  /** The i-th string and its NUL stand at its pointer, inside the last page. */
  ghost predicate StringAt(mem: Flat, sz: nat, s: seq<Byte>, p: nat) {
    sz - PGSIZE <= p && p % 8 == 0 && p + |s| + 1 <= sz && Holds(mem, p, s + [0])
  }

  ghost predicate StringsOk(mem: Flat, sz: nat, argv: seq<seq<Byte>>, ptrs: seq<nat>)
    requires |ptrs| <= |argv|
  {
    && (forall i :: 0 <= i < |ptrs| ==> StringAt(mem, sz, argv[i], ptrs[i]))
    && (forall i, j :: 0 <= i < j < |ptrs| ==> ptrs[j] + |argv[j]| + 1 <= ptrs[i])
  }

  /** Above the stack pointer lie, in this order and without overlap, argc, the argv array
    * with its null, and the strings, all in the last page; the stack pointer is 8 modulo 16. */
  ghost predicate StackOk(mem: Flat, sz: nat, argv: seq<seq<Byte>>, ptrs: seq<nat>, sp: nat) {
    var argc := |argv|;
    && |ptrs| == argc && StringsOk(mem, sz, argv, ptrs)
    && sp % 16 == 8 && sz - PGSIZE <= sp + 8 && sp + 16 + 8 * (argc + 1) <= sz
    && (forall i :: 0 <= i < argc ==> sp + 16 + 8 * (argc + 1) <= ptrs[i])
    && Holds(mem, sp + 8, ToLE(argc, 8))
    && (forall i :: 0 <= i < argc ==> Holds(mem, sp + 16 + 8 * i, ToLE(ptrs[i], 8)))
    && Holds(mem, sp + 16 + 8 * argc, ToLE(0, 8))
  }

  /** The last page is a user page, and the one under it is not. */
  ghost predicate Guarded(m: Memory, r: nat, sz: nat)
    requires 3 * PGSIZE <= sz
  {
    !UserPage(m, r, sz / PGSIZE - 2) && UserPage(m, r, sz / PGSIZE - 1)
  }

  lemma StillGuarded(m: Memory, m': Memory, r: nat, sz: nat)
    requires 3 * PGSIZE <= sz && Guarded(m, r, sz) && SameEntries(m, m')
    ensures Guarded(m', r, sz)
  {
    hide Lookup;
  }

  /** A write that ends near the last page and starts below it touches the guard page. */
  lemma GuardStops(m: Memory, r: nat, sz: nat, a: nat, n: nat)
    requires sz % PGSIZE == 0 && 3 * PGSIZE <= sz && Guarded(m, r, sz)
    requires n > 0 && sz - 2 * PGSIZE < a + n <= sz
    ensures Reachable(m, r, a, n) <==> sz - PGSIZE <= a
  {
    hide UserPage;
    var g := sz / PGSIZE - 2;
    if a < sz - PGSIZE {
      assert a / PGSIZE <= g <= (a + n - 1) / PGSIZE;
    } else {
      assert a / PGSIZE == g + 1 == (a + n - 1) / PGSIZE;
    }
  }

  lemma NoStrings(mem: Flat, sz: nat, argv: seq<seq<Byte>>)
    ensures StringsOk(mem, sz, argv, [])
  {
  }

  lemma StringsKept(mem: Flat, sz: nat, argv: seq<seq<Byte>>, ptrs: seq<nat>, a: nat, s: seq<Byte>)
    requires |ptrs| <= |argv| && StringsOk(mem, sz, argv, ptrs) && forall i :: 0 <= i < |ptrs| ==> a + |s| <= ptrs[i]
    ensures StringsOk(Written(mem, a, s), sz, argv, ptrs)
  {
    hide Holds, Written;
    forall i | 0 <= i < |ptrs| ensures StringAt(Written(mem, a, s), sz, argv[i], ptrs[i]) {
      assert StringAt(mem, sz, argv[i], ptrs[i]);
      WrittenFrame(mem, a, s, ptrs[i], argv[i] + [0]);
    }
  }

  lemma PushString(mem: Flat, sz: nat, argv: seq<seq<Byte>>, ptrs: seq<nat>, sp: nat)
    requires |ptrs| < |argv| && StringsOk(mem, sz, argv, ptrs)
    requires forall i :: 0 <= i < |ptrs| ==> sp + |argv[|ptrs|]| + 1 <= ptrs[i]
    requires sz - PGSIZE <= sp && sp % 8 == 0 && sp + |argv[|ptrs|]| + 1 <= sz
    ensures StringsOk(Written(mem, sp, argv[|ptrs|] + [0]), sz, argv, ptrs + [sp])
  {
    hide Holds, Written;
    var s := argv[|ptrs|] + [0];
    StringsKept(mem, sz, argv, ptrs, sp, s);
    WrittenHolds(mem, sp, s);
  }

  lemma HoldsPart(mem: Flat, a: nat, s: seq<Byte>, lo: nat, hi: nat)
    requires Holds(mem, a, s) && lo <= hi <= |s|
    ensures Holds(mem, a + lo, s[lo..hi])
  {
  }

  lemma ArrayAt(mem: Flat, a: nat, ws: seq<nat>, i: nat)
    requires Holds(mem, a, Words(ws)) && i < |ws|
    ensures Holds(mem, a + 8 * i, ToLE(ws[i], 8))
  {
    hide Holds, ToLE, Words;
    WordsAt(ws, i);
    HoldsPart(mem, a, Words(ws), 8 * i, 8 * i + 8);
  }

  /** The last two writes of exec complete the stack. */
  lemma StackDone(mem: Flat, sz: nat, argv: seq<seq<Byte>>, ptrs: seq<nat>, sp: nat)
    requires |ptrs| == |argv| && StringsOk(mem, sz, argv, ptrs)
    requires sp % 16 == 8 && sz - PGSIZE <= sp + 8 && sp + 16 + 8 * (|argv| + 1) <= sz
    requires forall i :: 0 <= i < |argv| ==> sp + 16 + 8 * (|argv| + 1) <= ptrs[i]
    ensures StackOk(Written(Written(mem, sp + 8, ToLE(|argv|, 8)), sp + 16, Words(ptrs + [0])), sz, argv, ptrs, sp)
  {
    hide Holds, Written, StringsOk, ToLE, Words;
    var w, ws := ToLE(|argv|, 8), ptrs + [0];
    var mem1 := Written(mem, sp + 8, w);
    var mem2 := Written(mem1, sp + 16, Words(ws));
    StringsKept(mem, sz, argv, ptrs, sp + 8, w);
    StringsKept(mem1, sz, argv, ptrs, sp + 16, Words(ws));
    WrittenHolds(mem, sp + 8, w);
    WrittenFrame(mem1, sp + 16, Words(ws), sp + 8, w);
    WrittenHolds(mem1, sp + 16, Words(ws));
    forall i | 0 <= i < |ws| ensures Holds(mem2, sp + 16 + 8 * i, ToLE(ws[i], 8)) { ArrayAt(mem2, sp + 16, ws, i); }
    forall i | 0 <= i < |argv| ensures Holds(mem2, sp + 16 + 8 * i, ToLE(ptrs[i], 8)) { assert ws[i] == ptrs[i]; }
    assert ws[|argv|] == 0;
  }

  /** Nothing but bytes of the space r changed. */
  ghost predicate OnlyBytes(m: Memory, m': Memory, r: nat) {
    && m'.role == m.role && m'.tabs == m.tabs && m'.free == m.free && m'.kernel == m.kernel && SameEntries(m, m')
    && (forall f :: f in m.mem ==> f in m'.mem && (OfSpace(m, r, f) || m'.mem[f] == m.mem[f]))
  }

  lemma OnlyBytesBy(m: Memory, m1: Memory, m2: Memory, r: nat, va: nat, data: seq<Byte>)
    requires OnlyBytes(m, m1, r) && Wrote(m1, m2, r, va, data)
    ensures OnlyBytes(m, m2, r)
  {
    hide Lookup, ByteAt;
    SameTwice(m, m1, m2);
  }

  /** The bytes below the last page stay. */
  ghost predicate StaysBelow(m: Memory, m': Memory, r: nat, sz: nat) {
    forall a: nat :: a + PGSIZE < sz ==> ByteAt(m', r, a) == ByteAt(m, r, a)
  }

  lemma BelowBy(m: Memory, m1: Memory, m2: Memory, r: nat, sz: nat, va: nat, data: seq<Byte>)
    requires StaysBelow(m, m1, r, sz) && Wrote(m1, m2, r, va, data) && sz <= va + PGSIZE
    ensures StaysBelow(m, m2, r, sz)
  {
    hide ByteAt;
    forall a: nat | a + PGSIZE < sz ensures ByteAt(m2, r, a) == ByteAt(m, r, a) {
      assert ByteAt(m2, r, a) == NewAt(m1, r, va, data, r, a);
    }
  }

  /** One copy_out of exec: it succeeds exactly inside the last page. */
  method Push(vm: Vm, r: nat, sz: nat, va: nat, data: seq<Byte>, ghost m: Memory) returns (ok: bool)
    requires vm.Valid() && Owned(vm.M()) && Pos(r, 0, 0) in vm.tabs && OnlyBytes(m, vm.M(), r)
    requires StaysBelow(m, vm.M(), r, sz)
    requires sz % PGSIZE == 0 && 3 * PGSIZE <= sz <= USER_TOP && Guarded(vm.M(), r, sz)
    requires data != [] && sz - 2 * PGSIZE < va + |data| <= sz
    modifies vm
    ensures vm.Valid() && Owned(vm.M()) && Pos(r, 0, 0) in vm.tabs && OnlyBytes(m, vm.M(), r)
    ensures ok <==> sz - PGSIZE <= va
    ensures ok ==>
              && Guarded(vm.M(), r, sz) && StaysBelow(m, vm.M(), r, sz)
              && View(vm.M(), r, sz) == Written(old(View(vm.M(), r, sz)), va, data)
  {
    hide TreeOk, Chained, Owned, Reachable, Wrote, Guarded, StaysBelow, OnlyBytes, View, Written;
    ghost var m1 := vm.M();
    GuardStops(m1, r, sz, va, |data|);
    ghost var k;
    ok, k := CopyOut(vm, r, va, data);
    WroteTabs(m1, vm.M(), r, va, data[..k]);
    OnlyBytesBy(m, m1, vm.M(), r, va, data[..k]);
    if ok {
      assert data[..k] == data;
      StillGuarded(m1, vm.M(), r, sz);
      BelowBy(m, m1, vm.M(), r, sz, va, data);
      ViewWrote(m1, vm.M(), r, sz, va, data);
    }
  }

  lemma SameBytes(m: Memory, r: nat, sz: nat)
    ensures OnlyBytes(m, m, r) && StaysBelow(m, m, r, sz)
  {
    hide Lookup, ByteAt;
  }

  /** exec's argument loop and its two final copies: they succeed if and only if the
    * arguments fit, and then the stack is as a program expects it; nothing below the last page
    * changed. In either case nothing but bytes of the space changed. */
  method PushArgs(vm: Vm, r: nat, sz: nat, argv: seq<seq<Byte>>) returns (ok: bool, sp: nat, ptrs: seq<nat>)
    requires vm.Valid() && Owned(vm.M()) && Pos(r, 0, 0) in vm.tabs
    requires sz % PGSIZE == 0 && 3 * PGSIZE <= sz <= USER_TOP && Guarded(vm.M(), r, sz)
    modifies vm
    ensures vm.Valid() && Owned(vm.M()) && Pos(r, 0, 0) in vm.tabs && OnlyBytes(old(vm.M()), vm.M(), r)
    ensures ok <==> Fits(sz, argv)
    ensures ok ==> StackOk(View(vm.M(), r, sz), sz, argv, ptrs, sp) && StaysBelow(old(vm.M()), vm.M(), r, sz)
  {
    hide StackOk, StringsOk, Written, SpAfter, FinalSp, Words, Holds, ToLE, View, StaysBelow, OnlyBytes, Guarded,
         TreeOk, Chained, Owned;
    ghost var m := vm.M();
    SameBytes(m, r, sz);
    var argc := 0;
    sp, ptrs := sz, [];
    assert SpAfter(sz, argv, 0) == sz by { SpStart(sz, argv); }
    assert StringsOk(View(vm.M(), r, sz), sz, argv, []) by { NoStrings(View(vm.M(), r, sz), sz, argv); }
    while argc < |argv|
      invariant vm.Valid() && Owned(vm.M()) && Pos(r, 0, 0) in vm.tabs && Guarded(vm.M(), r, sz)
      invariant OnlyBytes(m, vm.M(), r) && StaysBelow(m, vm.M(), r, sz)
      invariant argc <= |argv| && argc <= MAXARG && |ptrs| == argc && sp == SpAfter(sz, argv, argc)
      invariant sz - PGSIZE <= sp <= sz
      invariant StringsOk(View(vm.M(), r, sz), sz, argv, ptrs) && forall i :: 0 <= i < argc ==> sp <= ptrs[i]
    {
      if argc >= MAXARG { return false, 0, []; }
      SpNext(sz, argv, argc);
      FinalBelow(sz, argv, argc + 1);
      if |argv[argc]| + 1 > sp { return false, 0, []; }    // the address wraps around
      sp := sp - (|argv[argc]| + 1);
      sp := sp / 8 * 8;
      if sz - PGSIZE <= sp { PushString(View(vm.M(), r, sz), sz, argv, ptrs, sp); }
      var copied := Push(vm, r, sz, sp, argv[argc] + [0], m);
      if !copied { return false, 0, []; }
      ptrs := ptrs + [sp];
      argc := argc + 1;
    }
    FinalBelow(sz, argv, argc);
    FinalIs(sz, argv, sp);
    sp := sp - (argc + 1) * 8;
    sp := sp - 8;
    sp := sp / 16 * 16;
    sp := sp - 8;
    ghost var strings := View(vm.M(), r, sz);
    var done := Push(vm, r, sz, sp + 8, ToLE(argc, 8), m);
    if !done { return false, 0, []; }
    StackDone(strings, sz, argv, ptrs, sp);
    done := Push(vm, r, sz, sp + 16, Words(ptrs + [0]), m);
    ok := true;
  }
}
