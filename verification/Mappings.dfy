/** What the operations of kernel/vm.c do to whole address spaces, as relations between
  * the memory before and after, with the lemmas that carry their loops.
  */
module Mappings {
  import opened PageTables

  // ---- map_pages --------------------------------------------------------------------

  /** Exactly the n pages from first map to the consecutive frames from pa. */
  ghost predicate Mapped(m: Memory, m': Memory, r: nat, first: nat, n: nat, pa: nat, perm: nat)
    requires perm < 4096
  {
    forall r': nat, v: nat ::
      Lookup(m', r', v) ==
        if r' == r && first <= v < first + n then LeafEntry(pa + (v - first), perm) else Lookup(m, r', v)
  }

  lemma MappedStep(m: Memory, m1: Memory, m2: Memory, r: nat, first: nat, n: nat, pa: nat, perm: nat)
    requires perm < 4096 && Mapped(m, m1, r, first, n, pa, perm) && SameEntries(m1, m2)
    requires TreeOk(m2) && Pos(r, 3, (first + n) / WORDS) in m2.tabs
    requires m2.tabs[Pos(r, 3, (first + n) / WORDS)] in m2.mem
    ensures Mapped(m, SetEntry(m2, r, first + n, LeafEntry(pa + n, perm)), r, first, n + 1, pa, perm)
  {
    hide Lookup, TreeOk, LeafEntry, SetEntry;
    var e := LeafEntry(pa + n, perm);
    SetEntryKeeps(m2, r, first + n, e);
    var m3 := SetEntry(m2, r, first + n, e);
    forall r': nat, v: nat
      ensures Lookup(m3, r', v) ==
                if r' == r && first <= v < first + n + 1 then LeafEntry(pa + (v - first), perm) else Lookup(m, r', v)
    {
      assert Lookup(m3, r', v) == if r' == r && v == first + n then e else Lookup(m2, r', v);
      assert Lookup(m2, r', v) == Lookup(m1, r', v);
    }
  }

  lemma SetGrown(m: Memory, r: nat, vpn: nat, w: nat)
    requires TreeOk(m) && Pos(r, 3, vpn / WORDS) in m.tabs
    ensures m.tabs[Pos(r, 3, vpn / WORDS)] in m.mem && Grown(m, SetEntry(m, r, vpn, w), r)
  {
    hide TreeOk;
    TableFrame(m, Pos(r, 3, vpn / WORDS));
  }

  lemma MappedNone(m: Memory, r: nat, first: nat, pa: nat, perm: nat)
    requires perm < 4096
    ensures Mapped(m, m, r, first, 0, pa, perm)
  {
  }

  lemma MappedSame(m: Memory, m1: Memory, m2: Memory, r: nat, first: nat, n: nat, pa: nat, perm: nat)
    requires perm < 4096 && Mapped(m, m1, r, first, n, pa, perm) && SameEntries(m1, m2)
    ensures Mapped(m, m2, r, first, n, pa, perm)
  {
    hide Lookup, LeafEntry;
  }

  lemma EntryKept(m: Memory, m': Memory, r: nat, vpn: nat)
    requires SameEntries(m, m')
    ensures Lookup(m', r, vpn) == Lookup(m, r, vpn)
  {
  }

  lemma MappedBeyond(m: Memory, m': Memory, r: nat, first: nat, n: nat, pa: nat, perm: nat, v: nat)
    requires perm < 4096 && Mapped(m, m', r, first, n, pa, perm) && v >= first + n
    ensures Lookup(m', r, v) == Lookup(m, r, v)
  {
    hide Lookup, LeafEntry;
  }

  lemma GrownRoot(m: Memory, m': Memory, r: nat)
    requires Grown(m, m', r) && Pos(r, 0, 0) in m.tabs
    ensures Pos(r, 0, 0) in m'.tabs
  {
  }

  // ---- who holds a mapped page ------------------------------------------------------

  /** An entry is zero, or present and names a frame that is mapped there and nowhere else. */
  ghost predicate LeafAt(m: Memory, r: nat, v: nat) {
    var e := Lookup(m, r, v);
    e == 0 || (Present(e) && Target(e) in m.role && m.role[Target(e)] == Leaf(r, v))
  }

  ghost predicate LeafBack(m: Memory, f: nat)
    requires f in m.role
  {
    m.role[f].Leaf? ==> var e := Lookup(m, m.role[f].root, m.role[f].vpn); Present(e) && Target(e) == f
  }

  ghost predicate Owned(m: Memory) {
    && (forall r: nat, v: nat :: LeafAt(m, r, v))
    && (forall f :: f in m.role ==> LeafBack(m, f))
  }

  // ---- dealloc_uvm ---------------------------------------------------------------------

  ghost predicate AllPresent(m: Memory, r: nat, a: nat, b: nat) {
    forall u: nat :: a <= u < b ==> Present(Lookup(m, r, u))
  }

  /** Where the sweep enters the 2 MiB region of page v. */
  function SweepFrom(lo: nat, v: nat): (u: nat)
    ensures lo <= v ==> u <= v
  {
    var base := v / WORDS * WORDS;
    if lo > base then lo else base
  }

  /** dealloc_uvm leaves a 2 MiB region at its first hole: it frees page v if and only if
    * every page from where it entered the region up to v is mapped. */
  ghost predicate Swept(m: Memory, r: nat, lo: nat, hi: nat, v: nat) {
    lo <= v < hi && AllPresent(m, r, SweepFrom(lo, v), v + 1)
  }

  ghost predicate Gone(m: Memory, r: nat, lo: nat, hi: nat, role: Role) {
    role.Leaf? && role.root == r && Swept(m, r, lo, hi, role.vpn)
  }

  /** Exactly the swept pages of r lose their entries and give back their frames. */
  ghost predicate Released(m: Memory, m': Memory, r: nat, lo: nat, hi: nat) {
    && m'.tabs == m.tabs && m'.kernel == m.kernel && m'.role.Keys == m.role.Keys
    && (forall f :: f in m.role ==> m'.role[f] == if Gone(m, r, lo, hi, m.role[f]) then Free else m.role[f])
    && (forall f ::
          f in m.role && Plain(m.role[f]) && !Gone(m, r, lo, hi, m.role[f]) && f in m.mem ==>
            f in m'.mem && m'.mem[f] == m.mem[f])
    && (forall r': nat, v: nat ::
          Lookup(m', r', v) == if r' == r && Swept(m, r, lo, hi, v) then 0 else Lookup(m, r', v))
  }

  lemma SweptStep(m: Memory, r: nat, lo: nat, hi: nat)
    requires lo <= hi && AllPresent(m, r, SweepFrom(lo, hi), hi) && Present(Lookup(m, r, hi))
    ensures forall v: nat :: Swept(m, r, lo, hi + 1, v) <==> Swept(m, r, lo, hi, v) || v == hi
    ensures AllPresent(m, r, SweepFrom(lo, hi + 1), hi + 1)
  {
    hide Lookup;
    assert AllPresent(m, r, SweepFrom(lo, hi), hi + 1);
  }

  lemma SweptJump(m: Memory, r: nat, lo: nat, hi: nat, hi': nat)
    requires lo <= hi && !Present(Lookup(m, r, hi)) && hi <= hi' <= (hi / WORDS + 1) * WORDS
    ensures forall v: nat :: Swept(m, r, lo, hi', v) <==> Swept(m, r, lo, hi, v)
  {
    hide Lookup;
    forall v: nat | hi <= v < hi' ensures !AllPresent(m, r, SweepFrom(lo, v), v + 1) {
      assert SweepFrom(lo, v) <= hi;
    }
  }

  lemma ReleasedNone(m: Memory, r: nat, lo: nat, hi: nat)
    requires hi <= lo
    ensures Released(m, m, r, lo, hi)
  {
  }

  lemma ReleasedSame(m: Memory, m': Memory, r: nat, lo: nat, hi: nat, hi': nat)
    requires Released(m, m', r, lo, hi) && forall v: nat :: Swept(m, r, lo, hi', v) <==> Swept(m, r, lo, hi, v)
    ensures Released(m, m', r, lo, hi')
  {
    hide Lookup, Swept;
    forall f | f in m.role ensures Gone(m, r, lo, hi', m.role[f]) <==> Gone(m, r, lo, hi, m.role[f]) {}
  }

  lemma ReleasedAt(m: Memory, m': Memory, r: nat, lo: nat, hi: nat)
    requires Owned(m) && Released(m, m', r, lo, hi)
    ensures Lookup(m', r, hi) == Lookup(m, r, hi)
    ensures Present(Lookup(m, r, hi)) ==>
              Target(Lookup(m, r, hi)) in m'.role && m'.role[Target(Lookup(m, r, hi))] == Leaf(r, hi)
  {
    hide Lookup;
    assert LeafAt(m, r, hi);
  }

  /** kfree of the frame and the cleared entry of one page. */
  function Unmap(m: Memory, r: nat, v: nat, f: nat, link: nat): Memory
    requires Pos(r, 3, v / WORDS) in m.tabs && m.tabs[Pos(r, 3, v / WORDS)] in m.mem
  {
    SetEntry(Pushed(m, f, link), r, v, 0)
  }

  lemma UnmapKeeps(m: Memory, r: nat, v: nat, f: nat, link: nat)
    requires TreeOk(m) && Pos(r, 3, v / WORDS) in m.tabs && f in m.role && m.role[f] == Leaf(r, v)
    ensures m.tabs[Pos(r, 3, v / WORDS)] in m.mem && TreeOk(Unmap(m, r, v, f, link))
    ensures var m' := Unmap(m, r, v, f, link);
            m'.role == m.role[f := Free] && m'.tabs == m.tabs && m'.kernel == m.kernel
    ensures forall r': nat, u: nat ::
              Lookup(Unmap(m, r, v, f, link), r', u) == if r' == r && u == v then 0 else Lookup(m, r', u)
    ensures var m' := Unmap(m, r, v, f, link);
            forall g :: g in m.role && Plain(m.role[g]) && g != f && g in m.mem ==> g in m'.mem && m'.mem[g] == m.mem[g]
  {
    hide TreeOk, Lookup;
    TableFrame(m, Pos(r, 3, v / WORDS));
    PushedKeeps(m, f, link);
    SetEntryKeeps(Pushed(m, f, link), r, v, 0);
  }

  lemma ReleasedStep(m: Memory, m1: Memory, m2: Memory, r: nat, lo: nat, v: nat, f: nat)
    requires Owned(m) && Released(m, m1, r, lo, v) && Present(Lookup(m, r, v)) && f == Target(Lookup(m, r, v))
    requires forall u: nat :: Swept(m, r, lo, v + 1, u) <==> Swept(m, r, lo, v, u) || u == v
    requires f in m1.role && m2.role == m1.role[f := Free] && m2.tabs == m1.tabs && m2.kernel == m1.kernel
    requires forall r': nat, u: nat :: Lookup(m2, r', u) == if r' == r && u == v then 0 else Lookup(m1, r', u)
    requires forall g ::
               g in m1.role && Plain(m1.role[g]) && g != f && g in m1.mem ==> g in m2.mem && m2.mem[g] == m1.mem[g]
    ensures Released(m, m2, r, lo, v + 1)
  {
    hide Lookup, Swept, Target;
    assert LeafAt(m, r, v);
    forall g | g in m.role ensures Gone(m, r, lo, v + 1, m.role[g]) <==> Gone(m, r, lo, v, m.role[g]) || g == f {
      assert LeafBack(m, g);
    }
    forall r': nat, u: nat
      ensures Lookup(m2, r', u) == if r' == r && Swept(m, r, lo, v + 1, u) then 0 else Lookup(m, r', u)
    {
      assert Lookup(m1, r', u) == if r' == r && Swept(m, r, lo, v, u) then 0 else Lookup(m, r', u);
    }
  }

  lemma ReleasedOwned(m: Memory, m': Memory, r: nat, lo: nat, hi: nat)
    requires Owned(m) && Released(m, m', r, lo, hi)
    ensures Owned(m')
  {
    hide Lookup, Swept, Present, Target;
    forall r': nat, v: nat ensures LeafAt(m', r', v) { assert LeafAt(m, r', v); }
    forall f | f in m'.role ensures LeafBack(m', f) { assert LeafBack(m, f); }
  }

  // ---- alloc_uvm and copy_uvm: adding pages one by one ------------------------------------

  datatype Content = Content(flags: nat, page: Page)

  /** Page v is mapped to a frame that was free in m0, with these flags and contents. */
  ghost predicate HoldsPage(m0: Memory, m: Memory, r: nat, v: nat, c: Content) {
    var e := Lookup(m, r, v);
    var f := Target(e);
    && Present(e) && Flags(e) == c.flags
    && f in m0.role && m0.role[f] == Free && f in m.role && m.role[f] == Leaf(r, v)
    && f in m.mem && m.mem[f] == c.page
  }

  /** What a frame that was free may have become. */
  predicate NewRole(role: Role, r: nat, lo: nat, hi: nat) {
    || role == Free
    || (role.Table? && role.pos.root == r)
    || (role.Leaf? && role.root == r && lo <= role.vpn < hi)
  }

  /** From m0 to m the pages from lo on were added with the wanted contents, in frames that
    * were free, and nothing that was in use changed; held is in the kernel's hands. */
  ghost predicate Populated(m0: Memory, m: Memory, r: nat, lo: nat, want: seq<Content>, held: nat) {
    && m.role.Keys == m0.role.Keys && m.kernel == m0.kernel
    && (forall f :: f in m0.role && m0.role[f] != Free ==> m.role[f] == m0.role[f])
    && (forall f :: f in m0.role && m0.role[f] == Free && f != held ==> NewRole(m.role[f], r, lo, lo + |want|))
    && (forall f :: f in m0.role && Plain(m0.role[f]) && f in m0.mem ==> f in m.mem && m.mem[f] == m0.mem[f])
    && (forall pos :: pos in m0.tabs ==> pos in m.tabs && m.tabs[pos] == m0.tabs[pos])
    && (forall r': nat :: Pos(r', 0, 0) in m.tabs ==> Pos(r', 0, 0) in m0.tabs)
    && (forall r': nat, v: nat :: (r' == r && lo <= v < lo + |want|) || Lookup(m, r', v) == Lookup(m0, r', v))
    && (forall j :: 0 <= j < |want| ==> HoldsPage(m0, m, r, lo + j, want[j]))
  }

  lemma PopulatedNone(m: Memory, r: nat, lo: nat)
    ensures Populated(m, m, r, lo, [], 0)
  {
  }

  lemma EntriesFromMem(m: Memory, m': Memory)
    requires m'.mem == m.mem && m'.tabs == m.tabs
    ensures SameEntries(m, m')
  {
  }

  /** kalloc: the frame is in the kernel's hands. */
  lemma PopulatedTake(m0: Memory, m: Memory, r: nat, lo: nat, want: seq<Content>)
    requires TreeOk(m) && Owned(m) && Populated(m0, m, r, lo, want, 0) && m.free != [] && 0 !in m0.role
    ensures Populated(m0, Popped(m), r, lo, want, m.free[0]) && Owned(Popped(m))
    ensures m.free[0] in m0.role && m0.role[m.free[0]] == Free
  {
    hide TreeOk, Lookup, Filled;
    PoppedKeeps(m);
    var m' := Popped(m);
    forall j | 0 <= j < |want|
      ensures HoldsPage(m0, m', r, lo + j, want[j])
    {
      assert HoldsPage(m0, m, r, lo + j, want[j]);
    }
    forall r': nat, v: nat ensures LeafAt(m', r', v) { assert LeafAt(m, r', v); }
    forall f | f in m'.role ensures LeafBack(m', f) { assert LeafBack(m, f); }
  }

  /** Writing the held frame. */
  lemma PopulatedFill(m0: Memory, m: Memory, r: nat, lo: nat, want: seq<Content>, f: nat, p: Page)
    requires TreeOk(m) && Owned(m) && Populated(m0, m, r, lo, want, f)
    requires f in m0.role && m0.role[f] == Free && m.role[f] == Taken
    ensures var m' := m.(mem := m.mem[f := p]); Populated(m0, m', r, lo, want, f) && Owned(m')
  {
    hide TreeOk, Lookup;
    FillKeeps(m, f, p);
    var m' := m.(mem := m.mem[f := p]);
    forall j | 0 <= j < |want|
      ensures HoldsPage(m0, m', r, lo + j, want[j])
    {
      assert HoldsPage(m0, m, r, lo + j, want[j]);
    }
    forall r': nat, v: nat ensures LeafAt(m', r', v) { assert LeafAt(m, r', v); }
    forall g | g in m'.role ensures LeafBack(m', g) { assert LeafBack(m, g); }
  }

  lemma PopulatedGrow(m0: Memory, m: Memory, m': Memory, r: nat, lo: nat, want: seq<Content>, held: nat)
    requires Owned(m) && Populated(m0, m, r, lo, want, held) && Grown(m, m', r) && SameEntries(m, m')
    ensures Populated(m0, m', r, lo, want, held) && Owned(m')
  {
    hide Lookup;
    forall j | 0 <= j < |want|
      ensures HoldsPage(m0, m', r, lo + j, want[j])
    {
      assert HoldsPage(m0, m, r, lo + j, want[j]);
    }
    forall r': nat, v: nat ensures LeafAt(m', r', v) { assert LeafAt(m, r', v); }
    forall f | f in m'.role ensures LeafBack(m', f) { assert LeafBack(m, f); }
  }

  lemma MapOwned(m: Memory, m': Memory, r: nat, v: nat, f: nat, perm: nat)
    requires perm < 4096 && Owned(m) && Grown(m, m', r) && Mapped(m, m', r, v, 1, f, perm) && !Present(Lookup(m, r, v))
    requires f in m.role && m.role[f] == Taken
    ensures Owned(m'.(role := m'.role[f := Leaf(r, v)]))
  {
    hide Lookup, LeafEntry, Present, Target, Flags;
    var m4 := m'.(role := m'.role[f := Leaf(r, v)]);
    EntriesFromMem(m', m4);
    forall r': nat, u: nat ensures LeafAt(m4, r', u) { assert LeafAt(m, r', u); }
    forall g | g in m4.role ensures LeafBack(m4, g) { assert LeafBack(m, g); }
  }

  lemma MapHolds(m0: Memory, m: Memory, m': Memory, r: nat, lo: nat, want: seq<Content>, f: nat, perm: nat, j: nat)
    requires perm < 4096 && Populated(m0, m, r, lo, want, f) && Grown(m, m', r)
    requires Mapped(m, m', r, lo + |want|, 1, f, perm)
    requires f in m0.role && m0.role[f] == Free && m.role[f] == Taken && f in m.mem && j <= |want|
    ensures var want' := want + [Content(Flags(LeafEntry(f, perm)), m.mem[f])];
            HoldsPage(m0, m'.(role := m'.role[f := Leaf(r, lo + |want|)]), r, lo + j, want'[j])
  {
    hide Lookup, LeafEntry, Present, Target, Flags;
    EntriesFromMem(m', m'.(role := m'.role[f := Leaf(r, lo + |want|)]));
    if j < |want| { assert HoldsPage(m0, m, r, lo + j, want[j]); }
  }

  /** The held frame becomes page v. */
  lemma PopulatedMap(m0: Memory, m: Memory, m': Memory, r: nat, lo: nat, want: seq<Content>, f: nat, perm: nat)
    requires perm < 4096 && Populated(m0, m, r, lo, want, f) && Grown(m, m', r)
    requires Mapped(m, m', r, lo + |want|, 1, f, perm)
    requires f in m0.role && m0.role[f] == Free && m.role[f] == Taken && f in m.mem
    ensures var m4 := m'.(role := m'.role[f := Leaf(r, lo + |want|)]);
            Populated(m0, m4, r, lo, want + [Content(Flags(LeafEntry(f, perm)), m.mem[f])], 0)
  {
    hide Lookup, LeafEntry, HoldsPage, Flags;
    var v := lo + |want|;
    var m4 := m'.(role := m'.role[f := Leaf(r, v)]);
    EntriesFromMem(m', m4);
    var want' := want + [Content(Flags(LeafEntry(f, perm)), m.mem[f])];
    forall j | 0 <= j < |want'|
      ensures HoldsPage(m0, m4, r, lo + j, want'[j])
    {
      MapHolds(m0, m, m', r, lo, want, f, perm, j);
    }
  }

  lemma RetagKeeps(m: Memory, f: nat, role: Role)
    requires TreeOk(m) && f in m.role && !m.role[f].Table? && m.role[f] != Free && !role.Table? && role != Free
    ensures TreeOk(m.(role := m.role[f := role])) && SameEntries(m, m.(role := m.role[f := role]))
  {
    hide TableOk, Lookup;
    PlainFrame(m, m.(role := m.role[f := role]));
  }

  /** Only tables were added, and perhaps the frame held was taken. */
  ghost predicate GrownBut(m: Memory, m': Memory, r: nat, held: nat) {
    && m'.role.Keys == m.role.Keys && m'.kernel == m.kernel
    && (forall f ::
          f in m.role && f != held ==>
            m'.role[f] == m.role[f] || (m.role[f] == Free && m'.role[f].Table? && m'.role[f].pos.root == r))
    && (forall f :: f in m.role && Plain(m.role[f]) && f in m.mem ==> f in m'.mem && m'.mem[f] == m.mem[f])
    && (forall pos :: pos in m.tabs ==> pos in m'.tabs && m'.tabs[pos] == m.tabs[pos])
    && (forall r': nat :: Pos(r', 0, 0) in m'.tabs ==> Pos(r', 0, 0) in m.tabs)
  }

  ghost predicate Unmapped(m: Memory, r: nat, lo: nat, hi: nat) {
    forall v: nat :: lo <= v < hi ==> !Present(Lookup(m, r, v))
  }

  lemma SweepsAdded(m0: Memory, m: Memory, r: nat, lo: nat, want: seq<Content>, hi: nat, held: nat)
    requires Populated(m0, m, r, lo, want, held) && lo + |want| <= hi && Unmapped(m0, r, lo, hi)
    ensures forall v: nat :: Swept(m, r, lo, hi, v) <==> lo <= v < lo + |want|
  {
    hide Lookup;
    forall v: nat | lo <= v < lo + |want| ensures Present(Lookup(m, r, v)) {
      assert HoldsPage(m0, m, r, lo + (v - lo), want[v - lo]);
    }
    forall v: nat | lo + |want| <= v < hi ensures !Swept(m, r, lo, hi, v) {
      assert Lookup(m, r, v) == Lookup(m0, r, v);
    }
  }

  /** dealloc_uvm after a partial alloc_uvm restores every entry and frees every page added. */
  lemma RollBack(m0: Memory, m1: Memory, m2: Memory, r: nat, lo: nat, want: seq<Content>, hi: nat, held: nat)
    requires Owned(m0) && Populated(m0, m1, r, lo, want, held) && lo + |want| <= hi && Unmapped(m0, r, lo, hi)
    requires Released(m1, m2, r, lo, hi)
    ensures SameEntries(m0, m2) && GrownBut(m0, m2, r, held)
  {
    hide Lookup, Swept, Target, HoldsPage;
    SweepsAdded(m0, m1, r, lo, want, hi, held);
    forall r': nat, v: nat ensures Lookup(m2, r', v) == Lookup(m0, r', v) {
      assert LeafAt(m0, r', v);
      assert Lookup(m2, r', v) == if r' == r && Swept(m1, r, lo, hi, v) then 0 else Lookup(m1, r', v);
    }
    forall f | f in m0.role && m0.role[f] != Free ensures !Gone(m1, r, lo, hi, m0.role[f]) {
      assert LeafBack(m0, f);
    }
  }

  lemma GrownButNone(m: Memory, m': Memory, r: nat)
    requires GrownBut(m, m', r, 0) && 0 !in m.role
    ensures Grown(m, m', r)
  {
  }

  lemma GrownButFreed(m: Memory, m': Memory, r: nat, f: nat, link: nat)
    requires GrownBut(m, m', r, f) && f in m.role && m.role[f] == Free
    ensures Grown(m, Pushed(m', f, link), r)
  {
    hide Filled;
  }

  lemma PushedOwned(m: Memory, f: nat, link: nat)
    requires TreeOk(m) && Owned(m) && f in m.role && m.role[f] == Taken
    ensures Owned(Pushed(m, f, link)) && SameEntries(m, Pushed(m, f, link))
  {
    hide TreeOk, Lookup, Filled, Present, Target;
    PushedKeeps(m, f, link);
    var m' := Pushed(m, f, link);
    forall r': nat, v: nat ensures LeafAt(m', r', v) { assert LeafAt(m, r', v); }
    forall g | g in m'.role ensures LeafBack(m', g) { assert LeafBack(m, g); }
  }

  lemma AdoptedOwned(m: Memory, f: nat, link: nat)
    requires TreeOk(m) && Owned(m) && f !in m.role && f > 0
    ensures Owned(Pushed(m, f, link)) && SameEntries(m, Pushed(m, f, link))
  {
    hide TreeOk, Lookup, Filled, Present, Target;
    AdoptedKeeps(m, f, link);
    var m' := Pushed(m, f, link);
    forall r': nat, v: nat ensures LeafAt(m', r', v) { assert LeafAt(m, r', v); }
    forall g | g in m'.role ensures LeafBack(m', g) { if g in m.role { assert LeafBack(m, g); } }
  }

  lemma PoppedOwned(m: Memory)
    requires TreeOk(m) && Owned(m) && m.free != []
    ensures Owned(Popped(m)) && SameEntries(m, Popped(m))
  {
    hide TreeOk, Lookup, Filled, Present, Target;
    PoppedKeeps(m);
    var m' := Popped(m);
    forall r': nat, v: nat ensures LeafAt(m', r', v) { assert LeafAt(m, r', v); }
    forall g | g in m'.role ensures LeafBack(m', g) { assert LeafBack(m, g); }
  }
}
