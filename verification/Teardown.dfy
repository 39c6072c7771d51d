/** free_entry and free_vm of kernel/vm.c: tearing down the tables of one address space. */
module Teardown {
  import opened PageTables
  import opened Mappings

  function ParentPos(p: Pos): Pos
    requires p.lv > 0
  {
    Pos(p.root, p.lv - 1, p.prefix / WORDS)
  }

  /** The ancestor at a level. */
  function Up(p: Pos, lv: nat): Pos
    decreases p.lv
  {
    if p.lv <= lv then p else Up(ParentPos(p), lv)
  }

  predicate Under(p: Pos, pos: Pos) { p.lv >= pos.lv && Up(p, pos.lv) == pos }

  lemma {:induction false} UpStep(p: Pos, lv: nat)
    requires p.lv > lv
    ensures Up(p, lv + 1).lv == lv + 1 && Up(p, lv) == ParentPos(Up(p, lv + 1))
    decreases p.lv
  {
    if p.lv > lv + 1 { UpStep(ParentPos(p), lv); }
  }

  lemma {:induction false} UpIn(m: Memory, p: Pos, lv: nat)
    requires TablesOk(m) && p in m.tabs
    ensures Up(p, lv) in m.tabs && Up(p, lv).root == p.root
    decreases p.lv
  {
    hide EntryOk;
    assert TableOk(m, p);
    if p.lv > lv { UpIn(m, ParentPos(p), lv); }
  }

  /** Which child of the table leads to p. */
  function ChildIndex(p: Pos, lv: nat): nat { Up(p, lv + 1).prefix % WORDS }

  lemma UnderChild(m: Memory, p: Pos, pos: Pos)
    requires TablesOk(m) && p in m.tabs && Under(p, pos) && p != pos
    ensures p.lv > pos.lv && ChildIndex(p, pos.lv) < Limit(pos.lv)
    ensures Up(p, pos.lv + 1) == ChildPos(pos, ChildIndex(p, pos.lv)) && ChildPos(pos, ChildIndex(p, pos.lv)) in m.tabs
  {
    UpStep(p, pos.lv);
    UpIn(m, p, pos.lv + 1);
    assert TableOk(m, Up(p, pos.lv + 1)) by { TableOkAt(m, Up(p, pos.lv + 1)); }
  }

  lemma ChildUnder(p: Pos, pos: Pos, i: nat)
    requires i < WORDS && Under(p, ChildPos(pos, i))
    ensures Under(p, pos) && p != pos && ChildIndex(p, pos.lv) == i
  {
    UpStep(p, pos.lv);
  }

  /** Table p lies below pos, through one of its first i entries. */
  ghost predicate Below(m: Memory, p: Pos, pos: Pos, i: nat) {
    p in m.tabs && Under(p, pos) && p != pos && ChildIndex(p, pos.lv) < i
  }

  lemma BelowStep(m: Memory, pos: Pos, i: nat)
    requires TablesOk(m) && i < WORDS
    ensures forall p ::
              Below(m, p, pos, i + 1) <==>
                Below(m, p, pos, i) || (ChildPos(pos, i) in m.tabs && p in m.tabs && Under(p, ChildPos(pos, i)))
  {
    hide TablesOk, Up;
    forall p | p in m.tabs && Under(p, pos) && p != pos && ChildIndex(p, pos.lv) == i
      ensures ChildPos(pos, i) in m.tabs && Under(p, ChildPos(pos, i))
    {
      UnderChild(m, p, pos);
    }
    forall p | p in m.tabs && Under(p, ChildPos(pos, i))
      ensures Below(m, p, pos, i + 1) && !Below(m, p, pos, i)
    {
      ChildUnder(p, pos, i);
    }
  }

  lemma BelowAll(m: Memory, pos: Pos)
    requires TablesOk(m) && pos in m.tabs
    ensures forall p :: p in m.tabs && Under(p, pos) && p != pos ==> pos.lv < 3 && Below(m, p, pos, Limit(pos.lv))
  {
    hide Up, EntryOk;
    forall p | p in m.tabs && Under(p, pos) && p != pos ensures pos.lv < 3 && Below(m, p, pos, Limit(pos.lv)) {
      UnderChild(m, p, pos);
      assert TableOk(m, p);
    }
  }

  /** From m to m' exactly the tables in gone were given to kfree. */
  ghost predicate Torn(m: Memory, m': Memory, gone: set<Pos>) {
    && m'.role.Keys == m.role.Keys && m'.kernel == m.kernel && FreeOk(m'.role, m'.free)
    && m'.tabs == m.tabs - gone
    && (forall f :: f in m.role ==> m'.role[f] == if m.role[f].Table? && m.role[f].pos in gone then Free else m.role[f])
    && (forall f ::
          f in m.role && m.role[f] != Free && m'.role[f] != Free ==> f in m'.mem && f in m.mem && m'.mem[f] == m.mem[f])
    && (forall f :: f in m'.role ==> f in m'.mem)
  }

  lemma TornNone(m: Memory)
    requires TreeOk(m)
    ensures Torn(m, m, {})
  {
    assert m.tabs - {} == m.tabs;
  }

  function Discard(m: Memory, pos: Pos, link: nat): Memory
    requires pos in m.tabs
  {
    Pushed(m, m.tabs[pos], link).(tabs := m.tabs - {pos})
  }

  lemma TornTable(m: Memory, m': Memory, gone: set<Pos>, pos: Pos)
    requires TreeOk(m) && Torn(m, m', gone) && pos in m.tabs && pos !in gone
    ensures pos in m'.tabs && m'.tabs[pos] == m.tabs[pos] && m.tabs[pos] in m'.role
    ensures m'.role[m.tabs[pos]] == Table(pos)
    ensures m.tabs[pos] in m'.mem && m.tabs[pos] in m.mem && m'.mem[m.tabs[pos]] == m.mem[m.tabs[pos]]
  {
    hide TreeOk;
    TableFrame(m, pos);
  }

  lemma TornStep(m: Memory, m': Memory, gone: set<Pos>, pos: Pos, link: nat)
    requires TreeOk(m) && Torn(m, m', gone) && pos in m.tabs && pos !in gone
    ensures pos in m'.tabs && Torn(m, Discard(m', pos, link), gone + {pos})
  {
    hide Filled, TablesOk, FreeOk;
    TornTable(m, m', gone, pos) by { assert TreeOk(m); }
    PushFree(m'.role, m'.free, m.tabs[pos]);
    assert m.tabs - gone - {pos} == m.tabs - (gone + {pos});
  }

  lemma TornEntries(m: Memory, m': Memory, gone: set<Pos>, r: nat)
    requires TreeOk(m) && Torn(m, m', gone) && forall p :: p in gone <==> p in m.tabs && p.root == r
    ensures forall r': nat, v: nat :: Lookup(m', r', v) == if r' == r then 0 else Lookup(m, r', v)
  {
    hide FreeOk, TreeOk;
    forall r': nat, v: nat ensures Lookup(m', r', v) == if r' == r then 0 else Lookup(m, r', v) {
      var p := Pos(r', 3, v / WORDS);
      if p in m.tabs && r' != r { TornTable(m, m', gone, p); }
    }
  }

  /** The end of free_entry on a top-level table: no table of r is left, and the trees of
    * the other address spaces are as they were. */
  lemma TornAll(m: Memory, m': Memory, gone: set<Pos>, r: nat)
    requires TreeOk(m) && Torn(m, m', gone) && forall p :: p in gone <==> p in m.tabs && p.root == r
    ensures TreeOk(m') && forall r': nat, v: nat :: Lookup(m', r', v) == if r' == r then 0 else Lookup(m, r', v)
  {
    hide FreeOk, TableOk, Lookup;
    forall p | p in m'.tabs ensures TableOk(m', p) { TornOther(m, m', gone, r, p); }
    TornEntries(m, m', gone, r);
  }

  lemma TornOther(m: Memory, m': Memory, gone: set<Pos>, r: nat, p: Pos)
    requires TreeOk(m) && Torn(m, m', gone) && p in m'.tabs && forall p :: p in gone <==> p in m.tabs && p.root == r
    ensures TableOk(m', p)
  {
    hide FreeOk, RolesOk;
    TableFrame(m, p);
    TornTable(m, m', gone, p);
    assert TableOk(m, p);
    if p.lv < 3 {
      forall i | 0 <= i < Limit(p.lv) ensures EntryOk(m', p, i) { assert EntryOk(m, p, i); }
    }
  }

  lemma {:induction false} AllUnderRoot(m: Memory, r: nat, p: Pos)
    requires TreeOk(m) && p in m.tabs && Pos(r, 0, 0) in m.tabs
    ensures Under(p, Pos(r, 0, 0)) <==> p.root == r
  {
    UpIn(m, p, 0);
    UpLevel(p, 0);
    assert TableOk(m, Up(p, 0)) by { TableOkAt(m, Up(p, 0)); }
  }

  lemma {:induction false} UpLevel(p: Pos, lv: nat)
    requires p.lv >= lv
    ensures Up(p, lv).lv == lv
    decreases p.lv
  {
    if p.lv > lv { UpLevel(ParentPos(p), lv); }
  }

  // ---- free_vm ----------------------------------------------------------------------

  ghost function FreedRole(m: Memory, r: nat, hi: nat, role: Role): Role {
    if role.Table? && role.pos.root == r then Free
    else if role.Leaf? && role.root == r then (if Swept(m, r, 0, hi, role.vpn) then Free else Lost)
    else role
  }

  /** free_vm gives back every table of r and the swept pages; the other pages of r are lost. */
  ghost predicate Freed(m: Memory, m': Memory, r: nat, hi: nat) {
    && m'.role.Keys == m.role.Keys && m'.kernel == m.kernel
    && (forall f :: f in m.role ==> m'.role[f] == FreedRole(m, r, hi, m.role[f]))
    && (forall f ::
          f in m.role && Plain(m.role[f]) && Plain(m'.role[f]) && f in m.mem ==> f in m'.mem && m'.mem[f] == m.mem[f])
    && (forall pos :: pos in m'.tabs <==> pos in m.tabs && pos.root != r)
    && (forall pos :: pos in m'.tabs ==> m'.tabs[pos] == m.tabs[pos])
    && (forall r': nat, v: nat :: Lookup(m', r', v) == if r' == r then 0 else Lookup(m, r', v))
  }

  function Forget(role: map<nat, Role>, r: nat): map<nat, Role> {
    map f | f in role :: if role[f].Leaf? && role[f].root == r then Lost else role[f]
  }

  lemma ForgetKeeps(m: Memory, r: nat)
    requires TreeOk(m)
    ensures TreeOk(m.(role := Forget(m.role, r))) && SameEntries(m, m.(role := Forget(m.role, r)))
  {
    hide TableOk, Lookup;
    PlainFrame(m, m.(role := Forget(m.role, r)));
  }

  lemma FreedFrame(m: Memory, m1: Memory, m2: Memory, r: nat, hi: nat, gone: set<Pos>, f: nat)
    requires RolesOk(m) && Released(m, m1, r, 0, hi) && Torn(m1, m2, gone)
    requires forall p :: p in gone <==> p in m1.tabs && p.root == r
    requires f in m.role
    ensures f in Forget(m2.role, r) && Forget(m2.role, r)[f] == FreedRole(m, r, hi, m.role[f])
    ensures Plain(m.role[f]) && Plain(Forget(m2.role, r)[f]) && f in m.mem ==> f in m2.mem && m2.mem[f] == m.mem[f]
  {
    hide Lookup, Swept, FreeOk;
    assert m1.role[f] == if Gone(m, r, 0, hi, m.role[f]) then Free else m.role[f];
  }

  lemma FreedByTearing(m: Memory, m1: Memory, m2: Memory, r: nat, hi: nat, gone: set<Pos>)
    requires RolesOk(m) && Released(m, m1, r, 0, hi) && Torn(m1, m2, gone)
    requires forall p :: p in gone <==> p in m1.tabs && p.root == r
    requires forall r': nat, v: nat :: Lookup(m2, r', v) == if r' == r then 0 else Lookup(m1, r', v)
    ensures Freed(m, m2.(role := Forget(m2.role, r)), r, hi)
  {
    hide Lookup, Swept, FreeOk, FreedRole, RolesOk;
    EntriesFromMem(m2, m2.(role := Forget(m2.role, r)));
    forall f | f in m.role
      ensures f in Forget(m2.role, r) && Forget(m2.role, r)[f] == FreedRole(m, r, hi, m.role[f])
      ensures Plain(m.role[f]) && Plain(Forget(m2.role, r)[f]) && f in m.mem ==> f in m2.mem && m2.mem[f] == m.mem[f]
    {
      FreedFrame(m, m1, m2, r, hi, gone, f);
    }
  }

  lemma FreedOwned(m: Memory, m': Memory, r: nat, hi: nat)
    requires Owned(m) && Freed(m, m', r, hi)
    ensures Owned(m')
  {
    hide Lookup, Swept, Present, Target;
    forall r': nat, v: nat ensures LeafAt(m', r', v) { assert LeafAt(m, r', v); }
    forall f | f in m'.role ensures LeafBack(m', f) { assert LeafBack(m, f); }
  }

  /** free_vm gives back every frame of the address space if and only if each mapped page
    * lies below sz and has no hole under it in its 2 MiB region. */
  lemma FreesAllIff(m: Memory, m': Memory, r: nat, hi: nat)
    requires Owned(m) && Freed(m, m', r, hi)
    ensures (forall f :: f in m.role && m.role[f].Leaf? && m.role[f].root == r ==> m'.role[f] == Free)
            <==> (forall v: nat :: Present(Lookup(m, r, v)) ==> v < hi && AllPresent(m, r, v / WORDS * WORDS, v + 1))
  {
    hide Lookup, Target, AllPresent;
    forall v: nat | Present(Lookup(m, r, v)) ensures LeafAt(m, r, v) && SweepFrom(0, v) == v / WORDS * WORDS {}
    forall f | f in m.role ensures LeafBack(m, f) {}
    if forall f :: f in m.role && m.role[f].Leaf? && m.role[f].root == r ==> m'.role[f] == Free {
      forall v: nat | Present(Lookup(m, r, v)) ensures Swept(m, r, 0, hi, v) { assert LeafAt(m, r, v); }
    }
  }

  /** A space whose page 0 is not mapped, as copy_uvm leaves it, loses each of its pages
    * below 2 MiB. */
  lemma NullPageLoses(m: Memory, m': Memory, r: nat, hi: nat, v: nat)
    requires Owned(m) && Freed(m, m', r, hi) && !Present(Lookup(m, r, 0)) && v < WORDS && Present(Lookup(m, r, v))
    ensures Target(Lookup(m, r, v)) in m'.role && m'.role[Target(Lookup(m, r, v))] == Lost
  {
    hide Lookup, Target;
    assert LeafAt(m, r, v);
    assert SweepFrom(0, v) == 0;
  }

  /** The smallest such space: frame 5 is mapped as page 1, through the tables 1 to 4. */
  function SmallSpace(): Memory {
    Memory(
      map[1 := Filled(0)[0 := TableEntry(2)], 2 := Filled(0)[0 := TableEntry(3)], 3 := Filled(0)[0 := TableEntry(4)],
          4 := Filled(0)[1 := LeafEntry(5, 7)], 5 := Filled(0)],
      [],
      map[1 := Table(Pos(1, 0, 0)), 2 := Table(Pos(1, 1, 0)), 3 := Table(Pos(1, 2, 0)), 4 := Table(Pos(1, 3, 0)),
          5 := Leaf(1, 1)],
      map[Pos(1, 0, 0) := 1, Pos(1, 1, 0) := 2, Pos(1, 2, 0) := 3, Pos(1, 3, 0) := 4],
      Filled(0))
  }

  lemma SmallTable(lv: nat)
    requires lv <= 3
    ensures Pos(1, lv, 0) in SmallSpace().tabs && TableOk(SmallSpace(), Pos(1, lv, 0))
  {
    hide TableEntry;
    var m, pos := SmallSpace(), Pos(1, lv, 0);
    if lv < 3 {
      forall i | 0 <= i < Limit(lv) ensures EntryOk(m, pos, i) {
        assert ChildPos(pos, i) == Pos(1, lv + 1, i);
      }
    }
  }

  lemma SmallEntries(r: nat, v: nat)
    ensures Lookup(SmallSpace(), r, v) == if r == 1 && v == 1 then LeafEntry(5, 7) else 0
  {
    hide TableEntry, LeafEntry;
    var m := SmallSpace();
    if r == 1 && v / WORDS == 0 {
      assert Pos(r, 3, v / WORDS) == Pos(1, 3, 0);
    }
  }

  lemma SmallSpaceOk()
    ensures TreeOk(SmallSpace()) && Owned(SmallSpace())
  {
    hide TableOk, Lookup, TableEntry, LeafEntry;
    var m := SmallSpace();
    SmallTable(0); SmallTable(1); SmallTable(2); SmallTable(3);
    forall r: nat, v: nat ensures LeafAt(m, r, v) { SmallEntries(r, v); }
    SmallEntries(1, 1);
  }

  /** So free_vm does not give back every frame: from this space, frame 5 is lost. */
  lemma SmallSpaceLoses(m': Memory)
    requires Freed(SmallSpace(), m', 1, 2)
    ensures 5 in m'.role && m'.role[5] == Lost
  {
    hide SmallSpace, Lookup, Freed, Owned;
    SmallSpaceOk();
    SmallEntries(1, 0);
    SmallEntries(1, 1);
    NullPageLoses(SmallSpace(), m', 1, 2, 1);
  }

  // ---- setup_uvm and copy_uvm -----------------------------------------------------------

  function TopTable(kernel: Page): Page { seq(WORDS, i requires 0 <= i < WORDS => if i < HALF then 0 else kernel[i]) }

  /** setup_uvm: a frame taken becomes the top-level table of a new, empty address space. */
  function NewRoot(m: Memory, f: nat): Memory {
    m.(mem := m.mem[f := TopTable(m.kernel)], tabs := m.tabs[Pos(f, 0, 0) := f],
        role := m.role[f := Table(Pos(f, 0, 0))])
  }

  lemma RootOf(m: Memory, p: Pos)
    requires TreeOk(m) && p in m.tabs
    ensures p.root in m.role && m.role[p.root].Table?
  {
    UpIn(m, p, 0);
    UpLevel(p, 0);
    assert TableOk(m, Up(p, 0)) by { TableOkAt(m, Up(p, 0)); }
  }

  lemma NoTables(m: Memory, f: nat, p: Pos)
    requires TreeOk(m) && f in m.role && !m.role[f].Table? && p.root == f
    ensures p !in m.tabs
  {
    if p in m.tabs {
      RootOf(m, p);
      assert false;
    }
  }

  lemma FreeRetag(role: map<nat, Role>, free: seq<nat>, f: nat, x: Role)
    requires FreeOk(role, free) && f in role && role[f] != Free && x != Free
    ensures FreeOk(role[f := x], free)
  {
  }

  lemma NewRootTables(m: Memory, f: nat)
    requires TreeOk(m) && f in m.role && m.role[f] == Taken
    ensures TablesOk(NewRoot(m, f))
  {
    hide FreeOk;
    var m', root := NewRoot(m, f), Pos(f, 0, 0);
    NoTables(m, f, root);
    forall i | 0 <= i < HALF ensures EntryOk(m', root, i) { NoTables(m, f, ChildPos(root, i)); }
    forall p | p in m'.tabs && p != root ensures TableOk(m', p) {
      assert TableOk(m, p);
      if p.lv < 3 {
        forall i | 0 <= i < Limit(p.lv) ensures EntryOk(m', p, i) { assert EntryOk(m, p, i); }
      }
    }
  }

  lemma NewRootKeeps(m: Memory, f: nat)
    requires TreeOk(m) && f in m.role && m.role[f] == Taken
    ensures TreeOk(NewRoot(m, f)) && SameEntries(m, NewRoot(m, f))
    ensures forall v: nat :: Lookup(m, f, v) == 0
  {
    hide FreeOk, TableOk, TopTable;
    NewRootTables(m, f);
    FreeRetag(m.role, m.free, f, Table(Pos(f, 0, 0)));
    assert TreeOk(NewRoot(m, f)) by { NoTables(m, f, Pos(f, 0, 0)); }
    forall v: nat ensures Lookup(m, f, v) == 0 { NoTables(m, f, Pos(f, 3, v / WORDS)); }
    forall r: nat, v: nat ensures Lookup(NewRoot(m, f), r, v) == Lookup(m, r, v) {
      if Pos(r, 3, v / WORDS) in m.tabs { TableFrame(m, Pos(r, 3, v / WORDS)); }
    }
  }

  /** From m to m' the address space n was created, and nothing else changed. */
  ghost predicate Rooted(m: Memory, m': Memory, n: nat) {
    && n in m.role && m.role[n] == Free && m'.role == m.role[n := Table(Pos(n, 0, 0))]
    && m'.tabs == m.tabs[Pos(n, 0, 0) := n] && m'.kernel == m.kernel
    && (forall p :: p in m.tabs ==> p.root != n)
    && (forall f :: f in m.role && Plain(m.role[f]) && f in m.mem ==> f in m'.mem && m'.mem[f] == m.mem[f])
    && SameEntries(m, m') && (forall v: nat :: Lookup(m', n, v) == 0)
  }

  lemma RootedBy(m: Memory)
    requires TreeOk(m) && m.free != []
    ensures var f := m.free[0]; f in m.role && Rooted(m, NewRoot(Popped(m), f), f) && TreeOk(NewRoot(Popped(m), f))
  {
    hide TreeOk, Filled, Lookup, TopTable;
    var f := m.free[0];
    PoppedKeeps(m);
    NewRootKeeps(Popped(m), f);
    forall p | p in m.tabs ensures p.root != f { if p.root == f { NoTables(Popped(m), f, p); } }
  }

  lemma RootedOwned(m: Memory, m': Memory, n: nat)
    requires Owned(m) && Rooted(m, m', n)
    ensures Owned(m')
  {
    hide Lookup, Present, Target;
    forall r': nat, v: nat ensures LeafAt(m', r', v) { assert LeafAt(m, r', v); }
    forall f | f in m'.role ensures LeafBack(m', f) { if f != n { assert LeafBack(m, f); } }
  }

  /** What copy_uvm copies of page v. */
  ghost predicate CopyOf(m: Memory, r: nat, v: nat, c: Content) {
    var e := Lookup(m, r, v);
    Present(e) && c.flags == Flags(e) && Target(e) in m.mem && c.page == m.mem[Target(e)]
  }

  ghost predicate CopiedPage(m: Memory, m': Memory, r: nat, n: nat, v: nat) {
    exists c :: CopyOf(m, r, v, c) && HoldsPage(m, m', n, v, c)
  }

  /** The new space n maps exactly the pages 1 .. hi, each to a frame of its own that was
    * free, with the flags and contents of the same page of r; nothing in use changed. */
  ghost predicate Copied(m: Memory, m': Memory, r: nat, n: nat, hi: nat) {
    && n in m.role && m.role[n] == Free && Pos(n, 0, 0) in m'.tabs
    && (forall v: nat :: 1 <= v < hi ==> CopiedPage(m, m', r, n, v))
    && (forall v: nat :: v == 0 || v >= hi ==> Lookup(m', n, v) == 0)
    && (forall r': nat, v: nat :: r' != n ==> Lookup(m', r', v) == Lookup(m, r', v))
    && (forall f :: f in m.role && m.role[f] != Free ==> f in m'.role && m'.role[f] == m.role[f])
    && (forall f :: f in m.role && Plain(m.role[f]) && f in m.mem ==> f in m'.mem && m'.mem[f] == m.mem[f])
  }

  lemma CopiedBy(m: Memory, m1: Memory, m2: Memory, r: nat, n: nat, want: seq<Content>, hi: nat)
    requires Rooted(m, m1, n) && Populated(m1, m2, n, 1, want, 0) && hi == 1 + |want|
    requires forall j :: 0 <= j < |want| ==> CopyOf(m, r, 1 + j, want[j])
    ensures Copied(m, m2, r, n, hi)
  {
    hide Lookup, CopyOf, Present, Target, Flags;
    forall v: nat | v == 0 || v >= hi ensures Lookup(m2, n, v) == 0 { assert Lookup(m1, n, v) == 0; }
    forall v: nat | 1 <= v < hi ensures CopiedPage(m, m2, r, n, v) {
      var c := want[v - 1];
      assert HoldsPage(m1, m2, n, 1 + (v - 1), c) && CopyOf(m, r, 1 + (v - 1), c);
      assert HoldsPage(m, m2, n, v, c);
    }
  }

  /** After a failed copy everything in use is as before, and each frame that was free is
    * free or lost. */
  ghost predicate OnlyLoss(m: Memory, m': Memory) {
    && m'.role.Keys == m.role.Keys && m'.tabs == m.tabs && SameEntries(m, m')
    && (forall f :: f in m.role ==> m'.role[f] == m.role[f] || (m.role[f] == Free && m'.role[f] == Lost))
    && (forall f :: f in m.role && Plain(m.role[f]) && f in m.mem ==> f in m'.mem && m'.mem[f] == m.mem[f])
  }

  lemma FailedRole(m: Memory, m1: Memory, m2: Memory, m3: Memory, n: nat, want: seq<Content>, hi: nat, f: nat)
    requires RolesOk(m) && Owned(m) && Rooted(m, m1, n) && Populated(m1, m2, n, 1, want, 0) && Freed(m2, m3, n, hi)
    requires f in m.role && f != 0
    ensures m3.role[f] == m.role[f] || (m.role[f] == Free && m3.role[f] == Lost && want != [])
    ensures Plain(m.role[f]) && f in m.mem ==> f in m3.mem && m3.mem[f] == m.mem[f]
  {
    hide Lookup, Swept, Target, HoldsPage;
    assert LeafBack(m, f);
    assert m3.role[f] == FreedRole(m2, n, hi, m2.role[f]);
  }

  lemma FailedBy(m: Memory, m1: Memory, m2: Memory, m3: Memory, n: nat, want: seq<Content>, hi: nat)
    requires RolesOk(m) && Owned(m) && Rooted(m, m1, n) && Populated(m1, m2, n, 1, want, 0) && Freed(m2, m3, n, hi)
    requires m3.tabs == m.tabs
    ensures OnlyLoss(m, m3)
    ensures (exists f :: f in m.role && m.role[f] == Free && m3.role[f] == Lost) ==> want != []
  {
    hide Lookup, Swept, FreedRole, HoldsPage;
    forall f | f in m.role
      ensures m3.role[f] == m.role[f] || (m.role[f] == Free && m3.role[f] == Lost && want != [])
      ensures Plain(m.role[f]) && f in m.mem ==> f in m3.mem && m3.mem[f] == m.mem[f]
    {
      FailedRole(m, m1, m2, m3, n, want, hi, f);
    }
    forall r: nat, v: nat ensures Lookup(m3, r, v) == Lookup(m, r, v) { assert Lookup(m1, r, v) == Lookup(m, r, v); }
  }

  lemma FailedLoses(m: Memory, m1: Memory, m2: Memory, m3: Memory, n: nat, want: seq<Content>)
    requires Rooted(m, m1, n) && Owned(m2) && Populated(m1, m2, n, 1, want, 0) && Freed(m2, m3, n, 1 + |want|)
    requires want != []
    ensures exists f :: f in m.role && m.role[f] == Free && f in m3.role && m3.role[f] == Lost
  {
    hide Lookup, Swept, FreedRole;
    assert HoldsPage(m1, m2, n, 1 + 0, want[0]);
    assert Lookup(m2, n, 0) == Lookup(m1, n, 0);
    NullPageLoses(m2, m3, n, 1 + |want|, 1);
    var f := Target(Lookup(m2, n, 1));
    assert f in m.role && m.role[f] == Free && m3.role[f] == Lost;
  }
}
