/** The page allocator of kernel/kalloc.c and the four-level page tables of
  * kernel/vm.c, over physical memory as pages of 512 words.
  *
  * Addresses are physical frame numbers and user page numbers: the direct map is
  * a constant offset and is left implicit. Only the user half of an address space
  * is walked here; the upper 256 entries of a top-level table are never touched.
  */
module PageTables {

  import opened Common

  const WORDS := 512
  const USER_PAGES := 0x8_0000_0000      // USER_TOP / 4096
  const HALF := 256                      // user entries of a top-level table

  type Page = p: seq<nat> | |p| == WORDS witness seq(WORDS, i => 0)

  predicate Present(e: nat) { e % 2 == 1 }

  predicate Huge(e: nat) { e / 128 % 2 == 1 }

  /** PTE_ADDR, as a frame number. */
  function Target(e: nat): nat { e / 4096 }

  function Flags(e: nat): nat { e % 4096 }

  lemma Parity(k: nat, low: nat)
    ensures (2 * k + low) % 2 == low % 2
  {
  }

  lemma SplitWord(f: nat, low: nat)
    requires low < 4096
    ensures Target(f * 4096 + low) == f && Flags(f * 4096 + low) == low && Present(f * 4096 + low) == Present(low)
  {
    Parity(f * 2048, low);
  }

  lemma SmallFlags(f: nat)
    ensures !Huge(f * 4096 + 7)
  {
    assert (f * 4096 + 7) / 128 == f * 32;
    Parity(f * 16, 0);
  }

  /** The entry that names a table: V2P(table) | PTE_P | PTE_W | PTE_U. */
  function TableEntry(f: nat): (e: nat)
    ensures Present(e) && !Huge(e) && Target(e) == f
  {
    SplitWord(f, 7);
    SmallFlags(f);
    f * 4096 + 7
  }

  /** pa | perm | PTE_P for a page-aligned pa. */
  function LeafEntry(frame: nat, perm: nat): (e: nat)
    requires perm < 4096
    ensures Present(e) && Target(e) == frame && Flags(e) == (if perm % 2 == 1 then perm else perm + 1)
  {
    var low := if perm % 2 == 1 then perm else perm + 1;
    SplitWord(frame, low);
    frame * 4096 + low
  }

  // ---- page numbers ------------------------------------------------------------

  /** Pages covered by one entry of a table at the level. */
  function Span(lv: nat): nat
    requires lv <= 3
  {
    if lv == 0 then 0x800_0000 else if lv == 1 then 0x4_0000 else if lv == 2 then 0x200 else 1
  }

  /** The index into a level-lv table for a page: (va >> (39 - 9 * lv)) & 0x1FF. */
  function Index(vpn: nat, lv: nat): nat
    requires lv <= 3
  {
    vpn / Span(lv) % WORDS
  }

  /** Which level-lv table of the address space covers the page. */
  function Prefix(vpn: nat, lv: nat): nat
    requires lv <= 3
  {
    if lv == 0 then 0 else vpn / (Span(lv) * WORDS)
  }

  lemma PrefixStep(vpn: nat, lv: nat)
    requires lv < 3 && vpn < USER_PAGES
    ensures Prefix(vpn, lv + 1) == Prefix(vpn, lv) * WORDS + Index(vpn, lv)
    ensures Index(vpn, lv) < WORDS && (lv == 0 ==> Index(vpn, 0) < HALF)
  {
  }

  lemma LastLevel(vpn: nat)
    ensures Prefix(vpn, 3) == vpn / WORDS && Index(vpn, 3) == vpn % WORDS
  {
  }

  // ---- who owns a frame --------------------------------------------------------------

  /** A table's place: address space (its top-level frame), level, and prefix. */
  datatype Pos = Pos(root: nat, lv: nat, prefix: nat)

  datatype Role =
    | Free                             // on the free list
    | Table(pos: Pos)
    | Leaf(root: nat, vpn: nat)        // mapped at the page of the address space
    | Taken                            // handed out by kalloc
    | Lost                             // reachable from nothing, on no list

  datatype Memory = Memory(
    mem: map<nat, Page>, free: seq<nat>, role: map<nat, Role>, tabs: map<Pos, nat>,
    kernel: Page                       // kpml4
  )

  function Limit(lv: nat): nat { if lv == 0 then HALF else WORDS }

  function ChildPos(pos: Pos, i: nat): Pos { Pos(pos.root, pos.lv + 1, pos.prefix * WORDS + i) }

  /** Entry i of the table at pos names the child table exactly when there is one. */
  ghost predicate EntryOk(m: Memory, pos: Pos, i: nat)
    requires pos in m.tabs && m.tabs[pos] in m.mem && i < WORDS
  {
    var e := m.mem[m.tabs[pos]][i];
    if ChildPos(pos, i) in m.tabs then e == TableEntry(m.tabs[ChildPos(pos, i)]) else !Present(e)
  }

  ghost predicate TableOk(m: Memory, pos: Pos)
    requires pos in m.tabs
  {
    var f := m.tabs[pos];
    && f in m.mem && f in m.role && m.role[f] == Table(pos) && pos.lv <= 3
    && (pos.lv == 0 ==>
          pos.prefix == 0 && f == pos.root && forall j :: HALF <= j < WORDS ==> m.mem[f][j] == m.kernel[j])
    && (pos.lv > 0 ==> Pos(pos.root, pos.lv - 1, pos.prefix / WORDS) in m.tabs && (pos.lv == 1 ==> pos.prefix < HALF))
    && (pos.lv < 3 ==> forall i :: 0 <= i < Limit(pos.lv) ==> EntryOk(m, pos, i))
  }

  ghost predicate RolesOk(m: Memory) {
    forall f ::
      f in m.role ==>
        f in m.mem && f > 0 && (m.role[f].Table? ==> m.role[f].pos in m.tabs && m.tabs[m.role[f].pos] == f)
  }

  ghost predicate TablesOk(m: Memory) {
    forall pos :: pos in m.tabs ==> TableOk(m, pos)
  }

  /** The free list holds exactly the free frames, each once. */
  ghost predicate FreeOk(role: map<nat, Role>, free: seq<nat>) {
    && (forall k :: 0 <= k < |free| ==> free[k] in role && role[free[k]] == Free)
    && (forall j, k :: 0 <= j < k < |free| ==> free[j] != free[k])
    && (forall f :: f in role && role[f] == Free ==> f in free)
  }

  /** The frames managed by kalloc each have one role, the free list holds exactly the
    * free ones, and the tables form one unshared tree per address space. */
  ghost predicate TreeOk(m: Memory) {
    RolesOk(m) && TablesOk(m) && FreeOk(m.role, m.free)
  }

  /** The entry of a user page, 0 if its last-level table does not exist: what the
    * four-level walk computes, as one flat map. */
  function Lookup(m: Memory, root: nat, vpn: nat): nat {
    var pos := Pos(root, 3, vpn / WORDS);
    if pos in m.tabs && m.tabs[pos] in m.mem then m.mem[m.tabs[pos]][vpn % WORDS] else 0
  }

  /** Two pages, of the same or of different address spaces, reach the same slot if and
    * only if they are the same page of the same space. */
  lemma SlotsDistinct(m: Memory, r: nat, vpn: nat, r': nat, vpn': nat)
    requires TreeOk(m) && Pos(r, 3, vpn / WORDS) in m.tabs && Pos(r', 3, vpn' / WORDS) in m.tabs
    ensures (m.tabs[Pos(r, 3, vpn / WORDS)], vpn % WORDS) == (m.tabs[Pos(r', 3, vpn' / WORDS)], vpn' % WORDS)
            <==> r == r' && vpn == vpn'
  {
    assert TableOk(m, Pos(r, 3, vpn / WORDS)) && TableOk(m, Pos(r', 3, vpn' / WORDS));
    if m.tabs[Pos(r, 3, vpn / WORDS)] == m.tabs[Pos(r', 3, vpn' / WORDS)] && vpn % WORDS == vpn' % WORDS {
      assert vpn == vpn / WORDS * WORDS + vpn % WORDS;
      assert vpn' == vpn' / WORDS * WORDS + vpn' % WORDS;
    }
  }

  // ---- kalloc and kfree -----------------------------------------------------------------

  function Filled(w: nat): Page { seq(WORDS, i => w) }

  /** kalloc takes the first free frame and fills it. */
  function Popped(m: Memory): (m': Memory)
    requires m.free != []
  {
    m.(free := m.free[1..], mem := m.mem[m.free[0] := Filled(0x0202_0202_0202_0202)],
        role := m.role[m.free[0] := Taken])
  }

  lemma PopFree(role: map<nat, Role>, free: seq<nat>)
    requires FreeOk(role, free) && free != []
    ensures FreeOk(role[free[0] := Taken], free[1..])
  {
    forall g | g in role && role[g] == Free && g != free[0] ensures g in free[1..] {
      var k :| 0 <= k < |free| && free[k] == g;
      assert free[1..][k - 1] == g;
    }
  }

  lemma PushFree(role: map<nat, Role>, free: seq<nat>, f: nat)
    requires FreeOk(role, free) && f in role && role[f] != Free
    ensures FreeOk(role[f := Free], [f] + free)
  {
    forall g | g in role && role[g] == Free ensures g in [f] + free {
      var k :| 0 <= k < |free| && free[k] == g;
      assert ([f] + free)[k + 1] == g;
    }
  }

  /** Writing a frame that is no table changes neither the trees nor any page's entry. */
  lemma PlainFrame(m: Memory, m': Memory)
    requires TablesOk(m) && m'.tabs == m.tabs && m'.kernel == m.kernel && m.mem.Keys <= m'.mem.Keys
    requires forall f ::
               f in m.role && m.role[f].Table? ==>
                 f in m'.role && m'.role[f] == m.role[f] && f in m.mem && m'.mem[f] == m.mem[f]
    ensures TablesOk(m')
    ensures forall r: nat, vpn: nat :: Lookup(m', r, vpn) == Lookup(m, r, vpn)
  {
    forall pos | pos in m'.tabs ensures TableOk(m', pos) {
      assert TableOk(m, pos);
      if pos.lv < 3 {
        forall i | 0 <= i < Limit(pos.lv) ensures EntryOk(m', pos, i) { assert EntryOk(m, pos, i); }
      }
    }
    forall r: nat, vpn: nat ensures Lookup(m', r, vpn) == Lookup(m, r, vpn) {
      var pos := Pos(r, 3, vpn / WORDS);
      if pos in m.tabs { assert TableOk(m, pos); }
    }
  }

  lemma PoppedKeeps(m: Memory)
    requires TreeOk(m) && m.free != []
    ensures var f := m.free[0]; f in m.role && m.role[f] == Free && f > 0 && TreeOk(Popped(m))
    ensures forall r: nat, vpn: nat :: Lookup(Popped(m), r, vpn) == Lookup(m, r, vpn)
  {
    hide TableOk, Lookup;
    PopFree(m.role, m.free);
    PlainFrame(m, Popped(m));
  }

  /** kfree fills the frame, links it in front, and the frame is free. */
  function Pushed(m: Memory, f: nat, link: nat): (m': Memory) {
    m.(free := [f] + m.free, mem := m.mem[f := Filled(0x0101_0101_0101_0101)[0 := link]], role := m.role[f := Free])
  }

  lemma PushedKeeps(m: Memory, f: nat, link: nat)
    requires TreeOk(m) && f in m.role && (m.role[f] == Taken || m.role[f].Leaf?)
    ensures TreeOk(Pushed(m, f, link))
    ensures forall r: nat, vpn: nat :: Lookup(Pushed(m, f, link), r, vpn) == Lookup(m, r, vpn)
  {
    hide TableOk, Lookup;
    PushFree(m.role, m.free, f);
    PlainFrame(m, Pushed(m, f, link));
  }

  /** kfree of a frame that was not managed before. */
  lemma AdoptedKeeps(m: Memory, f: nat, link: nat)
    requires TreeOk(m) && f !in m.role && f > 0
    ensures TreeOk(Pushed(m, f, link))
    ensures forall r: nat, vpn: nat :: Lookup(Pushed(m, f, link), r, vpn) == Lookup(m, r, vpn)
  {
    hide TableOk, Lookup;
    var m' := Pushed(m, f, link);
    forall g | g in m'.role && m'.role[g] == Free ensures g in m'.free {
      if g != f {
        var k :| 0 <= k < |m.free| && m.free[k] == g;
        assert m'.free[k + 1] == g;
      }
    }
    PlainFrame(m, m');
  }

  /** The contents of a frame in its holder's hands. */
  lemma FillKeeps(m: Memory, f: nat, p: Page)
    requires TreeOk(m) && f in m.role && !m.role[f].Table?
    ensures TreeOk(m.(mem := m.mem[f := p]))
    ensures forall r: nat, vpn: nat :: Lookup(m.(mem := m.mem[f := p]), r, vpn) == Lookup(m, r, vpn)
  {
    hide TableOk, Lookup, FreeOk;
    PlainFrame(m, m.(mem := m.mem[f := p]));
  }

  // ---- building tables ----------------------------------------------------------------

  /** A zeroed frame f becomes the missing child i of the table at pos. */
  function AddTable(m: Memory, pos: Pos, i: nat, f: nat): (m': Memory)
    requires pos in m.tabs && m.tabs[pos] in m.mem && i < WORDS
  {
    var t := m.tabs[pos];
    m.(mem := m.mem[t := m.mem[t][i := TableEntry(f)]], tabs := m.tabs[ChildPos(pos, i) := f],
       role := m.role[f := Table(ChildPos(pos, i))])
  }

  lemma Orphanless(m: Memory, p: Pos, j: nat)
    requires TablesOk(m) && p !in m.tabs && j < WORDS
    ensures ChildPos(p, j) !in m.tabs
  {
    hide EntryOk;
    assert ChildPos(p, j) in m.tabs ==> TableOk(m, ChildPos(p, j));
    assert (p.prefix * WORDS + j) / WORDS == p.prefix;
  }

  /** The new table: zeroed, so it names no child, and none exists. */
  lemma NewTableOk(m: Memory, pos: Pos, i: nat, f: nat)
    requires TablesOk(m) && pos in m.tabs && pos.lv < 3 && i < Limit(pos.lv) && ChildPos(pos, i) !in m.tabs
    requires f in m.role && m.role[f] == Taken && f in m.mem && m.mem[f] == Filled(0) && m.tabs[pos] in m.mem
    ensures TableOk(AddTable(m, pos, i, f), ChildPos(pos, i))
  {
    hide TablesOk, TableEntry;
    var m', p := AddTable(m, pos, i, f), ChildPos(pos, i);
    assert m.tabs[pos] != f && (pos.lv == 0 ==> pos.prefix == 0) by { assert TableOk(m, pos) by { TableOkAt(m, pos); } }
    assert p.prefix / WORDS == pos.prefix;
    forall j | 0 <= j < Limit(p.lv) ensures EntryOk(m', p, j) {
      Orphanless(m, p, j);
      assert ChildPos(p, j).lv != p.lv;
    }
  }

  lemma TableOkAt(m: Memory, pos: Pos)
    requires TablesOk(m) && pos in m.tabs
    ensures TableOk(m, pos)
  {
  }

  lemma OldTableOk(m: Memory, pos: Pos, i: nat, f: nat, p: Pos)
    requires pos in m.tabs && pos.lv < 3 && i < Limit(pos.lv) && ChildPos(pos, i) !in m.tabs
    requires f in m.role && m.role[f] == Taken && f in m.mem && m.tabs[pos] in m.mem
    requires TableOk(m, pos) && p in m.tabs && TableOk(m, p)
    ensures TableOk(AddTable(m, pos, i, f), p)
  {
    var m' := AddTable(m, pos, i, f);
    if p.lv < 3 {
      forall j | 0 <= j < Limit(p.lv) ensures EntryOk(m', p, j) {
        assert EntryOk(m, p, j);
        assert p.prefix == (p.prefix * WORDS + j) / WORDS;
        assert pos.prefix == (pos.prefix * WORDS + i) / WORDS;
      }
    }
  }

  lemma AddTableTables(m: Memory, pos: Pos, i: nat, f: nat)
    requires TreeOk(m) && pos in m.tabs && pos.lv < 3 && i < Limit(pos.lv) && ChildPos(pos, i) !in m.tabs
    requires f in m.role && m.role[f] == Taken && f in m.mem && m.mem[f] == Filled(0) && m.tabs[pos] in m.mem
    ensures TablesOk(AddTable(m, pos, i, f))
  {
    hide TableOk, Filled, RolesOk, FreeOk;
    var m' := AddTable(m, pos, i, f);
    forall p | p in m'.tabs ensures TableOk(m', p) {
      if p == ChildPos(pos, i) { NewTableOk(m, pos, i, f); } else { OldTableOk(m, pos, i, f, p); }
    }
  }

  lemma AddTableRoles(m: Memory, pos: Pos, i: nat, f: nat)
    requires TreeOk(m) && pos in m.tabs && i < WORDS && ChildPos(pos, i) !in m.tabs
    requires f in m.role && m.role[f] == Taken && m.tabs[pos] in m.mem
    ensures RolesOk(AddTable(m, pos, i, f)) && FreeOk(m.role[f := Table(ChildPos(pos, i))], m.free)
  {
    hide TableOk, TableEntry;
  }

  lemma AddTableKeeps(m: Memory, pos: Pos, i: nat, f: nat)
    requires TreeOk(m) && pos in m.tabs && pos.lv < 3 && i < Limit(pos.lv) && ChildPos(pos, i) !in m.tabs
    requires f in m.role && m.role[f] == Taken && f in m.mem && m.mem[f] == Filled(0)
    ensures m.tabs[pos] in m.mem && TreeOk(AddTable(m, pos, i, f))
    ensures forall r: nat, vpn: nat :: Lookup(AddTable(m, pos, i, f), r, vpn) == Lookup(m, r, vpn)
  {
    TableFrame(m, pos);
    AddTableTables(m, pos, i, f);
    AddTableRoles(m, pos, i, f);
    AddTableLookup(m, pos, i, f);
  }

  lemma AddTableLookup(m: Memory, pos: Pos, i: nat, f: nat)
    requires TreeOk(m) && pos in m.tabs && pos.lv < 3 && i < WORDS && ChildPos(pos, i) !in m.tabs
    requires f in m.role && m.role[f] == Taken && f in m.mem && m.mem[f] == Filled(0) && m.tabs[pos] in m.mem
    ensures forall r: nat, vpn: nat :: Lookup(AddTable(m, pos, i, f), r, vpn) == Lookup(m, r, vpn)
  {
    hide TableOk, RolesOk, FreeOk, TableEntry;
    var m' := AddTable(m, pos, i, f);
    TableFrame(m, pos);
    forall r: nat, vpn: nat ensures Lookup(m', r, vpn) == Lookup(m, r, vpn) {
      var p := Pos(r, 3, vpn / WORDS);
      if p in m.tabs { TableFrame(m, p); }
    }
  }

  lemma TableFrame(m: Memory, pos: Pos)
    requires TreeOk(m) && pos in m.tabs
    ensures m.tabs[pos] in m.mem && m.tabs[pos] in m.role && m.role[m.tabs[pos]] == Table(pos)
  {
    assert TableOk(m, pos);
  }

  /** *pte = w in a last-level table: exactly one page's entry changes. */
  function SetEntry(m: Memory, r: nat, vpn: nat, w: nat): (m': Memory)
    requires Pos(r, 3, vpn / WORDS) in m.tabs && m.tabs[Pos(r, 3, vpn / WORDS)] in m.mem
  {
    var t := m.tabs[Pos(r, 3, vpn / WORDS)];
    m.(mem := m.mem[t := m.mem[t][vpn % WORDS := w]])
  }

  lemma SetEntryTables(m: Memory, r: nat, vpn: nat, w: nat)
    requires TreeOk(m) && Pos(r, 3, vpn / WORDS) in m.tabs && m.tabs[Pos(r, 3, vpn / WORDS)] in m.mem
    ensures TablesOk(SetEntry(m, r, vpn, w))
  {
    hide RolesOk, FreeOk;
    var pos, m' := Pos(r, 3, vpn / WORDS), SetEntry(m, r, vpn, w);
    assert TableOk(m, pos);
    forall p | p in m'.tabs ensures TableOk(m', p) {
      assert TableOk(m, p);
      if p.lv < 3 {
        forall i | 0 <= i < Limit(p.lv) ensures EntryOk(m', p, i) { assert EntryOk(m, p, i); }
      }
    }
  }

  lemma SetEntryKeeps(m: Memory, r: nat, vpn: nat, w: nat)
    requires TreeOk(m) && Pos(r, 3, vpn / WORDS) in m.tabs
    ensures m.tabs[Pos(r, 3, vpn / WORDS)] in m.mem && TreeOk(SetEntry(m, r, vpn, w))
    ensures forall r': nat, v: nat ::
              Lookup(SetEntry(m, r, vpn, w), r', v) == if r' == r && v == vpn then w else Lookup(m, r', v)
  {
    hide TableOk, FreeOk;
    TableFrame(m, Pos(r, 3, vpn / WORDS));
    SetEntryTables(m, r, vpn, w);
    var m' := SetEntry(m, r, vpn, w);
    forall r': nat, v: nat ensures Lookup(m', r', v) == if r' == r && v == vpn then w else Lookup(m, r', v) {
      if Pos(r', 3, v / WORDS) in m.tabs {
        TableFrame(m, Pos(r', 3, v / WORDS));
        SlotsDistinct(m, r, vpn, r', v);
      }
    }
  }

  // ---- what a call may change ------------------------------------------------------------

  ghost predicate SameEntries(m: Memory, m': Memory) {
    forall r: nat, v: nat :: Lookup(m', r, v) == Lookup(m, r, v)
  }

  predicate Plain(role: Role) { role.Leaf? || role == Taken }

  /** From m to m' no frame in use changed its role or, unless it is a table, its contents,
    * and any new table belongs to the address space r. */
  ghost predicate Grown(m: Memory, m': Memory, r: nat) {
    && m'.role.Keys == m.role.Keys && m'.kernel == m.kernel
    && (forall f ::
          f in m.role ==>
            m'.role[f] == m.role[f] || (m.role[f] == Free && m'.role[f].Table? && m'.role[f].pos.root == r))
    && (forall f :: f in m.role && Plain(m.role[f]) && f in m.mem ==> f in m'.mem && m'.mem[f] == m.mem[f])
    && (forall pos :: pos in m.tabs ==> pos in m'.tabs && m'.tabs[pos] == m.tabs[pos])
    && (forall r: nat :: Pos(r, 0, 0) in m'.tabs ==> Pos(r, 0, 0) in m.tabs)
  }

  lemma GrownTwice(m: Memory, m1: Memory, m2: Memory, r: nat)
    requires Grown(m, m1, r) && Grown(m1, m2, r)
    ensures Grown(m, m2, r)
  {
    forall f | f in m.role && Plain(m.role[f]) && f in m.mem ensures f in m2.mem && m2.mem[f] == m.mem[f] {
      assert m1.role[f] == m.role[f];
    }
  }

  /** One level of walk_pml4 with alloc: kalloc, memset, and the new entry. */
  function GrowTable(m: Memory, pos: Pos, i: nat): Memory
    requires m.free != [] && pos in m.tabs && m.tabs[pos] in m.mem && i < WORDS && m.tabs[pos] != m.free[0]
  {
    var f := m.free[0];
    var m1 := Popped(m);
    AddTable(m1.(mem := m1.mem[f := Filled(0)]), pos, i, f)
  }

  lemma GrowTableKeeps(m: Memory, pos: Pos, i: nat)
    requires TreeOk(m) && m.free != [] && pos in m.tabs && pos.lv < 3 && i < Limit(pos.lv)
    requires ChildPos(pos, i) !in m.tabs
    ensures m.tabs[pos] in m.mem && m.tabs[pos] != m.free[0]
    ensures TreeOk(GrowTable(m, pos, i)) && Grown(m, GrowTable(m, pos, i), pos.root)
    ensures SameEntries(m, GrowTable(m, pos, i))
    ensures var m' := GrowTable(m, pos, i); ChildPos(pos, i) in m'.tabs && m'.tabs[ChildPos(pos, i)] == m.free[0]
  {
    hide TableOk, Lookup, FreeOk, RolesOk, TablesOk, TreeOk, Filled, TableEntry, Grown;
    TableFrame(m, pos);
    PoppedKeeps(m);
    var f, m1 := m.free[0], Popped(m);
    FillKeeps(m1, f, Filled(0));
    AddTableKeeps(m1.(mem := m1.mem[f := Filled(0)]), pos, i, f);
    GrowTableGrown(m, pos, i);
  }

  lemma GrowTableGrown(m: Memory, pos: Pos, i: nat)
    requires m.free != [] && pos in m.tabs && i < WORDS && ChildPos(pos, i) !in m.tabs
    requires m.tabs[pos] in m.mem && m.tabs[pos] in m.role && m.role[m.tabs[pos]].Table?
    requires m.free[0] in m.role && m.role[m.free[0]] == Free
    ensures Grown(m, GrowTable(m, pos, i), pos.root)
  {
    hide Lookup, Filled, TableEntry;
  }

  /** What walk_pml4 reads at one level. */
  lemma ReadLevel(m: Memory, pos: Pos, i: nat)
    requires TreeOk(m) && pos in m.tabs && pos.lv < 3 && i < Limit(pos.lv)
    ensures m.tabs[pos] in m.mem
    ensures var e := m.mem[m.tabs[pos]][i];
            && (Present(e) <==> ChildPos(pos, i) in m.tabs)
            && (Present(e) ==> !Huge(e) && Target(e) == m.tabs[ChildPos(pos, i)])
  {
    assert TableOk(m, pos);
    assert EntryOk(m, pos, i);
  }

  lemma {:induction false} AncestorOf(m: Memory, r: nat, vpn: nat, lv: nat)
    requires TreeOk(m) && vpn < USER_PAGES && lv <= 3 && Pos(r, 3, Prefix(vpn, 3)) in m.tabs
    ensures Pos(r, lv, Prefix(vpn, lv)) in m.tabs
    decreases 3 - lv
  {
    hide RolesOk, FreeOk, EntryOk;
    if lv < 3 {
      AncestorOf(m, r, vpn, lv + 1);
      PrefixStep(vpn, lv);
      assert TableOk(m, Pos(r, lv + 1, Prefix(vpn, lv + 1)));
      assert Prefix(vpn, lv + 1) / WORDS == Prefix(vpn, lv);
    }
  }
}
