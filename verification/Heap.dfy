/** The user heap of user/malloc.c: a circular, address-ordered free list with
  * first fit, tail splitting, two-sided coalescing and growth by sbrk.
  *
  * Addresses count units of sizeof(struct header) == 16 bytes. `mem` maps the
  * address of a header to its contents; the ghost fields give the abstract
  * view: the ring of free nodes in address order, the live blocks and every
  * unit ever obtained from sbrk.
  */
module Heap {

  import opened Common

  const UNIT := 16
  const MIN_CORE := 4096
  const INT_MAX := 0x7FFF_FFFF

  datatype Header = Header(ptr: int, size: int)

  /** A free node: its header address and its size in units, header included. */
  datatype Blk = Blk(addr: int, size: int) {
    function End(): int { addr + size }
  }

  // ---- requests -------------------------------------------------------

  /** The units malloc looks for, in 64-bit arithmetic. */
  function NUnits(nbytes: nat): (r: nat)
    ensures r >= 1
  {
    (nbytes + UNIT - 1) % U64 / UNIT + 1
  }

  /** The units after the header hold the request if and only if rounding it up does
    * not wrap around, and then with less than a unit to spare. */
  lemma EnoughIffNoWrap(nbytes: nat)
    requires nbytes < U64
    ensures (NUnits(nbytes) - 1) * UNIT >= nbytes <==> nbytes + UNIT <= U64
    ensures nbytes + UNIT <= U64 ==> (NUnits(nbytes) - 1) * UNIT < nbytes + UNIT
  {
    var x := nbytes + UNIT - 1;
    if x < U64 {
      assert x % U64 == x;
    } else {
      assert x % U64 == x - U64;
    }
  }

  /** A request of 2^64 - 1 bytes is answered with a block of one unit, its header. */
  lemma RequestWraps()
    ensures NUnits(U64 - 1) == 1
  {
    assert (U64 - 1 + UNIT - 1) % U64 == UNIT - 2;
  }

  /** The units more_core asks for. */
  function CoreUnits(nunits: nat): (r: nat)
    ensures r >= nunits && r >= 4096 && (r == nunits || r == 4096)
  {
    if nunits < MIN_CORE then MIN_CORE else nunits
  }

  /** Conversion of an unsigned 64-bit value to the `int` that sbrk takes. */
  function ToInt(x: nat): (r: int)
    ensures -INT_MAX - 1 <= r <= INT_MAX
  {
    var low := x % 0x1_0000_0000;
    if low <= INT_MAX then low else low - 0x1_0000_0000
  }

  /** sbrk is asked for exactly the memory that more_core records as free
    * if and only if the request fits an int. */
  lemma GrowthExactIffFits(nunits: nat)
    ensures ToInt(CoreUnits(nunits) * UNIT) == CoreUnits(nunits) * UNIT
            <==> CoreUnits(nunits) * UNIT <= INT_MAX
  {
    var x := CoreUnits(nunits) * UNIT;
    if x > INT_MAX {
      assert ToInt(x) <= INT_MAX;
    } else {
      assert x % 0x1_0000_0000 == x;
    }
  }

  /** A request of 2^32 - 16 bytes asks sbrk for nothing and records 2^28 units as free. */
  lemma GrowthTruncates()
    ensures CoreUnits(NUnits(0xFFFF_FFF0)) == 0x1000_0000
    ensures ToInt(CoreUnits(NUnits(0xFFFF_FFF0)) * UNIT) == 0
  {
    assert NUnits(0xFFFF_FFF0) == 0x1000_0000;
    assert CoreUnits(0x1000_0000) == 0x1000_0000;
    assert 0x1000_0000 * UNIT == 0x1_0000_0000;
  }

  // ---- the ring -------------------------------------------------------

  function Next(n: nat, i: nat): (r: nat)
    requires i < n
    ensures r < n && (r == i + 1 || (r == 0 && i == n - 1))
  {
    if i + 1 < n then i + 1 else 0
  }

  /** Steps along the ring of n nodes from i to j. */
  function Dist(n: nat, i: nat, j: nat): (r: nat)
    requires i < n && j < n
    ensures r < n && (r == 0 <==> i == j)
  {
    if i <= j then j - i else n - i + j
  }

  /** Every node's header holds its size and points to the next node. */
  ghost predicate Ring(mem: map<int, Header>, nodes: seq<Blk>) {
    && (forall i :: 0 <= i < |nodes| ==> nodes[i].addr in mem)
    && (forall i :: 0 <= i < |nodes| ==> LinkedAt(mem, nodes, i))
  }

  ghost predicate LinkedAt(mem: map<int, Header>, nodes: seq<Blk>, i: int)
    requires 0 <= i < |nodes|
  {
    && nodes[i].addr in mem
    && mem[nodes[i].addr] == Header(nodes[Next(|nodes|, i)].addr, nodes[i].size)
  }

  /** The base header comes first, with size 0; free blocks follow in address
    * order. No two nodes touch: the list is maximally coalesced. */
  ghost predicate Coalesced(base: int, nodes: seq<Blk>) {
    && |nodes| > 0 && nodes[0] == Blk(base, 0)
    && (forall i :: 0 < i < |nodes| ==> nodes[i].size > 0)
    && (forall i, j :: 0 <= i < j < |nodes| && j == i + 1 ==> nodes[i].End() < nodes[j].addr)
  }

  lemma {:induction false} InOrder(base: int, nodes: seq<Blk>, i: nat, j: nat)
    requires Coalesced(base, nodes) && i < j < |nodes|
    ensures nodes[i].addr <= nodes[i].End() < nodes[j].addr
  {
    if i + 1 < j { InOrder(base, nodes, i, j - 1); }
  }

  ghost predicate InFree(nodes: seq<Blk>, u: int) {
    exists i :: 0 <= i < |nodes| && nodes[i].addr <= u < nodes[i].End()
  }

  ghost predicate InLive(live: map<int, int>, u: int) {
    exists a :: a in live && a <= u < a + live[a]
  }

  ghost function Span(a: int, n: nat): (r: set<int>)
    ensures forall u :: u in r <==> a <= u < a + n
  {
    if n == 0 then {} else Span(a, n - 1) + {a + n - 1}
  }

  /** b lies in the gap after node k. */
  ghost predicate Gap(nodes: seq<Blk>, k: nat, b: Blk) {
    && k < |nodes| && b.size > 0
    && nodes[k].End() <= b.addr && nodes[k].addr < b.addr
    && (k + 1 < |nodes| ==> b.End() <= nodes[k + 1].addr)
  }

  /** The ring once b has been put after node k and merged with the block on its right. */
  function MergeRight(nodes: seq<Blk>, k: nat, b: Blk): (r: seq<Blk>)
    requires k < |nodes|
  {
    if k + 1 < |nodes| && b.End() == nodes[k + 1].addr
    then nodes[..k + 1] + [Blk(b.addr, b.size + nodes[k + 1].size)] + nodes[k + 2..]
    else nodes[..k + 1] + [b] + nodes[k + 1..]
  }

  /** The ring once node k has been merged with node k + 1 when they touch. */
  function MergeLeft(nodes: seq<Blk>, k: nat): (r: seq<Blk>)
    requires k + 1 < |nodes|
  {
    if nodes[k].End() == nodes[k + 1].addr
    then nodes[..k] + [Blk(nodes[k].addr, nodes[k].size + nodes[k + 1].size)] + nodes[k + 2..]
    else nodes
  }

  /** The ring after freeing b in the gap after node k. */
  function Insert(nodes: seq<Blk>, k: nat, b: Blk): (r: seq<Blk>)
    requires k < |nodes|
  {
    MergeLeft(MergeRight(nodes, k, b), k)
  }

  lemma MergeRightUnits(nodes: seq<Blk>, k: nat, b: Blk, u: int)
    requires Gap(nodes, k, b)
    requires k + 1 < |nodes| ==> nodes[k + 1].size >= 0
    ensures InFree(MergeRight(nodes, k, b), u) <==> InFree(nodes, u) || b.addr <= u < b.End()
  {
    var r := MergeRight(nodes, k, b);
    var drop := |nodes| + 1 - |r|;
    assert forall i :: 0 <= i <= k ==> r[i] == nodes[i];
    assert forall i :: k + 1 < i < |r| ==> r[i] == nodes[i - 1 + drop];
    if InFree(nodes, u) {
      var i :| 0 <= i < |nodes| && nodes[i].addr <= u < nodes[i].End();
      if i <= k { assert r[i].addr <= u < r[i].End(); }
      else if i == k + 1 && drop == 1 { assert r[k + 1].addr <= u < r[k + 1].End(); }
      else { assert r[i + 1 - drop] == nodes[i]; }
    }
    if b.addr <= u < b.End() { assert r[k + 1].addr <= u < r[k + 1].End(); }
  }

  lemma MergeLeftUnits(nodes: seq<Blk>, k: nat, u: int)
    requires k + 1 < |nodes| && nodes[k].size >= 0 && nodes[k + 1].size >= 0
    ensures InFree(MergeLeft(nodes, k), u) <==> InFree(nodes, u)
  {
    var r := MergeLeft(nodes, k);
    if nodes[k].End() == nodes[k + 1].addr {
      assert forall i :: 0 <= i < k ==> r[i] == nodes[i];
      assert forall i :: k < i < |r| ==> r[i] == nodes[i + 1];
      if InFree(nodes, u) {
        var i :| 0 <= i < |nodes| && nodes[i].addr <= u < nodes[i].End();
        if i < k { assert r[i].addr <= u < r[i].End(); }
        else if i <= k + 1 { assert r[k].addr <= u < r[k].End(); }
        else { assert r[i - 1] == nodes[i]; }
      }
      if InFree(r, u) {
        var i :| 0 <= i < |r| && r[i].addr <= u < r[i].End();
        if i == k { assert nodes[k].addr <= u < nodes[k].End() || nodes[k + 1].addr <= u < nodes[k + 1].End(); }
      }
    }
  }

  /** Freeing adds exactly the units of the freed block to the free ones. */
  lemma InsertUnits(base: int, nodes: seq<Blk>, k: nat, b: Blk)
    requires Coalesced(base, nodes) && Gap(nodes, k, b)
    ensures forall u :: InFree(Insert(nodes, k, b), u) <==> InFree(nodes, u) || b.addr <= u < b.End()
  {
    var m := MergeRight(nodes, k, b);
    assert m[k] == nodes[k] && m[k + 1].addr == b.addr && m[k + 1].size > 0;
    forall u ensures InFree(Insert(nodes, k, b), u) <==> InFree(nodes, u) || b.addr <= u < b.End() {
      MergeRightUnits(nodes, k, b, u);
      MergeLeftUnits(m, k, u);
    }
  }

  /** Coalesced, except that nodes k and k + 1 may touch. */
  ghost predicate CoalescedBut(base: int, nodes: seq<Blk>, k: nat) {
    && k + 1 < |nodes| && nodes[0] == Blk(base, 0)
    && (forall i :: 0 < i < |nodes| ==> nodes[i].size > 0)
    && (forall i, j :: 0 <= i < j < |nodes| && j == i + 1 && i != k ==> nodes[i].End() < nodes[j].addr)
    && nodes[k].End() <= nodes[k + 1].addr
  }

  lemma MergeRightAt(nodes: seq<Blk>, k: nat, b: Blk, i: nat)
    requires Gap(nodes, k, b)
    ensures var m := MergeRight(nodes, k, b);
            && |m| <= |nodes| + 1 && k + 1 < |m|
            && (i <= k ==> m[i] == nodes[i]) && m[k + 1].addr == b.addr
            && (k + 1 < i < |m| ==> 0 <= i + (|nodes| - |m|) < |nodes| && m[i] == nodes[i + (|nodes| - |m|)])
  {
  }

  /** The freed block, alone or with the one after it. */
  lemma MergedBlock(base: int, nodes: seq<Blk>, k: nat, b: Blk)
    requires Coalesced(base, nodes) && Gap(nodes, k, b)
    ensures var m := MergeRight(nodes, k, b);
            && k + 1 < |m| && m[k + 1].size > 0 && m[k + 1].addr == b.addr && nodes[k].End() <= b.addr
            && (k + 2 < |m| ==> m[k + 1].End() < m[k + 2].addr)
  {
  }

  lemma MergeRightCoalesced(base: int, nodes: seq<Blk>, k: nat, b: Blk)
    requires Coalesced(base, nodes) && Gap(nodes, k, b)
    ensures CoalescedBut(base, MergeRight(nodes, k, b), k)
  {
    var m := MergeRight(nodes, k, b);
    var shift := |nodes| - |m|;
    forall i: nat | i < |m|
      ensures i <= k ==> m[i] == nodes[i]
      ensures i == k + 1 ==> m[i].addr == b.addr
      ensures k + 1 < i ==> 0 <= i + shift < |nodes| && m[i] == nodes[i + shift]
    {
      MergeRightAt(nodes, k, b, i);
    }
    MergedBlock(base, nodes, k, b);
    hide MergeRight;
    forall i, j | 0 <= i < j < |m| && j == i + 1 && i != k
      ensures m[i].End() < m[j].addr
    {
      if i > k + 1 { assert m[i] == nodes[i + shift] && m[j] == nodes[j + shift]; }
    }
  }

  lemma MergeLeftCoalesced(base: int, nodes: seq<Blk>, k: nat)
    requires CoalescedBut(base, nodes, k) && nodes[k].addr < nodes[k + 1].addr && base < nodes[k + 1].addr
    ensures Coalesced(base, MergeLeft(nodes, k))
  {
    var r := MergeLeft(nodes, k);
    if nodes[k].End() == nodes[k + 1].addr {
      assert k > 0;
      assert forall i :: 0 <= i < k ==> r[i] == nodes[i];
      assert forall i :: k < i < |r| ==> r[i] == nodes[i + 1];
      assert r[k].addr == nodes[k].addr && r[k].End() == nodes[k + 1].End();
    }
  }

  /** Freeing keeps the list address-ordered and maximally coalesced. */
  lemma InsertCoalesced(base: int, nodes: seq<Blk>, k: nat, b: Blk)
    requires Coalesced(base, nodes) && Gap(nodes, k, b)
    ensures Coalesced(base, Insert(nodes, k, b))
  {
    MergeRightCoalesced(base, nodes, k, b);
    var m := MergeRight(nodes, k, b);
    assert m[k] == nodes[k] && m[k + 1].addr == b.addr;
    if k > 0 { InOrder(base, nodes, 0, k); }
    MergeLeftCoalesced(base, m, k);
  }

  // ---- taking a block out of the ring ----------------------------------

  /** The ring after node k gave up its last n units (or all of them). */
  function Take(nodes: seq<Blk>, k: nat, n: nat): (r: seq<Blk>)
    requires k < |nodes| && nodes[k].size >= n
  {
    if nodes[k].size == n then nodes[..k] + nodes[k + 1..]
    else nodes[k := Blk(nodes[k].addr, nodes[k].size - n)]
  }

  lemma TakeUnit(nodes: seq<Blk>, k: nat, n: nat, u: int)
    requires k < |nodes| && nodes[k].size >= n > 0
    ensures InFree(nodes, u) <==>
              InFree(Take(nodes, k, n), u) || nodes[k].End() - n <= u < nodes[k].End()
  {
    var r := Take(nodes, k, n);
    var drop := |nodes| - |r|;
    assert forall i :: 0 <= i < k ==> r[i] == nodes[i];
    assert drop == 0 ==> forall i :: k < i < |r| ==> r[i] == nodes[i];
    assert drop == 1 ==> forall i :: k <= i < |r| ==> r[i] == nodes[i + 1];
    if InFree(nodes, u) {
      var i :| 0 <= i < |nodes| && nodes[i].addr <= u < nodes[i].End();
      if i > k { assert r[i - drop] == nodes[i]; }
      else if i == k && u < nodes[k].End() - n { assert r[k].addr <= u < r[k].End(); }
    }
    if InFree(r, u) {
      var i :| 0 <= i < |r| && r[i].addr <= u < r[i].End();
      if drop == 0 && i == k { assert nodes[k].addr <= u < nodes[k].End(); }
    }
    if nodes[k].End() - n <= u < nodes[k].End() {
      assert nodes[k].addr <= u < nodes[k].End();
    }
  }

  lemma TakeCoalesced(base: int, nodes: seq<Blk>, k: nat, n: nat)
    requires Coalesced(base, nodes) && 0 < k < |nodes| && nodes[k].size >= n > 0
    ensures Coalesced(base, Take(nodes, k, n))
  {
    var r := Take(nodes, k, n);
    var drop := |nodes| - |r|;
    assert forall i :: 0 <= i < k ==> r[i] == nodes[i];
    assert forall i :: k < i < |r| ==> r[i] == nodes[i + drop];
    if drop == 1 && k < |r| {
      assert r[k] == nodes[k + 1];
      InOrder(base, nodes, k - 1, k + 1);
    }
  }

  /** A unit lies in one node only. */
  lemma Elsewhere(base: int, nodes: seq<Blk>, k: nat, j: nat, u: int)
    requires Coalesced(base, nodes) && k < |nodes| && j < |nodes| && j != k && nodes[k].addr <= u < nodes[k].End()
    ensures !(nodes[j].addr <= u < nodes[j].End())
  {
    if j < k { InOrder(base, nodes, j, k); } else { InOrder(base, nodes, k, j); }
  }

  /** Carving n units off a free node removes exactly those units. */
  lemma TakeUnits(base: int, nodes: seq<Blk>, k: nat, n: nat, u: int)
    requires Coalesced(base, nodes) && 0 < k < |nodes| && nodes[k].size >= n > 0
    ensures InFree(Take(nodes, k, n), u) <==>
              InFree(nodes, u) && !(nodes[k].End() - n <= u < nodes[k].End())
  {
    hide Coalesced;
    TakeUnit(nodes, k, n, u);
    var r := Take(nodes, k, n);
    if nodes[k].End() - n <= u < nodes[k].End() {
      forall i | 0 <= i < |r| ensures !(r[i].addr <= u < r[i].End()) {
        var j := if i < k || |r| == |nodes| then i else i + 1;
        if j != k {
          assert r[i] == nodes[j];
          Elsewhere(base, nodes, k, j, u);
        }
      }
    }
  }

  // ---- the allocator ---------------------------------------------------

  /** Free and live blocks partition the units obtained from sbrk. */
  ghost predicate Partition(core: set<int>, nodes: seq<Blk>, live: map<int, int>) {
    && (forall u :: u in core <==> InFree(nodes, u) || InLive(live, u))
    && (forall u :: !(InFree(nodes, u) && InLive(live, u)))
    && (forall a, b :: a in live && b in live && a < b ==> a + live[a] <= b)
  }

  ghost predicate LiveHeaders(base: int, mem: map<int, Header>, live: map<int, int>) {
    forall a :: a in live ==> base < a && live[a] > 0 && a in mem && mem[a].size == live[a]
  }

  /** The last node below address a: where the list splits around a. */
  lemma {:induction false} LastBelow(base: int, nodes: seq<Blk>, a: int, n: nat) returns (k: nat)
    requires Coalesced(base, nodes) && base < a && 0 < n <= |nodes|
    requires n < |nodes| ==> a < nodes[n].addr
    requires forall i :: 0 <= i < |nodes| ==> nodes[i].addr != a
    ensures k < |nodes| && nodes[k].addr < a
    ensures k + 1 < |nodes| ==> a < nodes[k + 1].addr
  {
    if nodes[n - 1].addr < a {
      k := n - 1;
    } else {
      k := LastBelow(base, nodes, a, n - 1);
    }
  }

  /** A live block lies in the gap after the last node below it. */
  lemma LiveInGap(base: int, core: set<int>, nodes: seq<Blk>, live: map<int, int>, b: Blk) returns (k: nat)
    requires Coalesced(base, nodes) && Partition(core, nodes, live)
    requires base < b.addr && b.addr in live && live[b.addr] == b.size > 0
    ensures Gap(nodes, k, b)
  {
    assert InLive(live, b.addr);
    assert forall i :: 0 <= i < |nodes| && nodes[i].size > 0 && nodes[i].addr == b.addr ==> InFree(nodes, b.addr);
    k := LastBelow(base, nodes, b.addr, |nodes|);
    if nodes[k].End() > b.addr { assert InFree(nodes, b.addr); }
    if k + 1 < |nodes| && nodes[k + 1].addr < b.End() {
      assert InFree(nodes, nodes[k + 1].addr);
      assert InLive(live, nodes[k + 1].addr);
    }
  }

  lemma FreePartition(base: int, core: set<int>, nodes: seq<Blk>, live: map<int, int>, k: nat, b: Blk)
    requires Coalesced(base, nodes) && Partition(core, nodes, live)
    requires b.addr in live && live[b.addr] == b.size && Gap(nodes, k, b)
    ensures Partition(core, Insert(nodes, k, b), live - {b.addr})
  {
    InsertUnits(base, nodes, k, b);
    var live' := live - {b.addr};
    forall u ensures InLive(live, u) <==> InLive(live', u) || b.addr <= u < b.End()
             ensures !(InLive(live', u) && b.addr <= u < b.End()) {
      if InLive(live, u) {
        var a :| a in live && a <= u < a + live[a];
        if a != b.addr { assert a in live'; }
      }
      if InLive(live', u) {
        var a :| a in live' && a <= u < a + live'[a];
        assert a in live;
        assert a < b.addr || b.addr < a;
      }
    }
  }

  lemma TakePartition(base: int, core: set<int>, nodes: seq<Blk>, live: map<int, int>, k: nat, n: nat)
    requires Coalesced(base, nodes) && Partition(core, nodes, live)
    requires forall a :: a in live ==> live[a] > 0
    requires 0 < k < |nodes| && nodes[k].size >= n > 0
    ensures nodes[k].End() - n !in live
    ensures Partition(core, Take(nodes, k, n), live[nodes[k].End() - n := n])
  {
    forall u ensures InFree(Take(nodes, k, n), u) <==>
              InFree(nodes, u) && !(nodes[k].End() - n <= u < nodes[k].End()) {
      TakeUnits(base, nodes, k, n, u);
    }
    var p := nodes[k].End() - n;
    var live' := live[p := n];
    assert forall u :: p <= u < p + n ==> InFree(nodes, u);
    forall a | a in live ensures a != p && (a < p ==> a + live[a] <= p) && (p < a ==> p + n <= a) {
      assert InLive(live, a) && InLive(live, a + live[a] - 1);
      assert a < p < a + live[a] ==> InLive(live, p);
    }
    forall u ensures InLive(live', u) <==> InLive(live, u) || p <= u < p + n {
      if InLive(live, u) {
        var a :| a in live && a <= u < a + live[a];
        assert a in live' && live'[a] == live[a];
      }
      if p <= u < p + n { assert p in live' && live'[p] == n; }
    }
  }

  /** Memory fresh from sbrk enters as one live block. */
  lemma GrowPartition(core: set<int>, nodes: seq<Blk>, live: map<int, int>, b: Blk)
    requires Partition(core, nodes, live) && b.size > 0
    requires forall a :: a in live ==> live[a] > 0
    requires forall u :: u in core ==> u < b.addr
    ensures b.addr !in live
    ensures Partition(core + Span(b.addr, b.size), nodes, live[b.addr := b.size])
  {
    var live' := live[b.addr := b.size];
    forall a | a in live ensures a + live[a] <= b.addr {
      assert InLive(live, a + live[a] - 1);
    }
    forall u ensures InLive(live', u) <==> InLive(live, u) || b.addr <= u < b.End() {
      if InLive(live, u) {
        var a :| a in live && a <= u < a + live[a];
        assert a in live' && live'[a] == live[a];
      }
      if b.addr <= u < b.End() { assert b.addr in live' && live'[b.addr] == b.size; }
    }
  }

  predicate Holds(b: Blk, a: int, n: int) { b.addr <= a && a + n <= b.End() }

  /** The units [a, a + n) are in the node that free_p names or in the one after it. */
  ghost predicate FreedNear(nodes: seq<Blk>, freeP: int, a: int, n: int) {
    exists i :: 0 <= i < |nodes| && nodes[i].addr == freeP &&
      (Holds(nodes[i], a, n) || Holds(nodes[Next(|nodes|, i)], a, n))
  }

  lemma InsertNear(base: int, nodes: seq<Blk>, k: nat, b: Blk)
    requires Coalesced(base, nodes) && Gap(nodes, k, b)
    ensures FreedNear(Insert(nodes, k, b), nodes[k].addr, b.addr, b.size)
  {
    var m := MergeRight(nodes, k, b);
    assert m[k] == nodes[k] && Holds(m[k + 1], b.addr, b.size);
    var r := MergeLeft(m, k);
    assert r[k].addr == nodes[k].addr;
    assert |r| == |m| ==> Next(|r|, k) == k + 1;
    assert Holds(r[k], b.addr, b.size) || Holds(r[Next(|r|, k)], b.addr, b.size);
  }

  ghost predicate Ascending(nodes: seq<Blk>) {
    forall i, j :: 0 <= i < j < |nodes| && j == i + 1 ==> nodes[i].addr < nodes[j].addr
  }

  lemma {:induction false} AscendingAll(nodes: seq<Blk>, i: nat, j: nat)
    requires Ascending(nodes) && i < j < |nodes|
    ensures nodes[i].addr < nodes[j].addr
  {
    if i + 1 < j { AscendingAll(nodes, i, j - 1); }
  }

  /** A ring in which node k's header still has its old link. */
  ghost predicate RingBut(mem: map<int, Header>, nodes: seq<Blk>, k: nat) {
    && k < |nodes| && nodes[k].addr in mem && mem[nodes[k].addr].size == nodes[k].size
    && (forall i :: 0 <= i < |nodes| ==> nodes[i].addr in mem)
    && (forall i :: 0 <= i < |nodes| && i != k ==> LinkedAt(mem, nodes, i))
  }

  /** The first link update of free: b's header is filled in, b not yet linked. */
  function LinkRight(mem: map<int, Header>, q: int, b: Blk): (mem': map<int, Header>)
    requires q in mem
    ensures forall a :: a in mem && a != b.addr ==> a in mem' && mem'[a] == mem[a]
  {
    if b.End() == q then mem[b.addr := Header(mem[q].ptr, b.size + mem[q].size)]
    else mem[b.addr := Header(q, b.size)]
  }

  lemma NewAddress(base: int, nodes: seq<Blk>, k: nat, b: Blk)
    requires Coalesced(base, nodes) && Gap(nodes, k, b) && base < b.addr
    ensures forall i :: 0 <= i < |nodes| ==> nodes[i].addr != b.addr
  {
    forall i | 0 <= i < |nodes| ensures nodes[i].addr != b.addr {
      if i < k { InOrder(base, nodes, i, k); }
      if k + 1 < i { InOrder(base, nodes, k + 1, i); }
    }
  }

  /** Node i of the new list is linked, the node before the freed block aside. */
  lemma LinkedRight(base: int, mem: map<int, Header>, nodes: seq<Blk>, k: nat, b: Blk, i: nat)
    requires Coalesced(base, nodes) && Gap(nodes, k, b) && Ring(mem, nodes) && base < b.addr
    requires i < |MergeRight(nodes, k, b)| && i != k
    ensures LinkedAt(LinkRight(mem, nodes[Next(|nodes|, k)].addr, b), MergeRight(nodes, k, b), i)
  {
    var n := |nodes|;
    var m := MergeRight(nodes, k, b);
    NewAddress(base, nodes, k, b);
    assert LinkedAt(mem, nodes, k) && LinkedAt(mem, nodes, Next(n, k));
    if i < k {
      assert LinkedAt(mem, nodes, i);
    } else if i > k + 1 {
      var j := i + (n - |m|);
      assert LinkedAt(mem, nodes, j) && m[i] == nodes[j];
      assert m[Next(|m|, i)] == nodes[Next(n, j)];
    }
  }

  lemma LinkRightRing(base: int, mem: map<int, Header>, nodes: seq<Blk>, k: nat, b: Blk)
    requires Coalesced(base, nodes) && Gap(nodes, k, b) && Ring(mem, nodes) && base < b.addr
    ensures RingBut(LinkRight(mem, nodes[Next(|nodes|, k)].addr, b), MergeRight(nodes, k, b), k)
  {
    var m := MergeRight(nodes, k, b);
    NewAddress(base, nodes, k, b);
    assert LinkedAt(mem, nodes, k) && m[k] == nodes[k];
    forall i | 0 <= i < |m| && i != k
      ensures LinkedAt(LinkRight(mem, nodes[Next(|nodes|, k)].addr, b), m, i)
    {
      LinkedRight(base, mem, nodes, k, b, i);
    }
  }

  /** The second link update of free. */
  function LinkLeft(mem: map<int, Header>, p: int, b: int): (mem': map<int, Header>)
    requires p in mem && b in mem
    ensures forall a :: a in mem && a != p ==> a in mem' && mem'[a] == mem[a]
  {
    if p + mem[p].size == b then mem[p := Header(mem[b].ptr, mem[p].size + mem[b].size)]
    else mem[p := Header(b, mem[p].size)]
  }

  lemma LinkLeftRing(mem: map<int, Header>, m: seq<Blk>, k: nat)
    requires RingBut(mem, m, k) && Ascending(m) && k + 1 < |m|
    ensures Ring(LinkLeft(mem, m[k].addr, m[k + 1].addr), MergeLeft(m, k))
  {
    var r := MergeLeft(m, k);
    var mem' := LinkLeft(mem, m[k].addr, m[k + 1].addr);
    forall i | 0 <= i < |m| && i != k ensures m[i].addr != m[k].addr {
      if i < k { AscendingAll(m, i, k); } else { AscendingAll(m, k, i); }
    }
    if m[k].End() == m[k + 1].addr {
      assert forall i :: 0 <= i < k ==> r[i] == m[i];
      assert forall i :: k < i < |r| ==> r[i] == m[i + 1];
      forall i | 0 <= i < |r|
        ensures LinkedAt(mem', r, i)
      {
        if i < k {
          assert LinkedAt(mem, m, i);
        } else {
          assert LinkedAt(mem, m, i + 1);
          assert r[Next(|r|, i)].addr == m[Next(|m|, i + 1)].addr;
        }
      }
    } else {
      forall i | 0 <= i < |m| ensures LinkedAt(mem', m, i) {
        assert i != k ==> LinkedAt(mem, m, i);
      }
    }
  }

  /** free's two conditional link updates turn the ring into Insert's ring. */
  lemma InsertRing(base: int, mem: map<int, Header>, nodes: seq<Blk>, k: nat, b: Blk)
    requires Coalesced(base, nodes) && Gap(nodes, k, b) && Ring(mem, nodes) && base < b.addr
    ensures Ring(LinkLeft(LinkRight(mem, nodes[Next(|nodes|, k)].addr, b), nodes[k].addr, b.addr),
                 Insert(nodes, k, b))
  {
    LinkRightRing(base, mem, nodes, k, b);
    MergeRightCoalesced(base, nodes, k, b);
    var m := MergeRight(nodes, k, b);
    assert m[k] == nodes[k] && m[k + 1].addr == b.addr;
    assert Ascending(m);
    LinkLeftRing(LinkRight(mem, nodes[Next(|nodes|, k)].addr, b), m, k);
  }

  lemma FreeNotLive(core: set<int>, nodes: seq<Blk>, live: map<int, int>)
    requires Partition(core, nodes, live) && forall a :: a in live ==> live[a] > 0
    ensures forall i :: 0 <= i < |nodes| && nodes[i].size > 0 ==> nodes[i].addr !in live
  {
    forall i | 0 <= i < |nodes| && nodes[i].size > 0 ensures nodes[i].addr !in live {
      assert InFree(nodes, nodes[i].addr);
      assert nodes[i].addr in live ==> InLive(live, nodes[i].addr);
    }
  }

  ghost predicate WellFormed(base: int, mem: map<int, Header>, freeP: int, brk: int,
                             nodes: seq<Blk>, live: map<int, int>, core: set<int>) {
    && 0 < base
    && Coalesced(base, nodes)
    && LiveHeaders(base, mem, live)
    && Partition(core, nodes, live)
    && base < brk && (forall u :: u in core ==> base < u < brk)
    && if freeP == 0 then |nodes| == 1 && live == map[]
       else Ring(mem, nodes) && exists i :: 0 <= i < |nodes| && nodes[i].addr == freeP
  }

  /** What free leaves behind is well formed again. */
  lemma FreeKeeps(base: int, mem: map<int, Header>, freeP: int, brk: int,
                  nodes: seq<Blk>, live: map<int, int>, core: set<int>, k: nat, b: Blk)
    returns (nodes': seq<Blk>)
    requires WellFormed(base, mem, freeP, brk, nodes, live, core) && freeP != 0
    requires b.addr in live && live[b.addr] == b.size && Gap(nodes, k, b)
    ensures var mem1 := LinkRight(mem, nodes[Next(|nodes|, k)].addr, b);
            var mem2 := LinkLeft(mem1, nodes[k].addr, b.addr);
            WellFormed(base, mem2, nodes[k].addr, brk, nodes', live - {b.addr}, core)
    ensures FreedNear(nodes', nodes[k].addr, b.addr, b.size)
  {
    nodes' := Insert(nodes, k, b);
    FreePartition(base, core, nodes, live, k, b);
    InsertCoalesced(base, nodes, k, b);
    InsertRing(base, mem, nodes, k, b);
    InsertNear(base, nodes, k, b);
    FreeNotLive(core, nodes, live);
    if k > 0 { InOrder(base, nodes, 0, k); }
  }

  /** malloc's updates when it takes n units from node p, whose predecessor is prev. */
  function TakeMem(mem: map<int, Header>, prev: int, p: int, n: nat): (mem': map<int, Header>)
    requires prev in mem && p in mem
  {
    if mem[p].size == n then mem[prev := Header(mem[p].ptr, mem[prev].size)]
    else
      var q := p + mem[p].size - n;
      mem[p := Header(mem[p].ptr, mem[p].size - n)][q := Header(if q in mem then mem[q].ptr else 0, n)]
  }

  lemma AboveBase(base: int, nodes: seq<Blk>, k: nat)
    requires Coalesced(base, nodes) && k < |nodes| && nodes[k].size > 0
    ensures nodes[k].addr > base
  {
    InOrder(base, nodes, 0, k);
  }

  /** The nodes other than k and its predecessor lie apart from both. */
  lemma Apart(base: int, nodes: seq<Blk>, k: nat, j: nat)
    requires Coalesced(base, nodes) && k < |nodes| && j < |nodes| && j != k
    ensures nodes[j].addr != nodes[k].addr && !(nodes[k].addr <= nodes[j].addr < nodes[k].End())
  {
    if j < k { InOrder(base, nodes, j, k); } else { InOrder(base, nodes, k, j); }
  }

  lemma TakeWhole(base: int, mem: map<int, Header>, nodes: seq<Blk>, i: nat, n: nat, j: nat)
    requires Coalesced(base, nodes) && Ring(mem, nodes) && i + 1 < |nodes| && nodes[i + 1].size == n > 0
    requires j < |nodes| - 1
    ensures LinkedAt(TakeMem(mem, nodes[i].addr, nodes[i + 1].addr, n), Take(nodes, i + 1, n), j)
  {
    hide Coalesced;
    var k, r := i + 1, Take(nodes, i + 1, n);
    assert LinkedAt(mem, nodes, i) && LinkedAt(mem, nodes, k);
    var m := if j < k then j else j + 1;
    assert r[j] == nodes[m] && LinkedAt(mem, nodes, m);
    if m != i { Apart(base, nodes, i, m); }
  }

  lemma TakePart(base: int, mem: map<int, Header>, nodes: seq<Blk>, i: nat, n: nat, j: nat)
    requires Coalesced(base, nodes) && Ring(mem, nodes) && i + 1 < |nodes| && nodes[i + 1].size > n > 0 && j < |nodes|
    ensures LinkedAt(TakeMem(mem, nodes[i].addr, nodes[i + 1].addr, n), Take(nodes, i + 1, n), j)
  {
    hide Coalesced;
    var k := i + 1;
    assert LinkedAt(mem, nodes, i) && LinkedAt(mem, nodes, k) && LinkedAt(mem, nodes, j);
    if j != k { Apart(base, nodes, k, j); }
  }

  lemma TakeRing(base: int, mem: map<int, Header>, nodes: seq<Blk>, i: nat, n: nat)
    requires Coalesced(base, nodes) && Ring(mem, nodes)
    requires i < |nodes| && nodes[Next(|nodes|, i)].size >= n > 0
    ensures var k := Next(|nodes|, i);
            Ring(TakeMem(mem, nodes[i].addr, nodes[k].addr, n), Take(nodes, k, n))
  {
    var k := Next(|nodes|, i);
    assert k == i + 1 by { assert nodes[0].size == 0; }
    assert LinkedAt(mem, nodes, i) && LinkedAt(mem, nodes, k);
    var r, mem' := Take(nodes, k, n), TakeMem(mem, nodes[i].addr, nodes[k].addr, n);
    forall j | 0 <= j < |r| ensures r[j].addr in mem' && LinkedAt(mem', r, j) {
      if nodes[k].size == n { TakeWhole(base, mem, nodes, i, n, j); } else { TakePart(base, mem, nodes, i, n, j); }
    }
  }

  /** What malloc leaves behind when it takes n units from node Next(i) is well formed. */
  lemma TakeKeeps(base: int, mem: map<int, Header>, freeP: int, brk: int,
                  nodes: seq<Blk>, live: map<int, int>, core: set<int>, i: nat, n: nat)
    returns (nodes': seq<Blk>)
    requires WellFormed(base, mem, freeP, brk, nodes, live, core) && freeP != 0
    requires i < |nodes| && nodes[Next(|nodes|, i)].size >= n > 0
    ensures var p := nodes[Next(|nodes|, i)];
            p.End() - n !in live &&
            WellFormed(base, TakeMem(mem, nodes[i].addr, p.addr, n), nodes[i].addr, brk,
                       nodes', live[p.End() - n := n], core)
  {
    hide Partition, Ring;
    var k := Next(|nodes|, i);
    nodes' := Take(nodes, k, n);
    assert nodes[0].size == 0;
    TakeCoalesced(base, nodes, k, n);
    TakePartition(base, core, nodes, live, k, n);
    TakeRing(base, mem, nodes, i, n);
    TakeHeaders(base, mem, nodes, live, core, i, n);
    assert nodes'[i].addr == nodes[i].addr;
    if i > 0 { InOrder(base, nodes, 0, i); }
  }

  lemma TakeHeaders(base: int, mem: map<int, Header>, nodes: seq<Blk>, live: map<int, int>, core: set<int>,
                    i: nat, n: nat)
    requires Coalesced(base, nodes) && Ring(mem, nodes) && LiveHeaders(base, mem, live)
    requires Partition(core, nodes, live)
    requires i < |nodes| && nodes[Next(|nodes|, i)].size >= n > 0
    ensures var p := nodes[Next(|nodes|, i)];
            LiveHeaders(base, TakeMem(mem, nodes[i].addr, p.addr, n), live[p.End() - n := n])
  {
    var k := Next(|nodes|, i);
    assert LinkedAt(mem, nodes, i) && LinkedAt(mem, nodes, k);
    FreeNotLive(core, nodes, live);
    InOrder(base, nodes, 0, k);
    if i > 0 { InOrder(base, nodes, 0, i); }
  }

  ghost predicate Fits(nodes: seq<Blk>, n: int) {
    exists i :: 0 <= i < |nodes| && nodes[i].size >= n
  }

  /** Every node from `from` up to, not including, `to` along the ring is too small. */
  ghost predicate SmallBetween(nodes: seq<Blk>, from: nat, to: nat, n: int)
    requires from < |nodes| && to < |nodes|
  {
    forall j :: 0 <= j < |nodes| && Dist(|nodes|, from, j) < Dist(|nodes|, from, to) ==> nodes[j].size < n
  }

  /** The node d steps along the ring from node f. */
  function Along(nodes: seq<Blk>, f: nat, d: nat): Blk
    requires f < |nodes| && d <= |nodes|
  {
    if f + d < |nodes| then nodes[f + d] else nodes[f + d - |nodes|]
  }

  /** After d nodes that are too small the walk from free_p meets one with n units: its place, and
    * that of the node before it. */
  ghost predicate FirstFit(nodes: seq<Blk>, freeP: int, n: int, f: nat, d: nat) {
    && f < |nodes| && nodes[f].addr == freeP && d < |nodes|
    && (forall e: nat :: 1 <= e <= d ==> Along(nodes, f, e).size < n) && Along(nodes, f, d + 1).size >= n
  }

  /** The n units at q are the end of the first node along the ring from free_p that has them, and
    * free_p becomes the node before it. */
  ghost predicate CutFirst(nodes: seq<Blk>, freeP: int, n: int, freeP': int, q: int) {
    && nodes != []
    && exists f: nat, d: nat ::
         && FirstFit(nodes, freeP, n, f, d) && freeP' == Along(nodes, f, d).addr
         && q == Along(nodes, f, d + 1).End() - n
  }

  lemma FirstFitBy(nodes: seq<Blk>, freeP: int, n: int, f: nat, i: nat)
    requires f < |nodes| && nodes[f].addr == freeP && i < |nodes|
    requires SmallBetween(nodes, Next(|nodes|, f), Next(|nodes|, i), n) && nodes[Next(|nodes|, i)].size >= n
    ensures CutFirst(nodes, freeP, n, nodes[i].addr, nodes[Next(|nodes|, i)].End() - n)
  {
    var size := |nodes|;
    var d := Dist(size, Next(size, f), Next(size, i));
    forall e: nat | 1 <= e <= d ensures Along(nodes, f, e).size < n {
      var j := if f + e < size then f + e else f + e - size;
      assert Dist(size, Next(size, f), j) == e - 1;
    }
    assert FirstFit(nodes, freeP, n, f, d);
  }

  lemma SmallNone(nodes: seq<Blk>, from: nat, n: int)
    requires from < |nodes|
    ensures SmallBetween(nodes, from, from, n)
  {
  }

  lemma SmallExtend(nodes: seq<Blk>, from: nat, to: nat, n: int)
    requires from < |nodes| && to < |nodes| && SmallBetween(nodes, from, to, n) && nodes[to].size < n
    requires Next(|nodes|, to) != from
    ensures SmallBetween(nodes, from, Next(|nodes|, to), n)
  {
    var N := |nodes|;
    forall j | 0 <= j < N && Dist(N, from, j) < Dist(N, from, Next(N, to)) ensures nodes[j].size < n {
      if j != to { assert Dist(N, from, j) < Dist(N, from, to); }
    }
  }

  lemma SmallAll(nodes: seq<Blk>, f: nat, n: int)
    requires f < |nodes| && SmallBetween(nodes, Next(|nodes|, f), f, n) && nodes[f].size < n
    ensures !Fits(nodes, n)
  {
    var N := |nodes|;
    forall j | 0 <= j < N ensures nodes[j].size < n {
      if j != f { assert Dist(N, Next(N, f), j) < Dist(N, Next(N, f), f); }
    }
  }

  lemma SameNode(base: int, nodes: seq<Blk>, i: nat, j: nat)
    requires Coalesced(base, nodes) && i < |nodes| && j < |nodes|
    ensures nodes[i].addr == nodes[j].addr <==> i == j
  {
    if i < j { InOrder(base, nodes, i, j); } else if j < i { InOrder(base, nodes, j, i); }
  }

  lemma FitsAt(nodes: seq<Blk>, i: nat, n: int)
    requires i < |nodes| && nodes[i].size >= n
    ensures Fits(nodes, n)
  {
  }

  lemma PositiveAddr(base: int, nodes: seq<Blk>, i: nat)
    requires Coalesced(base, nodes) && i < |nodes|
    ensures nodes[i].addr >= base
  {
    if i > 0 { InOrder(base, nodes, 0, i); }
  }

  lemma NearIndex(nodes: seq<Blk>, freeP: int, a: int, n: int) returns (f: nat)
    requires FreedNear(nodes, freeP, a, n)
    ensures f < |nodes| && nodes[f].addr == freeP
    ensures Holds(nodes[f], a, n) || Holds(nodes[Next(|nodes|, f)], a, n)
  {
    f :| f < |nodes| && nodes[f].addr == freeP &&
      (Holds(nodes[f], a, n) || Holds(nodes[Next(|nodes|, f)], a, n));
  }

  lemma BelowBreak(base: int, brk: int, nodes: seq<Blk>, live: map<int, int>, core: set<int>)
    requires Coalesced(base, nodes) && Partition(core, nodes, live) && base < brk
    requires forall a :: a in live ==> live[a] > 0
    requires forall u :: u in core ==> u < brk
    ensures forall i :: 0 <= i < |nodes| ==> nodes[i].addr < brk
    ensures forall a :: a in live ==> a < brk
  {
    forall i | 0 <= i < |nodes| ensures nodes[i].addr < brk {
      assert i > 0 ==> InFree(nodes, nodes[i].addr);
    }
    forall a | a in live ensures a < brk { assert InLive(live, a); }
  }

  /** Memory at the break gets a header: the ring and the live headers are untouched. */
  lemma GrowLinks(base: int, mem: map<int, Header>, brk: int, nodes: seq<Blk>, live: map<int, int>, h: Header)
    requires Ring(mem, nodes) && LiveHeaders(base, mem, live)
    requires forall i :: 0 <= i < |nodes| ==> nodes[i].addr < brk
    requires forall a :: a in live ==> a < brk
    requires base < brk && h.size > 0
    ensures Ring(mem[brk := h], nodes)
    ensures LiveHeaders(base, mem[brk := h], live[brk := h.size])
  {
    var mem' := mem[brk := h];
    forall i | 0 <= i < |nodes| ensures nodes[i].addr in mem' && LinkedAt(mem', nodes, i) {
      assert LinkedAt(mem, nodes, i);
    }
  }

  lemma GrowKeeps(base: int, mem: map<int, Header>, freeP: int, brk: int,
                  nodes: seq<Blk>, live: map<int, int>, core: set<int>, h: Header)
    requires WellFormed(base, mem, freeP, brk, nodes, live, core) && freeP != 0 && h.size > 0
    ensures brk !in live
    ensures WellFormed(base, mem[brk := h], freeP, brk + h.size,
                       nodes, live[brk := h.size], core + Span(brk, h.size))
  {
    GrowPartition(core, nodes, live, Blk(brk, h.size));
    BelowBreak(base, brk, nodes, live, core);
    GrowLinks(base, mem, brk, nodes, live, h);
  }

  class Allocator {
    const base: int             // address of the static header `base`
    var mem: map<int, Header>
    var freeP: int              // 0 until the first call of malloc
    var brk: int                // program break
    ghost var nodes: seq<Blk>
    ghost var live: map<int, int>
    ghost var core: set<int>

    ghost predicate Valid()
      reads this
    {
      WellFormed(base, mem, freeP, brk, nodes, live, core)
    }

    /** The image's static data lies below the initial break. */
    constructor (base: int, brk: int)
      requires 0 < base < brk
      ensures Valid() && live == map[] && core == {} && this.base == base && this.brk == brk
    {
      this.base := base;
      this.brk := brk;
      mem := map[];
      freeP := 0;
      nodes := [Blk(base, 0)];
      live := map[];
      core := {};
    }

    /** The search loop of free: stops at the node k whose gap takes bp. */
    method FindGap(bp: int, ghost k: nat) returns (p: int)
      requires Valid() && freeP != 0
      requires k < |nodes| && nodes[k].addr < bp && base < bp
      requires k + 1 < |nodes| ==> bp < nodes[k + 1].addr
      ensures p == nodes[k].addr
    {
      ghost var n := |nodes|;
      ghost var i: nat :| i < n && nodes[i].addr == freeP;
      p := freeP;
      assert LinkedAt(mem, nodes, i);
      while !(p < bp && bp < mem[p].ptr)
        invariant i < n && p == nodes[i].addr && p in mem
        decreases Dist(n, i, k)
      {
        assert LinkedAt(mem, nodes, i);
        if i + 1 < n { InOrder(base, nodes, i, i + 1); }
        if i < k { InOrder(base, nodes, i, k); }
        if k < i { InOrder(base, nodes, k, i); if k + 1 < i { InOrder(base, nodes, k + 1, i); } }
        if 0 < i { InOrder(base, nodes, 0, i); }
        if p >= mem[p].ptr && (p < bp || bp < mem[p].ptr) {
          break;
        }
        p := mem[p].ptr;
        i := Next(n, i);
        assert LinkedAt(mem, nodes, i);
      }
      assert LinkedAt(mem, nodes, i);
      if i < k { InOrder(base, nodes, i, k); if i + 1 < k { InOrder(base, nodes, i + 1, k); } }
      if k < i { InOrder(base, nodes, k, i); if k + 1 < i { InOrder(base, nodes, k + 1, i); } }
      if 0 < i { InOrder(base, nodes, 0, i); }
    }

    /** The link updates of free: bp goes between p and p's successor. */
    method Relink(p: int, bp: int)
      requires p in mem && bp in mem && mem[p].ptr in mem && p != bp
      modifies this`mem
      ensures mem == LinkLeft(LinkRight(old(mem), old(mem[p].ptr), Blk(bp, old(mem[bp].size))), p, bp)
    {
      var pNext := mem[p].ptr;
      if bp + mem[bp].size == pNext {
        mem := mem[bp := Header(mem[pNext].ptr, mem[bp].size + mem[pNext].size)];
      } else {
        mem := mem[bp := Header(pNext, mem[bp].size)];
      }
      if p + mem[p].size == bp {
        mem := mem[p := Header(mem[bp].ptr, mem[p].size + mem[bp].size)];
      } else {
        mem := mem[p := Header(bp, mem[p].size)];
      }
    }

    /** free. The caller passes a pointer that malloc returned, one past the header. */
    method Free(ap: int)
      requires Valid() && ap - 1 in live
      modifies this
      ensures Valid() && live == old(live) - {ap - 1}
      ensures core == old(core) && brk == old(brk) && freeP != 0
      ensures FreedNear(nodes, freeP, ap - 1, old(live)[ap - 1])
    {
      var bp := ap - 1;
      ghost var b := Blk(bp, live[bp]);
      ghost var k := LiveInGap(base, core, nodes, live, b);
      ghost var nodes' := FreeKeeps(base, mem, freeP, brk, nodes, live, core, k, b);
      var p := FindGap(bp, k);
      assert LinkedAt(mem, nodes, k);
      Relink(p, bp);
      freeP := p;
      nodes := nodes';
      live := live - {bp};
    }

    /** more_core. `granted` is the kernel's answer to sbrk. */
    method MoreCore(nunits: nat, granted: bool) returns (p: int)
      requires Valid() && freeP != 0 && (granted ==> CoreUnits(nunits) * UNIT <= INT_MAX)
      modifies this
      ensures Valid() && live == old(live) && freeP != 0
      ensures !granted ==> p == 0 && core == old(core) && brk == old(brk)
      ensures granted ==> p == freeP && brk == old(brk) + CoreUnits(nunits)
      ensures granted ==> core == old(core) + Span(old(brk), CoreUnits(nunits))
      ensures granted ==> FreedNear(nodes, freeP, old(brk), CoreUnits(nunits))
    {
      hide WellFormed, FreedNear;
      var nu := nunits;
      if nu < MIN_CORE { nu := MIN_CORE; }
      if !granted { return 0; }
      var hp := brk;
      GrowthExactIffFits(nunits);
      brk := brk + ToInt(nu * UNIT) / UNIT;
      var h := Header(if hp in mem then mem[hp].ptr else 0, nu);
      GrowKeeps(base, mem, freeP, hp, nodes, live, core, h);
      mem := mem[hp := h];
      live := live[hp := nu];
      core := core + Span(hp, nu);
      Free(hp + 1);
      assert live == old(live);
      p := freeP;
    }

    /** The first call of malloc: an empty ring. */
    method InitRing()
      requires Valid() && freeP == 0
      modifies this`mem, this`freeP
      ensures Valid() && freeP == base != 0
    {
      freeP := base;
      mem := mem[base := Header(base, 0)];
      assert LinkedAt(mem, nodes, 0);
    }

    /** malloc's search: p, after prev, is the first node with n units along the ring from
      * free_p; the heap has grown exactly when no node had them. prev == 0 means sbrk failed. */
    method Search(n: nat, granted: bool) returns (prev: int, p: int, ghost i: nat)
      requires Valid() && freeP != 0
      requires granted && !Fits(nodes, n) ==> CoreUnits(n) * UNIT <= INT_MAX
      modifies this
      ensures Valid() && freeP != 0 && live == old(live)
      ensures prev == 0 <==> !old(Fits(nodes, n)) && !granted
      ensures prev != 0 ==> i < |nodes| && nodes[i].addr == prev
      ensures prev != 0 ==> nodes[Next(|nodes|, i)].addr == p && nodes[Next(|nodes|, i)].size >= n
      ensures core == if old(Fits(nodes, n)) || !granted then old(core)
                      else old(core) + Span(old(brk), CoreUnits(n))
      ensures old(Fits(nodes, n)) ==>
                && i < |old(nodes)|
                && CutFirst(old(nodes), old(freeP), n, prev, p + old(nodes)[Next(|old(nodes)|, i)].size - n)
      ensures old(Fits(nodes, n)) ==> nodes == old(nodes)
    {
      hide WellFormed, Coalesced, FreedNear, CutFirst, SmallBetween, Span, Fits, LinkedAt;
      prev := freeP;
      ghost var f: nat := FreeIndex();
      Linked(f);
      Linked(Next(|nodes|, f));
      SmallNone(nodes, Next(|nodes|, f), n);
      i := f;
      p := mem[freeP].ptr;
      ghost var grown := false;
      while mem[p].size < n
        invariant Valid() && freeP != 0 && live == old(live)
        invariant f < |nodes| && nodes[f].addr == freeP
        invariant i < |nodes| && nodes[i].addr == prev && nodes[Next(|nodes|, i)].addr == p && p in mem
        invariant !grown ==> nodes == old(nodes) && core == old(core) && brk == old(brk) && freeP == old(freeP)
        invariant !grown ==> SmallBetween(nodes, Next(|nodes|, f), Next(|nodes|, i), n)
        invariant grown ==> nodes[f].size >= n || (nodes[Next(|nodes|, f)].size >= n && i == f)
        invariant grown ==> !old(Fits(nodes, n)) && granted && core == old(core) + Span(old(brk), CoreUnits(n))
        decreases !grown, Dist(|nodes|, Next(|nodes|, i), f)
      {
        ghost var k: nat := Next(|nodes|, i);
        Linked(k);
        SameNode(base, nodes, k, f);
        if p == freeP {
          SmallAll(nodes, f, n);
          p := MoreCore(n, granted);
          if p == 0 { return 0, 0, 0; }
          grown := true;
          f := NearIndex(nodes, freeP, old(brk), CoreUnits(n));
          k := f;
          Linked(k);
        } else if !grown {
          SmallExtend(nodes, Next(|nodes|, f), k, n);
        }
        prev := p;
        i := k;
        p := mem[p].ptr;
        Linked(Next(|nodes|, i));
      }
      Linked(Next(|nodes|, i));
      FitsAt(nodes, Next(|nodes|, i), n);
      if !grown { FirstFitBy(nodes, freeP, n, f, i); }
      PositiveAddr(base, nodes, i);
    }

    /** Node i of the ring, as the headers spell it out. */
    lemma Linked(i: nat)
      requires Valid() && freeP != 0 && i < |nodes|
      ensures 0 < base && Coalesced(base, nodes) && nodes[i].addr in mem
      ensures mem[nodes[i].addr] == Header(nodes[Next(|nodes|, i)].addr, nodes[i].size)
    {
      hide Coalesced, LiveHeaders, Partition;
      assert LinkedAt(mem, nodes, i);
    }

    /** The index of the node in free_p. */
    lemma FreeIndex() returns (f: nat)
      requires Valid() && freeP != 0
      ensures f < |nodes| && nodes[f].addr == freeP
    {
      hide Coalesced, LiveHeaders, Partition, Ring;
      f :| f < |nodes| && nodes[f].addr == freeP;
    }

    /** Before the first call no node is large enough. */
    lemma NoneFits(n: nat)
      requires Valid() && freeP == 0 && n > 0
      ensures !Fits(nodes, n)
    {
      hide LiveHeaders, Partition;
    }

    /** malloc. Growing by more than fits sbrk's int corrupts the heap (GrowthTruncates), so
      * the one request left out is one that no free block satisfies, that is larger than
      * that, and that the kernel grants all the same. */
    method Malloc(nbytes: nat, granted: bool) returns (r: int)
      requires Valid() && nbytes < U64
      requires granted && !Fits(nodes, NUnits(nbytes)) ==> CoreUnits(NUnits(nbytes)) * UNIT <= INT_MAX
      modifies this
      ensures Valid()
      ensures r == 0 <==> !old(Fits(nodes, NUnits(nbytes))) && !granted
      ensures r == 0 ==> live == old(live)
      ensures r != 0 ==> r - 1 !in old(live) && live == old(live)[r - 1 := NUnits(nbytes)]
      ensures core == if old(Fits(nodes, NUnits(nbytes))) || !granted then old(core)
                      else old(core) + Span(old(brk), CoreUnits(NUnits(nbytes)))
      ensures old(Fits(nodes, NUnits(nbytes))) ==>
                CutFirst(old(nodes), old(freeP), NUnits(nbytes), freeP, r - 1)
    {
      hide WellFormed, Fits, CutFirst;
      var n := NUnits(nbytes);
      if freeP == 0 {
        NoneFits(n);
        InitRing();
      }
      ghost var i;
      var prev, p;
      prev, p, i := Search(n, granted);
      if prev == 0 { return 0; }
      r := TakeFrom(prev, p, n, i);
    }

    /** The link updates at the exit of malloc's loop: p, after prev, gives up n units. */
    method Carve(prev: int, p: int, n: nat) returns (q: int)
      requires prev in mem && p in mem && mem[p].size >= n
      modifies this`mem
      ensures q == p + old(mem)[p].size - n && mem == TakeMem(old(mem), prev, p, n)
    {
      q := p;
      if mem[p].size == n {
        mem := mem[prev := mem[prev].(ptr := mem[p].ptr)];
      } else {
        mem := mem[p := mem[p].(size := mem[p].size - n)];
        q := p + mem[p].size;
        mem := mem[q := Header(if q in mem then mem[q].ptr else 0, n)];
      }
    }

    /** The exit of malloc's loop. */
    method TakeFrom(prev: int, p: int, n: nat, ghost i: nat) returns (r: int)
      requires Valid() && freeP != 0 && n > 0
      requires i < |nodes| && nodes[i].addr == prev && nodes[Next(|nodes|, i)].addr == p
      requires nodes[Next(|nodes|, i)].size >= n
      modifies this
      ensures Valid() && core == old(core) && brk == old(brk)
      ensures r > 0 && r - 1 !in old(live) && live == old(live)[r - 1 := n]
      ensures freeP == prev && r - 1 == p + old(nodes)[Next(|old(nodes)|, i)].size - n
    {
      hide WellFormed, Coalesced;
      ghost var k := Next(|nodes|, i);
      Linked(i);
      Linked(k);
      ghost var nodes' := TakeKeeps(base, mem, freeP, brk, nodes, live, core, i, n);
      AboveBase(base, nodes, k);
      var q := Carve(prev, p, n);
      freeP := prev;
      nodes := nodes';
      live := live[q := n];
      r := q + 1;
    }
  }
}
