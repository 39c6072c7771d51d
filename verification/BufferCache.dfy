/** The buffer cache of kernel/bio.c over the memory disk of
  * kernel/driver/ramdisk.c, with each call taken as one step.
  *
  * Buffers are named by their index; HEAD is the index of the list head. The
  * ghost field `view` is what the cache stands for: a plain array of blocks.
  */
module BufferCache {
  import opened Common
  import opened Bytes

  const NBUF := 30
  const HEAD := NBUF
  const DEV_RAMDISK := 0

  datatype Buf = Buf(dev: nat, blockNo: nat, valid: bool, dirty: bool, locked: bool, refCount: nat, data: Block)

  // ---- the doubly linked list ------------------------------------------

  /** Node i of the ring that starts at the head. */
  function At(order: seq<nat>, i: nat): nat
    requires i <= |order|
  {
    if i == 0 then HEAD else order[i - 1]
  }

  function Succ(order: seq<nat>, i: nat): nat
    requires i <= |order|
  {
    if i == |order| then 0 else i + 1
  }

  ghost predicate LinkAt(next: seq<nat>, prev: seq<nat>, order: seq<nat>, i: nat)
    requires i <= |order|
  {
    var a, b := At(order, i), At(order, Succ(order, i));
    a < |next| && b < |prev| && next[a] == b && prev[b] == a
  }

  ghost predicate Linked(next: seq<nat>, prev: seq<nat>, order: seq<nat>) {
    && |next| == |prev| == NBUF + 1
    && forall i :: 0 <= i <= |order| ==> LinkAt(next, prev, order, i)
  }

  ghost predicate Distinct(order: seq<nat>) {
    && (forall i :: 0 <= i < |order| ==> order[i] < NBUF)
    && (forall i, j :: 0 <= i < j < |order| ==> order[i] != order[j])
  }

  /** Every buffer is in the list, once. */
  ghost predicate Permutation(order: seq<nat>) {
    && Distinct(order)
    && forall b :: 0 <= b < NBUF ==> b in order
  }

  function Without(order: seq<nat>, k: nat): (r: seq<nat>)
    requires k < |order|
    ensures |r| == |order| - 1
    ensures forall i :: 0 <= i < k ==> r[i] == order[i]
    ensures forall i :: k <= i < |r| ==> r[i] == order[i + 1]
  {
    order[..k] + order[k + 1..]
  }

  /** brelse's first two assignments take node k out of the list. */
  lemma UnlinkLinked(next: seq<nat>, prev: seq<nat>, order: seq<nat>, k: nat)
    requires Linked(next, prev, order) && Distinct(order) && k < |order|
    ensures var b := order[k]; next[b] < |prev| && prev[b] < |next|
    ensures var b := order[k];
            Linked(next[prev[b] := next[b]], prev[next[b] := prev[b]], Without(order, k))
  {
    var b := order[k];
    assert LinkAt(next, prev, order, k) && LinkAt(next, prev, order, k + 1);
    var next', prev', r := next[prev[b] := next[b]], prev[next[b] := prev[b]], Without(order, k);
    forall i | 0 <= i <= |r| ensures LinkAt(next', prev', r, i) {
      var j := if i <= k then i else i + 1;
      assert LinkAt(next, prev, order, j);
      assert At(r, i) == At(order, j);
    }
  }

  /** The remaining assignments of brelse, and those of bcache_init, put b at the front. */
  lemma PushFrontLinked(next: seq<nat>, prev: seq<nat>, order: seq<nat>, b: nat)
    requires Linked(next, prev, order) && Distinct(order) && b < NBUF && b !in order
    ensures next[HEAD] < |prev|
    ensures var first := next[HEAD];
            Linked(next[b := first][HEAD := b], prev[b := HEAD][first := b], [b] + order)
  {
    assert LinkAt(next, prev, order, 0);
    var first := next[HEAD];
    var next', prev', r := next[b := first][HEAD := b], prev[b := HEAD][first := b], [b] + order;
    forall i | 0 <= i <= |r| ensures LinkAt(next', prev', r, i) {
      if i >= 2 {
        assert LinkAt(next, prev, order, i - 1);
        assert At(r, i) == At(order, i - 1);
      }
    }
  }

  lemma MoveToFront(order: seq<nat>, k: nat)
    requires Permutation(order) && k < |order|
    ensures Permutation([order[k]] + Without(order, k))
    ensures Distinct(Without(order, k)) && order[k] !in Without(order, k)
  {
    var w := Without(order, k);
    var r := [order[k]] + w;
    forall b | 0 <= b < NBUF ensures b in r {
      assert b in order;
      var i :| 0 <= i < |order| && order[i] == b;
      if i < k { assert r[i + 1] == b; } else if i > k { assert r[i] == b; }
    }
  }

  // ---- what the cache stands for ---------------------------------------

  ghost predicate Labelled(b: Buf, dev: nat, blk: nat) { b.dev == dev && b.blockNo == blk }

  /** Each buffer on its own: labels are real disk blocks, the sleep lock and the
    * reference count agree, and only valid buffers are dirty. */
  ghost predicate BufOk(b: Buf, n: nat) {
    && b.dev == DEV_RAMDISK && b.blockNo < n
    && b.refCount == (if b.locked then 1 else 0)
    && (b.dirty ==> b.valid)
  }

  /** All buffers start with the same label, so labels repeat. Of the buffers with
    * one label only the first in list order is ever in use. */
  ghost predicate FirstMatchLive(bufs: seq<Buf>, order: seq<nat>)
    requires |bufs| == NBUF && Distinct(order)
  {
    forall i, j :: 0 <= i < j < |order| && bufs[order[i]].blockNo == bufs[order[j]].blockNo ==>
      !bufs[order[j]].valid && !bufs[order[j]].locked
  }

  ghost predicate Ahead(bufs: seq<Buf>, blk: nat) {
    exists b :: 0 <= b < |bufs| && bufs[b].valid && bufs[b].blockNo == blk && (bufs[b].dirty || bufs[b].locked)
  }

  /** view is the logical disk: a valid buffer holds its block, and the memory disk
    * holds every block that no dirty or held buffer is ahead of. */
  ghost predicate Represents(bufs: seq<Buf>, disk: seq<Block>, view: seq<Block>) {
    && |view| == |disk|
    && (forall b :: 0 <= b < |bufs| && bufs[b].valid && bufs[b].blockNo < |view| ==>
          view[bufs[b].blockNo] == bufs[b].data)
    && (forall blk :: 0 <= blk < |view| && view[blk] != disk[blk] ==> Ahead(bufs, blk))
  }

  /** The list is sorted by time of last release, most recent first. */
  ghost predicate Recency(order: seq<nat>, stamp: seq<nat>, clock: nat)
    requires Distinct(order)
  {
    && |stamp| == NBUF
    && (forall b :: 0 <= b < NBUF ==> stamp[b] < clock)
    && (forall i, j :: 0 <= i < j < |order| ==> stamp[order[i]] > stamp[order[j]])
  }

  ghost predicate Coherent(bufs: seq<Buf>, disk: seq<Block>, view: seq<Block>, order: seq<nat>)
    requires Distinct(order)
  {
    && |bufs| == NBUF
    && (forall b :: 0 <= b < NBUF ==> BufOk(bufs[b], |disk|))
    && FirstMatchLive(bufs, order)
    && Represents(bufs, disk, view)
  }

  /** A hit: the first match is locked. */
  lemma LockKeeps(bufs: seq<Buf>, disk: seq<Block>, view: seq<Block>, order: seq<nat>, k: nat)
    requires Distinct(order) && Coherent(bufs, disk, view, order) && k < |order|
    requires forall j :: 0 <= j < k ==> bufs[order[j]].blockNo != bufs[order[k]].blockNo
    ensures Coherent(bufs[order[k] := bufs[order[k]].(locked := true, refCount := 1)], disk, view, order)
  {
    var bufs' := bufs[order[k] := bufs[order[k]].(locked := true, refCount := 1)];
    AheadMonotone(bufs, bufs');
  }

  lemma AheadMonotone(bufs: seq<Buf>, bufs': seq<Buf>)
    requires |bufs| == |bufs'|
    requires forall b :: 0 <= b < |bufs| && bufs[b].valid && (bufs[b].dirty || bufs[b].locked) ==>
               bufs'[b].valid && bufs'[b].blockNo == bufs[b].blockNo && (bufs'[b].dirty || bufs'[b].locked)
    ensures forall blk :: Ahead(bufs, blk) ==> Ahead(bufs', blk)
  {
  }

  /** Eviction writes a dirty victim back under its old number and never changes the logical disk. */
  lemma EvictKeeps(bufs: seq<Buf>, disk: seq<Block>, view: seq<Block>, order: seq<nat>, v: nat, blk: nat)
    requires Distinct(order) && Coherent(bufs, disk, view, order) && v < NBUF && !bufs[v].locked
    requires forall c :: 0 <= c < NBUF ==> !Labelled(bufs[c], DEV_RAMDISK, blk)
    requires blk < |disk|
    ensures var disk' := if bufs[v].dirty then disk[bufs[v].blockNo := bufs[v].data] else disk;
            Coherent(bufs[v := Buf(DEV_RAMDISK, blk, false, false, true, 1, bufs[v].data)], disk', view, order)
  {
    var bufs' := bufs[v := Buf(DEV_RAMDISK, blk, false, false, true, 1, bufs[v].data)];
    var disk' := if bufs[v].dirty then disk[bufs[v].blockNo := bufs[v].data] else disk;
    forall c | 0 <= c < NBUF ensures bufs[c].blockNo != blk { assert BufOk(bufs[c], |disk|); }
    assert BufOk(bufs[v], |disk|);
    forall x | 0 <= x < |view| && view[x] != disk'[x] ensures Ahead(bufs', x) {
      assert Ahead(bufs, x);
      var b :| 0 <= b < |bufs| && bufs[b].valid && bufs[b].blockNo == x && (bufs[b].dirty || bufs[b].locked);
      assert b != v;
      assert bufs'[b] == bufs[b];
    }
  }

  /** Reading a held, invalid buffer from the memory disk gives the logical contents. */
  lemma FillKeeps(bufs: seq<Buf>, disk: seq<Block>, view: seq<Block>, order: seq<nat>, b: nat)
    requires Permutation(order) && Coherent(bufs, disk, view, order)
    requires b < NBUF && bufs[b].locked && !bufs[b].valid
    ensures bufs[b].blockNo < |disk| == |view| && view[bufs[b].blockNo] == disk[bufs[b].blockNo]
    ensures Coherent(bufs[b := bufs[b].(data := disk[bufs[b].blockNo], valid := true)], disk, view, order)
  {
    assert BufOk(bufs[b], |disk|);
    var x := bufs[b].blockNo;
    forall c | 0 <= c < NBUF && bufs[c].blockNo == x && c != b ensures !bufs[c].valid {
      assert b in order && c in order;
      var i :| 0 <= i < |order| && order[i] == b;
      var j :| 0 <= j < |order| && order[j] == c;
      assert i < j || j < i;
    }
    assert !Ahead(bufs, x);
    AheadMonotone(bufs, bufs[b := bufs[b].(data := disk[x], valid := true)]);
  }

  /** A held buffer is the only valid one with its label. */
  lemma HeldAlone(bufs: seq<Buf>, disk: seq<Block>, view: seq<Block>, order: seq<nat>, b: nat, c: nat)
    requires Permutation(order) && Coherent(bufs, disk, view, order)
    requires b < NBUF && bufs[b].locked && c < NBUF && c != b && bufs[c].blockNo == bufs[b].blockNo
    ensures !bufs[c].valid
  {
    assert b in order && c in order;
    var i :| 0 <= i < |order| && order[i] == b;
    var j :| 0 <= j < |order| && order[j] == c;
    assert i < j || j < i;
  }

  lemma StoreKeeps(bufs: seq<Buf>, disk: seq<Block>, view: seq<Block>, order: seq<nat>, b: nat, data: Block)
    requires Permutation(order) && Coherent(bufs, disk, view, order)
    requires b < NBUF && bufs[b].locked && bufs[b].valid
    ensures bufs[b].blockNo < |view|
    ensures Coherent(bufs[b := bufs[b].(data := data)], disk, view[bufs[b].blockNo := data], order)
  {
    assert BufOk(bufs[b], |disk|);
    var x := bufs[b].blockNo;
    var bufs' := bufs[b := bufs[b].(data := data)];
    forall c | 0 <= c < NBUF && bufs[c].valid && c != b ensures bufs[c].blockNo != x {
      if bufs[c].blockNo == x { HeldAlone(bufs, disk, view, order, b, c); }
    }
    AheadMonotone(bufs, bufs');
    assert Ahead(bufs', x) by { assert bufs'[b].blockNo == x; }
  }

  /** brelse: unlocked and moved to the front of the list. */
  lemma ReleaseKeeps(bufs: seq<Buf>, disk: seq<Block>, view: seq<Block>, order: seq<nat>, k: nat)
    requires Permutation(order) && Coherent(bufs, disk, view, order) && k < |order|
    requires bufs[order[k]].locked && bufs[order[k]].valid
    requires bufs[order[k]].dirty || bufs[order[k]].data == disk[bufs[order[k]].blockNo]
    ensures var order' := [order[k]] + Without(order, k);
            Distinct(order') &&
            Coherent(bufs[order[k] := bufs[order[k]].(locked := false, refCount := 0)], disk, view, order')
  {
    MoveToFront(order, k);
    var b := order[k];
    var order' := [b] + Without(order, k);
    var bufs' := bufs[b := bufs[b].(locked := false, refCount := 0)];
    assert BufOk(bufs[b], |disk|);
    forall x | 0 <= x < |view| && view[x] != disk[x] ensures Ahead(bufs', x) {
      assert Ahead(bufs, x);
      var c :| 0 <= c < |bufs| && bufs[c].valid && bufs[c].blockNo == x && (bufs[c].dirty || bufs[c].locked);
      if c == b { assert bufs[b].dirty && bufs'[b].valid; } else { assert bufs'[c] == bufs[c]; }
    }
    forall i, j | 0 <= i < j < |order'| && bufs'[order'[i]].blockNo == bufs'[order'[j]].blockNo
      ensures !bufs'[order'[j]].valid && !bufs'[order'[j]].locked
    {
      if i == 0 {
        HeldAlone(bufs, disk, view, order, b, order'[j]);
        var m := if j <= k then j - 1 else j;
        assert order'[j] == order[m];
      } else {
        var m, n := if i <= k then i - 1 else i, if j <= k then j - 1 else j;
        assert order'[i] == order[m] && order'[j] == order[n];
      }
    }
  }

  ghost function Position(order: seq<nat>, b: nat): (k: nat)
    requires b in order
    ensures k < |order| && order[k] == b
  {
    if order[0] == b then 0 else 1 + Position(order[1..], b)
  }

  lemma FirstHeld(bufs: seq<Buf>, disk: seq<Block>, view: seq<Block>, order: seq<nat>, k: nat)
    requires Permutation(order) && Coherent(bufs, disk, view, order) && k < |order|
    requires forall j :: 0 <= j < k ==> !Labelled(bufs[order[j]], DEV_RAMDISK, bufs[order[k]].blockNo)
    ensures forall j :: 0 <= j < k ==> bufs[order[j]].blockNo != bufs[order[k]].blockNo
    ensures bufs[order[k]].locked <==>
              exists b :: 0 <= b < |bufs| && bufs[b].locked && bufs[b].blockNo == bufs[order[k]].blockNo
  {
    forall j | 0 <= j < k ensures bufs[order[j]].blockNo != bufs[order[k]].blockNo {
      assert BufOk(bufs[order[j]], |disk|);
    }
    forall b | 0 <= b < |bufs| && bufs[b].locked && bufs[b].blockNo == bufs[order[k]].blockNo
      ensures b == order[k]
    {
      assert b in order;
    }
  }

  /** Releasing buffer b loses nothing: it is marked for write-back or equals the memory disk. */
  ghost predicate Settled(bufs: seq<Buf>, disk: seq<Block>, b: nat) {
    b < |bufs| && bufs[b].blockNo < |disk| && (bufs[b].dirty || bufs[b].data == disk[bufs[b].blockNo])
  }

  /** A valid buffer that nobody holds is settled. */
  lemma UnheldSettled(bufs: seq<Buf>, disk: seq<Block>, view: seq<Block>, order: seq<nat>, b: nat)
    requires Permutation(order) && Coherent(bufs, disk, view, order)
    requires b < NBUF && bufs[b].valid && !bufs[b].locked
    ensures Settled(bufs, disk, b)
  {
    assert BufOk(bufs[b], |disk|);
    var x := bufs[b].blockNo;
    if view[x] != disk[x] {
      assert Ahead(bufs, x);
      var c :| 0 <= c < |bufs| && bufs[c].valid && bufs[c].blockNo == x && (bufs[c].dirty || bufs[c].locked);
      assert b in order && c in order;
      var i :| 0 <= i < |order| && order[i] == b;
      var j :| 0 <= j < |order| && order[j] == c;
      assert i < j || j < i || b == c;
    }
  }

  class Cache {
    var bufs: seq<Buf>
    var next: seq<nat>
    var prev: seq<nat>
    var disk: seq<Block>
    ghost var order: seq<nat>
    ghost var view: seq<Block>
    ghost var stamp: seq<nat>    // when each buffer was last released
    ghost var clock: nat

    ghost predicate Valid()
      reads this
    {
      && |bufs| == NBUF && |view| == |disk|
      && Permutation(order) && Linked(next, prev, order)
      && Coherent(bufs, disk, view, order)
      && Recency(order, stamp, clock)
    }

    ghost function Held(): set<nat>
      reads this
    {
      set b | 0 <= b < |bufs| && bufs[b].locked
    }

    /** bcache_init over the boot image. */
    constructor (image: seq<Block>)
      requires |image| > 0
      ensures Valid() && Held() == {} && view == image && disk == image
    {
      disk := image;
      view := image;
      bufs := seq(NBUF, i => Buf(0, 0, false, false, false, 0, seq(BSIZE, j => 0)));
      next := seq(NBUF + 1, i => HEAD);
      prev := seq(NBUF + 1, i => HEAD);
      order := [];
      stamp := seq(NBUF, i requires 0 <= i => i);
      clock := NBUF;
      new;
      var i := 0;
      while i < NBUF
        invariant i <= NBUF == |bufs| && |order| == i
        invariant forall j :: 0 <= j < i ==> order[j] == i - 1 - j
        invariant Linked(next, prev, order)
        modifies this`next, this`prev, this`order
      {
        PushFrontLinked(next, prev, order, i);
        next := next[i := next[HEAD]];
        prev := prev[i := HEAD];
        prev := prev[next[HEAD] := i];
        next := next[HEAD := i];
        order := [i] + order;
        i := i + 1;
      }
      forall b | 0 <= b < NBUF ensures b in order { assert order[NBUF - 1 - b] == b; }
    }

    /** rd_rw: move a block between buffer and memory disk. */
    method RdRw(b: nat) returns (ok: bool)
      requires b < |bufs|
      modifies this`bufs, this`disk
      ensures ok <==> !(old(bufs)[b].valid && !old(bufs)[b].dirty)
                      && old(bufs)[b].dev == DEV_RAMDISK && old(bufs)[b].blockNo < |old(disk)|
      ensures !ok ==> bufs == old(bufs) && disk == old(disk)
      ensures ok && old(bufs)[b].dirty ==>
                disk == old(disk)[old(bufs)[b].blockNo := old(bufs)[b].data] &&
                bufs == old(bufs)[b := old(bufs)[b].(dirty := false, valid := true)]
      ensures ok && !old(bufs)[b].dirty ==>
                disk == old(disk) &&
                bufs == old(bufs)[b := old(bufs)[b].(data := disk[old(bufs)[b].blockNo], valid := true)]
    {
      if bufs[b].valid && !bufs[b].dirty { return false; }
      if bufs[b].dev != DEV_RAMDISK { return false; }
      if bufs[b].blockNo >= |disk| { return false; }
      var p := bufs[b].blockNo;
      if bufs[b].dirty {
        bufs := bufs[b := bufs[b].(dirty := false)];
        disk := disk[p := bufs[b].data];
      } else {
        bufs := bufs[b := bufs[b].(data := disk[p])];
      }
      bufs := bufs[b := bufs[b].(valid := true)];
      ok := true;
    }

    /** bget's first loop: the first buffer with the label, in list order. */
    method FindLabel(dev: nat, blk: nat) returns (b: nat, ghost k: nat)
      requires Valid()
      ensures b <= HEAD
      ensures b < HEAD ==> k < |order| && order[k] == b && Labelled(bufs[b], dev, blk)
      ensures b < HEAD ==> forall j :: 0 <= j < k ==> !Labelled(bufs[order[j]], dev, blk)
      ensures b == HEAD ==> forall c :: 0 <= c < NBUF ==> !Labelled(bufs[c], dev, blk)
    {
      assert LinkAt(next, prev, order, 0);
      b := next[HEAD];
      k := 0;
      while b != HEAD
        invariant k <= |order|
        invariant b == At(order, Succ(order, k))
        invariant b == HEAD <==> k == |order|
        invariant forall j :: 0 <= j < k ==> !Labelled(bufs[order[j]], dev, blk)
        decreases |order| - k
      {
        if !(bufs[b].dev != dev || bufs[b].blockNo != blk) { return; }
        assert LinkAt(next, prev, order, k + 1);
        b := next[b];
        k := k + 1;
      }
      forall c | 0 <= c < NBUF ensures !Labelled(bufs[c], dev, blk) { assert c in order; }
    }

    /** bget's second loop: the last buffer in list order that nobody holds. */
    method FindVictim() returns (b: nat)
      requires Valid()
      ensures b <= HEAD
      ensures b < HEAD ==> !bufs[b].locked
      ensures b < HEAD ==> forall c :: 0 <= c < NBUF && !bufs[c].locked ==> stamp[b] <= stamp[c]
      ensures b == HEAD ==> forall c :: 0 <= c < NBUF ==> bufs[c].locked
    {
      assert LinkAt(next, prev, order, |order|);
      b := prev[HEAD];
      ghost var k := |order|;
      while b != HEAD
        invariant 0 <= k <= |order|
        invariant b == At(order, k)
        invariant forall j :: k <= j < |order| ==> bufs[order[j]].locked
        decreases k
      {
        if !(bufs[b].refCount != 0) {
          forall c | 0 <= c < NBUF && !bufs[c].locked ensures stamp[b] <= stamp[c] {
            assert c in order;
          }
          return;
        }
        assert LinkAt(next, prev, order, k - 1);
        b := prev[b];
        k := k - 1;
      }
      forall c | 0 <= c < NBUF ensures bufs[c].locked { assert c in order; }
    }

    ghost predicate HasLabel(blk: nat)
      reads this
    {
      exists b :: 0 <= b < |bufs| && bufs[b].blockNo == blk
    }

    ghost predicate HoldsBlock(blk: nat)
      reads this
    {
      exists b :: 0 <= b < |bufs| && bufs[b].locked && bufs[b].blockNo == blk
    }

    ghost predicate SomeUnheld()
      reads this
    {
      exists b :: 0 <= b < |bufs| && !bufs[b].locked
    }

    /** The buffers that were held before are as they were; b is the only new one. */
    twostate predicate HeldPlus(b: nat)
      reads this
    {
      && b < NBUF == |bufs| == |old(bufs)| && !old(bufs)[b].locked && bufs[b].locked
      && forall h :: 0 <= h < NBUF && h != b ==>
           bufs[h].locked == old(bufs)[h].locked && (bufs[h].locked ==> bufs[h] == old(bufs)[h])
    }

    /** Only buffers in s are held. */
    ghost predicate OnlyHeld(s: set<nat>)
      reads this
    {
      |bufs| == NBUF && forall b :: 0 <= b < NBUF && bufs[b].locked ==> b in s
    }

    /** The same buffers are held, with the same contents, and none lost its settledness. */
    twostate predicate KeepsHeld()
      reads this
    {
      && |bufs| == |old(bufs)| == NBUF
      && forall h :: 0 <= h < NBUF ==>
           bufs[h].locked == old(bufs)[h].locked &&
           (bufs[h].locked ==> bufs[h] == old(bufs)[h]) &&
           (bufs[h].locked && Settled(old(bufs), old(disk), h) ==> Settled(bufs, disk, h))
    }

    /** bget: the buffer for the block, locked; its contents may not have been read yet. */
    method Bget(dev: nat, blk: nat) returns (r: Outcome<nat>)
      requires Valid()
      modifies this
      ensures order == old(order) && next == old(next) && prev == old(prev)
      ensures stamp == old(stamp) && clock == old(clock) && view == old(view) && |disk| == old(|disk|)
      ensures |bufs| == NBUF
      ensures r.Blocked? <==> dev == DEV_RAMDISK && old(HoldsBlock(blk))
      ensures r.Panic? <==> (dev != DEV_RAMDISK || !old(HasLabel(blk))) && !old(SomeUnheld())
      ensures r.Ok? ==> HeldPlus(r.value) && Labelled(bufs[r.value], dev, blk)
      ensures r.Ok? && dev == DEV_RAMDISK && blk < |disk| ==> Coherent(bufs, disk, view, order)
      ensures forall h ::
                0 <= h < NBUF && old(bufs)[h].locked ==> disk[old(bufs)[h].blockNo] == old(disk)[old(bufs)[h].blockNo]
      ensures r.Ok? && bufs[r.value].valid ==> Settled(bufs, disk, r.value)
      ensures r.Ok? && (dev != DEV_RAMDISK || !old(HasLabel(blk))) ==> !bufs[r.value].valid && !bufs[r.value].dirty
      ensures r.Ok? && (dev != DEV_RAMDISK || !old(HasLabel(blk))) ==>
                forall c :: 0 <= c < NBUF && !old(bufs)[c].locked ==> stamp[r.value] <= stamp[c]
    {
      hide FirstMatchLive, Represents, Linked, Recency;
      var b;
      ghost var k;
      b, k := FindLabel(dev, blk);
      if b != HEAD {
        assert BufOk(bufs[b], |disk|);
        FirstHeld(bufs, disk, view, order, k);
        if bufs[b].locked { return Blocked; }
        if bufs[b].valid { UnheldSettled(bufs, disk, view, order, b); }
        LockKeeps(bufs, disk, view, order, k);
        bufs := bufs[b := bufs[b].(refCount := bufs[b].refCount + 1)];
        bufs := bufs[b := bufs[b].(locked := true)];
        assert bufs == old(bufs)[b := old(bufs)[b].(locked := true, refCount := 1)];
        return Ok(b);
      }
      assert forall c :: 0 <= c < NBUF ==> BufOk(bufs[c], |disk|);
      b := FindVictim();
      if b == HEAD { return Panic; }
      forall h | 0 <= h < NBUF && bufs[h].locked && bufs[b].dirty ensures bufs[h].blockNo != bufs[b].blockNo {
        if bufs[h].blockNo == bufs[b].blockNo { HeldAlone(bufs, disk, view, order, h, b); }
      }
      if blk < |disk| && dev == DEV_RAMDISK { EvictKeeps(bufs, disk, view, order, b, blk); }
      bufs := bufs[b := bufs[b].(refCount := 1)];
      bufs := bufs[b := bufs[b].(locked := true)];
      if bufs[b].dirty {
        var ok := RdRw(b);
      }
      bufs := bufs[b := bufs[b].(dev := dev, blockNo := blk, valid := false, dirty := false)];
      assert bufs == old(bufs)[b := Buf(dev, blk, false, false, true, 1, old(bufs)[b].data)];
      r := Ok(b);
    }

    /** bread: the buffer for the block, locked, with the block's logical contents. */
    method Bread(dev: nat, blk: nat) returns (r: Outcome<nat>)
      requires Valid()
      modifies this
      ensures r.Blocked? <==> dev == DEV_RAMDISK && old(HoldsBlock(blk))
      ensures r.Ok? <==> dev == DEV_RAMDISK && blk < |old(disk)| && !old(HoldsBlock(blk))
                         && (old(HasLabel(blk)) || old(SomeUnheld()))
      ensures r.Ok? ==> Valid() && view == old(view) && |disk| == old(|disk|) && HeldPlus(r.value)
      ensures r.Ok? ==> var b := bufs[r.value]; b.valid && b.blockNo == blk && b.data == view[blk]
      ensures r.Ok? ==> Settled(bufs, disk, r.value)
      ensures r.Ok? ==>
                forall h ::
                  0 <= h < NBUF && old(bufs)[h].locked && Settled(old(bufs), old(disk), h) ==> Settled(bufs, disk, h)
      ensures r.Ok? && !old(HasLabel(blk)) ==>
                forall c :: 0 <= c < NBUF && !old(bufs)[c].locked ==> old(stamp)[r.value] <= old(stamp)[c]
    {
      assert HasLabel(blk) ==> blk < |disk|;
      r := Bget(dev, blk);
      if !r.Ok? { return; }
      var b := r.value;
      if !bufs[b].valid {
        if dev == DEV_RAMDISK && blk < |disk| { FillKeeps(bufs, disk, view, order, b); }
        var ok := RdRw(b);
        if !ok { return Panic; }
      }
    }

    /** The caller's own stores into the data of a buffer that it holds. */
    method Store(b: nat, data: Block)
      requires Valid() && b < NBUF && bufs[b].locked && bufs[b].valid
      modifies this
      ensures Valid() && old(bufs[b].blockNo) < |old(view)| && view == old(view)[old(bufs[b].blockNo) := data]
      ensures bufs == old(bufs)[b := old(bufs)[b].(data := data)] && disk == old(disk)
      ensures order == old(order) && stamp == old(stamp)
    {
      StoreKeeps(bufs, disk, view, order, b, data);
      view := view[bufs[b].blockNo := data];
      bufs := bufs[b := bufs[b].(data := data)];
    }

    /** bwrite: only marks the buffer; the block reaches the memory disk when the buffer is evicted. */
    method Bwrite(b: nat) returns (ok: bool)
      requires Valid() && b < NBUF && bufs[b].valid
      modifies this
      ensures ok <==> old(bufs)[b].locked
      ensures Valid() && view == old(view) && disk == old(disk) && order == old(order) && stamp == old(stamp)
      ensures bufs == if ok then old(bufs)[b := old(bufs)[b].(dirty := true)] else old(bufs)
    {
      if !bufs[b].locked { return false; }
      AheadMonotone(bufs, bufs[b := bufs[b].(dirty := true)]);
      bufs := bufs[b := bufs[b].(dirty := true)];
      ok := true;
    }

    /** The pointer updates of brelse. */
    method ToFront(b: nat, ghost k: nat)
      requires Permutation(order) && Linked(next, prev, order) && Recency(order, stamp, clock)
      requires k < |order| && b == order[k]
      modifies this`next, this`prev, this`order, this`stamp, this`clock
      ensures order == [b] + Without(old(order), k)
      ensures Permutation(order) && Linked(next, prev, order) && Recency(order, stamp, clock)
    {
      MoveToFront(order, k);
      UnlinkLinked(next, prev, order, k);
      ghost var w := Without(order, k);
      assert LinkAt(next, prev, order, k) && LinkAt(next, prev, order, k + 1);
      prev := prev[next[b] := prev[b]];
      next := next[prev[b] := next[b]];
      PushFrontLinked(next, prev, w, b);
      next := next[b := next[HEAD]];
      prev := prev[b := HEAD];
      prev := prev[next[HEAD] := b];
      next := next[HEAD := b];
      order := [b] + w;
      stamp := stamp[b := clock];
      clock := clock + 1;
    }

    /** brelse. A caller that changed the data must have called bwrite. */
    method Brelse(b: nat) returns (ok: bool)
      requires Valid() && b < NBUF && bufs[b].valid
      requires bufs[b].dirty || bufs[b].data == disk[bufs[b].blockNo]
      modifies this
      ensures ok <==> old(bufs)[b].locked
      ensures Valid() && view == old(view) && disk == old(disk)
      ensures bufs == if ok then old(bufs)[b := old(bufs)[b].(locked := false, refCount := 0)] else old(bufs)
      ensures ok ==> order == [b] + Without(old(order), Position(old(order), b))
    {
      if !bufs[b].locked { return false; }
      hide FirstMatchLive, Represents, Linked, Recency;
      ghost var k := Position(order, b);
      assert BufOk(bufs[b], |disk|);
      ReleaseKeeps(bufs, disk, view, order, k);
      bufs := bufs[b := bufs[b].(locked := false)];
      bufs := bufs[b := bufs[b].(refCount := bufs[b].refCount - 1)];
      assert bufs == old(bufs)[b := old(bufs)[b].(locked := false, refCount := 0)];
      if bufs[b].refCount == 0 {
        ToFront(b, k);
      }
      ok := true;
    }
  }
}
