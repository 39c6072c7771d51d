/** Directories as byte sequences: entries of 32 bytes, names compared by their first 24
  * bytes up to a NUL, and the finite map that a directory stands for.
  */
module DirEntries {
  import opened Common
  import opened Bytes
  import opened FileData

  const DIRSIZ := 24
  const ENTRY := 32                    // sizeof(struct dir_ent)

  // ---- names ---------------------------------------------------------------------------

  /** A C string or a fixed field, read as strncmp does; past its end it reads as NUL. */
  function CharAt(s: seq<Byte>, i: nat): Byte { if i < |s| then s[i] else 0 }

  /** The first n bytes up to a NUL. */
  function KeyN(s: seq<Byte>, n: nat): (k: seq<Byte>)
    ensures |k| <= n
  {
    if n == 0 || CharAt(s, 0) == 0 then [] else [s[0]] + KeyN(s[1..], n - 1)
  }

  function Key(s: seq<Byte>): seq<Byte> { KeyN(s, DIRSIZ) }

  lemma {:induction false} KeyChars(s: seq<Byte>, n: nat)
    ensures |KeyN(s, n)| <= |s| && KeyN(s, n) == s[..|KeyN(s, n)|]
    ensures forall i :: 0 <= i < |KeyN(s, n)| ==> s[i] != 0
    ensures |KeyN(s, n)| < n ==> CharAt(s, |KeyN(s, n)|) == 0
  {
    if n > 0 && CharAt(s, 0) != 0 {
      KeyChars(s[1..], n - 1);
      var k := KeyN(s[1..], n - 1);
      assert s[..1 + |k|] == [s[0]] + s[1..][..|k|];
      forall i | 0 < i < 1 + |k| ensures s[i] != 0 { assert s[i] == s[1..][i - 1]; }
      assert |k| < n - 1 ==> CharAt(s, 1 + |k|) == CharAt(s[1..], |k|);
    }
  }

  lemma {:induction false} KeyReaches(s: seq<Byte>, n: nat, i: nat)
    requires i < n && forall j :: 0 <= j < i ==> CharAt(s, j) != 0
    ensures if CharAt(s, i) == 0 then |KeyN(s, n)| == i else |KeyN(s, n)| > i && KeyN(s, n)[i] == CharAt(s, i)
    ensures forall j :: 0 <= j < i ==> |KeyN(s, n)| > j && KeyN(s, n)[j] == CharAt(s, j)
  {
    if i > 0 {
      assert CharAt(s, 0) != 0;
      forall j | 0 <= j < i ensures CharAt(s[1..], j) == CharAt(s, j + 1) {}
      KeyReaches(s[1..], n - 1, i - 1);
      forall j | 0 <= j < i ensures |KeyN(s, n)| > j && KeyN(s, n)[j] == CharAt(s, j) {
        if j > 0 { assert KeyN(s[1..], n - 1)[j - 1] == CharAt(s[1..], j - 1); }
      }
    }
  }

  /** Keys differ exactly when strncmp finds a difference. */
  lemma KeysDiffer(s: seq<Byte>, t: seq<Byte>, n: nat, i: nat)
    requires i < n && forall j :: 0 <= j < i ==> CharAt(s, j) == CharAt(t, j) != 0
    requires CharAt(s, i) != CharAt(t, i) || CharAt(s, i) == 0
    ensures KeyN(s, n) == KeyN(t, n) <==> CharAt(s, i) == CharAt(t, i)
  {
    hide KeyN;
    KeyReaches(s, n, i);
    KeyReaches(t, n, i);
    if CharAt(s, i) == CharAt(t, i) { assert KeyN(s, n) == KeyN(t, n); }
  }

  lemma KeysAgree(s: seq<Byte>, t: seq<Byte>, n: nat)
    requires forall j :: 0 <= j < n ==> CharAt(s, j) == CharAt(t, j) != 0
    ensures KeyN(s, n) == KeyN(t, n)
  {
    hide KeyN;
    if n > 0 {
      KeyReaches(s, n, n - 1);
      KeyReaches(t, n, n - 1);
      assert KeyN(s, n) == KeyN(t, n);
    }
  }

  /** Lexicographic order. */
  predicate Below(a: seq<Byte>, b: seq<Byte>) {
    b != [] && (a == [] || a[0] < b[0] || (a[0] == b[0] && Below(a[1..], b[1..])))
  }

  lemma {:induction false} BelowAfter(a: seq<Byte>, b: seq<Byte>, i: nat)
    requires i <= |a| && i <= |b| && a[..i] == b[..i]
    ensures Below(a, b) <==> Below(a[i..], b[i..])
    decreases |a|
  {
    if i > 0 {
      assert a[0] == a[..i][0] == b[..i][0] == b[0];
      assert a[1..][..i - 1] == a[..i][1..] && b[1..][..i - 1] == b[..i][1..];
      BelowAfter(a[1..], b[1..], i - 1);
      assert a[1..][i - 1..] == a[i..] && b[1..][i - 1..] == b[i..];
    } else {
      assert a[0..] == a && b[0..] == b;
    }
  }

  /** The first difference decides the order. */
  lemma KeysOrder(s: seq<Byte>, t: seq<Byte>, n: nat, i: nat)
    requires i < n && forall j :: 0 <= j < i ==> CharAt(s, j) == CharAt(t, j) != 0
    requires CharAt(s, i) != CharAt(t, i) || CharAt(s, i) == 0
    ensures Below(KeyN(s, n), KeyN(t, n)) <==> CharAt(s, i) < CharAt(t, i)
  {
    hide KeyN;
    KeyReaches(s, n, i);
    KeyReaches(t, n, i);
    BelowAfter(KeyN(s, n), KeyN(t, n), i);
  }

  lemma {:induction false} NotBelow(a: seq<Byte>)
    ensures !Below(a, a)
  {
    if a != [] { NotBelow(a[1..]); }
  }

  /** strncmp compares keys: 0 exactly on equal ones, otherwise by lexicographic order. */
  method StrNCmp(s: seq<Byte>, t: seq<Byte>, n: nat) returns (r: int)
    ensures r == 0 <==> KeyN(s, n) == KeyN(t, n)
    ensures r < 0 <==> Below(KeyN(s, n), KeyN(t, n))
    ensures r > 0 <==> Below(KeyN(t, n), KeyN(s, n))
  {
    hide KeyN, Below;
    var i := 0;
    while i < n && CharAt(s, i) != 0 && CharAt(s, i) == CharAt(t, i)
      invariant i <= n && forall j :: 0 <= j < i ==> CharAt(s, j) == CharAt(t, j) != 0
    {
      i := i + 1;
    }
    if i == n {
      KeysAgree(s, t, n);
      NotBelow(KeyN(s, n));
      return 0;
    }
    KeysDiffer(s, t, n, i);
    KeysOrder(s, t, n, i);
    KeysOrder(t, s, n, i);
    r := CharAt(s, i) - CharAt(t, i);
  }

  /** strncpy fills a field of n bytes with the key, padded with NULs. */
  method StrNCpy(t: seq<Byte>, n: nat) returns (d: seq<Byte>)
    ensures |d| == n && d == KeyN(t, n) + Zeros(n - |KeyN(t, n)|) && KeyN(d, n) == KeyN(t, n)
  {
    d := [];
    KeyChars(t, n);
    ghost var k := KeyN(t, n);
    while |d| < n && CharAt(t, |d|) != 0
      invariant |d| <= |k| && d == t[..|d|]
      decreases n - |d|
    {
      assert CharAt(t, |k|) == 0 || |k| == n;
      d := d + [t[|d|]];
    }
    while |d| < n
      invariant |k| <= |d| <= n && d == k + Zeros(|d| - |k|)
    {
      assert Zeros(|d| - |k|) + [0] == Zeros(|d| + 1 - |k|);
      d := d + [0];
    }
    PaddedKey(t, d, n);
  }

  lemma PaddedKey(t: seq<Byte>, d: seq<Byte>, n: nat)
    requires d == KeyN(t, n) + Zeros(n - |KeyN(t, n)|)
    ensures KeyN(d, n) == KeyN(t, n)
  {
    var k := KeyN(t, n);
    KeyChars(t, n);
    forall j | 0 <= j < |k| ensures CharAt(d, j) == CharAt(t, j) != 0 { assert d[j] == k[j] == t[j]; }
    if |k| < n {
      assert d[|k|] == 0;
      KeysDiffer(d, t, n, |k|);
    } else {
      KeysAgree(d, t, n);
    }
  }

  // ---- entries ---------------------------------------------------------------------------

  function Slots(c: seq<Byte>): nat { |c| / ENTRY }

  function InumAt(c: seq<Byte>, k: nat): nat
    requires k < Slots(c)
  {
    FromLE(c[ENTRY * k..ENTRY * k + 8])
  }

  function KeyAt(c: seq<Byte>, k: nat): seq<Byte>
    requires k < Slots(c)
  {
    Key(c[ENTRY * k + 8..ENTRY * k + ENTRY])
  }

  predicate Matches(c: seq<Byte>, key: seq<Byte>, k: nat)
    requires k < Slots(c)
  {
    InumAt(c, k) != 0 && KeyAt(c, k) == key
  }

  /** The first matching entry from k on; the number of entries if there is none. */
  function Find(c: seq<Byte>, key: seq<Byte>, k: nat): (f: nat)
    requires k <= Slots(c)
    ensures k <= f <= Slots(c) && (f < Slots(c) ==> Matches(c, key, f))
    ensures forall j :: k <= j < f ==> !Matches(c, key, j)
    decreases Slots(c) - k
  {
    if k == Slots(c) || Matches(c, key, k) then k else Find(c, key, k + 1)
  }

  /** The directory as a map from keys to inode numbers, 0 for no entry. */
  function DirGet(c: seq<Byte>, key: seq<Byte>): nat {
    var k := Find(c, key, 0);
    if k < Slots(c) then InumAt(c, k) else 0
  }

  lemma FindIs(c: seq<Byte>, key: seq<Byte>, k: nat)
    requires k <= Slots(c) && (k < Slots(c) ==> Matches(c, key, k)) && forall j :: 0 <= j < k ==> !Matches(c, key, j)
    ensures Find(c, key, 0) == k
  {
    var f := Find(c, key, 0);
    assert f < k ==> f < Slots(c);
    assert k < f ==> k < Slots(c);
  }

  function EntryBytes(inum: nat, name: seq<Byte>): (e: seq<Byte>)
    requires |name| == DIRSIZ
    ensures |e| == ENTRY
  {
    ToLE(inum, 8) + name
  }

  /** An entry written over slot k, or after the last one. */
  lemma EntryWritten(c: seq<Byte>, k: nat, inum: nat, name: seq<Byte>, j: nat)
    requires k <= Slots(c) && |c| % ENTRY == 0 && |name| == DIRSIZ && inum < U64
    requires var c' := Overwrite(c, ENTRY * k, EntryBytes(inum, name)); j < Slots(c')
    ensures var c' := Overwrite(c, ENTRY * k, EntryBytes(inum, name));
            && Slots(c') == (if k == Slots(c) then k + 1 else Slots(c)) && |c'| % ENTRY == 0
            && (j == k ==> InumAt(c', j) == inum && KeyAt(c', j) == Key(name))
            && (j != k ==> j < Slots(c) && InumAt(c', j) == InumAt(c, j) && KeyAt(c', j) == KeyAt(c, j))
  {
    hide KeyN, FromLE, ToLE;
    var e := EntryBytes(inum, name);
    var c' := Overwrite(c, ENTRY * k, e);
    assert |c| == ENTRY * Slots(c);
    assert |c'| == if k == Slots(c) then |c| + ENTRY else |c|;
    if j == k {
      assert c'[ENTRY * k..ENTRY * k + 8] == ToLE(inum, 8);
      assert c'[ENTRY * k + 8..ENTRY * k + ENTRY] == name;
      Limits();
      LERoundTrip(inum, 8);
    } else {
      assert c'[ENTRY * j..ENTRY * j + 8] == c[ENTRY * j..ENTRY * j + 8];
      assert c'[ENTRY * j + 8..ENTRY * j + ENTRY] == c[ENTRY * j + 8..ENTRY * j + ENTRY];
    }
  }

  /** dir_link: writing an entry with a new key into a free slot, or at the end, binds that
    * key and leaves every other one alone. */
  lemma LinkGet(c: seq<Byte>, k: nat, inum: nat, name: seq<Byte>, key': seq<Byte>)
    requires k <= Slots(c) && |c| % ENTRY == 0 && |name| == DIRSIZ && 0 < inum < U64
    requires (k < Slots(c) ==> InumAt(c, k) == 0) && DirGet(c, Key(name)) == 0
    ensures DirGet(Overwrite(c, ENTRY * k, EntryBytes(inum, name)), key') ==
              if key' == Key(name) then inum else DirGet(c, key')
  {
    hide KeyN, FromLE, ToLE, Overwrite, InumAt, KeyAt, EntryBytes;
    var c' := Overwrite(c, ENTRY * k, EntryBytes(inum, name));
    var n := Find(c, key', 0);
    LinkSlots(c, k, inum, name);
    forall j | 0 <= j < Slots(c')
      ensures Matches(c', key', j) == if j == k then key' == Key(name) else j < Slots(c) && Matches(c, key', j)
      ensures (j == k ==> InumAt(c', j) == inum) && (j != k ==> j < Slots(c) && InumAt(c', j) == InumAt(c, j))
    {
      EntryWritten(c, k, inum, name, j);
    }
    if key' == Key(name) {
      FindIs(c', key', k);
    } else {
      FindIs(c', key', if n < Slots(c) then n else Slots(c'));
    }
  }

  lemma LinkSlots(c: seq<Byte>, k: nat, inum: nat, name: seq<Byte>)
    requires k <= Slots(c) && |c| % ENTRY == 0 && |name| == DIRSIZ && inum < U64
    ensures var c' := Overwrite(c, ENTRY * k, EntryBytes(inum, name));
            Slots(c') == (if k == Slots(c) then k + 1 else Slots(c)) && |c'| % ENTRY == 0
  {
    assert |c| == ENTRY * Slots(c);
  }

  /** sys_unlink's cleared entry: the key is gone, the others stay. */
  lemma UnlinkGet(c: seq<Byte>, k: nat, key: seq<Byte>, key': seq<Byte>)
    requires k < Slots(c) && |c| % ENTRY == 0 && Find(c, key, 0) == k
    requires forall j :: k < j < Slots(c) ==> !Matches(c, key, j)
    ensures DirGet(Overwrite(c, ENTRY * k, EntryBytes(0, Zeros(DIRSIZ))), key') ==
              if key' == key then 0 else DirGet(c, key')
  {
    hide KeyN, FromLE, ToLE, Overwrite, InumAt, KeyAt, EntryBytes;
    var c' := Overwrite(c, ENTRY * k, EntryBytes(0, Zeros(DIRSIZ)));
    var n := Find(c, key', 0);
    LinkSlots(c, k, 0, Zeros(DIRSIZ));
    forall j | 0 <= j < Slots(c')
      ensures Matches(c', key', j) == (j != k && j < Slots(c) && Matches(c, key', j))
      ensures j != k ==> j < Slots(c) && InumAt(c', j) == InumAt(c, j)
    {
      EntryWritten(c, k, 0, Zeros(DIRSIZ), j);
    }
    if key' == key {
      forall j | 0 <= j < Slots(c')
        ensures !Matches(c', key', j)
      {
        assert j < Slots(c) && (j < k ==> !Matches(c, key, j));
      }
      FindIs(c', key', Slots(c'));
    } else {
      FindIs(c', key', if n < Slots(c) then n else Slots(c'));
    }
  }
}
