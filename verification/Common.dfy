/** What the other modules share: results, the types of inodes, and counting. */
module Common {

  const U64 := 0x1_0000_0000_0000_0000

  datatype Option<T> = None | Some(value: T)

  /** How a kernel call ends: with a value, in panic, or waiting for a lock its own caller holds. */
  datatype Outcome<T> = Ok(value: T) | Panic | Blocked

  /** A call that takes no sleeping lock. */
  type Prompt<T> = o: Outcome<T> | !o.Blocked? witness Panic

  const T_DIR := 1
  const T_FILE := 2
  const T_DEV := 3

  function One(b: bool): nat { if b then 1 else 0 }

  /** How many elements satisfy p. */
  function CountIf<T>(s: seq<T>, p: T -> bool): nat {
    if s == [] then 0 else CountIf(s[..|s| - 1], p) + One(p(s[|s| - 1]))
  }

  lemma {:induction false} CountUpdate<T>(s: seq<T>, k: nat, x: T, p: T -> bool)
    requires k < |s|
    ensures CountIf(s[k := x], p) == CountIf(s, p) - One(p(s[k])) + One(p(x))
    decreases |s|
  {
    var n := |s| - 1;
    if k == n {
      assert s[k := x][..n] == s[..n];
    } else {
      CountUpdate(s[..n], k, x, p);
      assert s[k := x][..n] == s[..n][k := x];
    }
  }

  lemma {:induction false} CountZero<T>(s: seq<T>, p: T -> bool)
    requires forall k :: 0 <= k < |s| ==> !p(s[k])
    ensures CountIf(s, p) == 0
  {
    if s != [] { CountZero(s[..|s| - 1], p); }
  }

  lemma {:induction false} CountSome<T>(s: seq<T>, k: nat, p: T -> bool)
    requires k < |s| && p(s[k])
    ensures CountIf(s, p) > 0
    decreases |s|
  {
    if k < |s| - 1 { CountSome(s[..|s| - 1], k, p); }
  }
}
