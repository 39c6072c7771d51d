/** Which bytes go through a pipe: over every run of kernel/pipe.c, told from the calls that the
  * threads make.
  */
module PipeBytes {
  import opened Common
  import opened Bytes
  import opened Pipe

  /** The bytes that a thread has moved in its present call, or in its last one. */
  function InCall(s: State, t: nat): seq<Byte> {
    if t < |s.threads| && s.threads[t].i <= |s.threads[t].data| then s.threads[t].data[..s.threads[t].i] else []
  }

  /** The bytes that thread t moved in the calls before its present one: each new call closes the
    * account of the one before. */
  ghost function Before(states: seq<State>, moves: seq<Move>, t: nat, k: nat): seq<Byte>
    requires k <= |moves| < |states|
  {
    if k == 0 then []
    else
      var b := Before(states, moves, t, k - 1);
      if moves[k - 1].t == t && Begins(moves[k - 1].step) then b + InCall(states[k - 1], t) else b
  }

  predicate Begins(step: Step) { step.BeginWrite? || step.BeginRead? }

  /** All the bytes that thread t has moved after k moves. */
  ghost function Moved(states: seq<State>, moves: seq<Move>, t: nat, k: nat): seq<Byte>
    requires k <= |moves| < |states|
  {
    Before(states, moves, t, k) + InCall(states[k], t)
  }

  /** Who put in each byte, or took it out, in order. */
  ghost function Who(states: seq<State>, moves: seq<Move>, put: bool, k: nat): seq<nat>
    requires k <= |moves| < |states|
  {
    if k == 0 then []
    else
      var s, s', w := states[k - 1], states[k], Who(states, moves, put, k - 1);
      if (if put then s'.nwrite > s.nwrite else s'.nread > s.nread) then w + [moves[k - 1].t] else w
  }

  /** The part of s that is t's. */
  function Part(s: seq<Byte>, who: seq<nat>, t: nat): seq<Byte>
    requires |s| == |who|
  {
    if s == [] then []
    else
      var n := |s| - 1;
      Part(s[..n], who[..n], t) + if who[n] == t then [s[n]] else []
  }

  lemma PartMore(s: seq<Byte>, who: seq<nat>, b: Byte, u: nat, t: nat)
    requires |s| == |who|
    ensures Part(s + [b], who + [u], t) == Part(s, who, t) + if u == t then [b] else []
  {
    assert (s + [b])[..|s|] == s && (who + [u])[..|s|] == who;
  }

  // ---- one move --------------------------------------------------------------------------------

  /** Thread u stands with its bytes where it stood. */
  predicate SameBytes(s: State, s': State, u: nat) {
    |s'.threads| == |s.threads| && (u < |s.threads| ==>
      s'.threads[u].writer == s.threads[u].writer && s'.threads[u].data == s.threads[u].data &&
      s'.threads[u].i == s.threads[u].i)
  }

  predicate SameCounts(s: State, s': State) {
    s'.sent == s.sent && s'.got == s.got && s'.nwrite == s.nwrite && s'.nread == s.nread
  }

  /** Is the move one of pipe_write's stores, or of pipe_read's loads? */
  predicate Puts(s: State, m: Move) {
    m.t < |s.threads| && m.step == Advance && s.threads[m.t].writer && s.threads[m.t].pc == Loop &&
    s.threads[m.t].i < |s.threads[m.t].data| && !s.Full()
  }

  predicate Takes(s: State, m: Move) {
    m.t < |s.threads| && m.step == Advance && !s.threads[m.t].writer && s.threads[m.t].pc == Copy &&
    s.threads[m.t].i < s.threads[m.t].n && !s.Empty()
  }

  /** The threads after a move: the one that moved is x, and one side may have been woken. */
  function Stepped(s: State, t: nat, x: Thread, woken: Option<bool>): seq<Thread>
    requires t < |s.threads|
  {
    var ths := s.threads[t := x];
    if woken.Some? then WakeAll(ths, woken.value) else ths
  }

  lemma InLoop(s: State, m: Move) returns (x: Thread)
    requires CanMove(s, m) && m.step == Advance && (s.threads[m.t].pc == Loop || s.threads[m.t].pc == Copy)
    requires s.threads[m.t].writer ==> s.threads[m.t].pc == Loop
    ensures After(s, m.t, m.step).threads == s.threads[m.t := x] && x.writer == s.threads[m.t].writer
    ensures !(Puts(s, m) || Takes(s, m)) ==> x.data == s.threads[m.t].data && x.i == s.threads[m.t].i
  {
    hide DozingReaders;
    x := After(s, m.t, m.step).threads[m.t];
  }

  lemma Threads(s: State, m: Move) returns (x: Thread, woken: Option<bool>)
    requires CanMove(s, m) && (s.threads[m.t].writer ==> s.threads[m.t].pc != Copy)
    ensures After(s, m.t, m.step).threads == Stepped(s, m.t, x, woken) && x.writer == s.threads[m.t].writer
    ensures !(Puts(s, m) || Takes(s, m) || Begins(m.step)) ==> x.data == s.threads[m.t].data && x.i == s.threads[m.t].i
  {
    hide DozingReaders, WriterLoop, ReaderLoop, ReaderCopy, WakeAll, AllOut;
    var th := s.threads[m.t];
    assert s.threads[m.t := th] == s.threads;
    match m.step
    case BeginWrite(src) => x, woken := th.(pc := Want, data := src, n := |src|, i := 0), None;
    case BeginRead(count) => x, woken := th.(pc := Want, data := [], n := count, i := 0), None;
    case Kill => x, woken := th.(killed := true, pc := if th.pc == Asleep then Want else th.pc), None;
    case CloseWrite => x, woken := th, Some(false);
    case CloseRead => x, woken := th, Some(true);
    case Advance =>
      match th.pc
      case Loop =>
        x := InLoop(s, m);
        woken := None;
      case Copy =>
        x := InLoop(s, m);
        woken := None;
      case Wake => x, woken := th.(pc := Fall0), Some(false);
      case Finish => x, woken := th.(pc := Leave), Some(!th.writer);
      case Want => x, woken := th.(pc := Loop), None;
      case Fall0 => x, woken := th.(pc := Fall1), None;
      case Fall1 => x, woken := th.(pc := Fall2), None;
      case Fall2 => x, woken := th.(pc := Asleep), None;
      case Leave => x, woken := th.(pc := Out), None;
  }

  lemma Others(s: State, m: Move, u: nat)
    requires Inv(s) && CanMove(s, m)
    ensures var s' := After(s, m.t, m.step);
            && |s'.threads| == |s.threads|
            && (u < |s.threads| ==> s'.threads[u].writer == s.threads[u].writer)
            && (u != m.t || !(Puts(s, m) || Takes(s, m) || Begins(m.step)) ==> SameBytes(s, s', u))
  {
    assert ThreadOk(s, m.t);
    hide Inv, After;
    var x, woken := Threads(s, m);
  }

  lemma Counts(s: State, m: Move)
    requires Inv(s) && CanMove(s, m)
    ensures !Puts(s, m) && !Takes(s, m) ==> SameCounts(s, After(s, m.t, m.step))
  {
    hide Transfer;
    assert ThreadOk(s, m.t);
  }

  /** A store puts in the byte of the caller's buffer at its index. */
  lemma PutOne(s: State, m: Move)
    requires Inv(s) && CanMove(s, m) && Puts(s, m)
    ensures var s', th := After(s, m.t, m.step), s.threads[m.t];
            && s'.sent == s.sent + [th.data[th.i]] && s'.nwrite == s.nwrite + 1
            && s'.got == s.got && s'.nread == s.nread && |s'.threads| == |s.threads|
            && s'.threads[m.t].data == th.data && s'.threads[m.t].i == th.i + 1 && s'.threads[m.t].writer
  {
    hide Transfer;
  }

  lemma TakeOne(s: State, m: Move)
    requires Inv(s) && CanMove(s, m) && Takes(s, m)
    ensures s.nread < |s.sent| && s.threads[m.t].i == |s.threads[m.t].data|
    ensures var s', th := After(s, m.t, m.step), s.threads[m.t];
            && s'.got == s.got + [s.sent[s.nread]] && s'.nread == s.nread + 1
            && s'.sent == s.sent && s'.nwrite == s.nwrite && |s'.threads| == |s.threads|
            && s'.threads[m.t].data == th.data + [s.sent[s.nread]] && s'.threads[m.t].i == th.i + 1
            && !s'.threads[m.t].writer
  {
    assert ThreadOk(s, m.t);
  }

  lemma BeginOne(s: State, m: Move)
    requires Inv(s) && CanMove(s, m) && Begins(m.step)
    ensures var s' := After(s, m.t, m.step);
            && |s'.threads| == |s.threads| && s'.threads[m.t].i == 0 && s'.threads[m.t].writer == s.threads[m.t].writer
            && (m.step.BeginWrite? ==> s'.threads[m.t].data == m.step.src && s.threads[m.t].writer)
            && (m.step.BeginRead? ==> s'.threads[m.t].data == [] && !s.threads[m.t].writer)
            && s.threads[m.t].pc == Out
  {
    hide Transfer;
  }

  // ---- whole runs --------------------------------------------------------------------------------

  /** The bytes put in are an interleaving of what the writers moved, those taken out of what the
    * readers moved. */
  ghost predicate Told(states: seq<State>, moves: seq<Move>, k: nat)
    requires k <= |moves| < |states|
  {
    var s, put, taken := states[k], Who(states, moves, true, k), Who(states, moves, false, k);
    && |put| == |s.sent| && |taken| == |s.got| && |s.threads| == |states[0].threads|
    && (forall n :: 0 <= n < |put| ==> put[n] < |s.threads| && s.threads[put[n]].writer)
    && (forall n :: 0 <= n < |taken| ==> taken[n] < |s.threads| && !s.threads[taken[n]].writer)
    && (forall t: nat :: t < |s.threads| ==> ToldOf(states, moves, t, k))
  }

  ghost predicate ToldOf(states: seq<State>, moves: seq<Move>, t: nat, k: nat)
    requires k <= |moves| < |states| && t < |states[k].threads|
    requires |Who(states, moves, true, k)| == |states[k].sent| && |Who(states, moves, false, k)| == |states[k].got|
  {
    var s := states[k];
    && t < |states[0].threads| && s.threads[t].writer == states[0].threads[t].writer
    && Moved(states, moves, t, k) ==
         if s.threads[t].writer then Part(s.sent, Who(states, moves, true, k), t)
         else Part(s.got, Who(states, moves, false, k), t)
  }

  lemma ToldSame(states: seq<State>, moves: seq<Move>, t: nat, k: nat)
    requires k < |moves| < |states| && Told(states, moves, k) && t < |states[k].threads|
    requires SameBytes(states[k], states[k + 1], t) && (moves[k].t != t || !Begins(moves[k].step))
    requires SameCounts(states[k], states[k + 1])
    ensures |Who(states, moves, true, k + 1)| == |states[k + 1].sent|
    ensures |Who(states, moves, false, k + 1)| == |states[k + 1].got| && ToldOf(states, moves, t, k + 1)
  {
    assert ToldOf(states, moves, t, k);
  }

  lemma ToldPut(states: seq<State>, moves: seq<Move>, t: nat, k: nat)
    requires |states| == |moves| + 1 && k < |moves| && Inv(states[k]) && Told(states, moves, k)
    requires t < |states[k].threads|
    requires MoveAt(states, moves, k) && Puts(states[k], moves[k])
    ensures |Who(states, moves, true, k + 1)| == |states[k + 1].sent| && t < |states[k + 1].threads|
    ensures |Who(states, moves, false, k + 1)| == |states[k + 1].got| && ToldOf(states, moves, t, k + 1)
  {
    hide Inv, After, CanMove;
    var s, m, s' := states[k], moves[k], states[k + 1];
    assert ToldOf(states, moves, t, k);
    PutOne(s, m);
    Others(s, m, t);
    var th := s.threads[m.t];
    PartMore(s.sent, Who(states, moves, true, k), th.data[th.i], m.t, t);
    if t == m.t { assert th.data[..th.i + 1] == th.data[..th.i] + [th.data[th.i]]; }
  }

  lemma ToldTake(states: seq<State>, moves: seq<Move>, t: nat, k: nat)
    requires |states| == |moves| + 1 && k < |moves| && Inv(states[k]) && Told(states, moves, k)
    requires t < |states[k].threads|
    requires MoveAt(states, moves, k) && Takes(states[k], moves[k])
    ensures |Who(states, moves, true, k + 1)| == |states[k + 1].sent| && t < |states[k + 1].threads|
    ensures |Who(states, moves, false, k + 1)| == |states[k + 1].got| && ToldOf(states, moves, t, k + 1)
  {
    hide Inv, After, CanMove;
    var s, m, s' := states[k], moves[k], states[k + 1];
    assert ToldOf(states, moves, t, k);
    TakeOne(s, m);
    Others(s, m, t);
    var th, b := s.threads[m.t], s.sent[s.nread];
    PartMore(s.got, Who(states, moves, false, k), b, m.t, t);
    if t == m.t { assert (th.data + [b])[..th.i + 1] == th.data[..th.i] + [b]; }
  }

  lemma ToldBegin(states: seq<State>, moves: seq<Move>, t: nat, k: nat)
    requires |states| == |moves| + 1 && k < |moves| && Inv(states[k]) && Told(states, moves, k)
    requires t < |states[k].threads|
    requires MoveAt(states, moves, k) && Begins(moves[k].step)
    ensures |Who(states, moves, true, k + 1)| == |states[k + 1].sent| && t < |states[k + 1].threads|
    ensures |Who(states, moves, false, k + 1)| == |states[k + 1].got| && ToldOf(states, moves, t, k + 1)
  {
    hide Inv, After, CanMove;
    var s, m := states[k], moves[k];
    assert ToldOf(states, moves, t, k);
    BeginOne(s, m);
    Counts(s, m);
    Others(s, m, t);
  }

  lemma ToldStart(states: seq<State>, moves: seq<Move>, t: nat)
    requires |states| == |moves| + 1 && Init(states[0]) && t < |states[0].threads|
    ensures ToldOf(states, moves, t, 0)
  {
  }

  lemma {:induction false} RunTold(states: seq<State>, moves: seq<Move>, k: nat)
    requires Run(states, moves) && k <= |moves|
    ensures Told(states, moves, k)
  {
    hide Inv, After, CanMove, ToldOf;
    if k > 0 {
      RunTold(states, moves, k - 1);
      RunKeepsInv(states, moves, k - 1);
      assert MoveAt(states, moves, k - 1);
      StepTold(states, moves, k - 1);
    } else {
      forall t: nat | t < |states[0].threads| ensures ToldOf(states, moves, t, 0) { ToldStart(states, moves, t); }
    }
  }

  lemma WhoGrows(states: seq<State>, moves: seq<Move>, k: nat)
    requires |states| == |moves| + 1 && k < |moves| && Told(states, moves, k) && MoveAt(states, moves, k)
    requires var s, m, s' := states[k], moves[k], states[k + 1];
             && |s'.threads| == |s.threads|
             && (forall t: nat :: t < |s.threads| ==> s'.threads[t].writer == s.threads[t].writer)
             && (s'.nwrite > s.nwrite ==> Puts(s, m)) && (s'.nread > s.nread ==> Takes(s, m))
    ensures var s, put := states[k + 1], Who(states, moves, true, k + 1);
            forall n :: 0 <= n < |put| ==> put[n] < |s.threads| && s.threads[put[n]].writer
    ensures var s, taken := states[k + 1], Who(states, moves, false, k + 1);
            forall n :: 0 <= n < |taken| ==> taken[n] < |s.threads| && !s.threads[taken[n]].writer
  {
    hide After, CanMove, ToldOf;
  }

  lemma Moving(s: State, m: Move)
    requires CanMove(s, m)
    ensures m.t < |s.threads|
  {
  }

  lemma StepTold(states: seq<State>, moves: seq<Move>, k: nat)
    requires |states| == |moves| + 1 && k < |moves| && Inv(states[k]) && Told(states, moves, k)
    requires MoveAt(states, moves, k)
    ensures Told(states, moves, k + 1)
  {
    hide Inv, After, CanMove, ToldOf;
    var s, m, n := states[k], moves[k], k + 1;
    var s' := states[n];
    Counts(s, m);
    Others(s, m, m.t);
    assert m.t < |s.threads| by { Moving(s, m); }
    if Puts(s, m) { PutOne(s, m); ToldPut(states, moves, m.t, k); }
    else if Takes(s, m) { TakeOne(s, m); ToldTake(states, moves, m.t, k); }
    forall t: nat | t < |s.threads|
      ensures t < |s'.threads| == |s.threads| && s'.threads[t].writer == s.threads[t].writer
      ensures ToldOf(states, moves, t, n)
    {
      Others(s, m, t);
      if Puts(s, m) { ToldPut(states, moves, t, k); }
      else if Takes(s, m) { ToldTake(states, moves, t, k); }
      else if Begins(m.step) { ToldBegin(states, moves, t, k); BeginOne(s, m); }
      else { ToldSame(states, moves, t, k); }
    }
    WhoGrows(states, moves, k);
  }

  // ---- what the callers asked for -------------------------------------------------------------------

  /** The buffers of the calls of pipe_write that thread t has made, from the moves alone. */
  function Sources(moves: seq<Move>, t: nat, k: nat): seq<seq<Byte>>
    requires k <= |moves|
  {
    if k == 0 then []
    else if moves[k - 1].t == t && moves[k - 1].step.BeginWrite? then
      Sources(moves, t, k - 1) + [moves[k - 1].step.src]
    else Sources(moves, t, k - 1)
  }

  function Flat(ss: seq<seq<Byte>>): seq<Byte> { if ss == [] then [] else Flat(ss[..|ss| - 1]) + ss[|ss| - 1] }

  function Earlier(ss: seq<seq<Byte>>): seq<seq<Byte>> { if ss == [] then [] else ss[..|ss| - 1] }

  function Last(ss: seq<seq<Byte>>): seq<Byte> { if ss == [] then [] else ss[|ss| - 1] }

  /** pipe_write returns -1: the pipe is full, and the reader is gone or the writer killed. */
  predicate GivesUp(s: State, m: Move) {
    && m.t < |s.threads| && m.step == Advance && s.threads[m.t].writer && s.threads[m.t].pc == Loop
    && s.threads[m.t].i < |s.threads[m.t].data| && s.Full() && (!s.readOpen || s.threads[m.t].killed)
  }

  /** Another thread's move does not end a call. */
  lemma StaysIn(s: State, m: Move, t: nat)
    requires Inv(s) && CanMove(s, m) && t < |s.threads| && s.threads[t].pc != Out && m.t != t
    ensures |After(s, m.t, m.step).threads| == |s.threads| && After(s, m.t, m.step).threads[t].pc != Out
  {
    assert ThreadOk(s, m.t);
    hide Inv, After;
    var x, woken := Threads(s, m);
  }

  /** A writer leaves a call with everything put in, or gives up. */
  lemma GoesOut(s: State, m: Move, t: nat)
    requires Inv(s) && CanMove(s, m) && t < |s.threads| && s.threads[t].writer && s.threads[t].pc != Out
    requires |After(s, m.t, m.step).threads| == |s.threads| && After(s, m.t, m.step).threads[t].pc == Out
    ensures m.t == t && (GivesUp(s, m) || s.threads[t].i == |s.threads[t].data|)
  {
    hide Transfer, DozeOk, DozingReaders, AllOut;
    assert ThreadOk(s, t);
    if m.t != t { StaysIn(s, m, t); }
    hide Inv;
  }

  /** The buffer of a writer is that of its latest call, of which it has put in the first i bytes. */
  lemma {:induction false} PresentCall(states: seq<State>, moves: seq<Move>, t: nat, k: nat)
    requires Run(states, moves) && k <= |moves| && t < |states[k].threads| && states[k].threads[t].writer
    ensures states[k].threads[t].data == Last(Sources(moves, t, k))
  {
    hide Inv, After, CanMove;
    if k > 0 {
      RunTold(states, moves, k);
      RunTold(states, moves, k - 1);
      RunKeepsInv(states, moves, k - 1);
      assert MoveAt(states, moves, k - 1);
      var s, m := states[k - 1], moves[k - 1];
      Others(s, m, t);
      assert ToldOf(states, moves, t, k) && ToldOf(states, moves, t, k - 1);
      PresentCall(states, moves, t, k - 1);
      if m.t == t {
        if Puts(s, m) { PutOne(s, m); } else if Begins(m.step) { BeginOne(s, m); }
      }
    }
  }

  /** No call of thread t was given up. */
  ghost predicate Completes(states: seq<State>, moves: seq<Move>, t: nat, k: nat)
    requires k <= |moves| < |states|
  {
    forall j :: 0 <= j < k && moves[j].t == t ==> !GivesUp(states[j], moves[j])
  }

  lemma {:induction false} WholeCalls(states: seq<State>, moves: seq<Move>, t: nat, k: nat)
    requires Run(states, moves) && k <= |moves| && t < |states[k].threads| && states[k].threads[t].writer
    requires Completes(states, moves, t, k)
    ensures Before(states, moves, t, k) == Flat(Earlier(Sources(moves, t, k)))
    ensures states[k].threads[t].pc == Out ==> states[k].threads[t].i == |states[k].threads[t].data|
  {
    hide Inv, After, CanMove, Puts, Takes;
    if k > 0 {
      RunTold(states, moves, k);
      RunTold(states, moves, k - 1);
      RunKeepsInv(states, moves, k - 1);
      assert MoveAt(states, moves, k - 1);
      var s, m := states[k - 1], moves[k - 1];
      assert ToldOf(states, moves, t, k) && ToldOf(states, moves, t, k - 1);
      WholeCalls(states, moves, t, k - 1);
      Others(s, m, t);
      PresentCall(states, moves, t, k - 1);
      if m.t == t && Begins(m.step) {
        BeginOne(s, m);
        var ss := Sources(moves, t, k - 1);
        assert (ss + [m.step.src])[..|ss|] == ss;
        assert s.threads[t].data[..|s.threads[t].data|] == s.threads[t].data;
      }
      OutStays(s, m, t);
    }
  }

  /** A writer outside a call stays with what it has put in until it begins another. */
  lemma OutStays(s: State, m: Move, t: nat)
    requires Inv(s) && CanMove(s, m) && t < |s.threads| && s.threads[t].writer && !(m.t == t && GivesUp(s, m))
    requires s.threads[t].pc == Out ==> s.threads[t].i == |s.threads[t].data|
    ensures var s' := After(s, m.t, m.step);
            |s'.threads| == |s.threads| && (s'.threads[t].pc == Out ==> s'.threads[t].i == |s'.threads[t].data|)
  {
    Others(s, m, t);
    assert ThreadOk(s, m.t);
    hide Inv, After, CanMove;
    if After(s, m.t, m.step).threads[t].pc == Out {
      if s.threads[t].pc != Out { GoesOut(s, m, t); }
      StillOut(s, m, t);
    }
  }

  lemma StillOut(s: State, m: Move, t: nat)
    requires Inv(s) && CanMove(s, m) && t < |s.threads| && s.threads[t].writer
    requires |After(s, m.t, m.step).threads| == |s.threads| && After(s, m.t, m.step).threads[t].pc == Out
    ensures !(m.t == t && (Begins(m.step) || Puts(s, m) || Takes(s, m)))
  {
    hide Inv, DozingReaders;
  }

  /** What a writer has put in after k moves, when it never gave up: its buffers in order, the
    * last one up to where it stands. */
  lemma PutInOrder(states: seq<State>, moves: seq<Move>, t: nat, k: nat)
    requires Run(states, moves) && k <= |moves| && t < |states[k].threads| && states[k].threads[t].writer
    requires Completes(states, moves, t, k)
    ensures Moved(states, moves, t, k) <= Flat(Sources(moves, t, k))
  {
    hide Inv, Completes;
    RunKeepsInv(states, moves, k);
    WholeCalls(states, moves, t, k);
    PresentCall(states, moves, t, k);
  }

  /** pipe_write returns n only with the whole buffer of the call in the pipe. */
  lemma WritesAll(states: seq<State>, moves: seq<Move>, t: nat, k: nat)
    requires Run(states, moves) && k <= |moves| && t < |states[k].threads| && states[k].threads[t].writer
    requires states[k].threads[t].pc == Finish || states[k].threads[t].pc == Leave
    ensures InCall(states[k], t) == Last(Sources(moves, t, k))
  {
    RunKeepsInv(states, moves, k);
    assert ThreadOk(states[k], t);
    hide Inv;
    PresentCall(states, moves, t, k);
  }

  /** pipe_read returns with all it was asked for, or with the pipe empty; with nothing only if it
    * was killed while the pipe was empty. */
  lemma ReadsAll(states: seq<State>, moves: seq<Move>, t: nat, k: nat)
    requires Run(states, moves) && k < |moves| && moves[k] == Move(t, Advance) && t < |states[k].threads|
    requires !states[k].threads[t].writer && states[k].threads[t].pc != Out
    requires t < |states[k + 1].threads| && states[k + 1].threads[t].pc == Out
    ensures var s := states[k];
            || (s.threads[t].pc == Leave && (|InCall(s, t)| == s.threads[t].n || s.Empty()))
            || (s.threads[t].pc == Loop && s.threads[t].killed && s.Empty() && s.writeOpen)
  {
    hide Transfer, DozeOk, DozingReaders;
    RunKeepsInv(states, moves, k);
    assert MoveAt(states, moves, k);
    assert ThreadOk(states[k], t);
    hide Inv;
  }

  lemma {:induction false} PartAll(s: seq<Byte>, who: seq<nat>, t: nat)
    requires |s| == |who| && forall n :: 0 <= n < |who| ==> who[n] == t
    ensures Part(s, who, t) == s
  {
    if s != [] {
      var n := |s| - 1;
      PartAll(s[..n], who[..n], t);
      assert s == s[..n] + [s[n]];
    }
  }

  /** With one writer and one reader, what the reader has in its buffers, one call after the
    * other, is a prefix of what the writer was given. */
  lemma OneToOne(states: seq<State>, moves: seq<Move>, r: nat, w: nat, k: nat)
    requires Run(states, moves) && k <= |moves| && |states[k].threads| == 2 && {r, w} == {0, 1}
    requires !states[k].threads[r].writer && states[k].threads[w].writer
    ensures Moved(states, moves, r, k) <= Moved(states, moves, w, k)
    ensures Completes(states, moves, w, k) ==> Moved(states, moves, r, k) <= Flat(Sources(moves, w, k))
  {
    hide Inv, Completes, Part, Moved;
    RunTold(states, moves, k);
    Fifo(states, moves, k);
    assert r < 2 && w < 2 by { assert r in {r, w} && w in {r, w}; }
    assert ToldOf(states, moves, r, k) && ToldOf(states, moves, w, k);
    var s := states[k];
    forall n | 0 <= n < |s.sent| ensures Who(states, moves, true, k)[n] == w {}
    forall n | 0 <= n < |s.got| ensures Who(states, moves, false, k)[n] == r {}
    PartAll(s.sent, Who(states, moves, true, k), w);
    PartAll(s.got, Who(states, moves, false, k), r);
    if Completes(states, moves, w, k) { PutInOrder(states, moves, w, k); }
  }
}
