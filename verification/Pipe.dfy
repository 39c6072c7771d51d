/** kernel/pipe.c under every interleaving of readers and writers, with the sleep
  * and wakeup of kernel/proc.c they use.
  *
  * A step is what one thread does between two points where another can intervene.
  * Falling asleep takes three steps, because sleep() acquires ptable.lock before it
  * gives up the pipe's lock; wakeup() needs ptable.lock.
  */
module Pipe {

  import opened Common
  import opened Bytes

  const PIPESIZE := 512

  /** Where a thread stands in pipe_read or pipe_write. */
  datatype Pc =
    | Out        // not in a call
    | Want       // about to acquire the pipe's lock
    | Loop       // pipe_write: the for loop; pipe_read: the wait loop
    | Copy       // pipe_read: the copying loop
    | Wake       // pipe_write, pipe full: about to wake readers
    | Fall0      // in sleep(), about to acquire ptable.lock
    | Fall1      // in sleep(), both locks held
    | Fall2      // in sleep(), only ptable.lock held
    | Asleep     // SLEEPING
    | Finish     // about to wake the other side
    | Leave      // about to release the pipe's lock and return

  /** A thread: writers carry the bytes to write, readers those read so far. */
  datatype Thread = Thread(writer: bool, pc: Pc, killed: bool, data: seq<Byte>, n: nat, i: nat)

  datatype State = State(
    ring: seq<Byte>, nread: nat, nwrite: nat, readOpen: bool, writeOpen: bool,
    lock: Option<nat>, ptable: Option<nat>, threads: seq<Thread>,
    sent: seq<Byte>,            // ghost history: every byte put into the pipe
    got: seq<Byte>,             // ghost history: every byte taken out
    stranded: set<nat>          // ghost history: readers asleep when a killed writer gave up
  ) {
    predicate Full() { nwrite == nread + PIPESIZE }
    predicate Empty() { nread == nwrite }
    function With(t: nat, th: Thread): State
      requires t < |threads|
    {
      this.(threads := threads[t := th])
    }
  }

  datatype Step =
    | BeginWrite(src: seq<Byte>)
    | BeginRead(count: nat)
    | Advance               // the thread's next step in its call
    | Kill                  // kill() aimed at the thread
    | CloseWrite            // the last reference to the write end goes
    | CloseRead

  /** wakeup(): threads of one side that sleep on their channel become runnable. */
  function WakeAll(threads: seq<Thread>, writers: bool): (r: seq<Thread>)
    ensures |r| == |threads|
    ensures forall t :: 0 <= t < |r| ==>
      r[t] == if threads[t].writer == writers && threads[t].pc == Asleep then threads[t].(pc := Want) else threads[t]
  {
    seq(|threads|, t requires 0 <= t < |threads| =>
      if threads[t].writer == writers && threads[t].pc == Asleep then threads[t].(pc := Want) else threads[t])
  }

  /** Committed to sleep, or asleep, without the pipe's lock. */
  predicate Dozing(th: Thread) { th.pc == Fall2 || th.pc == Asleep }

  ghost function DozingReaders(threads: seq<Thread>): set<nat> {
    set t | 0 <= t < |threads| && !threads[t].writer && Dozing(threads[t])
  }

  predicate AllOut(threads: seq<Thread>, writers: bool) {
    forall t :: 0 <= t < |threads| && threads[t].writer == writers ==> threads[t].pc == Out
  }

  /** Can thread t take this step? */
  predicate Enabled(s: State, t: nat, step: Step) {
    t < |s.threads| &&
    var th := s.threads[t];
    match step
    case BeginWrite(src) => th.writer && th.pc == Out && s.writeOpen
    case BeginRead(count) => !th.writer && th.pc == Out && s.readOpen
    case Kill => s.ptable.None?
    // A thread inside a call holds a reference to its end, so an end closes only
    // while no thread of that side is in a call.
    case CloseWrite => s.writeOpen && s.lock.None? && s.ptable.None? && AllOut(s.threads, true)
    case CloseRead => s.readOpen && s.lock.None? && s.ptable.None? && AllOut(s.threads, false)
    case Advance =>
      match th.pc
      case Out => false
      case Want => s.lock.None?
      case Wake => s.ptable.None?
      case Finish => s.ptable.None?
      case Fall0 => s.ptable.None?
      case Asleep => false
      case _ => true
  }

  /** pipe_write in its loop, holding the lock. */
  ghost function WriterLoop(s: State, t: nat): State
    requires t < |s.threads| && |s.ring| == PIPESIZE && s.threads[t].i <= |s.threads[t].data|
  {
    var th := s.threads[t];
    if th.i == |th.data| then s.With(t, th.(pc := Finish))
    else if !s.Full() then
      var b := th.data[th.i];
      var s1 := s.(ring := s.ring[s.nwrite % PIPESIZE := b], nwrite := s.nwrite + 1, sent := s.sent + [b]);
      s1.With(t, th.(i := th.i + 1))
    else if !s.readOpen || th.killed then
      // returns -1 without waking anyone
      s.(lock := None, stranded := s.stranded + DozingReaders(s.threads)).With(t, th.(pc := Out))
    else s.With(t, th.(pc := Wake))
  }

  /** pipe_read in its wait loop, holding the lock. */
  function ReaderLoop(s: State, t: nat): State
    requires t < |s.threads|
  {
    var th := s.threads[t];
    if s.Empty() && s.writeOpen then
      if th.killed then s.(lock := None).With(t, th.(pc := Out))
      else s.With(t, th.(pc := Fall0))
    else s.With(t, th.(pc := Copy))
  }

  function ReaderCopy(s: State, t: nat): State
    requires t < |s.threads| && |s.ring| == PIPESIZE
  {
    var th := s.threads[t];
    if th.i < th.n && !s.Empty() then
      var b := s.ring[s.nread % PIPESIZE];
      s.(nread := s.nread + 1, got := s.got + [b]).With(t, th.(i := th.i + 1, data := th.data + [b]))
    else s.With(t, th.(pc := Finish))
  }

  ghost function Wakeup(s: State, writers: bool): State {
    s.(threads := WakeAll(s.threads, writers), stranded := if writers then s.stranded else {})
  }

  /** The state after the step. */
  ghost function After(s: State, t: nat, step: Step): State
    requires Enabled(s, t, step) && |s.ring| == PIPESIZE
    requires s.threads[t].writer ==> s.threads[t].i <= |s.threads[t].data|
  {
    var th := s.threads[t];
    match step
    case BeginWrite(src) => s.With(t, th.(pc := Want, data := src, n := |src|, i := 0))
    case BeginRead(count) => s.With(t, th.(pc := Want, data := [], n := count, i := 0))
    case Kill =>
      s.(stranded := s.stranded - {t}).With(t, th.(killed := true, pc := if th.pc == Asleep then Want else th.pc))
    case CloseWrite => Wakeup(s.(writeOpen := false), false)
    case CloseRead => Wakeup(s.(readOpen := false), true)
    case Advance =>
      match th.pc
      case Want => s.(lock := Some(t)).With(t, th.(pc := Loop))
      case Loop => if th.writer then WriterLoop(s, t) else ReaderLoop(s, t)
      case Copy => ReaderCopy(s, t)
      case Wake => Wakeup(s.With(t, th.(pc := Fall0)), false)
      case Fall0 => s.(ptable := Some(t)).With(t, th.(pc := Fall1))
      case Fall1 => s.(lock := None).With(t, th.(pc := Fall2))
      case Fall2 => s.(ptable := None).With(t, th.(pc := Asleep))
      case Finish => Wakeup(s.With(t, th.(pc := Leave)), !th.writer)
      case Leave => s.(lock := None).With(t, th.(pc := Out))
  }

  // ---- the invariant -------------------------------------------------------

  /** The ring holds exactly the bytes sent and not yet taken. */
  ghost predicate Transfer(s: State) {
    && |s.ring| == PIPESIZE && s.nread <= s.nwrite <= s.nread + PIPESIZE
    && |s.sent| == s.nwrite && s.got == s.sent[..s.nread]
    && forall k :: s.nread <= k < s.nwrite ==> s.ring[k % PIPESIZE] == s.sent[k]
  }

  predicate HoldsLock(pc: Pc) {
    pc == Loop || pc == Copy || pc == Wake || pc == Fall0 || pc == Fall1 || pc == Finish || pc == Leave
  }

  predicate HoldsPtable(pc: Pc) { pc == Fall1 || pc == Fall2 }

  /** What is true of thread t wherever it stands. */
  ghost predicate ThreadOk(s: State, t: nat)
    requires t < |s.threads|
  {
    var th := s.threads[t];
    && (HoldsLock(th.pc) <==> s.lock == Some(t))
    && (HoldsPtable(th.pc) <==> s.ptable == Some(t))
    && (if th.writer then th.i <= |th.data| == th.n else th.i == |th.data| <= th.n)
    && (th.pc != Out ==> if th.writer then s.writeOpen else s.readOpen)
    && (th.writer ==> th.pc != Copy) && (!th.writer ==> th.pc != Wake)
    && (th.pc == Finish || th.pc == Leave ==> if th.writer then th.i == |th.data| else th.i == th.n || s.Empty())
    && (th.writer && (th.pc == Wake || th.pc == Fall0 || th.pc == Fall1) ==> s.Full() && s.readOpen)
    && (th.writer && (th.pc == Fall0 || th.pc == Fall1) ==> DozingReaders(s.threads) == {})
    && (!th.writer && (th.pc == Fall0 || th.pc == Fall1) ==> s.Empty() && s.writeOpen)
    && (!th.writer && th.pc == Copy && th.i == 0 ==> !s.Empty() || !s.writeOpen)
    && (!th.writer && (th.pc == Finish || th.pc == Leave) && th.i == 0 && th.n > 0 ==> s.Empty() && !s.writeOpen)
    && (Dozing(th) ==> if th.writer then s.readOpen else s.writeOpen)
  }

  /** The lock's holder still owes readers a wakeup for bytes it put in. */
  predicate OwesReaders(s: State) {
    s.lock.Some? && s.lock.value < |s.threads| &&
    var th := s.threads[s.lock.value]; th.writer && (th.pc == Loop || th.pc == Wake || th.pc == Finish)
  }

  /** The lock's holder still owes writers a wakeup for room it made. */
  predicate OwesWriters(s: State) {
    s.lock.Some? && s.lock.value < |s.threads| &&
    var th := s.threads[s.lock.value]; !th.writer && (th.pc == Copy || th.pc == Finish)
  }

  ghost predicate DozeOk(s: State, t: nat)
    requires t < |s.threads|
  {
    var th := s.threads[t];
    Dozing(th) ==>
      if th.writer then s.Full() || OwesWriters(s)
      else s.Empty() || OwesReaders(s) || t in s.stranded
  }

  ghost predicate Inv(s: State) {
    && Transfer(s)
    && (forall t :: 0 <= t < |s.threads| ==> ThreadOk(s, t))
    && (forall t :: 0 <= t < |s.threads| ==> DozeOk(s, t))
    && s.stranded <= DozingReaders(s.threads)
    && (s.lock.Some? ==> s.lock.value < |s.threads|)
    && (s.ptable.Some? ==> s.ptable.value < |s.threads|)
  }

  ghost predicate Init(s: State) {
    && |s.ring| == PIPESIZE && s.nread == s.nwrite == 0 && s.sent == s.got == [] && s.stranded == {}
    && s.readOpen && s.writeOpen && s.lock == None && s.ptable == None
    && forall t :: 0 <= t < |s.threads| ==> s.threads[t] == Thread(s.threads[t].writer, Out, false, [], 0, 0)
  }

  // ---- every step keeps it ---------------------------------------------------

  lemma RingSlots(a: nat, b: nat)
    requires a < b < a + PIPESIZE
    ensures a % PIPESIZE != b % PIPESIZE
  {
  }

  lemma PutTransfer(s: State, b: Byte)
    requires Transfer(s) && !s.Full()
    ensures Transfer(s.(ring := s.ring[s.nwrite % PIPESIZE := b], nwrite := s.nwrite + 1, sent := s.sent + [b]))
  {
    var s' := s.(ring := s.ring[s.nwrite % PIPESIZE := b], nwrite := s.nwrite + 1, sent := s.sent + [b]);
    forall k | s'.nread <= k < s'.nwrite ensures s'.ring[k % PIPESIZE] == s'.sent[k] {
      if k < s.nwrite { RingSlots(k, s.nwrite); }
    }
  }

  lemma TakeTransfer(s: State)
    requires Transfer(s) && !s.Empty()
    ensures Transfer(s.(nread := s.nread + 1, got := s.got + [s.ring[s.nread % PIPESIZE]]))
  {
    assert s.sent[..s.nread + 1] == s.sent[..s.nread] + [s.sent[s.nread]];
  }

  /** What the step lemmas below need to know about the thread that moves and about another one. */
  ghost predicate Pre(s: State, t: nat, u: nat) {
    && t < |s.threads| && u < |s.threads| && Transfer(s)
    && ThreadOk(s, t) && ThreadOk(s, u) && DozeOk(s, u)
    && (s.lock.Some? ==> s.lock.value < |s.threads|)
  }

  lemma PreOf(s: State, t: nat, u: nat)
    requires Inv(s) && t < |s.threads| && u < |s.threads|
    ensures Pre(s, t, u)
  {
  }

  lemma BeginThread(s: State, t: nat, step: Step, u: nat)
    requires Pre(s, t, u) && Enabled(s, t, step) && (step.BeginWrite? || step.BeginRead?)
    requires var s' := After(s, t, step); DozingReaders(s'.threads) == DozingReaders(s.threads)
    ensures ThreadOk(After(s, t, step), u) && DozeOk(After(s, t, step), u)
  {
  }

  /** BeginWrite and BeginRead. */
  lemma StepBegin(s: State, t: nat, step: Step)
    requires Inv(s) && t < |s.threads| && ThreadOk(s, t) && Enabled(s, t, step) && (step.BeginWrite? || step.BeginRead?)
    ensures Inv(After(s, t, step))
  {
    var s' := After(s, t, step);
    assert DozingReaders(s'.threads) == DozingReaders(s.threads);
    forall u | 0 <= u < |s'.threads| ensures ThreadOk(s', u) && DozeOk(s', u) {
      PreOf(s, t, u);
      BeginThread(s, t, step, u);
    }
  }

  lemma KillThread(s: State, t: nat, u: nat)
    requires Pre(s, t, u) && Enabled(s, t, Kill)
    requires var s' := After(s, t, Kill); DozingReaders(s'.threads) <= DozingReaders(s.threads)
    ensures ThreadOk(After(s, t, Kill), u) && DozeOk(After(s, t, Kill), u)
  {
  }

  /** kill() may wake the thread it is aimed at. */
  lemma StepKill(s: State, t: nat)
    requires Inv(s) && t < |s.threads| && ThreadOk(s, t) && Enabled(s, t, Kill)
    ensures Inv(After(s, t, Kill))
  {
    var s' := After(s, t, Kill);
    assert DozingReaders(s'.threads) <= DozingReaders(s.threads);
    forall u | 0 <= u < |s'.threads| ensures ThreadOk(s', u) && DozeOk(s', u) {
      PreOf(s, t, u);
      KillThread(s, t, u);
    }
  }

  lemma CloseThread(s: State, t: nat, step: Step, u: nat)
    requires Pre(s, t, u) && Enabled(s, t, step) && (step.CloseWrite? || step.CloseRead?)
    requires var s' := After(s, t, step);
             DozingReaders(s'.threads) == if step.CloseWrite? then {} else DozingReaders(s.threads)
    ensures ThreadOk(After(s, t, step), u) && DozeOk(After(s, t, step), u)
  {
  }

  /** An end closes and the other side is woken. */
  lemma StepClose(s: State, t: nat, step: Step)
    requires Inv(s) && t < |s.threads| && ThreadOk(s, t) && Enabled(s, t, step) && (step.CloseWrite? || step.CloseRead?)
    ensures Inv(After(s, t, step))
  {
    var s' := After(s, t, step);
    forall u | 0 <= u < |s.threads| ensures s.threads[u].pc != Fall2 { assert ThreadOk(s, u); }
    assert DozingReaders(s'.threads) == if step.CloseWrite? then {} else DozingReaders(s.threads);
    forall u | 0 <= u < |s'.threads| ensures ThreadOk(s', u) && DozeOk(s', u) {
      PreOf(s, t, u);
      CloseThread(s, t, step, u);
    }
  }

  lemma WriterDozes(s: State, t: nat, u: nat)
    requires Pre(s, t, u) && s.threads[t].writer && s.threads[t].pc == Loop
    ensures u < |WriterLoop(s, t).threads| && DozeOk(WriterLoop(s, t), u)
  {
    RingSize(s);
    hide Transfer;
  }

  lemma WriterThread(s: State, t: nat, u: nat)
    requires Pre(s, t, u) && s.threads[t].writer && s.threads[t].pc == Loop
    requires var s' := WriterLoop(s, t); DozingReaders(s'.threads) == DozingReaders(s.threads)
    ensures ThreadOk(WriterLoop(s, t), u) && DozeOk(WriterLoop(s, t), u)
  {
    hide DozingReaders, DozeOk;
    WriterDozes(s, t, u);
    RingSize(s);
    hide Transfer;
  }

  lemma RingSize(s: State)
    requires Transfer(s)
    ensures |s.ring| == PIPESIZE && s.nread <= s.nwrite
  {
  }

  /** pipe_write's loop. */
  lemma StepWriter(s: State, t: nat)
    requires Inv(s) && t < |s.threads| && ThreadOk(s, t) && s.threads[t].writer && s.threads[t].pc == Loop
    ensures Inv(WriterLoop(s, t))
  {
    var s' := WriterLoop(s, t);
    var th := s.threads[t];
    if th.i < |th.data| && !s.Full() { PutTransfer(s, th.data[th.i]); }
    assert DozingReaders(s'.threads) == DozingReaders(s.threads);
    forall u | 0 <= u < |s'.threads| ensures ThreadOk(s', u) && DozeOk(s', u) {
      PreOf(s, t, u);
      WriterThread(s, t, u);
    }
  }

  lemma ReaderThread(s: State, t: nat, u: nat)
    requires Pre(s, t, u) && !s.threads[t].writer && s.threads[t].pc == Loop
    requires var s' := ReaderLoop(s, t); DozingReaders(s'.threads) == DozingReaders(s.threads)
    ensures ThreadOk(ReaderLoop(s, t), u) && DozeOk(ReaderLoop(s, t), u)
  {
  }

  /** pipe_read's wait loop. */
  lemma StepReader(s: State, t: nat)
    requires Inv(s) && t < |s.threads| && ThreadOk(s, t) && !s.threads[t].writer && s.threads[t].pc == Loop
    ensures Inv(ReaderLoop(s, t))
  {
    var s' := ReaderLoop(s, t);
    assert DozingReaders(s'.threads) == DozingReaders(s.threads);
    forall u | 0 <= u < |s'.threads| ensures ThreadOk(s', u) && DozeOk(s', u) {
      PreOf(s, t, u);
      ReaderThread(s, t, u);
    }
  }

  lemma CopyingThread(s: State, t: nat, u: nat)
    requires Pre(s, t, u) && !s.threads[t].writer && s.threads[t].pc == Copy
    requires var s' := ReaderCopy(s, t); DozingReaders(s'.threads) == DozingReaders(s.threads)
    ensures ThreadOk(ReaderCopy(s, t), u) && DozeOk(ReaderCopy(s, t), u)
  {
  }

  /** pipe_read's copying loop. */
  lemma StepCopying(s: State, t: nat)
    requires Inv(s) && t < |s.threads| && ThreadOk(s, t) && !s.threads[t].writer && s.threads[t].pc == Copy
    ensures Inv(ReaderCopy(s, t))
  {
    var s' := ReaderCopy(s, t);
    if s.threads[t].i < s.threads[t].n && !s.Empty() { TakeTransfer(s); }
    assert DozingReaders(s'.threads) == DozingReaders(s.threads);
    forall u | 0 <= u < |s'.threads| ensures ThreadOk(s', u) && DozeOk(s', u) {
      PreOf(s, t, u);
      CopyingThread(s, t, u);
    }
  }

  lemma WakeThread(s: State, t: nat, u: nat)
    requires Pre(s, t, u) && Enabled(s, t, Advance) && (s.threads[t].pc == Wake || s.threads[t].pc == Finish)
    requires var s' := After(s, t, Advance);
             DozingReaders(s'.threads) == if s.threads[t].writer then {} else DozingReaders(s.threads)
    ensures ThreadOk(After(s, t, Advance), u) && DozeOk(After(s, t, Advance), u)
  {
  }

  /** The other side is woken. */
  lemma StepWake(s: State, t: nat)
    requires Inv(s) && t < |s.threads| && ThreadOk(s, t) && Enabled(s, t, Advance)
    requires s.threads[t].pc == Wake || s.threads[t].pc == Finish
    ensures Inv(After(s, t, Advance))
  {
    var s' := After(s, t, Advance);
    forall u | 0 <= u < |s.threads| ensures s.threads[u].pc != Fall2 { assert ThreadOk(s, u); }
    assert DozingReaders(s'.threads) == if s.threads[t].writer then {} else DozingReaders(s.threads);
    forall u | 0 <= u < |s'.threads| ensures ThreadOk(s', u) && DozeOk(s', u) {
      PreOf(s, t, u);
      WakeThread(s, t, u);
    }
  }

  lemma LocksThread(s: State, t: nat, u: nat)
    requires Pre(s, t, u) && Enabled(s, t, Advance) && (s.threads[t].pc == Want || s.threads[t].pc == Leave)
    requires var s' := After(s, t, Advance); DozingReaders(s'.threads) == DozingReaders(s.threads)
    ensures ThreadOk(After(s, t, Advance), u) && DozeOk(After(s, t, Advance), u)
  {
  }

  /** The lock is acquired, or released on return. */
  lemma StepLocks(s: State, t: nat)
    requires Inv(s) && t < |s.threads| && ThreadOk(s, t) && Enabled(s, t, Advance)
    requires s.threads[t].pc == Want || s.threads[t].pc == Leave
    ensures Inv(After(s, t, Advance))
  {
    var s' := After(s, t, Advance);
    assert DozingReaders(s'.threads) == DozingReaders(s.threads);
    forall u | 0 <= u < |s'.threads| ensures ThreadOk(s', u) && DozeOk(s', u) {
      PreOf(s, t, u);
      LocksThread(s, t, u);
    }
  }

  lemma FallThread(s: State, t: nat, u: nat)
    requires Pre(s, t, u) && Enabled(s, t, Advance) && (s.threads[t].pc == Fall0 || s.threads[t].pc == Fall2)
    requires var s' := After(s, t, Advance); DozingReaders(s'.threads) == DozingReaders(s.threads)
    ensures ThreadOk(After(s, t, Advance), u) && DozeOk(After(s, t, Advance), u)
  {
  }

  /** sleep() takes ptable.lock, and the scheduler gives it up. */
  lemma StepFall(s: State, t: nat)
    requires Inv(s) && t < |s.threads| && ThreadOk(s, t) && Enabled(s, t, Advance)
    requires s.threads[t].pc == Fall0 || s.threads[t].pc == Fall2
    ensures Inv(After(s, t, Advance))
  {
    var s' := After(s, t, Advance);
    assert DozingReaders(s'.threads) == DozingReaders(s.threads);
    forall u | 0 <= u < |s'.threads| ensures ThreadOk(s', u) && DozeOk(s', u) {
      PreOf(s, t, u);
      FallThread(s, t, u);
    }
  }

  lemma ReleaseThread(s: State, t: nat, u: nat)
    requires Pre(s, t, u) && Enabled(s, t, Advance) && s.threads[t].pc == Fall1
    requires var s' := After(s, t, Advance);
             DozingReaders(s'.threads) == DozingReaders(s.threads) + (if s.threads[t].writer then {} else {t})
    ensures ThreadOk(After(s, t, Advance), u) && DozeOk(After(s, t, Advance), u)
  {
  }

  /** sleep() gives up the pipe's lock under ptable.lock. */
  lemma StepRelease(s: State, t: nat)
    requires Inv(s) && t < |s.threads| && ThreadOk(s, t) && Enabled(s, t, Advance) && s.threads[t].pc == Fall1
    ensures Inv(After(s, t, Advance))
  {
    var s' := After(s, t, Advance);
    assert DozingReaders(s'.threads) == DozingReaders(s.threads) + (if s.threads[t].writer then {} else {t});
    forall u | 0 <= u < |s'.threads| ensures ThreadOk(s', u) && DozeOk(s', u) {
      PreOf(s, t, u);
      ReleaseThread(s, t, u);
    }
  }

  lemma StepKeepsInv(s: State, t: nat, step: Step)
    requires Inv(s) && Enabled(s, t, step) && ThreadOk(s, t)
    ensures Inv(After(s, t, step))
  {
    match step
    case BeginWrite(_) => StepBegin(s, t, step);
    case BeginRead(_) => StepBegin(s, t, step);
    case Kill => StepKill(s, t);
    case CloseWrite => StepClose(s, t, step);
    case CloseRead => StepClose(s, t, step);
    case Advance =>
      match s.threads[t].pc
      case Loop => if s.threads[t].writer { StepWriter(s, t); } else { StepReader(s, t); }
      case Copy => StepCopying(s, t);
      case Wake => StepWake(s, t);
      case Finish => StepWake(s, t);
      case Fall0 => StepFall(s, t);
      case Fall1 => StepRelease(s, t);
      case Fall2 => StepFall(s, t);
      case _ => StepLocks(s, t);
  }

  // ---- whole runs --------------------------------------------------------------

  datatype Move = Move(t: nat, step: Step)

  ghost predicate CanMove(s: State, m: Move) {
    && Enabled(s, m.t, m.step) && |s.ring| == PIPESIZE
    && (s.threads[m.t].writer ==> s.threads[m.t].i <= |s.threads[m.t].data|)
  }

  ghost predicate MoveAt(states: seq<State>, moves: seq<Move>, k: nat)
    requires k < |moves| && |states| == |moves| + 1
  {
    CanMove(states[k], moves[k]) && states[k + 1] == After(states[k], moves[k].t, moves[k].step)
  }

  ghost predicate Run(states: seq<State>, moves: seq<Move>) {
    && |states| == |moves| + 1 && Init(states[0])
    && forall k :: 0 <= k < |moves| ==> MoveAt(states, moves, k)
  }

  lemma InitInv(s: State)
    requires Init(s)
    ensures Inv(s)
  {
    assert DozingReaders(s.threads) == {};
    forall t | 0 <= t < |s.threads| ensures ThreadOk(s, t) {}
  }

  lemma {:induction false} RunKeepsInv(states: seq<State>, moves: seq<Move>, k: nat)
    requires Run(states, moves) && k <= |moves|
    ensures Inv(states[k])
  {
    if k == 0 {
      InitInv(states[0]);
    } else {
      RunKeepsInv(states, moves, k - 1);
      assert MoveAt(states, moves, k - 1);
      assert ThreadOk(states[k - 1], moves[k - 1].t);
      StepKeepsInv(states[k - 1], moves[k - 1].t, moves[k - 1].step);
    }
  }

  /** In every run the bytes read are, in order, a prefix of the bytes written, and
    * at most PIPESIZE bytes are under way. */
  lemma Fifo(states: seq<State>, moves: seq<Move>, k: nat)
    requires Run(states, moves) && k <= |moves|
    ensures var s := states[k]; s.got <= s.sent && |s.got| == s.nread && |s.sent| == s.nwrite
    ensures states[k].nread <= states[k].nwrite <= states[k].nread + 512
  {
    RunKeepsInv(states, moves, k);
  }

  /** A read of at least one byte returns 0 only when the write end is closed and
    * everything has been consumed. */
  lemma ReadsZeroAtEnd(states: seq<State>, moves: seq<Move>, k: nat)
    requires Run(states, moves) && k < |moves| && moves[k].step == Advance
    requires MoveAt(states, moves, k)
    requires var th := states[k].threads[moves[k].t]; !th.writer && th.pc == Leave && th.n > 0 && th.i == 0
    ensures var s := states[k]; !s.writeOpen && s.got == s.sent
  {
    RunKeepsInv(states, moves, k);
    assert ThreadOk(states[k], moves[k].t);
  }

  /** Nobody sleeps while what it waits for is there: no reader on a non-empty
    * pipe, no writer on a pipe with room. */
  ghost predicate NoneMissed(s: State) {
    forall t :: 0 <= t < |s.threads| && Dozing(s.threads[t]) ==> if s.threads[t].writer then s.Full() else s.Empty()
  }

  /** A killed writer returns from a full pipe that still has readers. */
  ghost predicate KilledExit(s: State, m: Move) {
    && m.t < |s.threads| && m.step == Advance
    && var th := s.threads[m.t]; th.writer && th.pc == Loop && th.i < |th.data| && s.Full() && s.readOpen && th.killed
  }

  /** No writer took the killed exit while a reader slept. */
  ghost predicate NoneStranded(states: seq<State>, moves: seq<Move>)
    requires |states| == |moves| + 1
  {
    forall k :: 0 <= k < |moves| && KilledExit(states[k], moves[k]) ==> DozingReaders(states[k].threads) == {}
  }

  lemma {:induction false} NeverStranded(states: seq<State>, moves: seq<Move>, k: nat)
    requires Run(states, moves) && k <= |moves| && NoneStranded(states, moves)
    ensures states[k].stranded == {}
  {
    if k > 0 {
      NeverStranded(states, moves, k - 1);
      RunKeepsInv(states, moves, k - 1);
      assert MoveAt(states, moves, k - 1);
      var s, m := states[k - 1], moves[k - 1];
      assert ThreadOk(s, m.t);
      if m.step == Advance && s.threads[m.t].pc == Loop && s.threads[m.t].writer && s.Full()
         && s.threads[m.t].i < |s.threads[m.t].data| && !s.readOpen {
        ReadersOut(s);
      }
    }
  }

  /** With the read end closed no reader sleeps. */
  lemma ReadersOut(s: State)
    requires Inv(s) && !s.readOpen
    ensures DozingReaders(s.threads) == {}
  {
    forall t | 0 <= t < |s.threads| && !s.threads[t].writer ensures s.threads[t].pc == Out { assert ThreadOk(s, t); }
  }

  /** The killed exit misses a wakeup exactly when a reader sleeps. */
  lemma KilledExitMisses(s: State, m: Move)
    requires Inv(s) && CanMove(s, m) && KilledExit(s, m)
    ensures After(s, m.t, m.step).lock.None?
    ensures !NoneMissed(After(s, m.t, m.step)) <==> DozingReaders(s.threads) != {}
  {
    var s' := After(s, m.t, m.step);
    assert ThreadOk(s, m.t);
    if DozingReaders(s.threads) != {} {
      var t :| t in DozingReaders(s.threads);
      assert Dozing(s'.threads[t]) && !s'.threads[t].writer && !s'.Empty();
    } else {
      forall t | 0 <= t < |s'.threads| && Dozing(s'.threads[t]) ensures s'.threads[t].writer {
        assert t !in DozingReaders(s.threads);
      }
    }
  }

  /** Wakeups are lost if and only if a killed writer gives up while a reader sleeps. */
  lemma NoLostWakeup(states: seq<State>, moves: seq<Move>)
    requires Run(states, moves)
    ensures (forall k :: 0 <= k <= |moves| && states[k].lock.None? ==> NoneMissed(states[k]))
            <==> NoneStranded(states, moves)
  {
    if NoneStranded(states, moves) {
      forall k | 0 <= k <= |moves| && states[k].lock.None? ensures NoneMissed(states[k]) {
        RunKeepsInv(states, moves, k);
        NeverStranded(states, moves, k);
        forall t | 0 <= t < |states[k].threads| && Dozing(states[k].threads[t])
          ensures if states[k].threads[t].writer then states[k].Full() else states[k].Empty()
        {
          assert DozeOk(states[k], t);
        }
      }
    }
    if forall k :: 0 <= k <= |moves| && states[k].lock.None? ==> NoneMissed(states[k]) {
      forall k | 0 <= k < |moves| && KilledExit(states[k], moves[k]) ensures DozingReaders(states[k].threads) == {} {
        RunKeepsInv(states, moves, k);
        assert MoveAt(states, moves, k);
        KilledExitMisses(states[k], moves[k]);
        assert NoneMissed(states[k + 1]);
      }
    }
  }

  /** Readers and writers never sleep at the same time while the lock is free. */
  lemma NotBothAsleep(states: seq<State>, moves: seq<Move>, k: nat, t: nat, u: nat)
    requires Run(states, moves) && NoneStranded(states, moves) && k <= |moves| && states[k].lock.None?
    requires t < |states[k].threads| && u < |states[k].threads|
    requires !states[k].threads[t].writer && states[k].threads[u].writer
    ensures !(Dozing(states[k].threads[t]) && Dozing(states[k].threads[u]))
  {
    NoLostWakeup(states, moves);
  }

  // ---- a run that loses a wakeup -------------------------------------------------

  ghost predicate Reachable(s: State) {
    exists states, moves :: Run(states, moves) && states[|moves|] == s
  }

  lemma Reached(s: State, t: nat, step: Step)
    requires Reachable(s) && CanMove(s, Move(t, step))
    ensures Reachable(After(s, t, step))
  {
    var states, moves :| Run(states, moves) && states[|moves|] == s;
    var states', moves' := states + [After(s, t, step)], moves + [Move(t, step)];
    forall k | 0 <= k < |moves'| ensures MoveAt(states', moves', k) {
      assert k < |moves| ==> MoveAt(states, moves, k);
    }
    assert Run(states', moves') && states'[|moves'|] == After(s, t, step);
  }

  /** A writer with enough bytes fills the pipe. */
  lemma {:induction false} Fill(s: State, j: nat) returns (s': State)
    requires Reachable(s) && Inv(s) && |s.threads| == 2 && s.lock == Some(1)
    requires s.nread == 0 && s.nwrite == PIPESIZE - j && j <= PIPESIZE
    requires var th := s.threads[1]; th.writer && th.pc == Loop && |th.data| == PIPESIZE + 1 && th.i == PIPESIZE - j
    ensures Reachable(s') && Inv(s') && |s'.threads| == 2 && s'.threads[0] == s.threads[0] && s'.lock == Some(1)
    ensures s'.nread == 0 && s'.Full() && s'.readOpen == s.readOpen && s'.ptable == s.ptable
    ensures var th := s'.threads[1]; th.writer && th.pc == Loop && |th.data| == PIPESIZE + 1 && th.i == PIPESIZE
    decreases j
  {
    if j == 0 {
      s' := s;
    } else {
      Reached(s, 1, Advance);
      assert ThreadOk(s, 1);
      StepKeepsInv(s, 1, Advance);
      s' := Fill(After(s, 1, Advance), j - 1);
    }
  }

  lemma ReaderSleeps() returns (s: State)
    ensures Reachable(s) && Inv(s) && s.lock == None && s.ptable == None && |s.threads| == 2
    ensures !s.threads[0].writer && s.threads[0].pc == Asleep && s.readOpen && s.writeOpen && s.nread == s.nwrite == 0
    ensures s.threads[1] == Thread(true, Out, false, [], 0, 0)
  {
    hide Inv, Reachable, Transfer;
    var s0 := Start();
    var s1 := Go(s0, 0, BeginRead(1));
    var s2 := Go(s1, 0, Advance);
    var s3 := Go(s2, 0, Advance);
    var s4 := Go(s3, 0, Advance);
    var s5 := Go(s4, 0, Advance);
    s := Go(s5, 0, Advance);
  }

  lemma Start() returns (s: State)
    ensures Reachable(s) && Inv(s)
    ensures s == State(Zeros(PIPESIZE), 0, 0, true, true, None, None,
                       [Thread(false, Out, false, [], 0, 0), Thread(true, Out, false, [], 0, 0)], [], [], {})
  {
    s := State(Zeros(PIPESIZE), 0, 0, true, true, None, None,
               [Thread(false, Out, false, [], 0, 0), Thread(true, Out, false, [], 0, 0)], [], [], {});
    var none: seq<Move> := [];
    assert Run([s], none) && [s][|none|] == s;
    InitInv(s);
  }

  /** A reader falls asleep on an empty pipe; a writer fills it and is killed: the
    * reader sleeps on a full pipe, and nobody holds the lock. */
  lemma WakeupLost() returns (s: State)
    ensures Reachable(s) && s.lock.None? && |s.threads| == 2
    ensures !s.threads[0].writer && s.threads[0].pc == Asleep && s.Full()
  {
    hide Inv, Reachable, Transfer;
    var s6 := ReaderSleeps();
    var s7 := Go(s6, 1, BeginWrite(Zeros(PIPESIZE + 1)));
    var s8 := Go(s7, 1, Advance);
    var s9 := Fill(s8, PIPESIZE);
    var s10 := Go(s9, 1, Kill);
    s := Go(s10, 1, Advance);
  }

  lemma Go(s: State, t: nat, step: Step) returns (s': State)
    requires Reachable(s) && Inv(s) && Enabled(s, t, step)
    ensures |s.ring| == PIPESIZE && (s.threads[t].writer ==> s.threads[t].i <= |s.threads[t].data|)
    ensures Reachable(s') && Inv(s') && s' == After(s, t, step)
  {
    assert ThreadOk(s, t);
    StepKeepsInv(s, t, step);
    Reached(s, t, step);
    s' := After(s, t, step);
  }
}
