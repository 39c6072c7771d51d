/** The process table of kernel/proc.c as a step machine over any number of CPUs.
  *
  * A step is what one CPU does between two points where another CPU can observe it.
  * ptable.lock is held across context switches: the CPU that acquires it in the
  * scheduler releases it on a process's stack, and the other way round. swtch is
  * an atomic change of the stack a CPU runs on. The bodies of the critical
  * sections are single steps; what fork writes without the lock is not.
  */
module Processes {

  import opened Common

  datatype PState = Unused | Embryo | Sleeping | Runnable | Running | Zombie

  datatype Chan = NoChan | WaitChan(proc: nat) | Other(id: nat)

  /** Where a process that gave up its CPU continues. */
  datatype Resume = AtForkRet | AtYield | AtSleep | AtWait | AtDead

  datatype Proc = Proc(state: PState, pid: nat, parent: Option<nat>, chan: Chan, killed: bool,
                       hasStack: bool, resume: Resume)

  /** What a process is in the process table lock for. */
  datatype Op = Yield | Sleep(id: nat) | Wait | Exit | Kill(pid: nat) | Wakeup(id: nat) | Alloc

  datatype Pc =
    // on the scheduler's stack
    | Idle                    // between rounds, lock free
    | Scan                    // looking for a RUNNABLE process, lock held
    | Jump(p: nat)            // about to switch to p
    | Back                    // just switched away from a process
    // on a process's stack
    | ForkRet                 // first instruction of a new process, lock held
    | Run                     // in user mode or in the kernel, lock not held
    | Locked(op: Op)          // lock held
    | Sched(at: Resume)       // about to switch to the scheduler
    | Resumed(at: Resume)     // just switched back in
    | Forking(child: nat)     // fork: the child's slot is EMBRYO
    | Forked(child: nat)      // fork: the child is complete but for its state

  datatype Stack = OnScheduler | OnProc(p: nat)

  datatype Cpu = Cpu(pc: Pc, stack: Stack, proc: Option<nat>, cr3: Option<nat>)

  datatype State = State(procs: seq<Proc>, cpus: seq<Cpu>, lock: Option<nat>, nextPid: nat, init: nat,
                         reaped: seq<nat>)     // ghost history: the pids that wait returned

  predicate HoldsLock(pc: Pc) { !(pc.Idle? || pc.Run? || pc.Forking? || pc.Forked?) }

  predicate OnProcStack(pc: Pc) { !(pc.Idle? || pc.Scan? || pc.Jump? || pc.Back?) }

  predicate Live(st: PState) { st == Sleeping || st == Runnable || st == Running }

  function Child(pc: Pc): Option<nat> {
    match pc case Forking(c) => Some(c) case Forked(c) => Some(c) case _ => None
  }

  // ---- the steps ---------------------------------------------------------------

  datatype Step =
    | Acquire(op: Op)         // the scheduler or a process takes the lock
    | Pick(p: nat)            // the scheduler chooses p
    | Switch                  // swtch, in either direction
    | Return                  // switch_kvm and c->proc = 0 after swtch came back
    | Release                 // the lock is released
    | Do(which: nat)          // the critical section; `which` is the slot its scan stops at
    | SetupChild              // fork fills in the child, without the lock
    | FailChild               // fork fails and gives the slot back, without the lock
    | StartChild              // fork makes the child RUNNABLE, under the lock

  /** wakeup_pure on the channel of a waiting parent. */
  function WakeWaiter(x: Proc, q: nat): Proc {
    if x.state == Sleeping && x.chan == WaitChan(q) then x.(state := Runnable) else x
  }

  predicate HasZombieChild(procs: seq<Proc>, p: nat) {
    exists z :: 0 <= z < |procs| && procs[z].parent == Some(p) && procs[z].state == Zombie
  }

  predicate HasChild(procs: seq<Proc>, p: nat) {
    exists z :: 0 <= z < |procs| && procs[z].parent == Some(p)
  }

  /** One process after p's exit: a waiting parent and a waiting init are woken,
    * p's children are handed to init, p is a zombie. */
  function AfterExit(procs: seq<Proc>, p: nat, init: nat, x: nat): Proc
    requires p < |procs| && x < |procs|
  {
    var a := if procs[p].parent.Some? then WakeWaiter(procs[x], procs[p].parent.value) else procs[x];
    var b := if HasZombieChild(procs, p) then WakeWaiter(a, init) else a;
    var c := if b.parent == Some(p) then b.(parent := Some(init)) else b;
    if x == p then c.(state := Zombie) else c
  }

  function ExitTable(procs: seq<Proc>, p: nat, init: nat): (r: seq<Proc>)
    requires p < |procs|
    ensures |r| == |procs| && forall x :: 0 <= x < |procs| ==> r[x] == AfterExit(procs, p, init, x)
  {
    seq(|procs|, x requires 0 <= x < |procs| => AfterExit(procs, p, init, x))
  }

  function WakeTable(procs: seq<Proc>, id: nat): (r: seq<Proc>)
    ensures |r| == |procs|
    ensures forall x :: 0 <= x < |procs| ==>
      r[x] ==
        if procs[x].state == Sleeping && procs[x].chan == Other(id) then procs[x].(state := Runnable) else procs[x]
  {
    seq(|procs|, x requires 0 <= x < |procs| =>
      if procs[x].state == Sleeping && procs[x].chan == Other(id) then procs[x].(state := Runnable) else procs[x])
  }

  /** A reaped slot. */
  function Reap(x: Proc): Proc {
    x.(state := Unused, pid := 0, parent := None, killed := false, hasStack := false)
  }

  predicate FirstZombie(procs: seq<Proc>, p: nat, z: nat) {
    && z < |procs| && procs[z].parent == Some(p) && procs[z].state == Zombie
    && forall y :: 0 <= y < z ==> !(procs[y].parent == Some(p) && procs[y].state == Zombie)
  }

  predicate FirstUnused(procs: seq<Proc>, z: nat) {
    z < |procs| && procs[z].state == Unused && forall y :: 0 <= y < z ==> procs[y].state != Unused
  }

  predicate FirstPid(procs: seq<Proc>, pid: nat, z: nat) {
    z < |procs| && procs[z].pid == pid && forall y :: 0 <= y < z ==> procs[y].pid != pid
  }

  predicate HasPid(procs: seq<Proc>, pid: nat) { exists y :: 0 <= y < |procs| && procs[y].pid == pid }

  predicate HasUnused(procs: seq<Proc>) { exists y :: 0 <= y < |procs| && procs[y].state == Unused }

  /** z is the slot where the scan of the process table stops, if it stops early. */
  predicate StopsAt(procs: seq<Proc>, p: nat, op: Op, z: nat) {
    && (op.Wait? && HasZombieChild(procs, p) ==> FirstZombie(procs, p, z))
    && (op.Kill? && HasPid(procs, op.pid) ==> FirstPid(procs, op.pid, z))
    && (op.Alloc? && HasUnused(procs) ==> FirstUnused(procs, z))
  }

  predicate Enabled(s: State, c: nat, step: Step) {
    c < |s.cpus| &&
    var cpu := s.cpus[c];
    match step
    case Acquire(op) => s.lock.None? && (cpu.pc.Idle? || (cpu.pc.Run? && (op.Exit? ==> cpu.proc != Some(s.init))))
    case Pick(p) => cpu.pc.Scan? && p < |s.procs| && s.procs[p].state == Runnable
    case Switch => cpu.pc.Jump? || cpu.pc.Sched?
    case Return => cpu.pc.Back?
    case Release => cpu.pc.Scan? || cpu.pc.ForkRet? || (cpu.pc.Resumed? && !cpu.pc.at.AtWait?)
    case Do(z) =>
      || (cpu.pc.Resumed? && cpu.pc.at.AtWait?)
      || (&& cpu.pc.Locked? && cpu.proc.Some? && cpu.proc.value < |s.procs|
          && StopsAt(s.procs, cpu.proc.value, cpu.pc.op, z))
    case SetupChild => cpu.pc.Forking? && cpu.pc.child < |s.procs|
    case FailChild => cpu.pc.Forking? && cpu.pc.child < |s.procs|
    case StartChild => cpu.pc.Forked? && cpu.pc.child < |s.procs| && s.lock.None?
  }

  /** The critical sections. p is the calling process. */
  function InLock(s: State, c: nat, p: nat, op: Op, z: nat): State
    requires c < |s.cpus| && p < |s.procs| && StopsAt(s.procs, p, op, z)
  {
    var cpu := s.cpus[c];
    var x := s.procs[p];
    var out := s.(lock := None, cpus := s.cpus[c := cpu.(pc := Run)]);     // release and go on
    match op
    case Yield =>
      s.(procs := s.procs[p := x.(state := Runnable)], cpus := s.cpus[c := cpu.(pc := Sched(AtYield))])
    case Sleep(id) =>
      s.(procs := s.procs[p := x.(state := Sleeping, chan := Other(id))],
          cpus := s.cpus[c := cpu.(pc := Sched(AtSleep))])
    case Wait =>
      if HasZombieChild(s.procs, p) then
        out.(procs := s.procs[z := Reap(s.procs[z])], reaped := s.reaped + [s.procs[z].pid])
      else if !HasChild(s.procs, p) || x.killed then out
      else s.(procs := s.procs[p := x.(state := Sleeping, chan := WaitChan(p))],
               cpus := s.cpus[c := cpu.(pc := Sched(AtWait))])
    case Exit =>
      s.(procs := ExitTable(s.procs, p, s.init), cpus := s.cpus[c := cpu.(pc := Sched(AtDead))])
    case Kill(pid) =>
      if HasPid(s.procs, pid) then
        var k := s.procs[z];
        out.(procs := s.procs[z := k.(killed := true, state := if k.state == Sleeping then Runnable else k.state)])
      else out
    case Wakeup(id) => out.(procs := WakeTable(s.procs, id))
    case Alloc =>
      if HasUnused(s.procs) then
        s.(lock := None, procs := s.procs[z := s.procs[z].(state := Embryo, pid := s.nextPid)],
            nextPid := s.nextPid + 1,
           cpus := s.cpus[c := cpu.(pc := Forking(z))])
      else out
  }

  ghost predicate WellTyped(s: State, c: nat)
    requires c < |s.cpus|
  {
    var cpu := s.cpus[c];
    && (OnProcStack(cpu.pc) ==> cpu.proc.Some? && cpu.proc.value < |s.procs|)
    && (cpu.pc.Jump? ==> cpu.pc.p < |s.procs|)
  }

  function After(s: State, c: nat, step: Step): State
    requires Enabled(s, c, step) && WellTyped(s, c)
  {
    var cpu := s.cpus[c];
    match step
    case Acquire(op) => s.(lock := Some(c), cpus := s.cpus[c := cpu.(pc := if cpu.pc.Idle? then Scan else Locked(op))])
    case Pick(p) =>
      s.(procs := s.procs[p := s.procs[p].(state := Running)],
         cpus := s.cpus[c := cpu.(pc := Jump(p), proc := Some(p), cr3 := Some(p))])
    case Switch =>
      if cpu.pc.Jump? then
        var at := s.procs[cpu.pc.p].resume;
        s.(cpus := s.cpus[c := cpu.(stack := OnProc(cpu.pc.p), pc := if at.AtForkRet? then ForkRet else Resumed(at))])
      else
        var p := cpu.proc.value;
        s.(procs := s.procs[p := s.procs[p].(resume := cpu.pc.at)],
           cpus := s.cpus[c := cpu.(stack := OnScheduler, pc := Back)])
    case Return => s.(cpus := s.cpus[c := cpu.(cr3 := None, proc := None, pc := Scan)])
    case Release =>
      var cpus := s.cpus[c := cpu.(pc := if cpu.pc.Scan? then Idle else Run)];
      if cpu.pc.Resumed? && cpu.pc.at.AtSleep? then
        s.(lock := None, cpus := cpus, procs := s.procs[cpu.proc.value := s.procs[cpu.proc.value].(chan := NoChan)])
      else s.(lock := None, cpus := cpus)
    case Do(z) =>
      var p := cpu.proc.value;
      if cpu.pc.Resumed? then
        s.(procs := s.procs[p := s.procs[p].(chan := NoChan)], cpus := s.cpus[c := cpu.(pc := Locked(Wait))])
      else InLock(s, c, p, cpu.pc.op, z)
    case SetupChild =>
      var ch := cpu.pc.child;
      s.(procs := s.procs[ch := s.procs[ch].(hasStack := true, parent := cpu.proc, resume := AtForkRet)],
         cpus := s.cpus[c := cpu.(pc := Forked(ch))])
    case FailChild =>
      var ch := cpu.pc.child;
      s.(procs := s.procs[ch := s.procs[ch].(state := Unused, hasStack := false)], cpus := s.cpus[c := cpu.(pc := Run)])
    case StartChild =>
      var ch := cpu.pc.child;
      s.(procs := s.procs[ch := s.procs[ch].(state := Runnable)], cpus := s.cpus[c := cpu.(pc := Run)])
  }

  // ---- the invariant --------------------------------------------------------------

  predicate ReadyChild(y: Proc, parent: Option<nat>) {
    y.state == Embryo && y.parent == parent && y.hasStack && y.resume == AtForkRet
  }

  /** What a CPU is doing fits the process it runs. */
  ghost predicate CpuOk(s: State, c: nat)
    requires c < |s.cpus|
  {
    var cpu := s.cpus[c];
    && (HoldsLock(cpu.pc) <==> s.lock == Some(c))
    && (cpu.pc.Idle? || cpu.pc.Scan? ==> cpu.stack == OnScheduler && cpu.proc == None && cpu.cr3 == None)
    && (!cpu.pc.Idle? && !cpu.pc.Scan? ==>
          && cpu.proc.Some? && cpu.proc.value < |s.procs| && cpu.cr3 == cpu.proc
          && cpu.stack == (if OnProcStack(cpu.pc) then OnProc(cpu.proc.value) else OnScheduler)
          && var x := s.procs[cpu.proc.value];
             match cpu.pc
             case Jump(p) => cpu.proc == Some(p) && x.state == Running
             case Back => x.state == Runnable || x.state == Sleeping || x.state == Zombie
             case Sched(at) =>
               (match at case AtYield => x.state == Runnable case AtDead => x.state == Zombie
                         case AtForkRet => false case _ => x.state == Sleeping)
             case Locked(op) => x.state == Running && (op.Exit? ==> cpu.proc.value != s.init)
             case Resumed(at) => x.state == Running && !at.AtDead? && !at.AtForkRet?
             case _ => x.state == Running)
    && (cpu.pc.Forking? ==> cpu.pc.child < |s.procs| && s.procs[cpu.pc.child].state == Embryo
                            && s.procs[cpu.pc.child].parent == None)
    && (cpu.pc.Forked? ==> cpu.pc.child < |s.procs| && ReadyChild(s.procs[cpu.pc.child], cpu.proc))
  }

  /** Two CPUs never share a process, nor a child under construction. */
  ghost predicate PairOk(s: State, c: nat, d: nat)
    requires c < |s.cpus| && d < |s.cpus|
  {
    c != d ==>
      && (s.cpus[c].proc.Some? ==> s.cpus[c].proc != s.cpus[d].proc)
      && (Child(s.cpus[c].pc).Some? ==> Child(s.cpus[c].pc) != Child(s.cpus[d].pc))
  }

  ghost predicate OnSomeCpu(s: State, p: nat) {
    exists c :: 0 <= c < |s.cpus| && s.cpus[c].proc == Some(p)
  }

  ghost predicate ProcOk(s: State, p: nat)
    requires p < |s.procs|
  {
    var x := s.procs[p];
    && (x.state == Running ==> OnSomeCpu(s, p))
    && (Live(x.state) || x.state == Zombie ==> x.hasStack && (p != s.init ==> x.parent.Some?))
    && (x.state == Unused ==> x.parent == None)
    && (p == s.init ==> Live(x.state) && x.parent == None) && x.parent != Some(p)
    && (x.parent.Some? ==> x.parent.value < |s.procs| && Live(s.procs[x.parent.value].state))
    && (Live(x.state) ==> x.resume != AtDead)
    && (x.state == Sleeping && x.chan.WaitChan? ==>
          x.chan.proc == p && HasChild(s.procs, p) && !HasZombieChild(s.procs, p) && !x.killed)
    && x.pid < s.nextPid && (x.state != Unused ==> 0 < x.pid && x.pid !in s.reaped)
  }

  ghost predicate PidsOk(s: State, p: nat, q: nat)
    requires p < |s.procs| && q < |s.procs|
  {
    p != q && s.procs[p].pid != 0 && s.procs[q].pid != 0 ==> s.procs[p].pid != s.procs[q].pid
  }

  ghost predicate ReapedOk(s: State) {
    && (forall i :: 0 <= i < |s.reaped| ==> s.reaped[i] < s.nextPid)
    && (forall i, j :: 0 <= i < j < |s.reaped| ==> s.reaped[i] != s.reaped[j])
  }

  ghost predicate Inv(s: State) {
    && s.init < |s.procs| && (s.lock.Some? ==> s.lock.value < |s.cpus|)
    && (forall c :: 0 <= c < |s.cpus| ==> CpuOk(s, c))
    && (forall c, d :: 0 <= c < |s.cpus| && 0 <= d < |s.cpus| ==> PairOk(s, c, d))
    && (forall p :: 0 <= p < |s.procs| ==> ProcOk(s, p))
    && (forall p, q :: 0 <= p < |s.procs| && 0 <= q < |s.procs| ==> PidsOk(s, p, q))
    && ReapedOk(s)
  }

  /** The table after user_init: init alone, not yet run. */
  ghost predicate Init(s: State) {
    && s.init < |s.procs| && s.lock == None && s.reaped == [] && s.nextPid == 2
    && (forall c :: 0 <= c < |s.cpus| ==> s.cpus[c] == Cpu(Idle, OnScheduler, None, None))
    && (forall p :: 0 <= p < |s.procs| ==>
          s.procs[p] == if p == s.init then Proc(Runnable, 1, None, NoChan, false, true, AtForkRet)
                        else Proc(Unused, 0, None, NoChan, false, false, AtForkRet))
  }

  lemma InitInv(s: State)
    requires Init(s)
    ensures Inv(s)
  {
    forall c, d | 0 <= c < |s.cpus| && 0 <= d < |s.cpus| ensures PairOk(s, c, d) {}
    forall p | 0 <= p < |s.procs| ensures ProcOk(s, p) {}
    forall p, q | 0 <= p < |s.procs| && 0 <= q < |s.procs| ensures PidsOk(s, p, q) {}
  }

  // ---- every step keeps it: steps that change CPUs only ----------------------------

  /** The table is the same, and every process that ran somewhere still does. */
  lemma SameTable(s: State, s': State)
    requires Inv(s) && s'.procs == s.procs && s'.nextPid == s.nextPid && s'.init == s.init && s'.reaped == s.reaped
    requires s'.lock.Some? ==> s'.lock.value < |s'.cpus|
    requires forall p :: 0 <= p < |s.procs| && OnSomeCpu(s, p) && s.procs[p].state == Running ==> OnSomeCpu(s', p)
    requires forall c :: 0 <= c < |s'.cpus| ==> CpuOk(s', c)
    requires forall c, d :: 0 <= c < |s'.cpus| && 0 <= d < |s'.cpus| ==> PairOk(s', c, d)
    ensures Inv(s')
  {
    forall p | 0 <= p < |s'.procs| ensures ProcOk(s', p) { assert ProcOk(s, p); }
    forall p, q | 0 <= p < |s'.procs| && 0 <= q < |s'.procs| ensures PidsOk(s', p, q) { assert PidsOk(s, p, q); }
  }

  lemma CpuStepOk(s: State, c: nat, step: Step, d: nat)
    requires Inv(s) && Enabled(s, c, step) && CpuOk(s, c) && d < |s.cpus|
    requires step.Acquire? || step.Return? || (step.Switch? && s.cpus[c].pc.Jump?)
             || (step.Release? && !(s.cpus[c].pc.Resumed? && s.cpus[c].pc.at.AtSleep?))
    ensures d < |After(s, c, step).cpus| && CpuOk(After(s, c, step), d)
  {
    if s.cpus[c].proc.Some? { assert ProcOk(s, s.cpus[c].proc.value); }
    assert CpuOk(s, d);
  }

  lemma CpuStep(s: State, c: nat, step: Step)
    requires Inv(s) && Enabled(s, c, step) && CpuOk(s, c)
    requires step.Acquire? || step.Return? || (step.Switch? && s.cpus[c].pc.Jump?)
             || (step.Release? && !(s.cpus[c].pc.Resumed? && s.cpus[c].pc.at.AtSleep?))
    ensures Inv(After(s, c, step))
  {
    var s' := After(s, c, step);
    forall d | 0 <= d < |s'.cpus| ensures CpuOk(s', d) { CpuStepOk(s, c, step, d); }
    forall d, e | 0 <= d < |s'.cpus| && 0 <= e < |s'.cpus| ensures PairOk(s', d, e) { assert PairOk(s, d, e); }
    forall p | 0 <= p < |s.procs| && OnSomeCpu(s, p) && s.procs[p].state == Running ensures OnSomeCpu(s', p) {
      var d :| 0 <= d < |s.cpus| && s.cpus[d].proc == Some(p);
      assert s'.cpus[d].proc == Some(p);
    }
    SameTable(s, s');
  }

  // ---- steps that change one process ----------------------------------------------

  /** Only process y changed, and neither its family nor its identity. */
  ghost predicate OneChanged(s: State, s': State, y: nat) {
    && y < |s.procs| == |s'.procs| && (forall p :: 0 <= p < |s.procs| && p != y ==> s'.procs[p] == s.procs[p])
    && s'.nextPid == s.nextPid && s'.init == s.init && s'.reaped == s.reaped
    && var a, b := s.procs[y], s'.procs[y];
    && b.parent == a.parent && b.pid == a.pid && b.hasStack == a.hasStack
    && (a.state == Zombie <==> b.state == Zombie) && (a.state == Unused <==> b.state == Unused)
    && (Live(a.state) ==> Live(b.state))
  }

  lemma FamilySame(procs: seq<Proc>, procs': seq<Proc>, p: nat)
    requires |procs| == |procs'|
    requires forall x :: 0 <= x < |procs| ==>
               procs'[x].parent == procs[x].parent && (procs'[x].state == Zombie <==> procs[x].state == Zombie)
    ensures HasChild(procs', p) <==> HasChild(procs, p)
    ensures HasZombieChild(procs', p) <==> HasZombieChild(procs, p)
  {
    if HasChild(procs, p) {
      var z :| 0 <= z < |procs| && procs[z].parent == Some(p);
      assert procs'[z].parent == Some(p);
    }
    if HasZombieChild(procs, p) {
      var z :| 0 <= z < |procs| && procs[z].parent == Some(p) && procs[z].state == Zombie;
      assert procs'[z].parent == Some(p) && procs'[z].state == Zombie;
    }
  }

  lemma OneProc(s: State, s': State, y: nat)
    requires Inv(s) && OneChanged(s, s', y) && ProcOk(s', y)
    requires s'.lock.Some? ==> s'.lock.value < |s'.cpus|
    requires forall p ::
               0 <= p < |s.procs| && p != y && OnSomeCpu(s, p) && s.procs[p].state == Running ==> OnSomeCpu(s', p)
    requires forall c :: 0 <= c < |s'.cpus| ==> CpuOk(s', c)
    requires forall c, d :: 0 <= c < |s'.cpus| && 0 <= d < |s'.cpus| ==> PairOk(s', c, d)
    ensures Inv(s')
  {
    forall p | 0 <= p < |s'.procs| ensures ProcOk(s', p) {
      assert ProcOk(s, p) && ProcOk(s, y);
      FamilySame(s.procs, s'.procs, p);
    }
    forall p, q | 0 <= p < |s'.procs| && 0 <= q < |s'.procs| ensures PidsOk(s', p, q) { assert PidsOk(s, p, q); }
  }

  /** The CPUs after a step of CPU c in which no CPU changes its process. */
  lemma SameCpus(s: State, s': State, c: nat)
    requires Inv(s) && c < |s.cpus| == |s'.cpus|
    requires forall d :: 0 <= d < |s.cpus| && d != c ==> s'.cpus[d] == s.cpus[d]
    requires s'.cpus[c].proc == s.cpus[c].proc
    requires Child(s'.cpus[c].pc) == None || Child(s'.cpus[c].pc) == Child(s.cpus[c].pc)
    ensures forall d, e :: 0 <= d < |s'.cpus| && 0 <= e < |s'.cpus| ==> PairOk(s', d, e)
    ensures forall p: nat :: OnSomeCpu(s, p) ==> OnSomeCpu(s', p)
  {
    forall d, e | 0 <= d < |s'.cpus| && 0 <= e < |s'.cpus| ensures PairOk(s', d, e) { assert PairOk(s, d, e); }
    forall p: nat | OnSomeCpu(s, p) ensures OnSomeCpu(s', p) {
      var d :| 0 <= d < |s.cpus| && s.cpus[d].proc == Some(p);
      assert s'.cpus[d].proc == Some(p);
    }
  }

  lemma PickStep(s: State, c: nat, p: nat)
    requires Inv(s) && Enabled(s, c, Pick(p)) && CpuOk(s, c)
    ensures Inv(After(s, c, Pick(p)))
  {
    var s' := After(s, c, Pick(p));
    assert ProcOk(s, p);
    FamilySame(s.procs, s'.procs, p);
    assert OnSomeCpu(s', p) by { assert s'.cpus[c].proc == Some(p); }
    if s.procs[p].parent.Some? && s.procs[p].parent.value != p { assert ProcOk(s, s.procs[p].parent.value); }
    forall d | 0 <= d < |s'.cpus| ensures CpuOk(s', d) { assert CpuOk(s, d); }
    forall d | 0 <= d < |s.cpus| ensures s.cpus[d].proc != Some(p) { assert CpuOk(s, d); }
    forall d, e | 0 <= d < |s'.cpus| && 0 <= e < |s'.cpus| ensures PairOk(s', d, e) { assert PairOk(s, d, e); }
    forall q | 0 <= q < |s.procs| && q != p && OnSomeCpu(s, q) && s.procs[q].state == Running ensures OnSomeCpu(s', q) {
      var d :| 0 <= d < |s.cpus| && s.cpus[d].proc == Some(q);
      assert s'.cpus[d].proc == Some(q);
    }
    OneProc(s, s', p);
  }

  lemma InvCpu(s: State, c: nat)
    requires Inv(s) && c < |s.cpus|
    ensures CpuOk(s, c) && s.init < |s.procs| && (s.lock.Some? ==> s.lock.value < |s.cpus|)
  {
  }

  lemma InvPair(s: State, c: nat, d: nat)
    requires Inv(s) && c < |s.cpus| && d < |s.cpus|
    ensures CpuOk(s, d) && PairOk(s, c, d) && PairOk(s, d, c)
  {
  }

  lemma InvProc(s: State, p: nat)
    requires Inv(s) && p < |s.procs|
    ensures ProcOk(s, p)
  {
  }

  /** A CPU other than the one that moves, when process y changes. */
  lemma OtherCpu(s: State, s': State, y: nat, d: nat)
    requires d < |s.cpus| && d < |s'.cpus| && CpuOk(s, d) && s'.cpus[d] == s.cpus[d] && s'.init == s.init
    requires s'.lock == Some(d) <==> s.lock == Some(d)
    requires |s'.procs| == |s.procs| && forall p :: 0 <= p < |s.procs| && p != y ==> s'.procs[p] == s.procs[p]
    requires y < |s.procs| ==>
               || (s.cpus[d].proc != Some(y) && Child(s.cpus[d].pc) != Some(y))
               || (s'.procs[y].state == s.procs[y].state && s'.procs[y].parent == s.procs[y].parent
                   && s'.procs[y].hasStack == s.procs[y].hasStack && s'.procs[y].resume == s.procs[y].resume)
    ensures CpuOk(s', d)
  {
  }

  /** The state part of process y that other CPUs rely on is the same. */
  predicate SameStatus(s: State, s': State, y: nat)
    requires y < |s.procs| && y < |s'.procs|
  {
    && s'.procs[y].state == s.procs[y].state && s'.procs[y].parent == s.procs[y].parent
    && s'.procs[y].hasStack == s.procs[y].hasStack && s'.procs[y].resume == s.procs[y].resume
  }

  /** CPU c moves and process y changes; nothing else does. */
  ghost predicate Moves(s: State, s': State, c: nat) {
    && c < |s.cpus| == |s'.cpus| && (forall d :: 0 <= d < |s.cpus| && d != c ==> s'.cpus[d] == s.cpus[d])
    && s'.cpus[c].proc == s.cpus[c].proc
    && (Child(s'.cpus[c].pc) == None || Child(s'.cpus[c].pc) == Child(s.cpus[c].pc))
    && (s'.lock == s.lock || (s'.lock == None && s.lock == Some(c)))
  }

  lemma MoveOne(s: State, s': State, c: nat, y: nat)
    requires Inv(s) && Moves(s, s', c) && OneChanged(s, s', y) && CpuOk(s', c) && ProcOk(s', y)
    requires SameStatus(s, s', y) || s.cpus[c].proc == Some(y) || Child(s.cpus[c].pc) == Some(y)
             || (&& s.lock == Some(c) && s.procs[y].state == Sleeping
                 && s'.procs[y] == s.procs[y].(state := Runnable, killed := true))
    ensures Inv(s')
  {
    hide Inv;
    InvCpu(s, c);
    SameCpus(s, s', c);
    forall d | 0 <= d < |s'.cpus| ensures CpuOk(s', d) {
      InvPair(s, c, d);
      InvPair(s, d, c);
      if d != c {
        if s.cpus[c].proc == Some(y) { NotMyChild(s, d, y); }
        if Child(s.cpus[c].pc) == Some(y) { NotMyProc(s, c, d, y); }
        OtherCpu(s, s', y, d);
      }
    }
    OneProc(s, s', y);
  }

  /** A process that some CPU runs, or is giving up, is not a child under construction. */
  lemma NotMyChild(s: State, d: nat, y: nat)
    requires Inv(s) && d < |s.cpus| && y < |s.procs| && OnSomeCpu(s, y)
    ensures Child(s.cpus[d].pc) != Some(y)
  {
    var c :| 0 <= c < |s.cpus| && s.cpus[c].proc == Some(y);
    assert CpuOk(s, c) && CpuOk(s, d);
  }

  lemma NotMyProc(s: State, c: nat, d: nat, y: nat)
    requires Inv(s) && c < |s.cpus| && d < |s.cpus| && c != d && Child(s.cpus[c].pc) == Some(y)
    ensures s.cpus[d].proc != Some(y) && Child(s.cpus[d].pc) != Some(y)
  {
    assert CpuOk(s, c) && CpuOk(s, d) && PairOk(s, c, d);
  }

  /** Steps in which the running process changes fields of its own entry. */
  lemma OwnStep(s: State, c: nat, step: Step)
    requires Inv(s) && Enabled(s, c, step) && CpuOk(s, c)
    requires || (step.Switch? && s.cpus[c].pc.Sched?)
             || (step.Release? && s.cpus[c].pc.Resumed? && s.cpus[c].pc.at.AtSleep?)
             || (step.Do? && s.cpus[c].pc.Resumed?)
    ensures Inv(After(s, c, step))
  {
    hide Inv, HasZombieChild, HasChild, HasPid, HasUnused;
    InvCpu(s, c);
    var s' := After(s, c, step);
    var p := s.cpus[c].proc.value;
    InvProc(s, p);
    FamilySame(s.procs, s'.procs, p);
    SameCpus(s, s', c);
    MoveOne(s, s', c, p);
  }

  /** yield and sleep. */
  lemma GiveUpStep(s: State, c: nat, z: nat)
    requires Inv(s) && Enabled(s, c, Do(z)) && CpuOk(s, c) && s.cpus[c].pc.Locked?
    requires s.cpus[c].pc.op.Yield? || s.cpus[c].pc.op.Sleep?
    ensures Inv(After(s, c, Do(z)))
  {
    hide Inv, HasZombieChild, HasChild, HasPid, HasUnused;
    InvCpu(s, c);
    var s' := After(s, c, Do(z));
    var p := s.cpus[c].proc.value;
    InvProc(s, p);
    FamilySame(s.procs, s'.procs, p);
    MoveOne(s, s', c, p);
  }

  /** A wait that finds nothing to reap: it returns, or sleeps with the lock held since the scan. */
  lemma WaitStep(s: State, c: nat, z: nat)
    requires Inv(s) && Enabled(s, c, Do(z)) && CpuOk(s, c) && s.cpus[c].pc == Locked(Wait)
    requires !HasZombieChild(s.procs, s.cpus[c].proc.value)
    ensures Inv(After(s, c, Do(z)))
  {
    hide Inv, HasZombieChild, HasChild, HasPid, HasUnused;
    InvCpu(s, c);
    var s' := After(s, c, Do(z));
    var p := s.cpus[c].proc.value;
    InvProc(s, p);
    FamilySame(s.procs, s'.procs, p);
    SameCpus(s, s', c);
    MoveOne(s, s', c, p);
  }

  lemma KillStep(s: State, c: nat, z: nat)
    requires Inv(s) && Enabled(s, c, Do(z)) && CpuOk(s, c) && s.cpus[c].pc.Locked? && s.cpus[c].pc.op.Kill?
    ensures Inv(After(s, c, Do(z)))
  {
    hide Inv, HasZombieChild, HasChild, HasPid, HasUnused;
    InvCpu(s, c);
    var s' := After(s, c, Do(z));
    var y := if HasPid(s.procs, s.cpus[c].pc.op.pid) then z else s.cpus[c].proc.value;
    InvProc(s, y);
    FamilySame(s.procs, s'.procs, y);
    SameCpus(s, s', c);
    if s.procs[y].state == Running { assert OnSomeCpu(s', y); }
    MoveOne(s, s', c, y);
  }

  lemma StartStep(s: State, c: nat)
    requires Inv(s) && Enabled(s, c, StartChild) && CpuOk(s, c)
    ensures Inv(After(s, c, StartChild))
  {
    hide Inv, HasZombieChild, HasChild;
    InvCpu(s, c);
    var s' := After(s, c, StartChild);
    var y := s.cpus[c].pc.child;
    InvProc(s, y);
    FamilySame(s.procs, s'.procs, y);
    MoveOne(s, s', c, y);
  }

  // ---- steps that change the table as a whole ---------------------------------------

  /** The invariant from its parts, when CPU c moves and the CPUs keep their processes. */
  lemma MoveMany(s: State, s': State, c: nat)
    requires Inv(s) && Moves(s, s', c) && s'.init == s.init < |s'.procs| && CpuOk(s', c) && ReapedOk(s')
    requires forall d :: 0 <= d < |s.cpus| && d != c ==> CpuOk(s', d)
    requires forall p :: 0 <= p < |s'.procs| ==> ProcOk(s', p)
    requires forall p, q :: 0 <= p < |s'.procs| && 0 <= q < |s'.procs| ==> PidsOk(s', p, q)
    ensures Inv(s')
  {
    SameCpus(s, s', c);
  }

  /** While CPU c holds the lock, no other CPU has a process that is not RUNNING. */
  lemma OthersRun(s: State, c: nat, d: nat)
    requires Inv(s) && c < |s.cpus| && d < |s.cpus| && c != d && s.lock == Some(c)
    ensures CpuOk(s, d)
    ensures s.cpus[d].proc.Some? ==> s.cpus[d].proc.value < |s.procs| && s.procs[s.cpus[d].proc.value].state == Running
    ensures Child(s.cpus[d].pc).Some? ==>
              Child(s.cpus[d].pc).value < |s.procs| && s.procs[Child(s.cpus[d].pc).value].state == Embryo
    ensures s.cpus[c].proc.Some? ==> s.cpus[d].proc != s.cpus[c].proc
  {
    assert CpuOk(s, d) && PairOk(s, c, d);
  }

  lemma WakeupStep(s: State, c: nat, z: nat)
    requires Inv(s) && Enabled(s, c, Do(z)) && CpuOk(s, c) && s.cpus[c].pc.Locked? && s.cpus[c].pc.op.Wakeup?
    ensures Inv(After(s, c, Do(z)))
  {
    hide Inv, HasZombieChild, HasChild, HasPid, HasUnused;
    InvCpu(s, c);
    var s' := After(s, c, Do(z));
    SameCpus(s, s', c);
    forall d | 0 <= d < |s.cpus| && d != c ensures CpuOk(s', d) { OthersRun(s, c, d); }
    forall p | 0 <= p < |s'.procs| ensures ProcOk(s', p) {
      InvProc(s, p);
      FamilySame(s.procs, s'.procs, p);
      if s.procs[p].parent.Some? { assert s.procs[p].parent.value < |s.procs|; }
    }
    forall p, q | 0 <= p < |s'.procs| && 0 <= q < |s'.procs| ensures PidsOk(s', p, q) { InvPids(s, p, q); }
    InvReaped(s);
    MoveMany(s, s', c);
  }

  lemma InvPids(s: State, p: nat, q: nat)
    requires Inv(s) && p < |s.procs| && q < |s.procs|
    ensures PidsOk(s, p, q)
  {
  }

  lemma InvReaped(s: State)
    requires Inv(s)
    ensures ReapedOk(s)
  {
  }

  /** wait reaps z. No CPU is on its stack or uses its page table. */
  lemma ReapSafe(s: State, c: nat, z: nat)
    requires Inv(s) && Enabled(s, c, Do(z)) && s.cpus[c].pc == Locked(Wait)
    requires HasZombieChild(s.procs, s.cpus[c].proc.value)
    ensures z < |s.procs| && s.procs[z].state == Zombie
    ensures forall d :: 0 <= d < |s.cpus| ==>
              s.cpus[d].stack != OnProc(z) && s.cpus[d].cr3 != Some(z) && s.cpus[d].proc != Some(z)
              && Child(s.cpus[d].pc) != Some(z)
  {
    forall d | 0 <= d < |s.cpus|
      ensures s.cpus[d].stack != OnProc(z) && s.cpus[d].cr3 != Some(z) && s.cpus[d].proc != Some(z)
              && Child(s.cpus[d].pc) != Some(z)
    {
      assert CpuOk(s, c) && CpuOk(s, d);
    }
  }

  lemma FamilyReaped(procs: seq<Proc>, z: nat, p: nat, q: nat)
    requires z < |procs| && procs[z].parent == Some(p) && q != p
    ensures var procs' := procs[z := Reap(procs[z])];
            (HasChild(procs', q) <==> HasChild(procs, q)) && (HasZombieChild(procs', q) <==> HasZombieChild(procs, q))
  {
    var procs' := procs[z := Reap(procs[z])];
    if HasChild(procs, q) {
      var y :| 0 <= y < |procs| && procs[y].parent == Some(q);
      assert procs'[y].parent == Some(q);
    }
    if HasZombieChild(procs, q) {
      var y :| 0 <= y < |procs| && procs[y].parent == Some(q) && procs[y].state == Zombie;
      assert procs'[y].parent == Some(q) && procs'[y].state == Zombie;
    }
  }

  lemma ReapedProc(s: State, c: nat, z: nat, q: nat)
    requires Inv(s) && Enabled(s, c, Do(z)) && CpuOk(s, c) && s.cpus[c].pc == Locked(Wait) && q < |s.procs|
    requires HasZombieChild(s.procs, s.cpus[c].proc.value)
    ensures q < |After(s, c, Do(z)).procs| && ProcOk(After(s, c, Do(z)), q)
  {
    hide Inv, HasZombieChild, HasChild, HasPid, HasUnused;
    InvCpu(s, c);
    var p := s.cpus[c].proc.value;
    ReapSafe(s, c, z);
    SameCpus(s, After(s, c, Do(z)), c);
    InvProc(s, z);
    InvProc(s, q);
    InvPids(s, z, q);
    if q != p { FamilyReaped(s.procs, z, p, q); }
  }

  lemma ReapStep(s: State, c: nat, z: nat)
    requires Inv(s) && Enabled(s, c, Do(z)) && CpuOk(s, c) && s.cpus[c].pc == Locked(Wait)
    requires HasZombieChild(s.procs, s.cpus[c].proc.value)
    ensures Inv(After(s, c, Do(z)))
  {
    hide Inv, ProcOk, HasZombieChild, HasChild, HasPid, HasUnused;
    InvCpu(s, c);
    var s' := After(s, c, Do(z));
    var p := s.cpus[c].proc.value;
    ReapSafe(s, c, z);
    SameCpus(s, s', c);
    InvReaped(s);
    InvProc(s, z);
    forall d | 0 <= d < |s.cpus| && d != c ensures CpuOk(s', d) { OthersRun(s, c, d); }
    forall q | 0 <= q < |s'.procs| ensures ProcOk(s', q) { ReapedProc(s, c, z, q); }
    forall a, b | 0 <= a < |s'.procs| && 0 <= b < |s'.procs| ensures PidsOk(s', a, b) { InvPids(s, a, b); }
    MoveMany(s, s', c);
  }

  // ---- exit ------------------------------------------------------------------------

  /** After p's exit, q's children are q's old ones, or for init also p's; the only new zombie is p. */
  lemma FamilyAfterExit(procs: seq<Proc>, p: nat, init: nat, q: nat)
    requires p < |procs| && q != p && procs[p].state != Zombie && init != p
    requires procs[p].parent != Some(p)
    ensures var procs' := ExitTable(procs, p, init);
            && (HasChild(procs, q) ==> HasChild(procs', q))
            && (HasZombieChild(procs', q) ==> HasZombieChild(procs, q) || procs[p].parent == Some(q)
                                              || (q == init && HasZombieChild(procs, p)))
  {
    var procs' := ExitTable(procs, p, init);
    if HasChild(procs, q) {
      var y :| 0 <= y < |procs| && procs[y].parent == Some(q);
      assert procs'[y].parent == Some(q);
    }
    if HasZombieChild(procs', q) {
      var y :| 0 <= y < |procs'| && procs'[y].parent == Some(q) && procs'[y].state == Zombie;
      assert y != p ==> procs[y].state == Zombie;
      assert procs[y].parent == Some(q) || (q == init && procs[y].parent == Some(p));
    }
  }

  /** What exit does to one process: at most a wakeup and a new parent. */
  lemma ExitEffect(procs: seq<Proc>, p: nat, init: nat, q: nat)
    requires p < |procs| && q < |procs|
    ensures var a, b := procs[q], AfterExit(procs, p, init, q);
            && b == a.(state := b.state, parent := b.parent)
            && b.parent == (if a.parent == Some(p) then Some(init) else a.parent)
            && (q != p ==> b.state == a.state || (a.state == Sleeping && b.state == Runnable))
            && (q == p ==> b.state == Zombie)
            && (q != p && b.state == Sleeping && a.chan == WaitChan(q) ==>
                  procs[p].parent != Some(q) && (q == init ==> !HasZombieChild(procs, p)))
  {
  }

  lemma ExitProc(s: State, s': State, p: nat, q: nat)
    requires p < |s.procs| && q < |s.procs| && s.init < |s.procs| && p != s.init && s.procs[p].state == Running
    requires s' == s.(procs := ExitTable(s.procs, p, s.init), cpus := s'.cpus)
    requires ProcOk(s, p) && ProcOk(s, q) && ProcOk(s, s.init) && (OnSomeCpu(s, q) ==> OnSomeCpu(s', q))
    ensures ProcOk(s', q)
  {
    hide HasZombieChild, HasChild, OnSomeCpu, AfterExit;
    ExitEffect(s.procs, p, s.init, q);
    ExitEffect(s.procs, p, s.init, s.init);
    if s.procs[q].parent.Some? { ExitEffect(s.procs, p, s.init, s.procs[q].parent.value); }
    if q != p { FamilyAfterExit(s.procs, p, s.init, q); }
  }

  lemma ExitStep(s: State, c: nat, z: nat)
    requires Inv(s) && Enabled(s, c, Do(z)) && CpuOk(s, c) && s.cpus[c].pc == Locked(Exit)
    ensures Inv(After(s, c, Do(z)))
  {
    hide Inv, HasZombieChild, HasChild, HasPid, HasUnused, OnSomeCpu, AfterExit;
    InvCpu(s, c);
    var s' := After(s, c, Do(z));
    InvReaped(s);
    SameCpus(s, s', c);
    var p := s.cpus[c].proc.value;
    ExitEffect(s.procs, p, s.init, p);
    forall d | 0 <= d < |s.cpus| && d != c ensures CpuOk(s', d) { ExitCpu(s, s', c, d, p); }
    forall q | 0 <= q < |s'.procs| ensures ProcOk(s', q) {
      InvProc(s, p);
      InvProc(s, q);
      InvProc(s, s.init);
      ExitProc(s, s', p, q);
    }
    forall a, b | 0 <= a < |s'.procs| && 0 <= b < |s'.procs| ensures PidsOk(s', a, b) {
      InvPids(s, a, b);
      ExitEffect(s.procs, p, s.init, a);
      ExitEffect(s.procs, p, s.init, b);
    }
    MoveMany(s, s', c);
  }

  lemma ExitCpu(s: State, s': State, c: nat, d: nat, p: nat)
    requires Inv(s) && c < |s.cpus| && d < |s.cpus| && c != d && s.lock == Some(c) && s.cpus[c].proc == Some(p)
    requires p < |s.procs| && s.procs[p].state == Running
    requires s' == s.(procs := ExitTable(s.procs, p, s.init), cpus := s'.cpus)
    requires |s'.cpus| == |s.cpus| && s'.cpus[d] == s.cpus[d]
    ensures CpuOk(s', d)
  {
    hide Inv, HasZombieChild, AfterExit;
    OthersRun(s, c, d);
    if s.cpus[d].proc.Some? { ExitEffect(s.procs, p, s.init, s.cpus[d].proc.value); }
    var ch := Child(s.cpus[d].pc);
    if ch.Some? { ExitEffect(s.procs, p, s.init, ch.value); }
  }

  // ---- fork ------------------------------------------------------------------------

  lemma AllocCpus(s: State, c: nat, z: nat)
    requires Inv(s) && Enabled(s, c, Do(z)) && CpuOk(s, c) && s.cpus[c].pc == Locked(Alloc) && HasUnused(s.procs)
    ensures var s' := After(s, c, Do(z));
            && (forall d :: 0 <= d < |s'.cpus| ==> CpuOk(s', d))
            && (forall d, e :: 0 <= d < |s'.cpus| && 0 <= e < |s'.cpus| ==> PairOk(s', d, e))
  {
    hide Inv, HasZombieChild, HasChild, HasPid;
    InvCpu(s, c);
    var s' := After(s, c, Do(z));
    InvProc(s, z);
    forall d | 0 <= d < |s.cpus| ensures CpuOk(s', d) { if d != c { OthersRun(s, c, d); } }
    forall d, e | 0 <= d < |s'.cpus| && 0 <= e < |s'.cpus| ensures PairOk(s', d, e) {
      InvPair(s, d, e);
      if d != c { OthersRun(s, c, d); }
      if e != c { OthersRun(s, c, e); }
    }
  }

  lemma AllocStep(s: State, c: nat, z: nat)
    requires Inv(s) && Enabled(s, c, Do(z)) && CpuOk(s, c) && s.cpus[c].pc == Locked(Alloc) && HasUnused(s.procs)
    ensures Inv(After(s, c, Do(z)))
  {
    hide Inv, HasZombieChild, HasChild, HasPid, CpuOk, PairOk, OnSomeCpu;
    InvCpu(s, c);
    assert WellTyped(s, c) by { InvTyped(s, c); }
    var s' := After(s, c, Do(z));
    InvReaped(s);
    InvProc(s, z);
    InvProc(s, s.init);
    AllocCpus(s, c, z);
    forall q | 0 <= q < |s'.procs| ensures ProcOk(s', q) {
      InvProc(s, q);
      FamilySame(s.procs, s'.procs, q);
      if OnSomeCpu(s, q) { StillOn(s, s', q); }
    }
    forall a, b | 0 <= a < |s'.procs| && 0 <= b < |s'.procs| ensures PidsOk(s', a, b) {
      InvPids(s, a, b);
      InvProc(s, a);
      InvProc(s, b);
    }
    InvFrom(s');
  }

  lemma InvTyped(s: State, c: nat)
    requires Inv(s) && c < |s.cpus|
    ensures WellTyped(s, c)
  {
    assert CpuOk(s, c);
  }

  lemma StillOn(s: State, s': State, p: nat)
    requires OnSomeCpu(s, p) && |s'.cpus| == |s.cpus|
    requires forall d :: 0 <= d < |s.cpus| ==> s'.cpus[d].proc == s.cpus[d].proc
    ensures OnSomeCpu(s', p)
  {
    var d :| 0 <= d < |s.cpus| && s.cpus[d].proc == Some(p);
    assert s'.cpus[d].proc == Some(p);
  }

  lemma InvFrom(s: State)
    requires s.init < |s.procs| && (s.lock.Some? ==> s.lock.value < |s.cpus|) && ReapedOk(s)
    requires forall c :: 0 <= c < |s.cpus| ==> CpuOk(s, c)
    requires forall c, d :: 0 <= c < |s.cpus| && 0 <= d < |s.cpus| ==> PairOk(s, c, d)
    requires forall p :: 0 <= p < |s.procs| ==> ProcOk(s, p)
    requires forall p, q :: 0 <= p < |s.procs| && 0 <= q < |s.procs| ==> PidsOk(s, p, q)
    ensures Inv(s)
  {
  }

  lemma FamilyPlus(procs: seq<Proc>, ch: nat, y: Proc, q: nat)
    requires ch < |procs| && procs[ch].parent == None && procs[ch].state == Embryo && y.state == Embryo
    requires y.parent != Some(q)
    ensures var procs' := procs[ch := y];
            (HasChild(procs, q) ==> HasChild(procs', q)) && (HasZombieChild(procs', q) ==> HasZombieChild(procs, q))
  {
    var procs' := procs[ch := y];
    if HasChild(procs, q) {
      var z :| 0 <= z < |procs| && procs[z].parent == Some(q);
      assert procs'[z].parent == Some(q);
    }
  }

  /** fork without the lock: the child gets its stack and its parent. */
  lemma SetupStep(s: State, c: nat)
    requires Inv(s) && Enabled(s, c, SetupChild) && CpuOk(s, c)
    ensures Inv(After(s, c, SetupChild))
  {
    hide Inv, HasZombieChild, HasChild, HasPid;
    InvCpu(s, c);
    var s' := After(s, c, SetupChild);
    var ch := s.cpus[c].pc.child;
    var p := s.cpus[c].proc.value;
    InvReaped(s);
    SameCpus(s, s', c);
    InvProc(s, ch);
    forall d | 0 <= d < |s.cpus| && d != c ensures CpuOk(s', d) {
      InvPair(s, c, d);
      NotMyProc(s, c, d, ch);
      OtherCpu(s, s', ch, d);
    }
    forall q | 0 <= q < |s'.procs| ensures ProcOk(s', q) {
      InvProc(s, q);
      if q != p { FamilyPlus(s.procs, ch, s'.procs[ch], q); }
    }
    forall a, b | 0 <= a < |s'.procs| && 0 <= b < |s'.procs| ensures PidsOk(s', a, b) { InvPids(s, a, b); }
    MoveMany(s, s', c);
  }

  /** fork without the lock: the slot is given back. */
  lemma FailStep(s: State, c: nat)
    requires Inv(s) && Enabled(s, c, FailChild) && CpuOk(s, c)
    ensures Inv(After(s, c, FailChild))
  {
    hide Inv, HasZombieChild, HasChild, HasPid;
    InvCpu(s, c);
    var s' := After(s, c, FailChild);
    var ch := s.cpus[c].pc.child;
    InvReaped(s);
    SameCpus(s, s', c);
    InvProc(s, ch);
    forall d | 0 <= d < |s.cpus| && d != c ensures CpuOk(s', d) {
      InvPair(s, c, d);
      NotMyProc(s, c, d, ch);
      OtherCpu(s, s', ch, d);
    }
    forall q | 0 <= q < |s'.procs| ensures ProcOk(s', q) {
      InvProc(s, q);
      FamilySame(s.procs, s'.procs, q);
    }
    forall a, b | 0 <= a < |s'.procs| && 0 <= b < |s'.procs| ensures PidsOk(s', a, b) { InvPids(s, a, b); }
    MoveMany(s, s', c);
  }

  /** alloc_proc finds no slot. */
  lemma NoSlotStep(s: State, c: nat, z: nat)
    requires Inv(s) && Enabled(s, c, Do(z)) && CpuOk(s, c) && s.cpus[c].pc == Locked(Alloc) && !HasUnused(s.procs)
    ensures Inv(After(s, c, Do(z)))
  {
    hide Inv, HasZombieChild, HasChild, HasPid, HasUnused;
    InvCpu(s, c);
    var s' := After(s, c, Do(z));
    SameCpus(s, s', c);
    forall d | 0 <= d < |s.cpus| ensures CpuOk(s', d) { if d != c { OthersRun(s, c, d); } }
    SameTable(s, s');
  }

  lemma InLockStep(s: State, c: nat, z: nat)
    requires Inv(s) && Enabled(s, c, Do(z)) && CpuOk(s, c) && s.cpus[c].pc.Locked?
    ensures Inv(After(s, c, Do(z)))
  {
    match s.cpus[c].pc.op
    case Yield => GiveUpStep(s, c, z);
    case Sleep(_) => GiveUpStep(s, c, z);
    case Wait => if HasZombieChild(s.procs, s.cpus[c].proc.value) { ReapStep(s, c, z); } else { WaitStep(s, c, z); }
    case Exit => ExitStep(s, c, z);
    case Kill(_) => KillStep(s, c, z);
    case Wakeup(_) => WakeupStep(s, c, z);
    case Alloc => if HasUnused(s.procs) { AllocStep(s, c, z); } else { NoSlotStep(s, c, z); }
  }

  /** Every step of every CPU keeps the invariant. */
  lemma StepKeepsInv(s: State, c: nat, step: Step)
    requires Inv(s) && Enabled(s, c, step) && CpuOk(s, c)
    ensures WellTyped(s, c) && Inv(After(s, c, step))
  {
    hide Inv;
    match step
    case Acquire(_) => CpuStep(s, c, step);
    case Pick(p) => PickStep(s, c, p);
    case Switch => if s.cpus[c].pc.Jump? { CpuStep(s, c, step); } else { OwnStep(s, c, step); }
    case Return => CpuStep(s, c, step);
    case Release =>
      if s.cpus[c].pc.Resumed? && s.cpus[c].pc.at.AtSleep? { OwnStep(s, c, step); } else { CpuStep(s, c, step); }
    case Do(z) => if s.cpus[c].pc.Resumed? { OwnStep(s, c, step); } else { InLockStep(s, c, z); }
    case SetupChild => SetupStep(s, c);
    case FailChild => FailStep(s, c);
    case StartChild => StartStep(s, c);
  }

  // ---- whole runs --------------------------------------------------------------------

  datatype Move = Move(c: nat, step: Step)

  ghost predicate MoveAt(states: seq<State>, moves: seq<Move>, k: nat)
    requires k < |moves| && |states| == |moves| + 1
  {
    && Enabled(states[k], moves[k].c, moves[k].step) && WellTyped(states[k], moves[k].c)
    && states[k + 1] == After(states[k], moves[k].c, moves[k].step)
  }

  ghost predicate IsRun(states: seq<State>, moves: seq<Move>) {
    && |states| == |moves| + 1 && Init(states[0])
    && forall k :: 0 <= k < |moves| ==> MoveAt(states, moves, k)
  }

  lemma {:induction false} RunKeepsInv(states: seq<State>, moves: seq<Move>, k: nat)
    requires IsRun(states, moves) && k <= |moves|
    ensures Inv(states[k])
  {
    hide Inv;
    if k == 0 {
      InitInv(states[0]);
    } else {
      RunKeepsInv(states, moves, k - 1);
      assert MoveAt(states, moves, k - 1);
      InvCpu(states[k - 1], moves[k - 1].c);
      StepKeepsInv(states[k - 1], moves[k - 1].c, moves[k - 1].step);
    }
  }

  /** Whenever the lock is free, a process is RUNNING if and only if exactly one CPU runs it. */
  lemma RunningOnOneCpu(states: seq<State>, moves: seq<Move>, k: nat, p: nat)
    requires IsRun(states, moves) && k <= |moves| && states[k].lock.None? && p < |states[k].procs|
    ensures var s := states[k];
            s.procs[p].state == Running <==>
            exists c :: 0 <= c < |s.cpus| && s.cpus[c].proc == Some(p)
                        && forall d :: 0 <= d < |s.cpus| && d != c ==> s.cpus[d].proc != Some(p)
  {
    RunKeepsInv(states, moves, k);
    var s := states[k];
    if s.procs[p].state == Running {
      assert ProcOk(s, p);
      var c :| 0 <= c < |s.cpus| && s.cpus[c].proc == Some(p);
      forall d | 0 <= d < |s.cpus| && d != c ensures s.cpus[d].proc != Some(p) { assert PairOk(s, c, d); }
    }
    if exists c :: 0 <= c < |s.cpus| && s.cpus[c].proc == Some(p) {
      var c :| 0 <= c < |s.cpus| && s.cpus[c].proc == Some(p);
      assert CpuOk(s, c);
    }
  }

  /** A CPU runs on a process's kernel stack, which is allocated, only while the process
    * is RUNNING or the CPU holds the lock; two CPUs never share a stack. */
  lemma StacksInUse(states: seq<State>, moves: seq<Move>, k: nat, c: nat, p: nat)
    requires IsRun(states, moves) && k <= |moves| && c < |states[k].cpus| && states[k].cpus[c].stack == OnProc(p)
    ensures var s := states[k];
            p < |s.procs| && s.procs[p].hasStack && (s.procs[p].state == Running || s.lock == Some(c))
            && forall d :: 0 <= d < |s.cpus| && d != c ==> s.cpus[d].stack != OnProc(p)
  {
    RunKeepsInv(states, moves, k);
    var s := states[k];
    assert CpuOk(s, c) && ProcOk(s, p);
    forall d | 0 <= d < |s.cpus| && d != c ensures s.cpus[d].stack != OnProc(p) {
      assert CpuOk(s, d) && PairOk(s, c, d);
    }
  }

  /** What wait frees is not in use: no CPU is on the stack or in the page table of the process it reaps. */
  lemma WaitFreesNothingInUse(states: seq<State>, moves: seq<Move>, k: nat, z: nat)
    requires IsRun(states, moves) && k < |moves| && moves[k].step == Do(z) && MoveAt(states, moves, k)
    requires var s, c := states[k], moves[k].c;
             s.cpus[c].pc == Locked(Wait) && HasZombieChild(s.procs, s.cpus[c].proc.value)
    ensures forall d :: 0 <= d < |states[k].cpus| ==>
              states[k].cpus[d].stack != OnProc(z) && states[k].cpus[d].cr3 != Some(z)
  {
    RunKeepsInv(states, moves, k);
    ReapSafe(states[k], moves[k].c, z);
  }

  /** No child is lost: a process asleep in wait has a child, no zombie child, and is not killed. */
  lemma WaitersHaveReason(states: seq<State>, moves: seq<Move>, k: nat, p: nat)
    requires IsRun(states, moves) && k <= |moves| && p < |states[k].procs|
    requires states[k].procs[p].state == Sleeping && states[k].procs[p].chan == WaitChan(p)
    ensures var s := states[k]; HasChild(s.procs, p) && !HasZombieChild(s.procs, p) && !s.procs[p].killed
  {
    RunKeepsInv(states, moves, k);
    assert ProcOk(states[k], p);
  }

  /** Every live or zombie process but init has a live parent, and init is live. */
  lemma ParentsLive(states: seq<State>, moves: seq<Move>, k: nat, p: nat)
    requires IsRun(states, moves) && k <= |moves| && p < |states[k].procs|
    requires Live(states[k].procs[p].state) || states[k].procs[p].state == Zombie
    ensures var s := states[k];
            if p == s.init then Live(s.procs[p].state)
            else && s.procs[p].parent.Some? && s.procs[p].parent.value < |s.procs|
                 && Live(s.procs[s.procs[p].parent.value].state)
  {
    RunKeepsInv(states, moves, k);
    assert ProcOk(states[k], p);
  }

  /** No pid is returned by two waits, and none that a wait returned is in use again. */
  lemma PidsReapedOnce(states: seq<State>, moves: seq<Move>, k: nat)
    requires IsRun(states, moves) && k <= |moves|
    ensures var s := states[k];
            && (forall i, j :: 0 <= i < j < |s.reaped| ==> s.reaped[i] != s.reaped[j])
            && (forall p :: 0 <= p < |s.procs| && s.procs[p].state != Unused ==> s.procs[p].pid !in s.reaped)
  {
    RunKeepsInv(states, moves, k);
    var s := states[k];
    forall p | 0 <= p < |s.procs| && s.procs[p].state != Unused
      ensures s.procs[p].pid !in s.reaped
    {
      assert ProcOk(s, p);
    }
  }

  // ---- what the critical sections do ----------------------------------------------------------------

  /** sleep puts the caller to sleep on its channel and nothing else. */
  lemma SleepsOn(states: seq<State>, moves: seq<Move>, k: nat, z: nat, id: nat, p: nat)
    requires IsRun(states, moves) && k < |moves| && moves[k].step == Do(z) && MoveAt(states, moves, k)
    requires states[k].cpus[moves[k].c].pc == Locked(Sleep(id)) && states[k].cpus[moves[k].c].proc == Some(p)
    ensures var s, ps := states[k], states[k + 1].procs;
            && |ps| == |s.procs| && p < |ps| && ps[p].state == Sleeping && ps[p].chan == Other(id)
            && ps[p] == s.procs[p].(state := Sleeping, chan := Other(id))
            && (forall q :: 0 <= q < |ps| && q != p ==> ps[q] == s.procs[q])
  {
  }

  /** wakeup leaves nobody asleep on the channel, and everything else as it was. */
  lemma WakeupWakes(states: seq<State>, moves: seq<Move>, k: nat, z: nat, id: nat)
    requires IsRun(states, moves) && k < |moves| && moves[k].step == Do(z) && MoveAt(states, moves, k)
    requires states[k].cpus[moves[k].c].pc == Locked(Wakeup(id))
    ensures var s, s' := states[k], states[k + 1];
            && |s'.procs| == |s.procs|
            && (forall p :: 0 <= p < |s.procs| ==> !(s'.procs[p].state == Sleeping && s'.procs[p].chan == Other(id)))
            && (forall p :: 0 <= p < |s.procs| && s.procs[p].state == Sleeping && s.procs[p].chan == Other(id) ==>
                  s'.procs[p] == s.procs[p].(state := Runnable))
            && (forall p :: 0 <= p < |s.procs| && !(s.procs[p].state == Sleeping && s.procs[p].chan == Other(id)) ==>
                  s'.procs[p] == s.procs[p])
  {
  }

  /** kill marks the process with that pid, wherever it is in the table, and wakes it if it sleeps; no
    * other process changes. */
  lemma KillMarks(states: seq<State>, moves: seq<Move>, k: nat, z: nat, pid: nat, p: nat)
    requires IsRun(states, moves) && k < |moves| && moves[k].step == Do(z) && MoveAt(states, moves, k)
    requires states[k].cpus[moves[k].c].pc == Locked(Kill(pid))
    requires p < |states[k].procs| && states[k].procs[p].state != Unused
    ensures var x, ps := states[k].procs[p], states[k + 1].procs;
            && |ps| == |states[k].procs|
            && (x.pid != pid ==> ps[p] == x)
            && (x.pid == pid ==> ps[p] == x.(killed := true, state := ps[p].state) && ps[p].state != Sleeping)
            && (x.pid == pid ==> ps[p].state == if x.state == Sleeping then Runnable else x.state)
  {
    RunKeepsInv(states, moves, k);
    assert ProcOk(states[k], p);
    if HasPid(states[k].procs, pid) { assert PidsOk(states[k], p, z); }
  }

  /** exit leaves a zombie; its children are init's, a parent that waits is woken, and so is init if it
    * got a zombie. */
  lemma ExitLeaves(states: seq<State>, moves: seq<Move>, k: nat, z: nat, p: nat, q: nat)
    requires IsRun(states, moves) && k < |moves| && moves[k].step == Do(z) && MoveAt(states, moves, k)
    requires states[k].cpus[moves[k].c].pc == Locked(Exit) && states[k].cpus[moves[k].c].proc == Some(p)
    requires p < |states[k].procs| && q < |states[k].procs|
    ensures var s, ps := states[k], states[k + 1].procs;
            && |ps| == |s.procs| && ps[p].state == Zombie
            && ps[q].parent == (if s.procs[q].parent == Some(p) then Some(s.init) else s.procs[q].parent)
            && ps[q].pid == s.procs[q].pid
            && (s.procs[p].parent == Some(q) || (q == s.init && HasZombieChild(s.procs, p)) ==>
                  !(ps[q].state == Sleeping && ps[q].chan == WaitChan(q)))
            && (ps[q].state != s.procs[q].state ==> q == p || s.procs[q].state == Sleeping)
  {
  }

  /** wait returns the pid of a zombie child, whose slot is then unused, if there is one; without
    * children, or killed, it returns -1; otherwise it sleeps. */
  lemma WaitReturns(states: seq<State>, moves: seq<Move>, k: nat, z: nat, p: nat)
    requires IsRun(states, moves) && k < |moves| && moves[k].step == Do(z) && MoveAt(states, moves, k)
    requires states[k].cpus[moves[k].c].pc == Locked(Wait) && states[k].cpus[moves[k].c].proc == Some(p)
    requires p < |states[k].procs|
    ensures var s, s', c := states[k], states[k + 1], moves[k].c;
            && |s'.procs| == |s.procs| && |s'.cpus| == |s.cpus|
            && (if HasZombieChild(s.procs, p) then
                  && z < |s.procs| && s.procs[z].state == Zombie && s.procs[z].parent == Some(p)
                  && s'.reaped == s.reaped + [s.procs[z].pid] && s'.procs[z].state == Unused
                  && (forall q :: 0 <= q < |s.procs| && q != z ==> s'.procs[q] == s.procs[q]) && s'.cpus[c].pc == Run
                else if !HasChild(s.procs, p) || s.procs[p].killed then
                  s'.procs == s.procs && s'.reaped == s.reaped && s'.cpus[c].pc == Run
                else
                  s'.procs[p].state == Sleeping && s'.procs[p].chan == WaitChan(p) && s'.reaped == s.reaped)
  {
  }

  /** fork makes a runnable child of the caller, with a pid that no process has had. */
  lemma ForkStarts(states: seq<State>, moves: seq<Move>, k: nat, p: nat)
    requires IsRun(states, moves) && k < |moves| && moves[k].step == StartChild && MoveAt(states, moves, k)
    requires states[k].cpus[moves[k].c].proc == Some(p)
    ensures var s, ps, ch := states[k], states[k + 1].procs, states[k].cpus[moves[k].c].pc.child;
            && |ps| == |s.procs| && ch < |ps| && p < |ps| && ch != p
            && s.procs[ch].state == Embryo && ps[ch].state == Runnable && ps[ch].parent == Some(p)
            && ps[ch].hasStack && ps[ch].resume == AtForkRet && ps[ch].pid > 0 && ps[ch].pid !in s.reaped
            && (forall q :: 0 <= q < |ps| && q != ch ==> ps[q] == s.procs[q] && ps[q].pid != ps[ch].pid)
  {
    RunKeepsInv(states, moves, k);
    var s, c := states[k], moves[k].c;
    var ch := s.cpus[c].pc.child;
    assert CpuOk(s, c) && ProcOk(s, ch);
    forall q | 0 <= q < |s.procs| && q != ch ensures s.procs[q].pid != s.procs[ch].pid { assert PidsOk(s, q, ch); }
  }
}
