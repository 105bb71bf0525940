/** Sleep locks (kernel/sleeplock.c) on top of sleep, wakeup and kill (kernel/proc.c), as a machine
    whose steps are what happens between two operations on a spin lock. The number of processes is
    arbitrary, and any process may take the next step. */
module SleepLock {
  import opened Paths

  /** Where a process is in acquiresleep, sleep, releasesleep or wakeup. */
  datatype Pc =
    | Out                // not using the lock
    | Want               // about to acquire lk->lk
    | Test               // holds lk->lk, at the while test
    | Got                // holds lk->lk, has set locked and pid
    | Crit               // acquiresleep has returned
    | SleepWant          // in sleep: holds lk->lk, about to acquire p->lock
    | SleepBoth          // holds lk->lk and p->lock
    | SleepIn            // holds p->lock; lk->lk is released
    | SleepOut           // chan and SLEEPING are set; p->lock is held until the scheduler releases it
    | Asleep             // off the CPU, p->lock is free
    | Resumed            // chosen by the scheduler, holds p->lock
    | RelWant            // releasesleep, about to acquire lk->lk
    | RelSet             // holds lk->lk
    | Scan(i: nat)       // in wakeup: holds lk->lk, about to look at process i

  datatype PState = Running | Runnable | Sleeping

  /** `owner` is lk->pid, with -1 for 0; `spin` is the holder of lk->lk, or -1. */
  datatype State = State(
    pc: seq<Pc>, st: seq<PState>, chan: seq<bool>, plock: seq<bool>, spin: int, locked: bool, owner: int)

  ghost predicate Shape(s: State) {
    |s.pc| == |s.st| == |s.chan| == |s.plock|
  }

  ghost predicate Init(s: State) {
    && Shape(s) && s.spin == -1 && !s.locked && s.owner == -1
    && forall p :: 0 <= p < |s.pc| ==> s.pc[p] == Out && !s.plock[p] && !s.chan[p] && s.st[p] != Sleeping
  }

  predicate OnChan(s: State, p: nat)
    requires p < |s.st| == |s.chan|
  {
    s.st[p] == Sleeping && s.chan[p]
  }

  function Goto(s: State, p: nat, c: Pc): (s': State)
    requires p < |s.pc|
  {
    s.(pc := s.pc[p := c])
  }

  // ---- one step of process p -------------------------------------------------------------------------

  /** Whether p can move on; a spin lock that is taken makes it wait. */
  predicate Enabled(s: State, p: nat)
    requires p < |s.pc| == |s.st| == |s.chan| == |s.plock|
  {
    match s.pc[p]
    case Want => s.spin == -1
    case RelWant => s.spin == -1
    case SleepWant => !s.plock[p]
    case Asleep => s.st[p] == Runnable && !s.plock[p]
    case Scan(i) => i >= |s.pc| || i == p || !s.plock[i]
    case _ => true
  }

  /** What p does next. */
  function Step(s: State, p: nat): (s': State)
    requires p < |s.pc| == |s.st| == |s.chan| == |s.plock| && Enabled(s, p)
  {
    match s.pc[p]
    case Out => Goto(s, p, Want)
    case Want => Goto(s, p, Test).(spin := p)
    case Test => if s.locked then Goto(s, p, SleepWant) else Goto(s, p, Got).(locked := true, owner := p)
    case Got => Goto(s, p, Crit).(spin := -1)
    case Crit => Goto(s, p, RelWant)
    case SleepWant => Goto(s, p, SleepBoth).(plock := s.plock[p := true])
    case SleepBoth => Goto(s, p, SleepIn).(spin := -1)
    case SleepIn => Goto(s, p, SleepOut).(chan := s.chan[p := true], st := s.st[p := Sleeping])
    case SleepOut => Goto(s, p, Asleep).(plock := s.plock[p := false])
    case Asleep => Goto(s, p, Resumed).(st := s.st[p := Running], plock := s.plock[p := true])
    case Resumed => Goto(s, p, Want).(chan := s.chan[p := false], plock := s.plock[p := false])
    case RelWant => Goto(s, p, RelSet).(spin := p)
    case RelSet => Goto(s, p, Scan(0)).(locked := false, owner := -1)
    case Scan(i) =>
      if i >= |s.pc| then Goto(s, p, Out).(spin := -1)
      else if i != p && OnChan(s, i) then Goto(s, p, Scan(i + 1)).(st := s.st[i := Runnable])
      else Goto(s, p, Scan(i + 1))
  }

  /** kill(t): under p->lock, a sleeping process becomes runnable whatever it sleeps on. */
  function Killed(s: State, t: nat): (s': State)
    requires t < |s.st|
  {
    if s.st[t] == Sleeping then s.(st := s.st[t := Runnable]) else s
  }

  ghost predicate Next(s: State, s': State) {
    && Shape(s)
    && ((exists p :: 0 <= p < |s.pc| && Enabled(s, p) && s' == Step(s, p))
        || (exists t :: 0 <= t < |s.pc| && !s.plock[t] && s' == Killed(s, t)))
  }

  // ---- the invariant ------------------------------------------------------------------------------------

  predicate HoldsSpin(c: Pc) {
    c.Test? || c.Got? || c.SleepWant? || c.SleepBoth? || c.RelSet? || c.Scan?
  }

  predicate HoldsProc(c: Pc) {
    c.SleepBoth? || c.SleepIn? || c.SleepOut? || c.Resumed?
  }

  /** From setting `locked` to clearing it. */
  predicate Holds(c: Pc) {
    c.Got? || c.Crit? || c.RelWant? || c.RelSet?
  }

  /** A process that will sleep, or sleeps, until it is woken. */
  predicate Committed(s: State, p: nat)
    requires p < |s.pc| == |s.st| == |s.chan|
  {
    s.pc[p].SleepIn? || ((s.pc[p].SleepOut? || s.pc[p].Asleep?) && OnChan(s, p))
  }

  /** Some releaser's wakeup scan has yet to reach p. */
  ghost predicate WakeupPending(s: State, p: nat) {
    exists r :: 0 <= r < |s.pc| && r != p && s.pc[r].Scan? && s.pc[r].i <= p
  }

  /** The program counter of p agrees with the locks. */
  predicate LocksOk(s: State, p: nat)
    requires p < |s.pc| == |s.plock|
  {
    && (HoldsSpin(s.pc[p]) <==> s.spin == p)
    && (HoldsProc(s.pc[p]) <==> s.plock[p])
    && (Holds(s.pc[p]) <==> s.locked && s.owner == p)
    && (s.pc[p].SleepWant? || s.pc[p].SleepBoth? ==> s.locked)
  }

  /** ... and with p's state and channel. */
  predicate SleepOk(s: State, p: nat)
    requires p < |s.pc| == |s.st| == |s.chan|
  {
    && (s.chan[p] <==> s.pc[p].SleepOut? || s.pc[p].Asleep? || s.pc[p].Resumed?)
    && (s.st[p] == Sleeping ==> s.pc[p].SleepOut? || s.pc[p].Asleep?)
    && (s.pc[p].SleepOut? ==> s.st[p] == Sleeping)
    && (s.pc[p].Asleep? ==> s.st[p] != Running)
  }

  predicate LocalOk(s: State, p: nat)
    requires p < |s.pc| == |s.st| == |s.chan| == |s.plock|
  {
    LocksOk(s, p) && SleepOk(s, p)
  }

  ghost predicate ProcOk(s: State, p: nat)
    requires Shape(s) && p < |s.pc|
  {
    LocalOk(s, p) && (Committed(s, p) ==> s.locked || WakeupPending(s, p))
  }

  ghost predicate Inv(s: State) {
    && Shape(s) && -1 <= s.spin < |s.pc| && (s.locked <==> 0 <= s.owner) && s.owner < |s.pc|
    && forall p :: 0 <= p < |s.pc| ==> ProcOk(s, p)
  }

  lemma InitInv(s: State)
    requires Init(s)
    ensures Inv(s)
  {
  }

  /** A scan that has not reached q is still there after a step of p, unless the step was its visit to q. */
  lemma PendingKept(s: State, p: nat, q: nat)
    requires Inv(s) && p < |s.pc| && q < |s.pc| && Enabled(s, p) && WakeupPending(s, q)
    requires s.pc[p].Scan? ==> s.pc[p].i != q
    ensures WakeupPending(Step(s, p), q)
  {
    var r :| 0 <= r < |s.pc| && r != q && s.pc[r].Scan? && s.pc[r].i <= q;
    assert LocalOk(s, r) by { assert ProcOk(s, r); }
    assert LocalOk(s, p) by { assert ProcOk(s, p); }
    hide Inv;
    var s' := Step(s, p);
    assert s'.pc[r].Scan? && s'.pc[r].i <= q;
  }

  /** The bookkeeping of another process survives a step of p. */
  lemma OthersLocks(s: State, p: nat, q: nat)
    requires Shape(s) && p < |s.pc| && q < |s.pc| && q != p && Enabled(s, p) && LocksOk(s, p) && LocksOk(s, q)
    ensures LocksOk(Step(s, p), q)
  {
  }

  lemma OthersSleep(s: State, p: nat, q: nat)
    requires Shape(s) && p < |s.pc| && q < |s.pc| && q != p && Enabled(s, p) && LocalOk(s, q)
    ensures SleepOk(Step(s, p), q)
  {
  }

  lemma SelfLocks(s: State, p: nat)
    requires Shape(s) && p < |s.pc| && Enabled(s, p) && LocksOk(s, p) && (s.locked <==> 0 <= s.owner)
    ensures LocksOk(Step(s, p), p)
  {
  }

  lemma SelfSleep(s: State, p: nat)
    requires Shape(s) && p < |s.pc| && Enabled(s, p) && LocalOk(s, p)
    ensures SleepOk(Step(s, p), p)
  {
  }

  /** Other processes after a step of p. */
  lemma OthersOk(s: State, p: nat, q: nat)
    requires Inv(s) && p < |s.pc| && q < |s.pc| && q != p && Enabled(s, p)
    ensures ProcOk(Step(s, p), q)
  {
    assert ProcOk(s, q) && ProcOk(s, p);
    OthersLocks(s, p, q);
    OthersSleep(s, p, q);
    OthersWake(s, p, q);
  }

  lemma OthersWake(s: State, p: nat, q: nat)
    requires Inv(s) && p < |s.pc| && q < |s.pc| && q != p && Enabled(s, p)
    ensures var s' := Step(s, p); Committed(s', q) ==> s'.locked || WakeupPending(s', q)
  {
    var s' := Step(s, p);
    assert ProcOk(s, q) && ProcOk(s, p);
    if Committed(s', q) && !s'.locked {
      CommittedBefore(s, p, q);
      if s.locked {
        assert s'.pc[p] == Scan(0);
      } else {
        PendingKept(s, p, q);
      }
    }
  }

  /** Nobody but q commits q to sleep, and the scan that visits q wakes it. */
  lemma CommittedBefore(s: State, p: nat, q: nat)
    requires Shape(s) && p < |s.pc| && q < |s.pc| && q != p && Enabled(s, p) && LocalOk(s, p) && LocalOk(s, q)
    requires Committed(Step(s, p), q)
    ensures Committed(s, q) && (s.pc[p].Scan? ==> s.pc[p].i != q)
  {
  }

  lemma SelfOk(s: State, p: nat)
    requires Inv(s) && p < |s.pc| && Enabled(s, p)
    ensures ProcOk(Step(s, p), p)
  {
    var s' := Step(s, p);
    assert ProcOk(s, p);
    SelfLocks(s, p);
    SelfSleep(s, p);
    if Committed(s', p) && !s'.locked {
      assert s.pc[p].SleepIn? || s.pc[p].SleepOut?;
      PendingKept(s, p, p);
    }
  }

  lemma StepShape(s: State, p: nat)
    requires Inv(s) && p < |s.pc| && Enabled(s, p)
    ensures var s' := Step(s, p);
            && Shape(s') && |s'.pc| == |s.pc| && -1 <= s'.spin < |s'.pc| && (s'.locked <==> 0 <= s'.owner)
            && s'.owner < |s'.pc|
  {
    assert ProcOk(s, p);
  }

  lemma StepInv(s: State, p: nat)
    requires Inv(s) && p < |s.pc| && Enabled(s, p)
    ensures Inv(Step(s, p))
  {
    hide WakeupPending, Committed, Step;
    var s' := Step(s, p);
    StepShape(s, p);
    forall q | 0 <= q < |s'.pc| ensures ProcOk(s', q) {
      if q == p {
        SelfOk(s, p);
      } else {
        OthersOk(s, p, q);
      }
    }
  }

  lemma KillInv(s: State, t: nat)
    requires Inv(s) && t < |s.pc| && !s.plock[t]
    ensures Inv(Killed(s, t))
  {
    var s' := Killed(s, t);
    forall q | 0 <= q < |s'.pc| ensures ProcOk(s', q) {
      assert ProcOk(s, q);
      if Committed(s', q) && !s'.locked {
        assert WakeupPending(s, q);
        var r :| 0 <= r < |s.pc| && r != q && s.pc[r].Scan? && s.pc[r].i <= q;
        assert s'.pc[r].Scan?;
      }
    }
  }

  lemma NextInv(s: State, s': State)
    requires Inv(s) && Next(s, s')
    ensures Inv(s')
  {
    if p :| 0 <= p < |s.pc| && Enabled(s, p) && s' == Step(s, p) {
      StepInv(s, p);
    } else {
      var t :| 0 <= t < |s.pc| && !s.plock[t] && s' == Killed(s, t);
      KillInv(s, t);
    }
  }

  lemma {:induction false} RunInv(s: State, s': State, n: nat)
    requires Init(s) && Path(Next, s, s', n)
    ensures Inv(s')
    decreases n
  {
    if n == 0 {
      InitInv(s);
    } else {
      var t :| Path(Next, s, t, n - 1) && Next(t, s');
      RunInv(s, t, n - 1);
      NextInv(t, s');
    }
  }

  // ---- what it gives ------------------------------------------------------------------------------------------

  /** At most one process holds the lock, in every interleaving; holdingsleep tells which. */
  lemma MutualExclusion(s: State, s': State, n: nat, p: nat, q: nat)
    requires Init(s) && Path(Next, s, s', n) && p < |s'.pc| && q < |s'.pc|
    ensures s'.pc[p].Crit? && s'.pc[q].Crit? ==> p == q
    ensures Holds(s'.pc[p]) <==> s'.locked && s'.owner == p
  {
    RunInv(s, s', n);
    assert ProcOk(s', p) && ProcOk(s', q);
  }

  /** No lost wakeup: a process asleep on the lock implies that it is held, or that the scan of some
      releaser has yet to reach that process. */
  lemma NoLostWakeup(s: State, s': State, n: nat, p: nat)
    requires Init(s) && Path(Next, s, s', n) && p < |s'.pc|
    ensures Shape(s') && (OnChan(s', p) ==> s'.locked || WakeupPending(s', p))
    ensures OnChan(s', p) && s'.spin == -1 ==> s'.locked
  {
    RunInv(s, s', n);
    assert ProcOk(s', p);
    if WakeupPending(s', p) {
      ScanHoldsSpin(s', p);
    }
  }

  /** The scan runs with lk->lk held. */
  lemma ScanHoldsSpin(s: State, p: nat)
    requires Inv(s) && WakeupPending(s, p)
    ensures s.spin != -1
  {
    var r :| 0 <= r < |s.pc| && r != p && s.pc[r].Scan? && s.pc[r].i <= p;
    assert ProcOk(s, r);
  }

  /** Processes that are neither idle, nor in the critical section, nor asleep on the lock. */
  predicate Busy(s: State, p: nat)
    requires p < |s.pc| == |s.st| == |s.chan|
  {
    !s.pc[p].Out? && !s.pc[p].Crit? && !(s.pc[p].Asleep? && s.st[p] == Sleeping)
  }

  /** The locks never deadlock: when some process is in the middle of an operation, some such process
      can take its next step. */
  lemma Progress(s: State, s': State, n: nat, p: nat)
    requires Init(s) && Path(Next, s, s', n) && p < |s'.pc| && Shape(s') && Busy(s', p)
    ensures exists q :: 0 <= q < |s'.pc| && Busy(s', q) && Enabled(s', q)
  {
    RunInv(s, s', n);
    assert ProcOk(s', p);
    if !Enabled(s', p) {
      var r := if s'.spin == -1 then p else s'.spin;
      assert ProcOk(s', r);
      if !Enabled(s', r) {
        assert s'.pc[r].Scan?;
        var i := s'.pc[r].i;
        assert ProcOk(s', i);
        assert Busy(s', i) && Enabled(s', i);
      }
    }
  }
}
