/** The multi-level feedback queue scheduler: the tick code of kernel/trap.c and the MLFQ parts of
    kernel/proc.c. Each dispatch scan is one step; ticks do not wrap. */
module Mlfq {
  import opened ProcStates

  const NQUEUE := 5
  const MAX_WAIT_TIME := 32

  datatype Proc = Proc(state: PState, queue: nat, waittime: nat, ticksused: nat, intime: nat, rtime: nat, chan: int)

  datatype Sched = Sched(ps: seq<Proc>, ticks: nat)

  /** The time slice of a queue, a power of two. */
  function Slice(queue: nat): (n: nat)
    ensures n >= 1
  {
    if queue == 0 then 1 else 2 * Slice(queue - 1)
  }

  // ---- what the steps do to one process --------------------------------------------------------------

  /** The body of clockintr's loop. */
  function Aged(p: Proc): (r: Proc) {
    if p.state == RUNNABLE then
      if p.waittime + 1 >= MAX_WAIT_TIME then p.(waittime := 0, queue := if p.queue == 0 then 0 else p.queue - 1)
      else p.(waittime := p.waittime + 1)
    else if p.state == RUNNING then p.(rtime := p.rtime + 1)
    else p
  }

  function Dispatched(p: Proc): (r: Proc) {
    p.(ticksused := 0, waittime := 0, state := RUNNING)
  }

  function Yielded(p: Proc, ticks: nat): (r: Proc) {
    var used := p.queue != NQUEUE - 1 && p.ticksused >= Slice(p.queue);
    p.(state := RUNNABLE, queue := if used then p.queue + 1 else p.queue, intime := ticks, ticksused := 0)
  }

  function Roused(p: Proc, ticks: nat): (r: Proc) {
    p.(state := RUNNABLE, ticksused := 0, intime := ticks)
  }

  /** The scan prefers p to b. */
  predicate Better(p: Proc, b: Proc) {
    (b.queue == p.queue && p.intime < b.intime) || p.queue < b.queue
  }

  /** The process the scan ends with: runnable, and nobody is better; among equals the first. */
  predicate IsBest(ps: seq<Proc>, i: nat) {
    && i < |ps| && ps[i].state == RUNNABLE
    && (forall j :: 0 <= j < |ps| && ps[j].state == RUNNABLE ==> !Better(ps[j], ps[i]))
    && (forall j :: 0 <= j < i && ps[j].state == RUNNABLE ==> Better(ps[i], ps[j]))
  }

  /** The child keeps the zeroes of allocproc. */
  function NewChild(p: Proc): (r: Proc) {
    Proc(RUNNABLE, 0, 0, 0, 0, 0, p.chan)
  }

  predicate MayFork(s: Sched, parent: nat, child: nat) {
    parent < |s.ps| && child < |s.ps| && s.ps[parent].state == RUNNING && s.ps[child].state == UNUSED
  }

  /** fork resets the queue and the entry time of the parent, and neither for the child. */
  function Forked(s: Sched, parent: nat, child: nat): (s': Sched)
    requires parent < |s.ps| && child < |s.ps|
  {
    s.(ps := s.ps[child := NewChild(s.ps[child])][parent := s.ps[parent].(queue := 0, intime := s.ticks)])
  }

  // ---- runs --------------------------------------------------------------------------------------------

  datatype Step = Tick | Dispatch(i: nat) | Yield(i: nat) | Use(i: nat) | Sleep(i: nat, chan: int) | Rouse(i: nat)
                | Exit(i: nat) | Reap(i: nat) | Fork(parent: nat, child: nat)

  /** The steps of the system. Rouse is one process of a wakeup, or a kill. */
  ghost predicate Next(s: Sched, step: Step, s': Sched) {
    if step.Tick? then
      |s'.ps| == |s.ps| && s'.ticks == s.ticks + 1 && forall i :: 0 <= i < |s.ps| ==> s'.ps[i] == Aged(s.ps[i])
    else if step.Fork? then
      MayFork(s, step.parent, step.child) && s' == Forked(s, step.parent, step.child)
    else
      && step.i < |s.ps| == |s'.ps| && s'.ticks == s.ticks
      && (forall j :: 0 <= j < |s.ps| && j != step.i ==> s'.ps[j] == s.ps[j])
      && Moves(s.ps[step.i], step, s'.ps[step.i], s.ticks) && (step.Dispatch? ==> IsBest(s.ps, step.i))
  }

  predicate Moves(p: Proc, step: Step, p': Proc, ticks: nat) {
    match step
    case Tick => p' == Aged(p)
    case Fork(_, _) => false
    case Dispatch(_) => p.state == RUNNABLE && p' == Dispatched(p)
    case Yield(_) => p.state == RUNNING && p' == Yielded(p, ticks)
    case Use(_) => p.state == RUNNING && p' == p.(ticksused := p.ticksused + 1)
    case Sleep(_, chan) => p.state == RUNNING && p' == p.(state := SLEEPING, chan := chan)
    case Rouse(_) => p.state == SLEEPING && p' == Roused(p, ticks)
    case Exit(_) => p.state == RUNNING && p' == p.(state := ZOMBIE)
    case Reap(_) => p.state == ZOMBIE && p' == Proc(UNUSED, 0, 0, 0, 0, p.rtime, 0)
  }

  ghost predicate Run(ss: seq<Sched>, steps: seq<Step>) {
    |ss| == |steps| + 1 && forall k :: 0 <= k < |steps| ==> Next(ss[k], steps[k], ss[k + 1])
  }

  function Count(steps: seq<Step>, step: Step): (n: nat) {
    if steps == [] then 0 else Count(steps[..|steps| - 1], step) + if steps[|steps| - 1] == step then 1 else 0
  }

  lemma RunPrefix(ss: seq<Sched>, steps: seq<Step>)
    requires Run(ss, steps) && steps != []
    ensures Run(ss[..|steps|], steps[..|steps| - 1])
  {
    var n := |steps| - 1;
    forall k | 0 <= k < n ensures Next(ss[..n + 1][k], steps[..n][k], ss[..n + 1][k + 1]) {
      assert Next(ss[k], steps[k], ss[k + 1]);
    }
  }

  // ---- aging -------------------------------------------------------------------------------------------

  /** max(0, q - n) */
  function Minus(q: nat, n: nat): (r: nat) {
    if q < n then 0 else q - n
  }

  /** The waiting time and the queue after k ticks of waiting. */
  predicate Waited(p: Proc, p': Proc, k: nat) {
    && p'.state == RUNNABLE && p'.waittime == (p.waittime + k) % MAX_WAIT_TIME
    && p'.queue == Minus(p.queue, (p.waittime + k) / MAX_WAIT_TIME) && p'.intime == p.intime
  }

  lemma WaitedTick(p: Proc, p': Proc, k: nat)
    requires p.waittime < MAX_WAIT_TIME && Waited(p, p', k)
    ensures Waited(p, Aged(p'), k + 1)
  {
    var t := p.waittime + k;
    assert t == t / MAX_WAIT_TIME * MAX_WAIT_TIME + t % MAX_WAIT_TIME;
    if t % MAX_WAIT_TIME + 1 == MAX_WAIT_TIME {
      assert (t + 1) / MAX_WAIT_TIME == t / MAX_WAIT_TIME + 1 && (t + 1) % MAX_WAIT_TIME == 0;
    } else {
      assert (t + 1) / MAX_WAIT_TIME == t / MAX_WAIT_TIME && (t + 1) % MAX_WAIT_TIME == t % MAX_WAIT_TIME + 1;
    }
  }

  lemma WaitedNone(p: Proc)
    requires p.state == RUNNABLE && p.waittime < MAX_WAIT_TIME
    ensures Waited(p, p, 0)
  {
  }

  lemma AgingStep(s: Sched, step: Step, s': Sched, i: nat, p: Proc, k: nat)
    requires Next(s, step, s') && step != Dispatch(i)
    requires i < |s.ps| && p.waittime < MAX_WAIT_TIME && Waited(p, s.ps[i], k)
    ensures |s'.ps| == |s.ps| && Waited(p, s'.ps[i], k + if step == Tick then 1 else 0)
  {
    if step.Tick? {
      WaitedTick(p, s.ps[i], k);
    }
  }

  /** Over any run in which process i is not dispatched, k ticks of waiting move it from queue q with
      wait w to queue max(0, q - (w + k) / MAX_WAIT_TIME). */
  lemma {:induction false} AgingRun(ss: seq<Sched>, steps: seq<Step>, i: nat)
    requires Run(ss, steps) && i < |ss[0].ps| && ss[0].ps[i].state == RUNNABLE && ss[0].ps[i].waittime < MAX_WAIT_TIME
    requires Count(steps, Dispatch(i)) == 0
    ensures |ss[|steps|].ps| == |ss[0].ps| && Waited(ss[0].ps[i], ss[|steps|].ps[i], Count(steps, Tick))
  {
    hide Next, Waited;
    if steps == [] {
      WaitedNone(ss[0].ps[i]);
    } else {
      var n := |steps| - 1;
      RunPrefix(ss, steps);
      AgingRun(ss[..n + 1], steps[..n], i);
      AgingStep(ss[n], steps[n], ss[n + 1], i, ss[0].ps[i], Count(steps[..n], Tick));
    }
  }

  // ---- bounded bypass --------------------------------------------------------------------------------------

  /** In queue 0, with an entry time in the past. */
  predicate Due(s: Sched, p: nat) {
    p < |s.ps| && s.ps[p].state == RUNNABLE && s.ps[p].queue == 0 && s.ps[p].intime < s.ticks
  }

  /** How many processes a run starts in slot o. */
  function Forks(steps: seq<Step>, o: nat): (n: nat) {
    if steps == [] then 0
    else Forks(steps[..|steps| - 1], o) + if steps[|steps| - 1].Fork? && steps[|steps| - 1].child == o then 1 else 0
  }

  /** Slot o has had `turns` turns and `forks` new processes; once it has no turn left, it stands behind p. */
  predicate Behind(s: Sched, p: nat, o: nat, turns: nat, forks: nat) {
    && p < |s.ps| && o < |s.ps| && turns <= 1 + forks
    && (turns == 1 + forks && s.ps[o].state == RUNNABLE ==> s.ps[o].intime > s.ps[p].intime)
  }

  /** The scan never takes a process that stands behind p. */
  lemma NotBest(s: Sched, p: nat, o: nat)
    requires Due(s, p) && o < |s.ps| && s.ps[o].intime > s.ps[p].intime
    ensures !IsBest(s.ps, o)
  {
  }

  lemma DueStep(s: Sched, step: Step, s': Sched, p: nat, o: nat, turns: nat, forks: nat)
    requires Next(s, step, s') && Due(s, p) && o != p && step != Dispatch(p) && Behind(s, p, o, turns, forks)
    ensures Due(s', p) && s'.ps[p].intime == s.ps[p].intime
    ensures Behind(s', p, o, turns + (if step == Dispatch(o) then 1 else 0),
                   forks + if step.Fork? && step.child == o then 1 else 0)
  {
    if step == Dispatch(o) && turns == 1 + forks {
      NotBest(s, p, o);
    }
  }

  /** Once p is due, each other slot is dispatched at most once before it, and once more for every process
      that fork starts in that slot. */
  lemma {:induction false} BoundedBypass(ss: seq<Sched>, steps: seq<Step>, p: nat, o: nat)
    requires Run(ss, steps) && Due(ss[0], p) && o < |ss[0].ps| && o != p && Count(steps, Dispatch(p)) == 0
    ensures Due(ss[|steps|], p) && Behind(ss[|steps|], p, o, Count(steps, Dispatch(o)), Forks(steps, o))
    ensures Count(steps, Dispatch(o)) <= 1 + Forks(steps, o)
  {
    if steps != [] {
      var n := |steps| - 1;
      RunPrefix(ss, steps);
      BoundedBypass(ss[..n + 1], steps[..n], p, o);
      assert Next(ss[n], steps[n], ss[n + 1]);
      DueStep(ss[n], steps[n], ss[n + 1], p, o, Count(steps[..n], Dispatch(o)), Forks(steps[..n], o));
    }
  }

  /** A waiting process becomes due: enough ticks bring it to queue 0, and its entry time lies behind. */
  lemma BecomesDue(ss: seq<Sched>, steps: seq<Step>, i: nat)
    requires Run(ss, steps) && i < |ss[0].ps| && ss[0].ps[i].state == RUNNABLE && ss[0].ps[i].waittime < MAX_WAIT_TIME
    requires Count(steps, Dispatch(i)) == 0 && ss[0].ps[i].intime <= ss[0].ticks
    requires Count(steps, Tick) >= MAX_WAIT_TIME * ss[0].ps[i].queue && Count(steps, Tick) > 0
    ensures Due(ss[|steps|], i)
  {
    AgingRun(ss, steps, i);
    TicksAdd(ss, steps);
    var q, t := ss[0].ps[i].queue, ss[0].ps[i].waittime + Count(steps, Tick);
    assert t / MAX_WAIT_TIME >= q;
  }

  lemma {:induction false} TicksAdd(ss: seq<Sched>, steps: seq<Step>)
    requires Run(ss, steps)
    ensures ss[|steps|].ticks == ss[0].ticks + Count(steps, Tick)
  {
    if steps != [] {
      var n := |steps| - 1;
      RunPrefix(ss, steps);
      TicksAdd(ss[..n + 1], steps[..n]);
      assert Next(ss[n], steps[n], ss[n + 1]);
    }
  }

  // ---- fork ---------------------------------------------------------------------------------------------------

  /** The process whose turn it is keeps its turn over a fork exactly when it entered queue 0 at tick 0 and
      stands in an earlier slot than the child. */
  lemma ForkKeepsTurnIff(s: Sched, p: nat, parent: nat, child: nat)
    requires IsBest(s.ps, p) && MayFork(s, parent, child)
    ensures IsBest(Forked(s, parent, child).ps, p) <==> s.ps[p].queue == 0 && s.ps[p].intime == 0 && p < child
  {
    var ps := Forked(s, parent, child).ps;
    assert ps[child] == NewChild(s.ps[child]) && ps[p] == s.ps[p] && ps[parent].state == RUNNING;
    assert forall j :: 0 <= j < |ps| && j != child && j != parent ==> ps[j] == s.ps[j];
  }

  /** A parent that runs in slot 0, its child in slot 1, and in slot 2 a process that is due. */
  function Crowded(child: Proc): (s: Sched) {
    Sched([Proc(RUNNING, 0, 0, 0, 1, 0, 0), child, Proc(RUNNABLE, 0, 0, 0, 0, 0, 0)], 1)
  }

  const NEW_CHILD := Proc(RUNNABLE, 0, 0, 0, 0, 0, 0)

  /** What userinit leaves: one runnable process, at tick 0. */
  const BOOTED := Sched([NEW_CHILD, Proc(UNUSED, 0, 0, 0, 0, 0, 0), Proc(UNUSED, 0, 0, 0, 0, 0, 0)], 0)

  /** After a tick the first process runs and forks twice. */
  lemma CrowdReached()
    ensures exists ss, steps :: Run(ss, steps) && ss[0] == BOOTED && ss[|steps|] == Crowded(NEW_CHILD)
  {
    var s1 := BOOTED.(ps := BOOTED.ps[0 := NEW_CHILD.(waittime := 1)], ticks := 1);
    var s2 := s1.(ps := s1.ps[0 := NEW_CHILD.(state := RUNNING)]);
    var s3, s4 := Forked(s2, 0, 1), Forked(Forked(s2, 0, 1), 0, 2);
    assert Next(BOOTED, Tick, s1) && Next(s1, Dispatch(0), s2);
    assert Next(s2, Fork(0, 1), s3) && Next(s3, Fork(0, 2), s4) && s4.ps == Crowded(NEW_CHILD).ps;
    hide Next;
    var ss, steps := [BOOTED, s1, s2, s3, s4], [Tick, Dispatch(0), Fork(0, 1), Fork(0, 2)];
    assert Run(ss, steps) && ss[|steps|] == Crowded(NEW_CHILD);
  }

  /** A run from there to here, with so many turns and forks of slot 1 and no turn of slot 2. */
  ghost predicate CrowdRun(ss: seq<Sched>, steps: seq<Step>, child: Proc, turns: nat, forks: nat) {
    && Run(ss, steps) && |ss| == |steps| + 1 && ss[0] == Crowded(NEW_CHILD) && ss[|steps|] == Crowded(child)
    && Count(steps, Dispatch(1)) == turns && Forks(steps, 1) == forks && Count(steps, Dispatch(2)) == 0
  }

  lemma RunMore(ss: seq<Sched>, steps: seq<Step>, step: Step, s': Sched)
    requires Run(ss, steps) && |ss| == |steps| + 1 && Next(ss[|steps|], step, s')
    ensures Run(ss + [s'], steps + [step])
    ensures forall x :: Count(steps + [step], x) == Count(steps, x) + if step == x then 1 else 0
    ensures forall o :: Forks(steps + [step], o) == Forks(steps, o) + if step.Fork? && step.child == o then 1 else 0
  {
    assert (steps + [step])[..|steps|] == steps;
  }

  /** The child runs. */
  lemma CrowdTurn(ss: seq<Sched>, steps: seq<Step>, n: nat) returns (ss': seq<Sched>, steps': seq<Step>)
    requires CrowdRun(ss, steps, NEW_CHILD, n, n)
    ensures CrowdRun(ss', steps', NEW_CHILD.(state := RUNNING), n + 1, n)
  {
    var s' := Crowded(NEW_CHILD.(state := RUNNING));
    assert Next(Crowded(NEW_CHILD), Dispatch(1), s');
    hide Next, Crowded;
    RunMore(ss, steps, Dispatch(1), s');
    ss', steps' := ss + [s'], steps + [Dispatch(1)];
  }

  /** It exits and is reaped. */
  lemma CrowdExit(ss: seq<Sched>, steps: seq<Step>, n: nat) returns (ss': seq<Sched>, steps': seq<Step>)
    requires CrowdRun(ss, steps, NEW_CHILD.(state := RUNNING), n + 1, n)
    ensures CrowdRun(ss', steps', NEW_CHILD.(state := UNUSED), n + 1, n)
  {
    var s1, s2 := Crowded(NEW_CHILD.(state := ZOMBIE)), Crowded(NEW_CHILD.(state := UNUSED));
    assert Next(Crowded(NEW_CHILD.(state := RUNNING)), Exit(1), s1) && Next(s1, Reap(1), s2);
    hide Next, Crowded;
    RunMore(ss, steps, Exit(1), s1);
    RunMore(ss + [s1], steps + [Exit(1)], Reap(1), s2);
    ss', steps' := ss + [s1] + [s2], steps + [Exit(1)] + [Reap(1)];
  }

  /** The parent forks the next one into the same slot. */
  lemma CrowdFork(ss: seq<Sched>, steps: seq<Step>, n: nat) returns (ss': seq<Sched>, steps': seq<Step>)
    requires CrowdRun(ss, steps, NEW_CHILD.(state := UNUSED), n + 1, n)
    ensures CrowdRun(ss', steps', NEW_CHILD, n + 1, n + 1)
  {
    var s := Crowded(NEW_CHILD.(state := UNUSED));
    assert Crowded(NEW_CHILD) == Forked(s, 0, 1);
    assert Next(s, Fork(0, 1), Crowded(NEW_CHILD));
    hide Next, Crowded;
    RunMore(ss, steps, Fork(0, 1), Crowded(NEW_CHILD));
    ss', steps' := ss + [Crowded(NEW_CHILD)], steps + [Fork(0, 1)];
  }

  lemma {:induction false} Crowding(n: nat) returns (ss: seq<Sched>, steps: seq<Step>)
    ensures CrowdRun(ss, steps, NEW_CHILD, n, n)
  {
    if n == 0 {
      ss, steps := [Crowded(NEW_CHILD)], [];
    } else {
      ss, steps := Crowding(n - 1);
      hide CrowdRun;
      ss, steps := CrowdTurn(ss, steps, n - 1);
      ss, steps := CrowdExit(ss, steps, n - 1);
      ss, steps := CrowdFork(ss, steps, n - 1);
    }
  }

  /** With fork the bound is reached for every number of forks: a process that is due all the time can wait
      for any number of turns of one other slot. */
  lemma ForkStarves(n: nat)
    ensures exists ss, steps ::
      && Run(ss, steps) && Due(ss[0], 2) && Due(ss[|steps|], 2) && Count(steps, Dispatch(2)) == 0
      && Forks(steps, 1) == n && Count(steps, Dispatch(1)) == n + 1
  {
    var ss, steps := Crowding(n);
    ss, steps := CrowdTurn(ss, steps, n);
    assert Due(ss[0], 2) && Due(ss[|steps|], 2);
  }

  // ---- the code -----------------------------------------------------------------------------------------------

  class Table {
    const proc: array<Proc>
    var ticks: nat

    ghost function View(): (s: Sched)
      reads this, proc
    {
      Sched(proc[..], ticks)
    }

    /** clockintr's loop over the table, after the tick is counted. */
    method Clockintr()
      modifies this, proc
      ensures Next(old(View()), Tick, View())
    {
      ticks := ticks + 1;
      var i := 0;
      while i < proc.Length
        invariant 0 <= i <= proc.Length && ticks == old(ticks) + 1
        invariant forall k :: 0 <= k < i ==> proc[k] == Aged(old(proc[k]))
        invariant forall k :: i <= k < proc.Length ==> proc[k] == old(proc[k])
      {
        var p := proc[i];
        if p.state == RUNNABLE {
          p := p.(waittime := p.waittime + 1);
          if p.waittime >= MAX_WAIT_TIME {
            p := p.(waittime := 0);
            if p.queue > 0 {
              p := p.(queue := p.queue - 1);
            }
          }
        } else if p.state == RUNNING {
          p := p.(rtime := p.rtime + 1);
        }
        proc[i] := p;
        i := i + 1;
      }
    }

    /** The scheduler's scan; -1 when nothing is runnable. */
    method Pick() returns (best: int)
      ensures -1 <= best < proc.Length
      ensures best >= 0 ==> IsBest(proc[..], best)
      ensures best < 0 ==> forall j :: 0 <= j < proc.Length ==> proc[j].state != RUNNABLE
    {
      best := -1;
      var p := 0;
      while p < proc.Length
        invariant 0 <= p <= proc.Length && -1 <= best < p
        invariant best >= 0 ==> IsBest(proc[..p], best)
        invariant best < 0 ==> forall j :: 0 <= j < p ==> proc[j].state != RUNNABLE
      {
        ghost var was := best;
        if proc[p].state == RUNNABLE {
          if best < 0 || Better(proc[p], proc[best]) {
            best := p;
          }
        }
        BestMore(proc[..p], proc[p], was);
        assert proc[..p + 1] == proc[..p] + [proc[p]];
        p := p + 1;
      }
      assert proc[..p] == proc[..];
    }

    /** One round of the scheduler loop up to the context switch. */
    method Schedule() returns (best: int)
      modifies proc
      ensures -1 <= best < proc.Length
      ensures best >= 0 ==> Next(old(View()), Dispatch(best), View())
      ensures best < 0 ==> View() == old(View()) && forall j :: 0 <= j < proc.Length ==> proc[j].state != RUNNABLE
    {
      best := Pick();
      if best >= 0 {
        proc[best] := proc[best].(ticksused := 0, waittime := 0).(state := RUNNING);
      }
    }

    /** yield. */
    method YieldProc(i: nat)
      requires i < proc.Length && proc[i].state == RUNNING
      modifies proc
      ensures Next(old(View()), Yield(i), View())
    {
      var p := proc[i].(state := RUNNABLE);
      if p.queue != NQUEUE - 1 && p.ticksused >= Slice(p.queue) {
        p := p.(queue := p.queue + 1);
      }
      proc[i] := p.(intime := ticks, ticksused := 0);
    }

    /** The timer interrupt of a running process: it yields when its slice is used up or a process in
        a better queue is waiting, and keeps the CPU otherwise. */
    method Timer(i: nat) returns (yielded: bool)
      requires i < proc.Length && proc[i].state == RUNNING
      modifies proc
      ensures yielded <==>
        || old(proc[i]).ticksused + 1 >= Slice(old(proc[i]).queue)
        || exists j :: 0 <= j < proc.Length && old(proc[j]).state == RUNNABLE && old(proc[j]).queue < old(proc[i]).queue
      ensures proc[..] == old(proc[..])[i :=
        var p := old(proc[i]).(ticksused := old(proc[i]).ticksused + 1); if yielded then Yielded(p, ticks) else p]
      ensures var mid := old(View()).(ps := old(proc[..])[i := old(proc[i]).(ticksused := old(proc[i]).ticksused + 1)]);
        Next(old(View()), Use(i), mid) && if yielded then Next(mid, Yield(i), View()) else View() == mid
    {
      proc[i] := proc[i].(ticksused := proc[i].ticksused + 1);
      if proc[i].ticksused >= Slice(proc[i].queue) {
        YieldProc(i);
        assert proc[..] == old(proc[..])[i := proc[i]];
        return true;
      }
      var t := 0;
      while t < proc.Length
        invariant 0 <= t <= proc.Length
        invariant forall j :: 0 <= j < t ==>
          !(old(proc[j]).state == RUNNABLE && old(proc[j]).queue < old(proc[i]).queue)
      {
        if proc[t].state == RUNNABLE && proc[t].queue < proc[i].queue {
          assert old(proc[t]).state == RUNNABLE && old(proc[t]).queue < old(proc[i]).queue;
          YieldProc(i);
          assert proc[..] == old(proc[..])[i := proc[i]];
          return true;
        }
        t := t + 1;
      }
      return false;
    }

    /** fork by the running process i, with the search of allocproc; -1 when the table is full. */
    method ForkProc(i: nat) returns (child: int)
      requires i < proc.Length && proc[i].state == RUNNING
      modifies proc
      ensures -1 <= child < proc.Length
      ensures child >= 0 ==> Next(old(View()), Fork(i, child), View())
      ensures child >= 0 ==> forall k :: 0 <= k < child ==> old(proc[k]).state != UNUSED
      ensures child < 0 ==> View() == old(View()) && forall k :: 0 <= k < proc.Length ==> proc[k].state != UNUSED
    {
      child := 0;
      while child < proc.Length && proc[child].state != UNUSED
        invariant 0 <= child <= proc.Length
        invariant forall k :: 0 <= k < child ==> proc[k].state != UNUSED
      {
        child := child + 1;
      }
      if child == proc.Length {
        return -1;
      }
      proc[child] := Proc(USED, 0, 0, 0, 0, 0, proc[child].chan);
      proc[child] := proc[child].(state := RUNNABLE);
      proc[i] := proc[i].(queue := 0, intime := ticks);
    }

    /** wakeup(chan) called by process `self`: a run of Rouse steps. */
    method Wakeup(chan: int, self: int) returns (ghost ss: seq<Sched>, ghost steps: seq<Step>)
      modifies proc
      ensures Run(ss, steps) && ss[0] == old(View()) && ss[|steps|] == View()
      ensures forall k :: 0 <= k < |steps| ==> steps[k].Rouse?
      ensures forall k :: 0 <= k < proc.Length ==>
        proc[k] == if k != self && Waits(old(proc[k]).state, old(proc[k]).chan, chan)
          then Roused(old(proc[k]), ticks) else old(proc[k])
    {
      var i := 0;
      ss, steps := [View()], [];
      while i < proc.Length
        invariant 0 <= i <= proc.Length
        invariant Run(ss, steps) && ss[0] == old(View()) && ss[|steps|] == View()
        invariant forall k :: 0 <= k < |steps| ==> steps[k].Rouse?
        invariant forall k :: i <= k < proc.Length ==> proc[k] == old(proc[k])
        invariant forall k :: 0 <= k < i ==>
          proc[k] == if k != self && Waits(old(proc[k]).state, old(proc[k]).chan, chan)
            then Roused(old(proc[k]), ticks) else old(proc[k])
      {
        if i != self && proc[i].state == SLEEPING && proc[i].chan == chan {
          proc[i] := proc[i].(state := RUNNABLE).(ticksused := 0, intime := ticks);
          RunMore(ss, steps, Rouse(i), View());
          ss, steps := ss + [View()], steps + [Rouse(i)];
        }
        i := i + 1;
      }
    }
  }

  /** The scan's choice after one more process. */
  lemma BestMore(ps: seq<Proc>, p: Proc, best: int)
    requires best < 0 || IsBest(ps, best)
    requires best < 0 ==> forall j :: 0 <= j < |ps| ==> ps[j].state != RUNNABLE
    ensures p.state == RUNNABLE && (best < 0 || Better(p, ps[best])) ==> IsBest(ps + [p], |ps|)
    ensures best >= 0 && !(p.state == RUNNABLE && Better(p, ps[best])) ==> IsBest(ps + [p], best)
    ensures best < 0 && p.state != RUNNABLE ==> forall j :: 0 <= j < |ps + [p]| ==> (ps + [p])[j].state != RUNNABLE
  {
    var qs := ps + [p];
    assert forall j :: 0 <= j < |ps| ==> qs[j] == ps[j];
  }
}
