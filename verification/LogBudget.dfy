/** Log space: begin_op reserves MAXOPBLOCKS blocks for every operation, so an operation that has
    not used up its reservation finds room in the header.  Whether it also finds room on disk
    depends on the size of the log area. */
module LogBudget {
  import opened LogModel
  import opened LogRefinement

  ghost function Sum(m: map<Pid, nat>): (r: nat) {
    if m == map[] then 0 else var p :| p in m; m[p] + Sum(m - {p})
  }

  lemma {:induction false} SumRemove(m: map<Pid, nat>, p: Pid)
    requires p in m
    ensures Sum(m) == m[p] + Sum(m - {p})
    decreases |m|
  {
    var q :| q in m && Sum(m) == m[q] + Sum(m - {q});
    if q != p {
      SumRemove(m - {q}, p);
      SumRemove(m - {p}, q);
      assert m - {q} - {p} == m - {p} - {q};
    }
  }

  lemma SumUpdate(m: map<Pid, nat>, p: Pid, v: nat)
    ensures Sum(m[p := v]) == v + Sum(m - {p})
  {
    SumRemove(m[p := v], p);
    assert m[p := v] - {p} == m - {p};
  }

  lemma {:induction false} SumBound(m: map<Pid, nat>)
    requires WithinBudget(m)
    ensures Sum(m) <= MAXOPBLOCKS * |m|
    decreases |m|
  {
    if m != map[] {
      var p :| p in m;
      SumRemove(m, p);
      assert |m - {p}| == |m| - 1 by { assert m.Keys == (m - {p}).Keys + {p}; }
      SumBound(m - {p});
    }
  }

  /** How a step changes the number of blocks each operation in progress has added to the log. */
  ghost function Ledger(s: State, s': State, step: Step, m: map<Pid, nat>): (r: map<Pid, nat>) {
    match step
    case BeginStep(p) => m[p := 0]
    case EndStep(p) => m - {p}
    case CrashStep => map[]
    case LogWriteStep(p, i) => if |s'.lh| > |s.lh| && p in m then m[p := m[p] + 1] else m
    case _ => m
  }

  /** The blocks each operation in progress has added to the log in the course of a run. */
  ghost function Spent(states: seq<State>, steps: seq<Step>): (r: map<Pid, nat>)
    requires |states| == |steps| + 1
    decreases |steps|
  {
    if steps == [] then map[] else
      var n := |steps| - 1;
      Ledger(states[n], states[n + 1], steps[n], Spent(states[..n + 1], steps[..n]))
  }

  /** Every operation adds at most MAXOPBLOCKS blocks to the log. */
  ghost predicate Budgeted(states: seq<State>, steps: seq<Step>)
    requires |states| == |steps| + 1
  {
    forall k :: 0 <= k <= |steps| ==> WithinBudget(Spent(states[..k + 1], steps[..k]))
  }

  ghost predicate WithinBudget(m: map<Pid, nat>) {
    forall p :: p in m ==> m[p] <= MAXOPBLOCKS
  }

  function Last<T>(s: seq<T>): (r: T)
    requires s != []
  {
    s[|s| - 1]
  }

  lemma RunPrefix(l: Layout, states: seq<State>, steps: seq<Step>)
    requires Run(l, states, steps) && steps != []
    ensures Run(l, states[..|steps|], steps[..|steps| - 1])
  {
  }

  lemma BudgetPrefix(states: seq<State>, steps: seq<Step>)
    requires |states| == |steps| + 1 && steps != [] && Budgeted(states, steps)
    ensures Budgeted(states[..|steps|], steps[..|steps| - 1])
  {
    var n := |steps| - 1;
    forall k | 0 <= k <= n ensures WithinBudget(Spent(states[..n + 1][..k + 1], steps[..n][..k])) {
      assert states[..n + 1][..k + 1] == states[..k + 1] && steps[..n][..k] == steps[..k];
    }
  }

  /** The reservation invariant: header entries plus unused reservations fit in LOGSIZE. */
  lemma {:induction false} Reservation(l: Layout, states: seq<State>, steps: seq<Step>)
    requires Run(l, states, steps) && Budgeted(states, steps)
    ensures Spent(states, steps).Keys == Last(states).ops
    ensures |Last(states).lh| + MAXOPBLOCKS * |Last(states).ops| <= LOGSIZE + Sum(Spent(states, steps))
    decreases |steps|
  {
    RunInv(l, states, steps, |steps|);
    if steps != [] {
      var n := |steps| - 1;
      var m := Spent(states[..n + 1], steps[..n]);
      assert WithinBudget(m);
      RunPrefix(l, states, steps);
      BudgetPrefix(states, steps);
      Reservation(l, states[..n + 1], steps[..n]);
      assert Next(l, states[n], states[n + 1], steps[n]);
      RunInv(l, states, steps, n);
      StepReserves(l, states[n], states[n + 1], steps[n], m, Spent(states, steps));
    }
  }

  /** One step keeps the reservation, given how it changes the ledger of spent blocks. */
  lemma StepReserves(l: Layout, s: State, s': State, step: Step, m: map<Pid, nat>, m': map<Pid, nat>)
    requires Next(l, s, s', step)
    requires |s'.lh| <= LOGSIZE && (s.mode != Running ==> s.ops == {})
    requires m.Keys == s.ops && WithinBudget(m) && m' == Ledger(s, s', step, m)
    requires |s.lh| + MAXOPBLOCKS * |s.ops| <= LOGSIZE + Sum(m)
    ensures m'.Keys == s'.ops
    ensures |s'.lh| + MAXOPBLOCKS * |s'.ops| <= LOGSIZE + Sum(m')
  {
    if step.BeginStep? {
      BeginReserves(l, s, s', step.p, m);
    } else if step.EndStep? {
      EndReserves(l, s, s', step.p, m);
    } else if step.LogWriteStep? {
      LogWriteReserves(l, s, s', step.p, step.i, m);
    } else if !step.CrashStep? {
      OtherStepReserves(l, s, s', step);
    }
  }

  lemma BeginReserves(l: Layout, s: State, s': State, p: Pid, m: map<Pid, nat>)
    requires Begin(l, s, s', p) && m.Keys == s.ops
    ensures m[p := 0].Keys == s'.ops
    ensures |s'.lh| + MAXOPBLOCKS * |s'.ops| <= LOGSIZE + Sum(m[p := 0])
  {
    assert |s'.ops| == |s.ops| + 1;
  }

  lemma EndReserves(l: Layout, s: State, s': State, p: Pid, m: map<Pid, nat>)
    requires End(l, s, s', p) && m.Keys == s.ops && WithinBudget(m)
    requires |s.lh| + MAXOPBLOCKS * |s.ops| <= LOGSIZE + Sum(m)
    ensures (m - {p}).Keys == s'.ops
    ensures |s'.lh| + MAXOPBLOCKS * |s'.ops| <= LOGSIZE + Sum(m - {p})
  {
    SumRemove(m, p);
    assert |s'.ops| == |s.ops| - 1;
  }

  lemma LogWriteReserves(l: Layout, s: State, s': State, p: Pid, i: nat, m: map<Pid, nat>)
    requires LogWrite(l, s, s', p, i) && m.Keys == s.ops
    requires |s.lh| + MAXOPBLOCKS * |s.ops| <= LOGSIZE + Sum(m)
    ensures var m' := Ledger(s, s', LogWriteStep(p, i), m);
            m'.Keys == s'.ops && |s'.lh| + MAXOPBLOCKS * |s'.ops| <= LOGSIZE + Sum(m')
  {
    SumUpdate(m, p, m[p] + 1);
    SumRemove(m, p);
    assert s'.ops == s.ops;
    assert m[p := m[p] + 1].Keys == m.Keys;
  }

  lemma OtherStepReserves(l: Layout, s: State, s': State, step: Step)
    requires Next(l, s, s', step)
    requires !step.BeginStep? && !step.EndStep? && !step.LogWriteStep? && !step.CrashStep?
    requires s.mode != Running ==> s.ops == {}
    ensures s'.ops == s.ops
    ensures s'.lh == s.lh || s.ops == {}
  {
  }

  /** An operation that still has reservation left finds room in the header, and if the log area
      has LOGSIZE blocks besides its header then log_write does not panic. */
  lemma RoomInLog(l: Layout, states: seq<State>, steps: seq<Step>, p: Pid)
    requires Run(l, states, steps) && Budgeted(states, steps)
    requires p in Spent(states, steps) && Spent(states, steps)[p] < MAXOPBLOCKS
    ensures |Last(states).lh| < LOGSIZE
    ensures l.size - 1 >= LOGSIZE ==> !LogFull(l, Last(states))
  {
    hide Spent;
    Reservation(l, states, steps);
    var m := Spent(states, steps);
    assert m == Spent(states[..|steps| + 1], steps[..|steps|]) by {
      assert states[..|steps| + 1] == states && steps[..|steps|] == steps;
    }
    assert WithinBudget(m);
    SumRemove(m, p);
    SumBound(m - {p});
    assert |m - {p}| == |m| - 1 by { assert m.Keys == (m - {p}).Keys + {p}; }
  }
}
