/** The reservation is not enough when the log area is small, and a full log is too much for the cache
    when it is not.  mkfs makes the log area LOGSIZE blocks long including its header, so log_write
    already refuses the block number LOGSIZE - 1 while some operation has reservation left.  A log area
    with LOGSIZE blocks besides its header lets a transaction pin all buffers, and then commit finds
    none for its first log block. */
module LogOverflow {
  import opened LogModel
  import opened LogInvariant
  import opened LogRefinement
  import opened LogBudget
  import LogCode
  import Pigeonhole

  /** A run that keeps every operation within its reservation, ends in `s`, and has spent `m`. */
  ghost predicate LeadsTo(l: Layout, states: seq<State>, steps: seq<Step>, s: State, m: map<Pid, nat>) {
    && Run(l, states, steps) && Budgeted(states, steps)
    && Last(states) == s && Spent(states, steps) == m
  }

  ghost predicate Reachable(l: Layout, s: State, m: map<Pid, nat>) {
    exists states, steps :: LeadsTo(l, states, steps, s, m)
  }

  lemma Extend(l: Layout, states: seq<State>, steps: seq<Step>, s: State, m: map<Pid, nat>, s': State, step: Step)
    requires LeadsTo(l, states, steps, s, m) && Next(l, s, s', step)
    requires WithinBudget(Ledger(s, s', step, m))
    ensures LeadsTo(l, states + [s'], steps + [step], s', Ledger(s, s', step, m))
  {
    hide Next, Ledger, WithinBudget;
    var states', steps' := states + [s'], steps + [step];
    var n := |steps|;
    assert states'[..n + 1] == states && steps'[..n] == steps;
    forall k | 0 <= k <= |steps'| ensures WithinBudget(Spent(states'[..k + 1], steps'[..k])) {
      if k <= n {
        assert states'[..k + 1] == states[..k + 1] && steps'[..k] == steps[..k];
      } else {
        assert states'[..k + 1] == states' && steps'[..k] == steps';
      }
    }
  }

  lemma Do(l: Layout, s: State, m: map<Pid, nat>, s': State, step: Step)
    requires Reachable(l, s, m) && Next(l, s, s', step)
    requires WithinBudget(Ledger(s, s', step, m))
    ensures Reachable(l, s', Ledger(s, s', step, m))
  {
    var states, steps :| LeadsTo(l, states, steps, s, m);
    Extend(l, states, steps, s, m, s', step);
  }

  /** Two steps of a process on its buffer; they leave the ledger alone. */
  lemma DoTwo(l: Layout, s: State, m: map<Pid, nat>, s1: State, step1: Step, s2: State, step2: Step)
    requires Reachable(l, s, m) && WithinBudget(m)
    requires Next(l, s, s1, step1) && Next(l, s1, s2, step2)
    requires step1.GetRecycleStep? || step1.UnlockStep?
    requires step2.LockStep? || step2.DropStep?
    ensures Reachable(l, s2, m)
  {
    Do(l, s, m, s1, step1);
    Do(l, s1, m, s2, step2);
  }

  // ---- the states of the run --------------------------------------------------------------------

  /** No process uses a buffer, and buffers from `n` on are unreferenced. */
  ghost predicate Quiet(s: State, n: nat) {
    && |s.bufs| == NBUF
    && (forall k :: 0 <= k < NBUF ==>
         s.bufs[k].users == {} && s.bufs[k].lock == Nobody && !s.bufs[k].dirty)
    && (forall k :: n <= k < NBUF ==> s.bufs[k].refcnt == 0)
  }

  /** Three operations are running and the first `n` blocks after the log area are logged. */
  ghost predicate Filled(l: Layout, s: State, n: nat) {
    && Quiet(s, n) && |s.disk| == l.nblocks && l.start + l.size + n <= l.nblocks
    && s.mode == Running && s.ops == {0, 1, 2}
    && |s.lh| == n && (forall k :: 0 <= k < n ==> s.lh[k] == l.start + l.size + k)
    && (forall k :: 0 <= k < NBUF && s.bufs[k].dev == ROOTDEV ==> s.bufs[k].blockno < l.start + l.size + n)
  }

  /** Operation 0 takes the first ten blocks, operation 1 the next ten, operation 2 the rest. */
  ghost function Split(n: nat): (m: map<Pid, nat>)
    requires n <= 30
    ensures WithinBudget(m)
  {
    map[0 := if n <= 10 then n else 10,
        1 := if n <= 10 then 0 else if n <= 20 then n - 10 else 10,
        2 := if n <= 20 then 0 else n - 20]
  }

  function Spender(n: nat): (p: Pid)
    requires n < 30
    ensures p in {0, 1, 2} && 10 * p <= n < 10 * p + 10
  {
    if n < 10 then 0 else if n < 20 then 1 else 2
  }

  /** A buffer that process `p` has just locked, holding block `b` from disk. */
  function Held(s: State, p: Pid, b: nat): (r: Buf)
    requires b < |s.disk|
  {
    Buf(ROOTDEV, b, true, 1, s.disk[b], Holder(p), {p}, false)
  }

  /** bread of an uncached block into an unreferenced buffer. */
  lemma Grab(l: Layout, s: State, p: Pid, i: nat, b: nat) returns (s1: State, s2: State)
    requires b < l.nblocks == |s.disk|
    requires i < |s.bufs| && s.bufs[i].refcnt == 0
    requires s.bufs[i].lock == Nobody && !s.bufs[i].dirty
    requires forall k :: 0 <= k < |s.bufs| ==> !Carries(s.bufs[k], b)
    ensures Next(l, s, s1, GetRecycleStep(p, i, b)) && Next(l, s1, s2, LockStep(p, i))
    ensures s2 == s.(bufs := s.bufs[i := Held(s, p, b)], where := s2.where)
  {
    var b1 := s.bufs[i].(dev := ROOTDEV, blockno := b, valid := false, refcnt := 1, users := {p});
    var gone := if s.bufs[i].dev == ROOTDEV then {s.bufs[i].blockno} else {};
    s1 := s.(bufs := s.bufs[i := b1], where := (s.where - gone)[b := i]);
    s2 := s1.(bufs := s1.bufs[i := b1.(lock := Holder(p), valid := true, data := s1.disk[b])]);
  }

  /** brelse by the only user. */
  lemma Release(l: Layout, s: State, p: Pid, i: nat) returns (s1: State, s2: State)
    requires i < |s.bufs| && s.bufs[i].lock == Holder(p) && s.bufs[i].users == {p} && !s.bufs[i].dirty
    ensures Next(l, s, s1, UnlockStep(p, i)) && Next(l, s1, s2, DropStep(p, i))
    ensures s2 == s.(bufs := s.bufs[i := s.bufs[i].(lock := Nobody, refcnt := s.bufs[i].refcnt - 1, users := {})])
  {
    s1 := s.(bufs := s.bufs[i := s.bufs[i].(lock := Nobody)]);
    s2 := s1.(bufs := s1.bufs[i := s1.bufs[i].(refcnt := s.bufs[i].refcnt - 1, users := s1.bufs[i].users - {p})]);
    assert s1.bufs[i].users - {p} == {};
  }

  // ---- the run ------------------------------------------------------------------------------------

  /** Reading the empty header and clearing it opens the log. */
  lemma Recover(l: Layout, s: State) returns (s1: State, s2: State)
    requires WellFormed(l) && s.mode == Booting && |s.disk| == l.nblocks && |s.bufs| == NBUF
    requires s.disk[l.start][0] == 0 && s.bufs[NBUF - 1] == Held(s, 0, l.start)
    ensures Next(l, s, s1, ReadHeadStep(0, NBUF - 1)) && Next(l, s1, s2, ClearHeadStep(0, NBUF - 1))
    ensures s2 == s.(bufs := s.bufs[NBUF - 1 := s.bufs[NBUF - 1].(data := s2.bufs[NBUF - 1].data)],
                     disk := s2.disk, lh := [], mode := Running)
    ensures |s2.disk| == l.nblocks && s2.bufs == s.bufs[NBUF - 1 := s2.bufs[NBUF - 1]]
  {
    var b := s.bufs[NBUF - 1];
    assert Decode(b.data) == [];
    s1 := s.(lh := Decode(b.data), mode := Replaying(0));
    var h := Encode([], b.data);
    s2 := s1.(bufs := s1.bufs[NBUF - 1 := b.(data := h)], disk := s1.disk[l.start := h], lh := [], mode := Running);
  }

  /** begin_op three times. */
  lemma BeginThree(l: Layout, s: State)
    requires Reachable(l, s, map[]) && s.mode == Running && s.ops == {} && s.lh == []
    ensures Reachable(l, s.(ops := {0, 1, 2}), Split(0))
  {
    hide Reachable;
    var s1, s2, s3 := s.(ops := {0}), s.(ops := {0, 1}), s.(ops := {0, 1, 2});
    assert s1.ops == s.ops + {0} && s2.ops == s1.ops + {1} && s3.ops == s2.ops + {2};
    BeginOne(l, s, map[], s1, 0);
    BeginOne(l, s1, map[0 := 0], s2, 1);
    BeginOne(l, s2, map[0 := 0, 1 := 0], s3, 2);
    assert map[0 := 0, 1 := 0][2 := 0] == Split(0);
  }

  lemma BeginOne(l: Layout, s: State, m: map<Pid, nat>, s': State, p: Pid)
    requires Reachable(l, s, m) && s.mode == Running && p !in s.ops && |s.ops| <= 2 && s.lh == []
    requires s' == s.(ops := s.ops + {p})
    requires forall q :: q in m ==> m[q] == 0
    ensures Reachable(l, s', m[p := 0])
  {
    hide Reachable;
    Do(l, s, m, s', BeginStep(p));
  }

  /** The states start-up passes through. */
  lemma BootStates(l: Layout, s0: State) returns (t: seq<State>)
    requires Init(l, s0)
    ensures |t| == 6
    ensures Next(l, s0, t[0], GetRecycleStep(0, NBUF - 1, l.start)) && Next(l, t[0], t[1], LockStep(0, NBUF - 1))
    ensures Next(l, t[1], t[2], ReadHeadStep(0, NBUF - 1)) && Next(l, t[2], t[3], ClearHeadStep(0, NBUF - 1))
    ensures Next(l, t[3], t[4], UnlockStep(0, NBUF - 1)) && Next(l, t[4], t[5], DropStep(0, NBUF - 1))
    ensures t[5].ops == {} && t[5].lh == [] && t[5].mode == Running
    ensures Filled(l, t[5].(ops := {0, 1, 2}), 0)
  {
    var i := NBUF - 1;
    var s1, s2 := Grab(l, s0, 0, i, l.start);
    var s3, s4 := Recover(l, s2);
    var s5, s6 := Release(l, s4, 0, i);
    t := [s1, s2, s3, s4, s5, s6];
  }

  lemma Boot(l: Layout, s0: State) returns (s: State)
    requires Init(l, s0) && Reachable(l, s0, map[])
    ensures Filled(l, s, 0) && Reachable(l, s, Split(0))
  {
    var i := NBUF - 1;
    var t := BootStates(l, s0);
    s := t[5].(ops := {0, 1, 2});
    assert Reachable(l, t[1], map[]) by {
      DoTwo(l, s0, map[], t[0], GetRecycleStep(0, i, l.start), t[1], LockStep(0, i));
    }
    assert Reachable(l, t[3], map[]) by {
      Do(l, t[1], map[], t[2], ReadHeadStep(0, i));
      Do(l, t[2], map[], t[3], ClearHeadStep(0, i));
    }
    DoTwo(l, t[3], map[], t[4], UnlockStep(0, i), t[5], DropStep(0, i));
    BeginThree(l, t[5]);
  }

  /** log_write of a block that is not in the list yet. */
  lemma LogHeld(l: Layout, s: State, p: Pid, i: nat) returns (s': State)
    requires i < |s.bufs| && s.bufs[i].lock == Holder(p) && Home(l, s.bufs[i].blockno) && p in s.ops
    requires !s.bufs[i].dirty && !LogFull(l, s) && s.bufs[i].blockno !in s.lh
    ensures Next(l, s, s', LogWriteStep(p, i))
    ensures s' == s.(bufs := s.bufs[i := s.bufs[i].(refcnt := s.bufs[i].refcnt + 1)],
                     lh := s.lh + [s.bufs[i].blockno])
  {
    s' := s.(bufs := s.bufs[i := s.bufs[i].(refcnt := s.bufs[i].refcnt + 1)],
             lh := s.lh + [s.bufs[i].blockno]);
  }

  /** The states of logging one more block: get its buffer, lock it, log it, release it. */
  lemma LogOneStates(l: Layout, s: State, n: nat, p: Pid)
    returns (s1: State, s2: State, s3: State, s4: State, s5: State)
    requires Filled(l, s, n) && n < l.size - 1 && n < NBUF && l.start + l.size + n < l.nblocks
    requires p in s.ops
    ensures Next(l, s, s1, GetRecycleStep(p, n, l.start + l.size + n)) && Next(l, s1, s2, LockStep(p, n))
    ensures Next(l, s2, s3, LogWriteStep(p, n)) && |s3.lh| == |s2.lh| + 1
    ensures Next(l, s3, s4, UnlockStep(p, n)) && Next(l, s4, s5, DropStep(p, n))
    ensures Filled(l, s5, n + 1)
  {
    s1, s2 := Grab(l, s, p, n, l.start + l.size + n);
    s3 := LogHeld(l, s2, p, n);
    s4, s5 := Release(l, s3, p, n);
  }

  lemma LogOne(l: Layout, s: State, n: nat, p: Pid) returns (s': State)
    requires p in s.ops && p < 3 && 10 * p <= n < 10 * p + 10
    requires Filled(l, s, n) && n < l.size - 1 && n < NBUF && l.start + l.size + n < l.nblocks
    requires Reachable(l, s, Split(n))
    ensures Filled(l, s', n + 1) && Reachable(l, s', Split(n + 1))
  {
    hide Reachable, Next, Filled;
    var s1, s2, s3, s4, s5 := LogOneStates(l, s, n, p);
    s' := s5;
    var b := l.start + l.size + n;
    DoTwo(l, s, Split(n), s1, GetRecycleStep(p, n, b), s2, LockStep(p, n));
    LogAndRelease(l, s2, s3, s4, s5, n, p);
  }

  lemma LogAndRelease(l: Layout, s1: State, s2: State, s3: State, s4: State, n: nat, p: Pid)
    requires p < 3 && 10 * p <= n < 10 * p + 10
    requires Reachable(l, s1, Split(n)) && |s2.lh| == |s1.lh| + 1
    requires Next(l, s1, s2, LogWriteStep(p, n))
    requires Next(l, s2, s3, UnlockStep(p, n)) && Next(l, s3, s4, DropStep(p, n))
    ensures Reachable(l, s4, Split(n + 1))
  {
    hide Reachable, Next;
    SpendOne(s1, s2, n, p);
    Do(l, s1, Split(n), s2, LogWriteStep(p, n));
    DoTwo(l, s2, Split(n + 1), s3, UnlockStep(p, n), s4, DropStep(p, n));
  }

  lemma SpendOne(s: State, s': State, n: nat, p: Pid)
    requires p < 3 && 10 * p <= n < 10 * p + 10 && |s'.lh| == |s.lh| + 1
    ensures Ledger(s, s', LogWriteStep(p, n), Split(n)) == Split(n + 1)
  {
  }

  lemma {:induction false} Fill(l: Layout, s0: State, n: nat) returns (s: State)
    requires Init(l, s0) && Reachable(l, s0, map[])
    requires n <= l.size - 1 && n <= NBUF && l.start + l.size + n <= l.nblocks
    ensures Filled(l, s, n) && Reachable(l, s, Split(n))
  {
    hide Reachable, Init;
    if n == 0 {
      s := Boot(l, s0);
    } else {
      s := Fill(l, s0, n - 1);
      s := LogOne(l, s, n - 1, Spender(n - 1));
    }
  }

  lemma InitReachable(l: Layout, s0: State)
    requires Init(l, s0)
    ensures Reachable(l, s0, map[])
  {
    var states, steps: seq<Step> := [s0], [];
    assert LeadsTo(l, states, steps, s0, map[]);
  }

  // ---- the exact condition ------------------------------------------------------------------------

  /** Process `p` has reservation left, yet log_write would panic. */
  ghost predicate Panics(l: Layout, s: State, m: map<Pid, nat>, p: Pid) {
    Reachable(l, s, m) && p in m && m[p] < MAXOPBLOCKS && LogFull(l, s)
  }

  lemma ZeroDisk(l: Layout) returns (s0: State)
    requires WellFormed(l)
    ensures Init(l, s0)
  {
    var zero: Block := seq(WORDS, _ => 0);
    var buf := Buf(0, 0, false, 0, zero, Nobody, {}, false);
    s0 := State(seq(l.nblocks, _ => zero), seq(NBUF, _ => buf), map[], [], {}, Booting);
  }

  lemma SmallLogPanics(l: Layout)
    requires WellFormed(l) && l.start + 2 * l.size <= l.nblocks && l.size - 1 < LOGSIZE
    ensures exists s, m, p :: Panics(l, s, m, p)
  {
    var s0 := ZeroDisk(l);
    InitReachable(l, s0);
    var s := Fill(l, s0, l.size - 1);
    assert Panics(l, s, Split(l.size - 1), Spender(l.size - 1));
  }

  /** The reservation protects log_write exactly when the log area has LOGSIZE blocks besides its
      header.  (The file system must have room for as many data blocks as the log area has.) */
  lemma RoomIffLogLargeEnough(l: Layout)
    requires WellFormed(l) && l.start + 2 * l.size <= l.nblocks
    ensures (exists s, m, p :: Panics(l, s, m, p)) <==> l.size - 1 < LOGSIZE
  {
    if l.size - 1 >= LOGSIZE {
      forall s, m, p | Panics(l, s, m, p) ensures false {
        var states, steps :| LeadsTo(l, states, steps, s, m);
        RoomInLog(l, states, steps, p);
      }
    } else {
      SmallLogPanics(l);
    }
  }

  /** The log area mkfs lays out, nlog = LOGSIZE, is one block short. */
  lemma MkfsLogTooSmall(start: nat, nblocks: nat)
    requires start + 2 * LOGSIZE <= nblocks
    ensures exists s, m, p :: Panics(Layout(start, LOGSIZE, nblocks), s, m, p)
  {
    RoomIffLogLargeEnough(Layout(start, LOGSIZE, nblocks));
  }

  // ---- a full log and the cache -------------------------------------------------------------------

  /** A commit is about to start, nobody else uses a buffer, and bget for the first log block panics. */
  ghost predicate CommitPanics(l: Layout, s: State, m: map<Pid, nat>) {
    && Reachable(l, s, m) && s.mode == WritingLog(0) && LogCode.NoUsers(s)
    && LogCode.CacheFull(s, l.start + 1)
  }

  lemma ReachableInv(l: Layout, s: State, m: map<Pid, nat>)
    requires Reachable(l, s, m)
    ensures Inv(l, s)
  {
    hide Inv, Next, Spent;
    var states, steps :| LeadsTo(l, states, steps, s, m);
    RunInv(l, states, steps, |steps|);
  }

  /** end_op of one of the three operations. */
  lemma EndOne(l: Layout, s: State, m: map<Pid, nat>, p: Pid) returns (s': State)
    requires Reachable(l, s, m) && WithinBudget(m) && p in s.ops
    requires forall k :: 0 <= k < |s.bufs| ==> !s.bufs[k].dirty
    ensures s' == s.(ops := s.ops - {p}, mode := if s.ops == {p} && |s.lh| > 0 then WritingLog(0) else s.mode)
    ensures Reachable(l, s', m - {p})
  {
    hide Reachable;
    s' := s.(ops := s.ops - {p}, mode := if s.ops == {p} && |s.lh| > 0 then WritingLog(0) else s.mode);
    Do(l, s, m, s', EndStep(p));
  }

  /** All three operations end after filling the log: the commit starts with that list. */
  lemma EndThree(l: Layout, s: State, n: nat) returns (s': State)
    requires s.ops == {0, 1, 2} && |s.lh| == n && 0 < n <= 30 && Reachable(l, s, Split(n))
    requires forall k :: 0 <= k < |s.bufs| ==> !s.bufs[k].dirty
    ensures s' == s.(ops := {}, mode := WritingLog(0)) && Reachable(l, s', Split(n) - {0} - {1} - {2})
  {
    hide Reachable;
    var s1 := EndOne(l, s, Split(n), 0);
    assert s1.ops == {1, 2};
    var s2 := EndOne(l, s1, Split(n) - {0}, 1);
    assert s2.ops == {2};
    s' := EndOne(l, s2, Split(n) - {0} - {1}, 2);
    assert s'.ops == {};
  }

  lemma FullLogPanics(l: Layout)
    requires WellFormed(l) && l.start + l.size + NBUF <= l.nblocks && l.size - 1 >= NBUF
    ensures exists s, m :: CommitPanics(l, s, m)
  {
    hide Reachable, Inv;
    var s0 := ZeroDisk(l);
    InitReachable(l, s0);
    var s := Fill(l, s0, NBUF);
    var s' := EndThree(l, s, NBUF);
    var m := Split(NBUF) - {0} - {1} - {2};
    ReachableInv(l, s', m);
    LogCode.RoomForPair(l, s', l.start + 1);
    assert CommitPanics(l, s', m);
  }

  /** Some run that keeps to its reservations ends in a commit that panics, with no other process in the
      way, exactly when the log area has NBUF blocks besides its header. */
  lemma CommitPanicsIff(l: Layout)
    requires WellFormed(l) && l.start + l.size + NBUF <= l.nblocks
    ensures (exists s, m :: CommitPanics(l, s, m)) <==> l.size - 1 >= NBUF
  {
    if l.size - 1 >= NBUF {
      FullLogPanics(l);
    }
    forall s, m | CommitPanics(l, s, m) ensures l.size - 1 >= NBUF {
      CommitListLong(l, s, m);
    }
  }

  lemma CommitListLong(l: Layout, s: State, m: map<Pid, nat>)
    requires WellFormed(l) && CommitPanics(l, s, m)
    ensures l.size - 1 >= NBUF
  {
    ReachableInv(l, s, m);
    hide Reachable;
    if l.size >= 2 {
      LogCode.RoomForPair(l, s, l.start + 1);
    }
  }

  /** LOGSIZE equals NBUF, so no log area avoids both panics. */
  lemma NoLogSizeIsSafe(l: Layout)
    requires WellFormed(l) && l.start + 2 * l.size <= l.nblocks && l.start + l.size + NBUF <= l.nblocks
    ensures (exists s, m, p :: Panics(l, s, m, p)) || (exists s, m :: CommitPanics(l, s, m))
  {
    RoomIffLogLargeEnough(l);
    CommitPanicsIff(l);
  }

  // ---- a commit with readers in the way ----------------------------------------------------------------

  ghost function PinnedBufs(s: State): (ks: set<nat>) {
    set k: nat | k < |s.bufs| && IsPinned(s, s.bufs[k])
  }

  /** The buffers that processes hold beside those of the transaction. */
  ghost function Others(s: State): (ks: set<nat>) {
    set k: nat | k < |s.bufs| && s.bufs[k].users != {} && !IsPinned(s, s.bufs[k])
  }

  /** Every block of the transaction has one buffer. */
  lemma PinnedCount(l: Layout, s: State)
    requires Inv(l, s)
    ensures |PinnedBufs(s)| == |Pinned(s)|
  {
    hide Inv, Pinned;
    var pinned := Pinned(s);
    forall i | 0 <= i < |pinned|
      ensures pinned[i] in s.where && s.where[pinned[i]] < NBUF == |s.bufs|
      ensures Carries(s.bufs[s.where[pinned[i]]], pinned[i])
      ensures forall j :: i < j < |pinned| ==> pinned[i] != pinned[j]
    {
      LogCode.PinFacts(l, s, i);
    }
    var f := seq(|pinned|, i requires 0 <= i < |pinned| => s.where[pinned[i]]);
    forall i, j | 0 <= i < j < |f| ensures f[i] != f[j] {
      assert s.bufs[f[i]].blockno == pinned[i] && s.bufs[f[j]].blockno == pinned[j];
    }
    Pigeonhole.ElemsSize(f);
    forall k: nat ensures k in PinnedBufs(s) <==> k in f {
      PinnedAt(l, s, k);
      if k in PinnedBufs(s) {
        var i :| 0 <= i < |pinned| && pinned[i] == s.bufs[k].blockno;
        assert f[i] == k;
      }
    }
    assert Pigeonhole.Elems(f) == PinnedBufs(s);
  }

  lemma PinnedAt(l: Layout, s: State, k: nat)
    requires Inv(l, s)
    ensures |s.bufs| == NBUF
    ensures k < |s.bufs| && s.bufs[k].dev == ROOTDEV ==> s.bufs[k].blockno in s.where && s.where[s.bufs[k].blockno] == k
    ensures k < |s.bufs| ==> (s.bufs[k].refcnt != 0 <==> s.bufs[k].users != {} || IsPinned(s, s.bufs[k]))
  {
    if k < |s.bufs| {
      assert BufOk(l, s, s.bufs[k]);
    }
  }

  lemma CachedAt(l: Layout, s: State, b: nat)
    requires Inv(l, s)
    ensures b in s.where <==> exists k :: 0 <= k < |s.bufs| && Carries(s.bufs[k], b)
  {
  }

  /** bget panics exactly when the block is not cached and the blocks of the transaction, with the buffers
      that processes hold beside them, fill the cache. */
  lemma BgetPanicsIff(l: Layout, s: State, b: nat)
    requires Inv(l, s)
    ensures LogCode.CacheFull(s, b) <==> b !in s.where && |Pinned(s)| + |Others(s)| >= NBUF
  {
    hide Inv, Pinned, IsPinned, Carries;
    PinnedCount(l, s);
    CachedAt(l, s, b);
    var busy := PinnedBufs(s) + Others(s);
    PinnedAt(l, s, 0);
    forall k: nat ensures k in busy <==> k < NBUF && s.bufs[k].refcnt != 0 {
      PinnedAt(l, s, k);
    }
    assert PinnedBufs(s) !! Others(s);
    hide PinnedBufs, Others;
    AllBusyIff(busy, s.bufs);
  }

  lemma AllBusyIff(busy: set<nat>, bufs: seq<Buf>)
    requires |bufs| == NBUF && forall k: nat :: k in busy <==> k < NBUF && bufs[k].refcnt != 0
    ensures (forall k :: 0 <= k < |bufs| ==> bufs[k].refcnt != 0) <==> |busy| >= NBUF
  {
    var all := Pigeonhole.Range(NBUF);
    Pigeonhole.SubsetSize(busy, all);
    if forall k :: 0 <= k < |bufs| ==> bufs[k].refcnt != 0 {
      assert busy == all;
    } else {
      var k :| 0 <= k < |bufs| && bufs[k].refcnt == 0;
      assert k in all && k !in busy;
    }
  }

  /** The log is as full as the layout of mkfs allows, and a reader holds one more buffer. */
  lemma FillAndRead(l: Layout) returns (s: State)
    requires WellFormed(l) && l.size == LOGSIZE && l.start + 2 * l.size <= l.nblocks
    ensures Reachable(l, s, Split(LOGSIZE - 1)) && s.ops == {0, 1, 2} && |s.lh| == LOGSIZE - 1 && s.mode == Running
    ensures |s.bufs| == NBUF && (forall k :: 0 <= k < NBUF ==> !s.bufs[k].dirty)
    ensures forall k :: 0 <= k < NBUF ==> s.bufs[k].refcnt != 0 && !Carries(s.bufs[k], l.start + 1)
    ensures forall k :: 0 <= k < NBUF ==> (s.bufs[k].users != {} <==> k == NBUF - 1)
    ensures s.bufs[NBUF - 1].blockno !in s.lh
  {
    var n := LOGSIZE - 1;
    var s0 := ZeroDisk(l);
    InitReachable(l, s0);
    var s1 := Fill(l, s0, n);
    FilledPinned(l, s1, n);
    var b := l.start + l.size + n;
    var s2, s3 := Grab(l, s1, 3, n, b);
    hide Reachable;
    DoTwo(l, s1, Split(n), s2, GetRecycleStep(3, n, b), s3, LockStep(3, n));
    s := s3;
  }

  /** The first n buffers carry the logged blocks, which lie behind the log area. */
  lemma FilledPinned(l: Layout, s: State, n: nat)
    requires n < NBUF && Filled(l, s, n) && Reachable(l, s, Split(n)) && l.size >= 2
    ensures forall k :: 0 <= k < n ==> s.bufs[k].refcnt != 0 && !Carries(s.bufs[k], l.start + 1)
  {
    hide Reachable, Inv;
    ReachableInv(l, s, Split(n));
    PinnedCount(l, s);
    forall k | k in PinnedBufs(s) ensures k < n {
      PinnedAt(l, s, k);
    }
    var low := Pigeonhole.Range(n);
    assert PinnedBufs(s) <= low;
    Pigeonhole.SubsetSize(PinnedBufs(s), low);
    forall k: nat | k < n ensures s.bufs[k].refcnt != 0 && !Carries(s.bufs[k], l.start + 1) {
      assert k in low && k in PinnedBufs(s);
      PinnedAt(l, s, k);
    }
  }

  /** With the log area that mkfs makes, one reader is enough to make a commit panic. */
  lemma MkfsCommitPanics(start: nat, nblocks: nat)
    requires start + 2 * LOGSIZE <= nblocks
    ensures exists s, m ::
      && Reachable(Layout(start, LOGSIZE, nblocks), s, m) && s.mode == WritingLog(0) && |s.lh| == LOGSIZE - 1
      && |Others(s)| == 1 && LogCode.CacheFull(s, start + 1)
  {
    hide Reachable;
    var l := Layout(start, LOGSIZE, nblocks);
    var s := FillAndRead(l);
    var s' := EndThree(l, s, LOGSIZE - 1);
    var m := Split(LOGSIZE - 1) - {0} - {1} - {2};
    assert s'.bufs == s.bufs && Pinned(s') == s.lh;
    assert Others(s') == {NBUF - 1};
    assert LogCode.CacheFull(s', start + 1);
    assert Reachable(l, s', m) && |Others(s')| == 1;
  }
}
