/** kernel/bio.c and kernel/log.c as the code runs them: one object that holds the buffer array,
    the LRU ring, the in-memory log header and the device, and is updated in place.  Every method
    performs steps of the log machine, so what holds of all runs of the machine holds at every
    instant of the code. */
module LogCode {
  import opened LogModel
  import opened LogInvariant
  import opened LogRefinement
  import opened LruRing
  import opened Paths
  import opened Pigeonhole

  ghost function StepOf(l: Layout): (r: (State, State) -> bool) {
    (s, s') => exists step :: Next(l, s, s', step)
  }

  lemma AppendStep(l: Layout, states: seq<State>, steps: seq<Step>, s': State, step: Step)
    requires Run(l, states, steps) && Next(l, states[|steps|], s', step)
    ensures Run(l, states + [s'], steps + [step])
  {
    hide Next, Init;
  }

  /** What the code reaches from the end of a run is the end of a longer run. */
  lemma {:induction false} PathExtendsRun(l: Layout, states: seq<State>, steps: seq<Step>, s': State, n: nat)
    returns (states': seq<State>, steps': seq<Step>)
    requires Run(l, states, steps) && Path(StepOf(l), states[|steps|], s', n)
    ensures Run(l, states', steps') && states'[|steps'|] == s'
    ensures states <= states' && steps <= steps' && |steps'| == |steps| + n
    decreases n
  {
    hide Next, Init;
    if n == 0 {
      states', steps' := states, steps;
    } else {
      var t :| Path(StepOf(l), states[|steps|], t, n - 1) && StepOf(l)(t, s');
      var step :| Next(l, t, s', step);
      states', steps' := PathExtendsRun(l, states, steps, t, n - 1);
      AppendStep(l, states', steps', s', step);
      states', steps' := states' + [s'], steps' + [step];
    }
  }

  lemma Stepped(l: Layout, s: State, t: State, s': State, step: Step)
    requires Reaches(StepOf(l), s, t) && Next(l, t, s', step)
    ensures Reaches(StepOf(l), s, s')
  {
    assert StepOf(l)(t, s');
    ReachesStep(StepOf(l), s, t, s');
  }

  lemma OneStep(l: Layout, s: State, s': State, step: Step)
    requires Inv(l, s) && Next(l, s, s', step)
    ensures Inv(l, s') && Reaches(StepOf(l), s, s')
  {
    NextInv(l, s, s', step);
    ReachesRefl(StepOf(l), s);
    Stepped(l, s, s, s', step);
  }

  /** `s'` is a later state in which the specification state has not changed. */
  ghost predicate Later(l: Layout, s: State, s': State) {
    Inv(l, s) && Inv(l, s') && Reaches(StepOf(l), s, s') && Abstract(l, s') == Abstract(l, s)
  }

  lemma LaterTrans(l: Layout, s: State, t: State, u: State)
    requires Later(l, s, t) && Later(l, t, u)
    ensures Later(l, s, u)
  {
    hide Inv, Abstract;
    ReachesTrans(StepOf(l), s, t, u);
  }

  lemma LaterStep(l: Layout, s: State, s': State, step: Step)
    requires Inv(l, s) && Next(l, s, s', step)
    requires !step.ModifyStep? && AbsStepOf(s, step) == Stutter
    ensures Later(l, s, s')
  {
    hide Inv, Abstract;
    OneStep(l, s, s', step);
    NextRefines(l, s, s', step);
  }

  /** bread: bget and then the lock, with the disk read if the buffer is not valid. */
  ghost predicate ReadBy(l: Layout, s: State, s': State, p: Pid, i: nat, blockno: nat) {
    exists t ::
      (GetHit(l, s, t, p, i, blockno) || GetRecycle(l, s, t, p, i, blockno)) && Lock(l, t, s', p, i)
  }

  /** brelse: the lock and then the reference. */
  ghost predicate ReleasedBy(l: Layout, s: State, s': State, p: Pid, i: nat) {
    exists t :: Unlock(l, s, t, p, i) && Drop(l, t, s', p, i)
  }

  /** bread would panic: the block is not cached and every buffer is referenced. */
  ghost predicate CacheFull(s: State, blockno: nat) {
    forall k :: 0 <= k < |s.bufs| ==> !Carries(s.bufs[k], blockno) && s.bufs[k].refcnt != 0
  }

  /** No process holds or waits for the buffer of this block. */
  ghost predicate Available(s: State, p: Pid, blockno: nat) {
    forall k :: 0 <= k < |s.bufs| && Carries(s.bufs[k], blockno) ==>
      p !in s.bufs[k].users && s.bufs[k].lock == Nobody
  }

  /** What bread delivers: the current content, in a buffer locked by the caller. */
  lemma ReadDelivers(l: Layout, s: State, s': State, p: Pid, i: nat, blockno: nat)
    requires Inv(l, s) && ReadBy(l, s, s', p, i, blockno)
    ensures Later(l, s, s') && HoldsLocked(s', p, i, blockno) && i < |s.bufs|
    ensures blockno < |s.disk| && IndexOk(s) && s'.bufs[i].data == Cur(s, blockno)
    ensures s'.bufs == s.bufs[i := s'.bufs[i]]
    ensures s'.bufs[i].users == (if Carries(s.bufs[i], blockno) then s.bufs[i].users else {}) + {p}
    ensures s'.disk == s.disk && s'.lh == s.lh && s'.ops == s.ops && s'.mode == s.mode
  {
    hide Inv, Later;
    var t :| (GetHit(l, s, t, p, i, blockno) || GetRecycle(l, s, t, p, i, blockno)) && Lock(l, t, s', p, i);
    assert Later(l, s, t) by {
      if GetHit(l, s, t, p, i, blockno) {
        LaterStep(l, s, t, GetHitStep(p, i, blockno));
      } else {
        LaterStep(l, s, t, GetRecycleStep(p, i, blockno));
      }
    }
    assert Inv(l, t) by { LaterInv(l, s, t); }
    LaterStep(l, t, s', LockStep(p, i));
    LaterTrans(l, s, t, s');
    ReadContent(l, s, t, p, i, blockno);
  }

  lemma ReadContent(l: Layout, s: State, t: State, p: Pid, i: nat, blockno: nat)
    requires Inv(l, s) && (GetHit(l, s, t, p, i, blockno) || GetRecycle(l, s, t, p, i, blockno))
    ensures blockno < |s.disk| && IndexOk(s)
    ensures Cur(s, blockno) == if t.bufs[i].valid then t.bufs[i].data else s.disk[blockno]
  {
    if GetHit(l, s, t, p, i, blockno) {
      assert BufOk(l, s, s.bufs[i]);
      assert s.where[blockno] == i;
    } else {
      assert blockno !in s.where;
    }
  }

  lemma ReleaseKeeps(l: Layout, s: State, s': State, p: Pid, i: nat)
    requires Inv(l, s) && ReleasedBy(l, s, s', p, i)
    ensures Later(l, s, s') && i < |s.bufs| && s.bufs[i].lock == Holder(p)
    ensures s' == s.(bufs := s.bufs[i := s.bufs[i].(
                  lock := Nobody, refcnt := s.bufs[i].refcnt - 1, users := s.bufs[i].users - {p})])
  {
    hide Inv, Later;
    var t :| Unlock(l, s, t, p, i) && Drop(l, t, s', p, i);
    LaterStep(l, s, t, UnlockStep(p, i));
    LaterInv(l, s, t);
    LaterStep(l, t, s', DropStep(p, i));
    LaterTrans(l, s, t, s');
  }

  ghost predicate NoUsers(s: State) {
    forall k :: 0 <= k < |s.bufs| ==> s.bufs[k].users == {} && s.bufs[k].lock == Nobody
  }

  /** With no process using a buffer, some buffer is free exactly when the log does not pin them
      all; if it does, no log block is cached. */
  lemma FreeBufferIff(l: Layout, s: State)
    requires Inv(l, s) && NoUsers(s)
    ensures (exists k :: 0 <= k < |s.bufs| && s.bufs[k].refcnt == 0) <==> |Pinned(s)| < NBUF
    ensures |Pinned(s)| >= NBUF ==>
      forall k :: 0 <= k < |s.bufs| ==> s.bufs[k].refcnt != 0 && Home(l, s.bufs[k].blockno)
  {
    if |Pinned(s)| < NBUF {
      if forall k :: 0 <= k < |s.bufs| ==> s.bufs[k].refcnt != 0 {
        AllPinned(l, s);
      }
    } else {
      forall k | 0 <= k < |s.bufs| ensures s.bufs[k].refcnt != 0 && Home(l, s.bufs[k].blockno) {
        PinsCover(l, s, k);
        assert BufOk(l, s, s.bufs[k]);
      }
    }
  }

  lemma AllPinned(l: Layout, s: State)
    requires Inv(l, s) && NoUsers(s)
    requires forall k :: 0 <= k < |s.bufs| ==> s.bufs[k].refcnt != 0
    ensures |Pinned(s)| >= NBUF
  {
    var f := seq(NBUF, k requires 0 <= k < NBUF => s.bufs[k].blockno);
    forall k | 0 <= k < NBUF ensures f[k] in Pinned(s) && s.bufs[k].dev == ROOTDEV {
      assert BufOk(l, s, s.bufs[k]);
    }
    forall i, j | 0 <= i < j < NBUF ensures f[i] != f[j] {
      assert s.bufs[i].dev == s.bufs[j].dev == ROOTDEV;
    }
    Fits(f, Pinned(s));
  }

  lemma PinFacts(l: Layout, s: State, i: nat)
    requires Inv(l, s) && i < |Pinned(s)|
    ensures Pinned(s)[i] in s.where && s.where[Pinned(s)[i]] < NBUF == |s.bufs|
    ensures Carries(s.bufs[s.where[Pinned(s)[i]]], Pinned(s)[i]) && Home(l, Pinned(s)[i])
    ensures forall j :: i < j < |Pinned(s)| ==> Pinned(s)[i] != Pinned(s)[j]
  {
    assert Pinned(s)[i] in Pinned(s);
  }

  lemma PinsCover(l: Layout, s: State, k: nat)
    requires Inv(l, s) && |Pinned(s)| >= NBUF && k < NBUF
    ensures k < |s.bufs| && IsPinned(s, s.bufs[k]) && Home(l, s.bufs[k].blockno)
  {
    hide Inv, Pinned;
    var pinned := Pinned(s);
    forall i | 0 <= i < |pinned|
      ensures pinned[i] in s.where && s.where[pinned[i]] < NBUF == |s.bufs|
      ensures Carries(s.bufs[s.where[pinned[i]]], pinned[i]) && Home(l, pinned[i])
      ensures forall j :: i < j < |pinned| ==> pinned[i] != pinned[j]
    {
      PinFacts(l, s, i);
    }
    var f := seq(NBUF, i requires 0 <= i < NBUF => s.where[pinned[i]]);
    forall i, j | 0 <= i < j < NBUF ensures f[i] != f[j] {
      assert s.bufs[f[i]].blockno == pinned[i] && s.bufs[f[j]].blockno == pinned[j];
    }
    Onto(f, NBUF);
    assert k in f;
  }

  lemma LaterRefl(l: Layout, s: State)
    requires Inv(l, s)
    ensures Later(l, s, s)
  {
    ReachesRefl(StepOf(l), s);
  }

  /** The first bread of a round panics exactly when the log pins every buffer. */
  lemma RoomForPair(l: Layout, s: State, slot: nat)
    requires Inv(l, s) && NoUsers(s) && l.start <= slot < l.start + l.size
    ensures CacheFull(s, slot) <==> |Pinned(s)| >= NBUF
    ensures forall p, b :: Available(s, p, b)
  {
    FreeBufferIff(l, s);
  }

  lemma PinnedCached(l: Layout, s: State, b: nat)
    requires Inv(l, s) && b in Pinned(s)
    ensures b in s.where && s.where[b] < |s.bufs| && Carries(s.bufs[s.where[b]], b)
  {
  }

  /** After the first bread of a round, the second one cannot panic or block. */
  lemma SecondRead(l: Layout, s: State, s': State, p: Pid, i: nat, slot: nat, home: nat)
    requires Inv(l, s) && NoUsers(s) && ReadBy(l, s, s', p, i, slot) && slot != home
    requires home in Pinned(s) || Pinned(s) == []
    ensures !CacheFull(s', home) && Available(s', p, home)
  {
    ReadDelivers(l, s, s', p, i, slot);
    LaterInv(l, s, s');
    if home in Pinned(s) {
      PinnedCached(l, s', home);
    } else {
      var k := if i == 0 then 1 else 0;
      assert BufOk(l, s, s.bufs[k]);
      assert s'.bufs[k].refcnt == 0;
    }
  }

  /** Process `p` uses buffers `i` and `j`, both locked, and nobody uses any other. */
  ghost predicate OnlyPair(s: State, p: Pid, i: nat, j: nat) {
    && i < |s.bufs| && j < |s.bufs| && i != j
    && s.bufs[i].lock == Holder(p) && s.bufs[j].lock == Holder(p) && s.bufs[i].users == {p} == s.bufs[j].users
    && forall k :: 0 <= k < |s.bufs| && k != i && k != j ==> s.bufs[k].users == {} && s.bufs[k].lock == Nobody
  }

  lemma PairRead(l: Layout, s: State, t: State, s': State, p: Pid, i: nat, slot: nat, j: nat, home: nat)
    requires Inv(l, s) && NoUsers(s) && ReadBy(l, s, t, p, i, slot) && ReadBy(l, t, s', p, j, home)
    requires slot != home
    ensures Later(l, s, s') && OnlyPair(s', p, i, j)
    ensures HoldsLocked(s', p, i, slot) && HoldsLocked(s', p, j, home)
    ensures s'.disk == s.disk && s'.lh == s.lh && s'.ops == s.ops && s'.mode == s.mode
  {
    hide Inv, ReadBy, Later;
    ReadDelivers(l, s, t, p, i, slot);
    LaterInv(l, s, t);
    ReadDelivers(l, t, s', p, j, home);
    LaterTrans(l, s, t, s');
    NotRecycled(l, t, s', p, i, j, slot, home);
  }

  lemma LaterInv(l: Layout, s: State, s': State)
    requires Later(l, s, s')
    ensures Inv(l, s) && Inv(l, s')
  {
  }

  /** The second bread of a round takes a buffer other than the one already held. */
  lemma NotRecycled(l: Layout, s: State, s': State, p: Pid, i: nat, j: nat, slot: nat, home: nat)
    requires Inv(l, s) && ReadBy(l, s, s', p, j, home) && HoldsLocked(s, p, i, slot) && slot != home
    ensures j != i
  {
    assert BufOk(l, s, s.bufs[i]);
  }

  lemma PairReleased(l: Layout, s: State, t: State, s': State, p: Pid, i: nat, j: nat)
    requires Inv(l, s) && OnlyPair(s, p, i, j) && ReleasedBy(l, s, t, p, i) && ReleasedBy(l, t, s', p, j)
    ensures Later(l, s, s') && NoUsers(s')
    ensures s'.disk == s.disk && s'.lh == s.lh && s'.ops == s.ops && s'.mode == s.mode && s'.where == s.where
  {
    hide Inv, ReleasedBy, Later;
    ReleaseKeeps(l, s, t, p, i);
    LaterInv(l, s, t);
    ReleaseKeeps(l, t, s', p, j);
    LaterTrans(l, s, t, s');
  }

  lemma GotUnlocked(l: Layout, s: State, t: State, p: Pid, i: nat, blockno: nat)
    requires Inv(l, s) && Available(s, p, blockno)
    requires GetHit(l, s, t, p, i, blockno) || GetRecycle(l, s, t, p, i, blockno)
    ensures i < |t.bufs| && t.bufs[i].lock == Nobody && p in t.bufs[i].users
    ensures t.bufs[i].blockno == blockno < |t.disk|
  {
    assert BufOk(l, s, s.bufs[i]);
  }

  lemma NotDirty(l: Layout, s: State, i: nat)
    requires Inv(l, s) && s.ops == {} && i < |s.bufs|
    ensures !s.bufs[i].dirty
  {
    QuietIsClean(l, s, i);
  }

  lemma Releasable(l: Layout, s: State, p: Pid, i: nat)
    requires Inv(l, s) && i < |s.bufs| && s.bufs[i].lock == Holder(p)
    ensures p in s.bufs[i].users
  {
    assert BufOk(l, s, s.bufs[i]);
  }

  lemma Release(l: Layout, s: State, t: State, s': State, p: Pid, i: nat)
    requires Inv(l, s) && Unlock(l, s, t, p, i) && Drop(l, t, s', p, i)
    ensures Inv(l, s') && ReleasedBy(l, s, s', p, i)
  {
    UnlockInv(l, s, t, p, i);
    DropInv(l, t, s', p, i);
  }

  /** What a round of write_log, install_trans(0) or install_trans(1) relies on. */
  lemma RoundFacts(l: Layout, s: State, tail: nat)
    requires Inv(l, s) && tail < |s.lh|
    requires s.mode == WritingLog(tail) || s.mode == Installing(tail) || s.mode == Replaying(tail)
    ensures Home(l, s.lh[tail]) && |s.lh| < l.size && l.start + l.size <= l.nblocks == |s.disk| && s.ops == {}
    ensures s.lh[tail] in Pinned(s) || Pinned(s) == []
    ensures s.mode == WritingLog(tail) ==> Pinned(s) == s.lh
    ensures s.mode == Installing(tail) ==> |Pinned(s)| == |s.lh| - tail
    ensures s.mode == Replaying(tail) ==> Pinned(s) == []
  {
    if s.mode == Installing(tail) {
      assert Pinned(s)[0] == s.lh[tail];
    }
  }

  /** Process `p` uses buffer `i`, locked, and nobody uses any other. */
  ghost predicate OnlyOne(s: State, p: Pid, i: nat) {
    && i < |s.bufs| && s.bufs[i].lock == Holder(p) && s.bufs[i].users == {p}
    && forall k :: 0 <= k < |s.bufs| && k != i ==> s.bufs[k].users == {} && s.bufs[k].lock == Nobody
  }

  /** Between `s` and `s'` the transaction became durable, and nothing else happened. */
  ghost predicate Committed(l: Layout, s: State, s': State) {
    && Inv(l, s) && Inv(l, s') && Reaches(StepOf(l), s, s')
    && AbsNext(Abstract(l, s), Abstract(l, s'), AbsCommit)
  }

  lemma HeadFacts(l: Layout, s: State)
    requires Inv(l, s)
    requires s.mode in {WritingLog(|s.lh|), Installing(|s.lh|), Replaying(|s.lh|), Booting}
    ensures l.start < l.nblocks == |s.disk| && 1 <= l.size && |s.lh| < WORDS && s.ops == {}
    ensures s.mode == WritingLog(|s.lh|) ==> Pinned(s) == s.lh
    ensures s.mode != WritingLog(|s.lh|) ==> Pinned(s) == []
  {
  }

  lemma CommitPoint(l: Layout, s: State, t: State, u: State, p: Pid, i: nat)
    requires Later(l, s, t) && WriteHead(l, t, u, p, i)
    ensures Committed(l, s, u) && Inv(l, u)
  {
    hide Inv, Abstract;
    OneStep(l, t, u, WriteHeadStep(p, i));
    NextRefines(l, t, u, WriteHeadStep(p, i));
    ReachesTrans(StepOf(l), s, t, u);
  }

  lemma AfterCommit(l: Layout, s: State, u: State, s': State)
    requires Committed(l, s, u) && Later(l, u, s')
    ensures Committed(l, s, s')
  {
    hide Inv, Abstract;
    ReachesTrans(StepOf(l), s, u, s');
  }

  function SetBuf(s: State, i: nat, b: Buf): (r: State)
    requires i < |s.bufs|
  {
    s.(bufs := s.bufs[i := b])
  }

  /** Buffer `i` with new data, written through to disk. */
  function Through(s: State, i: nat, b: Buf, mode: Mode): (r: State)
    requires i < |s.bufs| && b.blockno < |s.disk|
  {
    SetBuf(s, i, b).(disk := s.disk[b.blockno := b.data], mode := mode)
  }

  lemma LockTaken(l: Layout, s: State, t: State, p: Pid, i: nat, blockno: nat, u: State)
    requires Inv(l, t) && (GetHit(l, s, t, p, i, blockno) || GetRecycle(l, s, t, p, i, blockno))
    requires i < |t.bufs| && t.bufs[i].lock == Nobody && p in t.bufs[i].users && t.bufs[i].blockno < |t.disk|
    requires u == SetBuf(t, i, t.bufs[i].(
                    data := if t.bufs[i].valid then t.bufs[i].data else t.disk[t.bufs[i].blockno],
                    valid := true, lock := Holder(p)))
    ensures Inv(l, u) && ReadBy(l, s, u, p, i, blockno)
  {
    assert Lock(l, t, u, p, i);
    LockInv(l, t, u, p, i);
    hide Inv, GetHit, GetRecycle, Lock;
  }

  lemma LogBlockCopied(l: Layout, s: State, p: Pid, i: nat, j: nat, tail: nat, s': State)
    requires Inv(l, s) && OnlyPair(s, p, i, j) && s.mode == WritingLog(tail) && tail < |s.lh|
    requires HoldsLocked(s, p, i, l.start + 1 + tail) && HoldsLocked(s, p, j, s.lh[tail])
    requires s.bufs[i].blockno < |s.disk|
    requires s' == Through(s, i, s.bufs[i].(data := s.bufs[j].data), WritingLog(tail + 1))
    ensures Inv(l, s') && OnlyPair(s', p, i, j) && Later(l, s, s')
  {
    hide Inv, Later, Pinned;
    RoundFacts(l, s, tail);
    LaterStep(l, s, s', WriteLogStep(p, i, j));
    LaterInv(l, s, s');
  }

  lemma HomeInstalled(l: Layout, s: State, p: Pid, i: nat, j: nat, tail: nat, s': State)
    requires Inv(l, s) && OnlyPair(s, p, i, j) && tail < |s.lh| && s.mode == Installing(tail)
    requires HoldsLocked(s, p, i, l.start + 1 + tail) && HoldsLocked(s, p, j, s.lh[tail])
    requires s.bufs[j].blockno < |s.disk|
    requires s' ==
      Through(s, j, s.bufs[j].(data := s.bufs[i].data, refcnt := s.bufs[j].refcnt - 1), Installing(tail + 1))
    ensures Inv(l, s') && OnlyPair(s', p, i, j) && Later(l, s, s')
  {
    hide Inv, Later, Pinned;
    RoundFacts(l, s, tail);
    LaterStep(l, s, s', InstallStep(p, i, j));
    LaterInv(l, s, s');
  }

  lemma HomeReplayed(l: Layout, s: State, p: Pid, i: nat, j: nat, tail: nat, s': State)
    requires Inv(l, s) && OnlyPair(s, p, i, j) && tail < |s.lh| && s.mode == Replaying(tail)
    requires HoldsLocked(s, p, i, l.start + 1 + tail) && HoldsLocked(s, p, j, s.lh[tail])
    requires s.bufs[j].blockno < |s.disk|
    requires s' == Through(s, j, s.bufs[j].(data := s.bufs[i].data), Replaying(tail + 1))
    ensures Inv(l, s') && OnlyPair(s', p, i, j) && Later(l, s, s')
  {
    hide Inv, Later, Pinned;
    RoundFacts(l, s, tail);
    LaterStep(l, s, s', ReplayStep(p, i, j));
    LaterInv(l, s, s');
  }

  lemma HeaderPut(l: Layout, s: State, p: Pid, i: nat, s': State)
    requires Inv(l, s) && OnlyOne(s, p, i) && HoldsLocked(s, p, i, l.start) && s.mode == WritingLog(|s.lh|)
    requires |s.lh| < WORDS && l.start < |s.disk|
    requires s' == Through(s, i, s.bufs[i].(data := Encode(s.lh, s.bufs[i].data)), Installing(0))
    ensures Inv(l, s') && OnlyOne(s', p, i) && WriteHead(l, s, s', p, i)
  {
    hide Inv, Encode;
    WriteHeadInv(l, s, s', p, i);
  }

  /** Every home block on disk has the content the system sees. */
  ghost predicate Synced(l: Layout, s: State) {
    && Inv(l, s)
    && forall b :: 0 <= b < l.nblocks && Home(l, b) ==> s.disk[b] == Cur(s, b) == Abstract(l, s).durable[b]
  }

  lemma HeaderCleared(l: Layout, s: State, p: Pid, i: nat, s': State)
    requires Inv(l, s) && OnlyOne(s, p, i) && HoldsLocked(s, p, i, l.start) && l.start < |s.disk|
    requires s.mode == Installing(|s.lh|) || s.mode == Replaying(|s.lh|)
    requires s' == Through(s, i, s.bufs[i].(data := Encode([], s.bufs[i].data)), Running).(lh := [])
    ensures Inv(l, s') && OnlyOne(s', p, i) && ClearHead(l, s, s', p, i)
  {
    hide Inv, Encode;
    ClearHeadInv(l, s, s', p, i);
  }

  lemma Cleared(l: Layout, s: State, t: State, u: State, p: Pid, i: nat)
    requires Later(l, s, t) && ClearHead(l, t, u, p, i)
    ensures Later(l, s, u) && Synced(l, u) && u.mode == Running && u.lh == []
  {
    hide Inv, Encode, Later, Synced, Pinned;
    LaterInv(l, s, t);
    HeadFacts(l, t);
    LaterStep(l, t, u, ClearHeadStep(p, i));
    LaterInv(l, t, u);
    LaterTrans(l, s, t, u);
    SyncedAfter(l, u);
  }

  lemma SyncedAfter(l: Layout, u: State)
    requires Inv(l, u) && u.mode == Running && u.lh == [] && u.ops == {}
    ensures Synced(l, u)
  {
    forall b | 0 <= b < l.nblocks && Home(l, b)
      ensures u.disk[b] == Cur(u, b) == Abstract(l, u).durable[b]
    {
      UnlistedIsOnDisk(l, u, b);
      DurableEmpty(l, u.disk, b);
    }
  }

  lemma StaysSynced(l: Layout, s: State, s': State)
    requires Synced(l, s) && Later(l, s, s') && s'.disk == s.disk && !Recovering(s) && !Recovering(s')
    ensures Synced(l, s')
  {
    forall b | 0 <= b < l.nblocks && Home(l, b)
      ensures s'.disk[b] == Cur(s', b) == Abstract(l, s').durable[b]
    {
      assert Abstract(l, s').cur[b] == Abstract(l, s).cur[b];
    }
  }

  lemma BeforeCommit(l: Layout, s: State, t: State, u: State)
    requires Later(l, s, t) && Committed(l, t, u)
    ensures Committed(l, s, u)
  {
    hide Inv, Abstract;
    ReachesTrans(StepOf(l), s, t, u);
  }

  lemma HeaderReadable(l: Layout, s: State, t: State, p: Pid, i: nat)
    requires Later(l, s, t) && t.mode == Booting && HoldsLocked(t, p, i, l.start)
    ensures ReadableHeader(t.bufs[i].data) && t.ops == {}
  {
    LogBlockIsOnDisk(l, t, p, i, l.start);
  }

  lemma HeaderRead(l: Layout, t: State, u: State, p: Pid, i: nat)
    requires Inv(l, t) && t.mode == Booting && OnlyOne(t, p, i) && HoldsLocked(t, p, i, l.start)
    requires ReadableHeader(t.bufs[i].data) && u == t.(lh := Decode(t.bufs[i].data), mode := Replaying(0))
    ensures Inv(l, u) && Later(l, t, u) && OnlyOne(u, p, i)
  {
    hide Inv, Later, Decode;
    LaterStep(l, t, u, ReadHeadStep(p, i));
    LaterInv(l, t, u);
  }

  lemma OnlyMember(ops: set<Pid>, p: Pid)
    requires p in ops
    ensures |ops| == 1 <==> ops == {p}
    ensures |ops - {p}| == |ops| - 1
  {
    if |ops| == 1 {
      assert |ops - {p}| == 0;
      assert ops == (ops - {p}) + {p};
    }
  }

  lemma RunningWhileOps(l: Layout, s: State)
    requires Inv(l, s) && s.ops != {}
    ensures s.mode == Running
  {
  }

  /** Between `s` and `s'` the last system call ended and everything it and its companions wrote
      became durable. */
  ghost predicate EndedDurably(l: Layout, s: State, s': State) {
    && Inv(l, s) && Inv(l, s') && Reaches(StepOf(l), s, s')
    && Abstract(l, s') == Abs(Abstract(l, s).cur, Abstract(l, s).cur, {})
  }

  lemma CommittedAll(l: Layout, s: State, t: State, s': State, p: Pid)
    requires Inv(l, s) && Inv(l, t) && End(l, s, t, p) && s.ops == {p} && s.mode == Running
    requires if |s.lh| == 0 then s' == t else Committed(l, t, s')
    ensures EndedDurably(l, s, s')
  {
    assert t.ops == {};
    hide Inv;
    OneStep(l, s, t, EndStep(p));
    NextRefines(l, s, t, EndStep(p));
    if |s.lh| == 0 {
      SyncedAfter(l, t);
      SyncedMaps(l, t);
    } else {
      BothReach(l, s, t, s');
    }
  }

  lemma BothReach(l: Layout, s: State, t: State, s': State)
    requires Reaches(StepOf(l), s, t) && Committed(l, t, s')
    ensures Reaches(StepOf(l), s, s')
  {
    hide Inv, Abstract;
    ReachesTrans(StepOf(l), s, t, s');
  }

  lemma SyncedMaps(l: Layout, s: State)
    requires Synced(l, s) && !Recovering(s)
    ensures Abstract(l, s).durable == Abstract(l, s).cur
  {
  }

  lemma StartComplete(order: seq<nat>, rank: seq<nat>)
    requires |order| == NBUF && (forall k :: 0 <= k < NBUF ==> order[k] == NBUF - 1 - k)
    requires |rank| == NBUF && forall k :: 0 <= k < NBUF ==> rank[k] == NBUF - 1 - k
    ensures Complete(order, rank)
  {
  }

  class BlockLayer {
    const l: Layout
    /** The device. */
    var disk: seq<Block>
    /** bcache: the buffers and the ring through their next and prev pointers. */
    const buf: array<Buf>
    const next: array<nat>
    const prev: array<nat>
    /** log: the in-memory header and the two counters. */
    var lh: seq<nat>
    var outstanding: nat
    var committing: bool

    ghost var order: seq<nat>
    ghost var rank: seq<nat>
    ghost var where: map<nat, nat>
    ghost var ops: set<Pid>
    ghost var mode: Mode

    ghost function View(): (s: State)
      reads this, buf
    {
      State(disk, buf[..], where, lh, ops, mode)
    }

    ghost predicate RingOk()
      reads this, next, prev
    {
      && next.Length == NBUF + 1 && prev.Length == NBUF + 1 && next != prev
      && Ring(next[..], prev[..], order) && Complete(order, rank)
    }

    ghost predicate Valid()
      reads this, buf, next, prev
    {
      && buf.Length == NBUF && RingOk()
      && Inv(l, View())
      && outstanding == |ops| && (mode.WritingLog? || mode.Installing? ==> committing)
      && (committing ==> ops == {})
    }

    /** Power-on with a given disk: zeroed buffers, and binit linking them into the ring. */
    constructor (l: Layout, disk: seq<Block>)
      requires WellFormed(l) && |disk| == l.nblocks && disk[l.start][0] == 0
      ensures Valid() && Init(l, View()) && this.l == l && this.disk == disk
    {
      this.l, this.disk := l, disk;
      var zero: Block := seq(WORDS, _ => 0);
      buf := new Buf[NBUF](_ => Buf(0, 0, false, 0, zero, Nobody, {}, false));
      next := new nat[NBUF + 1](_ => HEAD);
      prev := new nat[NBUF + 1](_ => HEAD);
      lh, outstanding, committing := [], 0, false;
      where, ops, mode, order := map[], {}, Booting, [];
      rank := seq(NBUF, b => NBUF - 1 - b);
      new;
      LinkAll();
      hide Inv, Ring, Complete;
      InitInv(l, View());
      StartComplete(order, rank);
    }

    /** binit's loop: every buffer goes to the front of the ring. */
    method LinkAll()
      requires next.Length == NBUF + 1 == prev.Length && next != prev && order == []
      requires (forall k :: 0 <= k <= NBUF ==> next[k] == HEAD && prev[k] == HEAD)
      modifies this`order, next, prev
      ensures Ring(next[..], prev[..], order) && |order| == NBUF
      ensures forall k :: 0 <= k < NBUF ==> order[k] == NBUF - 1 - k
    {
      var b := 0;
      while b < NBUF
        invariant 0 <= b <= NBUF && Ring(next[..], prev[..], order)
        invariant |order| == b && forall k :: 0 <= k < b ==> order[k] == b - 1 - k
      {
        LinkOne(b);
        b := b + 1;
      }
    }

    /** One round of it. */
    method LinkOne(b: nat)
      requires next.Length == NBUF + 1 == prev.Length && next != prev && b < NBUF && b !in order && |order| == b
      requires Ring(next[..], prev[..], order)
      modifies this`order, next, prev
      ensures Ring(next[..], prev[..], order) && order == [b] + old(order)
    {
      ghost var n0: seq<nat>, p0: seq<nat> := next[..], prev[..];
      LinkFront(n0, p0, order, b);
      next[b] := next[HEAD];
      prev[b] := HEAD;
      prev[next[HEAD]] := b;
      next[HEAD] := b;
      assert next[..] == n0[b := n0[HEAD]][HEAD := b];
      assert prev[..] == p0[b := HEAD][n0[HEAD] := b];
      order := [b] + order;
    }

    /** The buffer bget recycles: the least recently used one without references. */
    ghost predicate LeastRecentlyUsed(i: nat)
      requires buf.Length == NBUF && RingOk() && i < NBUF
      reads this, buf, next, prev
    {
      && buf[i].refcnt == 0
      && forall k :: 0 <= k < NBUF && buf[k].refcnt == 0 ==> rank[k] <= rank[i]
    }

    /** bget, first loop: follow next from the head, looking for the block. */
    method FindCached(blockno: nat) returns (i: int)
      requires buf.Length == NBUF && RingOk()
      ensures -1 <= i < NBUF
      ensures i >= 0 ==> Carries(buf[i], blockno)
      ensures i == -1 ==> forall k :: 0 <= k < NBUF ==> !Carries(buf[k], blockno)
    {
      i := next[HEAD];
      ghost var k := 0;
      assert next[..][At(order, 0 - 1)] == At(order, 0);
      while i != HEAD
        invariant 0 <= k <= NBUF && i == At(order, k)
        invariant forall j :: 0 <= j < k ==> !Carries(buf[order[j]], blockno)
        decreases NBUF - k
      {
        if buf[i].dev == ROOTDEV && buf[i].blockno == blockno {
          return;
        }
        assert next[..][At(order, k + 1 - 1)] == At(order, k + 1);
        i, k := next[i], k + 1;
      }
      forall j | 0 <= j < NBUF ensures !Carries(buf[j], blockno) {
        assert order[rank[j]] == j;
      }
      i := -1;
    }

    /** bget, second loop: follow prev from the head, looking for an unreferenced buffer. */
    method FindUnused() returns (i: int)
      requires buf.Length == NBUF && RingOk()
      ensures -1 <= i < NBUF
      ensures i >= 0 ==> LeastRecentlyUsed(i)
      ensures i == -1 ==> forall k :: 0 <= k < NBUF ==> buf[k].refcnt != 0
    {
      i := prev[HEAD];
      ghost var k := NBUF - 1;
      assert prev[..][At(order, NBUF)] == At(order, NBUF - 1);
      while i != HEAD
        invariant -1 <= k < NBUF && i == At(order, k)
        invariant forall j :: k < j < NBUF ==> buf[order[j]].refcnt != 0
        decreases k + 1
      {
        if buf[i].refcnt == 0 {
          forall b | 0 <= b < NBUF && buf[b].refcnt == 0 ensures rank[b] <= rank[i] {
            assert order[rank[b]] == b;
          }
          return;
        }
        assert prev[..][At(order, k)] == At(order, k - 1);
        i, k := prev[i], k - 1;
      }
      forall b | 0 <= b < NBUF ensures buf[b].refcnt != 0 {
        assert order[rank[b]] == b;
      }
      i := -1;
    }

    method Bget(p: Pid, blockno: nat) returns (i: int)
      requires Valid() && blockno < l.nblocks
      requires forall k :: 0 <= k < NBUF && Carries(buf[k], blockno) ==> p !in buf[k].users
      modifies this`where, buf
      ensures Valid() && -1 <= i < NBUF
      ensures i >= 0 ==>
                || GetHit(l, old(View()), View(), p, i, blockno)
                || (GetRecycle(l, old(View()), View(), p, i, blockno) && old(LeastRecentlyUsed(i)))
      ensures i == -1 <==> old(forall k :: 0 <= k < NBUF ==> !Carries(buf[k], blockno) && buf[k].refcnt != 0)
      ensures i == -1 ==> View() == old(View())
    {
      hide Inv, Ring, Complete;
      ghost var s := View();
      i := FindCached(blockno);
      if i != -1 {
        buf[i] := buf[i].(refcnt := buf[i].refcnt + 1, users := buf[i].users + {p});
        GetHitInv(l, s, View(), p, i, blockno);
        return;
      }
      i := FindUnused();
      if i != -1 {
        where := (where - if buf[i].dev == ROOTDEV then {buf[i].blockno} else {})[blockno := i];
        buf[i] := buf[i].(dev := ROOTDEV, blockno := blockno, valid := false, refcnt := 1, users := {p});
        GetRecycleInv(l, s, View(), p, i, blockno);
      }
    }
  
    /** bread when no other process holds the block locked: a locked buffer with the block's
        current content, or a panic when every buffer is referenced. */
    method Bread(p: Pid, blockno: nat) returns (i: int)
      requires Valid() && blockno < l.nblocks && Available(View(), p, blockno)
      modifies this`where, buf
      ensures Valid() && -1 <= i < NBUF
      ensures i == -1 <==> old(CacheFull(View(), blockno))
      ensures i == -1 ==> View() == old(View())
      ensures i >= 0 ==> ReadBy(l, old(View()), View(), p, i, blockno)
    {
      hide Inv, Ring, Complete, GetHit, GetRecycle, ReadBy;
      ghost var s := View();
      i := Bget(p, blockno);
      if i == -1 {
        return;
      }
      ghost var t := View();
      GotUnlocked(l, s, t, p, i, blockno);
      if !buf[i].valid {
        buf[i] := buf[i].(data := disk[buf[i].blockno]);
      }
      buf[i] := buf[i].(valid := true, lock := Holder(p));
      LockTaken(l, s, t, p, i, blockno, View());
    }

    /** The pointer surgery of brelse: unlink the buffer and put it behind the list head. */
    method MoveToFront(b: nat)
      requires RingOk() && b < NBUF
      modifies this`order, this`rank, next, prev
      ensures RingOk()
      ensures order == [b] + Without(old(order), old(rank)[b])
    {
      ghost var k := rank[b];
      ghost var n0: seq<nat>, p0: seq<nat> := next[..], prev[..];
      Unlink(n0, p0, order, k);
      MoveComplete(order, rank, b);
      prev[next[b]] := prev[b];
      next[prev[b]] := next[b];
      ghost var n1: seq<nat>, p1: seq<nat> := n0[p0[b] := n0[b]], p0[n0[b] := p0[b]];
      assert next[..] == n1 && prev[..] == p1;
      LinkFront(n1, p1, Without(order, k), b);
      next[b] := next[HEAD];
      prev[b] := HEAD;
      prev[next[HEAD]] := b;
      next[HEAD] := b;
      assert next[..] == n1[b := n1[HEAD]][HEAD := b];
      assert prev[..] == p1[b := HEAD][n1[HEAD] := b];
      order, rank := [b] + Without(order, k), RankAfterMove(rank, b);
    }

    /** brelse: release the lock, drop the reference, and remember the buffer as just used when
        nobody else refers to it. */
    method Brelse(p: Pid, i: nat)
      requires Valid() && i < NBUF && buf[i].lock == Holder(p) && !buf[i].dirty
      modifies this`order, this`rank, buf, next, prev
      ensures Valid() && ReleasedBy(l, old(View()), View(), p, i)
      ensures order == if buf[i].refcnt == 0 then [i] + Without(old(order), old(rank)[i]) else old(order)
    {
      ghost var s := View();
      Releasable(l, s, p, i);
      hide Inv, Ring, Complete, Without;
      buf[i] := buf[i].(lock := Nobody);
      ghost var t := View();
      buf[i] := buf[i].(refcnt := buf[i].refcnt - 1, users := buf[i].users - {p});
      Release(l, s, t, View(), p, i);
      if buf[i].refcnt == 0 {
        MoveToFront(i);
      }
    }

    /** bwrite: the holder of the lock writes the buffer to disk; a panic is a false result. */
    method Bwrite(p: Pid, i: nat) returns (ok: bool)
      requires buf.Length == NBUF && i < NBUF && buf[i].blockno < |disk|
      modifies this`disk
      ensures ok <==> buf[i].lock == Holder(p)
      ensures disk == if ok then old(disk)[buf[i].blockno := buf[i].data] else old(disk)
    {
      ok := buf[i].lock == Holder(p);
      if ok {
        disk := disk[buf[i].blockno := buf[i].data];
      }
    }

    /** The two breads of a round of write_log or install_trans. */
    method ReadPair(p: Pid, slot: nat, home: nat) returns (ok: bool, i: nat, j: nat)
      requires Valid() && NoUsers(View()) && l.start <= slot < l.start + l.size <= l.nblocks && Home(l, home)
      requires home in Pinned(View()) || Pinned(View()) == []
      modifies this`where, buf
      ensures Valid() && Later(l, old(View()), View())
      ensures ok <==> old(|Pinned(View())| < NBUF)
      ensures !ok ==> View() == old(View())
      ensures ok ==> OnlyPair(View(), p, i, j) && HoldsLocked(View(), p, i, slot) && HoldsLocked(View(), p, j, home)
    {
      hide Inv, Ring, Complete, Later;
      ghost var s := View();
      LaterRefl(l, s);
      RoomForPair(l, s, slot);
      var a := Bread(p, slot);
      if a == -1 {
        return false, 0, 0;
      }
      ghost var t := View();
      SecondRead(l, s, t, p, a, slot, home);
      var b := Bread(p, home);
      PairRead(l, s, t, View(), p, a, slot, b, home);
      ok, i, j := true, a, b;
    }

    /** The two brelses. */
    method ReleasePair(p: Pid, i: nat, j: nat)
      requires Valid() && OnlyPair(View(), p, i, j) && ops == {}
      modifies this`order, this`rank, buf, next, prev
      ensures Valid() && NoUsers(View()) && Later(l, old(View()), View())
    {
      ghost var s := View();
      hide Inv, Ring, Complete, Later, Pinned;
      NotDirty(l, s, i);
      NotDirty(l, s, j);
      Brelse(p, i);
      ghost var t := View();
      ReleaseKeeps(l, s, t, p, i);
      Brelse(p, j);
      PairReleased(l, s, t, View(), p, i, j);
    }

    /** The copy into a log block and its write, in write_log. */
    method CopyAndWrite(p: Pid, to: nat, from: nat, tail: nat)
      requires Valid() && OnlyPair(View(), p, to, from) && mode == WritingLog(tail) && tail < |lh|
      requires HoldsLocked(View(), p, to, l.start + 1 + tail) && HoldsLocked(View(), p, from, lh[tail])
      modifies this`disk, this`mode, buf
      ensures Valid() && OnlyPair(View(), p, to, from) && Later(l, old(View()), View())
      ensures mode == WritingLog(tail + 1)
    {
      ghost var t := View();
      hide Inv, Ring, Complete, Later, Pinned;
      RoundFacts(l, t, tail);
      buf[to] := buf[to].(data := buf[from].data);
      var written := Bwrite(p, to);
      mode := WritingLog(tail + 1);
      LogBlockCopied(l, t, p, to, from, tail, View());
    }

    /** One round of write_log; a panic in bread is a false result. */
    method CopyToLog(p: Pid, tail: nat) returns (ok: bool)
      requires Valid() && NoUsers(View()) && mode == WritingLog(tail) && tail < |lh|
      modifies this`disk, this`where, this`order, this`rank, this`mode, buf, next, prev
      ensures Valid() && NoUsers(View()) && Later(l, old(View()), View())
      ensures ok <==> |lh| < NBUF
      ensures mode == WritingLog(if ok then tail + 1 else tail)
    {
      ghost var s := View();
      hide Inv, Ring, Complete, Later, HoldsLocked, NoUsers, Home, Pinned;
      RoundFacts(l, s, tail);
      var to, from;
      ok, to, from := ReadPair(p, l.start + 1 + tail, lh[tail]);
      if !ok {
        return;
      }
      ghost var t := View();
      CopyAndWrite(p, to, from, tail);
      ghost var u := View();
      LaterTrans(l, s, t, u);
      ReleasePair(p, from, to);
      LaterTrans(l, s, u, View());
    }

    /** write_log: copy every listed block from the cache to the log. */
    method WriteLog(p: Pid) returns (ok: bool)
      requires Valid() && NoUsers(View()) && mode == WritingLog(0) && |lh| > 0
      modifies this`disk, this`where, this`order, this`rank, this`mode, buf, next, prev
      ensures Valid() && NoUsers(View()) && Later(l, old(View()), View())
      ensures ok <==> |lh| < NBUF
      ensures ok ==> mode == WritingLog(|lh|)
    {
      ghost var s := View();
      LaterRefl(l, s);
      hide Inv, Ring, Complete, Later;
      var tail := 0;
      while tail < |lh|
        invariant tail <= |lh| && (tail > 0 ==> |lh| < NBUF)
        invariant Valid() && NoUsers(View()) && Later(l, s, View()) && mode == WritingLog(tail)
      {
        ghost var t := View();
        ok := CopyToLog(p, tail);
        LaterTrans(l, s, t, View());
        if !ok {
          return;
        }
        tail := tail + 1;
      }
      ok := true;
    }

    /** The loop of write_head: the count, then the block numbers. */
    method FillHeader(i: nat)
      requires buf.Length == NBUF && i < NBUF && |lh| < WORDS
      modifies buf
      ensures buf[..] == old(buf[..])[i := old(buf[i]).(data := Encode(lh, old(buf[i]).data))]
    {
      var data := buf[i].data[0 := |lh|];
      var k := 0;
      while k < |lh|
        invariant 0 <= k <= |lh| && |data| == WORDS && data[0] == |lh|
        invariant forall j :: 0 <= j < k ==> data[1 + j] == lh[j]
        invariant forall j :: k < j < WORDS ==> data[j] == buf[i].data[j]
      {
        data := data[1 + k := lh[k]];
        k := k + 1;
      }
      assert data == Encode(lh, buf[i].data);
      buf[i] := buf[i].(data := data);
    }

    /** The header block, locked, with no other buffer in use. */
    method ReadHeader(p: Pid) returns (ok: bool, i: nat)
      requires Valid() && NoUsers(View()) && l.start < l.nblocks && 1 <= l.size
      modifies this`where, buf
      ensures Valid() && Later(l, old(View()), View())
      ensures ok <==> old(|Pinned(View())| < NBUF)
      ensures !ok ==> View() == old(View())
      ensures ok ==> OnlyOne(View(), p, i) && HoldsLocked(View(), p, i, l.start)
    {
      hide Inv, Ring, Complete, Later;
      ghost var s := View();
      LaterRefl(l, s);
      RoomForPair(l, s, l.start);
      var a := Bread(p, l.start);
      if a == -1 {
        return false, 0;
      }
      ReadDelivers(l, s, View(), p, a, l.start);
      ok, i := true, a;
    }

    method ReleaseHeader(p: Pid, i: nat)
      requires Valid() && OnlyOne(View(), p, i) && ops == {}
      modifies this`order, this`rank, buf, next, prev
      ensures Valid() && NoUsers(View()) && Later(l, old(View()), View())
    {
      ghost var s := View();
      hide Inv, Ring, Complete, Later, Pinned, ReleasedBy, CacheOk, BufOk, Clean;
      NotDirty(l, s, i);
      Brelse(p, i);
      ReleaseKeeps(l, s, View(), p, i);
    }

    method PutHeader(p: Pid, i: nat)
      requires Valid() && OnlyOne(View(), p, i) && HoldsLocked(View(), p, i, l.start) && mode == WritingLog(|lh|)
      modifies this`disk, this`mode, buf
      ensures Valid() && OnlyOne(View(), p, i) && LogModel.WriteHead(l, old(View()), View(), p, i)
    {
      ghost var t := View();
      hide Inv, Ring, Complete, Encode, LogModel.WriteHead, OnlyOne, Pinned;
      HeadFacts(l, t);
      FillHeader(i);
      var written := Bwrite(p, i);
      mode := Installing(0);
      HeaderPut(l, t, p, i, View());
    }

    /** write_head with the list of the transaction: the commit point. */
    method WriteHead(p: Pid) returns (ok: bool)
      requires Valid() && NoUsers(View()) && mode == WritingLog(|lh|)
      modifies this`disk, this`where, this`order, this`rank, this`mode, buf, next, prev
      ensures Valid() && NoUsers(View())
      ensures ok <==> |lh| < NBUF
      ensures !ok ==> View() == old(View())
      ensures ok ==> mode == Installing(0) && Committed(l, old(View()), View())
    {
      hide Inv, Ring, Complete, Later, Committed;
      ghost var s := View();
      HeadFacts(l, s);
      var i;
      ok, i := ReadHeader(p);
      if !ok {
        return;
      }
      ghost var t := View();
      PutHeader(p, i);
      ghost var u := View();
      CommitPoint(l, s, t, u, p, i);
      ReleaseHeader(p, i);
      AfterCommit(l, s, u, View());
    }

    /** The copy to a home block, its write, and the unpin unless recovering. */
    method CopyHome(p: Pid, lbuf: nat, dbuf: nat, tail: nat, recovering: bool)
      requires Valid() && OnlyPair(View(), p, lbuf, dbuf) && tail < |lh|
      requires mode == if recovering then Replaying(tail) else Installing(tail)
      requires HoldsLocked(View(), p, lbuf, l.start + 1 + tail) && HoldsLocked(View(), p, dbuf, lh[tail])
      modifies this`disk, this`mode, buf
      ensures Valid() && OnlyPair(View(), p, lbuf, dbuf) && Later(l, old(View()), View())
      ensures mode == if recovering then Replaying(tail + 1) else Installing(tail + 1)
    {
      ghost var t := View();
      hide Inv, Ring, Complete, Later, Pinned;
      RoundFacts(l, t, tail);
      buf[dbuf] := buf[dbuf].(data := buf[lbuf].data);
      var written := Bwrite(p, dbuf);
      if recovering {
        mode := Replaying(tail + 1);
        HomeReplayed(l, t, p, lbuf, dbuf, tail, View());
      } else {
        Bunpin(dbuf);
        mode := Installing(tail + 1);
        HomeInstalled(l, t, p, lbuf, dbuf, tail, View());
      }
    }

    method Bunpin(i: nat)
      requires buf.Length == NBUF && i < NBUF
      modifies buf
      ensures buf[..] == old(buf[..])[i := old(buf[i]).(refcnt := old(buf[i]).refcnt - 1)]
    {
      buf[i] := buf[i].(refcnt := buf[i].refcnt - 1);
    }

    method Bpin(i: nat)
      requires buf.Length == NBUF && i < NBUF
      modifies buf
      ensures buf[..] == old(buf[..])[i := old(buf[i]).(refcnt := old(buf[i]).refcnt + 1)]
    {
      buf[i] := buf[i].(refcnt := buf[i].refcnt + 1);
    }

    /** One round of install_trans. */
    method InstallRound(p: Pid, tail: nat, recovering: bool) returns (ok: bool)
      requires Valid() && NoUsers(View()) && tail < |lh|
      requires mode == if recovering then Replaying(tail) else Installing(tail)
      modifies this`disk, this`where, this`order, this`rank, this`mode, buf, next, prev
      ensures Valid() && NoUsers(View()) && Later(l, old(View()), View())
      ensures ok <==> recovering || |lh| - tail < NBUF
      ensures ok ==> mode == if recovering then Replaying(tail + 1) else Installing(tail + 1)
    {
      ghost var s := View();
      hide Inv, Ring, Complete, Later, OnlyPair, HoldsLocked, NoUsers, Home, Pinned;
      RoundFacts(l, s, tail);
      var lbuf, dbuf;
      ok, lbuf, dbuf := ReadPair(p, l.start + 1 + tail, lh[tail]);
      if !ok {
        return;
      }
      ghost var t := View();
      CopyHome(p, lbuf, dbuf, tail, recovering);
      ghost var u := View();
      LaterTrans(l, s, t, u);
      ReleasePair(p, lbuf, dbuf);
      LaterTrans(l, s, u, View());
    }

    /** install_trans: write every listed block to its home location. */
    method InstallTrans(p: Pid, recovering: bool) returns (ok: bool)
      requires Valid() && NoUsers(View())
      requires mode == if recovering then Replaying(0) else Installing(0)
      modifies this`disk, this`where, this`order, this`rank, this`mode, buf, next, prev
      ensures Valid() && NoUsers(View()) && Later(l, old(View()), View())
      ensures recovering || |lh| < NBUF ==> ok
      ensures ok ==> mode == if recovering then Replaying(|lh|) else Installing(|lh|)
    {
      ghost var s := View();
      LaterRefl(l, s);
      hide Inv, Ring, Complete, Later;
      var tail := 0;
      while tail < |lh|
        invariant tail <= |lh| && Valid() && NoUsers(View()) && Later(l, s, View())
        invariant mode == if recovering then Replaying(tail) else Installing(tail)
      {
        ghost var t := View();
        ok := InstallRound(p, tail, recovering);
        LaterTrans(l, s, t, View());
        if !ok {
          return;
        }
        tail := tail + 1;
      }
      ok := true;
    }

    /** The list is emptied and the header written; the header buffer is already locked. */
    method PutEmptyHeader(p: Pid, i: nat)
      requires Valid() && OnlyOne(View(), p, i) && HoldsLocked(View(), p, i, l.start)
      requires mode == Installing(|lh|) || mode == Replaying(|lh|)
      modifies this`disk, this`mode, this`lh, buf
      ensures Valid() && OnlyOne(View(), p, i) && LogModel.ClearHead(l, old(View()), View(), p, i)
    {
      ghost var t := View();
      hide Inv, Ring, Complete, Encode, LogModel.ClearHead, OnlyOne, Pinned;
      HeadFacts(l, t);
      lh := [];
      FillHeader(i);
      var written := Bwrite(p, i);
      mode := Running;
      HeaderCleared(l, t, p, i, View());
    }

    /** The last write_head of commit and of recovery. */
    method ClearHead(p: Pid) returns (ok: bool)
      requires Valid() && NoUsers(View()) && (mode == Installing(|lh|) || mode == Replaying(|lh|))
      modifies this`disk, this`where, this`order, this`rank, this`mode, this`lh, buf, next, prev
      ensures Valid() && NoUsers(View()) && ok
      ensures mode == Running && lh == [] && Later(l, old(View()), View()) && Synced(l, View())
    {
      ghost var s := View();
      hide Inv, Ring, Complete, Later, Pinned, NoUsers, OnlyOne, HoldsLocked, LogModel.ClearHead, Synced;
      HeadFacts(l, s);
      var i;
      ok, i := ReadHeader(p);
      ghost var t := View();
      PutEmptyHeader(p, i);
      ghost var u := View();
      Cleared(l, s, t, u, p, i);
      ReleaseHeader(p, i);
      LaterTrans(l, s, u, View());
      StaysSynced(l, u, View());
    }

    /** commit: afterwards the transaction is durable and every home block is in place. */
    method Commit(p: Pid) returns (ok: bool)
      requires Valid() && NoUsers(View()) && committing && ops == {}
      requires mode == if |lh| > 0 then WritingLog(0) else Running
      modifies this`disk, this`where, this`order, this`rank, this`mode, this`lh, buf, next, prev
      ensures Valid() && NoUsers(View())
      ensures ok <==> old(|lh|) < NBUF
      ensures ok ==> mode == Running && lh == []
      ensures ok && old(|lh|) == 0 ==> View() == old(View())
      ensures ok && old(|lh|) > 0 ==> Committed(l, old(View()), View()) && Synced(l, View())
    {
      ghost var s := View();
      hide Inv, Ring, Complete, Later, Pinned, NoUsers, Committed, Synced;
      ok := true;
      if |lh| > 0 {
        ok := WriteLog(p);
        if !ok {
          return;
        }
        ghost var t := View();
        ok := WriteHead(p);
        ghost var u := View();
        BeforeCommit(l, s, t, u);
        ok := InstallTrans(p, false);
        ghost var v := View();
        AfterCommit(l, s, u, v);
        ok := ClearHead(p);
        AfterCommit(l, s, v, View());
      }
    }

    /** The loop of read_head. */
    method CopyHeader(data: Block) returns (list: seq<nat>)
      requires ReadableHeader(data)
      ensures list == Decode(data)
    {
      list := [];
      var k := 0;
      while k < data[0]
        invariant 0 <= k <= data[0] && |list| == k
        invariant forall j :: 0 <= j < k ==> list[j] == data[1 + j]
      {
        list := list + [data[1 + k]];
        k := k + 1;
      }
    }

    /** read_head: the list recovery works from. */
    method ReadHead(p: Pid)
      requires Valid() && NoUsers(View()) && mode == Booting
      modifies this`where, this`order, this`rank, this`mode, this`lh, buf, next, prev
      ensures Valid() && NoUsers(View()) && mode == Replaying(0) && Later(l, old(View()), View())
    {
      ghost var s := View();
      hide Inv, Ring, Complete, Later, Pinned, NoUsers, OnlyOne, Decode, ReadableHeader;
      HeadFacts(l, s);
      var ok, i := ReadHeader(p);
      ghost var t := View();
      HeaderReadable(l, s, t, p, i);
      lh := CopyHeader(buf[i].data);
      mode := Replaying(0);
      ghost var u := View();
      HeaderRead(l, t, u, p, i);
      LaterTrans(l, s, t, u);
      ReleaseHeader(p, i);
      LaterTrans(l, s, u, View());
    }

    /** recover_from_log: afterwards the home blocks are what the last commit left. */
    method RecoverFromLog(p: Pid)
      requires Valid() && NoUsers(View()) && mode == Booting
      modifies this`disk, this`where, this`order, this`rank, this`mode, this`lh, buf, next, prev
      ensures Valid() && NoUsers(View()) && mode == Running && lh == []
      ensures Later(l, old(View()), View()) && Synced(l, View())
    {
      ghost var s := View();
      hide Inv, Ring, Complete, Later, Pinned, NoUsers, Synced;
      ReadHead(p);
      ghost var t := View();
      var ok := InstallTrans(p, true);
      ghost var u := View();
      LaterTrans(l, s, t, u);
      ok := ClearHead(p);
      LaterTrans(l, s, u, View());
    }

    /** begin_op as far as it can go: a false result means it sleeps. */
    method BeginOp(p: Pid) returns (ok: bool)
      requires Valid() && p !in ops && (committing || mode == Running)
      modifies this`outstanding, this`ops
      ensures Valid()
      ensures ok <==> old(!committing && |lh| + (outstanding + 1) * MAXOPBLOCKS <= LOGSIZE)
      ensures if ok then Begin(l, old(View()), View(), p) else View() == old(View())
    {
      hide Inv, Ring, Complete;
      ghost var s := View();
      if committing || |lh| + (outstanding + 1) * MAXOPBLOCKS > LOGSIZE {
        return false;
      }
      outstanding := outstanding + 1;
      ops := ops + {p};
      BeginInv(l, s, View(), p);
      return true;
    }

    /** log_write; a false result is one of its two panics. */
    method LogWrite(p: Pid, i: nat) returns (ok: bool)
      requires Valid() && p in ops && i < NBUF && buf[i].lock == Holder(p) && Home(l, buf[i].blockno)
      modifies this`lh, buf
      ensures Valid()
      ensures ok <==> !old(LogFull(l, View()))
      ensures if ok then LogModel.LogWrite(l, old(View()), View(), p, i) else View() == old(View())
    {
      hide Inv, Ring, Complete, Home;
      ghost var s := View();
      if |lh| >= LOGSIZE || |lh| >= l.size - 1 || outstanding < 1 {
        return false;
      }
      var k := 0;
      while k < |lh| && lh[k] != buf[i].blockno
        invariant 0 <= k <= |lh| && buf[i].blockno !in lh[..k]
      {
        k := k + 1;
      }
      var isNew := k == |lh|;
      assert isNew <==> buf[i].blockno !in lh;
      lh := if isNew then lh + [buf[i].blockno] else lh[k := buf[i].blockno];
      buf[i] := buf[i].(dirty := false);
      if isNew {
        Bpin(i);
      }
      LogWriteInv(l, s, View(), p, i);
      return true;
    }

    /** end_op: the last operation commits; its panic on log.committing cannot happen.  A false
        result is the panic of bget when the log pins every buffer. */
    method EndOp(p: Pid) returns (ok: bool)
      requires Valid() && p in ops
      requires forall i :: 0 <= i < NBUF && buf[i].lock == Holder(p) ==> !buf[i].dirty
      requires ops == {p} ==> NoUsers(View())
      modifies this
      modifies buf, next, prev
      ensures Valid() && old(!committing)
      ensures old(ops) != {p} ==> ok && End(l, old(View()), View(), p)
      ensures old(ops) == {p} ==> (ok <==> old(|lh|) < NBUF)
      ensures old(ops) == {p} && ok ==>
                mode == Running && lh == [] && !committing && EndedDurably(l, old(View()), View())
    {
      ghost var s := View();
      hide Inv, Ring, Complete, Committed, Synced, EndedDurably, Later;
      outstanding := outstanding - 1;
      ops := ops - {p};
      if outstanding == 0 {
        committing := true;
      }
      mode := if ops == {} && |lh| > 0 then WritingLog(0) else mode;
      ghost var t := View();
      OnlyMember(s.ops, p);
      EndInv(l, s, t, p);
      RunningWhileOps(l, s);
      ok := true;
      if outstanding == 0 {
        ok := Commit(p);
        if ok {
          committing := false;
          CommittedAll(l, s, t, View(), p);
        }
      }
    }
  }
}
