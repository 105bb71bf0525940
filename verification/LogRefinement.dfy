/** The cache and the log together behave like one block map with atomic transactions.

    The specification keeps two maps from home blocks to contents: what the running system sees
    and what a crash falls back to.  A commit copies the first over the second and is possible
    only when no system call is in progress; a crash copies the second over the first. */
module LogRefinement {
  import opened LogModel
  import opened LogInvariant

  datatype Abs = Abs(durable: map<nat, Block>, cur: map<nat, Block>, ops: set<Pid>)

  datatype AbsStep =
    | Stutter
    | AbsBegin(p: Pid)
    | AbsWrite(p: Pid, b: nat, data: Block)
    | AbsEnd(p: Pid)
    | AbsCommit
    | AbsCrash

  ghost predicate AbsNext(a: Abs, a': Abs, step: AbsStep) {
    match step
    case Stutter => a' == a
    case AbsBegin(p) => p !in a.ops && a' == a.(ops := a.ops + {p})
    case AbsWrite(p, b, data) => p in a.ops && b in a.cur && a' == a.(cur := a.cur[b := data])
    case AbsEnd(p) => p in a.ops && a' == a.(ops := a.ops - {p})
    case AbsCommit => a.ops == {} && a' == a.(durable := a.cur)
    case AbsCrash => a' == Abs(a.durable, a.durable, {})
  }

  function IndexOf(lh: seq<nat>, b: nat): (k: nat)
    requires b in lh
    ensures k < |lh| && lh[k] == b
  {
    if lh[0] == b then 0 else 1 + IndexOf(lh[1..], b)
  }

  /** What recovery leaves in home block `b`: the copy in the log if the header lists it. */
  ghost function Recovered(l: Layout, disk: seq<Block>, b: nat): (r: Block)
    requires WellFormed(l) && |disk| == l.nblocks && Home(l, b)
    requires HasHeader(l, disk)
  {
    var h := Decode(disk[l.start]);
    if b in h then disk[l.start + 1 + IndexOf(h, b)] else disk[b]
  }

  ghost function Durable(l: Layout, disk: seq<Block>): (r: map<nat, Block>)
    requires WellFormed(l) && |disk| == l.nblocks && HasHeader(l, disk)
  {
    map b | 0 <= b < l.nblocks && Home(l, b) :: Recovered(l, disk, b)
  }

  ghost function CurMap(l: Layout, s: State): (r: map<nat, Block>)
    requires |s.disk| == l.nblocks && IndexOk(s)
  {
    map b | 0 <= b < l.nblocks && Home(l, b) :: Cur(s, b)
  }

  predicate Recovering(s: State) {
    s.mode.Booting? || s.mode.Replaying?
  }

  ghost function Abstract(l: Layout, s: State): (a: Abs)
    requires Inv(l, s)
  {
    InvHasHeader(l, s);
    var d := Durable(l, s.disk);
    Abs(d, if Recovering(s) then d else CurMap(l, s), s.ops)
  }

  /** The specification step that a step of the machine performs. */
  function AbsStepOf(s: State, step: Step): (r: AbsStep)
    requires step.ModifyStep? ==> step.i < |s.bufs|
  {
    match step
    case BeginStep(p) => AbsBegin(p)
    case ModifyStep(p, i, data) => AbsWrite(p, s.bufs[i].blockno, data)
    case EndStep(p) => AbsEnd(p)
    case WriteHeadStep(_, _) => AbsCommit
    case CrashStep => AbsCrash
    case _ => Stutter
  }

  // ---- the durable map ------------------------------------------------------------------------

  lemma SameDiskSameDurable(l: Layout, s: State, s': State)
    requires Inv(l, s) && Inv(l, s') && s'.disk == s.disk
    ensures HasHeader(l, s.disk) && HasHeader(l, s'.disk)
    ensures Durable(l, s'.disk) == Durable(l, s.disk)
  {
    InvHasHeader(l, s);
  }

  /** With an empty header, recovery changes nothing. */
  lemma DurableEmpty(l: Layout, disk: seq<Block>, b: nat)
    requires WellFormed(l) && |disk| == l.nblocks && HeaderIs(l, disk, []) && Home(l, b)
    ensures HasHeader(l, disk) && Recovered(l, disk, b) == disk[b]
  {
  }

  /** While every listed block agrees with its log block, recovery changes nothing either. */
  lemma DurableInstalled(l: Layout, s: State, b: nat)
    requires Inv(l, s) && (s.mode == Installing(|s.lh|) || s.mode == Replaying(|s.lh|)) && Home(l, b)
    ensures HasHeader(l, s.disk) && Recovered(l, s.disk, b) == s.disk[b]
  {
    InvHasHeader(l, s);
    if b in s.lh {
      var k := IndexOf(s.lh, b);
      assert s.disk[s.lh[k]] == s.disk[l.start + 1 + k];
    }
  }

  // ---- each step performs its specification step ----------------------------------------------

  lemma SameContentRefines(l: Layout, s: State, s': State)
    requires Inv(l, s) && Inv(l, s') && s'.disk == s.disk && s'.ops == s.ops
    requires Recovering(s) <==> Recovering(s')
    requires forall b :: 0 <= b < l.nblocks && Home(l, b) ==> Cur(s', b) == Cur(s, b)
    ensures Abstract(l, s') == Abstract(l, s)
  {
    SameDiskSameDurable(l, s, s');
  }

  lemma CacheStepRefines(l: Layout, s: State, s': State, step: Step)
    requires Inv(l, s) && Inv(l, s') && Next(l, s, s', step)
    requires step.GetHitStep? || step.LockStep? || step.UnlockStep? || step.DropStep? || step.LogWriteStep?
    ensures Abstract(l, s') == Abstract(l, s)
  {
    hide Inv, Next, Abstract, Cur;
    InvIndex(l, s);
    InvIndex(l, s');
    CacheStepFrame(l, s, s', step);
    forall b | 0 <= b < l.nblocks && Home(l, b) ensures Cur(s', b) == Cur(s, b) {
      CacheStepCur(l, s, s', step, b);
    }
    SameContentRefines(l, s, s');
  }

  lemma InvIndex(l: Layout, s: State)
    requires Inv(l, s)
    ensures IndexOk(s) && |s.disk| == l.nblocks && WellFormed(l)
  {
  }

  lemma CacheStepFrame(l: Layout, s: State, s': State, step: Step)
    requires Next(l, s, s', step)
    requires step.GetHitStep? || step.LockStep? || step.UnlockStep? || step.DropStep? || step.LogWriteStep?
    ensures s'.disk == s.disk && s'.ops == s.ops && (Recovering(s) <==> Recovering(s'))
  {
  }

  lemma CacheStepCur(l: Layout, s: State, s': State, step: Step, b: nat)
    requires Inv(l, s) && Inv(l, s') && Next(l, s, s', step) && b < l.nblocks && Home(l, b)
    requires step.GetHitStep? || step.LockStep? || step.UnlockStep? || step.DropStep? || step.LogWriteStep?
    ensures IndexOk(s) && IndexOk(s') && b < |s.disk| == |s'.disk| && Cur(s', b) == Cur(s, b)
  {
    hide LogOk;
  }

  lemma RecycleRefines(l: Layout, s: State, s': State, p: Pid, i: nat, blockno: nat)
    requires Inv(l, s) && Inv(l, s') && GetRecycle(l, s, s', p, i, blockno)
    ensures Abstract(l, s') == Abstract(l, s)
  {
    forall b | 0 <= b < l.nblocks && Home(l, b) ensures Cur(s', b) == Cur(s, b) {
      RecycleCur(l, s, s', p, i, blockno, b);
    }
    SameContentRefines(l, s, s');
  }

  lemma OpsStepRefines(l: Layout, s: State, s': State, step: Step)
    requires Inv(l, s) && Inv(l, s') && Next(l, s, s', step)
    requires step.BeginStep? || step.EndStep?
    ensures AbsNext(Abstract(l, s), Abstract(l, s'), AbsStepOf(s, step))
  {
    hide PinsCached, BufOk, Clean, HeaderIs, Durable, CurMap;
    SameDiskSameDurable(l, s, s');
    SameMaps(l, s, s');
  }

  lemma ModifyRefines(l: Layout, s: State, s': State, p: Pid, i: nat, data: Block)
    requires Inv(l, s) && Inv(l, s') && Modify(l, s, s', p, i, data)
    ensures AbsNext(Abstract(l, s), Abstract(l, s'), AbsWrite(p, s.bufs[i].blockno, data))
  {
    SameDiskSameDurable(l, s, s');
    assert BufOk(l, s, s.bufs[i]);
    forall b | 0 <= b < l.nblocks && Home(l, b)
      ensures Cur(s', b) == if b == s.bufs[i].blockno then data else Cur(s, b)
    {
    }
    assert CurMap(l, s') == CurMap(l, s)[s.bufs[i].blockno := data];
  }

  /** Equal contents block by block are equal maps. */
  lemma SameMaps(l: Layout, s: State, s': State)
    requires WellFormed(l) && |s.disk| == |s'.disk| == l.nblocks && IndexOk(s) && IndexOk(s')
    requires HasHeader(l, s.disk) && HasHeader(l, s'.disk)
    ensures (forall b :: 0 <= b < l.nblocks && Home(l, b) ==> Cur(s', b) == Cur(s, b)) ==>
              CurMap(l, s') == CurMap(l, s)
    ensures (forall b :: 0 <= b < l.nblocks && Home(l, b) ==> Recovered(l, s'.disk, b) == Recovered(l, s.disk, b)) ==>
              Durable(l, s'.disk) == Durable(l, s.disk)
    ensures (forall b :: 0 <= b < l.nblocks && Home(l, b) ==> Recovered(l, s'.disk, b) == Cur(s, b)) ==>
              Durable(l, s'.disk) == CurMap(l, s)
  {
  }

  lemma WriteLogContent(l: Layout, s: State, s': State, p: Pid, i: nat, j: nat, b: nat)
    requires Inv(l, s) && Inv(l, s') && WriteLogBlock(l, s, s', p, i, j) && Home(l, b)
    ensures Cur(s', b) == Cur(s, b)
    ensures HasHeader(l, s.disk) && HasHeader(l, s'.disk)
    ensures Recovered(l, s'.disk, b) == Recovered(l, s.disk, b)
  {
    assert BufOk(l, s, s.bufs[i]);
    WriteThroughCur(l, s, s', i, b);
    DurableEmpty(l, s.disk, b);
    DurableEmpty(l, s'.disk, b);
  }

  lemma WriteLogRefines(l: Layout, s: State, s': State, p: Pid, i: nat, j: nat)
    requires Inv(l, s) && Inv(l, s') && WriteLogBlock(l, s, s', p, i, j)
    ensures Abstract(l, s') == Abstract(l, s)
  {
    InvHasHeader(l, s);
    InvHasHeader(l, s');
    assert s'.ops == s.ops && !Recovering(s) && !Recovering(s');
    forall b | 0 <= b < l.nblocks && Home(l, b)
      ensures Cur(s', b) == Cur(s, b) && Recovered(l, s'.disk, b) == Recovered(l, s.disk, b)
    {
      WriteLogContent(l, s, s', p, i, j, b);
    }
    SameMaps(l, s, s');
  }

  lemma RecoveredFrom(l: Layout, disk: seq<Block>, lh: seq<nat>, b: nat)
    requires WellFormed(l) && |disk| == l.nblocks && HeaderIs(l, disk, lh) && Home(l, b)
    ensures HasHeader(l, disk)
    ensures Recovered(l, disk, b) == if b in lh then disk[l.start + 1 + IndexOf(lh, b)] else disk[b]
  {
  }

  lemma WriteHeadFacts(l: Layout, s: State, s': State, p: Pid, i: nat)
    requires Inv(l, s) && WriteHead(l, s, s', p, i)
    ensures WellFormed(l) && s.ops == {} && Pinned(s) == s.lh && |s.disk| == l.nblocks
  {
  }

  lemma WriteHeadContent(l: Layout, s: State, s': State, p: Pid, i: nat, b: nat)
    requires Inv(l, s) && WriteHead(l, s, s', p, i) && Home(l, b) && HeaderIs(l, s'.disk, s.lh)
    ensures IndexOk(s') && IndexOk(s) && |s'.disk| == l.nblocks == |s.disk| && WellFormed(l)
    ensures Cur(s', b) == Cur(s, b)
    ensures HasHeader(l, s'.disk) && Recovered(l, s'.disk, b) == Cur(s, b)
  {
    hide Inv, HeaderIs, Recovered;
    WriteHeadFacts(l, s, s', p, i);
    HeldIsCurrent(l, s, p, i, l.start);
    HeldWrite(l, s, s', p, i, l.start, b);
    RecoveredFrom(l, s'.disk, s.lh, b);
    if b in s.lh {
      ListedContent(l, s, IndexOf(s.lh, b));
    } else {
      UnlistedIsOnDisk(l, s, b);
    }
  }

  /** The single write of the header moves the durable map from before to after the transaction. */
  lemma WriteHeadRefines(l: Layout, s: State, s': State, p: Pid, i: nat)
    requires Inv(l, s) && Inv(l, s') && WriteHead(l, s, s', p, i)
    ensures AbsNext(Abstract(l, s), Abstract(l, s'), AbsCommit)
  {
    InvHasHeader(l, s);
    InvHasHeader(l, s');
    assert s'.ops == s.ops == {} && !Recovering(s) && !Recovering(s');
    forall b | 0 <= b < l.nblocks && Home(l, b)
      ensures Cur(s', b) == Cur(s, b) && Recovered(l, s'.disk, b) == Cur(s, b)
    {
      WriteHeadContent(l, s, s', p, i, b);
    }
    SameMaps(l, s, s');
  }

  /** During commit an unlisted block is on disk as the system sees it. */
  lemma UnlistedIsOnDisk(l: Layout, s: State, b: nat)
    requires Inv(l, s) && s.ops == {} && b < l.nblocks && b !in Pinned(s)
    ensures Cur(s, b) == s.disk[b]
  {
    if b in s.where {
      QuietIsClean(l, s, s.where[b]);
    }
  }

  /** Writing home blocks under a full header is invisible to recovery. */
  lemma HomeWriteRefines(l: Layout, s: State, s': State, t: nat)
    requires Inv(l, s) && Inv(l, s') && t < |s.lh| && s'.lh == s.lh
    requires HeaderIs(l, s.disk, s.lh)
    requires s'.disk == s.disk[s.lh[t] := s.disk[l.start + 1 + t]]
    ensures HasHeader(l, s.disk) && HasHeader(l, s'.disk)
    ensures Durable(l, s'.disk) == Durable(l, s.disk)
  {
    InvHasHeader(l, s);
    InvHasHeader(l, s');
    assert s'.disk[l.start] == s.disk[l.start];
    forall b | 0 <= b < l.nblocks && Home(l, b)
      ensures Recovered(l, s'.disk, b) == Recovered(l, s.disk, b)
    {
      if b in s.lh {
        var k := IndexOf(s.lh, b);
        assert s'.disk[l.start + 1 + k] == s.disk[l.start + 1 + k];
      }
    }
  }

  lemma InstallRefines(l: Layout, s: State, s': State, p: Pid, i: nat, j: nat)
    requires Inv(l, s) && Inv(l, s') && InstallBlock(l, s, s', p, i, j)
    ensures Abstract(l, s') == Abstract(l, s)
  {
    var t := s.mode.tail;
    LogBlockIsOnDisk(l, s, p, i, l.start + 1 + t);
    HomeWriteRefines(l, s, s', t);
    forall b | 0 <= b < l.nblocks && Home(l, b) ensures Cur(s', b) == Cur(s, b) {
      InstallContent(l, s, s', p, i, j, b);
    }
    SameMaps(l, s, s');
  }

  lemma ReplayRefines(l: Layout, s: State, s': State, p: Pid, i: nat, j: nat)
    requires Inv(l, s) && Inv(l, s') && ReplayBlock(l, s, s', p, i, j)
    ensures Abstract(l, s') == Abstract(l, s)
  {
    LogBlockIsOnDisk(l, s, p, i, l.start + 1 + s.mode.tail);
    HomeWriteRefines(l, s, s', s.mode.tail);
  }

  /** Emptying the header when everything is installed changes no map; after a recovery the
      running system starts from the durable map. */
  lemma ClearHeadRefines(l: Layout, s: State, s': State, p: Pid, i: nat)
    requires Inv(l, s) && Inv(l, s') && ClearHead(l, s, s', p, i)
    ensures Abstract(l, s') == Abstract(l, s)
    ensures forall b :: b in CurMap(l, s') ==> s'.disk[b] == CurMap(l, s')[b]
  {
    assert BufOk(l, s, s.bufs[i]);
    InvHasHeader(l, s);
    InvHasHeader(l, s');
    forall b | 0 <= b < l.nblocks && Home(l, b)
      ensures Cur(s', b) == Cur(s, b) == s'.disk[b]
      ensures Recovered(l, s'.disk, b) == Recovered(l, s.disk, b) == s'.disk[b]
    {
      WriteThroughCur(l, s, s', i, b);
      DurableEmpty(l, s'.disk, b);
      DurableInstalled(l, s, b);
      UnlistedIsOnDisk(l, s', b);
    }
    assert Durable(l, s'.disk) == Durable(l, s.disk) == CurMap(l, s');
    assert CurMap(l, s') == CurMap(l, s);
  }

  lemma CrashRefines(l: Layout, s: State, s': State)
    requires Inv(l, s) && Inv(l, s') && Crash(l, s, s')
    ensures AbsNext(Abstract(l, s), Abstract(l, s'), AbsCrash)
  {
    SameDiskSameDurable(l, s, s');
  }

  lemma ReadHeadRefines(l: Layout, s: State, s': State, p: Pid, i: nat)
    requires Inv(l, s) && Inv(l, s') && ReadHead(l, s, s', p, i)
    ensures Abstract(l, s') == Abstract(l, s)
  {
    SameDiskSameDurable(l, s, s');
  }

  /** Every step of the cache and the log is one step of the specification. */
  lemma NextRefines(l: Layout, s: State, s': State, step: Step)
    requires Inv(l, s) && Next(l, s, s', step)
    ensures Inv(l, s')
    ensures AbsNext(Abstract(l, s), Abstract(l, s'), AbsStepOf(s, step))
  {
    hide Inv, Abstract;
    NextInv(l, s, s', step);
    match step
    case GetRecycleStep(p, i, blockno) => RecycleRefines(l, s, s', p, i, blockno);
    case BeginStep(_) => OpsStepRefines(l, s, s', step);
    case EndStep(_) => OpsStepRefines(l, s, s', step);
    case ModifyStep(p, i, data) => ModifyRefines(l, s, s', p, i, data);
    case WriteLogStep(p, i, j) => WriteLogRefines(l, s, s', p, i, j);
    case WriteHeadStep(p, i) => WriteHeadRefines(l, s, s', p, i);
    case InstallStep(p, i, j) => InstallRefines(l, s, s', p, i, j);
    case ReplayStep(p, i, j) => ReplayRefines(l, s, s', p, i, j);
    case ClearHeadStep(p, i) => ClearHeadRefines(l, s, s', p, i);
    case ReadHeadStep(p, i) => ReadHeadRefines(l, s, s', p, i);
    case CrashStep => CrashRefines(l, s, s');
    case _ => CacheStepRefines(l, s, s', step);
  }

  // ---- whole runs -----------------------------------------------------------------------------

  lemma {:induction false} RunInv(l: Layout, states: seq<State>, steps: seq<Step>, k: nat)
    requires Run(l, states, steps) && k < |states|
    ensures Inv(l, states[k])
  {
    hide Inv, Next, Init;
    if k == 0 {
      InitInv(l, states[0]);
    } else {
      RunInv(l, states, steps, k - 1);
      NextInv(l, states[k - 1], states[k], steps[k - 1]);
    }
  }

  /** The state right after the last header write that committed a transaction, or the start. */
  function LastCommit(steps: seq<Step>, k: nat): (j: nat)
    requires k <= |steps|
    ensures j <= k
  {
    if k == 0 then 0
    else if steps[k - 1].WriteHeadStep? then k
    else LastCommit(steps, k - 1)
  }

  /** Only the header write of a commit changes the durable map; it takes over the current one. */
  lemma DurableChangesAtCommit(l: Layout, s: State, s': State, step: Step)
    requires Inv(l, s) && Next(l, s, s', step)
    ensures Inv(l, s')
    ensures Abstract(l, s').durable == if step.WriteHeadStep? then Abstract(l, s').cur else Abstract(l, s).durable
    ensures step.WriteHeadStep? ==> s'.ops == {}
  {
    hide Inv, Next;
    NextRefines(l, s, s', step);
  }

  lemma InitDurable(l: Layout, s: State)
    requires Init(l, s)
    ensures Inv(l, s) && Abstract(l, s).durable == Abstract(l, s).cur && s.ops == {}
  {
    InitInv(l, s);
  }

  /** At every instant of every run, with any number of crashes before it and inside it, what a
      completed recovery would produce is what the system saw at the last committed header write
      (at the first power-on if there was none), and no system call was in progress then. */
  lemma {:induction false} CrashSafety(l: Layout, states: seq<State>, steps: seq<Step>, k: nat)
    requires Run(l, states, steps) && k < |states|
    ensures Inv(l, states[k]) && Inv(l, states[LastCommit(steps, k)])
    ensures Abstract(l, states[k]).durable == Abstract(l, states[LastCommit(steps, k)]).cur
    ensures states[LastCommit(steps, k)].ops == {}
  {
    hide Inv, Abstract, Next, Init;
    RunInv(l, states, steps, k);
    if k == 0 {
      InitDurable(l, states[0]);
    } else {
      RunInv(l, states, steps, k - 1);
      DurableChangesAtCommit(l, states[k - 1], states[k], steps[k - 1]);
      CrashSafety(l, states, steps, k - 1);
    }
  }

  /** When recovery ends, the home blocks on disk, and what the system reads from then on, are
      exactly the content at the last commit. */
  lemma RecoveryRestores(l: Layout, states: seq<State>, steps: seq<Step>, k: nat)
    requires Run(l, states, steps) && 0 < k < |states|
    requires states[k - 1].mode.Replaying? && steps[k - 1].ClearHeadStep?
    ensures Inv(l, states[k]) && Inv(l, states[LastCommit(steps, k)])
    ensures forall b :: 0 <= b < l.nblocks && Home(l, b) ==>
              && states[k].disk[b] == Abstract(l, states[LastCommit(steps, k)]).cur[b]
              && Cur(states[k], b) == states[k].disk[b]
  {
    hide Inv, Abstract, Cur, ClearHead;
    CrashSafety(l, states, steps, k);
    RunInv(l, states, steps, k - 1);
    var step := steps[k - 1];
    assert Next(l, states[k - 1], states[k], step);
    RestoredContent(l, states[k - 1], states[k], step.p, step.i);
  }

  /** When the header is cleared after a replay, the disk holds the durable map. */
  lemma RestoredContent(l: Layout, s: State, s': State, p: Pid, i: nat)
    requires Inv(l, s) && Inv(l, s') && s.mode.Replaying? && ClearHead(l, s, s', p, i)
    ensures |s'.disk| == l.nblocks && IndexOk(s')
    ensures forall b :: 0 <= b < l.nblocks && Home(l, b) ==>
      b in Abstract(l, s').durable && s'.disk[b] == Abstract(l, s').durable[b] && Cur(s', b) == s'.disk[b]
  {
    ClearHeadRefines(l, s, s', p, i);
    assert forall b :: 0 <= b < l.nblocks && Home(l, b) ==> b in CurMap(l, s');
  }

  /** bread delivers the latest content: right after the buffer is locked it holds what the
      specification says the block contains. */
  lemma ReadsLatest(l: Layout, s: State, s': State, p: Pid, i: nat)
    requires Inv(l, s) && Lock(l, s, s', p, i) && !Recovering(s) && Home(l, s.bufs[i].blockno)
    ensures Inv(l, s') && s.bufs[i].blockno in Abstract(l, s).cur
    ensures s'.bufs[i].data == Abstract(l, s).cur[s.bufs[i].blockno]
  {
    LockInv(l, s, s', p, i);
    assert BufOk(l, s, s.bufs[i]);
    assert s.where[s.bufs[i].blockno] == i;
  }
}
