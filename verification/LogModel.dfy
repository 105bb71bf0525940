/** The write-ahead log over the buffer cache as a state machine.

    One step is one critical section of kernel/bio.c or kernel/log.c: what a process does under
    bcache.lock, under log.lock, or on buffers whose sleep-lock it holds.  Any process may take
    any enabled step at any time, so a run is an arbitrary interleaving of readers, of system
    calls between begin_op and end_op, of the committing process and of crashes. */
module LogModel {

  const ROOTDEV := 1
  const MAXOPBLOCKS := 10
  const LOGSIZE := 30
  const NBUF := 30
  /** Words in one block: BSIZE / sizeof(int). */
  const WORDS := 256

  type Pid = nat
  type Block = b: seq<int> | |b| == WORDS witness seq(WORDS, _ => 0)

  /** Where the superblock puts the log: the header at `start`, log blocks up to `start + size`. */
  datatype Layout = Layout(start: nat, size: nat, nblocks: nat)

  predicate WellFormed(l: Layout) {
    1 <= l.size && l.start + l.size <= l.nblocks
  }

  /** Blocks outside the log area: the only ones that may be logged. */
  predicate Home(l: Layout, b: nat) {
    b < l.nblocks && !(l.start <= b < l.start + l.size)
  }

  datatype Owner = Nobody | Holder(pid: Pid)

  /** A cache buffer.  `users` are the processes between bget and the decrement in brelse, and
      `dirty` says that the holder changed `data` and has not called log_write since. */
  datatype Buf = Buf(
    dev: nat, blockno: nat, valid: bool, refcnt: int, data: Block,
    lock: Owner, users: set<Pid>, dirty: bool)

  /** Where the log is: open for system calls, inside commit() with `tail` blocks done in
      write_log or install_trans, or inside recover_from_log. */
  datatype Mode = Running | WritingLog(tail: nat) | Installing(tail: nat) | Booting | Replaying(tail: nat)

  /** `where` is an index of the cache: the buffer that carries each cached block number. */
  datatype State = State(
    disk: seq<Block>, bufs: seq<Buf>, where: map<nat, nat>,
    lh: seq<nat>, ops: set<Pid>, mode: Mode)

  predicate Carries(b: Buf, blockno: nat) {
    b.dev == ROOTDEV && b.blockno == blockno
  }

  predicate HoldsLocked(s: State, p: Pid, i: nat, blockno: nat) {
    i < |s.bufs| && s.bufs[i].lock == Holder(p) && Carries(s.bufs[i], blockno)
  }

  // ---- the on-disk header -------------------------------------------------------------------

  /** write_head: the count and the block numbers overwrite a prefix of the header block. */
  function Encode(lh: seq<nat>, prev: Block): (r: Block)
    requires |lh| < WORDS
  {
    [|lh|] + lh + prev[1 + |lh|..]
  }

  predicate ReadableHeader(b: Block) {
    0 <= b[0] < WORDS && forall i :: 1 <= i <= b[0] ==> 0 <= b[i]
  }

  /** read_head: the block numbers a header block lists. */
  function Decode(b: Block): (lh: seq<nat>)
    requires ReadableHeader(b)
  {
    seq(b[0], i requires 0 <= i < b[0] => b[1 + i])
  }

  lemma DecodeEncode(lh: seq<nat>, prev: Block)
    requires |lh| < WORDS
    ensures ReadableHeader(Encode(lh, prev))
    ensures Decode(Encode(lh, prev)) == lh
  {
    var b := Encode(lh, prev);
    assert b[0] == |lh|;
    assert forall i :: 0 <= i < |lh| ==> b[1 + i] == lh[i];
  }

  /** log_write keeps the block numbers distinct, outside the log area, and few enough for it. */
  predicate LogList(l: Layout, lh: seq<nat>) {
    && |lh| <= LOGSIZE && |lh| < l.size
    && (forall i :: 0 <= i < |lh| ==> Home(l, lh[i]))
    && (forall i, j :: 0 <= i < j < |lh| ==> lh[i] != lh[j])
  }

  // ---- steps on the cache (kernel/bio.c) ------------------------------------------------------

  /** bget, first loop: the block is cached. */
  predicate GetHit(l: Layout, s: State, s': State, p: Pid, i: nat, blockno: nat) {
    && i < |s.bufs| && Carries(s.bufs[i], blockno) && p !in s.bufs[i].users
    && var b := s.bufs[i];
       s' == s.(bufs := s.bufs[i := b.(refcnt := b.refcnt + 1, users := b.users + {p})])
  }

  /** bget, second loop: no buffer carries the block; recycle one whose refcnt is 0. */
  predicate GetRecycle(l: Layout, s: State, s': State, p: Pid, i: nat, blockno: nat) {
    && i < |s.bufs| && s.bufs[i].refcnt == 0 && blockno < l.nblocks
    && (forall k :: 0 <= k < |s.bufs| ==> !Carries(s.bufs[k], blockno))
    && var b := s.bufs[i];
       var gone := if b.dev == ROOTDEV then {b.blockno} else {};
       s' == s.(
         bufs := s.bufs[i := b.(dev := ROOTDEV, blockno := blockno, valid := false, refcnt := 1, users := {p})],
         where := (s.where - gone)[blockno := i])
  }

  /** acquiresleep on a buffer obtained from bget, and the disk read of bread if it is not valid. */
  predicate Lock(l: Layout, s: State, s': State, p: Pid, i: nat) {
    && i < |s.bufs| && s.bufs[i].lock == Nobody && p in s.bufs[i].users
    && s.bufs[i].blockno < |s.disk|
    && var b := s.bufs[i];
       s' == s.(bufs := s.bufs[i := b.(
         lock := Holder(p), valid := true,
         data := if b.valid then b.data else s.disk[b.blockno])])
  }

  /** releasesleep in brelse; the discipline is to log a change before releasing the buffer. */
  predicate Unlock(l: Layout, s: State, s': State, p: Pid, i: nat) {
    && i < |s.bufs| && s.bufs[i].lock == Holder(p) && !s.bufs[i].dirty
    && s' == s.(bufs := s.bufs[i := s.bufs[i].(lock := Nobody)])
  }

  /** The decrement of refcnt in brelse. */
  predicate Drop(l: Layout, s: State, s': State, p: Pid, i: nat) {
    && i < |s.bufs| && p in s.bufs[i].users && s.bufs[i].lock != Holder(p)
    && var b := s.bufs[i];
       s' == s.(bufs := s.bufs[i := b.(refcnt := b.refcnt - 1, users := b.users - {p})])
  }

  // ---- steps of a system call -----------------------------------------------------------------

  /** begin_op, once its two waiting conditions are false. */
  predicate Begin(l: Layout, s: State, s': State, p: Pid) {
    && s.mode == Running && p !in s.ops
    && |s.lh| + (|s.ops| + 1) * MAXOPBLOCKS <= LOGSIZE
    && s' == s.(ops := s.ops + {p})
  }

  /** A system call changes the data of a block it holds locked. */
  predicate Modify(l: Layout, s: State, s': State, p: Pid, i: nat, data: Block) {
    && p in s.ops && i < |s.bufs| && s.bufs[i].lock == Holder(p) && Home(l, s.bufs[i].blockno)
    && s' == s.(bufs := s.bufs[i := s.bufs[i].(data := data, dirty := true)])
  }

  predicate LogFull(l: Layout, s: State) {
    |s.lh| >= LOGSIZE || |s.lh| >= l.size - 1
  }

  /** log_write: absorb a block that is already in the list, else append it and pin the buffer. */
  predicate LogWrite(l: Layout, s: State, s': State, p: Pid, i: nat) {
    && p in s.ops && i < |s.bufs| && s.bufs[i].lock == Holder(p) && Home(l, s.bufs[i].blockno)
    && !LogFull(l, s)
    && var b := s.bufs[i].(dirty := false);
       if b.blockno in s.lh then
         s' == s.(bufs := s.bufs[i := b])
       else
         s' == s.(bufs := s.bufs[i := b.(refcnt := b.refcnt + 1)], lh := s.lh + [b.blockno])
  }

  /** end_op: the last operation starts the commit unless nothing was logged. */
  predicate End(l: Layout, s: State, s': State, p: Pid) {
    && p in s.ops
    && (forall i :: 0 <= i < |s.bufs| && s.bufs[i].lock == Holder(p) ==> !s.bufs[i].dirty)
    && s' == s.(
         ops := s.ops - {p},
         mode := if s.ops == {p} && |s.lh| > 0 then WritingLog(0) else s.mode)
  }

  // ---- steps of commit and of recovery --------------------------------------------------------

  predicate CanWriteDisk(s: State, b: nat) {
    b < |s.disk|
  }

  /** One round of write_log: copy a cached home block into its log block and write that. */
  predicate WriteLogBlock(l: Layout, s: State, s': State, p: Pid, i: nat, j: nat) {
    && s.mode.WritingLog? && s.mode.tail < |s.lh|
    && var slot := l.start + 1 + s.mode.tail;
       && CanWriteDisk(s, slot)
       && HoldsLocked(s, p, i, slot) && HoldsLocked(s, p, j, s.lh[s.mode.tail])
       && s' == s.(
            bufs := s.bufs[i := s.bufs[i].(data := s.bufs[j].data)],
            disk := s.disk[slot := s.bufs[j].data],
            mode := WritingLog(s.mode.tail + 1))
  }

  /** write_head with the whole list: the point at which the transaction commits. */
  predicate WriteHead(l: Layout, s: State, s': State, p: Pid, i: nat) {
    && s.mode == WritingLog(|s.lh|) && CanWriteDisk(s, l.start) && HoldsLocked(s, p, i, l.start)
    && |s.lh| < WORDS
    && var h := Encode(s.lh, s.bufs[i].data);
       s' == s.(
         bufs := s.bufs[i := s.bufs[i].(data := h)],
         disk := s.disk[l.start := h],
         mode := Installing(0))
  }

  /** One round of install_trans(0): write a home block from its log block and unpin it. */
  predicate InstallBlock(l: Layout, s: State, s': State, p: Pid, i: nat, j: nat) {
    && s.mode.Installing? && s.mode.tail < |s.lh|
    && var home := s.lh[s.mode.tail];
       && CanWriteDisk(s, home)
       && HoldsLocked(s, p, i, l.start + 1 + s.mode.tail) && HoldsLocked(s, p, j, home)
       && var b := s.bufs[j];
          s' == s.(
            bufs := s.bufs[j := b.(data := s.bufs[i].data, refcnt := b.refcnt - 1)],
            disk := s.disk[home := s.bufs[i].data],
            mode := Installing(s.mode.tail + 1))
  }

  /** One round of install_trans(1), which pins nothing and so unpins nothing. */
  predicate ReplayBlock(l: Layout, s: State, s': State, p: Pid, i: nat, j: nat) {
    && s.mode.Replaying? && s.mode.tail < |s.lh|
    && var home := s.lh[s.mode.tail];
       && CanWriteDisk(s, home)
       && HoldsLocked(s, p, i, l.start + 1 + s.mode.tail) && HoldsLocked(s, p, j, home)
       && s' == s.(
            bufs := s.bufs[j := s.bufs[j].(data := s.bufs[i].data)],
            disk := s.disk[home := s.bufs[i].data],
            mode := Replaying(s.mode.tail + 1))
  }

  /** The empty header is written: the end of commit and the end of recovery. */
  predicate ClearHead(l: Layout, s: State, s': State, p: Pid, i: nat) {
    && (s.mode == Installing(|s.lh|) || s.mode == Replaying(|s.lh|))
    && CanWriteDisk(s, l.start) && HoldsLocked(s, p, i, l.start)
    && var h := Encode([], s.bufs[i].data);
       s' == s.(
         bufs := s.bufs[i := s.bufs[i].(data := h)],
         disk := s.disk[l.start := h],
         lh := [], mode := Running)
  }

  /** read_head: recovery starts from the list in the header block. */
  predicate ReadHead(l: Layout, s: State, s': State, p: Pid, i: nat) {
    && s.mode == Booting && HoldsLocked(s, p, i, l.start) && ReadableHeader(s.bufs[i].data)
    && s' == s.(lh := Decode(s.bufs[i].data), mode := Replaying(0))
  }

  /** The buffers binit finds in zeroed memory: device 0, nothing referenced. */
  predicate FreshBufs(bufs: seq<Buf>) {
    && |bufs| == NBUF
    && forall i :: 0 <= i < |bufs| ==>
         bufs[i].dev == 0 && bufs[i].blockno == 0 && !bufs[i].valid && bufs[i].refcnt == 0
         && bufs[i].lock == Nobody && bufs[i].users == {} && !bufs[i].dirty
  }

  /** Losing power keeps the disk and nothing else. */
  predicate Crash(l: Layout, s: State, s': State) {
    && FreshBufs(s'.bufs)
    && s' == State(s.disk, s'.bufs, map[], [], {}, Booting)
  }

  datatype Step =
    | GetHitStep(p: Pid, i: nat, blockno: nat)
    | GetRecycleStep(p: Pid, i: nat, blockno: nat)
    | LockStep(p: Pid, i: nat)
    | UnlockStep(p: Pid, i: nat)
    | DropStep(p: Pid, i: nat)
    | BeginStep(p: Pid)
    | ModifyStep(p: Pid, i: nat, data: Block)
    | LogWriteStep(p: Pid, i: nat)
    | EndStep(p: Pid)
    | WriteLogStep(p: Pid, i: nat, j: nat)
    | WriteHeadStep(p: Pid, i: nat)
    | InstallStep(p: Pid, i: nat, j: nat)
    | ReplayStep(p: Pid, i: nat, j: nat)
    | ClearHeadStep(p: Pid, i: nat)
    | ReadHeadStep(p: Pid, i: nat)
    | CrashStep

  predicate Next(l: Layout, s: State, s': State, step: Step) {
    match step
    case GetHitStep(p, i, blockno) => GetHit(l, s, s', p, i, blockno)
    case GetRecycleStep(p, i, blockno) => GetRecycle(l, s, s', p, i, blockno)
    case LockStep(p, i) => Lock(l, s, s', p, i)
    case UnlockStep(p, i) => Unlock(l, s, s', p, i)
    case DropStep(p, i) => Drop(l, s, s', p, i)
    case BeginStep(p) => Begin(l, s, s', p)
    case ModifyStep(p, i, data) => Modify(l, s, s', p, i, data)
    case LogWriteStep(p, i) => LogWrite(l, s, s', p, i)
    case EndStep(p) => End(l, s, s', p)
    case WriteLogStep(p, i, j) => WriteLogBlock(l, s, s', p, i, j)
    case WriteHeadStep(p, i) => WriteHead(l, s, s', p, i)
    case InstallStep(p, i, j) => InstallBlock(l, s, s', p, i, j)
    case ReplayStep(p, i, j) => ReplayBlock(l, s, s', p, i, j)
    case ClearHeadStep(p, i) => ClearHead(l, s, s', p, i)
    case ReadHeadStep(p, i) => ReadHead(l, s, s', p, i)
    case CrashStep => Crash(l, s, s')
  }

  /** Power-on with a disk whose log header mkfs left empty. */
  predicate Init(l: Layout, s: State) {
    && WellFormed(l) && |s.disk| == l.nblocks
    && s.disk[l.start][0] == 0
    && FreshBufs(s.bufs)
    && s == State(s.disk, s.bufs, map[], [], {}, Booting)
  }

  /** A run: `steps[k]` leads from `states[k]` to `states[k + 1]`. */
  predicate Run(l: Layout, states: seq<State>, steps: seq<Step>) {
    && |states| == |steps| + 1
    && Init(l, states[0])
    && forall k :: 0 <= k < |steps| ==> Next(l, states[k], states[k + 1], steps[k])
  }
}
