/** What every step of the log machine keeps. */
module LogInvariant {
  import opened LogModel

  /** The blocks that log_write has pinned and install_trans has not yet unpinned. */
  function Pinned(s: State): (r: seq<nat>) {
    match s.mode
    case Running => s.lh
    case WritingLog(_) => s.lh
    case Installing(tail) => if tail <= |s.lh| then s.lh[tail..] else []
    case Booting => []
    case Replaying(_) => []
  }

  /** The content a bread of block `b` delivers. */
  function Cur(s: State, b: nat): (r: Block)
    requires b < |s.disk| && IndexOk(s)
  {
    if b in s.where && s.bufs[s.where[b]].valid then s.bufs[s.where[b]].data else s.disk[b]
  }

  /** `where` indexes the cache exactly, so at most one buffer carries a given block. */
  ghost predicate IndexOk(s: State) {
    && (forall b :: b in s.where ==> s.where[b] < |s.bufs| && Carries(s.bufs[s.where[b]], b))
    && (forall i :: 0 <= i < |s.bufs| && s.bufs[i].dev == ROOTDEV ==>
         s.bufs[i].blockno in s.where && s.where[s.bufs[i].blockno] == i)
  }

  ghost predicate IsPinned(s: State, b: Buf) {
    b.dev == ROOTDEV && b.blockno in Pinned(s)
  }

  /** The shape of one buffer: reference count, lock and dirty flag agree. */
  ghost predicate BufOk(l: Layout, s: State, b: Buf) {
    && (b.dev == ROOTDEV ==> b.blockno < l.nblocks)
    && (b.users != {} ==> b.dev == ROOTDEV)
    && (b.lock.Holder? ==> b.lock.pid in b.users && b.valid)
    && (b.dirty ==> b.lock.Holder? && b.lock.pid in s.ops && Home(l, b.blockno))
    && b.refcnt == |b.users| + (if IsPinned(s, b) then 1 else 0)
  }

  /** A valid buffer differs from the disk only while it is dirty or pinned by the log. */
  ghost predicate Clean(s: State, b: Buf) {
    b.dev == ROOTDEV && b.valid && !b.dirty && b.blockno !in Pinned(s)
    ==> b.blockno < |s.disk| && b.data == s.disk[b.blockno]
  }

  ghost predicate PinsCached(s: State) {
    forall b :: b in Pinned(s) ==> b in s.where && s.where[b] < |s.bufs| && s.bufs[s.where[b]].valid
  }

  ghost predicate CacheOk(l: Layout, s: State) {
    && |s.disk| == l.nblocks && |s.bufs| == NBUF
    && IndexOk(s) && PinsCached(s)
    && (forall i :: 0 <= i < |s.bufs| ==> BufOk(l, s, s.bufs[i]))
    && (forall i :: 0 <= i < |s.bufs| ==> Clean(s, s.bufs[i]))
  }

  /** The list a crash would recover from. */
  ghost predicate HeaderIs(l: Layout, disk: seq<Block>, lh: seq<nat>) {
    && l.start < |disk| && ReadableHeader(disk[l.start]) && Decode(disk[l.start]) == lh
    && LogList(l, lh)
  }

  ghost predicate HasHeader(l: Layout, disk: seq<Block>) {
    exists h :: HeaderIs(l, disk, h)
  }

  /** The first `n` log blocks hold the current content of the first `n` listed blocks. */
  ghost predicate Logged(l: Layout, s: State, n: nat)
    requires IndexOk(s) && |s.disk| == l.nblocks && LogList(l, s.lh) && WellFormed(l) && n <= |s.lh|
  {
    forall k :: 0 <= k < n ==> s.disk[l.start + 1 + k] == Cur(s, s.lh[k])
  }

  /** The first `n` listed blocks have reached their home location. */
  ghost predicate Installed(l: Layout, s: State, n: nat)
    requires |s.disk| == l.nblocks && LogList(l, s.lh) && WellFormed(l) && n <= |s.lh|
  {
    forall k :: 0 <= k < n ==> s.disk[s.lh[k]] == s.disk[l.start + 1 + k]
  }

  ghost predicate LogOk(l: Layout, s: State)
    requires IndexOk(s) && |s.disk| == l.nblocks && WellFormed(l)
  {
    && LogList(l, s.lh)
    && match s.mode
       case Running => HeaderIs(l, s.disk, [])
       case WritingLog(t) =>
         s.ops == {} && t <= |s.lh| && |s.lh| > 0 && HeaderIs(l, s.disk, []) && Logged(l, s, t)
       case Installing(t) =>
         s.ops == {} && t <= |s.lh| && HeaderIs(l, s.disk, s.lh)
         && Logged(l, s, |s.lh|) && Installed(l, s, t)
       case Booting => s.ops == {} && s.lh == [] && HasHeader(l, s.disk)
       case Replaying(t) =>
         s.ops == {} && t <= |s.lh| && HeaderIs(l, s.disk, s.lh) && Installed(l, s, t)
  }

  ghost predicate Inv(l: Layout, s: State) {
    WellFormed(l) && CacheOk(l, s) && LogOk(l, s)
  }

  lemma InitInv(l: Layout, s: State)
    requires Init(l, s)
    ensures Inv(l, s)
  {
    assert Decode(s.disk[l.start]) == [];
    assert HeaderIs(l, s.disk, []);
  }

  // ---- framing ------------------------------------------------------------------------------

  /** `s'` is `s` with buffer `i` replaced by one that carries the same block. */
  ghost predicate Touched(s: State, s': State, i: nat) {
    && i < |s.bufs| == |s'.bufs| && s'.bufs == s.bufs[i := s'.bufs[i]]
    && s'.bufs[i].dev == s.bufs[i].dev && s'.bufs[i].blockno == s.bufs[i].blockno
    && s'.where == s.where
  }

  lemma TouchIndex(s: State, s': State, i: nat)
    requires IndexOk(s) && Touched(s, s', i)
    ensures IndexOk(s')
  {
    forall k | 0 <= k < |s'.bufs| && s'.bufs[k].dev == ROOTDEV
      ensures s'.bufs[k].blockno in s'.where && s'.where[s'.bufs[k].blockno] == k
    {
      assert s.bufs[k].blockno in s.where;
    }
  }

  /** Only the touched buffer has to be looked at when the log and the disk stay as they are. */
  lemma TouchCache(l: Layout, s: State, s': State, i: nat)
    requires CacheOk(l, s) && Touched(s, s', i)
    requires s'.disk == s.disk && s'.lh == s.lh && s'.mode == s.mode && s'.ops == s.ops
    requires BufOk(l, s', s'.bufs[i]) && Clean(s', s'.bufs[i])
    requires s.bufs[i].valid ==> s'.bufs[i].valid
    ensures CacheOk(l, s')
  {
    TouchIndex(s, s', i);
    forall k | 0 <= k < |s'.bufs| ensures BufOk(l, s', s'.bufs[k]) && Clean(s', s'.bufs[k]) {
      if k != i {
        assert s'.bufs[k] == s.bufs[k];
        assert BufOk(l, s, s.bufs[k]) && Clean(s, s.bufs[k]);
      }
    }
  }

  /** The log invariant speaks of the cache only through the content of the listed blocks. */
  lemma FrameLog(l: Layout, s: State, s': State)
    requires WellFormed(l) && |s.disk| == l.nblocks && IndexOk(s) && IndexOk(s') && LogOk(l, s)
    requires s'.disk == s.disk && s'.lh == s.lh && s'.mode == s.mode && s'.ops == s.ops
    requires forall k :: 0 <= k < |s.lh| ==> Cur(s', s.lh[k]) == Cur(s, s.lh[k])
    ensures LogOk(l, s')
  {
  }

  lemma TouchInv(l: Layout, s: State, s': State, i: nat)
    requires Inv(l, s) && Touched(s, s', i)
    requires s'.disk == s.disk && s'.lh == s.lh && s'.mode == s.mode && s'.ops == s.ops
    requires BufOk(l, s', s'.bufs[i]) && Clean(s', s'.bufs[i])
    requires s.bufs[i].valid ==> s'.bufs[i].valid && s'.bufs[i].data == s.bufs[i].data
    requires !s.bufs[i].valid && s'.bufs[i].valid ==>
               s.bufs[i].blockno < |s.disk| && s'.bufs[i].data == s.disk[s.bufs[i].blockno]
    ensures Inv(l, s')
  {
    TouchCache(l, s, s', i);
    FrameLog(l, s, s');
  }

  // ---- the steps ------------------------------------------------------------------------------

  lemma GetHitInv(l: Layout, s: State, s': State, p: Pid, i: nat, blockno: nat)
    requires Inv(l, s) && GetHit(l, s, s', p, i, blockno)
    ensures Inv(l, s')
  {
    assert BufOk(l, s, s.bufs[i]) && Clean(s, s.bufs[i]);
    TouchInv(l, s, s', i);
  }

  lemma LockInv(l: Layout, s: State, s': State, p: Pid, i: nat)
    requires Inv(l, s) && Lock(l, s, s', p, i)
    ensures Inv(l, s')
  {
    assert BufOk(l, s, s.bufs[i]) && Clean(s, s.bufs[i]);
    TouchInv(l, s, s', i);
  }

  lemma UnlockInv(l: Layout, s: State, s': State, p: Pid, i: nat)
    requires Inv(l, s) && Unlock(l, s, s', p, i)
    ensures Inv(l, s')
  {
    assert BufOk(l, s, s.bufs[i]) && Clean(s, s.bufs[i]);
    TouchInv(l, s, s', i);
  }

  lemma DropInv(l: Layout, s: State, s': State, p: Pid, i: nat)
    requires Inv(l, s) && Drop(l, s, s', p, i)
    ensures Inv(l, s')
  {
    assert BufOk(l, s, s.bufs[i]) && Clean(s, s.bufs[i]);
    TouchInv(l, s, s', i);
  }

  lemma RecycleIndex(l: Layout, s: State, s': State, p: Pid, i: nat, blockno: nat)
    requires IndexOk(s) && GetRecycle(l, s, s', p, i, blockno)
    ensures IndexOk(s')
  {
    forall b | b in s'.where
      ensures s'.where[b] < |s'.bufs| && Carries(s'.bufs[s'.where[b]], b)
    {
      if b != blockno {
        assert b in s.where && s'.where[b] == s.where[b];
      }
    }
    forall k | 0 <= k < |s'.bufs| && s'.bufs[k].dev == ROOTDEV
      ensures s'.bufs[k].blockno in s'.where && s'.where[s'.bufs[k].blockno] == k
    {
      if k != i {
        assert s'.bufs[k] == s.bufs[k];
        assert !Carries(s.bufs[k], blockno);
      }
    }
  }

  /** A buffer without references is not pinned, so recycling it loses nothing. */
  lemma RecycledNotPinned(l: Layout, s: State, i: nat)
    requires CacheOk(l, s) && i < |s.bufs| && s.bufs[i].refcnt == 0
    ensures s.bufs[i].users == {} && !IsPinned(s, s.bufs[i]) && Clean(s, s.bufs[i])
    ensures s.bufs[i].lock == Nobody && !s.bufs[i].dirty
  {
    assert BufOk(l, s, s.bufs[i]);
  }

  /** Recycling changes the content of no block: the recycled one was equal to the disk. */
  lemma RecycleCur(l: Layout, s: State, s': State, p: Pid, i: nat, blockno: nat, b: nat)
    requires CacheOk(l, s) && GetRecycle(l, s, s', p, i, blockno) && b < l.nblocks
    ensures IndexOk(s') && Cur(s', b) == Cur(s, b)
  {
    RecycleIndex(l, s, s', p, i, blockno);
    RecycledNotPinned(l, s, i);
    if b == blockno {
      assert b !in s.where;
    } else if Carries(s.bufs[i], b) {
      assert b !in s'.where;
    } else if b in s.where {
      assert s.where[b] != i && b in s'.where;
    }
  }

  lemma RecycleCache(l: Layout, s: State, s': State, p: Pid, i: nat, blockno: nat)
    requires CacheOk(l, s) && GetRecycle(l, s, s', p, i, blockno)
    ensures CacheOk(l, s')
  {
    RecycleIndex(l, s, s', p, i, blockno);
    RecycledNotPinned(l, s, i);
    assert Pinned(s') == Pinned(s);
    forall k | 0 <= k < |s'.bufs| ensures BufOk(l, s', s'.bufs[k]) && Clean(s', s'.bufs[k]) {
      if k != i {
        assert s'.bufs[k] == s.bufs[k];
        assert BufOk(l, s, s.bufs[k]) && Clean(s, s.bufs[k]);
      } else {
        assert blockno !in s.where;
      }
    }
    forall b | b in Pinned(s')
      ensures b in s'.where && s'.where[b] < |s'.bufs| && s'.bufs[s'.where[b]].valid
    {
      assert b in s.where && s.where[b] != i && b != blockno;
    }
  }

  lemma GetRecycleInv(l: Layout, s: State, s': State, p: Pid, i: nat, blockno: nat)
    requires Inv(l, s) && GetRecycle(l, s, s', p, i, blockno)
    ensures Inv(l, s')
  {
    RecycleCache(l, s, s', p, i, blockno);
    forall k | 0 <= k < |s.lh| ensures Cur(s', s.lh[k]) == Cur(s, s.lh[k]) {
      RecycleCur(l, s, s', p, i, blockno, s.lh[k]);
    }
    FrameLog(l, s, s');
  }

  lemma ModifyInv(l: Layout, s: State, s': State, p: Pid, i: nat, data: Block)
    requires Inv(l, s) && Modify(l, s, s', p, i, data)
    ensures Inv(l, s')
  {
    assert BufOk(l, s, s.bufs[i]);
    TouchCache(l, s, s', i);
  }

  lemma LogWriteInv(l: Layout, s: State, s': State, p: Pid, i: nat)
    requires Inv(l, s) && LogWrite(l, s, s', p, i)
    ensures Inv(l, s')
  {
    assert BufOk(l, s, s.bufs[i]);
    TouchIndex(s, s', i);
    forall k | 0 <= k < |s'.bufs| ensures BufOk(l, s', s'.bufs[k]) && Clean(s', s'.bufs[k]) {
      assert BufOk(l, s, s.bufs[k]) && Clean(s, s.bufs[k]);
    }
    assert PinsCached(s');
  }

  lemma BeginInv(l: Layout, s: State, s': State, p: Pid)
    requires Inv(l, s) && Begin(l, s, s', p)
    ensures Inv(l, s')
  {
    forall k | 0 <= k < |s'.bufs| ensures BufOk(l, s', s'.bufs[k]) && Clean(s', s'.bufs[k]) {
      assert BufOk(l, s, s.bufs[k]) && Clean(s, s.bufs[k]);
    }
  }

  lemma EndInv(l: Layout, s: State, s': State, p: Pid)
    requires Inv(l, s) && End(l, s, s', p)
    ensures Inv(l, s')
  {
    assert Pinned(s') == Pinned(s);
    forall k | 0 <= k < |s'.bufs| ensures BufOk(l, s', s'.bufs[k]) && Clean(s', s'.bufs[k]) {
      assert BufOk(l, s, s.bufs[k]) && Clean(s, s.bufs[k]);
    }
  }

  /** Outside a system call nothing is dirty. */
  lemma QuietIsClean(l: Layout, s: State, i: nat)
    requires CacheOk(l, s) && s.ops == {} && i < |s.bufs|
    ensures !s.bufs[i].dirty && BufOk(l, s, s.bufs[i]) && Clean(s, s.bufs[i])
  {
    assert BufOk(l, s, s.bufs[i]);
  }

  /** Writing a locked buffer through to the disk, outside a system call. */
  lemma WriteThroughCache(l: Layout, s: State, s': State, i: nat)
    requires CacheOk(l, s) && s.ops == {} && Touched(s, s', i) && s.bufs[i].dev == ROOTDEV
    requires s.bufs[i].valid && s.bufs[i].blockno < |s.disk|
    requires s'.bufs[i] == s.bufs[i].(data := s'.bufs[i].data, refcnt := s'.bufs[i].refcnt)
    requires s'.disk == s.disk[s.bufs[i].blockno := s'.bufs[i].data]
    requires s'.ops == {}
    requires forall k :: 0 <= k < |s.bufs| && k != i ==> (IsPinned(s', s.bufs[k]) <==> IsPinned(s, s.bufs[k]))
    requires s'.bufs[i].refcnt - s.bufs[i].refcnt ==
               (if IsPinned(s', s.bufs[i]) then 1 else 0) - (if IsPinned(s, s.bufs[i]) then 1 else 0)
    requires forall b :: b in Pinned(s') ==> b in Pinned(s)
    ensures CacheOk(l, s')
  {
    TouchIndex(s, s', i);
    forall k | 0 <= k < |s'.bufs| ensures BufOk(l, s', s'.bufs[k]) && Clean(s', s'.bufs[k]) {
      QuietIsClean(l, s, k);
      if k != i && s.bufs[k].dev == ROOTDEV {
        assert s.bufs[k].blockno != s.bufs[i].blockno;
      }
    }
  }

  lemma WriteThroughCur(l: Layout, s: State, s': State, i: nat, b: nat)
    requires CacheOk(l, s) && Touched(s, s', i) && s.bufs[i].dev == ROOTDEV
    requires s.bufs[i].valid && s'.bufs[i].valid && s.bufs[i].blockno < |s.disk| && b < |s.disk|
    requires s'.disk == s.disk[s.bufs[i].blockno := s'.bufs[i].data]
    ensures IndexOk(s') && |s'.disk| == |s.disk|
    ensures Cur(s', b) == if b == s.bufs[i].blockno then s'.bufs[i].data else Cur(s, b)
  {
    TouchIndex(s, s', i);
  }

  lemma WriteLogInv(l: Layout, s: State, s': State, p: Pid, i: nat, j: nat)
    requires Inv(l, s) && WriteLogBlock(l, s, s', p, i, j)
    ensures Inv(l, s')
  {
    var t := s.mode.tail;
    assert BufOk(l, s, s.bufs[i]);
    WriteThroughCache(l, s, s', i);
    forall k | 0 <= k < |s.lh| ensures Cur(s', s.lh[k]) == Cur(s, s.lh[k]) {
      WriteThroughCur(l, s, s', i, s.lh[k]);
    }
    assert s.where[s.lh[t]] == j;
    assert BufOk(l, s, s.bufs[j]);
    assert Cur(s, s.lh[t]) == s.bufs[j].data;
  }

  lemma WriteHeadInv(l: Layout, s: State, s': State, p: Pid, i: nat)
    requires Inv(l, s) && WriteHead(l, s, s', p, i)
    ensures Inv(l, s')
  {
    DecodeEncode(s.lh, s.bufs[i].data);
    assert BufOk(l, s, s.bufs[i]);
    assert Pinned(s') == Pinned(s);
    WriteThroughCache(l, s, s', i);
    forall k | 0 <= k < |s.lh| ensures Cur(s', s.lh[k]) == Cur(s, s.lh[k]) {
      WriteThroughCur(l, s, s', i, s.lh[k]);
    }
  }

  /** A log block is read back as it was written: its buffer is clean and never pinned. */
  lemma LogBlockIsOnDisk(l: Layout, s: State, p: Pid, i: nat, slot: nat)
    requires Inv(l, s) && HoldsLocked(s, p, i, slot) && l.start <= slot < l.start + l.size
    ensures s.bufs[i].valid && s.bufs[i].data == s.disk[slot]
  {
    assert BufOk(l, s, s.bufs[i]) && Clean(s, s.bufs[i]);
    assert slot !in Pinned(s);
  }

  /** A locked buffer is the one the index names, and it holds the block's current content. */
  lemma HeldIsCurrent(l: Layout, s: State, p: Pid, i: nat, b: nat)
    requires Inv(l, s) && HoldsLocked(s, p, i, b)
    ensures b < l.nblocks == |s.disk| && IndexOk(s)
    ensures s.bufs[i].valid && Cur(s, b) == s.bufs[i].data
  {
    assert BufOk(l, s, s.bufs[i]);
    assert s.where[b] == i;
  }

  /** Writing a held buffer through changes the content of its block only. */
  lemma HeldWrite(l: Layout, s: State, s': State, p: Pid, i: nat, home: nat, b: nat)
    requires Inv(l, s) && HoldsLocked(s, p, i, home) && Touched(s, s', i) && s'.bufs[i].valid
    requires b < |s.disk| && home < |s.disk| && s'.disk == s.disk[home := s'.bufs[i].data]
    ensures IndexOk(s') && IndexOk(s) && |s'.disk| == |s.disk| == l.nblocks
    ensures Cur(s', b) == if b == home then s'.bufs[i].data else Cur(s, b)
  {
    assert BufOk(l, s, s.bufs[i]);
    WriteThroughCur(l, s, s', i, b);
  }

  /** Once the log is written, the log blocks hold the current content of the listed blocks. */
  lemma ListedContent(l: Layout, s: State, k: nat)
    requires Inv(l, s) && k < |s.lh| && (s.mode.Installing? || s.mode == WritingLog(|s.lh|))
    ensures Home(l, s.lh[k]) && l.start + 1 + k < l.start + l.size <= |s.disk| == l.nblocks && IndexOk(s)
    ensures s.disk[l.start + 1 + k] == Cur(s, s.lh[k])
  {
  }

  /** Installing a block changes no content: the log block held it already. */
  lemma InstallContent(l: Layout, s: State, s': State, p: Pid, i: nat, j: nat, b: nat)
    requires Inv(l, s) && InstallBlock(l, s, s', p, i, j) && b < l.nblocks
    ensures IndexOk(s) && IndexOk(s') && |s'.disk| == l.nblocks == |s.disk| && Cur(s', b) == Cur(s, b)
  {
    hide Inv;
    var t := s.mode.tail;
    ListedContent(l, s, t);
    LogBlockIsOnDisk(l, s, p, i, l.start + 1 + t);
    HeldIsCurrent(l, s, p, j, s.lh[t]);
    HeldWrite(l, s, s', p, j, s.lh[t], b);
  }

  lemma InstallCache(l: Layout, s: State, s': State, p: Pid, i: nat, j: nat)
    requires Inv(l, s) && InstallBlock(l, s, s', p, i, j)
    ensures CacheOk(l, s')
  {
    assert BufOk(l, s, s.bufs[j]);
    assert Pinned(s) == [s.lh[s.mode.tail]] + Pinned(s');
    WriteThroughCache(l, s, s', j);
  }

  lemma InstallLog(l: Layout, s: State, s': State, p: Pid, i: nat, j: nat)
    requires Inv(l, s) && InstallBlock(l, s, s', p, i, j) && CacheOk(l, s')
    requires forall k :: 0 <= k < |s.lh| ==> Cur(s', s.lh[k]) == Cur(s, s.lh[k])
    ensures LogOk(l, s')
  {
    LogBlockIsOnDisk(l, s, p, i, l.start + 1 + s.mode.tail);
    assert s'.disk[l.start] == s.disk[l.start];
  }

  lemma InstallInv(l: Layout, s: State, s': State, p: Pid, i: nat, j: nat)
    requires Inv(l, s) && InstallBlock(l, s, s', p, i, j)
    ensures Inv(l, s')
  {
    InstallCache(l, s, s', p, i, j);
    forall k | 0 <= k < |s.lh| ensures Cur(s', s.lh[k]) == Cur(s, s.lh[k]) {
      InstallContent(l, s, s', p, i, j, s.lh[k]);
    }
    InstallLog(l, s, s', p, i, j);
  }

  lemma ReplayInv(l: Layout, s: State, s': State, p: Pid, i: nat, j: nat)
    requires Inv(l, s) && ReplayBlock(l, s, s', p, i, j)
    ensures Inv(l, s')
  {
    LogBlockIsOnDisk(l, s, p, i, l.start + 1 + s.mode.tail);
    assert BufOk(l, s, s.bufs[j]);
    WriteThroughCache(l, s, s', j);
  }

  lemma ClearHeadInv(l: Layout, s: State, s': State, p: Pid, i: nat)
    requires Inv(l, s) && ClearHead(l, s, s', p, i)
    ensures Inv(l, s')
  {
    DecodeEncode([], s.bufs[i].data);
    assert BufOk(l, s, s.bufs[i]);
    assert Pinned(s) == [] == Pinned(s');
    WriteThroughCache(l, s, s', i);
  }

  lemma ReadHeadInv(l: Layout, s: State, s': State, p: Pid, i: nat)
    requires Inv(l, s) && ReadHead(l, s, s', p, i)
    ensures Inv(l, s')
  {
    LogBlockIsOnDisk(l, s, p, i, l.start);
    forall k | 0 <= k < |s'.bufs| ensures BufOk(l, s', s'.bufs[k]) && Clean(s', s'.bufs[k]) {
      assert BufOk(l, s, s.bufs[k]) && Clean(s, s.bufs[k]);
    }
  }

  /** In every mode the disk carries a header that recovery can read. */
  lemma InvHasHeader(l: Layout, s: State)
    requires Inv(l, s)
    ensures HasHeader(l, s.disk)
  {
    var h := if s.mode.Installing? || s.mode.Replaying? then s.lh else [];
    assert s.mode != Booting ==> HeaderIs(l, s.disk, h);
  }

  lemma FreshCacheOk(l: Layout, s: State)
    requires |s.disk| == l.nblocks && FreshBufs(s.bufs) && s.where == map[] && s.mode == Booting
    ensures CacheOk(l, s)
  {
  }

  lemma CrashInv(l: Layout, s: State, s': State)
    requires Inv(l, s) && Crash(l, s, s')
    ensures Inv(l, s')
  {
    InvHasHeader(l, s);
    FreshCacheOk(l, s');
  }

  /** Every step of the machine keeps the invariant. */
  lemma NextInv(l: Layout, s: State, s': State, step: Step)
    requires Inv(l, s) && Next(l, s, s', step)
    ensures Inv(l, s')
  {
    match step
    case GetHitStep(p, i, blockno) => GetHitInv(l, s, s', p, i, blockno);
    case GetRecycleStep(p, i, blockno) => GetRecycleInv(l, s, s', p, i, blockno);
    case LockStep(p, i) => LockInv(l, s, s', p, i);
    case UnlockStep(p, i) => UnlockInv(l, s, s', p, i);
    case DropStep(p, i) => DropInv(l, s, s', p, i);
    case BeginStep(p) => BeginInv(l, s, s', p);
    case ModifyStep(p, i, data) => ModifyInv(l, s, s', p, i, data);
    case LogWriteStep(p, i) => LogWriteInv(l, s, s', p, i);
    case EndStep(p) => EndInv(l, s, s', p);
    case WriteLogStep(p, i, j) => WriteLogInv(l, s, s', p, i, j);
    case WriteHeadStep(p, i) => WriteHeadInv(l, s, s', p, i);
    case InstallStep(p, i, j) => InstallInv(l, s, s', p, i, j);
    case ReplayStep(p, i, j) => ReplayInv(l, s, s', p, i, j);
    case ClearHeadStep(p, i) => ClearHeadInv(l, s, s', p, i);
    case ReadHeadStep(p, i) => ReadHeadInv(l, s, s', p, i);
    case CrashStep => CrashInv(l, s, s');
  }
}
