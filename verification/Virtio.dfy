/** The request queue of kernel/virtio_disk.c, shared with a device that takes and completes requests
    whenever it likes (sections 2.6 and 5.2 of VIRTIO 1.1). Every method is one stretch of code under
    vdisk_lock, or one step of the device; they may follow each other in any order. */
module Virtio {
  import opened Pigeonhole
  import opened Words

  const NUM := 8
  /** Ring indices are 16 bits wide. */
  const IDX := 65536
  const BSIZE := 1024

  datatype Desc = Desc(addr: int, len: nat, hasNext: bool, deviceWrites: bool, next: nat)
  const BLANK := Desc(0, 0, false, false, 0)

  datatype Info = Info(b: int, status: int)

  /** What a descriptor is used for: the pos-th of the chain that starts at `head`. */
  datatype Part = Unused | Part(head: nat, pos: nat)

  /** Published, being worked on, reported by the device, acknowledged by the interrupt handler. */
  datatype Stage = Queued | Taken | Reported | Done

  datatype Req = Req(buf: int, stage: Stage, d1: nat, d2: nat)

  /** `taken` is how far the device has read the avail ring, `seen` how far the driver has read the
      used ring. The last four fields are bookkeeping: chains, requests by head, and the entries of
      the two rings that are waiting to be read. `busy` are the buffers with b->disk == 1. */
  datatype Disk = Disk(
    free: seq<bool>, desc: seq<Desc>, info: seq<Info>, busy: set<int>,
    avail: seq<nat>, availIdx: nat, taken: nat, used: seq<nat>, usedIdx: nat, seen: nat,
    part: seq<Part>, reqs: map<nat, Req>, availQ: seq<nat>, usedQ: seq<nat>)

  // ---- invariants --------------------------------------------------------------------------------------

  ghost predicate Shape(d: Disk) {
    && |d.free| == |d.desc| == |d.info| == |d.avail| == |d.used| == |d.part| == NUM
    && d.availIdx < IDX && d.taken < IDX && d.usedIdx < IDX && d.seen < IDX
  }

  /** The three descriptors of a request are linked in order and belong to it alone. */
  ghost predicate ChainOk(d: Disk, h: nat)
    requires Shape(d) && h in d.reqs
  {
    var r := d.reqs[h];
    && h < NUM && r.d1 < NUM && r.d2 < NUM
    && d.part[h] == Part(h, 0) && d.part[r.d1] == Part(h, 1) && d.part[r.d2] == Part(h, 2)
    && d.desc[h].hasNext && d.desc[h].next == r.d1 && d.desc[r.d1].hasNext && d.desc[r.d1].next == r.d2
    && !d.desc[r.d2].hasNext
    && d.info[h].b == r.buf && (r.stage != Done <==> r.buf in d.busy)
  }

  /** Every descriptor is free and blank, or in its place in the chain of a request. */
  ghost predicate PartOk(d: Disk, i: nat)
    requires Shape(d) && i < NUM
  {
    match d.part[i]
    case Unused => d.free[i] && d.desc[i] == BLANK
    case Part(h, pos) =>
      && !d.free[i] && h in d.reqs
      && ((pos == 0 && i == h) || (pos == 1 && i == d.reqs[h].d1) || (pos == 2 && i == d.reqs[h].d2))
  }

  ghost predicate ChainsOk(d: Disk)
    requires Shape(d)
  {
    && (forall h :: h in d.reqs ==> ChainOk(d, h))
    && (forall i :: 0 <= i < NUM ==> PartOk(d, i))
    && (forall h, g :: h in d.reqs && g in d.reqs && d.reqs[h].buf == d.reqs[g].buf ==> h == g)
  }

  /** A ring holds the waiting entries, in order, from index `from` on. */
  ghost predicate RingOk(ring: seq<nat>, from: nat, idx: nat, q: seq<nat>) {
    && |ring| == NUM && |q| <= NUM && idx == (from + |q|) % IDX
    && forall j :: 0 <= j < |q| ==> ring[(from + j) % NUM] == q[j]
  }

  ghost predicate QueueOk(d: Disk, q: seq<nat>, stage: Stage) {
    && NoDup(q)
    && (forall j :: 0 <= j < |q| ==> q[j] in d.reqs && d.reqs[q[j]].stage == stage)
    && (forall h :: h in d.reqs && d.reqs[h].stage == stage ==> h in q)
  }

  ghost predicate RingsOk(d: Disk)
    requires Shape(d)
  {
    && RingOk(d.avail, d.taken, d.availIdx, d.availQ) && QueueOk(d, d.availQ, Queued)
    && RingOk(d.used, d.seen, d.usedIdx, d.usedQ) && QueueOk(d, d.usedQ, Reported)
  }

  ghost predicate Inv(d: Disk) {
    Shape(d) && ChainsOk(d) && RingsOk(d)
  }

  // ---- descriptors ----------------------------------------------------------------------------------------

  /** The chains in flight are pairwise disjoint, three descriptors each. */
  lemma ChainsDisjoint(d: Disk, h: nat, g: nat)
    requires Inv(d) && h in d.reqs && g in d.reqs
    ensures h != g ==> {h, d.reqs[h].d1, d.reqs[h].d2} !! {g, d.reqs[g].d1, d.reqs[g].d2}
    ensures |{h, d.reqs[h].d1, d.reqs[h].d2}| == 3
  {
    hide RingsOk;
    assert ChainOk(d, h) && ChainOk(d, g);
  }

  /** Together with the free descriptors they make up all NUM. */
  lemma Partition(d: Disk, i: nat)
    requires Inv(d) && i < NUM
    ensures !d.free[i] <==> exists h :: h in d.reqs && i in {h, d.reqs[h].d1, d.reqs[h].d2}
  {
    hide RingsOk;
    assert PartOk(d, i);
    if !d.free[i] {
      var h := d.part[i].head;
      assert h in d.reqs && i in {h, d.reqs[h].d1, d.reqs[h].d2};
    }
    forall h | h in d.reqs && i in {h, d.reqs[h].d1, d.reqs[h].d2} ensures !d.free[i] {
      assert ChainOk(d, h);
    }
  }

  // ---- ring arithmetic ---------------------------------------------------------------------------------------

  /** Publishing at the 16-bit index overwrites no entry that waits. */
  lemma RingPush(ring: seq<nat>, from: nat, idx: nat, q: seq<nat>, h: nat)
    requires RingOk(ring, from, idx, q) && |q| < NUM
    ensures RingOk(ring[idx % NUM := h], from, (idx + 1) % IDX, q + [h])
  {
    SlotOf(from + |q|, 8192, NUM);
    var ring' := ring[idx % NUM := h];
    forall j | 0 <= j < |q| + 1 ensures ring'[(from + j) % NUM] == (q + [h])[j] {
      if j < |q| {
        SlotsDiffer(NUM, from + j, from + |q|);
      }
    }
    IndexNext(from, |q|);
  }

  lemma IndexNext(from: nat, n: nat)
    ensures ((from + n) % IDX + 1) % IDX == (from + n + 1) % IDX
  {
  }

  /** Reading at the 16-bit index finds the first entry that waits. */
  lemma RingPop(ring: seq<nat>, from: nat, idx: nat, q: seq<nat>)
    requires RingOk(ring, from, idx, q) && from < IDX && idx < IDX
    ensures from != idx <==> q != []
    ensures q != [] ==> ring[from % NUM] == q[0] && RingOk(ring, (from + 1) % IDX, idx, q[1..])
  {
    if q != [] {
      var from', q' := (from + 1) % IDX, q[1..];
      forall j | 0 <= j < |q'| ensures ring[(from' + j) % NUM] == q'[j] {
        assert ring[(from + (j + 1)) % NUM] == q[j + 1];
        ShiftSlot(from, j);
      }
      IndexPop(from, |q|);
    }
  }

  lemma ShiftSlot(from: nat, j: nat)
    requires from < IDX
    ensures ((from + 1) % IDX + j) % NUM == (from + (j + 1)) % NUM
  {
    if from + 1 == IDX {
      SlotOf(from + 1, 8192, NUM);
    }
  }

  lemma IndexPop(from: nat, n: nat)
    requires 1 <= n <= NUM && from < IDX
    ensures ((from + 1) % IDX + (n - 1)) % IDX == (from + n) % IDX && (from + n) % IDX != from
  {
  }

  /** Distinct numbers below NUM that miss one: fewer than NUM of them. */
  lemma Room(q: seq<nat>, x: nat)
    requires NoDup(q) && x < NUM && x !in q && forall j :: 0 <= j < |q| ==> q[j] < NUM
    ensures |q| < NUM
  {
    var q' := q + [x];
    forall k | 0 <= k < |q'| ensures q'[k] < NUM {
    }
    Below(q', NUM);
  }

  // ---- the steps, as functions ------------------------------------------------------------------------------------

  /** The request for buffer b with chain (h, d1, d2) is formatted and published. */
  function Submitted(d: Disk, b: int, write: bool, h: nat, d1: nat, d2: nat): (d': Disk)
    requires |d.free| == |d.desc| == |d.info| == |d.avail| == |d.part| == NUM && h < NUM && d1 < NUM && d2 < NUM
  {
    d.(free := d.free[h := false][d1 := false][d2 := false],
       desc := d.desc[h := Desc(HeaderAddr(h), 16, true, false, d1)][d1 := Desc(b, BSIZE, true, !write, d2)]
                     [d2 := Desc(StatusAddr(h), 1, false, true, 0)],
       info := d.info[h := Info(b, 255)], busy := d.busy + {b},
       avail := d.avail[d.availIdx % NUM := h], availIdx := (d.availIdx + 1) % IDX,
       part := d.part[h := Part(h, 0)][d1 := Part(h, 1)][d2 := Part(h, 2)],
       reqs := d.reqs[h := Req(b, Queued, d1, d2)], availQ := d.availQ + [h])
  }

  /** The addresses of disk.ops[h] and disk.info[h].status stand for themselves. */
  function HeaderAddr(h: nat): (a: int) { -1 - 2 * h }
  function StatusAddr(h: nat): (a: int) { -2 - 2 * h }

  ghost predicate CanSubmit(d: Disk, b: int, h: nat, d1: nat, d2: nat) {
    && Inv(d) && h < NUM && d1 < NUM && d2 < NUM && h != d1 && h != d2 && d1 != d2
    && d.free[h] && d.free[d1] && d.free[d2] && b !in d.busy && (forall g :: g in d.reqs ==> d.reqs[g].buf != b)
  }

  lemma SubmitFacts(d: Disk, b: int, h: nat, d1: nat, d2: nat)
    requires CanSubmit(d, b, h, d1, d2)
    ensures d.part[h] == Unused && d.part[d1] == Unused && d.part[d2] == Unused && h !in d.reqs && h !in d.availQ
    ensures |d.availQ| < NUM
  {
    assert PartOk(d, h) && PartOk(d, d1) && PartOk(d, d2);
    assert h in d.reqs ==> ChainOk(d, h);
    forall j | 0 <= j < |d.availQ| ensures d.availQ[j] < NUM {
      assert ChainOk(d, d.availQ[j]);
    }
    Room(d.availQ, h);
  }

  lemma SubmitChain(d: Disk, b: int, write: bool, h: nat, d1: nat, d2: nat, g: nat)
    requires CanSubmit(d, b, h, d1, d2) && (g == h || g in d.reqs)
    ensures Shape(Submitted(d, b, write, h, d1, d2)) && ChainOk(Submitted(d, b, write, h, d1, d2), g)
  {
    hide RingsOk, HeaderAddr, StatusAddr, PartOk;
    SubmitFacts(d, b, h, d1, d2);
    if g != h {
      assert ChainOk(d, g);
    }
  }

  lemma SubmitPart(d: Disk, b: int, write: bool, h: nat, d1: nat, d2: nat, i: nat)
    requires CanSubmit(d, b, h, d1, d2) && i < NUM
    ensures Shape(Submitted(d, b, write, h, d1, d2)) && PartOk(Submitted(d, b, write, h, d1, d2), i)
  {
    hide RingsOk, HeaderAddr, StatusAddr, ChainOk;
    SubmitFacts(d, b, h, d1, d2);
    assert PartOk(d, i);
  }

  lemma SubmitChains(d: Disk, b: int, write: bool, h: nat, d1: nat, d2: nat)
    requires CanSubmit(d, b, h, d1, d2)
    ensures Shape(Submitted(d, b, write, h, d1, d2)) && ChainsOk(Submitted(d, b, write, h, d1, d2))
  {
    hide RingsOk, HeaderAddr, StatusAddr, ChainOk, PartOk;
    var d' := Submitted(d, b, write, h, d1, d2);
    forall g | g in d'.reqs ensures ChainOk(d', g) {
      SubmitChain(d, b, write, h, d1, d2, g);
    }
    forall i | 0 <= i < NUM ensures PartOk(d', i) {
      SubmitPart(d, b, write, h, d1, d2, i);
    }
  }

  lemma SubmitRings(d: Disk, b: int, write: bool, h: nat, d1: nat, d2: nat)
    requires CanSubmit(d, b, h, d1, d2)
    ensures Shape(Submitted(d, b, write, h, d1, d2)) && RingsOk(Submitted(d, b, write, h, d1, d2))
  {
    hide HeaderAddr, StatusAddr;
    SubmitFacts(d, b, h, d1, d2);
    RingPush(d.avail, d.taken, d.availIdx, d.availQ, h);
    hide ChainsOk, RingOk;
    var d' := Submitted(d, b, write, h, d1, d2);
    assert QueueOk(d', d'.availQ, Queued);
    assert QueueOk(d', d'.usedQ, Reported);
  }

  lemma SubmitInv(d: Disk, b: int, write: bool, h: nat, d1: nat, d2: nat)
    requires CanSubmit(d, b, h, d1, d2)
    ensures Inv(Submitted(d, b, write, h, d1, d2))
  {
    hide Submitted, ChainsOk, RingsOk;
    SubmitChains(d, b, write, h, d1, d2);
    SubmitRings(d, b, write, h, d1, d2);
  }

  /** The device reads the next entry of the avail ring. */
  function TakenNext(d: Disk): (d': Disk)
    requires d.availQ != [] && d.availQ[0] in d.reqs
  {
    var h := d.availQ[0];
    d.(taken := (d.taken + 1) % IDX, availQ := d.availQ[1..], reqs := d.reqs[h := d.reqs[h].(stage := Taken)])
  }

  lemma TakeInv(d: Disk)
    requires Inv(d) && d.availQ != []
    ensures d.availQ[0] in d.reqs && d.avail[d.taken % NUM] == d.availQ[0] && Inv(TakenNext(d))
  {
    hide RingOk, ChainsOk;
    RingPop(d.avail, d.taken, d.availIdx, d.availQ);
    var d' := TakenNext(d);
    StageChains(d, d', d.availQ[0], Taken);
    PopQueue(d, d', d.availQ, Queued, Taken);
    assert QueueOk(d', d'.usedQ, Reported);
  }

  /** The device reports a request that it has taken; status 0 is success. */
  function Completed(d: Disk, h: nat, status: int): (d': Disk)
    requires h in d.reqs && |d.used| == NUM && h < |d.info|
  {
    d.(used := d.used[d.usedIdx % NUM := h], usedIdx := (d.usedIdx + 1) % IDX,
       info := d.info[h := d.info[h].(status := status)],
       usedQ := d.usedQ + [h], reqs := d.reqs[h := d.reqs[h].(stage := Reported)])
  }

  lemma CompleteInv(d: Disk, h: nat, status: int)
    requires Inv(d) && h in d.reqs && d.reqs[h].stage == Taken
    ensures h < NUM && Inv(Completed(d, h, status))
  {
    hide RingOk, ChainsOk;
    HeadInfo(d, h);
    assert h !in d.usedQ;
    forall j | 0 <= j < |d.usedQ| ensures d.usedQ[j] < NUM {
      HeadInfo(d, d.usedQ[j]);
    }
    Room(d.usedQ, h);
    RingPush(d.used, d.seen, d.usedIdx, d.usedQ, h);
    var d' := Completed(d, h, status);
    StageChains(d, d', h, Reported);
    assert QueueOk(d', d'.availQ, Queued);
    assert QueueOk(d', d'.usedQ, Reported);
  }

  /** The interrupt handler reads the next entry of the used ring. */
  function Acknowledged(d: Disk): (d': Disk)
    requires d.usedQ != [] && d.usedQ[0] in d.reqs
  {
    var h := d.usedQ[0];
    d.(seen := (d.seen + 1) % IDX, usedQ := d.usedQ[1..], busy := d.busy - {d.reqs[h].buf},
       reqs := d.reqs[h := d.reqs[h].(stage := Done)])
  }

  lemma AckChains(d: Disk)
    requires Inv(d) && d.usedQ != [] && d.usedQ[0] in d.reqs && d.reqs[d.usedQ[0]].stage == Reported
    ensures Shape(Acknowledged(d)) && ChainsOk(Acknowledged(d))
  {
    hide RingsOk;
    var d' := Acknowledged(d);
    assert ChainOk(d, d.usedQ[0]);
    forall g | g in d'.reqs ensures ChainOk(d', g) {
      assert ChainOk(d, g);
    }
    forall i | 0 <= i < NUM ensures PartOk(d', i) {
      assert PartOk(d, i);
    }
  }

  lemma AckInv(d: Disk)
    requires Inv(d) && d.usedQ != []
    ensures d.usedQ[0] in d.reqs && d.used[d.seen % NUM] == d.usedQ[0] < NUM
    ensures d.info[d.usedQ[0]].b == d.reqs[d.usedQ[0]].buf
    ensures Inv(Acknowledged(d))
  {
    hide ChainsOk, RingOk, ChainOk;
    RingPop(d.used, d.seen, d.usedIdx, d.usedQ);
    AckChains(d);
    HeadInfo(d, d.usedQ[0]);
    var d' := Acknowledged(d);
    PopQueue(d, d', d.usedQ, Reported, Done);
    assert QueueOk(d', d'.availQ, Queued);
  }

  /** info[] leads back to the buffer that was submitted. */
  lemma HeadInfo(d: Disk, h: nat)
    requires Inv(d) && h in d.reqs
    ensures h < NUM && d.info[h].b == d.reqs[h].buf && d.reqs[h].d1 < NUM && d.reqs[h].d2 < NUM
  {
    assert ChainOk(d, h);
  }

  /** The stage of one request moves on; chains do not care. */
  lemma StageChains(d: Disk, d': Disk, h: nat, stage: Stage)
    requires Shape(d) && Shape(d') && ChainsOk(d) && h in d.reqs && d.reqs[h].stage != Done && stage != Done
    requires d'.reqs == d.reqs[h := d.reqs[h].(stage := stage)] && d'.part == d.part && d'.free == d.free
    requires d'.desc == d.desc && d'.busy == d.busy
    requires forall i :: 0 <= i < NUM ==> d'.info[i].b == d.info[i].b && (i != h ==> d'.info[i] == d.info[i])
    ensures ChainsOk(d')
  {
    forall g | g in d'.reqs ensures ChainOk(d', g) {
      assert ChainOk(d, g);
    }
    forall i | 0 <= i < NUM ensures PartOk(d', i) {
      assert PartOk(d, i);
    }
  }

  lemma PopQueue(d: Disk, d': Disk, q: seq<nat>, stage: Stage, stage': Stage)
    requires QueueOk(d, q, stage) && q != [] && stage' != stage
    requires d'.reqs == d.reqs[q[0] := d.reqs[q[0]].(stage := stage')]
    ensures QueueOk(d', q[1..], stage)
  {
    forall j | 0 <= j < |q[1..]| ensures q[1..][j] in d'.reqs && d'.reqs[q[1..][j]].stage == stage {
      assert q[1..][j] == q[j + 1] && q[j + 1] != q[0];
    }
    forall h | h in d'.reqs && d'.reqs[h].stage == stage ensures h in q[1..] {
      assert h in q && h != q[0];
      var j :| 0 <= j < |q| && q[j] == h;
      assert q[1..][j - 1] == h;
    }
  }

  /** The requester frees its chain. */
  function Freed(d: Disk, h: nat): (d': Disk)
    requires h in d.reqs && |d.free| == |d.desc| == |d.part| == |d.info| == NUM && h < NUM && d.reqs[h].d1 < NUM
    requires d.reqs[h].d2 < NUM
  {
    var d1, d2 := d.reqs[h].d1, d.reqs[h].d2;
    d.(free := d.free[h := true][d1 := true][d2 := true], desc := d.desc[h := BLANK][d1 := BLANK][d2 := BLANK],
       part := d.part[h := Unused][d1 := Unused][d2 := Unused], info := d.info[h := d.info[h].(b := 0)],
       reqs := d.reqs - {h})
  }

  lemma FreeChain(d: Disk, h: nat, g: nat)
    requires Inv(d) && h in d.reqs && d.reqs[h].stage == Done && g in d.reqs && g != h
    ensures h < NUM && d.reqs[h].d1 < NUM && d.reqs[h].d2 < NUM && ChainOk(Freed(d, h), g)
  {
    hide RingsOk, PartOk;
    assert ChainOk(d, h) && ChainOk(d, g);
  }

  lemma FreePart(d: Disk, h: nat, i: nat)
    requires Inv(d) && h in d.reqs && i < NUM
    ensures h < NUM && d.reqs[h].d1 < NUM && d.reqs[h].d2 < NUM && PartOk(Freed(d, h), i)
  {
    hide RingsOk;
    assert ChainOk(d, h) && PartOk(d, i);
  }

  lemma FreeInv(d: Disk, h: nat)
    requires Inv(d) && h in d.reqs && d.reqs[h].stage == Done
    ensures h < NUM && d.reqs[h].d1 < NUM && d.reqs[h].d2 < NUM && Inv(Freed(d, h))
  {
    hide RingOk, ChainOk, PartOk;
    HeadInfo(d, h);
    var d' := Freed(d, h);
    forall g | g in d'.reqs ensures ChainOk(d', g) {
      FreeChain(d, h, g);
    }
    forall i | 0 <= i < NUM ensures PartOk(d', i) {
      FreePart(d, h, i);
    }
    assert QueueOk(d', d'.availQ, Queued);
    assert QueueOk(d', d'.usedQ, Reported);
  }
}
