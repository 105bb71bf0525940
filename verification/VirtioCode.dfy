/** kernel/virtio_disk.c as the code runs it, with the device as two more methods. */
module VirtioCode {
  import opened Virtio

  class VirtioDisk {
    const free: array<bool>
    const desc: array<Desc>
    const info: array<Info>
    const avail: array<nat>
    const used: array<nat>
    var busy: set<int>
    var availIdx: nat
    var taken: nat
    var usedIdx: nat
    var seen: nat
    ghost var part: seq<Part>
    ghost var reqs: map<nat, Req>
    ghost var availQ: seq<nat>
    ghost var usedQ: seq<nat>

    ghost function View(): (d: Disk)
      reads this, free, desc, info, avail, used
    {
      Disk(free[..], desc[..], info[..], busy, avail[..], availIdx, taken, used[..], usedIdx, seen,
           part, reqs, availQ, usedQ)
    }

    ghost predicate Valid()
      reads this, free, desc, info, avail, used
    {
      avail != used && Inv(View())
    }

    /** All descriptors free, both rings empty. */
    constructor ()
      ensures Valid() && fresh(free) && fresh(desc) && fresh(info) && fresh(avail) && fresh(used)
      ensures reqs == map[] && busy == {}
    {
      free := new bool[NUM](_ => true);
      desc := new Desc[NUM](_ => BLANK);
      info := new Info[NUM](_ => Info(0, 0));
      avail := new nat[NUM](_ => 0);
      used := new nat[NUM](_ => 0);
      busy, availIdx, taken, usedIdx, seen := {}, 0, 0, 0, 0;
      part, reqs, availQ, usedQ := seq(NUM, _ => Unused), map[], [], [];
      new;
      hide Inv;
      StartInv(View());
    }

    /** alloc_desc: the first free descriptor, or -1. */
    method AllocDesc() returns (i: int)
      requires free.Length == NUM
      modifies free
      ensures -1 <= i < NUM
      ensures i >= 0 ==> old(free[i]) && free[..] == old(free[..])[i := false]
      ensures i < 0 ==> free[..] == old(free[..]) && forall k :: 0 <= k < NUM ==> !free[k]
    {
      i := 0;
      while i < NUM
        invariant 0 <= i <= NUM && free[..] == old(free[..]) && forall k :: 0 <= k < i ==> !free[k]
      {
        if free[i] {
          free[i] := false;
          return;
        }
        i := i + 1;
      }
      return -1;
    }

    /** free_desc; false is one of its two panics. */
    method FreeDesc(i: nat) returns (ok: bool)
      requires free.Length == desc.Length == NUM
      modifies free, desc
      ensures ok <==> i < NUM && !old(free[..])[i]
      ensures ok ==> free[..] == old(free[..])[i := true] && desc[..] == old(desc[..])[i := BLANK]
      ensures !ok ==> free[..] == old(free[..]) && desc[..] == old(desc[..])
    {
      if i >= NUM {
        return false;
      }
      if free[i] {
        return false;
      }
      desc[i] := BLANK;
      free[i] := true;
      return true;
    }

    /** free_chain, on the chain of a request. */
    method FreeChain(h: nat, ghost d1: nat, ghost d2: nat)
      requires free.Length == desc.Length == NUM && h < NUM && d1 < NUM && d2 < NUM && h != d1 && h != d2 && d1 != d2
      requires !free[h] && !free[d1] && !free[d2]
      requires desc[h].hasNext && desc[h].next == d1 && desc[d1].hasNext && desc[d1].next == d2 && !desc[d2].hasNext
      modifies free, desc
      ensures free[..] == old(free[..])[h := true][d1 := true][d2 := true]
      ensures desc[..] == old(desc[..])[h := BLANK][d1 := BLANK][d2 := BLANK]
    {
      var i := h;
      var more := true;
      ghost var k := 0;
      while more
        invariant 0 <= k <= 3 && (more <==> k < 3) && (k < 3 ==> i == [h, d1, d2][k])
        invariant k == 0 ==> free[..] == old(free[..]) && desc[..] == old(desc[..])
        invariant k == 1 ==> free[..] == old(free[..])[h := true] && desc[..] == old(desc[..])[h := BLANK]
        invariant k == 2 ==>
          free[..] == old(free[..])[h := true][d1 := true] && desc[..] == old(desc[..])[h := BLANK][d1 := BLANK]
        invariant k == 3 ==> free[..] == old(free[..])[h := true][d1 := true][d2 := true]
        invariant k == 3 ==> desc[..] == old(desc[..])[h := BLANK][d1 := BLANK][d2 := BLANK]
        decreases 3 - k
      {
        ghost var f, e := free[..], desc[..];
        assert !f[i] && e[i] == old(desc[..])[i];
        var flag := desc[i].hasNext;
        var nxt := desc[i].next;
        var freed := FreeDesc(i);
        if flag {
          i := nxt;
        } else {
          more := false;
        }
        k := k + 1;
      }
    }

    /** alloc3_desc: three descriptors, or none at all. */
    method Alloc3() returns (ok: bool, idx: seq<nat>)
      requires free.Length == desc.Length == NUM && forall k :: 0 <= k < NUM && free[k] ==> desc[k] == BLANK
      modifies free, desc
      ensures desc[..] == old(desc[..])
      ensures ok ==> |idx| == 3 && idx[0] < NUM && idx[1] < NUM && idx[2] < NUM
      ensures ok ==> idx[0] != idx[1] && idx[0] != idx[2] && idx[1] != idx[2]
      ensures ok ==> old(free[..])[idx[0]] && old(free[..])[idx[1]] && old(free[..])[idx[2]]
      ensures ok ==> free[..] == old(free[..])[idx[0] := false][idx[1] := false][idx[2] := false]
      ensures !ok ==> free[..] == old(free[..])
      ensures !ok ==> forall a, b, c :: 0 <= a < b < c < NUM ==> !(free[a] && free[b] && free[c])
    {
      idx := [];
      var i := 0;
      while i < 3
        invariant 0 <= i <= 3 && |idx| == i && desc[..] == old(desc[..])
        invariant Distinct(old(free[..]), idx) && free[..] == Cleared(old(free[..]), idx)
      {
        ghost var f := free[..];
        var x := AllocDesc();
        if x < 0 {
          FewFree(old(free[..]), idx);
          Undo(idx, old(free[..]));
          return false, [];
        }
        idx := idx + [x];
        ClearedMore(old(free[..]), idx[..i], x);
        assert idx[..i] + [x] == idx;
        i := i + 1;
      }
      ok := true;
    }

    /** The rollback loop of alloc3_desc. */
    method Undo(idx: seq<nat>, ghost f: seq<bool>)
      requires free.Length == desc.Length == NUM == |f| && Distinct(f, idx) && free[..] == Cleared(f, idx)
      requires forall k :: 0 <= k < NUM && f[k] ==> desc[k] == BLANK
      modifies free, desc
      ensures free[..] == f && desc[..] == old(desc[..])
    {
      var j := 0;
      while j < |idx|
        invariant 0 <= j <= |idx| && desc[..] == old(desc[..]) && free[..] == Cleared(f, idx[j..])
      {
        ClearedAt(f, idx[j..]);
        var freed := FreeDesc(idx[j]);
        assert idx[j..][1..] == idx[j + 1..];
        j := j + 1;
      }
    }

    /** The body of virtio_disk_rw up to the wait: false when there are not three free descriptors and
        the caller has to sleep; nothing has changed then. The buffer's lock is held, so it is in no
        other request. */
    method Submit(b: int, write: bool) returns (ok: bool, h: nat)
      requires Valid() && b !in busy && forall g :: g in reqs ==> reqs[g].buf != b
      modifies this, free, desc, info, avail
      ensures Valid()
      ensures !ok ==>
        View() == old(View()) && forall i, j, k :: 0 <= i < j < k < NUM ==> !(free[i] && free[j] && free[k])
      ensures ok ==>
        && h !in old(reqs) && h in reqs && reqs[h].buf == b
        && View() == Submitted(old(View()), b, write, h, reqs[h].d1, reqs[h].d2)
    {
      hide ChainsOk, RingsOk, HeaderAddr, StatusAddr, Inv;
      ghost var d := View();
      InvShape(d);
      FreeIsBlank(d);
      var idx;
      ok, idx := Alloc3();
      if !ok {
        return false, 0;
      }
      h := idx[0];
      ghost var d1, d2 := idx[1], idx[2];
      SubmitInv(d, b, write, h, d1, d2);
      SubmitFacts(d, b, h, d1, d2);
      Format(b, write, h, idx[1], idx[2]);
      Publish(b, h);
      part := part[h := Part(h, 0)][d1 := Part(h, 1)][d2 := Part(h, 2)];
      reqs := reqs[h := Req(b, Queued, d1, d2)];
      availQ := availQ + [h];
      assert View() == Submitted(d, b, write, h, d1, d2);
    }

    /** Record the buffer and hand the chain to the device. */
    method Publish(b: int, h: nat)
      requires info.Length == avail.Length == NUM && h < NUM
      modifies this`busy, this`availIdx, info, avail
      ensures busy == old(busy) + {b} && info[..] == old(info[..])[h := old(info[h]).(b := b)]
      ensures avail[..] == old(avail[..])[old(availIdx) % NUM := h] && availIdx == (old(availIdx) + 1) % IDX
    {
      busy := busy + {b};
      info[h] := info[h].(b := b);
      avail[availIdx % NUM] := h;
      availIdx := (availIdx + 1) % IDX;
    }

    /** Fill in the three descriptors. */
    method Format(b: int, write: bool, h: nat, d1: nat, d2: nat)
      requires desc.Length == info.Length == NUM && h < NUM && d1 < NUM && d2 < NUM && h != d1 && h != d2 && d1 != d2
      modifies desc, info
      ensures desc[..] ==
        old(desc[..])[h := Desc(HeaderAddr(h), 16, true, false, d1)][d1 := Desc(b, BSIZE, true, !write, d2)]
                                       [d2 := Desc(StatusAddr(h), 1, false, true, 0)]
      ensures info[..] == old(info[..])[h := old(info[h]).(status := 255)]
    {
      hide HeaderAddr, StatusAddr;
      desc[h] := Desc(HeaderAddr(h), 16, true, false, d1);
      var e := Desc(b, BSIZE, false, false, 0);
      if write {
        e := e.(deviceWrites := false);
      } else {
        e := e.(deviceWrites := true);
      }
      desc[d1] := e.(hasNext := true, next := d2);
      info[h] := info[h].(status := 255);
      desc[d2] := Desc(StatusAddr(h), 1, false, true, 0);
    }

    /** The device takes the next request; -1 when there is none. */
    method DeviceTake() returns (h: int)
      requires Valid()
      modifies this
      ensures Valid() && (h < 0 <==> old(availQ) == [])
      ensures h < 0 ==> View() == old(View())
      ensures h >= 0 ==> h == old(availQ)[0] && h in old(reqs) && View() == TakenNext(old(View()))
    {
      hide ChainsOk, RingOk, QueueOk;
      ghost var d := View();
      AvailPop(d);
      if taken == availIdx {
        return -1;
      }
      TakeInv(d);
      h := avail[taken % NUM];
      taken := (taken + 1) % IDX;
      availQ, reqs := availQ[1..], reqs[h := reqs[h].(stage := Taken)];
      assert View() == TakenNext(d);
    }

    /** The device completes a request that it has taken, with any status. */
    method DeviceComplete(h: nat, status: int)
      requires Valid() && h in reqs && reqs[h].stage == Taken
      modifies this, used, info
      ensures Valid() && h < NUM && View() == Completed(old(View()), h, status)
    {
      hide ChainsOk, RingsOk;
      ghost var d := View();
      CompleteInv(d, h, status);
      info[h] := info[h].(status := status);
      used[usedIdx % NUM] := h;
      usedIdx := (usedIdx + 1) % IDX;
      usedQ, reqs := usedQ + [h], reqs[h := reqs[h].(stage := Reported)];
      assert View() == Completed(d, h, status);
    }

    /** One round of virtio_disk_intr's loop; false is its panic on a status other than 0. */
    method Acknowledge() returns (ok: bool)
      requires Valid() && usedQ != []
      modifies this
      ensures Valid() && old(usedQ)[0] in old(reqs) && old(usedQ)[0] < info.Length
      ensures ok <==> info[old(usedQ)[0]].status == 0
      ensures View() == if ok then Acknowledged(old(View())) else old(View())
    {
      hide ChainsOk, RingsOk;
      ghost var d := View();
      AckInv(d);
      var id := used[seen % NUM];
      if info[id].status != 0 {
        return false;
      }
      busy := busy - {info[id].b};
      seen := (seen + 1) % IDX;
      usedQ, reqs := usedQ[1..], reqs[id := reqs[id].(stage := Done)];
      assert View() == Acknowledged(d);
      return true;
    }

    /** virtio_disk_intr: every reported request releases the buffer that was submitted with it, and no
        other buffer, up to the first one with a status other than 0, where it panics. */
    method Intr() returns (ok: bool, ghost k: nat)
      requires Valid()
      modifies this
      ensures Valid() && k <= |old(usedQ)| && usedQ == old(usedQ)[k..] && availQ == old(availQ)
      ensures forall j :: 0 <= j < k ==> old(usedQ)[j] < info.Length && info[old(usedQ)[j]].status == 0
      ensures ok <==> k == |old(usedQ)|
      ensures !ok ==> old(usedQ)[k] < info.Length && info[old(usedQ)[k]].status != 0
      ensures reqs.Keys == old(reqs.Keys) && forall h :: h in reqs ==>
        reqs[h] == if h in old(usedQ)[..k] then old(reqs)[h].(stage := Done) else old(reqs)[h]
      ensures busy == old(busy) - Bufs(old(reqs), old(usedQ)[..k])
    {
      hide Inv;
      ghost var q, r, bs := usedQ, reqs, busy;
      k := 0;
      Unacked(q, r, bs);
      while seen != usedIdx
        invariant Valid() && 0 <= k <= |q| && usedQ == q[k..] && availQ == old(availQ) && reqs.Keys == r.Keys
        invariant Acked(q, k, r, reqs, bs, busy)
        invariant forall j :: 0 <= j < k ==> q[j] < info.Length && info[q[j]].status == 0
        decreases |q| - k
      {
        UsedPop(View());
        AckStep(View(), q, k, r, bs);
        ok := Acknowledge();
        if !ok {
          AckedFacts(q, k, r, reqs, bs, busy);
          return;
        }
        k := k + 1;
      }
      UsedPop(View());
      AckedFacts(q, k, r, reqs, bs, busy);
      ok := true;
    }

    /** The end of virtio_disk_rw, once b->disk is 0: the chain goes back. */
    method Finish(h: nat)
      requires Valid() && h in reqs && reqs[h].stage == Done
      modifies this, free, desc, info
      ensures Valid() && h < NUM && old(reqs[h].d1) < NUM && old(reqs[h].d2) < NUM && View() == Freed(old(View()), h)
    {
      hide ChainsOk, RingsOk;
      ghost var d := View();
      FreeInv(d, h);
      ChainFacts(d, h);
      ghost var d1, d2 := reqs[h].d1, reqs[h].d2;
      info[h] := info[h].(b := 0);
      FreeChain(h, d1, d2);
      part, reqs := part[h := Unused][d1 := Unused][d2 := Unused], reqs - {h};
      assert View() == Freed(d, h);
    }
  }

  lemma StartInv(d: Disk)
    requires Shape(d) && d.reqs == map[] && d.availQ == [] && d.usedQ == [] && d.availIdx == d.taken
    requires d.usedIdx == d.seen
    requires forall i :: 0 <= i < NUM ==> d.free[i] && d.desc[i] == BLANK && d.part[i] == Unused
    ensures Inv(d)
  {
  }

  lemma InvShape(d: Disk)
    requires Inv(d)
    ensures Shape(d)
  {
  }

  lemma FreeIsBlank(d: Disk)
    requires Inv(d)
    ensures forall k :: 0 <= k < NUM && d.free[k] ==> d.desc[k] == BLANK
  {
    forall k | 0 <= k < NUM && d.free[k] ensures d.desc[k] == BLANK {
      assert PartOk(d, k);
    }
  }

  lemma AvailPop(d: Disk)
    requires Inv(d)
    ensures d.taken != d.availIdx <==> d.availQ != []
  {
    RingPop(d.avail, d.taken, d.availIdx, d.availQ);
  }

  lemma UsedPop(d: Disk)
    requires Inv(d)
    ensures d.seen != d.usedIdx <==> d.usedQ != []
  {
    RingPop(d.used, d.seen, d.usedIdx, d.usedQ);
  }

  lemma ChainFacts(d: Disk, h: nat)
    requires Inv(d) && h in d.reqs
    ensures var d1, d2 := d.reqs[h].d1, d.reqs[h].d2;
            && h < NUM && d1 < NUM && d2 < NUM && h != d1 && h != d2 && d1 != d2 && !d.free[h] && !d.free[d1]
            && !d.free[d2]
            && d.desc[h].hasNext && d.desc[h].next == d1 && d.desc[d1].hasNext && d.desc[d1].next == d2
            && !d.desc[d2].hasNext
  {
    hide RingsOk;
    assert ChainOk(d, h);
    assert PartOk(d, h) && PartOk(d, d.reqs[h].d1) && PartOk(d, d.reqs[h].d2);
  }

  /** The buffers of the listed requests. */
  ghost function Bufs(r: map<nat, Req>, q: seq<nat>): (s: set<int>) {
    set h | h in q && h in r :: r[h].buf
  }

  lemma BufsMore(r: map<nat, Req>, q: seq<nat>, k: nat)
    requires k < |q| && q[k] in r
    ensures Bufs(r, q[..k + 1]) == Bufs(r, q[..k]) + {r[q[k]].buf}
  {
    assert q[..k + 1] == q[..k] + [q[k]];
    assert q[k] in q[..k + 1];
  }

  /** The first k entries of the used ring have been handled. */
  ghost predicate Acked(q: seq<nat>, k: nat, r: map<nat, Req>, r': map<nat, Req>, bs: set<int>, bs': set<int>)
    requires k <= |q|
  {
    && r'.Keys == r.Keys
    && (forall h :: h in r ==> r'[h] == if h in q[..k] then r[h].(stage := Done) else r[h])
    && bs' == bs - Bufs(r, q[..k])
  }

  lemma Unacked(q: seq<nat>, r: map<nat, Req>, bs: set<int>)
    ensures Acked(q, 0, r, r, bs, bs)
  {
  }

  lemma AckStep(d: Disk, q: seq<nat>, k: nat, r: map<nat, Req>, bs: set<int>)
    requires Inv(d) && k < |q| && d.usedQ == q[k..] && Acked(q, k, r, d.reqs, bs, d.busy)
    ensures q[k] in d.reqs && q[k..][1..] == q[k + 1..]
    ensures Acked(q, k + 1, r, Acknowledged(d).reqs, bs, Acknowledged(d).busy)
  {
    hide Inv, Bufs;
    AckInv(d);
    assert d.usedQ[0] == q[k];
    BufsMore(r, q, k);
    assert q[..k + 1] == q[..k] + [q[k]];
  }

  lemma AckedFacts(q: seq<nat>, k: nat, r: map<nat, Req>, r': map<nat, Req>, bs: set<int>, bs': set<int>)
    requires k <= |q| && Acked(q, k, r, r', bs, bs')
    ensures r'.Keys == r.Keys && forall h :: h in r ==> r'[h] == if h in q[..k] then r[h].(stage := Done) else r[h]
    ensures bs' == bs - Bufs(r, q[..k])
  {
  }

  /** The flags after the listed descriptors have been taken. */
  ghost function Cleared(f: seq<bool>, idx: seq<nat>): (r: seq<bool>)
    requires forall j :: 0 <= j < |idx| ==> idx[j] < |f|
    ensures |r| == |f|
  {
    seq(|f|, k requires 0 <= k < |f| => f[k] && k !in idx)
  }

  ghost predicate Distinct(f: seq<bool>, idx: seq<nat>) {
    && (forall j :: 0 <= j < |idx| ==> idx[j] < |f| && f[idx[j]])
    && forall i, j :: 0 <= i < j < |idx| ==> idx[i] != idx[j]
  }

  lemma ClearedMore(f: seq<bool>, idx: seq<nat>, x: nat)
    requires Distinct(f, idx) && x < |f| && Cleared(f, idx)[x]
    ensures Distinct(f, idx + [x]) && Cleared(f, idx + [x]) == Cleared(f, idx)[x := false]
  {
  }

  lemma ClearedAt(f: seq<bool>, idx: seq<nat>)
    requires Distinct(f, idx) && idx != []
    ensures idx[0] < |f| && !Cleared(f, idx)[idx[0]] && Cleared(f, idx[1..]) == Cleared(f, idx)[idx[0] := true]
  {
    forall k | 0 <= k < |f| ensures (k in idx <==> k == idx[0] || k in idx[1..]) {
      assert idx == [idx[0]] + idx[1..];
    }
  }

  /** When the table is exhausted after fewer than three, there were no three free ones. */
  lemma FewFree(f: seq<bool>, idx: seq<nat>)
    requires |f| == NUM && |idx| < 3 && Distinct(f, idx) && forall k :: 0 <= k < NUM ==> !Cleared(f, idx)[k]
    ensures forall a, b, c :: 0 <= a < b < c < NUM ==> !(f[a] && f[b] && f[c])
  {
    forall k | 0 <= k < NUM && f[k] ensures k in idx {
      assert !Cleared(f, idx)[k];
    }
  }
}
