/** Processes on top of Memory: fork, exit and sbrk as kernel/proc.c calls them, and whole runs. */
module VmProcs {
  import opened VmModel
  import opened CowSpec
  import opened VmTree
  import opened VmSteps
  import opened VmBudget
  import opened EagerSpec
  import opened VmCode

  /** A process maps exactly the pages below its size. */
  ghost predicate Sized(m: Mem, sz: map<Pid, nat>) {
    && sz.Keys == m.roots.Keys && (forall pid :: pid in sz ==> sz[pid] <= LIMIT)
    && forall k: Key :: k.pid in sz ==> (k in m.pt.Keys <==> k.vpn < Pages(sz[k.pid]))
  }

  lemma SizedRange(m: Mem, sz: map<Pid, nat>, pid: Pid)
    requires Sized(m, sz) && pid in sz
    ensures pid in m.roots && Range(pid, 0, Pages(sz[pid])) <= m.pt.Keys && NoKeysBeyond(m, pid, Pages(sz[pid]))
  {
  }

  lemma NoRoot(m: Mem, sz: map<Pid, nat>, pid: Pid, n: nat)
    requires Inv(m) && Sized(m, sz) && pid !in sz
    ensures pid !in m.roots && Range(pid, 0, n) !! m.pt.Keys && NoKeysBeyond(m, pid, 0)
  {
    hide AllocOk, TreesOk, RefsOk, CowOk;
  }

  lemma SizedFork(m: Mem, m': Mem, sz: map<Pid, nat>, parent: Pid, child: Pid)
    requires Inv(m) && Sized(m, sz) && parent in sz && child !in sz
    requires m'.roots.Keys == m.roots.Keys + {child} && m'.pt.Keys == m.pt.Keys + Range(child, 0, Pages(sz[parent]))
    ensures Sized(m', sz[child := sz[parent]])
  {
    hide AllocOk, TreesOk, RefsOk, CowOk;
  }

  lemma SizedSame(m: Mem, m': Mem, sz: map<Pid, nat>)
    requires Sized(m, sz) && m'.roots.Keys == m.roots.Keys && m'.pt.Keys == m.pt.Keys
    ensures Sized(m', sz)
  {
  }

  /** The kernel holds no pages between operations, and page tables reach as far as processes asked. */
  ghost predicate Budgeted(m: Mem, sz: map<Pid, nat>, peak: map<Pid, nat>) {
    && peak.Keys == sz.Keys && (forall pid :: pid in sz ==> Pages(sz[pid]) <= peak[pid])
    && Within(m, AllTables(peak), {})
  }

  lemma BudgetedSame(m: Mem, m': Mem, sz: map<Pid, nat>, peak: map<Pid, nat>)
    requires Budgeted(m, sz, peak) && TablesGrow(m, m', {})
    ensures Budgeted(m', sz, peak)
  {
    hide Pages, AllTables;
    WithinGrow(m, m', {}, AllTables(peak), {});
  }

  class Machine {
    const mem: Memory
    var sz: map<Pid, nat>
    ghost var peak: map<Pid, nat>

    ghost predicate Valid()
      reads this, mem, mem.frames, mem.pgrc
    {
      mem.Valid() && Sized(mem.View(), sz) && Budgeted(mem.View(), sz, peak)
    }

    ghost function Seen(): (u: Users)
      reads this, mem, mem.frames, mem.pgrc
    {
      Users(Eager(mem.View()), sz, peak, Marks(mem.pt))
    }

    constructor (npages: nat)
      ensures Valid() && Seen() == Users(map[], map[], map[], {}) && |mem.role| == npages
      ensures fresh(mem) && fresh(mem.frames) && fresh(mem.pgrc)
    {
      mem := new Memory(npages);
      sz, peak := map[], map[];
    }

    /** fork: uvmcreate, uvmcopy, and freeproc when that fails. It fails only if copying all pages at once
        would not fit into memory. Afterwards parent and child share every page. */
    method ForkProc(parent: Pid, child: Pid) returns (ok: bool, reached: nat)
      requires Valid() && parent in sz && child !in sz
      modifies this, mem, mem.frames, mem.pgrc
      ensures Valid() && |mem.role| == old(|mem.role|)
      ensures Seen() == After(old(Seen()), Fork(parent, child), if ok then Ok else Failed(reached))
      ensures reached <= Pages(old(sz)[parent])
      ensures ok ==> Sharing(mem.pt, parent, child, Pages(sz[parent]))
      ensures !ok ==> |mem.role| < Need(After(old(Seen()), Fork(parent, child), Ok))
    {
      hide Inv, Eager, Sized, Copied, NoKeysBeyond, Budgeted, Within, TablesGrow, AllTables, Sharing,
        FreesOnly, Pages, After, Covers, Marks, ForkMarks, Range;
      ghost var m, n := mem.View(), Pages(sz[parent]);
      ghost var peak' := peak[child := n];
      SizedRange(m, sz, parent);
      NoRoot(m, sz, child, n);
      ForkNeed(m, sz, peak, parent, child);
      reached := 0;
      AfterFork(Seen(), parent, child, 0);
      ForkMarksNone(Marks(mem.pt), Eager(m), parent, child);
      ok := mem.Uvmcreate(child);
      if !ok {
        NoRoom(m, AllTables(peak), {});
        return;
      }
      WithinGrow(m, mem.View(), {Root(child)}, AllTables(peak'), {});
      ok, reached := mem.Uvmcopy(parent, child, Pages(sz[parent]), AllTables(peak'));
      AfterFork(old(Seen()), parent, child, reached);
      if ok {
        SizedFork(m, mem.View(), sz, parent, child);
        BudgetedFork(m, mem.View(), sz, peak, parent, child);
        sz, peak := sz[child := sz[parent]], peak';
      } else {
        StillNone(m, mem.View(), child);
        ghost var m1 := mem.View();
        mem.Uvmfree(child, 0);
        NothingRemoved(m1, child);
        RemoveNone(m, mem.View(), child, sz);
        WithinExit(m1, mem.View(), child, peak');
        BudgetedAgain(m, mem.View(), sz, peak, child, n);
      }
    }

    /** The memory half of exit and wait: freeproc and proc_freepagetable. */
    method ExitProc(pid: Pid)
      requires Valid() && pid in sz
      modifies this, mem, mem.frames, mem.pgrc
      ensures Valid() && Seen() == After(old(Seen()), Exit(pid), Ok) && |mem.role| == old(|mem.role|)
    {
      hide Inv, Eager, Sized, NoKeysBeyond, Budgeted, Within, AllTables, FreesOnly, Marks;
      ghost var m := mem.View();
      MarksRemove(mem.pt, Range(pid, 0, Pages(sz[pid])));
      SizedRange(m, sz, pid);
      BudgetedFacts(m, sz, peak);
      mem.Uvmfree(pid, Pages(sz[pid]));
      SizedExit(m, mem.View(), sz, pid);
      WithinExit(m, mem.View(), pid, peak);
      BudgetedExit(m, mem.View(), sz, peak, pid);
      sz, peak := sz - {pid}, peak - {pid};
    }

    /** uvmalloc from the size of the process to s: growproc with PTE_W, exec with the permissions of a
        segment. A failure leaves the tables of the pages it has tried. */
    method Grow(pid: Pid, s: nat, w: bool, x: bool) returns (ok: bool, reached: nat)
      requires Valid() && pid in sz && sz[pid] <= s <= LIMIT
      modifies this, mem, mem.frames, mem.pgrc
      ensures Valid() && |mem.role| == old(|mem.role|) && Seen().marked == old(Seen().marked)
      ensures reached <= Pages(s) - Pages(old(sz)[pid])
      ensures peak == Asked(old(peak), pid, if ok then Pages(s) else Pages(old(sz)[pid]) + reached)
      ensures sz == if ok then old(sz)[pid := s] else old(sz)
      ensures ok ==> Seen().pages == GrownPages(old(Seen().pages), pid, old(sz[pid]), s, w, x)
      ensures !ok ==> Seen().pages == old(Seen().pages)
      ensures !ok ==>
        var v := GrownPages(old(Seen().pages), pid, old(sz[pid]), s, w, x);
        |mem.role| < |v| + |AllTables(Asked(old(peak), pid, Pages(s)))|
    {
      hide Inv, Eager, Sized, AddZeros, Pages, Budgeted, Within, AllTables, Covers, Asked, GrownPages, FreshRange,
        Growing, TablesGrow, PathsBelow, Marks;
      ghost var m := mem.View();
      ghost var roles := AllTables(Asked(peak, pid, Pages(s)));
      GrowStart(m, sz, peak, pid, s, w, x);
      ok, reached := mem.Uvmalloc(pid, Pages(sz[pid]), Pages(s), w, x, roles);
      if ok {
        GrowDone(m, mem.View(), sz, peak, pid, s, w, x);
        sz, peak := sz[pid := s], Asked(peak, pid, Pages(s));
      } else {
        GrowFailed(m, mem.View(), sz, peak, pid, reached);
        peak := Asked(peak, pid, Pages(sz[pid]) + reached);
      }
    }

    /** uvmdealloc to a smaller size. */
    method Shrink(pid: Pid, s: nat)
      requires Valid() && pid in sz && s < sz[pid]
      modifies this, mem, mem.frames, mem.pgrc
      ensures Valid() && Seen() == Grown(old(Seen()), pid, s - old(sz[pid])) && |mem.role| == old(|mem.role|)
    {
      hide Inv, Eager, Sized, AddZeros, Pages, Budgeted, FreesOnly, Within, Marks;
      ghost var m := mem.View();
      CanShrink(m, sz, pid, s);
      FreesOnlyRefl(m, pid);
      if Pages(s) < Pages(sz[pid]) {
        MarksRemove(mem.pt, Range(pid, Pages(s), Pages(sz[pid]) - Pages(s)));
        mem.Uvmunmap(pid, Pages(s), Pages(sz[pid]) - Pages(s));
      }
      SizedShrink(m, mem.View(), sz, pid, s);
      BudgetedShrink(m, mem.View(), sz, peak, pid, s);
      sz := sz[pid := s];
    }

    /** growproc; a size that would become negative wraps and leaves the process as it is. */
    method SbrkProc(pid: Pid, n: int) returns (ok: bool, reached: nat)
      requires Valid() && pid in sz && sz[pid] + n <= LIMIT
      modifies this, mem, mem.frames, mem.pgrc
      ensures Valid() && (!ok ==> n > 0) && |mem.role| == old(|mem.role|)
      ensures !ok ==> reached <= Pages(old(sz)[pid] + n) - Pages(old(sz)[pid])
      ensures Seen() == After(old(Seen()), Sbrk(pid, n), if ok then Ok else Failed(reached))
      ensures !ok ==> |mem.role| < Need(After(old(Seen()), Sbrk(pid, n), Ok))
    {
      hide Inv, Eager, Sized, Budgeted, GrownPages, Pages, Asked, AllTables, Marks;
      ok, reached := true, 0;
      if n > 0 {
        ok, reached := Grow(pid, sz[pid] + n, true, false);
      } else if n < 0 {
        if sz[pid] + n >= 0 {
          Shrink(pid, sz[pid] + n);
        }
      }
    }

    /** The page table and the zeroed page of the first process. */
    method FirstPageOf(pid: Pid, ghost code: seq<Byte>) returns (ok: bool)
      requires Valid() && pid !in sz && |code| < PGSIZE
      modifies mem, mem.frames, mem.pgrc
      ensures |mem.role| == old(|mem.role|)
      ensures !ok ==> |mem.role| < |old(Seen().pages)| + 1 + |AllTables(old(peak)[pid := 1])|
      ensures ok ==> Marks(mem.pt) == old(Marks(mem.pt))
      ensures ok ==>
        FirstMapped(old(mem.View()), mem.View(), pid, code) && Within(mem.View(), AllTables(peak[pid := 1]), {})
    {
      hide Inv, Eager, Sized, Zeros, NoKeysBeyond, Added, Unseen, Overlay, Within, TablesGrow, AllTables, Budgeted,
        FirstMapped, Marks;
      ghost var m := mem.View();
      ghost var roles := AllTables(peak[pid := 1]);
      NoRoot(m, sz, pid, 1);
      FirstNeed(m, sz, peak, pid);
      ok := mem.Uvmcreate(pid);
      if !ok {
        NoRoom(m, AllTables(peak), {});
        return;
      }
      ghost var m1 := mem.View();
      WithinGrow(m, m1, {Root(pid)}, roles, {});
      ok := mem.AllocPage(pid, 0, true, true, roles);
      if ok {
        FirstPage(m, m1, mem.View(), sz, pid, code);
      }
    }

    /** userinit and uvmfirst: the first process gets one page that holds its code. */
    method Userinit(pid: Pid, code: seq<Byte>) returns (ok: bool)
      requires Valid() && pid !in sz && |code| < PGSIZE
      modifies this, mem, mem.frames, mem.pgrc
      ensures |mem.role| == old(|mem.role|)
      ensures ok ==> Valid() && sz == old(sz)[pid := PGSIZE] && peak == old(peak)[pid := 1]
      ensures ok ==> Seen().marked == old(Seen().marked)
      ensures !ok ==> |mem.role| < |old(Seen().pages)| + 1 + |AllTables(old(peak)[pid := 1])|
      ensures ok ==> Seen().pages == old(Seen().pages)[Key(pid, 0) := UPage(code + Zeros()[|code|..], true, true, true)]
    {
      hide Inv, Eager, Sized, Zeros, Overlay, Within, AllTables, Budgeted, Marks;
      ghost var m := mem.View();
      ok := FirstPageOf(pid, code);
      if !ok {
        return;
      }
      var page, e := mem.Find(pid, 0);
      ghost var m2 := mem.View();
      mem.StoreBytes(pid, 0, e.ppn, 0, code);
      HoldSame(m2, mem.View(), AllTables(peak[pid := 1]), {});
      SizedFirst(m, mem.View(), sz, pid);
      BudgetedFirst(m, mem.View(), sz, peak, pid);
      sz, peak := sz[pid := PGSIZE], peak[pid := 1];
    }

    /** The operations that touch memory through user or kernel addresses. */
    method Access(op: Op) returns (out: Outcome)
      requires Valid() && Sensible(sz, op) && (op.Store? || op.Load? || op.ToUser? || op.FromUser?)
      modifies mem, mem.frames, mem.pgrc
      ensures Valid() && |mem.role| == old(|mem.role|)
      ensures Fair(old(Seen()), op) ==>
        Answers(old(Seen()), op, out, |mem.role|) && Seen() == After(old(Seen()), op, out)
    {
      hide Inv, Eager, Sized, Written, Fatal, Reachable, ReachableRange, WritableRange, Reads, DirectAt, Repairable,
        NearStack, Budgeted, Within, TablesGrow, AllTables, Marks, Cleared;
      ghost var m := mem.View();
      HasRoot(m, sz, op.pid);
      BudgetedFacts(m, sz, peak);
      EagerKeys(m);
      SameSize(Eager(m), m.pt);
      match op {
        case Store(pid, va, sp, b) =>
          var killed, nomem := mem.UserStore(pid, va, sp, b);
          StoreAnswer(m, pid, va, sp, killed, nomem, AllTables(peak));
          BudgetedSame(m, mem.View(), sz, peak);
          out := if nomem then Failed(0) else if killed then Killed else Ok;
        case Load(pid, va, sp) =>
          var killed, b := mem.UserLoad(pid, va, sp);
          out := if killed then Killed else Data([b]);
        case ToUser(pid, dst, src) =>
          var r, done := mem.Copyout(pid, dst, src, AllTables(peak));
          BudgetedKept(m, mem.View(), sz, peak);
          out := if r == Done then Ok else Stopped(r, done);
          assert src[..|src|] == src;
        case FromUser(pid, from, len) =>
          var ok, bytes := mem.Copyin(pid, from, len);
          out := if ok then Data(bytes) else Short(bytes);
      }
      SizedSame(m, mem.View(), sz);
    }

    /** Any operation. What it reports, and what programs see afterwards, is what private memory
        prescribes; only a copyout to a read-only page is exempt. */
    method Step(op: Op) returns (out: Outcome)
      requires Valid()
      modifies this, mem, mem.frames, mem.pgrc
      ensures Valid() && |mem.role| == old(|mem.role|)
      ensures Fair(old(Seen()), op) ==>
        Answers(old(Seen()), op, out, |mem.role|) && Seen() == After(old(Seen()), op, out)
    {
      hide Inv, Eager, Sized, Copied, Grown, Written, WritableRange, Budgeted, Need, Asked;
      if !Sensible(sz, op) {
        return Refused;
      }
      match op {
        case Fork(parent, child) =>
          var ok, reached := ForkProc(parent, child);
          out := if ok then Ok else Failed(reached);
        case Exit(pid) =>
          ExitProc(pid);
          out := Ok;
        case Sbrk(pid, n) =>
          var ok, reached := SbrkProc(pid, n);
          out := if ok then Ok else Failed(reached);
        case _ =>
          out := Access(op);
      }
    }

    /** Copy-on-write memory refines private memory over every run. */
    method Run(ops: seq<Op>) returns (outs: seq<Outcome>)
      requires Valid()
      modifies this, mem, mem.frames, mem.pgrc
      ensures Valid() && |outs| == |ops| && |mem.role| == old(|mem.role|)
      ensures FairRun(old(Seen()), ops, outs) ==>
        AnswersRun(old(Seen()), ops, outs, |mem.role|) && Seen() == AfterAll(old(Seen()), ops, outs)
    {
      hide After, Answers, Fair, Inv, Eager, Sized, Budgeted;
      ghost var u := Seen();
      outs := [];
      while |outs| < |ops|
        invariant Valid() && |outs| <= |ops| && |mem.role| == old(|mem.role|)
        invariant FairRun(u, ops[..|outs|], outs) ==>
          AnswersRun(u, ops[..|outs|], outs, |mem.role|) && Seen() == AfterAll(u, ops[..|outs|], outs)
      {
        var out := Step(ops[|outs|]);
        RunMore(u, ops, outs, |outs|, out, |mem.role|);
        outs := outs + [out];
      }
      assert ops[..|ops|] == ops;
    }
  }

  lemma HasRoot(m: Mem, sz: map<Pid, nat>, pid: Pid)
    requires Sized(m, sz) && pid in sz
    ensures pid in m.roots
  {
  }

  /** One writable page, and what storing the code in it will give. */
  ghost predicate FirstMapped(m: Mem, m2: Mem, pid: Pid, code: seq<Byte>) {
    var k := Key(pid, 0);
    && Inv(m2) && pid in m2.roots && k in m2.pt && k in Eager(m2) && m2.pt[k].w
    && m2.roots.Keys == m.roots.Keys + {pid} && m2.pt.Keys == m.pt.Keys + {k}
    && |Eager(m2)[k].data| == PGSIZE && |code| <= PGSIZE == |Zeros()|
    && Eager(m2)[k := Eager(m2)[k].(data := Overlay(Eager(m2)[k].data, 0, code))] ==
         Eager(m)[k := UPage(code + Zeros()[|code|..], true, true, true)]
  }

  /** The page that uvmfirst maps. */
  lemma FirstPage(m: Mem, m1: Mem, m2: Mem, sz: map<Pid, nat>, pid: Pid, code: seq<Byte>)
    requires Inv(m) && Sized(m, sz) && pid !in sz && m1.roots.Keys == m.roots.Keys + {pid} && m1.pt.Keys == m.pt.Keys
    requires Eager(m1) == Eager(m)
    requires Added(m1, m2, Key(pid, 0), UPage(Zeros(), true, true, true)) && |code| < PGSIZE
    requires Key(pid, 0) in m2.pt && m2.pt[Key(pid, 0)].w
    ensures FirstMapped(m, m2, pid, code)
  {
    hide Inv, Eager, Zeros, Sized;
    assert |Zeros()| == PGSIZE by { ZerosLen(); }
    assert Overlay(Zeros(), 0, code) == code + Zeros()[|code|..];
  }

  lemma ZerosLen()
    ensures |Zeros()| == PGSIZE
  {
  }

  lemma SizedFirst(m: Mem, m': Mem, sz: map<Pid, nat>, pid: Pid)
    requires Sized(m, sz) && pid !in sz && m'.roots.Keys == m.roots.Keys + {pid}
    requires m'.pt.Keys == m.pt.Keys + {Key(pid, 0)}
    requires Inv(m)
    ensures Sized(m', sz[pid := PGSIZE])
  {
    hide AllocOk, TreesOk, RefsOk, CowOk;
  }

  lemma SizedExit(m: Mem, m': Mem, sz: map<Pid, nat>, pid: Pid)
    requires Sized(m, sz) && pid in sz && m'.roots == m.roots - {pid} && m'.pt == m.pt - Range(pid, 0, Pages(sz[pid]))
    ensures Sized(m', sz - {pid})
  {
  }

  lemma PagesMonotone(s: nat, s': nat)
    requires s <= s' <= LIMIT
    ensures Pages(s) <= Pages(s') <= MAXVPN
  {
  }

  lemma CanGrow(m: Mem, sz: map<Pid, nat>, pid: Pid, s: nat)
    requires Sized(m, sz) && pid in sz && sz[pid] <= s <= LIMIT
    ensures pid in m.roots && Pages(sz[pid]) <= Pages(s) <= MAXVPN
    ensures FreshRange(m.pt.Keys, pid, Pages(sz[pid]), Pages(s) - Pages(sz[pid]))
  {
    PagesMonotone(sz[pid], s);
  }

  lemma SizedGrow(m: Mem, m': Mem, sz: map<Pid, nat>, pid: Pid, s: nat)
    requires Sized(m, sz) && pid in sz && sz[pid] <= s <= LIMIT && m'.roots == m.roots && Pages(sz[pid]) <= Pages(s)
    requires m'.pt.Keys == m.pt.Keys + Range(pid, Pages(sz[pid]), Pages(s) - Pages(sz[pid]))
    ensures Sized(m', sz[pid := s])
  {
  }

  lemma CanShrink(m: Mem, sz: map<Pid, nat>, pid: Pid, s: nat)
    requires Sized(m, sz) && pid in sz && s <= sz[pid]
    ensures Pages(s) <= Pages(sz[pid]) && Range(pid, Pages(s), Pages(sz[pid]) - Pages(s)) <= m.pt.Keys
    ensures Pages(s) == Pages(sz[pid]) ==> Range(pid, Pages(s), 0) == {}
  {
    PagesMonotone(s, sz[pid]);
  }

  lemma SizedShrink(m: Mem, m': Mem, sz: map<Pid, nat>, pid: Pid, s: nat)
    requires Sized(m, sz) && pid in sz && s <= sz[pid] && m'.roots == m.roots && Pages(s) <= Pages(sz[pid])
    requires m'.pt.Keys == m.pt.Keys - Range(pid, Pages(s), Pages(sz[pid]) - Pages(s))
    ensures Sized(m', sz[pid := s])
  {
  }

  lemma StillNone(m: Mem, m': Mem, pid: Pid)
    requires NoKeysBeyond(m, pid, 0) && m'.pt.Keys == m.pt.Keys
    ensures NoKeysBeyond(m', pid, 0) && Range(pid, 0, 0) == {}
  {
    forall k | k in m'.pt && k.pid == pid ensures k.vpn < 0 {
      assert k in m.pt;
    }
  }

  lemma NothingRemoved(m: Mem, pid: Pid)
    ensures m.pt - Range(pid, 0, 0) == m.pt && Eager(m) - Range(pid, 0, 0) == Eager(m)
  {
    hide Eager;
    assert Range(pid, 0, 0) == {};
  }

  lemma RemoveNone(m: Mem, m': Mem, pid: Pid, sz: map<Pid, nat>)
    requires Sized(m, sz) && pid !in m.roots && m'.roots.Keys == m.roots.Keys + {pid} - {pid}
    requires m'.pt.Keys == m.pt.Keys - Range(pid, 0, 0)
    ensures Sized(m', sz) && Range(pid, 0, 0) == {}
  {
  }

  // ---- memory is enough ---------------------------------------------------------------------------------

  lemma BudgetedFacts(m: Mem, sz: map<Pid, nat>, peak: map<Pid, nat>)
    requires Budgeted(m, sz, peak)
    ensures Within(m, AllTables(peak), {}) && peak.Keys == sz.Keys
  {
  }

  lemma BudgetedKept(m: Mem, m': Mem, sz: map<Pid, nat>, peak: map<Pid, nat>)
    requires Budgeted(m, sz, peak) && Within(m', AllTables(peak), {})
    ensures Budgeted(m', sz, peak)
  {
  }

  lemma WithinMore(m: Mem, roles: set<Role>, roles': set<Role>, held: set<nat>)
    requires Within(m, roles, held) && roles <= roles'
    ensures Within(m, roles', held)
  {
  }

  /** What a fork will need, and where its tables will be. */
  lemma ForkNeed(m: Mem, sz: map<Pid, nat>, peak: map<Pid, nat>, parent: Pid, child: Pid)
    requires Inv(m) && Sized(m, sz) && Budgeted(m, sz, peak) && parent in sz && child !in sz
    ensures Within(m, AllTables(peak), {}) && Within(m, AllTables(peak[child := Pages(sz[parent])]), {})
    ensures {Root(child)} <= AllTables(peak[child := Pages(sz[parent])])
    ensures Covers(AllTables(peak[child := Pages(sz[parent])]), child, Pages(sz[parent]))
    ensures |AllTables(peak)| < |AllTables(peak[child := Pages(sz[parent])])|
    ensures |m.pt| + Pages(sz[parent]) == |Copied(Eager(m), parent, child, Pages(sz[parent]))|
  {
    hide Inv, Pages, AllTables, Within, PathsBelow, Eager, Copied;
    var n := Pages(sz[parent]);
    SizedRange(m, sz, parent);
    NoRoot(m, sz, child, n);
    AllTablesAdd(peak, child, n);
    WithinMore(m, AllTables(peak), AllTables(peak[child := n]), {});
    EagerKeys(m);
    SameSize(Eager(m), m.pt);
    CopiedSize(Eager(m), parent, child, n);
  }

  lemma CopiedSize(v: map<Key, UPage>, parent: Pid, child: Pid, n: nat)
    requires Range(parent, 0, n) <= v.Keys && Range(child, 0, n) !! v.Keys
    ensures |Copied(v, parent, child, n)| == |v| + n
  {
    var c := Copied(v, parent, child, n);
    forall k | k in Range(child, 0, n) ensures k in c {
      assert Key(parent, k.vpn) in Range(parent, 0, n);
    }
    assert c.Keys == v.Keys + Range(child, 0, n);
    RangeSize(child, 0, n);
    assert |c| == |c.Keys| && |v| == |v.Keys|;
  }

  lemma BudgetedFork(m: Mem, m': Mem, sz: map<Pid, nat>, peak: map<Pid, nat>, parent: Pid, child: Pid)
    requires Budgeted(m, sz, peak) && parent in sz && child !in sz
    requires Within(m', AllTables(peak[child := Pages(sz[parent])]), {})
    ensures Budgeted(m', sz[child := sz[parent]], peak[child := Pages(sz[parent])])
  {
    hide Within, AllTables, Pages;
  }

  /** The tables of a process that is gone are gone. */
  lemma WithinExit(m: Mem, m': Mem, pid: Pid, peak: map<Pid, nat>)
    requires Inv(m) && Inv(m') && FreesOnly(m, m', pid) && pid !in m'.roots && Within(m, AllTables(peak), {})
    ensures Within(m', AllTables(peak - {pid}), {})
  {
    hide Inv, AllTables, TablesOf;
    forall p | 0 <= p < |m'.role| && InTree(m'.role[p]) ensures m'.role[p] in AllTables(peak - {pid}) {
      TablesReleased(m, m', pid, p);
      InAllTables(peak, m'.role[p]);
      InAllTables(peak - {pid}, m'.role[p]);
    }
  }

  lemma BudgetedAgain(m: Mem, m': Mem, sz: map<Pid, nat>, peak: map<Pid, nat>, child: Pid, n: nat)
    requires Budgeted(m, sz, peak) && child !in sz && Within(m', AllTables(peak[child := n] - {child}), {})
    ensures Budgeted(m', sz, peak)
  {
    hide Within, AllTables, Pages;
    assert peak[child := n] - {child} == peak;
  }

  lemma BudgetedExit(m: Mem, m': Mem, sz: map<Pid, nat>, peak: map<Pid, nat>, pid: Pid)
    requires Budgeted(m, sz, peak) && Within(m', AllTables(peak - {pid}), {})
    ensures Budgeted(m', sz - {pid}, peak - {pid})
  {
    hide Within, AllTables, Pages;
  }

  lemma AskTables(m: Mem, peak: map<Pid, nat>, pid: Pid, n: nat)
    requires Within(m, AllTables(peak), {}) && pid in peak
    ensures Within(m, AllTables(Asked(peak, pid, n)), {}) && Covers(AllTables(Asked(peak, pid, n)), pid, n)
  {
    hide Within, AllTables, Covers;
    var peak' := Asked(peak, pid, n);
    AllTablesMonotone(peak, pid, peak'[pid]);
    WithinMore(m, AllTables(peak), AllTables(peak'), {});
    PathsInAll(peak', pid, n);
  }

  lemma BudgetedAsk(m: Mem, sz: map<Pid, nat>, peak: map<Pid, nat>, pid: Pid, n: nat)
    requires Budgeted(m, sz, peak) && pid in sz
    ensures Budgeted(m, sz, Asked(peak, pid, n)) && Covers(AllTables(Asked(peak, pid, n)), pid, n)
    ensures Within(m, AllTables(Asked(peak, pid, n)), {})
    ensures pid in Asked(peak, pid, n) && n <= Asked(peak, pid, n)[pid]
  {
    hide Within, AllTables, Pages, Covers;
    AskTables(m, peak, pid, n);
  }

  lemma PathsInAll(peak: map<Pid, nat>, pid: Pid, n: nat)
    requires pid in peak && n <= peak[pid]
    ensures Covers(AllTables(peak), pid, n)
  {
    hide AllTables, PathsBelow;
    PathsBelowMonotone(pid, n, peak[pid]);
    forall r | r in PathsBelow(pid, n) ensures r in AllTables(peak) {
      PathRole(pid, n, r);
      InAllTables(peak, r);
    }
  }

  lemma AddZerosSize(v: map<Key, UPage>, pid: Pid, from: Vpn, n: nat, w: bool, x: bool)
    requires Range(pid, from, n) !! v.Keys
    ensures |AddZeros(v, pid, from, n, w, x)| == |v| + n
  {
    hide Zeros, Range;
    var a := AddZeros(v, pid, from, n, w, x);
    assert a.Keys == v.Keys + Range(pid, from, n);
    RangeSize(pid, from, n);
    assert |a| == |a.Keys| && |v| == |v.Keys|;
  }

  lemma GrownPagesAre(v: map<Key, UPage>, pid: Pid, s: nat, s': nat, w: bool, x: bool)
    requires s <= s' && Pages(s) <= Pages(s')
    ensures GrownPages(v, pid, s, s', w, x) == AddZeros(v, pid, Pages(s), Pages(s') - Pages(s), w, x)
  {
    hide Pages;
  }

  lemma GrowNeed(m: Mem, pid: Pid, from: Vpn, n: nat, w: bool, x: bool)
    requires FreshRange(m.pt.Keys, pid, from, n)
    ensures |m.pt| + n == |AddZeros(Eager(m), pid, from, n, w, x)|
  {
    hide Eager, Zeros, AddZeros;
    EagerKeys(m);
    SameSize(Eager(m), m.pt);
    AddZerosSize(Eager(m), pid, from, n, w, x);
  }

  lemma GrowStart(m: Mem, sz: map<Pid, nat>, peak: map<Pid, nat>, pid: Pid, s: nat, w: bool, x: bool)
    requires Sized(m, sz) && Budgeted(m, sz, peak) && pid in sz && sz[pid] <= s <= LIMIT
    ensures pid in m.roots && Pages(sz[pid]) <= Pages(s) <= MAXVPN
    ensures FreshRange(m.pt.Keys, pid, Pages(sz[pid]), Pages(s) - Pages(sz[pid]))
    ensures Covers(AllTables(Asked(peak, pid, Pages(s))), pid, Pages(s))
    ensures Within(m, AllTables(Asked(peak, pid, Pages(s))), {})
    ensures |GrownPages(Eager(m), pid, sz[pid], s, w, x)| == |m.pt| + (Pages(s) - Pages(sz[pid]))
  {
    hide Inv, Eager, Sized, AddZeros, Pages, Budgeted, Within, AllTables, Covers, Asked, GrownPages, FreshRange;
    CanGrow(m, sz, pid, s);
    BudgetedAsk(m, sz, peak, pid, Pages(s));
    GrowNeed(m, pid, Pages(sz[pid]), Pages(s) - Pages(sz[pid]), w, x);
    GrownPagesAre(Eager(m), pid, sz[pid], s, w, x);
  }

  lemma GrowDone(m: Mem, m': Mem, sz: map<Pid, nat>, peak: map<Pid, nat>, pid: Pid, s: nat, w: bool, x: bool)
    requires Sized(m, sz) && Budgeted(m, sz, peak) && pid in sz && sz[pid] <= s <= LIMIT && m'.roots == m.roots
    requires Pages(sz[pid]) <= Pages(s) && Within(m', AllTables(Asked(peak, pid, Pages(s))), {})
    requires Growing(m', Eager(m), pid, Pages(sz[pid]), Pages(s) - Pages(sz[pid]), w, x)
    ensures Sized(m', sz[pid := s]) && Budgeted(m', sz[pid := s], Asked(peak, pid, Pages(s)))
    ensures Eager(m') == GrownPages(Eager(m), pid, sz[pid], s, w, x)
  {
    hide Sized, Pages, Budgeted, Within, AllTables, Covers, Asked, Growing, Eager, GrownPages, AddZeros;
    BudgetedAsk(m, sz, peak, pid, Pages(s));
    EagerKeys(m);
    GrowingEnd(m', Eager(m), pid, Pages(sz[pid]), Pages(s) - Pages(sz[pid]), w, x);
    GrownPagesAre(Eager(m), pid, sz[pid], s, w, x);
    SizedGrow(m, m', sz, pid, s);
    BudgetedGrow(m, m', sz, Asked(peak, pid, Pages(s)), pid, s);
  }

  /** Only the tables of pages that were tried are new. */
  lemma GrowFailed(m: Mem, m': Mem, sz: map<Pid, nat>, peak: map<Pid, nat>, pid: Pid, reached: nat)
    requires Sized(m, sz) && Budgeted(m, sz, peak) && pid in sz && m'.roots == m.roots && m'.pt.Keys == m.pt.Keys
    requires TablesGrow(m, m', PathsBelow(pid, Pages(sz[pid]) + reached))
    ensures Sized(m', sz) && Budgeted(m', sz, Asked(peak, pid, Pages(sz[pid]) + reached))
  {
    hide Sized, Pages, Budgeted, Within, AllTables, Asked, TablesGrow, PathsBelow;
    var n := Pages(sz[pid]) + reached;
    BudgetedAsk(m, sz, peak, pid, n);
    WithinGrow(m, m', PathsBelow(pid, n), AllTables(Asked(peak, pid, n)), {});
    SizedSame(m, m', sz);
    BudgetedKept(m, m', sz, Asked(peak, pid, n));
  }

  lemma BudgetedGrow(m: Mem, m': Mem, sz: map<Pid, nat>, peak: map<Pid, nat>, pid: Pid, s: nat)
    requires Budgeted(m, sz, peak) && pid in sz && Pages(s) <= peak[pid] && Within(m', AllTables(peak), {})
    ensures Budgeted(m', sz[pid := s], peak)
  {
    hide Within, AllTables, Pages;
  }

  lemma BudgetedShrink(m: Mem, m': Mem, sz: map<Pid, nat>, peak: map<Pid, nat>, pid: Pid, s: nat)
    requires Budgeted(m, sz, peak) && pid in sz && Pages(s) <= Pages(sz[pid]) && FreesOnly(m, m', pid)
    ensures Budgeted(m', sz[pid := s], peak)
  {
    hide Within, AllTables, Pages, FreesOnly;
    WithinFrees(m, m', pid, AllTables(peak), {});
  }

  lemma FirstNeed(m: Mem, sz: map<Pid, nat>, peak: map<Pid, nat>, pid: Pid)
    requires Budgeted(m, sz, peak) && pid !in sz
    ensures Within(m, AllTables(peak), {}) && Within(m, AllTables(peak[pid := 1]), {})
    ensures {Root(pid)} + PathTables(pid, 0) <= AllTables(peak[pid := 1])
    ensures |AllTables(peak)| < |AllTables(peak[pid := 1])| && |Eager(m)| == |m.pt|
  {
    hide Pages, AllTables, Within, PathTables, Eager;
    AllTablesAdd(peak, pid, 1);
    PathBelow(pid, 0, 1, AllTables(peak[pid := 1]));
    WithinMore(m, AllTables(peak), AllTables(peak[pid := 1]), {});
    EagerKeys(m);
    SameSize(Eager(m), m.pt);
  }

  lemma BudgetedFirst(m: Mem, m': Mem, sz: map<Pid, nat>, peak: map<Pid, nat>, pid: Pid)
    requires Budgeted(m, sz, peak) && Within(m', AllTables(peak[pid := 1]), {})
    ensures Budgeted(m', sz[pid := PGSIZE], peak[pid := 1])
  {
    hide Within, AllTables;
  }

  /** What a store reports is what private memory allows. */
  lemma StoreAnswer(m: Mem, pid: Pid, va: nat, sp: nat, killed: bool, nomem: bool, roles: set<Role>)
    requires Inv(m) && Within(m, roles, {}) && (killed <==> Fatal(m, pid, va, sp) && !DirectAt(m, pid, va))
    requires nomem <==> Repairable(m, pid, va, sp) && !DirectAt(m, pid, va) && m.free == []
    ensures nomem ==> Reachable(Eager(m), pid, va) && Eager(m)[Key(pid, va / PGSIZE)].w && !NearStack(va, sp)
    ensures nomem ==> Key(pid, va / PGSIZE) in Marks(m.pt) && |m.role| <= |m.pt| + |roles| && killed
    ensures !nomem ==>
      (killed <==>
        || !Reachable(Eager(m), pid, va) || !Eager(m)[Key(pid, va / PGSIZE)].w
        || (Key(pid, va / PGSIZE) in Marks(m.pt) && NearStack(va, sp)))
  {
    hide Inv, Within, NearStack;
    if nomem {
      NoRoom(m, roles, {});
      RepairableSeen(m, pid, va, sp);
    } else {
      KilledWhy(m, pid, va, sp);
    }
  }
}
