/** kernel/kalloc.c, kernel/vm.c and the copy-on-write branch of kernel/trap.c as the code runs
    them: one object that holds physical memory, the counts, the free list and the page-table
    roots, updated in place. */
module VmCode {
  import opened VmModel
  import opened VmTree
  import opened VmOps
  import opened CowSpec
  import opened VmSteps
  import opened VmBudget

  class Memory {
    const frames: array<Frame>
    const pgrc: array<int>
    var free: seq<nat>
    var roots: map<Pid, nat>
    ghost var role: seq<Role>
    ghost var refs: seq<set<Key>>
    ghost var pt: map<Key, Pte>

    ghost function View(): (m: Mem)
      reads this, frames, pgrc
    {
      Mem(frames[..], pgrc[..], free, roots, role, refs, pt)
    }

    ghost predicate Valid()
      reads this, frames, pgrc
    {
      Inv(View())
    }

    /** kinit: freerange hands every page to kfree. */
    constructor (npages: nat)
      ensures Valid() && |role| == npages && roots == map[] && pt == map[]
      ensures forall p :: 0 <= p < npages ==> role[p] == Unused
      ensures fresh(frames) && fresh(pgrc)
    {
      frames := new Frame[npages](_ => Bytes([]));
      pgrc := new int[npages](_ => 0);
      free, roots := [], map[];
      role, refs, pt := seq(npages, _ => Unused), seq(npages, _ => {}), map[];
      new;
      var i := 0;
      while i < npages
        invariant 0 <= i <= npages && |free| == i && forall k :: 0 <= k < i ==> free[k] == i - 1 - k
        invariant forall p :: 0 <= p < npages ==> pgrc[p] == 0
        invariant roots == map[] && pt == map[] && role == seq(npages, _ => Unused) && refs == seq(npages, _ => {})
        modifies this`free, frames, pgrc
      {
        var counted := IncPgrc(i);
        var freed := Kfree(i);
        i := i + 1;
      }
      BootInv(View());
    }

    /** kalloc; -1 stands for the null pointer. */
    method Kalloc() returns (p: int)
      requires Valid()
      modifies this`free, this`role, frames, pgrc
      ensures Valid()
      ensures -1 <= p && (p == -1 <==> old(free) == [])
      ensures p == -1 ==> View() == old(View())
      ensures p >= 0 ==> p == old(free)[0] && p < |old(role)| == |role| && View() == Alloc(old(View()))
      ensures p >= 0 ==> Unseen(old(View()), View()) && role == old(role)[p := Kernel] && IsData(View(), p)
    {
      ghost var m := View();
      if free == [] {
        return -1;
      }
      AllocUnseen(m);
      hide Inv, Unseen;
      p := free[0];
      free := free[1..];
      frames[p] := Junk(5);
      pgrc[p] := pgrc[p] + 1;
      role := role[p := Kernel];
      assert View() == Alloc(m);
      UnseenInv(m, View());
    }

    /** kfree with its decpgrc; a false result is the panic on a count that is not positive. */
    method Kfree(p: nat) returns (ok: bool)
      requires p < frames.Length == pgrc.Length
      modifies this`free, frames, pgrc
      ensures ok <==> old(pgrc[p]) > 0
      ensures pgrc[..] == if ok then old(pgrc[..])[p := old(pgrc[p]) - 1] else old(pgrc[..])
      ensures free == if old(pgrc[p]) == 1 then [p] + old(free) else old(free)
      ensures frames[..] == if old(pgrc[p]) == 1 then old(frames[..])[p := Junk(1)] else old(frames[..])
    {
      if pgrc[p] <= 0 {
        return false;
      }
      pgrc[p] := pgrc[p] - 1;
      if pgrc[p] == 0 {
        frames[p] := Junk(1);
        free := [p] + free;
      }
      return true;
    }

    /** Clear the new table page and point the entry to it. */
    method LinkTable(page: nat, i: nat, q: nat)
      requires Shape(View()) && IsTable(View(), page) && i < NPTE && q < |role| && page < |role| && q != page
      requires role[page].Root? || role[page].Mid?
      modifies this`role, frames
      ensures View() == Link(old(View()), page, i, q)
    {
      hide ZeroTable, SetEntry, ChildRole;
      frames[q] := ZeroTable();
      frames[page] := SetEntry(frames[page], i, Ptr(q));
      role := role[q := ChildRole(role[page], i)];
    }

    /** The allocating half of one level of walk(). */
    method NewTable(pid: Pid, vpn: Vpn, level: nat, page: nat) returns (q: int)
      requires Valid() && vpn < MAXVPN && 1 <= level <= 2 && At(View(), pid, vpn, level, page)
      requires !Entry(View(), page, Px(level, vpn)).v
      modifies this`free, this`role, frames, pgrc
      ensures Valid() && Unseen(old(View()), View())
      ensures KeepsKernel(old(View()), View())
      ensures q < 0 <==> old(free) == []
      ensures q >= 0 ==> At(View(), pid, vpn, level - 1, q)
      ensures q < 0 ==> View() == old(View()) && Full(View(), PathTables(pid, vpn))
      ensures TablesGrow(old(View()), View(), PathTables(pid, vpn))
    {
      ghost var m := View();
      UnseenRefl(m);
      TablesGrowRefl(m, PathTables(pid, vpn));
      assert Shape(m);
      hide Inv, Unseen, At, TreesOk, Alloc, Link, Entry, Px, TablesGrow, Full, PathTables;
      q := Kalloc();
      if q < 0 {
        MissingTable(m, pid, vpn, level, page);
        return;
      }
      ghost var m1 := View();
      AtAfterAlloc(m, pid, vpn, level, page);
      AtLinked(m1, pid, vpn, level, page, q);
      LinkTable(page, Px(level, vpn), q);
      AllocLinkKeeps(m, page, Px(level, vpn));
      LinkGrows(m, pid, vpn, level, page);
      UnseenTrans(m, m1, View());
      UnseenInv(m1, View());
    }

    /** walk(): the level-0 table page that holds the entry of a page number. */
    method Walk(pid: Pid, vpn: Vpn, alloc: bool) returns (page: int)
      requires Valid() && pid in roots && vpn < MAXVPN
      modifies this`free, this`role, frames, pgrc
      ensures Valid() && Unseen(old(View()), View()) && KeepsKernel(old(View()), View())
      ensures page >= 0 ==> At(View(), pid, vpn, 0, page)
      ensures page < 0 ==> if alloc then Full(View(), PathTables(pid, vpn)) else LowPage(View(), pid, vpn) < 0
      ensures !alloc ==> View() == old(View())
      ensures TablesGrow(old(View()), View(), PathTables(pid, vpn))
    {
      hide Inv, Unseen, Lookup, LowPage, KeepsKernel, At, IsTable, TablesGrow, Full, PathTables;
      ghost var m := View();
      UnseenRefl(m);
      TablesGrowRefl(m, PathTables(pid, vpn));
      AtRoot(m, pid, vpn);
      KeepsKernelRefl(m);
      page := roots[pid];
      var level := 2;
      while level > 0
        invariant 0 <= level <= 2 && page >= 0 && Valid() && Unseen(m, View()) && KeepsKernel(m, View())
        invariant At(View(), pid, vpn, level, page) && TablesGrow(m, View(), PathTables(pid, vpn))
        invariant !alloc ==> View() == m
      {
        PxBound(vpn, level);
        AtTable(View(), pid, vpn, level, page);
        EntryIs(View(), page, Px(level, vpn));
        var e := frames[page].pte[Px(level, vpn)];
        if e.v {
          AtNext(View(), pid, vpn, level, page);
          page := e.ppn;
        } else {
          if !alloc {
            AtMissing(View(), pid, vpn, level, page);
            return -1;
          }
          ghost var m1 := View();
          page := NewTable(pid, vpn, level, page);
          UnseenTrans(m, m1, View());
          KeepsKernelTrans(m, m1, View());
          TablesGrowTrans(m, m1, View(), PathTables(pid, vpn));
          if page < 0 {
            return;
          }
        }
        level := level - 1;
      }
    }

    /** Store an entry, with the finite map following. */
    method SetPte(pid: Pid, vpn: Vpn, page: nat, e: Pte)
      requires HasSlot(View(), Key(pid, vpn)) && page == LowPage(View(), pid, vpn)
      modifies this`pt, frames
      ensures View() == SetLeaf(old(View()), Key(pid, vpn), e)
    {
      hide LowPage, SetEntry;
      frames[page] := SetEntry(frames[page], I0(vpn), e);
      pt := if e.v then pt[Key(pid, vpn) := e] else pt - {Key(pid, vpn)};
    }

    /** Free the page of an entry and clear the entry. */
    method FreeAndClear(page: nat, i: nat, p: nat)
      requires Shape(View()) && IsTable(View(), page) && i < NPTE && p < |role| && p != page && pgrc[p] > 0
      modifies this`free, frames, pgrc
      ensures View() == FreedAndCleared(old(View()), page, i, p)
    {
      hide SetEntry, Junk;
      var ok := Kfree(p);
      frames[page] := SetEntry(frames[page], i, ZERO);
    }

    /** One round of uvmunmap(..., 1): the page loses one mapping and one count. */
    method UnmapPage(pid: Pid, vpn: Vpn)
      requires Valid() && Key(pid, vpn) in pt
      modifies this`free, this`role, this`refs, this`pt, frames, pgrc
      ensures Valid() && Dropped(old(View()), View(), Key(pid, vpn))
    {
      ghost var m := View();
      ghost var k := Key(pid, vpn);
      hide Inv, HasSlot, Dropped, LowPage, Lookup, Unseen, FreedAndCleared, IsTable, Entry;
      DropFacts(m, k);
      var page := Walk(pid, vpn, false);
      AtSlot(m, pid, vpn, page);
      EntryIs(m, page, I0(vpn));
      var p := frames[page].pte[I0(vpn)].ppn;
      FreeAndClear(page, I0(vpn), p);
      ghost var m1 := View();
      pt, role, refs := pt - {k}, if refs[p] == {k} then role[p := Unused] else role, refs[p := refs[p] - {k}];
      DropState(m, m1, View(), k);
    }

    /** uvmunmap(pagetable, va, npages, 1). */
    method Uvmunmap(pid: Pid, from: Vpn, n: nat)
      requires Valid() && Range(pid, from, n) <= pt.Keys
      modifies this`free, this`role, this`refs, this`pt, frames, pgrc
      ensures Valid() && pt == old(pt) - Range(pid, from, n) && |role| == old(|role|)
      ensures Eager(View()) == old(Eager(View())) - Range(pid, from, n)
      ensures FreesOnly(old(View()), View(), pid)
    {
      hide Inv, Eager, PageOf, FreesOnly;
      ghost var v, pt0, m := Eager(View()), pt, View();
      FreesOnlyRefl(m, pid);
      var i := 0;
      while i < n
        invariant 0 <= i <= n && Valid() && |role| == old(|role|)
        invariant pt == pt0 - Range(pid, from, i) && Eager(View()) == v - Range(pid, from, i)
        invariant FreesOnly(m, View(), pid)
      {
        RangeStep(pid, from, i);
        ghost var m1 := View();
        UnmapPage(pid, from + i);
        FreesOnlyTrans(m, m1, View(), pid);
        i := i + 1;
      }
    }

    /** mappages for one page that a kernel owner holds; false when walk() finds no page for a table. */
    method MapNew(pid: Pid, vpn: Vpn, p: nat, w: bool, x: bool) returns (ok: bool)
      requires Valid() && pid in roots && vpn < MAXVPN && Key(pid, vpn) !in pt
      requires p < |role| && role[p] == Kernel && IsData(View(), p)
      modifies this`free, this`role, this`refs, this`pt, frames, pgrc
      ensures Valid()
      ensures ok ==> Added(old(View()), View(), Key(pid, vpn), UPage(old(View().frames[p].data), w, x, true))
      ensures ok ==> Key(pid, vpn) in pt && pt[Key(pid, vpn)].w == w && Marks(pt) == old(Marks(pt))
      ensures !ok ==> Unseen(old(View()), View()) && role[p] == Kernel && Full(View(), PathTables(pid, vpn))
      ensures TablesGrow(old(View()), View(), PathTables(pid, vpn)) && |role| == old(|role|) && (ok ==> role[p] == User)
    {
      ghost var m := View();
      hide Inv, Unseen, Added, At, HasSlot, LowPage, Full, PathTables;
      var page := Walk(pid, vpn, true);
      ghost var m1 := View();
      WalkKeeps(m, m1, p);
      if page < 0 {
        return false;
      }
      AtSlot(m1, pid, vpn, page);
      var e := Pte(true, true, w, x, true, false, p);
      MarksAdd(pt, Key(pid, vpn), e);
      SetPte(pid, vpn, page, e);
      role, refs := role[p := User], refs[p := {Key(pid, vpn)}];
      MapNewState(m, m1, View(), Key(pid, vpn), e);
      return true;
    }

    /** One round of uvmalloc: a zeroed page, or nothing at all. */
    method AllocPage(pid: Pid, vpn: Vpn, w: bool, x: bool, ghost roles: set<Role>) returns (ok: bool)
      requires Valid() && pid in roots && vpn < MAXVPN && Key(pid, vpn) !in pt
      requires Within(View(), roles, {}) && PathTables(pid, vpn) <= roles
      modifies this`free, this`role, this`refs, this`pt, frames, pgrc
      ensures Valid()
      ensures ok ==> Added(old(View()), View(), Key(pid, vpn), UPage(Zeros(), w, x, true))
      ensures ok ==> Key(pid, vpn) in pt && pt[Key(pid, vpn)].w == w
      ensures !ok ==> Unseen(old(View()), View()) && |role| <= |old(pt)| + |roles|
      ensures Within(View(), roles, {}) && |role| == old(|role|) && Marks(pt) == old(Marks(pt))
      ensures TablesGrow(old(View()), View(), PathTables(pid, vpn))
    {
      hide Inv, Unseen, Added, Alloc, Zeros, Within, TablesGrow, Full, PathTables, Marks;
      ghost var m := View();
      UnseenRefl(m);
      var mem := Kalloc();
      if mem < 0 {
        NoRoom(m, roles, {});
        TablesGrowRefl(m, PathTables(pid, vpn));
        return false;
      }
      ghost var m1 := View();
      HoldOne(m, m1, mem, roles);
      ZeroedUnseen(m, m1, mem);
      frames[mem] := Bytes(Zeros());
      ghost var m2 := View();
      assert m2 == Poke(m1, mem, Zeros());
      HoldSame(m1, m2, roles, {mem});
      ok := MapNew(pid, vpn, mem, w, x);
      WithinGrow(m2, View(), PathTables(pid, vpn), roles, {mem});
      if ok {
        AddedAfter(m, m2, View(), Key(pid, vpn), UPage(Zeros(), w, x, true));
        HoldNone(View(), mem, roles);
        TablesGrowTaken(m, m2, View(), mem, PathTables(pid, vpn));
      } else {
        ghost var m3 := View();
        SameToSee(m2, m3);
        UnseenTrans(m, m2, m3);
        SameToSee(m, m3);
        NoTable(m3, PathTables(pid, vpn), roles, {mem});
        FreeKernelPage(mem);
        HoldReleased(m3, View(), mem, roles);
        TablesGrowRelease(m, m2, m3, View(), mem, PathTables(pid, vpn));
        UnseenTrans(m, m3, View());
      }
    }

    /** kfree of a page with one kernel owner. */
    method FreeKernelPage(p: nat)
      requires Valid() && p < |role| && role[p] == Kernel
      modifies this`free, this`role, frames, pgrc
      ensures Valid() && View() == Release(old(View()), p) && Unseen(old(View()), View())
    {
      ghost var m := View();
      KernelCount(m, p);
      ReleaseUnseen(m, p);
      hide Inv, Unseen, Junk;
      var freed := Kfree(p);
      role := role[p := Unused];
      assert View() == Release(m, p);
      UnseenInv(m, View());
    }

    /** uvmdealloc on the failure exits of uvmalloc: back to the pages there were. */
    method UndoAlloc(pid: Pid, from: Vpn, n: nat, ghost v: map<Key, UPage>, w: bool, x: bool, ghost roles: set<Role>)
      requires Valid() && FreshRange(v.Keys, pid, from, n) && Within(View(), roles, {})
      requires Growing(View(), v, pid, from, n, w, x)
      modifies this`free, this`role, this`refs, this`pt, frames, pgrc
      ensures Valid() && |role| == old(|role|) && pt.Keys == v.Keys && Eager(View()) == v && Within(View(), roles, {})
      ensures FreesOnly(old(View()), View(), pid) && pt == old(pt) - Range(pid, from, n)
    {
      hide Inv, Eager, AddZeros, Within, FreesOnly, FreshRange;
      ghost var m := View();
      Uvmunmap(pid, from, n);
      WithinFrees(m, View(), pid, roles, {});
      GrowingUndone(m, View(), v, pid, from, n, w, x);
    }

    /** One round of uvmalloc with its failure exits; n pages are there already. */
    method GrowOne(pid: Pid, from: Vpn, n: nat, w: bool, x: bool, ghost v: map<Key, UPage>, ghost roles: set<Role>)
      returns (ok: bool)
      requires Valid() && pid in roots && from + n < MAXVPN && FreshRange(v.Keys, pid, from, n + 1)
      requires Growing(View(), v, pid, from, n, w, x) && Marks(pt) <= v.Keys
      requires Within(View(), roles, {}) && PathTables(pid, from + n) <= roles
      modifies this`free, this`role, this`refs, this`pt, frames, pgrc
      ensures Valid() && |role| == old(|role|) && Within(View(), roles, {})
      ensures ok ==> Growing(View(), v, pid, from, n + 1, w, x)
      ensures !ok ==> pt.Keys == v.Keys && Eager(View()) == v && |role| <= |v| + n + |roles|
      ensures TablesGrow(old(View()), View(), PathTables(pid, from + n)) && Marks(pt) == old(Marks(pt))
    {
      hide Inv, Eager, Unseen, Added, Zeros, AddZeros, Within, PathTables, Growing, FreshRange, TablesGrow,
        FreesOnly, Marks;
      ghost var m := View();
      NextIsFree(m, v, pid, from, n, w, x);
      ok := AllocPage(pid, from + n, w, x, roles);
      if ok {
        OneMoreZero(m, View(), v, pid, from, n, w, x);
      } else {
        SameToSee(m, View());
        GrowingSeen(m, View(), v, pid, from, n, w, x);
        ghost var m1 := View();
        UndoAlloc(pid, from, n, v, w, x, roles);
        MarksUndone(m1.pt, v.Keys, pid, from, n);
        TablesGrowFrees(m1, View(), pid, PathTables(pid, from + n));
        TablesGrowTrans(m, m1, View(), PathTables(pid, from + n));
      }
    }

    /** uvmalloc in pages: on failure everything it had mapped is gone again. */
    method Uvmalloc(pid: Pid, from: Vpn, to: Vpn, w: bool, x: bool, ghost roles: set<Role>)
      returns (ok: bool, reached: nat)
      requires Valid() && pid in roots && from <= to <= MAXVPN && FreshRange(pt.Keys, pid, from, to - from)
      requires Within(View(), roles, {}) && Covers(roles, pid, to)
      modifies this`free, this`role, this`refs, this`pt, frames, pgrc
      ensures Valid() && |role| == old(|role|) && Within(View(), roles, {})
      ensures ok ==> Growing(View(), old(Eager(View())), pid, from, to - from, w, x)
      ensures !ok ==> pt.Keys == old(pt.Keys) && Eager(View()) == old(Eager(View()))
      ensures !ok ==> |role| < |old(pt)| + (to - from) + |roles|
      ensures reached <= to - from && TablesGrow(old(View()), View(), PathsBelow(pid, from + reached))
      ensures Marks(pt) == old(Marks(pt))
    {
      hide Inv, Eager, AddZeros, Growing, Within, PathTables, Covers, FreshRange, TablesGrow, PathsBelow, Marks;
      ghost var v := Eager(View());
      EagerKeys(View());
      SameSize(v, pt);
      GrowingStart(View(), v, pid, from, w, x);
      ghost var m := View();
      MarksBelow(pt);
      TablesGrowRefl(m, PathsBelow(pid, from));
      reached := 0;
      var a := from;
      while a < to
        invariant from <= a <= to && Valid() && pid in roots && |role| == old(|role|) && Within(View(), roles, {})
        invariant Growing(View(), v, pid, from, a - from, w, x) && Marks(pt) == Marks(m.pt)
        invariant reached == a - from && TablesGrow(m, View(), PathsBelow(pid, a))
      {
        SubFresh(v.Keys, pid, from, a - from + 1, to - from);
        PathBelow(pid, a, to, roles);
        ghost var m1 := View();
        ok := GrowOne(pid, from, a - from, w, x, v, roles);
        reached := reached + 1;
        OnePathMore(m, m1, View(), pid, a);
        if !ok {
          return;
        }
        a := a + 1;
      }
      ok := true;
    }

    /** incpgrc; a false result is its panic on a negative count. */
    method IncPgrc(p: nat) returns (ok: bool)
      requires p < pgrc.Length
      modifies pgrc
      ensures ok <==> old(pgrc[p]) >= 0
      ensures pgrc[..] == if ok then old(pgrc[..])[p := old(pgrc[p]) + 1] else old(pgrc[..])
    {
      ok := pgrc[p] >= 0;
      if ok {
        pgrc[p] := pgrc[p] + 1;
      }
    }

    /** The first half of a round of uvmcopy: the parent's entry loses W and is marked. */
    method Protect(pid: Pid, vpn: Vpn) returns (e: Pte)
      requires Valid() && Key(pid, vpn) in pt
      modifies this`pt, this`free, this`role, frames, pgrc
      ensures Valid() && Protected(old(View()), View(), Key(pid, vpn)) && e == pt[Key(pid, vpn)]
    {
      hide Inv, HasSlot, LowPage, Lookup, Unseen, Protected, At;
      ghost var m := View();
      ghost var k := Key(pid, vpn);
      DropFacts(m, k);
      var page := Walk(pid, vpn, false);
      AtSlot(m, pid, vpn, page);
      EntryIs(m, page, I0(vpn));
      e := frames[page].pte[I0(vpn)];
      if e.w {
        e := e.(w := false, c := true);
        SetPte(pid, vpn, page, e);
      }
      ProtectState(m, View(), k);
    }

    /** One round of uvmcopy: share one page of the parent with the child. */
    method SharePage(parent: Pid, child: Pid, vpn: Vpn) returns (ok: bool)
      requires Valid() && Key(parent, vpn) in pt && child in roots && Key(child, vpn) !in pt
      modifies this`free, this`role, this`refs, this`pt, frames, pgrc
      ensures Valid()
      ensures ok ==>
        && Key(parent, vpn) in old(Eager(View()))
        && Added(old(View()), View(), Key(child, vpn), old(Eager(View()))[Key(parent, vpn)])
      ensures ok ==>
        var e := Marked(old(pt)[Key(parent, vpn)]); pt == old(pt)[Key(parent, vpn) := e][Key(child, vpn) := e]
      ensures !ok ==> Eager(View()) == old(Eager(View())) && pt.Keys == old(pt.Keys) && |role| == old(|role|)
      ensures !ok ==> Full(View(), PathTables(child, vpn))
      ensures !ok ==> pt == old(pt)[Key(parent, vpn) := Marked(old(pt)[Key(parent, vpn)])]
      ensures TablesGrow(old(View()), View(), PathTables(child, vpn))
    {
      hide Inv, HasSlot, LowPage, Lookup, Unseen, Protected, Added, At, Eager, NoWriter, Full, TablesGrow, PathTables;
      ghost var m := View();
      var e := Protect(parent, vpn);
      ghost var m1 := View();
      ProtectedFacts(m, m1, Key(parent, vpn));
      var page := Walk(child, vpn, true);
      ghost var m2 := View();
      SharedFacts(m, m1, m2, Key(parent, vpn));
      SharedTables(m, m1, m2, Key(parent, vpn), PathTables(child, vpn));
      if page < 0 {
        return false;
      }
      AtSlot(m2, child, vpn, page);
      SetPte(child, vpn, page, e);
      var counted := IncPgrc(e.ppn);
      refs := refs[e.ppn := refs[e.ppn] + {Key(child, vpn)}];
      SameRoles(m, m2, View(), PathTables(child, vpn));
      ShareState(m, m1, m2, View(), Key(parent, vpn), Key(child, vpn));
      return true;
    }

    /** One round of uvmcopy with its failure exit. */
    method CopyOne(parent: Pid, child: Pid, i: Vpn, ghost v: map<Key, UPage>, ghost roles: set<Role>,
                   ghost marks: set<Key>)
      returns (ok: bool)
      requires Valid() && parent != child && Key(parent, i) in v && Key(child, i) !in v && Range(child, 0, i) !! v.Keys
      requires Copying(View(), v, parent, child, i) && Sharing(pt, parent, child, i)
      requires Within(View(), roles, {}) && PathTables(child, i) <= roles
      requires Marks(pt) == ForkMarks(marks, v, parent, child, i, i) && marks <= v.Keys
      modifies this`free, this`role, this`refs, this`pt, frames, pgrc
      ensures Valid() && |role| == old(|role|) && Within(View(), roles, {})
      ensures Marks(pt) == ForkMarks(marks, v, parent, child, i + 1, if ok then i + 1 else 0)
      ensures ok ==> Copying(View(), v, parent, child, i + 1) && Sharing(pt, parent, child, i + 1)
      ensures !ok ==> pt.Keys == v.Keys && Eager(View()) == v && |role| < |v| + i + |roles|
    {
      hide Inv, Eager, Added, Copied, Within, Full, TablesGrow, PathTables, Sharing, FreesOnly,
        Marks, ForkMarks;
      ghost var m := View();
      CopiedParent(m, v, parent, child, i);
      ok := SharePage(parent, child, i);
      ghost var m1 := View();
      WithinGrow(m, m1, PathTables(child, i), roles, {});
      MarksRound(m, pt, v, marks, parent, child, i, ok);
      if ok {
        CopiedStep(m, m1, v, parent, child, i);
        SharingStep(m.pt, pt, parent, child, i);
      } else {
        NoTable(m1, PathTables(child, i), roles, {});
        CopyingSize(m, m1, v, parent, child, i);
        Uvmunmap(child, 0, i);
        WithinFrees(m1, View(), child, roles, {});
        MarksTaken(m1.pt, v, marks, parent, child, i + 1, i);
        CopiedUndo(v, parent, child, i, pt);
      }
    }

    /** uvmcopy: the child's map becomes the parent's, or nothing is left of the attempt. */
    method Uvmcopy(parent: Pid, child: Pid, n: nat, ghost roles: set<Role>) returns (ok: bool, reached: nat)
      requires Valid() && child in roots && parent != child
      requires Within(View(), roles, {}) && Covers(roles, child, n)
      requires Range(parent, 0, n) <= pt.Keys && Range(child, 0, n) !! pt.Keys
      modifies this`free, this`role, this`refs, this`pt, frames, pgrc
      ensures Valid() && |role| == old(|role|) && Within(View(), roles, {})
      ensures ok ==> pt.Keys == old(pt.Keys) + Range(child, 0, n) && Sharing(pt, parent, child, n)
      ensures ok ==> Eager(View()) == Copied(old(Eager(View())), parent, child, n)
      ensures !ok ==> pt.Keys == old(pt.Keys) && Eager(View()) == old(Eager(View()))
      ensures !ok ==> |role| < |old(pt)| + n + |roles|
      ensures reached <= n && (ok ==> reached == n)
      ensures Marks(pt) ==
        ForkMarks(old(Marks(pt)), old(Eager(View())), parent, child, reached, if ok then n else 0)
    {
      hide Inv, Eager, Copied, Within, PathTables, Sharing, Covers, Range, Marks, ForkMarks;
      ghost var v := Eager(View());
      EagerKeys(View());
      SameSize(v, pt);
      NoCopies(v, parent, child);
      SharingNone(pt, parent, child);
      ghost var marks := Marks(pt);
      MarksBelow(pt);
      ForkMarksNone(marks, v, parent, child);
      reached := 0;
      var i := 0;
      while i < n
        invariant 0 <= i <= n && Valid() && |role| == old(|role|) && Within(View(), roles, {})
        invariant Copying(View(), v, parent, child, i) && Sharing(pt, parent, child, i) && reached == i
        invariant Marks(pt) == ForkMarks(marks, v, parent, child, i, i)
      {
        SubRange(child, 0, i, n);
        PathBelow(child, i, n, roles);
        ok := CopyOne(parent, child, i, v, roles, marks);
        reached := reached + 1;
        if !ok {
          return;
        }
        i := i + 1;
      }
      ok := true;
    }

    /** uvmcreate: an empty page table; false when there is no page for it. */
    method Uvmcreate(pid: Pid) returns (ok: bool)
      requires Valid() && pid !in roots
      modifies this`free, this`role, this`roots, frames, pgrc
      ensures Valid() && |role| == old(|role|) && Eager(View()) == old(Eager(View()))
      ensures ok <==> old(free) != []
      ensures roots.Keys == old(roots.Keys) + if ok then {pid} else {}
      ensures pt == old(pt) && TablesGrow(old(View()), View(), {Root(pid)}) && (!ok ==> View() == old(View()))
    {
      hide Inv, Unseen, ZeroTable, Eager;
      ghost var m := View();
      var q := Kalloc();
      if q < 0 {
        return false;
      }
      SameToSee(m, View());
      AddRootState(View(), pid, q);
      frames[q] := ZeroTable();
      role, roots := role[q := Root(pid)], roots[pid := q];
      return true;
    }

    /** One valid entry of freewalk's loop: free the child table, then clear the entry. */
    method FreeChild(page: nat, i: nat, ghost pid: Pid, ghost level: nat)
      requires Valid() && TreePage(View(), page, pid, level) && NoKeys(View(), pid) && level > 0
      requires i < NPTE && Entry(View(), page, i).v
      modifies this`free, this`role, frames, pgrc
      ensures Valid() && Unseen(old(View()), View()) && KeepsAbove(old(View()), View(), level)
      ensures TreePage(View(), page, pid, level) && role[page] == old(role[page])
      ensures forall j: nat :: j < NPTE ==>
        Entry(View(), page, j) == if j == i then ZERO else Entry(old(View()), page, j)
      ensures FreesOnly(old(View()), View(), pid)
      decreases level, 0
    {
      hide Inv, Unseen, KeepsAbove, EmptyTable, Junk, SetEntry, Entry, NoKeys, FreesOnly;
      ghost var m := View();
      ChildOf(m, page, i, pid, level);
      var child := frames[page].pte[i].ppn;
      ghost var m1 := Freewalk(child, pid, level - 1);
      UnlinkReady(m, m1, page, i, child, pid, level);
      frames[page] := SetEntry(frames[page], i, ZERO);
      role := role[child := Unused];
      UnlinkState(m, m1, View(), page, i, child, pid, level);
    }

    /** freewalk: free every table page below `page`, then `page` itself. The memory just before
        its own kfree is `m1`: all entries are clear. */
    method Freewalk(page: nat, ghost pid: Pid, ghost level: nat) returns (ghost m1: Mem)
      requires Valid() && TreePage(View(), page, pid, level) && NoKeys(View(), pid)
      modifies this`free, this`role, frames, pgrc
      ensures Unseen(old(View()), m1) && KeepsAbove(old(View()), m1, level)
      ensures EmptyTable(m1, page) && page < |m1.role| && m1.role[page] == old(role[page])
      ensures Shape(m1) && View() == RawFree(m1, page) && FreesOnly(old(View()), m1, pid)
      decreases level, 1
    {
      hide Inv, Unseen, KeepsAbove, EmptyTable, RawFree, Entry, NoKeys, FreesOnly;
      ghost var m := View();
      UnseenRefl(m);
      KeepsAboveRefl(m, level);
      FreesOnlyRefl(m, pid);
      var i := 0;
      while i < NPTE
        invariant 0 <= i <= NPTE && Valid() && Unseen(m, View()) && KeepsAbove(m, View(), level)
        invariant TreePage(View(), page, pid, level) && role[page] == old(role[page])
        invariant FreesOnly(m, View(), pid) && forall j: nat :: j < i ==> !Entry(View(), page, j).v
      {
        ghost var m0 := View();
        StillNoKeys(m, m0, pid);
        TreeEntry(m0, page, i, pid, level);
        var e := frames[page].pte[i];
        if e.v && !e.r && !e.w && !e.x {
          FreeChild(page, i, pid, level);
          UnseenTrans(m, m0, View());
          KeepsAboveTrans(m, m0, View(), level);
          FreesOnlyTrans(m, m0, View(), pid);
        } else {
          // the panic on a leaf entry is out of reach
          assert !e.v;
        }
        i := i + 1;
      }
      m1 := View();
      TableDone(m1, page, pid, level);
      FreeRaw(page);
    }

    /** kfree of a page that is counted once. */
    method FreeRaw(p: nat)
      requires Shape(View()) && p < |role| && pgrc[p] == 1
      modifies this`free, frames, pgrc
      ensures View() == RawFree(old(View()), p)
    {
      hide Junk;
      var freed := Kfree(p);
    }

    /** uvmfree: unmap everything, then free the table pages; the process has no page table left. */
    method Uvmfree(pid: Pid, n: nat)
      requires Valid() && pid in roots && Range(pid, 0, n) <= pt.Keys && NoKeysBeyond(View(), pid, n)
      modifies this`free, this`role, this`refs, this`pt, this`roots, frames, pgrc
      ensures Valid() && |role| == old(|role|) && roots == old(roots) - {pid}
      ensures pt == old(pt) - Range(pid, 0, n) && Eager(View()) == old(Eager(View())) - Range(pid, 0, n)
      ensures FreesOnly(old(View()), View(), pid)
    {
      hide Inv, Unseen, Eager, NoKeys, NoKeysBeyond, EmptyTable, Junk, KeepsAbove, FreesOnly;
      ghost var m0 := View();
      FreesOnlyRefl(m0, pid);
      if n > 0 {
        Uvmunmap(pid, 0, n);
      }
      ghost var m := View();
      AllGone(m0, m, pid, n);
      var root := roots[pid];
      RootIsTree(m, pid);
      ghost var m1 := Freewalk(root, pid, 2);
      DropRootReady(m, m1, pid);
      role, roots := role[root := Unused], roots - {pid};
      DropRootState(m, m1, View(), pid);
      FreesOnlyTrans(m0, m, View(), pid);
    }

    /** The copy made by usertrap and by copyout: a private page with the shared content.
        False when there is no free page; nothing has changed then. */
    method CopyPage(pid: Pid, vpn: Vpn, page: nat, e: Pte) returns (ok: bool)
      requires Valid() && vpn < MAXVPN && Key(pid, vpn) in pt && e == pt[Key(pid, vpn)] && e.c
      requires page == LowPage(View(), pid, vpn)
      modifies this`free, this`role, this`refs, this`pt, frames, pgrc
      ensures Valid() && (ok <==> old(free) != [])
      ensures !ok ==> View() == old(View())
      ensures ok ==> Private(old(View()), View(), Key(pid, vpn)) && e.ppn < |View().frames|
    {
      hide Inv, Unseen, Private, LowPage, SetEntry, Junk, Alloc, IsTable, SameTables;
      ghost var m, k := View(), Key(pid, vpn);
      var mem := Kalloc();
      if mem < 0 {
        return false;
      }
      CopySource(m, View(), k, mem);
      frames[mem] := frames[e.ppn];
      ghost var m2 := View();
      CopySlot(m, m2, k);
      MovePte(pid, vpn, page, e, mem);
      MovedPrivate(m, m2, k, mem);
      return true;
    }

    /** Point the entry to the copy and free the shared page. */
    method MovePte(pid: Pid, vpn: Vpn, page: nat, e: Pte, mem: nat)
      requires HasSlot(View(), Key(pid, vpn)) && page == LowPage(View(), pid, vpn) && Mapped(View(), Key(pid, vpn))
      requires e == pt[Key(pid, vpn)] && e.v && mem < |role| && pgrc[e.ppn] > 0
      modifies this`free, this`role, this`refs, this`pt, frames, pgrc
      ensures View() == Moved(old(View()), Key(pid, vpn), mem)
    {
      hide LowPage, SetEntry, Junk, HasSlot, IsTable;
      SlotShape(View(), Key(pid, vpn));
      ghost var k := Key(pid, vpn);
      SetPte(pid, vpn, page, e.(w := true, c := false, ppn := mem));
      var freed := Kfree(e.ppn);
      role := (if refs[e.ppn] == {k} then role[e.ppn := Unused] else role)[mem := User];
      refs := refs[e.ppn := refs[e.ppn] - {k}][mem := {k}];
    }

    /** The slot of a page number, without allocating, and its entry. */
    method Find(pid: Pid, vpn: Vpn) returns (page: int, e: Pte)
      requires Valid() && pid in roots && vpn < MAXVPN
      modifies this`free, this`role, frames, pgrc
      ensures View() == old(View()) && -1 <= page
      ensures page < 0 ==> Key(pid, vpn) !in pt && e == ZERO
      ensures page >= 0 ==> page == LowPage(View(), pid, vpn) && (Key(pid, vpn) in pt <==> e.v)
      ensures page >= 0 && e.v ==> e == pt[Key(pid, vpn)]
    {
      hide Inv, LowPage, Lookup, Unseen, KeepsKernel, HasSlot;
      page := Walk(pid, vpn, false);
      if page < 0 {
        NoSlotNoKey(View(), pid, vpn);
        return -1, ZERO;
      }
      AtSlot(View(), pid, vpn, page);
      EntryIs(View(), page, I0(vpn));
      e := frames[page].pte[I0(vpn)];
    }

    /** usertrap on a page fault (scause 13 or 15), up to the kill. */
    method Usertrap(pid: Pid, va: nat, sp: nat) returns (killed: bool, nomem: bool)
      requires Valid() && pid in roots && va < TOP && sp < TOP
      modifies this`free, this`role, this`refs, this`pt, frames, pgrc
      ensures Valid() && (killed <==> Fatal(old(View()), pid, va, sp))
      ensures nomem <==> Repairable(old(View()), pid, va, sp) && old(free) == []
      ensures killed ==> View() == old(View())
      ensures !killed ==> Private(old(View()), View(), Key(pid, va / PGSIZE))
    {
      hide Inv, Private, LowPage, NearStack;
      if va >= MAXVA || NearStack(va, sp) {
        return true, false;
      }
      var vpn := va / PGSIZE;
      var page, e := Find(pid, vpn);
      if page < 0 {
        return true, false;
      }
      if !e.v || !e.u {
        return true, false;
      }
      if !e.c {
        return true, false;
      }
      var ok := CopyPage(pid, vpn, page, e);
      killed, nomem := !ok, !ok;
    }

    /** The copy into the page of an entry. */
    method StoreBytes(pid: Pid, vpn: Vpn, p: nat, off: nat, bytes: seq<Byte>)
      requires Valid() && Key(pid, vpn) in pt && p == pt[Key(pid, vpn)].ppn && off + |bytes| <= PGSIZE
      modifies frames
      ensures Valid() && IsData(old(View()), p)
      ensures View() == Poke(old(View()), p, Overlay(old(frames[p]).data, off, bytes))
      ensures pt[Key(pid, vpn)].w ==>
        && Key(pid, vpn) in old(Eager(View())) && |old(Eager(View()))[Key(pid, vpn)].data| == PGSIZE
        && var pg := old(Eager(View()))[Key(pid, vpn)];
           Eager(View()) == old(Eager(View()))[Key(pid, vpn) := pg.(data := Overlay(pg.data, off, bytes))]
    {
      hide Inv, Eager, Overlay;
      ghost var m, k := View(), Key(pid, vpn);
      PageData(m, k);
      var data := Overlay(frames[p].data, off, bytes);
      frames[p] := Bytes(data);
      assert View() == Poke(m, p, data);
      AnyStoreInv(m, k, data);
      if pt[k].w {
        StoreState(m, k, data);
      }
    }

    /** A user store instruction with its fault handling; sp is the saved stack pointer. */
    method UserStore(pid: Pid, va: nat, sp: nat, b: Byte) returns (killed: bool, nomem: bool)
      requires Valid() && pid in roots && va < TOP && sp < TOP
      modifies this`free, this`role, this`refs, this`pt, frames, pgrc
      ensures Valid() && |role| == old(|role|) && pt.Keys == old(pt.Keys)
      ensures killed <==> Fatal(old(View()), pid, va, sp) && !DirectAt(old(View()), pid, va)
      ensures nomem <==> Repairable(old(View()), pid, va, sp) && !DirectAt(old(View()), pid, va) && old(free) == []
      ensures TablesGrow(old(View()), View(), {}) && (killed ==> View() == old(View()))
      ensures !killed ==> Marks(pt) == old(Marks(pt)) - {Key(pid, va / PGSIZE)}
      ensures killed ==> Eager(View()) == old(Eager(View()))
      ensures !killed ==> Reachable(old(Eager(View())), pid, va) && old(Eager(View()))[Key(pid, va / PGSIZE)].w
      ensures !killed ==> Eager(View()) == Written(old(Eager(View())), pid, va, [b])
    {
      hide Inv, Private, LowPage, Fatal, Repairable, Eager, Written, Overlay, TablesGrow, Marks;
      ghost var m := View();
      TablesGrowRefl(m, {});
      var vpn := va / PGSIZE;
      if va < MAXVA {
        var page, e := Find(pid, vpn);
        if page >= 0 && Direct(e) {
          StoreBytes(pid, vpn, e.ppn, va % PGSIZE, [b]);
          StoreSeen(m, m, pid, va, b);
          MarkedNotWritable(m, Key(pid, vpn));
          MarksDirect(m, Key(pid, vpn));
          SameRoles(m, m, View(), {});
          return false, false;
        }
      }
      killed, nomem := Usertrap(pid, va, sp);
      if !killed {
        ghost var m1 := View();
        NotFatal(m, pid, va, sp);
        PrivateFacts(m, m1, Key(pid, vpn));
        MarksPrivate(m, m1, Key(pid, vpn));
        var page, e := Find(pid, vpn);
        StoreBytes(pid, vpn, e.ppn, va % PGSIZE, [b]);
        StoreSeen(m, m1, pid, va, b);
        SameRoles(m, m1, View(), {});
      }
    }

    /** A user load instruction: only pages that are mapped for the user can be read. */
    method UserLoad(pid: Pid, va: nat, sp: nat) returns (killed: bool, b: Byte)
      requires Valid() && pid in roots && va < TOP && sp < TOP
      modifies this`free, this`role, this`refs, this`pt, frames, pgrc
      ensures View() == old(View())
      ensures killed <==> !Reachable(Eager(View()), pid, va)
      ensures !killed ==> b == ByteAt(Eager(View()), pid, va)
    {
      hide Inv, Eager, LowPage, Private;
      if va < MAXVA {
        var page, e := Find(pid, va / PGSIZE);
        if page >= 0 && e.v && e.u && e.r {
          PageData(View(), Key(pid, va / PGSIZE));
          IsReachable(View(), pid, va);
          return false, frames[e.ppn].data[va % PGSIZE];
        }
      }
      LoadFaults(View(), pid, va, sp);
      var nomem;
      killed, nomem := Usertrap(pid, va, sp);
      b := 0;
    }

    /** One round of copyout: resolve the page, copy it first when it is marked, then store.
        The code goes on after a failed kalloc; the model stops there with NoMemory. */
    method CopyoutPage(pid: Pid, va0: nat, off: nat, bytes: seq<Byte>) returns (r: CopyResult)
      requires Valid() && pid in roots && va0 % PGSIZE == 0 && off + |bytes| <= PGSIZE
      modifies this`free, this`role, this`refs, this`pt, frames, pgrc
      ensures Valid() && |role| == old(|role|) && pt.Keys == old(pt.Keys)
      ensures r == Fault ==> !Reachable(old(Eager(View())), pid, va0)
      ensures r == NoMemory ==> old(free) == [] && Reachable(old(Eager(View())), pid, va0)
      ensures r != Done ==> View() == old(View())
      ensures r == Done ==> Reachable(old(Eager(View())), pid, va0)
      ensures r == Done && !old(Eager(View()))[Key(pid, va0 / PGSIZE)].w ==>
        PokedAt(old(View()), View(), Key(pid, va0 / PGSIZE), off, bytes)
      ensures TablesGrow(old(View()), View(), {})
      ensures r == Done && old(Eager(View()))[Key(pid, va0 / PGSIZE)].w ==>
        var k := Key(pid, va0 / PGSIZE); var v := old(Eager(View()));
        Eager(View()) == v[k := v[k].(data := Overlay(v[k].data, off, bytes))]
      ensures r == NoMemory ==> Key(pid, va0 / PGSIZE) in old(Marks(pt))
      ensures r == Done ==> Marks(pt) == old(Marks(pt)) - {Key(pid, va0 / PGSIZE)}
    {
      hide Inv, Private, LowPage, Eager, Overlay, Reachable, TablesGrow, Marks;
      ghost var m := View();
      TablesGrowRefl(m, {});
      if va0 >= MAXVA {
        NotReachable(m, pid, va0);
        return Fault;
      }
      var vpn := va0 / PGSIZE;
      var page, e := Find(pid, vpn);
      if page < 0 || !e.v || !e.u {
        NotReachable(m, pid, va0);
        return Fault;
      }
      IsReachable(m, pid, va0);
      if e.c {
        IsMarked(m.pt, Key(pid, vpn));
        var ok := CopyPage(pid, vpn, page, e);
        if !ok {
          return NoMemory;
        }
        PrivateFacts(m, View(), Key(pid, vpn));
        MarksPrivate(m, View(), Key(pid, vpn));
        page, e := Find(pid, vpn);
      } else {
        MarksDirect(m, Key(pid, vpn));
      }
      PageData(View(), Key(pid, vpn));
      PageData(m, Key(pid, vpn));
      ghost var m1 := View();
      StoreBytes(pid, vpn, e.ppn, off, bytes);
      SameRoles(m, m1, View(), {});
      return Done;
    }

    /** copyout(pagetable, dstva, src, len): `done` bytes have arrived. */
    method Copyout(pid: Pid, dst: nat, src: seq<Byte>, ghost roles: set<Role>) returns (r: CopyResult, done: nat)
      requires Valid() && pid in roots && dst < TOP && Within(View(), roles, {})
      modifies this`free, this`role, this`refs, this`pt, frames, pgrc
      ensures Valid() && |role| == old(|role|) && pt.Keys == old(pt.Keys)
      ensures done <= |src| && (r == Done <==> done == |src|)
      ensures Within(View(), roles, {}) && (r == NoMemory ==> |role| <= |old(pt)| + |roles|)
      ensures Marks(pt) == Cleared(old(Marks(pt)), pid, dst, done)
      ensures r == NoMemory ==> Key(pid, (dst + done) / PGSIZE) in old(Marks(pt))
      ensures WritableRange(old(Eager(View())), pid, dst, |src|) ==>
        CopyoutDone(old(Eager(View())), Eager(View()), pid, dst, src, r, done)
    {
      hide Inv, Eager, Overlay, Written, WritableRange, ReachableRange, Reachable, TablesGrow, Within, Marks, Cleared,
        RoundDown, PokedAt;
      ghost var v := Eager(View());
      ghost var good := WritableRange(v, pid, dst, |src|);
      EagerLen(View());
      NothingWritten(v, pid, dst);
      assert src[..0] == [];
      NothingReached(v, pid, dst);
      ghost var marks := Marks(pt);
      NothingCleared(marks, pid, dst);
      var dstva := dst;
      done := 0;
      while done < |src|
        invariant Valid() && |role| == old(|role|) && pt.Keys == old(pt.Keys) && done <= |src|
        invariant Within(View(), roles, {})
        invariant done < |src| ==> dstva == dst + done && (done > 0 ==> dstva == RoundDown(dstva))
        invariant Marks(pt) == Cleared(marks, pid, dst, done)
        invariant good ==> Eager(View()) == Written(v, pid, dst, src[..done]) && ReachableRange(v, pid, dst, done)
      {
        var va0 := RoundDown(dstva);
        var n := PGSIZE - (dstva - va0);
        if n > |src| - done {
          n := |src| - done;
        }
        RoundBounds(dst, done, |src|, va0, n);
        ghost var w, m := Eager(View()), View();
        r := CopyoutPage(pid, va0, dstva - va0, src[done..done + n]);
        WithinGrow(m, View(), {}, roles, {});
        ClearedMore(marks, pid, dst, done, |src|, va0, n);
        if r != Done {
          if r == NoMemory {
            NoRoom(m, roles, {});
            SameKeys(m.pt, old(pt));
          }
          if good {
            CopyoutStopped(v, w, pid, dst, src, done);
          }
          return;
        }
        if good {
          CopyoutStep(v, pid, dst, src, done, n, va0 / PGSIZE, dstva - va0);
        }
        done := done + n;
        dstva := va0 + PGSIZE;
      }
      assert src[..|src|] == src;
      r := Done;
    }

    /** copyin(pagetable, dst, srcva, len): the bytes that arrived. */
    method Copyin(pid: Pid, src: nat, len: nat) returns (ok: bool, bytes: seq<Byte>)
      requires Valid() && pid in roots && src < TOP
      modifies this`free, this`role, frames, pgrc
      ensures View() == old(View()) && |bytes| <= len && (ok <==> |bytes| == len)
      ensures Reads(Eager(View()), pid, src, bytes) && (!ok ==> !Reachable(Eager(View()), pid, src + |bytes|))
    {
      hide Inv, Eager, Reachable, LowPage, ReadsAt;
      ghost var m := View();
      bytes := [];
      var srcva := src;
      while |bytes| < len
        invariant View() == m && |bytes| <= len && (|bytes| < len ==> srcva == src + |bytes|)
        invariant Reads(Eager(m), pid, src, bytes)
      {
        var va0 := RoundDown(srcva);
        if va0 >= MAXVA {
          NotReachable(m, pid, srcva);
          return false, bytes;
        }
        var page, e := Find(pid, va0 / PGSIZE);
        if page < 0 || !e.v || !e.u {
          NotReachable(m, pid, srcva);
          return false, bytes;
        }
        var n := PGSIZE - (srcva - va0);
        if n > len - |bytes| {
          n := len - |bytes|;
        }
        PageData(m, Key(pid, va0 / PGSIZE));
        var chunk := frames[e.ppn].data[srcva - va0..srcva - va0 + n];
        PageBytes(m, pid, srcva, n);
        ReadsMore(Eager(m), pid, src, bytes, chunk);
        bytes := bytes + chunk;
        srcva := va0 + PGSIZE;
      }
      ok := true;
    }
  }
}
