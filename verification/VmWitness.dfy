/** Runs that show where copy-on-write memory and private memory part: two processes after a fork,
    each with a page of code and stack that was writable and a read-only page. */
module VmWitness {
  import opened VmModel
  import opened CowSpec
  import opened VmSteps
  import opened VmBudget
  import opened EagerSpec
  import opened VmCode
  import opened VmProcs

  /** Processes 1 and 2 share a marked page 0 and a read-only page 1, and memory is left. */
  ghost predicate ForkedPair(m: Mem) {
    && Inv(m) && m.free != [] && 1 in m.roots && 2 in m.roots && Sharing(m.pt, 1, 2, 2)
    && m.pt[Key(1, 0)].u && m.pt[Key(1, 0)].c && m.pt[Key(1, 1)].u && !m.pt[Key(1, 1)].c
    && Key(1, 1) in Eager(m) && Eager(m)[Key(1, 1)].data == Zeros()
  }

  /** Two processes of n pages each, below 512, need three tables each. */
  lemma FewTables(n: nat)
    requires 1 <= n <= 512
    ensures |AllTables(map[1 := n])| == 3 && |AllTables(map[1 := n, 2 := n])| == 6
  {
    hide TablesOf, AllTables;
    NobodyNoTables();
    AllTablesAdd(map[], 1, n);
    assert map[][1 := n] == map[1 := n];
    AllTablesAdd(map[1 := n], 2, n);
    assert map[1 := n][2 := n] == map[1 := n, 2 := n];
    TablesCount(1, n);
    TablesCount(2, n);
  }

  lemma NobodyNoTables()
    ensures AllTables(map[]) == {}
  {
  }

  /** What the first process sees once exec has given it a read-only page. */
  ghost predicate Loaded(u: Users, code: seq<Byte>) {
    && u.sz == map[1 := 2 * PGSIZE] && u.peak == map[1 := 2] && u.marked == {} && |code| == PGSIZE
    && u.pages == map[Key(1, 0) := UPage(code, true, true, true), Key(1, 1) := UPage(Zeros(), false, true, true)]
  }

  lemma LoadedPages(v: map<Key, UPage>, code: seq<Byte>)
    requires v == map[Key(1, 0) := UPage(code, true, true, true)] && |code| == PGSIZE
    ensures var v' := GrownPages(v, 1, PGSIZE, 2 * PGSIZE, false, true);
      |v'| == 2 && Loaded(Users(v', map[1 := 2 * PGSIZE], map[1 := 2], {}), code)
  {
    hide Zeros;
    var v' := GrownPages(v, 1, PGSIZE, 2 * PGSIZE, false, true);
    assert Pages(PGSIZE) == 1 && Pages(2 * PGSIZE) == 2;
    assert Range(1, 1, 1) == {Key(1, 1)};
    assert v' == map[Key(1, 0) := UPage(code, true, true, true), Key(1, 1) := UPage(Zeros(), false, true, true)];
    assert v'.Keys == {Key(1, 0), Key(1, 1)};
    assert |v'| == |v'.Keys|;
  }

  lemma LoadedFacts(u: Users, code: seq<Byte>)
    requires Loaded(u, code)
    ensures |u.pages| == 2 && u.sz.Keys == {1} && Pages(u.sz[1]) == 2 && u.peak == map[1 := 2]
    ensures Range(1, 0, 2) <= u.pages.Keys && Range(2, 0, 2) !! u.pages.Keys
    ensures Key(1, 0) in u.pages && u.pages[Key(1, 0)] == UPage(code, true, true, true)
    ensures Key(1, 1) in u.pages && u.pages[Key(1, 1)] == UPage(Zeros(), false, true, true)
  {
    hide Zeros;
    assert u.pages.Keys == {Key(1, 0), Key(1, 1)} && |u.pages| == |u.pages.Keys|;
  }

  lemma CopiedKeeps(v: map<Key, UPage>, parent: Pid, child: Pid, n: nat, k: Key)
    requires k in v && k.pid != child
    ensures k in Copied(v, parent, child, n) && Copied(v, parent, child, n)[k] == v[k]
  {
  }

  /** What fork leaves of the two pages. */
  lemma LoadedForked(m: Mem, u: Users, code: seq<Byte>)
    requires Loaded(u, code) && Inv(m) && Eager(m) == Copied(u.pages, 1, 2, 2) && Sharing(m.pt, 1, 2, 2)
    ensures m.pt[Key(1, 0)].u && m.pt[Key(1, 0)].c && m.pt[Key(1, 1)].u && !m.pt[Key(1, 1)].c
    ensures |m.pt| == 4 && Key(1, 1) in Eager(m) && Eager(m)[Key(1, 1)].data == Zeros()
  {
    hide Inv, Eager, Zeros, Loaded, Copied;
    LoadedFacts(u, code);
    CopiedKeeps(u.pages, 1, 2, 2, Key(1, 0));
    CopiedKeeps(u.pages, 1, 2, 2, Key(1, 1));
    PageData(m, Key(1, 0));
    PageData(m, Key(1, 1));
    CopiedSize(u.pages, 1, 2, 2);
    EagerKeys(m);
    SameSize(Eager(m), m.pt);
  }

  lemma ForkedNeed(u: Users, code: seq<Byte>)
    requires Loaded(u, code)
    ensures Need(After(u, Fork(1, 2), Ok)) == 10
    ensures After(u, Fork(1, 2), Ok).pages == Copied(u.pages, 1, 2, 2)
    ensures After(u, Fork(1, 2), Ok).sz == u.sz[2 := u.sz[1]]
    ensures After(u, Fork(1, 2), Ok).peak == map[1 := 2, 2 := 2]
  {
    hide Zeros, AllTables, Loaded, Copied, After, Pages;
    LoadedFacts(u, code);
    AfterFork(u, 1, 2, 0);
    CopiedSize(u.pages, 1, 2, 2);
    FewTables(2);
    assert u.peak[2 := 2] == map[1 := 2, 2 := 2];
  }

  lemma FirstCode(v: map<Key, UPage>, code: seq<Byte>)
    requires code == [] && v == map[][Key(1, 0) := UPage(code + Zeros()[|code|..], true, true, true)]
    ensures v == map[Key(1, 0) := UPage(Zeros(), true, true, true)]
  {
    assert code + Zeros()[0..] == Zeros();
  }

  /** Boot, and load a read-only page as exec does. */
  method MakeLoaded(npages: nat) returns (mc: Machine)
    requires npages > 10
    ensures fresh(mc) && fresh(mc.mem) && fresh(mc.mem.frames) && fresh(mc.mem.pgrc)
    ensures mc.Valid() && |mc.mem.role| == npages && Loaded(mc.Seen(), Zeros())
  {
    hide Inv, Eager, Sized, Budgeted, AllTables, Zeros, GrownPages, Loaded;
    mc := new Machine(npages);
    FewTables(1);
    FewTables(2);
    assert map[][1 := 1] == map[1 := 1] && map[][1 := PGSIZE] == map[1 := PGSIZE];
    var ok := mc.Userinit(1, []);
    assert ok;
    FirstCode(mc.Seen().pages, []);
    ZerosLen();
    LoadedPages(mc.Seen().pages, Zeros());
    assert Asked(map[1 := 1], 1, Pages(2 * PGSIZE)) == map[1 := 2];
    assert map[1 := PGSIZE][1 := 2 * PGSIZE] == map[1 := 2 * PGSIZE];
    var reached;
    ok, reached := mc.Grow(1, 2 * PGSIZE, false, true);
    assert ok;
  }

  /** Then fork. */
  method MakePair(npages: nat) returns (mc: Machine)
    requires npages > 10
    ensures fresh(mc) && fresh(mc.mem) && fresh(mc.mem.frames) && fresh(mc.mem.pgrc)
    ensures mc.Valid() && |mc.mem.role| == npages && ForkedPair(mc.mem.View())
  {
    hide Inv, Eager, Sized, Budgeted, AllTables, Zeros, Sharing, After, Copied, Need, Loaded, Pages, Within;
    mc := MakeLoaded(npages);
    ghost var u := mc.Seen();
    ForkedNeed(u, Zeros());
    LoadedFacts(u, Zeros());
    var ok, reached := mc.ForkProc(1, 2);
    assert ok;
    LoadedForked(mc.mem.View(), u, Zeros());
    BudgetedFacts(mc.mem.View(), mc.sz, mc.peak);
    FewTables(2);
    PairLeft(mc.mem.View(), AllTables(mc.peak));
    HasRoot(mc.mem.View(), mc.sz, 1);
    HasRoot(mc.mem.View(), mc.sz, 2);
  }

  lemma PairLeft(m: Mem, roles: set<Role>)
    requires Inv(m) && Within(m, roles, {}) && |m.pt| == 4 && |roles| == 6 && |m.role| > 10
    ensures m.free != []
  {
    if m.free == [] {
      NoRoom(m, roles, {});
    }
  }

  /** The stack pointer stands at the end of page 0, as userinit leaves it. A store to that page, which the
      process may write and could write before it forked, gets it killed, with memory to spare. */
  method StackStoreKilled(npages: nat) returns (mc: Machine, killed: bool)
    requires npages > 10
    ensures mc.Valid() && mc.mem.free != [] && MayStore(mc.Seen(), 1, 0) && killed
  {
    hide Inv, Eager, Sized, Budgeted, Zeros, Marks, TablesGrow, Written;
    mc := MakePair(npages);
    ghost var m := mc.mem.View();
    PageData(m, Key(1, 0));
    IsReachable(m, 1, 0);
    var nomem;
    killed, nomem := mc.mem.UserStore(1, 0, PGSIZE, 7);
  }

  /** A store through one of two keys of a page is seen through the other. */
  lemma SharedStore(m: Mem, m': Mem, k: Key, j: Key, off: nat, bytes: seq<Byte>)
    requires Inv(m) && PokedAt(m, m', k, off, bytes) && j in m.pt && m.pt[j].ppn == m.pt[k].ppn
    ensures j in Eager(m) && j in Eager(m') && |Eager(m)[j].data| == PGSIZE
    ensures Eager(m')[j].data == Overlay(Eager(m)[j].data, off, bytes)
  {
    hide AllocOk, TreesOk, PtOk, CowOk;
    PageData(m, j);
  }

  /** copyout to the read-only page of the child changes a byte of the parent. */
  method CopyoutReachesParent(npages: nat) returns (mc: Machine, ghost before: map<Key, UPage>)
    requires npages > 10
    ensures Key(1, 1) in before && |before[Key(1, 1)].data| == PGSIZE && before[Key(1, 1)].data[0] == 0
    ensures Key(1, 1) in mc.Seen().pages && |mc.Seen().pages[Key(1, 1)].data| == PGSIZE
    ensures mc.Seen().pages[Key(1, 1)].data[0] == 7
  {
    hide Inv, Eager, Sized, Budgeted, Marks, TablesGrow;
    mc := MakePair(npages);
    ghost var m := mc.mem.View();
    before := Eager(m);
    PageData(m, Key(2, 1));
    IsReachable(m, 2, PGSIZE);
    var r := mc.mem.CopyoutPage(2, PGSIZE, 0, [7]);
    assert r == Done;
    SharedStore(m, mc.mem.View(), Key(2, 1), Key(1, 1), 0, [7]);
  }
}
