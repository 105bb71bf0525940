/** The pure half of VmCode: what each stretch of kernel code does to a memory value. */
module VmSteps {
  import opened VmModel
  import opened VmTree
  import opened VmOps
  import opened CowSpec

  /** A change that no user program can see and that maps nothing. */
  ghost predicate Unseen(m: Mem, m': Mem) {
    Inv(m) && Inv(m') && Eager(m') == Eager(m) && m'.pt == m.pt && m'.roots == m.roots && |m'.role| == |m.role|
  }

  /** Pages in kernel hands keep their owner and their content. */
  ghost predicate KeepsKernel(m: Mem, m': Mem) {
    |m.role| == |m'.role| == |m.frames| == |m'.frames| &&
    forall p :: 0 <= p < |m.role| && m.role[p] == Kernel ==> m'.role[p] == Kernel && m'.frames[p] == m.frames[p]
  }

  /** Pages that change hands become free, user pages, or table pages with one of these roles. */
  ghost predicate TablesGrow(m: Mem, m': Mem, roles: set<Role>) {
    |m'.role| == |m.role| && forall p :: 0 <= p < |m.role| ==>
      || m'.role[p] == m.role[p] || m'.role[p] == Unused || m'.role[p] == User
      || (InTree(m'.role[p]) && m'.role[p] in roles)
  }

  /** The tables between the root and the entry of a page number. */
  function PathTables(pid: Pid, vpn: Vpn): (roles: set<Role>) {
    {Mid(pid, I2(vpn)), Low(pid, I2(vpn), I1(vpn))}
  }

  /** No page is free, and some table of these is missing. */
  ghost predicate Full(m: Mem, roles: set<Role>) {
    m.free == [] && exists r :: r in roles && forall p :: 0 <= p < |m.role| ==> m.role[p] != r
  }

  lemma TablesGrowTrans(m: Mem, m1: Mem, m2: Mem, roles: set<Role>)
    requires TablesGrow(m, m1, roles) && TablesGrow(m1, m2, roles)
    ensures TablesGrow(m, m2, roles)
  {
  }

  lemma TablesGrowMore(m: Mem, m': Mem, roles: set<Role>, roles': set<Role>)
    requires TablesGrow(m, m', roles) && roles <= roles'
    ensures TablesGrow(m, m', roles')
  {
  }

  lemma TablesGrowFrees(m: Mem, m': Mem, pid: Pid, roles: set<Role>)
    requires FreesOnly(m, m', pid)
    ensures TablesGrow(m, m', roles)
  {
  }

  lemma TablesGrowTaken(m: Mem, m1: Mem, m2: Mem, q: nat, roles: set<Role>)
    requires q < |m.role| && m1.role == m.role[q := Kernel] && TablesGrow(m1, m2, roles) && m2.role[q] != Kernel
    ensures TablesGrow(m, m2, roles)
  {
  }

  lemma TablesGrowRelease(m: Mem, m1: Mem, m2: Mem, m3: Mem, q: nat, roles: set<Role>)
    requires q < |m.role| && m1.role == m.role[q := Kernel] && TablesGrow(m1, m2, roles) && q < |m2.role|
    requires m3.role == m2.role[q := Unused]
    ensures TablesGrow(m, m3, roles)
  {
  }

  lemma TablesGrowRefl(m: Mem, roles: set<Role>)
    ensures TablesGrow(m, m, roles)
  {
  }

  /** Where walk() stops for want of a page, a table of the path is missing. */
  lemma MissingTable(m: Mem, pid: Pid, vpn: Vpn, level: nat, page: nat)
    requires Inv(m) && vpn < MAXVPN && 1 <= level <= 2 && At(m, pid, vpn, level, page)
    requires !Entry(m, page, Px(level, vpn)).v && m.free == []
    ensures Full(m, PathTables(pid, vpn))
  {
    var r := if level == 2 then Mid(pid, I2(vpn)) else Low(pid, I2(vpn), I1(vpn));
    forall p | 0 <= p < |m.role| ensures m.role[p] != r {
      assert MidOk(m, p) && LowOk(m, p);
    }
    assert r in PathTables(pid, vpn);
  }

  lemma LinkGrows(m: Mem, pid: Pid, vpn: Vpn, level: nat, page: nat)
    requires Inv(m) && m.free != [] && m.free[0] < |m.role| && 1 <= level <= 2 && At(m, pid, vpn, level, page)
    requires m.free[0] != page && Px(level, vpn) < NPTE && CanLink(Alloc(m), page, Px(level, vpn), m.free[0])
    ensures TablesGrow(m, Link(Alloc(m), page, Px(level, vpn), m.free[0]), PathTables(pid, vpn))
  {
  }

  lemma KeepsKernelRefl(m: Mem)
    requires Inv(m)
    ensures KeepsKernel(m, m)
  {
  }

  lemma AtTable(m: Mem, pid: Pid, vpn: Vpn, level: nat, page: nat)
    requires At(m, pid, vpn, level, page)
    ensures IsTable(m, page)
  {
  }

  lemma KeepsKernelTrans(m: Mem, m1: Mem, m2: Mem)
    requires KeepsKernel(m, m1) && KeepsKernel(m1, m2)
    ensures KeepsKernel(m, m2)
  {
  }

  lemma AllocLinkKeeps(m: Mem, page: nat, i: nat)
    requires Inv(m) && m.free != [] && m.free[0] < |m.role| && CanLink(Alloc(m), page, i, m.free[0])
    ensures KeepsKernel(m, Link(Alloc(m), page, i, m.free[0]))
  {
  }

  lemma UnseenTrans(m: Mem, m1: Mem, m2: Mem)
    requires Unseen(m, m1) && Unseen(m1, m2)
    ensures Unseen(m, m2)
  {
  }

  lemma UnseenRefl(m: Mem)
    requires Inv(m)
    ensures Unseen(m, m)
  {
  }

  lemma AllocUnseen(m: Mem)
    requires Inv(m) && m.free != []
    ensures m.free[0] < |m.role| && Unseen(m, Alloc(m)) && Alloc(m).role[m.free[0]] == Kernel
    ensures IsData(Alloc(m), m.free[0])
  {
    AllocInv(m);
    AllocEager(m);
  }

  lemma LinkUnseen(m: Mem, page: nat, i: nat, q: nat)
    requires Inv(m) && CanLink(m, page, i, q)
    ensures Unseen(m, Link(m, page, i, q))
  {
    LinkInv(m, page, i, q);
    LinkEager(m, page, i, q);
  }

  /** Where a walk stands after `2 - level` levels. */
  ghost predicate At(m: Mem, pid: Pid, vpn: Vpn, level: nat, page: nat) {
    && Shape(m) && pid in m.roots && page < |m.role| && IsTable(m, page)
    && (level == 2 ==> page == m.roots[pid] && m.role[page] == Root(pid))
    && (level == 1 ==> m.role[page] == Mid(pid, I2(vpn)) && Entry(m, m.roots[pid], I2(vpn)) == Ptr(page))
    && (level == 0 ==> page == LowPage(m, pid, vpn))
  }

  function Px(level: nat, vpn: Vpn): (i: nat) {
    if level == 2 then I2(vpn) else if level == 1 then I1(vpn) else I0(vpn)
  }

  lemma AtRoot(m: Mem, pid: Pid, vpn: Vpn)
    requires Inv(m) && pid in m.roots
    ensures At(m, pid, vpn, 2, m.roots[pid])
  {
    assert RootOk(m, m.roots[pid]);
  }

  /** Following a valid entry goes one level down. */
  lemma AtNext(m: Mem, pid: Pid, vpn: Vpn, level: nat, page: nat)
    requires Inv(m) && vpn < MAXVPN && 1 <= level <= 2 && At(m, pid, vpn, level, page)
    requires Entry(m, page, Px(level, vpn)).v
    ensures Px(level, vpn) < NPTE && At(m, pid, vpn, level - 1, Entry(m, page, Px(level, vpn)).ppn)
  {
    IndexSplit(vpn);
    var e := Entry(m, page, Px(level, vpn));
    assert DownOk(m, page, Px(level, vpn));
    assert MidOk(m, e.ppn) && LowOk(m, e.ppn);
  }

  /** Linking a fresh table where the walk stands lets it go one level down. */
  lemma AtLinked(m: Mem, pid: Pid, vpn: Vpn, level: nat, page: nat, q: nat)
    requires Inv(m) && vpn < MAXVPN && 1 <= level <= 2 && At(m, pid, vpn, level, page)
    requires q < |m.role| && m.role[q] == Kernel && !Entry(m, page, Px(level, vpn)).v
    ensures Px(level, vpn) < NPTE && CanLink(m, page, Px(level, vpn), q)
    ensures Unseen(m, Link(m, page, Px(level, vpn), q))
    ensures At(Link(m, page, Px(level, vpn), q), pid, vpn, level - 1, q)
  {
    IndexSplit(vpn);
    var i := Px(level, vpn);
    LinkUnseen(m, page, i, q);
    LinkEntry(m, page, i, q, page, i);
    if level == 1 {
      LinkEntry(m, page, i, q, m.roots[pid], I2(vpn));
    }
  }

  /** A walk that finds an invalid entry has no slot. */
  lemma AtMissing(m: Mem, pid: Pid, vpn: Vpn, level: nat, page: nat)
    requires 1 <= level <= 2 && At(m, pid, vpn, level, page) && !Entry(m, page, Px(level, vpn)).v
    ensures LowPage(m, pid, vpn) < 0
  {
  }

  lemma AtSlot(m: Mem, pid: Pid, vpn: Vpn, page: nat)
    requires Inv(m) && vpn < MAXVPN && At(m, pid, vpn, 0, page)
    ensures HasSlot(m, Key(pid, vpn)) && page == LowPage(m, pid, vpn) && Entry(m, page, I0(vpn)) == Lookup(m, pid, vpn)
    ensures Key(pid, vpn) in m.pt <==> Entry(m, page, I0(vpn)).v
    ensures Key(pid, vpn) in m.pt ==> m.pt[Key(pid, vpn)] == Entry(m, page, I0(vpn))
  {
  }

  /** The parent's entry after fork has taken write permission away: nothing to see yet. */
  ghost predicate Protected(m: Mem, m': Mem, k: Key) {
    && Inv(m) && Inv(m') && k in m.pt && m'.pt == m.pt[k := Marked(m.pt[k])] && Eager(m') == Eager(m)
    && m'.roots == m.roots && m'.role == m.role && NoWriter(m', m.pt[k].ppn)
  }

  lemma ProtectState(m: Mem, m': Mem, k: Key)
    requires Inv(m) && k in m.pt && HasSlot(m, k)
    requires m' == if m.pt[k].w then SetLeaf(m, k, Marked(m.pt[k])) else m
    ensures Inv(m') && Protected(m, m', k)
  {
    hide Inv, Eager, LowPage, SetEntry;
    MappedHasSlot(m, k);
    ProtectInv(m, k);
    ProtectEager(m, k);
    if !m.pt[k].w {
      AlreadyProtected(m, k);
      assert m.pt == m.pt[k := Marked(m.pt[k])];
    }
  }

  lemma AlreadyProtected(m: Mem, k: Key)
    requires Inv(m) && k in m.pt && !m.pt[k].w
    ensures NoWriter(m, m.pt[k].ppn)
  {
    hide TreesOk, PtOk, AllocOk;
    forall j | j in m.pt && m.pt[j].ppn == m.pt[k].ppn ensures !m.pt[j].w {
      assert k in m.refs[m.pt[k].ppn];
    }
  }

  lemma ProtectedFacts(m: Mem, m1: Mem, k: Key)
    requires Protected(m, m1, k)
    ensures Inv(m1) && k in m1.pt && m1.pt.Keys == m.pt.Keys && m1.roots == m.roots && k.vpn < MAXVPN
    ensures k in m.pt && m1.pt == m.pt[k := Marked(m.pt[k])]
  {
    MappedHasSlot(m, k);
  }

  lemma SharedFacts(m: Mem, m1: Mem, m2: Mem, k: Key)
    requires Protected(m, m1, k) && Unseen(m1, m2)
    ensures Inv(m2) && Shape(m2) && m2.pt == m1.pt && k in m1.pt && m2.roots == m.roots
    ensures m2.pt.Keys == m.pt.Keys && Eager(m2) == Eager(m) && |m2.role| == |m.role|
    ensures m1.pt[k].v && m1.pt[k].ppn < |m2.role| && m2.pgrc[m1.pt[k].ppn] >= 0
  {
    hide TreesOk, PtOk, AllocOk, RefsOk, CowOk, Eager, NoWriter;
    MappedHasSlot(m2, k);
  }

  lemma ShareState(m: Mem, m1: Mem, m2: Mem, m': Mem, k: Key, j: Key)
    requires Protected(m, m1, k) && Unseen(m1, m2) && k in m2.pt && j !in m2.pt && HasSlot(m2, j)
    requires m2.pt[k].ppn < |m2.role| && m' == Share(m2, j, m2.pt[k])
    ensures Inv(m') && k in Eager(m) && Added(m, m', j, Eager(m)[k])
  {
    hide Inv, LowPage, SetEntry, NoWriter;
    UnseenInv(m1, m2);
    MappedHasSlot(m2, k);
    SameNoWriter(m1, m2, m.pt[k].ppn);
    ShareInv(m2, j, m2.pt[k]);
    ShareEager(m2, j, m2.pt[k]);
    assert Eager(m2)[k] == UPage(m2.frames[m2.pt[k].ppn].data, m2.pt[k].w || m2.pt[k].c, m2.pt[k].x, m2.pt[k].u);
  }

  lemma SameNoWriter(m1: Mem, m2: Mem, p: nat)
    requires m1.pt == m2.pt && NoWriter(m1, p)
    ensures NoWriter(m2, p)
  {
  }

  lemma EagerKeys(m: Mem)
    ensures Eager(m).Keys == m.pt.Keys
  {
  }

  lemma NoZeros(v: map<Key, UPage>, keys: set<Key>, pid: Pid, from: Vpn, w: bool, x: bool)
    ensures AddZeros(v, pid, from, 0, w, x) == v && keys + Range(pid, from, 0) == keys
  {
  }

  /** No page of the range is mapped. */
  ghost predicate FreshRange(keys: set<Key>, pid: Pid, from: Vpn, n: nat) {
    Range(pid, from, n) !! keys
  }

  lemma SubFresh(keys: set<Key>, pid: Pid, from: Vpn, n: nat, n': nat)
    requires FreshRange(keys, pid, from, n') && n <= n'
    ensures FreshRange(keys, pid, from, n)
  {
    SubRange(pid, from, n, n');
  }

  lemma NextIsFree(m: Mem, v: map<Key, UPage>, pid: Pid, from: Vpn, n: nat, w: bool, x: bool)
    requires Growing(m, v, pid, from, n, w, x) && FreshRange(v.Keys, pid, from, n + 1)
    ensures Key(pid, from + n) !in m.pt && FreshRange(v.Keys, pid, from, n) && |m.pt| == |v| + n
  {
    hide Eager, AddZeros;
    RangeStep(pid, from, n);
    GrowingSize(m, v, pid, from, n, w, x);
  }

  /** `n` zeroed pages have been added to the view `v`. */
  ghost predicate Growing(m: Mem, v: map<Key, UPage>, pid: Pid, from: Vpn, n: nat, w: bool, x: bool) {
    m.pt.Keys == v.Keys + Range(pid, from, n) && Eager(m) == AddZeros(v, pid, from, n, w, x)
  }

  lemma GrowingStart(m: Mem, v: map<Key, UPage>, pid: Pid, from: Vpn, w: bool, x: bool)
    requires v == Eager(m)
    ensures Growing(m, v, pid, from, 0, w, x)
  {
    hide Eager, AddZeros;
    EagerKeys(m);
    NoZeros(v, v.Keys, pid, from, w, x);
  }

  lemma GrowingEnd(m: Mem, v: map<Key, UPage>, pid: Pid, from: Vpn, n: nat, w: bool, x: bool)
    requires Growing(m, v, pid, from, n, w, x)
    ensures m.pt.Keys == v.Keys + Range(pid, from, n) && Eager(m) == AddZeros(v, pid, from, n, w, x)
  {
    hide Eager, AddZeros;
  }

  lemma SubRange(pid: Pid, from: Vpn, n: nat, n': nat)
    requires n <= n'
    ensures Range(pid, from, n) <= Range(pid, from, n')
  {
  }

  lemma GrowingSeen(m: Mem, m': Mem, v: map<Key, UPage>, pid: Pid, from: Vpn, n: nat, w: bool, x: bool)
    requires Growing(m, v, pid, from, n, w, x) && m'.pt.Keys == m.pt.Keys && Eager(m') == Eager(m)
    ensures Growing(m', v, pid, from, n, w, x)
  {
    hide Eager, AddZeros;
  }

  /** Removing the range again. */
  lemma GrowingUndone(m: Mem, m': Mem, v: map<Key, UPage>, pid: Pid, from: Vpn, n: nat, w: bool, x: bool)
    requires Growing(m, v, pid, from, n, w, x) && FreshRange(v.Keys, pid, from, n)
    requires m'.pt.Keys == m.pt.Keys - Range(pid, from, n) && Eager(m') == Eager(m) - Range(pid, from, n)
    ensures m'.pt.Keys == v.Keys && Eager(m') == v
  {
    hide Eager, AddZeros;
    RemoveZeros(v, v.Keys, pid, from, n, w, x);
  }

  lemma OneMoreZero(m: Mem, m': Mem, v: map<Key, UPage>, pid: Pid, from: Vpn, n: nat, w: bool, x: bool)
    requires Added(m, m', Key(pid, from + n), UPage(Zeros(), w, x, true)) && Growing(m, v, pid, from, n, w, x)
    ensures Inv(m') && m'.roots == m.roots && |m'.role| == |m.role| && Growing(m', v, pid, from, n + 1, w, x)
  {
    hide Inv, Zeros, Eager;
    RangeStep(pid, from, n);
    AddZerosStep(v, pid, from, n, w, x);
  }

  lemma AddZerosStep(v: map<Key, UPage>, pid: Pid, from: Vpn, n: nat, w: bool, x: bool)
    ensures AddZeros(v, pid, from, n + 1, w, x) ==
      AddZeros(v, pid, from, n, w, x)[Key(pid, from + n) := UPage(Zeros(), w, x, true)]
  {
    hide Zeros;
    RangeStep(pid, from, n);
  }

  function Zeros(): (d: seq<Byte>) {
    seq(PGSIZE, _ => 0)
  }

  ghost function AddZeros(v: map<Key, UPage>, pid: Pid, from: Vpn, n: nat, w: bool, x: bool): (r: map<Key, UPage>) {
    v + map k | k in Range(pid, from, n) :: UPage(Zeros(), w, x, true)
  }

  lemma RemoveZeros(v: map<Key, UPage>, keys: set<Key>, pid: Pid, from: Vpn, n: nat, w: bool, x: bool)
    requires Range(pid, from, n) !! keys && v.Keys == keys
    ensures AddZeros(v, pid, from, n, w, x) - Range(pid, from, n) == v
    ensures keys + Range(pid, from, n) - Range(pid, from, n) == keys
    ensures forall pt: map<Key, Pte> :: pt.Keys == keys + Range(pid, from, n) ==>
      (pt - Range(pid, from, n)).Keys == keys
  {
  }

  lemma SameToSee(m: Mem, m': Mem)
    requires Unseen(m, m')
    ensures Inv(m') && Eager(m') == Eager(m) && m'.pt == m.pt && m'.roots == m.roots && |m'.role| == |m.role|
  {
  }

  lemma KernelCount(m: Mem, p: nat)
    requires Inv(m) && p < |m.role| && m.role[p] == Kernel
    ensures Shape(m) && m.pgrc[p] == 1
  {
    assert m.pgrc[p] == Uses(m, p);
  }

  lemma ReleaseUnseen(m: Mem, p: nat)
    requires Inv(m) && p < |m.role| && m.role[p] == Kernel
    ensures Unseen(m, Release(m, p))
  {
    ReleaseInv(m, p);
    EagerSame(m, Release(m, p));
  }

  /** Clearing a fresh page. */
  lemma ZeroedUnseen(m: Mem, m1: Mem, p: nat)
    requires Unseen(m, m1) && p < |m1.role| && m1.role[p] == Kernel && IsData(m1, p)
    ensures Unseen(m, Poke(m1, p, Zeros())) && Poke(m1, p, Zeros()).role[p] == Kernel && IsData(Poke(m1, p, Zeros()), p)
    ensures Inv(Poke(m1, p, Zeros()))
  {
    hide Inv;
    UnseenInv(m, m1);
    PokeInv(m1, p, Zeros());
    PokeKernelEager(m1, p, Zeros());
  }

  lemma PokeKernelEager(m: Mem, p: nat, data: seq<Byte>)
    requires Inv(m) && p < |m.role| && m.role[p] == Kernel && |data| == PGSIZE
    ensures Eager(Poke(m, p, data)) == Eager(m)
  {
    EagerSame(m, Poke(m, p, data));
  }

  lemma AddedAfter(m: Mem, m1: Mem, m': Mem, k: Key, pg: UPage)
    requires Unseen(m, m1) && Added(m1, m', k, pg)
    ensures Added(m, m', k, pg)
  {
  }

  ghost function Range(pid: Pid, from: Vpn, n: nat): (r: set<Key>)
    ensures forall k :: k in r <==> k.pid == pid && from <= k.vpn < from + n
  {
    if n == 0 then {} else Range(pid, from, n - 1) + {Key(pid, from + n - 1)}
  }

  lemma RangeStep(pid: Pid, from: Vpn, n: nat)
    ensures Range(pid, from, n + 1) == Range(pid, from, n) + {Key(pid, from + n)}
  {
  }

  /** `m'` has one more mapping, with page `pg` behind it; nothing else is different to see. */
  ghost predicate Added(m: Mem, m': Mem, k: Key, pg: UPage) {
    && Inv(m) && Inv(m') && k !in m.pt && m'.pt.Keys == m.pt.Keys + {k} && Eager(m') == Eager(m)[k := pg]
    && m'.roots == m.roots && |m'.role| == |m.role|
  }

  lemma WalkKeeps(m: Mem, m1: Mem, p: nat)
    requires Unseen(m, m1) && KeepsKernel(m, m1) && p < |m.role| && m.role[p] == Kernel && IsData(m, p)
    ensures Inv(m1) && Shape(m1) && m1.pt == m.pt && m1.roots == m.roots && p < |m1.role| == |m.role|
    ensures m1.role[p] == Kernel && IsData(m1, p) && m1.frames[p] == m.frames[p]
  {
  }

  lemma MapNewState(m: Mem, m1: Mem, m': Mem, k: Key, e: Pte)
    requires Unseen(m, m1) && CanMap(m1, k, e) && !(e.w && e.c) && m1.role[e.ppn] == Kernel && IsData(m1, e.ppn)
    requires m' == MapFresh(m1, k, e)
    ensures Inv(m') && Added(m, m', k, UPage(m1.frames[e.ppn].data, e.w || e.c, e.x, e.u))
  {
    hide Inv, LowPage, SetEntry;
    UnseenInv(m, m1);
    MapFreshInv(m1, k, e);
    MapFreshEager(m1, k, e);
  }

  lemma EntryIs(m: Mem, page: nat, i: nat)
    requires IsTable(m, page) && i < NPTE
    ensures page < |m.frames| && m.frames[page].Table? && i < |m.frames[page].pte|
    ensures Entry(m, page, i) == m.frames[page].pte[i]
  {
  }

  function FreedAndCleared(m: Mem, page: nat, i: nat, p: nat): (m': Mem)
    requires Shape(m) && IsTable(m, page) && i < NPTE && p < |m.role|
  {
    var frames := if m.pgrc[p] == 1 then m.frames[p := Junk(1)] else m.frames;
    m.(frames := frames[page := SetEntry(m.frames[page], i, ZERO)],
       pgrc := m.pgrc[p := m.pgrc[p] - 1],
       free := if m.pgrc[p] == 1 then [p] + m.free else m.free)
  }

  /** `m'` is `m` without the mapping `k`. */
  ghost predicate Dropped(m: Mem, m': Mem, k: Key) {
    && Inv(m) && Inv(m') && k in m.pt && m'.pt == m.pt - {k} && Eager(m') == Eager(m) - {k}
    && m'.roots == m.roots && |m'.role| == |m.role| && FreesOnly(m, m', k.pid)
  }

  /** Pages change hands only by becoming free, and only data pages and table pages of `pid` do. */
  ghost predicate FreesOnly(m: Mem, m': Mem, pid: Pid) {
    |m'.role| == |m.role| && forall p :: 0 <= p < |m.role| ==>
      || m'.role[p] == m.role[p]
      || (m'.role[p] == Unused && (m.role[p] == User || (InTree(m.role[p]) && m.role[p].pid == pid)))
  }

  lemma FreesOnlyRefl(m: Mem, pid: Pid)
    ensures FreesOnly(m, m, pid)
  {
  }

  lemma FreesOnlyTrans(m: Mem, m1: Mem, m2: Mem, pid: Pid)
    requires FreesOnly(m, m1, pid) && FreesOnly(m1, m2, pid)
    ensures FreesOnly(m, m2, pid)
  {
  }

  /** uvmfree releases every page-table page of the process, and no table page of another. */
  lemma TablesReleased(m: Mem, m': Mem, pid: Pid, p: nat)
    requires Inv(m) && Inv(m') && FreesOnly(m, m', pid) && pid !in m'.roots && p < |m.role| && InTree(m.role[p])
    ensures m.role[p].pid == pid ==> m'.role[p] == Unused && p in m'.free && m'.pgrc[p] == 0
    ensures m.role[p].pid != pid ==> m'.role[p] == m.role[p]
  {
    hide PtOk, RefsOk, CowOk;
    assert RootOk(m', p) && MidOk(m', p) && LowOk(m', p);
    assert m'.pgrc[p] == Uses(m', p);
  }

  lemma DropFacts(m: Mem, k: Key)
    requires Inv(m) && k in m.pt
    ensures k.pid in m.roots && k.vpn < MAXVPN && Shape(m) && LowPage(m, k.pid, k.vpn) >= 0
    ensures m.pt[k].ppn < |m.role| && m.pgrc[m.pt[k].ppn] == |m.refs[m.pt[k].ppn]| >= 1
    ensures k in m.refs[m.pt[k].ppn] && (m.refs[m.pt[k].ppn] == {k} <==> m.pgrc[m.pt[k].ppn] == 1)
    ensures m.pt[k].ppn != LowPage(m, k.pid, k.vpn) && IsTable(m, LowPage(m, k.pid, k.vpn))
  {
    hide TreesOk, PtOk, RefsOk, AllocOk, CowOk, LowPage, Lookup;
    MappedHasSlot(m, k);
    SlotRole(m, k);
    var r := m.refs[m.pt[k].ppn];
    if |r| == 1 {
      assert |r - {k}| == 0;
      assert r == (r - {k}) + {k};
    }
  }

  lemma DropState(m: Mem, m1: Mem, m': Mem, k: Key)
    requires Inv(m) && k in m.pt && HasSlot(m, k) && Mapped(m, k)
    requires m1 == FreedAndCleared(m, LowPage(m, k.pid, k.vpn), I0(k.vpn), m.pt[k].ppn)
    requires var p := m.pt[k].ppn;
             m' == m1.(pt := m.pt - {k},
                       role := if m.refs[p] == {k} then m.role[p := Unused] else m.role,
                       refs := m.refs[p := m.refs[p] - {k}])
    ensures Dropped(m, m', k) && Inv(m')
  {
    hide Inv, SetEntry, Junk, Eager;
    DropFacts(m, k);
    MappedHasSlot(m, k);
    assert m' == Drop(m, k);
    DropInv(m, k);
    DropEager(m, k);
  }

  lemma PxBound(vpn: Vpn, level: nat)
    requires vpn < MAXVPN
    ensures Px(level, vpn) < NPTE
  {
    IndexSplit(vpn);
  }

  lemma AtAfterAlloc(m: Mem, pid: Pid, vpn: Vpn, level: nat, page: nat)
    requires Inv(m) && m.free != [] && 1 <= level <= 2 && At(m, pid, vpn, level, page)
    ensures m.free[0] < |m.role| && At(Alloc(m), pid, vpn, level, page) && m.free[0] != page
    ensures Entry(Alloc(m), page, Px(level, vpn)) == Entry(m, page, Px(level, vpn))
  {
    assert RootOk(m, m.roots[pid]);
  }

  lemma UnseenInv(m: Mem, m': Mem)
    requires Unseen(m, m')
    ensures Inv(m) && Inv(m')
  {
  }

  lemma SameRoles(m: Mem, m1: Mem, m2: Mem, roles: set<Role>)
    requires TablesGrow(m, m1, roles) && m2.role == m1.role
    ensures TablesGrow(m, m2, roles)
  {
  }

  lemma SharedTables(m: Mem, m1: Mem, m2: Mem, k: Key, roles: set<Role>)
    requires Protected(m, m1, k) && TablesGrow(m1, m2, roles)
    ensures TablesGrow(m, m2, roles)
  {
    hide Inv, Eager, NoWriter;
  }

  /** One byte range of one page has been overwritten, whoever maps that page. */
  ghost predicate PokedAt(m: Mem, m': Mem, k: Key, off: nat, bytes: seq<Byte>) {
    && k in m.pt && IsData(m, m.pt[k].ppn) && off + |bytes| <= PGSIZE
    && m' == Poke(m, m.pt[k].ppn, Overlay(m.frames[m.pt[k].ppn].data, off, bytes))
  }

  lemma SameSize(v: map<Key, UPage>, pt: map<Key, Pte>)
    requires v.Keys == pt.Keys
    ensures |v| == |pt|
  {
    assert |v| == |v.Keys| && |pt| == |pt.Keys|;
  }

  lemma SameKeys(pt: map<Key, Pte>, pt': map<Key, Pte>)
    requires pt.Keys == pt'.Keys
    ensures |pt| == |pt'|
  {
    assert |pt| == |pt.Keys| && |pt'| == |pt'.Keys|;
  }

  lemma {:induction false} RangeSize(pid: Pid, from: Vpn, n: nat)
    ensures |Range(pid, from, n)| == n
  {
    if n > 0 {
      RangeSize(pid, from, n - 1);
    }
  }

  lemma GrowingSize(m: Mem, v: map<Key, UPage>, pid: Pid, from: Vpn, n: nat, w: bool, x: bool)
    requires Growing(m, v, pid, from, n, w, x) && FreshRange(v.Keys, pid, from, n)
    ensures |m.pt| == |v| + n
  {
    hide Eager, AddZeros;
    RangeSize(pid, from, n);
    assert |m.pt| == |m.pt.Keys| && |v| == |v.Keys|;
  }

  lemma CopyingSize(m: Mem, m1: Mem, v: map<Key, UPage>, parent: Pid, child: Pid, n: nat)
    requires Copying(m, v, parent, child, n) && Range(child, 0, n) !! v.Keys && m1.pt.Keys == m.pt.Keys
    ensures |m1.pt| == |v| + n
  {
    hide Eager, Copied;
    RangeSize(child, 0, n);
    assert |m1.pt| == |m1.pt.Keys| && |v| == |v.Keys|;
  }

  // ---- uvmcopy -------------------------------------------------------------------------------------

  /** What fork must do: the child gets copies of the parent's first `n` pages. */
  ghost function Copied(v: map<Key, UPage>, parent: Pid, child: Pid, n: nat): (r: map<Key, UPage>) {
    v + map k | k in Range(child, 0, n) && Key(parent, k.vpn) in v :: v[Key(parent, k.vpn)]
  }

  ghost predicate Copying(m: Mem, v: map<Key, UPage>, parent: Pid, child: Pid, n: nat) {
    child in m.roots && m.pt.Keys == v.Keys + Range(child, 0, n) && Eager(m) == Copied(v, parent, child, n)
  }

  /** The pages that carry the copy-on-write mark. */
  ghost function Marks(pt: map<Key, Pte>): (ks: set<Key>) {
    set k | k in pt && pt[k].c
  }

  /** The writable ones among the parent's first n pages, as keys of process pid. */
  ghost function Writable(v: map<Key, UPage>, parent: Pid, pid: Pid, n: nat): (ks: set<Key>) {
    set k | k in Range(pid, 0, n) && Key(parent, k.vpn) in v && v[Key(parent, k.vpn)].w
  }

  /** The marks of a fork that has marked `n` pages of the parent and given `c` of them to the child. */
  ghost function ForkMarks(marks: set<Key>, v: map<Key, UPage>, parent: Pid, child: Pid, n: nat, c: nat)
    : (ks: set<Key>)
  {
    marks + Writable(v, parent, parent, n) + Writable(v, parent, child, c)
  }

  lemma ForkMarksNone(marks: set<Key>, v: map<Key, UPage>, parent: Pid, child: Pid)
    ensures ForkMarks(marks, v, parent, child, 0, 0) == marks
  {
  }

  lemma WritableStep(v: map<Key, UPage>, parent: Pid, pid: Pid, n: nat)
    requires Key(parent, n) in v
    ensures Writable(v, parent, pid, n + 1) ==
      Writable(v, parent, pid, n) + if v[Key(parent, n)].w then {Key(pid, n)} else {}
  {
  }

  lemma MarksAdd(pt: map<Key, Pte>, k: Key, e: Pte)
    requires k in pt && pt[k].c ==> e.c
    ensures Marks(pt[k := e]) == Marks(pt) + if e.c then {k} else {}
  {
  }

  lemma MarksRemove(pt: map<Key, Pte>, ks: set<Key>)
    ensures Marks(pt - ks) == Marks(pt) - ks
  {
  }

  lemma MarksBelow(pt: map<Key, Pte>)
    ensures Marks(pt) <= pt.Keys
  {
  }

  /** Pages that are taken back were never marked. */
  lemma MarksUndone(pt: map<Key, Pte>, keys: set<Key>, pid: Pid, from: Vpn, n: nat)
    requires Marks(pt) <= keys && FreshRange(keys, pid, from, n)
    ensures Marks(pt - Range(pid, from, n)) == Marks(pt)
  {
    MarksRemove(pt, Range(pid, from, n));
  }

  /** The entries of the child go, the marks of the parent stay. */
  lemma MarksTaken(pt: map<Key, Pte>, v: map<Key, UPage>, marks: set<Key>, parent: Pid, child: Pid, n: nat, c: nat)
    requires marks <= v.Keys && Range(child, 0, c) !! v.Keys && parent != child
    requires Marks(pt) == ForkMarks(marks, v, parent, child, n, c)
    ensures Marks(pt - Range(child, 0, c)) == ForkMarks(marks, v, parent, child, n, 0)
  {
    hide Marks;
    MarksRemove(pt, Range(child, 0, c));
  }

  /** One round of uvmcopy marks one more page; `given` says whether the child got its entry. */
  lemma MarksRound(m: Mem, pt': map<Key, Pte>, v: map<Key, UPage>, marks: set<Key>, parent: Pid, child: Pid, i: nat,
                   given: bool)
    requires Inv(m) && Key(parent, i) in m.pt && Key(child, i) !in m.pt && Key(parent, i) in v
    requires Key(parent, i) in Eager(m) && Eager(m)[Key(parent, i)] == v[Key(parent, i)]
    requires var e := Marked(m.pt[Key(parent, i)]);
      pt' == if given then m.pt[Key(parent, i) := e][Key(child, i) := e] else m.pt[Key(parent, i) := e]
    requires Marks(m.pt) == ForkMarks(marks, v, parent, child, i, i)
    ensures Marks(pt') == ForkMarks(marks, v, parent, child, i + 1, if given then i + 1 else i)
  {
    hide Inv, Eager, Marks, Writable;
    MarksShare(m, pt', Key(parent, i), Key(child, i), given);
    WritableStep(v, parent, parent, i);
    WritableStep(v, parent, child, i);
  }

  /** What one round of uvmcopy does to the marks; `given` says whether the child got its entry. */
  lemma MarksShare(m: Mem, pt': map<Key, Pte>, k: Key, j: Key, given: bool)
    requires Inv(m) && k in m.pt && j !in m.pt && k in Eager(m)
    requires var e := Marked(m.pt[k]); pt' == if given then m.pt[k := e][j := e] else m.pt[k := e]
    ensures Marks(pt') ==
      Marks(m.pt) + (if Eager(m)[k].w then {k} else {}) + (if given && Eager(m)[k].w then {j} else {})
  {
    hide Inv, Eager;
    MarkedNotWritable(m, k);
    PageData(m, k);
    var e := Marked(m.pt[k]);
    MarksAdd(m.pt, k, e);
    if given {
      MarksAdd(m.pt[k := e], j, e);
    }
  }

  /** A page that has become private has lost its mark. */
  lemma MarksPrivate(m: Mem, m': Mem, k: Key)
    requires Private(m, m', k)
    ensures Marks(m'.pt) == Marks(m.pt) - {k}
  {
    hide Eager, TablesGrow, Inv;
    MarkedNotWritable(m', k);
    forall j: Key ensures j in Marks(m'.pt) <==> j in Marks(m.pt) - {k} {
      SameElsewhere(m, m', k, j);
    }
  }

  lemma IsMarked(pt: map<Key, Pte>, k: Key)
    ensures k in Marks(pt) <==> k in pt && pt[k].c
  {
  }

  lemma MarksDirect(m: Mem, k: Key)
    requires k in m.pt && !m.pt[k].c
    ensures Marks(m.pt) == Marks(m.pt) - {k}
  {
  }

  /** Parent and child have the same entries, so the same pages, and write to none of them. */
  ghost predicate Sharing(pt: map<Key, Pte>, parent: Pid, child: Pid, n: nat) {
    forall vpn: nat :: vpn < n ==>
      && Key(parent, vpn) in pt && Key(child, vpn) in pt
      && pt[Key(child, vpn)] == pt[Key(parent, vpn)] && !pt[Key(child, vpn)].w
  }

  lemma SharingNone(pt: map<Key, Pte>, parent: Pid, child: Pid)
    ensures Sharing(pt, parent, child, 0)
  {
  }

  lemma SharingStep(pt: map<Key, Pte>, pt': map<Key, Pte>, parent: Pid, child: Pid, i: nat)
    requires Sharing(pt, parent, child, i) && Key(parent, i) in pt && parent != child
    requires var e := Marked(pt[Key(parent, i)]); pt' == pt[Key(parent, i) := e][Key(child, i) := e]
    ensures Sharing(pt', parent, child, i + 1)
  {
  }

  lemma NoCopies(v: map<Key, UPage>, parent: Pid, child: Pid)
    ensures Copied(v, parent, child, 0) == v && v.Keys + Range(child, 0, 0) == v.Keys
  {
  }

  lemma CopiedParent(m: Mem, v: map<Key, UPage>, parent: Pid, child: Pid, i: nat)
    requires Copying(m, v, parent, child, i) && parent != child && Key(parent, i) in v && Key(child, i) !in v
    ensures Key(parent, i) in m.pt && Key(child, i) !in m.pt && Key(parent, i) in Eager(m)
    ensures Eager(m)[Key(parent, i)] == v[Key(parent, i)]
  {
    hide Eager;
  }

  lemma CopiedStep(m: Mem, m': Mem, v: map<Key, UPage>, parent: Pid, child: Pid, i: nat)
    requires Copying(m, v, parent, child, i) && parent != child && Key(parent, i) in v
    requires Added(m, m', Key(child, i), v[Key(parent, i)])
    ensures Inv(m') && |m'.role| == |m.role| && Copying(m', v, parent, child, i + 1)
  {
    hide Inv, Eager, Copied;
    RangeStep(child, 0, i);
    CopiedOneMore(v, parent, child, i);
  }

  lemma CopiedOneMore(v: map<Key, UPage>, parent: Pid, child: Pid, i: nat)
    requires Key(parent, i) in v
    ensures Copied(v, parent, child, i + 1) == Copied(v, parent, child, i)[Key(child, i) := v[Key(parent, i)]]
  {
  }

  lemma CopiedUndo(v: map<Key, UPage>, parent: Pid, child: Pid, i: nat, pt: map<Key, Pte>)
    requires Range(child, 0, i) !! v.Keys && pt.Keys == v.Keys + Range(child, 0, i) - Range(child, 0, i)
    ensures Copied(v, parent, child, i) - Range(child, 0, i) == v && pt.Keys == v.Keys
  {
  }

  // ---- page tables come and go ----------------------------------------------------------------------

  lemma AddRootState(m: Mem, pid: Pid, q: nat)
    requires Inv(m) && q < |m.role| && m.role[q] == Kernel && pid !in m.roots
    ensures Inv(AddRoot(m, pid, q)) && Eager(AddRoot(m, pid, q)) == Eager(m)
  {
    AddRootInv(m, pid, q);
    EagerSame(m, AddRoot(m, pid, q));
  }

  function Level(r: Role): (n: int) {
    match r
    case Root(_) => 2
    case Mid(_, _) => 1
    case Low(_, _, _) => 0
    case _ => -1
  }

  /** `page` is a table page of `pid` at this level. */
  ghost predicate TreePage(m: Mem, page: nat, pid: Pid, level: nat) {
    && Shape(m) && page < |m.role| && IsTable(m, page)
    && InTree(m.role[page]) && Level(m.role[page]) == level && m.role[page].pid == pid
  }

  ghost predicate NoKeys(m: Mem, pid: Pid) {
    forall k :: k in m.pt ==> k.pid != pid
  }

  ghost predicate NoKeysBeyond(m: Mem, pid: Pid, n: nat) {
    forall k :: k in m.pt && k.pid == pid ==> k.vpn < n
  }

  ghost predicate KeepsAbove(m: Mem, m': Mem, level: int) {
    && |m.role| == |m'.role| == |m.frames| == |m'.frames| && m'.roots == m.roots
    && forall p :: 0 <= p < |m.role| && Level(m.role[p]) > level ==>
         m'.role[p] == m.role[p] && m'.frames[p] == m.frames[p]
  }

  lemma KeepsAboveRefl(m: Mem, level: int)
    requires Shape(m)
    ensures KeepsAbove(m, m, level)
  {
  }

  lemma KeepsAboveTrans(m: Mem, m1: Mem, m2: Mem, level: int)
    requires KeepsAbove(m, m1, level) && KeepsAbove(m1, m2, level)
    ensures KeepsAbove(m, m2, level)
  {
  }

  lemma StillNoKeys(m: Mem, m': Mem, pid: Pid)
    requires Unseen(m, m') && NoKeys(m, pid)
    ensures NoKeys(m', pid)
  {
  }

  /** What an entry of a table page can be when the process maps nothing. */
  lemma TreeEntry(m: Mem, page: nat, i: nat, pid: Pid, level: nat)
    requires Inv(m) && TreePage(m, page, pid, level) && NoKeys(m, pid) && i < NPTE
    ensures page < |m.frames| && m.frames[page].Table? && i < |m.frames[page].pte|
    ensures Entry(m, page, i) == m.frames[page].pte[i]
    ensures Entry(m, page, i).v ==> level > 0 && !Entry(m, page, i).r && !Entry(m, page, i).w && !Entry(m, page, i).x
  {
    assert DownOk(m, page, i);
    if level == 0 {
      LowEmpty(m, page, i);
    }
  }

  lemma LowEmpty(m: Mem, page: nat, i: nat)
    requires Inv(m) && page < |m.role| && m.role[page].Low? && NoKeys(m, m.role[page].pid) && i < NPTE
    ensures !Entry(m, page, i).v
  {
    hide AllocOk, RefsOk, CowOk, Join;
    var r := m.role[page];
    assert LowOk(m, page);
    JoinSplit(r.i2, r.i1, i);
    var vpn := Join(r.i2, r.i1, i);
    JoinBound(r.i2, r.i1, i);
    assert Lookup(m, r.pid, vpn) == Entry(m, page, i);
    assert Key(r.pid, vpn) !in m.pt;
  }

  lemma JoinBound(i2: nat, i1: nat, i0: nat)
    requires i2 < NPTE && i1 < NPTE && i0 < NPTE
    ensures Join(i2, i1, i0) < SLOTS
  {
  }

  lemma ChildOf(m: Mem, page: nat, i: nat, pid: Pid, level: nat)
    requires Inv(m) && TreePage(m, page, pid, level) && level > 0 && i < NPTE && Entry(m, page, i).v
    ensures page < |m.frames| && m.frames[page].Table? && i < |m.frames[page].pte|
    ensures Entry(m, page, i) == m.frames[page].pte[i]
    ensures Entry(m, page, i) == Ptr(Entry(m, page, i).ppn) && Entry(m, page, i).ppn != page
    ensures TreePage(m, Entry(m, page, i).ppn, pid, level - 1)
  {
    assert DownOk(m, page, i);
    var c := Entry(m, page, i).ppn;
    assert MidOk(m, c) && LowOk(m, c);
  }

  /** kfree of a page counted once, with the bookkeeping left behind. */
  function RawFree(m: Mem, p: nat): (m': Mem)
    requires Shape(m) && p < |m.role|
  {
    m.(frames := m.frames[p := Junk(1)], pgrc := m.pgrc[p := m.pgrc[p] - 1], free := [p] + m.free)
  }

  lemma TableDone(m: Mem, page: nat, pid: Pid, level: nat)
    requires Inv(m) && TreePage(m, page, pid, level) && forall j: nat :: j < NPTE ==> !Entry(m, page, j).v
    ensures EmptyTable(m, page) && m.pgrc[page] == 1
  {
    hide TreesOk, PtOk, RefsOk, CowOk;
    assert m.pgrc[page] == Uses(m, page);
  }

  /** The parent's table page is untouched by the child's freewalk. */
  lemma UnlinkReady(m: Mem, m1: Mem, page: nat, i: nat, child: nat, pid: Pid, level: nat)
    requires Unseen(m, m1) && KeepsAbove(m, m1, level - 1) && TreePage(m, page, pid, level) && level > 0
    requires i < NPTE && Entry(m, page, i).v && Entry(m, page, i).ppn == child && child != page
    requires EmptyTable(m1, child) && child < |m1.role| && Shape(m1)
    ensures RawFree(m1, child).frames[page] == m.frames[page] && m1.frames[page] == m.frames[page]
    ensures m1.role[page] == m.role[page]
    ensures page < |m1.frames| && m.frames[page].Table? && |m.frames[page].pte| == NPTE
    ensures CanUnlink(m1, page, i) && Entry(m1, page, i).ppn == child
  {
    hide PtOk, RefsOk, CowOk, AllocOk, Eager;
  }

  lemma UnlinkState(m: Mem, m1: Mem, m': Mem, page: nat, i: nat, child: nat, pid: Pid, level: nat)
    requires Unseen(m, m1) && KeepsAbove(m, m1, level - 1) && TreePage(m, page, pid, level) && level > 0
    requires i < NPTE && Entry(m, page, i).v && Entry(m, page, i).ppn == child && child != page
    requires page < |m1.role| && CanUnlink(m1, page, i) && Entry(m1, page, i).ppn == child
    requires m1.frames[page] == m.frames[page] && m1.role[page] == m.role[page] && TreePage(m, child, pid, level - 1)
    requires m' == RawFree(m1, child).(frames := RawFree(m1, child).frames[page := SetEntry(m1.frames[page], i, ZERO)],
                                       role := m1.role[child := Unused])
    requires FreesOnly(m, m1, pid)
    ensures Inv(m') && Unseen(m, m') && KeepsAbove(m, m', level) && TreePage(m', page, pid, level)
    ensures m'.role[page] == m.role[page]
    ensures FreesOnly(m, m', pid)
    ensures forall j: nat :: j < NPTE ==> Entry(m', page, j) == if j == i then ZERO else Entry(m, page, j)
  {
    hide Inv, Eager, Junk, PtOk, TreesOk;
    UnseenInv(m, m1);
    UnlinkInv(m1, page, i);
    var m2 := Unlink(m1, page, i);
    UnlinkUnseen(m1, page, i);
    ReleaseUnseen(m2, child);
    assert m' == Release(m2, child);
    UnseenTrans(m, m1, m2);
    UnseenTrans(m, m2, m');
    UnseenInv(m, m');
  }

  lemma UnlinkUnseen(m: Mem, page: nat, i: nat)
    requires Inv(m) && CanUnlink(m, page, i)
    ensures Unseen(m, Unlink(m, page, i)) && Unlink(m, page, i).role[Entry(m, page, i).ppn] == Kernel
  {
    UnlinkInv(m, page, i);
    EagerSame(m, Unlink(m, page, i));
  }

  lemma AllGone(m0: Mem, m: Mem, pid: Pid, n: nat)
    requires NoKeysBeyond(m0, pid, n) && (m.pt == m0.pt - Range(pid, 0, n) || (n == 0 && m.pt == m0.pt))
    ensures NoKeys(m, pid) && m.pt == m0.pt - Range(pid, 0, n)
  {
    forall k | k in m.pt ensures k.pid != pid {
      assert k in m0.pt;
    }
    if n == 0 {
      assert m0.pt == m0.pt - Range(pid, 0, n);
    }
  }

  lemma RootIsTree(m: Mem, pid: Pid)
    requires Inv(m) && pid in m.roots
    ensures TreePage(m, m.roots[pid], pid, 2) && m.role[m.roots[pid]] == Root(pid)
  {
    assert RootOk(m, m.roots[pid]);
  }

  lemma DropRootReady(m: Mem, m1: Mem, pid: Pid)
    requires Unseen(m, m1) && pid in m.roots && EmptyTable(m1, m.roots[pid])
    ensures Inv(m1) && Shape(m1) && pid in m1.roots && m1.roots[pid] == m.roots[pid] < |m1.role|
  {
  }

  lemma DropRootState(m: Mem, m1: Mem, m': Mem, pid: Pid)
    requires Unseen(m, m1) && pid in m.roots && EmptyTable(m1, m.roots[pid])
    requires Shape(m1) && m.roots[pid] < |m1.role|
    requires m' == RawFree(m1, m.roots[pid]).(role := m1.role[m.roots[pid] := Unused], roots := m1.roots - {pid})
    requires FreesOnly(m, m1, pid) && m.roots[pid] < |m.role| && m.role[m.roots[pid]] == Root(pid)
    ensures Inv(m') && Eager(m') == Eager(m) && m'.roots == m.roots - {pid} && m'.pt == m.pt && |m'.role| == |m.role|
    ensures FreesOnly(m, m', pid)
  {
    hide Inv, Eager, Junk, EmptyTable;
    DropRootReady(m, m1, pid);
    DropRootInv(m1, pid);
    var m2 := DropRoot(m1, pid);
    DropRootEager(m1, pid);
    ReleaseUnseen(m2, m.roots[pid]);
    assert m' == Release(m2, m.roots[pid]);
  }

  lemma DropRootEager(m: Mem, pid: Pid)
    requires Inv(m) && pid in m.roots && EmptyTable(m, m.roots[pid])
    ensures m.roots[pid] < |m.role| && Eager(DropRoot(m, pid)) == Eager(m)
  {
    DropRootInv(m, pid);
    EagerSame(m, DropRoot(m, pid));
  }

  // ---- the copy on a write fault ---------------------------------------------------------------------

  /** The page behind `k` is private and writable now; no program can tell. */
  ghost predicate Private(m: Mem, m': Mem, k: Key) {
    && Inv(m) && Inv(m') && k in m.pt && Eager(m') == Eager(m) && m'.roots == m.roots && |m'.role| == |m.role|
    && m'.pt.Keys == m.pt.Keys && m'.pt - {k} == m.pt - {k} && m'.pt[k].w && m'.pt[k].u == m.pt[k].u
    && TablesGrow(m, m', {})
  }

  lemma PrivateFacts(m: Mem, m': Mem, k: Key)
    requires Private(m, m', k)
    ensures Inv(m') && k in m'.pt && Eager(m') == Eager(m) && m'.roots == m.roots && m'.pt.Keys == m.pt.Keys
    ensures m'.pt[k].w && TablesGrow(m, m', {})
    ensures |m'.role| == |m.role|
  {
  }

  /** The fresh page of a copy takes over the content of the shared one. */
  lemma CopySource(m: Mem, m1: Mem, k: Key, q: nat)
    requires Inv(m) && m.free != [] && m.free[0] < |m.role| && q == m.free[0] && m1 == Alloc(m) && k in m.pt
    ensures m.pt[k].ppn < |m1.frames| && m.pt[k].ppn != q && q < |m1.frames| && IsData(m1, m.pt[k].ppn)
    ensures var m2 := Poke(m1, q, m1.frames[m.pt[k].ppn].data);
            && Unseen(m, m2) && Inv(m2) && Shape(m2) && m2.role[q] == Kernel && IsData(m2, q)
            && SameTables(m, m2) && m2.frames[q] == m2.frames[m.pt[k].ppn] && m2.role == m.role[q := Kernel]
  {
    hide Inv, Eager, TreesOk, PtOk;
    CopySourceRole(m, k, q);
    AllocUnseen(m);
    UnseenInv(m, m1);
    var data := m1.frames[m.pt[k].ppn].data;
    PokeInv(m1, q, data);
    PokeKernelEager(m1, q, data);
  }

  lemma CopySourceRole(m: Mem, k: Key, q: nat)
    requires Inv(m) && m.free != [] && q == m.free[0] && k in m.pt
    ensures Shape(m) && q < |m.role| && m.role[q] == Unused && m.pt[k].ppn < |m.role| && IsData(m, m.pt[k].ppn)
    ensures m.role[m.pt[k].ppn] == User
  {
  }

  /** Clearing an entry does not move its slot. */
  lemma DropSlot(m: Mem, k: Key)
    requires Inv(m) && k in m.pt
    ensures HasSlot(m, k) && Mapped(m, k) && HasSlot(Drop(m, k), k)
    ensures LowPage(Drop(m, k), k.pid, k.vpn) == LowPage(m, k.pid, k.vpn)
  {
    hide AllocOk, RefsOk, CowOk, PtOk, LowPage, TreesOk;
    MappedHasSlot(m, k);
    SlotRole(m, k);
    var low := LowPage(m, k.pid, k.vpn);
    var m1 := Store(m, low, I0(k.vpn), ZERO);
    StoreTrees(m, low, I0(k.vpn), ZERO);
    StoreLowPage(m, low, I0(k.vpn), ZERO, k.pid, k.vpn);
    SameTablesLookup(m1, Drop(m, k), k.pid, k.vpn);
  }

  /** kfree with its decpgrc, without the bookkeeping. */
  function Freed(m: Mem, p: nat): (m': Mem)
    requires Shape(m) && p < |m.role|
  {
    m.(pgrc := m.pgrc[p := m.pgrc[p] - 1],
       frames := if m.pgrc[p] == 1 then m.frames[p := Junk(1)] else m.frames,
       free := if m.pgrc[p] == 1 then [p] + m.free else m.free)
  }

  /** The entry moves from the shared page to the copy, and the shared page loses a count. */
  ghost function Moved(m: Mem, k: Key, q: nat): (m': Mem)
    requires HasSlot(m, k) && Mapped(m, k) && q < |m.role|
  {
    var p := m.pt[k].ppn;
    Freed(SetLeaf(m, k, m.pt[k].(w := true, c := false, ppn := q)), p).(
      role := (if m.refs[p] == {k} then m.role[p := Unused] else m.role)[q := User],
      refs := m.refs[p := m.refs[p] - {k}][q := {k}])
  }

  lemma MovedIs(m: Mem, k: Key, q: nat)
    requires Inv(m) && k in m.pt && m.pt[k].c && q < |m.role| && m.role[q] == Kernel && IsData(m, q)
    requires HasSlot(m, k) && Mapped(m, k)
    ensures HasSlot(Drop(m, k), k)
    ensures Moved(m, k, q) == MapFresh(Drop(m, k), k, m.pt[k].(w := true, c := false, ppn := q))
  {
    hide Inv, LowPage, Junk, TreesOk, PtOk, AllocOk, RefsOk, CowOk;
    DropFacts(m, k);
    DropSlot(m, k);
    SlotRole(m, k);
    var e := m.pt[k].(w := true, c := false, ppn := q);
    var p, low := m.pt[k].ppn, LowPage(m, k.pid, k.vpn);
    MappedHasSlot(m, k);
    assert e.v && m.pt[k := e] == (m.pt - {k})[k := e];
    SetTwice(m.frames[low], I0(k.vpn), e);
    var a, b := Moved(m, k, q), MapFresh(Drop(m, k), k, e);
    assert a.frames == b.frames && a.pgrc == b.pgrc && a.free == b.free && a.role == b.role && a.refs == b.refs;
    assert a.pt == b.pt;
  }

  lemma SetTwice(f: Frame, i: nat, e: Pte)
    requires f.Table? && |f.pte| == NPTE && i < NPTE
    ensures SetEntry(SetEntry(f, i, ZERO), i, e) == SetEntry(f, i, e)
  {
  }

  lemma MovedPrivate(m: Mem, m2: Mem, k: Key, q: nat)
    requires q < |m.role| && m2.role == m.role[q := Kernel]
    requires Unseen(m, m2) && k in m2.pt && m2.pt[k].c && q < |m2.role| && m2.role[q] == Kernel && IsData(m2, q)
    requires HasSlot(m2, k) && Mapped(m2, k) && m2.frames[q] == m2.frames[m2.pt[k].ppn]
    ensures Inv(Moved(m2, k, q)) && Private(m, Moved(m2, k, q), k)
  {
    hide Inv, LowPage, Eager, SetEntry, Junk, HasSlot;
    UnseenInv(m, m2);
    MovedIs(m2, k, q);
    var e := m2.pt[k].(w := true, c := false, ppn := q);
    DropInv(m2, k);
    DropEager(m2, k);
    MappedHasSlot(m2, k);
    var m3 := Drop(m2, k);
    DropKeeps(m2, k, q);
    MapFreshInv(m3, k, e);
    MapFreshEager(m3, k, e);
    EagerPage(m2, k);
    BackAgain(Eager(m2), k, Eager(m2)[k]);
    MovedRoles(m, m2, k, q);
  }

  lemma MovedRoles(m: Mem, m2: Mem, k: Key, q: nat)
    requires q < |m.role| && m2.role == m.role[q := Kernel] && HasSlot(m2, k) && Mapped(m2, k)
    ensures TablesGrow(m, Moved(m2, k, q), {})
  {
    hide LowPage, SetEntry, Junk, HasSlot, IsTable;
  }

  lemma EagerPage(m: Mem, k: Key)
    requires k in m.pt && IsData(m, m.pt[k].ppn)
    ensures k in Eager(m)
    ensures Eager(m)[k] == UPage(m.frames[m.pt[k].ppn].data, m.pt[k].w || m.pt[k].c, m.pt[k].x, m.pt[k].u)
  {
  }

  lemma BackAgain(v: map<Key, UPage>, k: Key, pg: UPage)
    requires k in v && v[k] == pg
    ensures (v - {k})[k := pg] == v
  {
  }

  lemma DropKeeps(m: Mem, k: Key, q: nat)
    requires Inv(m) && k in m.pt && HasSlot(m, k) && Mapped(m, k) && q < |m.role| && m.role[q] == Kernel
    ensures var m' := Drop(m, k); q < |m'.role| && m'.role[q] == Kernel && m'.frames[q] == m.frames[q]
  {
    hide TreesOk, PtOk, LowPage, AllocOk, RefsOk, CowOk;
    MappedHasSlot(m, k);
    SlotRole(m, k);
  }

  lemma CopySlot(m: Mem, m2: Mem, k: Key)
    requires Unseen(m, m2) && SameTables(m, m2) && k in m.pt
    ensures Inv(m2) && Shape(m2) && m2.pt == m.pt && HasSlot(m2, k) && Mapped(m2, k) && |m2.role| == |m.role|
    ensures LowPage(m2, k.pid, k.vpn) == LowPage(m, k.pid, k.vpn) && m2.pgrc[m2.pt[k].ppn] > 0 && m2.pt[k].v
  {
    hide PtOk, RefsOk, CowOk, AllocOk, Eager, LowPage, TreesOk;
    MappedHasSlot(m2, k);
    SameTablesLookup(m, m2, k.pid, k.vpn);
  }

  // ---- addresses and bytes -----------------------------------------------------------------------------

  const MAXVA := MAXVPN * PGSIZE
  /** uint64 arithmetic wraps here. */
  const TOP := 0x1_0000_0000_0000_0000

  function RoundDown(a: nat): (r: nat) {
    a / PGSIZE * PGSIZE
  }

  /** usertrap treats faults on the page of the stack pointer and the one below as overruns. */
  predicate NearStack(va: nat, sp: nat) {
    (RoundDown(sp) + TOP - PGSIZE) % TOP <= va <= RoundDown(sp)
  }

  /** When usertrap cannot repair a fault. */
  ghost predicate Fatal(m: Mem, pid: Pid, va: nat, sp: nat) {
    || va >= MAXVA || NearStack(va, sp) || Key(pid, va / PGSIZE) !in m.pt
    || !m.pt[Key(pid, va / PGSIZE)].u || !m.pt[Key(pid, va / PGSIZE)].c || m.free == []
  }

  /** A fault on a marked user page away from the stack pointer: one free page repairs it. */
  ghost predicate Repairable(m: Mem, pid: Pid, va: nat, sp: nat) {
    && va < MAXVA && !NearStack(va, sp) && Key(pid, va / PGSIZE) in m.pt
    && m.pt[Key(pid, va / PGSIZE)].u && m.pt[Key(pid, va / PGSIZE)].c
  }

  /** A store through this entry goes through without a fault. */
  predicate Direct(e: Pte) {
    e.v && e.u && e.w
  }

  /** The page of a byte address can be reached by its process. */
  ghost predicate Reachable(v: map<Key, UPage>, pid: Pid, a: nat) {
    a < MAXVA && Key(pid, a / PGSIZE) in v && v[Key(pid, a / PGSIZE)].u && |v[Key(pid, a / PGSIZE)].data| == PGSIZE
  }

  ghost function ByteAt(v: map<Key, UPage>, pid: Pid, a: nat): (b: Byte)
    requires Reachable(v, pid, a)
  {
    v[Key(pid, a / PGSIZE)].data[a % PGSIZE]
  }

  /** `data` is the page at address `base`; `bytes` are written from address `dst` on. */
  function Patch(data: seq<Byte>, base: nat, dst: nat, bytes: seq<Byte>): (r: seq<Byte>)
    ensures |r| == |data|
  {
    seq(|data|, o requires 0 <= o < |data| =>
      if 0 <= base + o - dst < |bytes| then bytes[base + o - dst] else data[o])
  }

  /** A write of `bytes` at address `dst` to the private memory of one process. */
  ghost function Written(v: map<Key, UPage>, pid: Pid, dst: nat, bytes: seq<Byte>): (r: map<Key, UPage>) {
    map k | k in v :: if k.pid == pid then v[k].(data := Patch(v[k].data, k.vpn * PGSIZE, dst, bytes)) else v[k]
  }

  lemma NothingWritten(v: map<Key, UPage>, pid: Pid, dst: nat)
    ensures Written(v, pid, dst, []) == v
  {
    forall k | k in v ensures Written(v, pid, dst, [])[k] == v[k] {
      assert Patch(v[k].data, k.vpn * PGSIZE, dst, []) == v[k].data;
    }
  }

  /** Bytes copied into one page. */
  function Overlay(data: seq<Byte>, off: nat, bytes: seq<Byte>): (r: seq<Byte>)
    requires off + |bytes| <= |data|
    ensures |r| == |data|
  {
    data[..off] + bytes + data[off + |bytes|..]
  }

  /** Writing page by page writes the flat range. */
  lemma WrittenStep(v: map<Key, UPage>, pid: Pid, dst: nat, src: seq<Byte>, i: nat, n: nat, k: Key, off: nat)
    requires i + n <= |src| && k.pid == pid && k in v && forall j :: j in v ==> |v[j].data| == PGSIZE
    requires dst + i == k.vpn * PGSIZE + off && off + n <= PGSIZE
    ensures var w := Written(v, pid, dst, src[..i]);
            Written(v, pid, dst, src[..i + n]) == w[k := w[k].(data := Overlay(w[k].data, off, src[i..i + n]))]
  {
    var w := Written(v, pid, dst, src[..i]);
    var w' := w[k := w[k].(data := Overlay(w[k].data, off, src[i..i + n]))];
    var g := Written(v, pid, dst, src[..i + n]);
    forall j | j in v ensures g[j] == w'[j] {
      if j.pid == pid && j != k {
        PatchElsewhere(v[j].data, j.vpn, k.vpn, dst, src, i, n, off);
      }
      if j == k {
        PatchHere(v[k].data, k.vpn, dst, src, i, n, off);
      }
    }
    assert g.Keys == v.Keys == w'.Keys;
  }

  lemma PatchHere(data: seq<Byte>, vpn: nat, dst: nat, src: seq<Byte>, i: nat, n: nat, off: nat)
    requires i + n <= |src| && |data| == PGSIZE && dst + i == vpn * PGSIZE + off && off + n <= PGSIZE
    ensures Patch(data, vpn * PGSIZE, dst, src[..i + n]) ==
      Overlay(Patch(data, vpn * PGSIZE, dst, src[..i]), off, src[i..i + n])
  {
  }

  lemma PatchElsewhere(data: seq<Byte>, vpn: nat, vpn': nat, dst: nat, src: seq<Byte>, i: nat, n: nat, off: nat)
    requires i + n <= |src| && |data| == PGSIZE && vpn != vpn' && dst + i == vpn' * PGSIZE + off && off + n <= PGSIZE
    ensures Patch(data, vpn * PGSIZE, dst, src[..i + n]) == Patch(data, vpn * PGSIZE, dst, src[..i])
  {
    var a, b := Patch(data, vpn * PGSIZE, dst, src[..i + n]), Patch(data, vpn * PGSIZE, dst, src[..i]);
    forall o | 0 <= o < PGSIZE ensures a[o] == b[o] {
      if vpn < vpn' {
        assert vpn * PGSIZE + PGSIZE <= vpn' * PGSIZE;
      } else {
        assert vpn' * PGSIZE + PGSIZE <= vpn * PGSIZE;
      }
    }
  }

  lemma NoSlotNoKey(m: Mem, pid: Pid, vpn: Vpn)
    requires Inv(m) && LowPage(m, pid, vpn) < 0
    ensures Key(pid, vpn) !in m.pt
  {
  }

  lemma EagerLen(m: Mem)
    requires Inv(m)
    ensures forall k :: k in Eager(m) ==> |Eager(m)[k].data| == PGSIZE
  {
    hide AllocOk, TreesOk, PtOk, CowOk;
  }

  /** A store through an entry with W. */
  lemma StoreState(m: Mem, k: Key, data: seq<Byte>)
    requires Inv(m) && k in m.pt && m.pt[k].w && |data| == PGSIZE
    ensures Shape(m) && m.pt[k].ppn < |m.frames| && Inv(Poke(m, m.pt[k].ppn, data)) && k in Eager(m)
    ensures Eager(Poke(m, m.pt[k].ppn, data)) == Eager(m)[k := Eager(m)[k].(data := data)]
  {
    hide Inv, Eager;
    MappedHasSlot(m, k);
    PokeInv(m, m.pt[k].ppn, data);
    PokeEager(m, k, data);
  }

  /** A store through any entry keeps the books. */
  lemma AnyStoreInv(m: Mem, k: Key, data: seq<Byte>)
    requires Inv(m) && k in m.pt && |data| == PGSIZE
    ensures Shape(m) && m.pt[k].ppn < |m.frames| && IsData(m, m.pt[k].ppn) && Inv(Poke(m, m.pt[k].ppn, data))
  {
    hide Inv, Eager;
    MappedHasSlot(m, k);
    PokeInv(m, m.pt[k].ppn, data);
  }

  /** A write inside one page. */
  lemma WrittenInPage(v: map<Key, UPage>, pid: Pid, vpn: Vpn, off: nat, bytes: seq<Byte>)
    requires Key(pid, vpn) in v && (forall j :: j in v ==> |v[j].data| == PGSIZE) && off + |bytes| <= PGSIZE
    ensures var k := Key(pid, vpn);
            Written(v, pid, vpn * PGSIZE + off, bytes) == v[k := v[k].(data := Overlay(v[k].data, off, bytes))]
  {
    NothingWritten(v, pid, vpn * PGSIZE + off);
    WrittenStep(v, pid, vpn * PGSIZE + off, bytes, 0, |bytes|, Key(pid, vpn), off);
    assert bytes[..0] == [] && bytes[..|bytes|] == bytes[0..|bytes|] == bytes;
  }

  /** Every reachable page that the range touches may be written, as copyout takes for granted. */
  ghost predicate WritableRange(v: map<Key, UPage>, pid: Pid, dst: nat, len: nat) {
    forall k :: k in v && k.pid == pid && k.vpn * PGSIZE < dst + len && dst < k.vpn * PGSIZE + PGSIZE && v[k].u ==>
      v[k].w
  }

  ghost predicate ReachableRange(v: map<Key, UPage>, pid: Pid, dst: nat, len: nat) {
    forall a :: dst <= a < dst + len ==> Reachable(v, pid, a)
  }

  datatype CopyResult = Done | Fault | NoMemory

  /** The pages that a range of bytes touches. */
  ghost function PagesOf(pid: Pid, dst: nat, len: nat): (ks: set<Key>) {
    if len == 0 then {} else Range(pid, dst / PGSIZE, (dst + len - 1) / PGSIZE - dst / PGSIZE + 1)
  }

  /** Pages that a copyout has written have lost their marks. */
  ghost function Cleared(marks: set<Key>, pid: Pid, dst: nat, len: nat): (ks: set<Key>) {
    marks - PagesOf(pid, dst, len)
  }

  /** One round of copyout: n bytes from the one at dst + done, in page va0. */
  ghost predicate CopyoutRound(dst: nat, done: nat, len: nat, va0: nat, n: int) {
    && va0 == RoundDown(dst + done) && done < len && (done > 0 ==> dst + done == va0)
    && n == if PGSIZE - (dst + done - va0) > len - done then len - done else PGSIZE - (dst + done - va0)
  }

  lemma RoundBounds(dst: nat, done: nat, len: nat, va0: nat, n: int)
    requires CopyoutRound(dst, done, len, va0, n)
    ensures va0 <= dst + done && va0 % PGSIZE == 0 && dst + done - va0 + n <= PGSIZE && 0 < n <= len - done
    ensures va0 / PGSIZE * PGSIZE == va0 && va0 / PGSIZE == (dst + done) / PGSIZE
    ensures done + n < len ==> dst + (done + n) == va0 + PGSIZE == RoundDown(va0 + PGSIZE)
  {
  }

  lemma ClearedMore(marks: set<Key>, pid: Pid, dst: nat, done: nat, len: nat, va0: nat, n: int)
    requires CopyoutRound(dst, done, len, va0, n)
    ensures n > 0 && Cleared(marks, pid, dst, done) - {Key(pid, va0 / PGSIZE)} == Cleared(marks, pid, dst, done + n)
    ensures Key(pid, va0 / PGSIZE) in Cleared(marks, pid, dst, done) ==> Key(pid, (dst + done) / PGSIZE) in marks
  {
    hide PagesOf;
    PagesOfMore(pid, dst, done, n, va0 / PGSIZE);
  }

  lemma NothingCleared(marks: set<Key>, pid: Pid, dst: nat)
    ensures Cleared(marks, pid, dst, 0) == marks
  {
  }

  lemma PagesOfMore(pid: Pid, dst: nat, done: nat, n: nat, vpn: nat)
    requires 0 < n && (dst + done) / PGSIZE == vpn && (dst + done) % PGSIZE + n <= PGSIZE
    requires done > 0 ==> (dst + done) % PGSIZE == 0
    ensures PagesOf(pid, dst, done + n) == PagesOf(pid, dst, done) + {Key(pid, vpn)}
    ensures Key(pid, vpn) !in PagesOf(pid, dst, done)
  {
    assert (dst + done + n - 1) / PGSIZE == vpn;
    if done > 0 {
      assert (dst + done - 1) / PGSIZE == vpn - 1;
      RangeStep(pid, dst / PGSIZE, vpn - dst / PGSIZE);
    } else {
      RangeStep(pid, dst / PGSIZE, 0);
    }
  }

  lemma WrittenReachable(v: map<Key, UPage>, pid: Pid, dst: nat, bytes: seq<Byte>, a: nat)
    ensures Reachable(Written(v, pid, dst, bytes), pid, a) <==> Reachable(v, pid, a)
  {
  }

  /** One round of copyout's loop, seen from user memory. */
  lemma CopyoutStep(v: map<Key, UPage>, pid: Pid, dst: nat, src: seq<Byte>, i: nat, n: nat, vpn: Vpn, off: nat)
    requires (forall j :: j in v ==> |v[j].data| == PGSIZE) && WritableRange(v, pid, dst, |src|)
    requires ReachableRange(v, pid, dst, i)
    requires 0 < n && i + n <= |src| && dst + i == vpn * PGSIZE + off && off + n <= PGSIZE
    requires Reachable(Written(v, pid, dst, src[..i]), pid, vpn * PGSIZE)
    ensures var w := Written(v, pid, dst, src[..i]); var k := Key(pid, vpn);
            && k in w && w[k].w
            && Written(v, pid, dst, src[..i + n]) == w[k := w[k].(data := Overlay(w[k].data, off, src[i..i + n]))]
    ensures ReachableRange(v, pid, dst, i + n)
  {
    var k := Key(pid, vpn);
    WrittenReachable(v, pid, dst, src[..i], vpn * PGSIZE);
    assert vpn * PGSIZE / PGSIZE == vpn;
    WrittenStep(v, pid, dst, src, i, n, k, off);
    forall a | dst <= a < dst + (i + n) ensures Reachable(v, pid, a) {
      if a >= dst + i {
        assert a / PGSIZE == vpn;
      }
    }
  }

  ghost predicate DirectAt(m: Mem, pid: Pid, va: nat) {
    va < MAXVA && Key(pid, va / PGSIZE) in m.pt && Direct(m.pt[Key(pid, va / PGSIZE)])
  }

  lemma NotFatal(m: Mem, pid: Pid, va: nat, sp: nat)
    requires !Fatal(m, pid, va, sp)
    ensures va < MAXVA && Key(pid, va / PGSIZE) in m.pt && m.pt[Key(pid, va / PGSIZE)].u
    ensures m.pt[Key(pid, va / PGSIZE)].c
  {
  }

  /** Why a store is killed: private memory forbids it too, or the page is marked and the address near the
      stack pointer. */
  lemma KilledWhy(m: Mem, pid: Pid, va: nat, sp: nat)
    requires Inv(m) && !(Repairable(m, pid, va, sp) && !DirectAt(m, pid, va) && m.free == [])
    ensures Fatal(m, pid, va, sp) && !DirectAt(m, pid, va) <==>
      || !Reachable(Eager(m), pid, va) || !Eager(m)[Key(pid, va / PGSIZE)].w
      || (Key(pid, va / PGSIZE) in Marks(m.pt) && NearStack(va, sp))
  {
    hide NearStack, Inv, Eager;
    var k := Key(pid, va / PGSIZE);
    EagerKeys(m);
    if k in m.pt {
      MarkedNotWritable(m, k);
      PageData(m, k);
    }
  }

  lemma RepairableSeen(m: Mem, pid: Pid, va: nat, sp: nat)
    requires Inv(m) && Repairable(m, pid, va, sp)
    ensures Reachable(Eager(m), pid, va) && Eager(m)[Key(pid, va / PGSIZE)].w && !NearStack(va, sp)
    ensures Key(pid, va / PGSIZE) in Marks(m.pt)
  {
    hide NearStack, Inv;
    PageData(m, Key(pid, va / PGSIZE));
  }

  /** With a page free, copy-on-write memory kills exactly the stores that private memory forbids, unless
      the page is marked and the address near the stack pointer: then it kills one that is allowed. */
  lemma StoreAgreesIff(m: Mem, pid: Pid, va: nat, sp: nat)
    requires Inv(m) && m.free != []
    ensures var k := Key(pid, va / PGSIZE);
      (Fatal(m, pid, va, sp) && !DirectAt(m, pid, va) <==> !(Reachable(Eager(m), pid, va) && Eager(m)[k].w)) <==>
      !(NearStack(va, sp) && va < MAXVA && k in m.pt && m.pt[k].u && m.pt[k].c)
  {
    hide NearStack, Inv;
    var k := Key(pid, va / PGSIZE);
    if k in m.pt {
      PageData(m, k);
      MarkedNotWritable(m, k);
    }
  }

  lemma MarkedNotWritable(m: Mem, k: Key)
    requires Inv(m) && k in m.pt
    ensures m.pt[k].v && !(m.pt[k].w && m.pt[k].c)
  {
  }

  lemma PageData(m: Mem, k: Key)
    requires Inv(m) && k in m.pt
    ensures m.pt[k].ppn < |m.frames| && m.frames[m.pt[k].ppn].Bytes? && |m.frames[m.pt[k].ppn].data| == PGSIZE
    ensures k in Eager(m) && Eager(m)[k].data == m.frames[m.pt[k].ppn].data && Eager(m)[k].u == m.pt[k].u
    ensures Eager(m)[k].w == (m.pt[k].w || m.pt[k].c)
  {
    hide AllocOk, TreesOk, PtOk, CowOk;
  }

  /** The one-byte store of a user instruction, through an entry that is writable in `m1`. */
  lemma StoreSeen(m: Mem, m1: Mem, pid: Pid, va: nat, b: Byte)
    requires Inv(m) && Inv(m1) && Eager(m1) == Eager(m) && va < MAXVA && Key(pid, va / PGSIZE) in m.pt
    requires m.pt[Key(pid, va / PGSIZE)].u && (m.pt[Key(pid, va / PGSIZE)].w || m.pt[Key(pid, va / PGSIZE)].c)
    ensures Reachable(Eager(m), pid, va) && Eager(m)[Key(pid, va / PGSIZE)].w
    ensures var k := Key(pid, va / PGSIZE);
            Written(Eager(m), pid, va, [b]) ==
              Eager(m)[k := Eager(m)[k].(data := Overlay(Eager(m)[k].data, va % PGSIZE, [b]))]
  {
    hide Inv, Eager, Written, Overlay;
    PageData(m, Key(pid, va / PGSIZE));
    EagerLen(m);
    WrittenInPage(Eager(m), pid, va / PGSIZE, va % PGSIZE, [b]);
  }

  lemma NotReachable(m: Mem, pid: Pid, va: nat)
    requires va >= MAXVA || Key(pid, va / PGSIZE) !in m.pt || !m.pt[Key(pid, va / PGSIZE)].u
    ensures !Reachable(Eager(m), pid, va)
  {
  }

  lemma IsReachable(m: Mem, pid: Pid, va: nat)
    requires Inv(m) && va < MAXVA && Key(pid, va / PGSIZE) in m.pt && m.pt[Key(pid, va / PGSIZE)].u
    ensures Reachable(Eager(m), pid, va)
  {
    PageData(m, Key(pid, va / PGSIZE));
  }

  lemma NothingReached(v: map<Key, UPage>, pid: Pid, dst: nat)
    ensures ReachableRange(v, pid, dst, 0)
  {
  }

  /** What copyout leaves behind: the first `done` bytes written, all of them on reachable pages;
      after a fault the next one is not reachable. */
  ghost predicate CopyoutDone(v: map<Key, UPage>, v': map<Key, UPage>, pid: Pid, dst: nat, src: seq<Byte>,
                              r: CopyResult, done: nat)
  {
    && done <= |src| && v' == Written(v, pid, dst, src[..done]) && ReachableRange(v, pid, dst, done)
    && (r == Done ==> done == |src|)
    && (r == Fault ==> !Reachable(v, pid, dst + done))
    && (r == NoMemory ==> Reachable(v, pid, dst + done))
  }

  lemma CopyoutStopped(v: map<Key, UPage>, w: map<Key, UPage>, pid: Pid, dst: nat, src: seq<Byte>, done: nat)
    requires done <= |src| && w == Written(v, pid, dst, src[..done])
    ensures Reachable(w, pid, RoundDown(dst + done)) <==> Reachable(v, pid, dst + done)
  {
    var a := dst + done;
    WrittenReachable(v, pid, dst, src[..done], a);
    assert RoundDown(a) / PGSIZE == a / PGSIZE;
    assert a < MAXVA <==> RoundDown(a) < MAXVA;
  }

  ghost predicate ReadsAt(v: map<Key, UPage>, pid: Pid, a: nat, b: Byte) {
    Reachable(v, pid, a) && ByteAt(v, pid, a) == b
  }

  /** `bytes` are what the process has in memory from address `src` on. */
  ghost predicate Reads(v: map<Key, UPage>, pid: Pid, src: nat, bytes: seq<Byte>) {
    forall i :: 0 <= i < |bytes| ==> ReadsAt(v, pid, src + i, bytes[i])
  }

  lemma PageBytes(m: Mem, pid: Pid, va: nat, n: nat)
    requires Inv(m) && va < MAXVA && Key(pid, va / PGSIZE) in m.pt && m.pt[Key(pid, va / PGSIZE)].u
    requires va % PGSIZE + n <= PGSIZE
    ensures var p := m.pt[Key(pid, va / PGSIZE)].ppn;
            && p < |m.frames| && m.frames[p].Bytes? && |m.frames[p].data| == PGSIZE
            && Reads(Eager(m), pid, va, m.frames[p].data[va % PGSIZE..va % PGSIZE + n])
  {
    hide Inv, Eager;
    PageData(m, Key(pid, va / PGSIZE));
    var bytes := m.frames[m.pt[Key(pid, va / PGSIZE)].ppn].data[va % PGSIZE..va % PGSIZE + n];
    forall i | 0 <= i < n ensures ReadsAt(Eager(m), pid, va + i, bytes[i]) {
      SamePageArith(va, i);
    }
  }

  lemma SamePageArith(va: nat, i: nat)
    requires va % PGSIZE + i < PGSIZE
    ensures (va + i) / PGSIZE == va / PGSIZE && (va + i) % PGSIZE == va % PGSIZE + i && (va < MAXVA ==> va + i < MAXVA)
  {
  }

  lemma ReadsMore(v: map<Key, UPage>, pid: Pid, src: nat, bytes: seq<Byte>, chunk: seq<Byte>)
    requires Reads(v, pid, src, bytes) && Reads(v, pid, src + |bytes|, chunk)
    ensures Reads(v, pid, src, bytes + chunk)
  {
    hide ReadsAt;
    var b := bytes + chunk;
    forall i | 0 <= i < |b| ensures ReadsAt(v, pid, src + i, b[i]) {
      if i >= |bytes| {
        assert b[i] == chunk[i - |bytes|] && src + i == src + |bytes| + (i - |bytes|);
      }
    }
  }

  lemma BootInv(m: Mem)
    requires Shape(m) && m.roots == map[] && m.pt == map[] && |m.free| == |m.role|
    requires forall p :: 0 <= p < |m.role| ==> m.pgrc[p] == 0 && m.role[p] == Unused && m.refs[p] == {}
    requires forall k :: 0 <= k < |m.free| ==> m.free[k] == |m.free| - 1 - k
    ensures Inv(m)
  {
    forall p | 0 <= p < |m.role| && m.role[p] == Unused ensures p in m.free {
      assert m.free[|m.free| - 1 - p] == p;
    }
  }

  lemma SlotShape(m: Mem, k: Key)
    requires HasSlot(m, k)
    ensures Shape(m) && LowPage(m, k.pid, k.vpn) >= 0 && IsTable(m, LowPage(m, k.pid, k.vpn))
  {
  }

  /** A load that faults cannot be repaired: every mapped user page is readable. */
  lemma LoadFaults(m: Mem, pid: Pid, va: nat, sp: nat)
    requires Inv(m)
    requires va < MAXVA && Key(pid, va / PGSIZE) in m.pt ==>
      !m.pt[Key(pid, va / PGSIZE)].u || !m.pt[Key(pid, va / PGSIZE)].r
    ensures Fatal(m, pid, va, sp) && !Reachable(Eager(m), pid, va)
  {
    hide AllocOk, TreesOk, PtOk, CowOk;
    NotReachable(m, pid, va);
  }
}
