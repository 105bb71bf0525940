/** Physical pages, reference counts and three-level page tables (kernel/kalloc.c, kernel/vm.c).

    The memory is a value: page frames, counts, free list and page-table roots are what the kernel
    stores; `role`, `refs` and `pt` are what it keeps in its head, namely what each page is used
    for, which user mappings refer to it, and the finite map each page table stands for. */
module VmModel {

  const PGSIZE := 4096
  const NPTE := 512
  /** Page numbers lie below MAXVA, which is 2^38. */
  const MAXVPN := 0x400_0000

  type Pid = nat
  type Vpn = nat
  type Byte = b: int | 0 <= b < 256

  /** A user page: page number `vpn` in the page table of process `pid`. */
  datatype Key = Key(pid: Pid, vpn: Vpn)

  /** A page-table entry: V, R, W, X, U, the copy-on-write bit C, and a page number. */
  datatype Pte = Pte(v: bool, r: bool, w: bool, x: bool, u: bool, c: bool, ppn: nat)

  const ZERO := Pte(false, false, false, false, false, false, 0)

  function Ptr(ppn: nat): (e: Pte) {
    Pte(true, false, false, false, false, false, ppn)
  }

  datatype Frame = Bytes(data: seq<Byte>) | Table(pte: seq<Pte>)

  /** What a physical page is used for; table pages remember their place in the tree. */
  datatype Role = Unused | Kernel | User | Root(pid: Pid) | Mid(pid: Pid, i2: nat) | Low(pid: Pid, i2: nat, i1: nat)

  datatype Mem = Mem(
    frames: seq<Frame>, pgrc: seq<int>, free: seq<nat>, roots: map<Pid, nat>,
    role: seq<Role>, refs: seq<set<Key>>, pt: map<Key, Pte>)

  // ---- the Sv39 index fields of a page number -----------------------------------------------

  function I2(vpn: nat): (i: nat) { vpn / 262144 }
  function I1(vpn: nat): (i: nat) ensures i < NPTE { vpn / 512 % 512 }
  function I0(vpn: nat): (i: nat) ensures i < NPTE { vpn % 512 }

  /** The three fields determine the page number, so distinct pages reach distinct slots. */
  lemma IndexSplit(vpn: nat)
    ensures vpn == 262144 * I2(vpn) + 512 * I1(vpn) + I0(vpn)
    ensures vpn < MAXVPN ==> I2(vpn) < 256
  {
    assert vpn / 262144 == vpn / 512 / 512;
  }

  function Join(i2: nat, i1: nat, i0: nat): (vpn: nat) {
    262144 * i2 + 512 * i1 + i0
  }

  lemma JoinSplit(i2: nat, i1: nat, i0: nat)
    requires i1 < NPTE && i0 < NPTE
    ensures I2(Join(i2, i1, i0)) == i2 && I1(Join(i2, i1, i0)) == i1 && I0(Join(i2, i1, i0)) == i0
  {
    var vpn := Join(i2, i1, i0);
    IndexSplit(vpn);
    assert vpn / 512 == 512 * i2 + i1;
  }

  // ---- reading the tree ------------------------------------------------------------------------

  predicate IsTable(m: Mem, p: nat) {
    p < |m.frames| && m.frames[p].Table? && |m.frames[p].pte| == NPTE
  }

  predicate IsData(m: Mem, p: nat) {
    p < |m.frames| && m.frames[p].Bytes? && |m.frames[p].data| == PGSIZE
  }

  function Entry(m: Mem, p: nat, i: nat): (e: Pte) {
    if IsTable(m, p) && i < NPTE then m.frames[p].pte[i] else ZERO
  }

  /** The table page walk() reaches at level 0 without allocating, if there is one. */
  function LowPage(m: Mem, pid: Pid, vpn: Vpn): (r: int)
    ensures r >= 0 ==> pid in m.roots
  {
    if pid !in m.roots then -1 else
      var e2 := Entry(m, m.roots[pid], I2(vpn));
      if !e2.v then -1 else
        var e1 := Entry(m, e2.ppn, I1(vpn));
        if !e1.v then -1 else e1.ppn
  }

  /** The entry walk() finds for a page number; ZERO when a level is missing. */
  function Lookup(m: Mem, pid: Pid, vpn: Vpn): (e: Pte) {
    var low := LowPage(m, pid, vpn);
    if low < 0 then ZERO else Entry(m, low, I0(vpn))
  }

  // ---- invariants --------------------------------------------------------------------------------

  ghost predicate Shape(m: Mem) {
    |m.frames| == |m.pgrc| == |m.role| == |m.refs|
  }

  /** The number of reasons a page is in use: user mappings, or one kernel owner. */
  function Uses(m: Mem, p: nat): (n: nat)
    requires p < |m.role| == |m.refs|
  {
    match m.role[p]
    case Unused => 0
    case User => |m.refs[p]|
    case _ => 1
  }

  /** Counts are exact and the free list holds exactly the unused pages, each once. */
  ghost predicate AllocOk(m: Mem)
    requires Shape(m)
  {
    && (forall p :: 0 <= p < |m.pgrc| ==> m.pgrc[p] == Uses(m, p))
    && (forall p :: 0 <= p < |m.refs| ==> (m.refs[p] != {} <==> m.role[p] == User))
    && (forall k :: 0 <= k < |m.free| ==> m.free[k] < |m.role| && m.role[m.free[k]] == Unused)
    && (forall j, k :: 0 <= j < k < |m.free| ==> m.free[j] != m.free[k])
    && (forall p :: 0 <= p < |m.role| && m.role[p] == Unused ==> p in m.free)
  }

  ghost predicate RootOk(m: Mem, p: nat)
    requires p < |m.role|
  {
    m.role[p].Root? ==> IsTable(m, p) && m.role[p].pid in m.roots && m.roots[m.role[p].pid] == p
  }

  /** A middle table hangs off the root it says it does. */
  ghost predicate MidOk(m: Mem, p: nat)
    requires p < |m.role|
  {
    m.role[p].Mid? ==>
      && IsTable(m, p) && m.role[p].pid in m.roots && m.role[p].i2 < NPTE
      && Entry(m, m.roots[m.role[p].pid], m.role[p].i2) == Ptr(p)
  }

  ghost predicate LowOk(m: Mem, p: nat)
    requires p < |m.role|
  {
    m.role[p].Low? ==>
      && IsTable(m, p) && m.role[p].pid in m.roots && m.role[p].i2 < NPTE && m.role[p].i1 < NPTE
      && var e := Entry(m, m.roots[m.role[p].pid], m.role[p].i2);
         e.v && Entry(m, e.ppn, m.role[p].i1) == Ptr(p)
  }

  /** Pointers lead to the tables that belong there. */
  ghost predicate DownOk(m: Mem, p: nat, i: nat)
    requires p < |m.role|
  {
    var e := Entry(m, p, i);
    && (m.role[p].Root? && e.v ==>
          e == Ptr(e.ppn) && e.ppn < |m.role| && m.role[e.ppn] == Mid(m.role[p].pid, i))
    && (m.role[p].Mid? && e.v ==>
          e == Ptr(e.ppn) && e.ppn < |m.role| && m.role[e.ppn] == Low(m.role[p].pid, m.role[p].i2, i))
  }

  ghost predicate TreesOk(m: Mem)
    requires Shape(m)
  {
    && (forall pid :: pid in m.roots ==> m.roots[pid] < |m.role| && m.role[m.roots[pid]] == Root(pid))
    && (forall p :: 0 <= p < |m.role| ==> RootOk(m, p) && MidOk(m, p) && LowOk(m, p))
    && (forall p, i :: 0 <= p < |m.role| && 0 <= i < NPTE ==> DownOk(m, p, i))
  }

  /** Each page table stands for its finite map. */
  ghost predicate PtOk(m: Mem)
    requires Shape(m)
  {
    && (forall k :: k in m.pt ==>
          k.pid in m.roots && k.vpn < MAXVPN && m.pt[k].v && Lookup(m, k.pid, k.vpn) == m.pt[k])
    && (forall pid, vpn :: pid in m.roots && 0 <= vpn < 512 * 262144 && Lookup(m, pid, vpn).v ==>
          Key(pid, vpn) in m.pt)
  }

  /** Mappings and the reference sets mirror each other; mapped pages hold data. */
  ghost predicate RefsOk(m: Mem)
    requires Shape(m)
  {
    && (forall k :: k in m.pt ==>
          m.pt[k].r && m.pt[k].ppn < |m.refs| && k in m.refs[m.pt[k].ppn]
          && m.role[m.pt[k].ppn] == User && IsData(m, m.pt[k].ppn))
    && (forall p, k :: 0 <= p < |m.refs| && k in m.refs[p] ==> k in m.pt && m.pt[k].ppn == p)
  }

  /** A page that is writable through some entry is mapped by that entry alone. */
  ghost predicate CowOk(m: Mem)
    requires Shape(m)
  {
    forall k :: k in m.pt && m.pt[k].w && m.pt[k].ppn < |m.refs| ==>
      !m.pt[k].c && m.refs[m.pt[k].ppn] == {k}
  }

  ghost predicate Inv(m: Mem) {
    Shape(m) && AllocOk(m) && TreesOk(m) && PtOk(m) && RefsOk(m) && CowOk(m)
  }
}
