/** How much physical memory copy-on-write needs: never more than eager copying would.
    Every page in use is a page of some process, counted once however many share it, or a page
    table; the tables are those on the paths to the pages a process has asked for. */
module VmBudget {
  import opened VmModel
  import opened VmTree
  import opened VmSteps
  import Pigeonhole

  /** Tables are among these roles, and the kernel holds no page outside `held`. */
  ghost predicate Within(m: Mem, roles: set<Role>, held: set<nat>) {
    forall p :: 0 <= p < |m.role| ==>
      (InTree(m.role[p]) ==> m.role[p] in roles) && (m.role[p] == Kernel ==> p in held)
  }

  lemma WithinGrow(m: Mem, m': Mem, grown: set<Role>, roles: set<Role>, held: set<nat>)
    requires Within(m, roles, held) && TablesGrow(m, m', grown) && grown <= roles
    ensures Within(m', roles, held)
  {
  }

  lemma WithinFrees(m: Mem, m': Mem, pid: Pid, roles: set<Role>, held: set<nat>)
    requires Within(m, roles, held) && FreesOnly(m, m', pid)
    ensures Within(m', roles, held)
  {
  }

  lemma HoldOne(m: Mem, m1: Mem, q: nat, roles: set<Role>)
    requires Within(m, roles, {}) && q < |m.role| && m1.role == m.role[q := Kernel]
    ensures Within(m1, roles, {q})
  {
  }

  lemma HoldSame(m: Mem, m1: Mem, roles: set<Role>, held: set<nat>)
    requires Within(m, roles, held) && m1.role == m.role
    ensures Within(m1, roles, held)
  {
  }

  lemma HoldNone(m: Mem, q: nat, roles: set<Role>)
    requires Within(m, roles, {q}) && q < |m.role| && m.role[q] != Kernel
    ensures Within(m, roles, {})
  {
  }

  lemma HoldReleased(m: Mem, m1: Mem, q: nat, roles: set<Role>)
    requires Within(m, roles, {q}) && q < |m.role| && m1.role == m.role[q := Unused]
    ensures Within(m1, roles, {})
  {
  }

  // ---- counting pages -------------------------------------------------------------------------------

  /** Two pages never have the same place in a tree. */
  lemma OnePlace(m: Mem, p: nat, q: nat)
    requires Inv(m) && p < |m.role| && q < |m.role| && InTree(m.role[p]) && m.role[p] == m.role[q]
    ensures p == q
  {
    hide AllocOk, PtOk, RefsOk, CowOk;
    assert RootOk(m, p) && MidOk(m, p) && LowOk(m, p);
    assert RootOk(m, q) && MidOk(m, q) && LowOk(m, q);
  }

  ghost function RoleOf(m: Mem, p: nat): (r: Role) {
    if p < |m.role| then m.role[p] else Unused
  }

  /** Some mapping of a user page. */
  ghost function UserOf(m: Mem, p: nat): (k: Key) {
    if p < |m.refs| && m.refs[p] != {} then (var k :| k in m.refs[p]; k) else Key(0, 0)
  }

  lemma UserPages(m: Mem, ps: set<nat>)
    requires Inv(m) && forall p :: p in ps ==> p < |m.role| && m.role[p] == User
    ensures |ps| <= |m.pt|
  {
    hide TreesOk, PtOk, CowOk;
    var f := p => UserOf(m, p);
    forall p | p in ps ensures f(p) in m.pt.Keys && m.pt[f(p)].ppn == p {
      assert m.refs[p] != {} && f(p) in m.refs[p];
    }
    Pigeonhole.Injected(ps, m.pt.Keys, f);
    assert |m.pt.Keys| == |m.pt|;
  }

  lemma TreePages(m: Mem, ps: set<nat>, roles: set<Role>)
    requires Inv(m) && forall p :: p in ps ==> p < |m.role| && InTree(m.role[p]) && m.role[p] in roles
    ensures |ps| <= |roles|
  {
    hide Inv;
    var f := p => RoleOf(m, p);
    forall p, q | p in ps && q in ps && f(p) == f(q) ensures p == q {
      OnePlace(m, p, q);
    }
    Pigeonhole.Injected(ps, roles, f);
  }

  lemma NoneUnused(m: Mem, p: nat)
    requires Inv(m) && m.free == [] && p < |m.role|
    ensures m.role[p] == User || m.role[p] == Kernel || InTree(m.role[p])
  {
  }

  lemma ThreeParts(n: nat, a: set<nat>, b: set<nat>, c: set<nat>)
    requires forall p: nat :: p < n ==> p in a || p in b || p in c
    ensures n <= |a| + |b| + |c|
  {
    var all := Pigeonhole.Range(n);
    Pigeonhole.SubsetSize(all, a + b + c);
    assert |a + b| <= |a| + |b|;
  }

  /** With no page free, physical memory is used up by mappings, tables and what the kernel holds. */
  lemma NoRoom(m: Mem, roles: set<Role>, held: set<nat>)
    requires Inv(m) && m.free == [] && Within(m, roles, held)
    ensures |m.role| <= |m.pt| + |roles| + |held|
  {
    hide Inv, InTree;
    var users := set p: nat | p < |m.role| && m.role[p] == User;
    var tables := set p: nat | p < |m.role| && InTree(m.role[p]);
    UserPages(m, users);
    TreePages(m, tables, roles);
    forall p: nat | p < |m.role| ensures p in users || p in tables || p in held {
      NoneUnused(m, p);
    }
    ThreeParts(|m.role|, users, tables, held);
  }

  /** One page less when a table is missing. */
  lemma NoTable(m: Mem, missing: set<Role>, roles: set<Role>, held: set<nat>)
    requires Inv(m) && Full(m, missing) && missing <= roles && Within(m, roles, held)
    ensures |m.role| < |m.pt| + |roles| + |held|
  {
    hide Inv;
    var r :| r in missing && forall p :: 0 <= p < |m.role| ==> m.role[p] != r;
    NoRoom(m, roles - {r}, held);
  }

  // ---- the tables a process needs ------------------------------------------------------------------------

  ghost function PathsBelow(pid: Pid, n: nat): (roles: set<Role>) {
    if n == 0 then {} else PathsBelow(pid, n - 1) + PathTables(pid, n - 1)
  }

  /** All tables for the pages below n are among these. */
  ghost predicate Covers(roles: set<Role>, pid: Pid, n: nat) {
    PathsBelow(pid, n) <= roles
  }

  lemma {:induction false} PathBelow(pid: Pid, vpn: Vpn, n: nat, roles: set<Role>)
    requires vpn < n && Covers(roles, pid, n)
    ensures PathTables(pid, vpn) <= roles
  {
    hide PathTables;
    if vpn < n - 1 {
      PathBelow(pid, vpn, n - 1, roles);
    }
  }

  /** One more page of a growing range. */
  lemma OnePathMore(m: Mem, m1: Mem, m2: Mem, pid: Pid, vpn: Vpn)
    requires TablesGrow(m, m1, PathsBelow(pid, vpn)) && TablesGrow(m1, m2, PathTables(pid, vpn))
    ensures TablesGrow(m, m2, PathsBelow(pid, vpn + 1))
  {
    hide TablesGrow, PathTables;
    TablesGrowMore(m, m1, PathsBelow(pid, vpn), PathsBelow(pid, vpn + 1));
    TablesGrowMore(m1, m2, PathTables(pid, vpn), PathsBelow(pid, vpn + 1));
    TablesGrowTrans(m, m1, m2, PathsBelow(pid, vpn + 1));
  }

  lemma {:induction false} PathRole(pid: Pid, n: nat, r: Role)
    requires r in PathsBelow(pid, n)
    ensures (r.Mid? || r.Low?) && r.pid == pid
  {
    if r in PathsBelow(pid, n - 1) {
      PathRole(pid, n - 1, r);
    }
  }

  /** The page table of a process that has asked for `n` pages. */
  ghost function TablesOf(pid: Pid, n: nat): (roles: set<Role>) {
    {Root(pid)} + PathsBelow(pid, n)
  }

  function Up(n: nat, d: nat): (r: nat)
    requires d > 0
  {
    (n + d - 1) / d
  }

  lemma MidReach(n: nat, i2: nat)
    ensures Join(i2, 0, 0) < n + 1 <==> Join(i2, 0, 0) < n || i2 == I2(n)
  {
    IndexSplit(n);
    JoinSplit(i2, 0, 0);
  }

  lemma LowReach(n: nat, i2: nat, i1: nat)
    requires i1 < NPTE
    ensures Join(i2, i1, 0) < n + 1 <==> Join(i2, i1, 0) < n || (i2 == I2(n) && i1 == I1(n))
  {
    IndexSplit(n);
    JoinSplit(i2, i1, 0);
  }

  /** PathsBelow holds exactly the tables whose part of the address space begins below n. */
  lemma {:induction false} PathsBelowAre(pid: Pid, n: nat, r: Role)
    ensures r in PathsBelow(pid, n) <==>
      || (r.Mid? && r.pid == pid && Join(r.i2, 0, 0) < n)
      || (r.Low? && r.pid == pid && r.i1 < NPTE && Join(r.i2, r.i1, 0) < n)
  {
    hide Join, I1, I2;
    if n > 0 {
      PathsBelowAre(pid, n - 1, r);
      IndexSplit(n - 1);
      if r.Low? && r.i1 < NPTE {
        LowReach(n - 1, r.i2, r.i1);
      }
      if r.Mid? {
        MidReach(n - 1, r.i2);
      }
    }
  }

  /** One root, one middle table per 2^18 pages and one low table per 512 pages. */
  lemma {:induction false} TablesCount(pid: Pid, n: nat)
    ensures |TablesOf(pid, n)| == 1 + Up(n, 262144) + Up(n, 512)
  {
    hide PathsBelow, Up;
    if n == 0 {
      NoTables(pid);
    } else {
      TablesCount(pid, n - 1);
      OneMorePath(pid, n - 1);
      UpStep(n - 1);
    }
  }

  lemma NoTables(pid: Pid)
    ensures PathsBelow(pid, 0) == {} && Up(0, 262144) == 0 && Up(0, 512) == 0
  {
  }

  lemma UpStep(n: nat)
    ensures Up(n + 1, 262144) == Up(n, 262144) + (if n % 262144 == 0 then 1 else 0)
    ensures Up(n + 1, 512) == Up(n, 512) + (if n % 512 == 0 then 1 else 0)
  {
    UpByOne(n, 262144);
    UpByOne(n, 512);
  }

  lemma UpByOne(n: nat, d: nat)
    requires d == 512 || d == 262144
    ensures Up(n + 1, d) == Up(n, d) + (if n % d == 0 then 1 else 0)
  {
    if d == 512 {
      var q, r := n / 512, n % 512;
      assert n == 512 * q + r;
      assert Up(n, 512) == q + if r == 0 then 0 else 1;
      assert Up(n + 1, 512) == q + 1;
    } else {
      var q, r := n / 262144, n % 262144;
      assert n == 262144 * q + r;
      assert Up(n, 262144) == q + if r == 0 then 0 else 1;
      assert Up(n + 1, 262144) == q + 1;
    }
  }

  lemma NewPath(pid: Pid, n: nat)
    ensures Mid(pid, I2(n)) in PathsBelow(pid, n) <==> n % 262144 != 0
    ensures Low(pid, I2(n), I1(n)) in PathsBelow(pid, n) <==> n % 512 != 0
  {
    hide PathsBelow;
    IndexSplit(n);
    PathsBelowAre(pid, n, Mid(pid, I2(n)));
    PathsBelowAre(pid, n, Low(pid, I2(n), I1(n)));
  }

  lemma OneMorePath(pid: Pid, n: nat)
    ensures |TablesOf(pid, n + 1)| ==
      |TablesOf(pid, n)| + (if n % 262144 == 0 then 1 else 0) + (if n % 512 == 0 then 1 else 0)
  {
    var mid, low := Mid(pid, I2(n)), Low(pid, I2(n), I1(n));
    NewPath(pid, n);
    var t := TablesOf(pid, n);
    assert TablesOf(pid, n + 1) == t + {mid} + {low};
    hide TablesOf, PathsBelow;
    assert |t + {mid}| == |t| + if n % 262144 == 0 then 1 else 0;
    assert low in t + {mid} <==> low in t;
  }

  /** The page tables of all processes. */
  ghost function AllTables(peak: map<Pid, nat>): (roles: set<Role>) {
    set pid, r | pid in peak && r in TablesOf(pid, peak[pid]) :: r
  }

  lemma InAllTables(peak: map<Pid, nat>, r: Role)
    ensures r in AllTables(peak) <==> InTree(r) && r.pid in peak && r in TablesOf(r.pid, peak[r.pid])
  {
    hide TablesOf;
    if r in AllTables(peak) {
      var pid :| pid in peak && r in TablesOf(pid, peak[pid]);
      OwnTables(pid, peak[pid], r);
    }
  }

  lemma OwnTables(pid: Pid, n: nat, r: Role)
    requires r in TablesOf(pid, n)
    ensures InTree(r) && r.pid == pid
  {
    if r != Root(pid) {
      PathRole(pid, n, r);
    }
  }

  lemma AllTablesAdd(peak: map<Pid, nat>, pid: Pid, n: nat)
    requires pid !in peak
    ensures AllTables(peak[pid := n]) == AllTables(peak) + TablesOf(pid, n)
    ensures AllTables(peak) !! TablesOf(pid, n)
    ensures |AllTables(peak[pid := n])| == |AllTables(peak)| + |TablesOf(pid, n)|
  {
    hide AllTables, TablesOf;
    var more := AllTables(peak[pid := n]);
    forall r ensures r in more <==> r in AllTables(peak) || r in TablesOf(pid, n) {
      InAllTables(peak, r);
      InAllTables(peak[pid := n], r);
      if r in TablesOf(pid, n) {
        OwnTables(pid, n, r);
      }
    }
    forall r | r in AllTables(peak) ensures r !in TablesOf(pid, n) {
      InAllTables(peak, r);
      if r in TablesOf(pid, n) {
        OwnTables(pid, n, r);
      }
    }
    assert more == AllTables(peak) + TablesOf(pid, n);
  }

  lemma {:induction false} PathsBelowMonotone(pid: Pid, n: nat, n': nat)
    requires n <= n'
    ensures PathsBelow(pid, n) <= PathsBelow(pid, n')
    decreases n'
  {
    if n < n' {
      PathsBelowMonotone(pid, n, n' - 1);
    }
  }

  lemma AllTablesMonotone(peak: map<Pid, nat>, pid: Pid, n: nat)
    requires pid in peak && peak[pid] <= n
    ensures AllTables(peak) <= AllTables(peak[pid := n])
  {
    hide AllTables, PathsBelow;
    PathsBelowMonotone(pid, peak[pid], n);
    forall r | r in AllTables(peak) ensures r in AllTables(peak[pid := n]) {
      InAllTables(peak, r);
      InAllTables(peak[pid := n], r);
    }
  }
}
