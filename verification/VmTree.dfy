/** How the kernel's stores change the page-table trees. */
module VmTree {
  import opened VmModel

  predicate InTree(r: Role) {
    r.Root? || r.Mid? || r.Low?
  }

  const SLOTS := 512 * 262144

  // ---- stores outside the trees ----------------------------------------------------------------

  /** Table pages and roots are as before; everything else may have changed. */
  ghost predicate SameTables(m: Mem, m': Mem) {
    && Shape(m) && Shape(m') && |m'.role| == |m.role| && m'.roots == m.roots
    && (forall p :: 0 <= p < |m.role| ==> (InTree(m.role[p]) <==> InTree(m'.role[p])))
    && (forall p :: 0 <= p < |m.role| && InTree(m.role[p]) ==>
          m'.role[p] == m.role[p] && m'.frames[p] == m.frames[p])
  }

  /** The page walk() reaches carries the role that says so. */
  lemma LowPageRole(m: Mem, pid: Pid, vpn: Vpn)
    requires Shape(m) && TreesOk(m) && pid in m.roots && vpn < SLOTS
    ensures var low := LowPage(m, pid, vpn);
            low >= 0 ==> low < |m.role| && m.role[low] == Low(pid, I2(vpn), I1(vpn)) && IsTable(m, low)
  {
    var root := m.roots[pid];
    assert RootOk(m, root);
    assert I2(vpn) < NPTE;
    assert DownOk(m, root, I2(vpn));
    var e2 := Entry(m, root, I2(vpn));
    if e2.v {
      assert MidOk(m, e2.ppn);
      assert DownOk(m, e2.ppn, I1(vpn));
      var e1 := Entry(m, e2.ppn, I1(vpn));
      if e1.v {
        assert LowOk(m, e1.ppn);
      }
    }
  }

  lemma SameTablesLookup(m: Mem, m': Mem, pid: Pid, vpn: Vpn)
    requires SameTables(m, m') && TreesOk(m) && pid in m.roots && vpn < SLOTS
    ensures LowPage(m', pid, vpn) == LowPage(m, pid, vpn) && Lookup(m', pid, vpn) == Lookup(m, pid, vpn)
  {
    var root := m.roots[pid];
    assert RootOk(m, root);
    assert I2(vpn) < NPTE;
    assert DownOk(m, root, I2(vpn));
    var e2 := Entry(m, root, I2(vpn));
    if e2.v {
      assert MidOk(m, e2.ppn);
      assert DownOk(m, e2.ppn, I1(vpn));
      var e1 := Entry(m, e2.ppn, I1(vpn));
      if e1.v {
        assert LowOk(m, e1.ppn);
      }
    }
  }

  lemma SameTablesTrees(m: Mem, m': Mem)
    requires SameTables(m, m') && TreesOk(m)
    ensures TreesOk(m')
  {
    forall p | 0 <= p < |m'.role| ensures RootOk(m', p) && MidOk(m', p) && LowOk(m', p) {
      assert RootOk(m, p) && MidOk(m, p) && LowOk(m, p);
      if InTree(m.role[p]) {
        var root := m.roots[m.role[p].pid];
        assert RootOk(m, root);
        if m.role[p].Low? {
          assert DownOk(m, root, m.role[p].i2);
        }
      }
    }
    forall p, i | 0 <= p < |m'.role| && 0 <= i < NPTE ensures DownOk(m', p, i) {
      assert DownOk(m, p, i);
    }
  }

  lemma SameTablesPt(m: Mem, m': Mem)
    requires SameTables(m, m') && TreesOk(m) && PtOk(m) && m'.pt == m.pt
    ensures PtOk(m')
  {
    forall k | k in m'.pt
      ensures k.pid in m'.roots && k.vpn < MAXVPN && m'.pt[k].v && Lookup(m', k.pid, k.vpn) == m'.pt[k]
    {
      SameTablesLookup(m, m', k.pid, k.vpn);
    }
    forall pid, vpn | pid in m'.roots && 0 <= vpn < SLOTS && Lookup(m', pid, vpn).v
      ensures Key(pid, vpn) in m'.pt
    {
      SameTablesLookup(m, m', pid, vpn);
    }
  }

  // ---- walk() linking a fresh table page --------------------------------------------------------

  function ZeroTable(): (f: Frame) {
    Table(seq(NPTE, _ => ZERO))
  }

  function SetEntry(f: Frame, i: nat, e: Pte): (r: Frame)
    requires f.Table? && i < |f.pte|
  {
    Table(f.pte[i := e])
  }

  function ChildRole(r: Role, i: nat): (c: Role)
    requires r.Root? || r.Mid?
  {
    if r.Root? then Mid(r.pid, i) else Low(r.pid, r.i2, i)
  }

  /** A cleared table page q is hung into slot i. */
  function Link(m: Mem, page: nat, i: nat, q: nat): (m': Mem)
    requires Shape(m) && IsTable(m, page) && i < NPTE && q < |m.role|
    requires m.role[page].Root? || m.role[page].Mid?
  {
    m.(frames := m.frames[q := ZeroTable()][page := SetEntry(m.frames[page], i, Ptr(q))],
       role := m.role[q := ChildRole(m.role[page], i)])
  }

  ghost predicate CanLink(m: Mem, page: nat, i: nat, q: nat) {
    && Shape(m) && TreesOk(m) && IsTable(m, page) && i < NPTE && q < |m.role| && q != page
    && (m.role[page].Root? || m.role[page].Mid?) && m.role[q] == Kernel && !Entry(m, page, i).v
  }

  lemma LinkEntry(m: Mem, page: nat, i: nat, q: nat, p: nat, k: nat)
    requires CanLink(m, page, i, q) && k < NPTE
    ensures Shape(Link(m, page, i, q))
    ensures Entry(Link(m, page, i, q), p, k) ==
              if p == page && k == i then Ptr(q) else if p == q then ZERO else Entry(m, p, k)
    ensures p != q ==> (IsTable(Link(m, page, i, q), p) <==> IsTable(m, p))
    ensures IsTable(Link(m, page, i, q), q)
  {
  }

  lemma LinkTrees(m: Mem, page: nat, i: nat, q: nat)
    requires CanLink(m, page, i, q)
    ensures TreesOk(Link(m, page, i, q))
  {
    var m' := Link(m, page, i, q);
    forall p | 0 <= p < |m'.role| ensures RootOk(m', p) && MidOk(m', p) && LowOk(m', p) {
      LinkUp(m, page, i, q, p);
    }
    forall p, k | 0 <= p < |m'.role| && 0 <= k < NPTE ensures DownOk(m', p, k) {
      assert DownOk(m, p, k);
      LinkEntry(m, page, i, q, p, k);
    }
  }

  lemma LinkUp(m: Mem, page: nat, i: nat, q: nat, p: nat)
    requires CanLink(m, page, i, q) && p < |m.role|
    ensures RootOk(Link(m, page, i, q), p) && MidOk(Link(m, page, i, q), p) && LowOk(Link(m, page, i, q), p)
  {
    var m' := Link(m, page, i, q);
    assert RootOk(m, p) && MidOk(m, p) && LowOk(m, p);
    assert RootOk(m, page) && MidOk(m, page);
    LinkEntry(m, page, i, q, p, 0);
    if m'.role[p].Mid? || m'.role[p].Low? {
      var root, i2 := m'.roots[m'.role[p].pid], m'.role[p].i2;
      assert RootOk(m, root);
      LinkEntry(m, page, i, q, root, i2);
      assert DownOk(m, root, i2);
      if m'.role[p].Low? {
        LinkEntry(m, page, i, q, Entry(m', root, i2).ppn, m'.role[p].i1);
      }
    }
  }

  lemma LinkLookup(m: Mem, page: nat, i: nat, q: nat, pid: Pid, vpn: Vpn)
    requires CanLink(m, page, i, q) && pid in m.roots && vpn < SLOTS
    ensures Lookup(Link(m, page, i, q), pid, vpn) == Lookup(m, pid, vpn)
  {
    var m' := Link(m, page, i, q);
    var root := m.roots[pid];
    assert I2(vpn) < NPTE;
    assert RootOk(m, root) && DownOk(m, root, I2(vpn));
    LinkEntry(m, page, i, q, root, I2(vpn));
    var e2 := Entry(m', root, I2(vpn));
    if e2.v {
      LinkEntry(m, page, i, q, e2.ppn, I1(vpn));
      if e2.ppn != q {
        assert MidOk(m, e2.ppn) && DownOk(m, e2.ppn, I1(vpn));
        var e1 := Entry(m', e2.ppn, I1(vpn));
        if e1.v {
          LinkEntry(m, page, i, q, e1.ppn, I0(vpn));
          if e1.ppn != q {
            assert LowOk(m, e1.ppn);
          }
        }
      }
    }
  }

  // ---- storing a leaf entry -----------------------------------------------------------------------

  /** An entry stored in a level-0 table. */
  function Store(m: Mem, low: nat, i: nat, e: Pte): (m': Mem)
    requires IsTable(m, low) && i < NPTE
  {
    m.(frames := m.frames[low := SetEntry(m.frames[low], i, e)])
  }

  lemma StoreEntry(m: Mem, low: nat, i: nat, e: Pte, p: nat, k: nat)
    requires IsTable(m, low) && i < NPTE && k < NPTE
    ensures Entry(Store(m, low, i, e), p, k) == if p == low && k == i then e else Entry(m, p, k)
    ensures IsTable(Store(m, low, i, e), p) <==> IsTable(m, p)
  {
  }

  lemma StoreTrees(m: Mem, low: nat, i: nat, e: Pte)
    requires Shape(m) && TreesOk(m) && IsTable(m, low) && i < NPTE && low < |m.role| && m.role[low].Low?
    ensures TreesOk(Store(m, low, i, e))
  {
    var m' := Store(m, low, i, e);
    forall p | 0 <= p < |m'.role| ensures RootOk(m', p) && MidOk(m', p) && LowOk(m', p) {
      assert RootOk(m, p) && MidOk(m, p) && LowOk(m, p);
      StoreEntry(m, low, i, e, p, 0);
      if InTree(m.role[p]) {
        var root := m.roots[m.role[p].pid];
        assert RootOk(m, root);
        if !m.role[p].Root? {
          assert DownOk(m, root, m.role[p].i2);
          StoreEntry(m, low, i, e, root, m.role[p].i2);
          if m.role[p].Low? {
            StoreEntry(m, low, i, e, Entry(m, root, m.role[p].i2).ppn, m.role[p].i1);
          }
        }
      }
    }
    forall p, k | 0 <= p < |m'.role| && 0 <= k < NPTE ensures DownOk(m', p, k) {
      assert DownOk(m, p, k);
      StoreEntry(m, low, i, e, p, k);
    }
  }

  /** Only the translation of the page whose slot was written changes. */
  lemma StoreLookup(m: Mem, pid: Pid, vpn: Vpn, e: Pte, pid': Pid, vpn': Vpn)
    requires Shape(m) && TreesOk(m) && pid in m.roots && pid' in m.roots && vpn < SLOTS && vpn' < SLOTS
    requires LowPage(m, pid, vpn) >= 0 && IsTable(m, LowPage(m, pid, vpn))
    ensures Lookup(Store(m, LowPage(m, pid, vpn), I0(vpn), e), pid', vpn') ==
              if pid' == pid && vpn' == vpn then e else Lookup(m, pid', vpn')
  {
    var low := LowPage(m, pid, vpn);
    var m' := Store(m, low, I0(vpn), e);
    LowPageRole(m, pid, vpn);
    LowPageRole(m, pid', vpn');
    IndexSplit(vpn);
    IndexSplit(vpn');
    StoreLowPage(m, low, I0(vpn), e, pid', vpn');
    var low' := LowPage(m, pid', vpn');
    if low' >= 0 {
      StoreEntry(m, low, I0(vpn), e, low', I0(vpn'));
    }
  }

  lemma StoreLowPage(m: Mem, low: nat, i: nat, e: Pte, pid: Pid, vpn: Vpn)
    requires Shape(m) && TreesOk(m) && pid in m.roots && vpn < SLOTS
    requires IsTable(m, low) && i < NPTE && low < |m.role| && m.role[low].Low?
    ensures LowPage(Store(m, low, i, e), pid, vpn) == LowPage(m, pid, vpn)
  {
    var root := m.roots[pid];
    assert I2(vpn) < NPTE;
    assert RootOk(m, root) && DownOk(m, root, I2(vpn));
    StoreEntry(m, low, i, e, root, I2(vpn));
    var e2 := Entry(m, root, I2(vpn));
    if e2.v {
      StoreEntry(m, low, i, e, e2.ppn, I1(vpn));
    }
  }

  // ---- freewalk() unlinking an empty table page ----------------------------------------------------

  ghost predicate EmptyTable(m: Mem, p: nat) {
    IsTable(m, p) && forall i :: 0 <= i < NPTE ==> !Entry(m, p, i).v
  }

  /** The entry is cleared, and the child table page is the kernel's again. */
  function Unlink(m: Mem, page: nat, i: nat): (m': Mem)
    requires Shape(m) && IsTable(m, page) && i < NPTE && Entry(m, page, i).ppn < |m.role|
  {
    m.(frames := m.frames[page := SetEntry(m.frames[page], i, ZERO)],
       role := m.role[Entry(m, page, i).ppn := Kernel])
  }

  ghost predicate CanUnlink(m: Mem, page: nat, i: nat) {
    && Shape(m) && TreesOk(m) && IsTable(m, page) && i < NPTE && page < |m.role|
    && (m.role[page].Root? || m.role[page].Mid?) && Entry(m, page, i).v
    && Entry(m, page, i).ppn < |m.role| && EmptyTable(m, Entry(m, page, i).ppn)
  }

  lemma UnlinkEntry(m: Mem, page: nat, i: nat, p: nat, k: nat)
    requires CanUnlink(m, page, i) && k < NPTE
    ensures Shape(Unlink(m, page, i))
    ensures Entry(Unlink(m, page, i), p, k) == if p == page && k == i then ZERO else Entry(m, p, k)
    ensures IsTable(Unlink(m, page, i), p) <==> IsTable(m, p)
  {
  }

  lemma UnlinkUp(m: Mem, page: nat, i: nat, p: nat)
    requires CanUnlink(m, page, i) && p < |m.role|
    ensures RootOk(Unlink(m, page, i), p) && MidOk(Unlink(m, page, i), p) && LowOk(Unlink(m, page, i), p)
  {
    var m' := Unlink(m, page, i);
    var q := Entry(m, page, i).ppn;
    assert RootOk(m, p) && MidOk(m, p) && LowOk(m, p);
    assert DownOk(m, page, i);
    UnlinkEntry(m, page, i, p, 0);
    if m'.role[p].Mid? || m'.role[p].Low? {
      var root, i2 := m.roots[m.role[p].pid], m.role[p].i2;
      assert RootOk(m, root) && RootOk(m, page) && MidOk(m, page);
      assert DownOk(m, root, i2);
      UnlinkEntry(m, page, i, root, i2);
      if m'.role[p].Low? {
        var mid := Entry(m, root, i2).ppn;
        UnlinkEntry(m, page, i, mid, m.role[p].i1);
        assert DownOk(m, mid, m.role[p].i1) && MidOk(m, mid);
      }
    }
  }

  lemma UnlinkTrees(m: Mem, page: nat, i: nat)
    requires CanUnlink(m, page, i)
    ensures TreesOk(Unlink(m, page, i))
  {
    var m' := Unlink(m, page, i);
    var q := Entry(m, page, i).ppn;
    assert DownOk(m, page, i);
    forall p | 0 <= p < |m'.role| ensures RootOk(m', p) && MidOk(m', p) && LowOk(m', p) {
      UnlinkUp(m, page, i, p);
    }
    forall p, k | 0 <= p < |m'.role| && 0 <= k < NPTE ensures DownOk(m', p, k) {
      UnlinkDown(m, page, i, p, k);
    }
  }

  lemma UnlinkDown(m: Mem, page: nat, i: nat, p: nat, k: nat)
    requires CanUnlink(m, page, i) && p < |m.role| && k < NPTE
    ensures DownOk(Unlink(m, page, i), p, k)
  {
    assert DownOk(m, p, k) && DownOk(m, page, i);
    UnlinkEntry(m, page, i, p, k);
    var q, e := Entry(m, page, i).ppn, Entry(m, p, k);
    if (m.role[p].Root? || m.role[p].Mid?) && e.v && e.ppn == q {
      // A second pointer to the same table would give it the same role.
      assert RootOk(m, p) && RootOk(m, page) && MidOk(m, p) && MidOk(m, page);
    }
  }

  lemma UnlinkLookup(m: Mem, page: nat, i: nat, pid: Pid, vpn: Vpn)
    requires CanUnlink(m, page, i) && pid in m.roots && vpn < SLOTS
    ensures Lookup(Unlink(m, page, i), pid, vpn) == ZERO || Lookup(Unlink(m, page, i), pid, vpn) == Lookup(m, pid, vpn)
    ensures Lookup(m, pid, vpn).v ==> Lookup(Unlink(m, page, i), pid, vpn) == Lookup(m, pid, vpn)
  {
    var m' := Unlink(m, page, i);
    var root := m.roots[pid];
    assert I2(vpn) < NPTE;
    UnlinkEntry(m, page, i, root, I2(vpn));
    var e2 := Entry(m, root, I2(vpn));
    UnlinkEntry(m, page, i, e2.ppn, I1(vpn));
    var e1 := Entry(m, e2.ppn, I1(vpn));
    UnlinkEntry(m, page, i, e1.ppn, I0(vpn));
    if e2.v && e1.v {
      assert RootOk(m, root) && DownOk(m, root, I2(vpn)) && MidOk(m, e2.ppn) && DownOk(m, e2.ppn, I1(vpn));
      assert LowOk(m, e1.ppn);
    }
  }

  // ---- creating and removing a root -------------------------------------------------------------------

  /** uvmcreate: an empty page table for a new process. */
  function AddRoot(m: Mem, pid: Pid, q: nat): (m': Mem)
    requires Shape(m) && q < |m.role|
  {
    m.(frames := m.frames[q := ZeroTable()], role := m.role[q := Root(pid)], roots := m.roots[pid := q])
  }

  lemma AddRootTrees(m: Mem, pid: Pid, q: nat)
    requires Shape(m) && TreesOk(m) && q < |m.role| && m.role[q] == Kernel && pid !in m.roots
    ensures Shape(AddRoot(m, pid, q)) && TreesOk(AddRoot(m, pid, q))
  {
    var m' := AddRoot(m, pid, q);
    forall p | 0 <= p < |m'.role| ensures RootOk(m', p) && MidOk(m', p) && LowOk(m', p) {
      assert RootOk(m, p) && MidOk(m, p) && LowOk(m, p);
      if p != q && InTree(m.role[p]) {
        var root := m.roots[m.role[p].pid];
        assert RootOk(m, root);
        if m.role[p].Low? {
          assert DownOk(m, root, m.role[p].i2);
        }
      }
    }
    forall p, i | 0 <= p < |m'.role| && 0 <= i < NPTE ensures DownOk(m', p, i) {
      assert DownOk(m, p, i);
      assert p == q ==> !Entry(m', p, i).v;
    }
  }

  lemma AddRootLookup(m: Mem, pid: Pid, q: nat, pid': Pid, vpn: Vpn)
    requires Shape(m) && TreesOk(m) && q < |m.role| && m.role[q] == Kernel && pid !in m.roots && vpn < SLOTS
    requires pid' in m.roots || pid' == pid
    ensures Lookup(AddRoot(m, pid, q), pid', vpn) == if pid' == pid then ZERO else Lookup(m, pid', vpn)
  {
    var m' := AddRoot(m, pid, q);
    assert I2(vpn) < NPTE;
    if pid' == pid {
      assert Entry(m', q, I2(vpn)) == ZERO;
    } else {
      var root := m.roots[pid'];
      assert RootOk(m, root) && DownOk(m, root, I2(vpn));
      var e2 := Entry(m, root, I2(vpn));
      if e2.v {
        assert MidOk(m, e2.ppn) && DownOk(m, e2.ppn, I1(vpn));
        var e1 := Entry(m, e2.ppn, I1(vpn));
        if e1.v {
          assert LowOk(m, e1.ppn);
        }
      }
    }
  }

  /** The last step of freewalk on a root without children. */
  function DropRoot(m: Mem, pid: Pid): (m': Mem)
    requires Shape(m) && pid in m.roots && m.roots[pid] < |m.role|
  {
    m.(role := m.role[m.roots[pid] := Kernel], roots := m.roots - {pid})
  }

  lemma DropRootTrees(m: Mem, pid: Pid)
    requires Shape(m) && TreesOk(m) && pid in m.roots && EmptyTable(m, m.roots[pid])
    ensures Shape(DropRoot(m, pid)) && TreesOk(DropRoot(m, pid))
  {
    var m' := DropRoot(m, pid);
    forall p | 0 <= p < |m'.role| ensures RootOk(m', p) && MidOk(m', p) && LowOk(m', p) {
      assert RootOk(m, p) && MidOk(m, p) && LowOk(m, p);
      if InTree(m.role[p]) && p != m.roots[pid] {
        assert m.role[p].pid != pid;
      }
    }
    forall p, i | 0 <= p < |m'.role| && 0 <= i < NPTE ensures DownOk(m', p, i) {
      assert DownOk(m, p, i);
    }
  }

  lemma DropRootLookup(m: Mem, pid: Pid, pid': Pid, vpn: Vpn)
    requires Shape(m) && TreesOk(m) && pid in m.roots && EmptyTable(m, m.roots[pid]) && vpn < SLOTS
    ensures pid' != pid ==> Lookup(DropRoot(m, pid), pid', vpn) == Lookup(m, pid', vpn)
    ensures !Lookup(m, pid, vpn).v
  {
    var m' := DropRoot(m, pid);
    assert I2(vpn) < NPTE;
    assert !Entry(m, m.roots[pid], I2(vpn)).v;
    assert forall p, i :: Entry(m', p, i) == Entry(m, p, i);
  }
}
