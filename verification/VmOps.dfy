/** The updates that kernel/kalloc.c, kernel/vm.c and kernel/trap.c make to memory, as functions,
    and what each of them keeps and changes. */
module VmOps {
  import opened VmModel
  import opened VmTree

  function Junk(b: Byte): (f: Frame) {
    Bytes(seq(PGSIZE, _ => b))
  }

  // ---- kalloc and kfree --------------------------------------------------------------------------

  /** kalloc: the first page of the free list, filled with junk, counted once. */
  function Alloc(m: Mem): (m': Mem)
    requires Shape(m) && m.free != [] && m.free[0] < |m.role|
  {
    var p := m.free[0];
    m.(frames := m.frames[p := Junk(5)], pgrc := m.pgrc[p := m.pgrc[p] + 1],
       free := m.free[1..], role := m.role[p := Kernel])
  }

  /** kfree of a page that has one kernel owner. */
  function Release(m: Mem, p: nat): (m': Mem)
    requires Shape(m) && p < |m.role|
  {
    m.(frames := m.frames[p := Junk(1)], pgrc := m.pgrc[p := m.pgrc[p] - 1],
       free := [p] + m.free, role := m.role[p := Unused])
  }

  lemma AllocTables(m: Mem)
    requires Inv(m) && m.free != []
    ensures m.free[0] < |m.role| && m.role[m.free[0]] == Unused && SameTables(m, Alloc(m))
  {
  }

  lemma AllocCounts(m: Mem)
    requires Inv(m) && m.free != []
    ensures m.free[0] < |m.role| && Shape(Alloc(m)) && AllocOk(Alloc(m))
  {
    var m' := Alloc(m);
    forall p | 0 <= p < |m'.role| && m'.role[p] == Unused ensures p in m'.free {
      assert p in m.free && p != m.free[0];
    }
  }

  /** A page that is not mapped may change without anyone noticing. */
  lemma UnmappedFrame(m: Mem, m': Mem, p: nat)
    requires Shape(m) && Shape(m') && RefsOk(m) && CowOk(m) && p < |m.role| && m.role[p] != User
    requires m'.refs == m.refs && m'.pt == m.pt && |m'.role| == |m.role|
    requires forall q :: 0 <= q < |m.role| && q != p ==> m'.role[q] == m.role[q] && m'.frames[q] == m.frames[q]
    ensures RefsOk(m') && CowOk(m')
  {
  }

  lemma AllocInv(m: Mem)
    requires Inv(m) && m.free != []
    ensures m.free[0] < |m.role| && Inv(Alloc(m)) && Alloc(m).role[m.free[0]] == Kernel && IsData(Alloc(m), m.free[0])
  {
    AllocTables(m);
    AllocCounts(m);
    SameTablesTrees(m, Alloc(m));
    SameTablesPt(m, Alloc(m));
    UnmappedFrame(m, Alloc(m), m.free[0]);
  }

  lemma ReleaseCounts(m: Mem, p: nat)
    requires Inv(m) && p < |m.role| && m.role[p] == Kernel
    ensures Shape(Release(m, p)) && AllocOk(Release(m, p))
  {
    var m' := Release(m, p);
    forall q | 0 <= q < |m'.role| && m'.role[q] == Unused ensures q in m'.free {
      if q != p {
        assert q in m.free;
      }
    }
  }

  lemma ReleaseInv(m: Mem, p: nat)
    requires Inv(m) && p < |m.role| && m.role[p] == Kernel
    ensures Inv(Release(m, p))
  {
    ReleaseCounts(m, p);
    SameTablesTrees(m, Release(m, p));
    SameTablesPt(m, Release(m, p));
    UnmappedFrame(m, Release(m, p), p);
  }

  // ---- linking a table page ------------------------------------------------------------------------

  lemma LinkPt(m: Mem, page: nat, i: nat, q: nat)
    requires CanLink(m, page, i, q) && PtOk(m)
    ensures Shape(Link(m, page, i, q)) && PtOk(Link(m, page, i, q))
  {
    var m' := Link(m, page, i, q);
    forall k | k in m'.pt
      ensures k.pid in m'.roots && k.vpn < MAXVPN && m'.pt[k].v && Lookup(m', k.pid, k.vpn) == m'.pt[k]
    {
      LinkLookup(m, page, i, q, k.pid, k.vpn);
    }
    forall pid, vpn | pid in m'.roots && 0 <= vpn < SLOTS && Lookup(m', pid, vpn).v
      ensures Key(pid, vpn) in m'.pt
    {
      LinkLookup(m, page, i, q, pid, vpn);
    }
  }

  lemma LinkInv(m: Mem, page: nat, i: nat, q: nat)
    requires Inv(m) && CanLink(m, page, i, q)
    ensures Inv(Link(m, page, i, q))
  {
    LinkTrees(m, page, i, q);
    LinkPt(m, page, i, q);
    LinkRest(m, page, i, q);
  }

  lemma LinkRest(m: Mem, page: nat, i: nat, q: nat)
    requires Inv(m) && CanLink(m, page, i, q)
    ensures var m' := Link(m, page, i, q); Shape(m') && AllocOk(m') && RefsOk(m') && CowOk(m')
  {
    hide TreesOk, PtOk;
    var m' := Link(m, page, i, q);
    assert m.role[page] != User && m.role[q] != User;
    CountsChange(m, m', q);
  }

  // ---- changing one leaf entry -----------------------------------------------------------------------

  ghost predicate HasSlot(m: Mem, k: Key) {
    && Shape(m) && k.pid in m.roots && k.vpn < MAXVPN
    && LowPage(m, k.pid, k.vpn) >= 0 && IsTable(m, LowPage(m, k.pid, k.vpn))
  }

  /** Write the entry of a page number, and the finite map with it. */
  ghost function SetLeaf(m: Mem, k: Key, e: Pte): (m': Mem)
    requires HasSlot(m, k)
  {
    Store(m, LowPage(m, k.pid, k.vpn), I0(k.vpn), e).(pt := if e.v then m.pt[k := e] else m.pt - {k})
  }

  lemma SetLeafLookup(m: Mem, k: Key, e: Pte, pid: Pid, vpn: Vpn)
    requires HasSlot(m, k) && TreesOk(m) && pid in m.roots && vpn < SLOTS
    ensures Lookup(SetLeaf(m, k, e), pid, vpn) == if Key(pid, vpn) == k then e else Lookup(m, pid, vpn)
  {
    StoreLookup(m, k.pid, k.vpn, e, pid, vpn);
    var m1 := Store(m, LowPage(m, k.pid, k.vpn), I0(k.vpn), e);
    assert LowPage(SetLeaf(m, k, e), pid, vpn) == LowPage(m1, pid, vpn);
  }

  lemma SetLeafTrees(m: Mem, k: Key, e: Pte)
    requires HasSlot(m, k) && TreesOk(m)
    ensures Shape(SetLeaf(m, k, e)) && TreesOk(SetLeaf(m, k, e))
  {
    LowPageRole(m, k.pid, k.vpn);
    var m1 := Store(m, LowPage(m, k.pid, k.vpn), I0(k.vpn), e);
    StoreTrees(m, LowPage(m, k.pid, k.vpn), I0(k.vpn), e);
    SameTablesTrees(m1, SetLeaf(m, k, e));
  }

  lemma SetLeafPt(m: Mem, k: Key, e: Pte)
    requires HasSlot(m, k) && TreesOk(m) && PtOk(m)
    ensures Shape(SetLeaf(m, k, e)) && PtOk(SetLeaf(m, k, e))
  {
    var m' := SetLeaf(m, k, e);
    forall j | j in m'.pt
      ensures j.pid in m'.roots && j.vpn < MAXVPN && m'.pt[j].v && Lookup(m', j.pid, j.vpn) == m'.pt[j]
    {
      SetLeafLookup(m, k, e, j.pid, j.vpn);
    }
    forall pid, vpn | pid in m'.roots && 0 <= vpn < SLOTS && Lookup(m', pid, vpn).v
      ensures Key(pid, vpn) in m'.pt
    {
      SetLeafLookup(m, k, e, pid, vpn);
    }
  }

  /** The trees and maps after an operation that writes one leaf entry and touches no other table. */
  lemma LeafThenBooks(m: Mem, k: Key, e: Pte, m': Mem)
    requires Inv(m) && HasSlot(m, k)
    requires SameTables(SetLeaf(m, k, e), m') && m'.pt == SetLeaf(m, k, e).pt
    ensures TreesOk(m') && PtOk(m')
  {
    SetLeafTrees(m, k, e);
    SetLeafPt(m, k, e);
    SameTablesTrees(SetLeaf(m, k, e), m');
    SameTablesPt(SetLeaf(m, k, e), m');
  }

  // ---- operations on mappings -------------------------------------------------------------------------

  /** Map a page that a kernel owner holds: the owner's count becomes the mapping's. */
  ghost function MapFresh(m: Mem, k: Key, e: Pte): (m': Mem)
    requires HasSlot(m, k) && e.ppn < |m.role|
  {
    SetLeaf(m, k, e).(role := m.role[e.ppn := User], refs := m.refs[e.ppn := {k}])
  }

  ghost predicate CanMap(m: Mem, k: Key, e: Pte) {
    HasSlot(m, k) && k !in m.pt && e.v && e.r && e.ppn < |m.role|
  }

  /** The slot lies in a table page, never in a data page or a free one. */
  lemma SlotRole(m: Mem, k: Key)
    requires Inv(m) && HasSlot(m, k)
    ensures LowPage(m, k.pid, k.vpn) < |m.role| && m.role[LowPage(m, k.pid, k.vpn)].Low?
  {
    LowPageRole(m, k.pid, k.vpn);
  }

  /** Writing a leaf entry leaves every data page alone. */
  lemma SetLeafData(m: Mem, k: Key, e: Pte, p: nat)
    requires Inv(m) && HasSlot(m, k) && p < |m.role| && !m.role[p].Low?
    ensures Shape(SetLeaf(m, k, e)) && SetLeaf(m, k, e).frames[p] == m.frames[p]
  {
    SlotRole(m, k);
  }

  /** RefsOk and CowOk of an operation that changes the mapping of `k` and the references of `p`. */
  lemma BooksChange(m: Mem, m': Mem, k: Key, p: nat)
    requires Shape(m) && Shape(m') && RefsOk(m) && CowOk(m) && |m'.role| == |m.role| && p < |m.role|
    requires m'.pt - {k} == m.pt - {k} && m'.refs == m.refs[p := m'.refs[p]]
    requires k in m.pt ==> m.pt[k].ppn == p
    requires m'.refs[p] - {k} == m.refs[p] - {k} && (k in m'.refs[p] <==> k in m'.pt)
    requires k in m'.pt ==> m'.pt[k].ppn == p && m'.pt[k].r && (m'.pt[k].w ==> !m'.pt[k].c && m'.refs[p] == {k})
    requires forall j :: j in m.pt && j != k && m.pt[j].ppn == p && m.pt[j].w ==> k !in m'.pt
    requires m'.refs[p] != {} ==> m'.role[p] == User && IsData(m', p)
    requires forall q :: 0 <= q < |m.role| && q != p && m.role[q] == User ==>
      m'.role[q] == User && m'.frames[q] == m.frames[q]
    ensures RefsOk(m') && CowOk(m')
  {
    forall j | j in m'.pt
      ensures m'.pt[j].r && m'.pt[j].ppn < |m'.refs| && j in m'.refs[m'.pt[j].ppn]
      ensures m'.role[m'.pt[j].ppn] == User && IsData(m', m'.pt[j].ppn)
    {
      SameElsewhere(m, m', k, j);
      if j != k && m'.pt[j].ppn == p {
        assert j in m.refs[p] - {k};
      }
    }
    forall q, j | 0 <= q < |m'.refs| && j in m'.refs[q] ensures j in m'.pt && m'.pt[j].ppn == q {
      if j != k {
        assert j in m.refs[q] by { assert q == p ==> j in m'.refs[p] - {k}; }
        SameElsewhere(m, m', k, j);
      }
    }
    forall j | j in m'.pt && m'.pt[j].w && m'.pt[j].ppn < |m'.refs|
      ensures !m'.pt[j].c && m'.refs[m'.pt[j].ppn] == {j}
    {
      SameElsewhere(m, m', k, j);
      if j != k && m'.pt[j].ppn == p {
        assert m.refs[p] == {j} && m'.refs[p] - {k} == {j};
      }
    }
  }

  lemma SameElsewhere(m: Mem, m': Mem, k: Key, j: Key)
    requires m'.pt - {k} == m.pt - {k}
    ensures j != k ==> (j in m'.pt <==> j in m.pt) && (j in m.pt ==> m'.pt[j] == m.pt[j])
  {
    assert j in m'.pt - {k} <==> j in m.pt - {k};
  }

  /** AllocOk of an operation that leaves the free list and the unused pages as they are. */
  lemma CountsChange(m: Mem, m': Mem, p: nat)
    requires Shape(m) && Shape(m') && AllocOk(m) && p < |m.role| == |m'.role|
    requires m'.free == m.free && m'.role == m.role[p := m'.role[p]] && m'.refs == m.refs[p := m'.refs[p]]
    requires m'.pgrc == m.pgrc[p := m'.pgrc[p]] && m.role[p] != Unused && m'.role[p] != Unused
    requires m'.pgrc[p] == Uses(m', p) && (m'.refs[p] != {} <==> m'.role[p] == User)
    ensures AllocOk(m')
  {
    forall q | 0 <= q < |m'.role| && m'.role[q] == Unused ensures q in m'.free {
      assert m.role[q] == Unused;
    }
  }

  lemma MapFreshBooks(m: Mem, k: Key, e: Pte)
    requires Inv(m) && CanMap(m, k, e) && m.role[e.ppn] == Kernel && IsData(m, e.ppn) && !(e.w && e.c)
    ensures var m' := MapFresh(m, k, e); Shape(m') && AllocOk(m') && RefsOk(m') && CowOk(m')
  {
    hide TreesOk, PtOk, LowPage, SetEntry;
    var m' := MapFresh(m, k, e);
    assert m.refs[e.ppn] == {};
    forall q | 0 <= q < |m.role| && !m.role[q].Low? ensures m'.frames[q] == m.frames[q] {
      SetLeafData(m, k, e, q);
    }
    CountsChange(m, m', e.ppn);
    BooksChange(m, m', k, e.ppn);
  }

  lemma MapFreshInv(m: Mem, k: Key, e: Pte)
    requires Inv(m) && CanMap(m, k, e) && m.role[e.ppn] == Kernel && IsData(m, e.ppn) && !(e.w && e.c)
    ensures Inv(MapFresh(m, k, e))
  {
    hide AllocOk, RefsOk, CowOk, TreesOk, PtOk, LowPage;
    MapFreshBooks(m, k, e);
    SlotRole(m, k);
    LeafThenBooks(m, k, e, MapFresh(m, k, e));
  }

  /** Map a page once more: mappages followed by incpgrc in uvmcopy. */
  ghost function Share(m: Mem, k: Key, e: Pte): (m': Mem)
    requires HasSlot(m, k) && e.ppn < |m.role|
  {
    SetLeaf(m, k, e).(
      refs := m.refs[e.ppn := m.refs[e.ppn] + {k}], pgrc := m.pgrc[e.ppn := m.pgrc[e.ppn] + 1])
  }

  ghost predicate NoWriter(m: Mem, p: nat) {
    forall k :: k in m.pt && m.pt[k].ppn == p ==> !m.pt[k].w
  }

  lemma ShareBooks(m: Mem, k: Key, e: Pte)
    requires Inv(m) && CanMap(m, k, e) && m.role[e.ppn] == User && !e.w && NoWriter(m, e.ppn)
    ensures var m' := Share(m, k, e); Shape(m') && AllocOk(m') && RefsOk(m') && CowOk(m')
  {
    hide TreesOk, PtOk, LowPage, SetEntry;
    var m' := Share(m, k, e);
    assert k !in m.refs[e.ppn];
    assert IsData(m, e.ppn) by {
      var r :| r in m.refs[e.ppn];
      assert m.pt[r].ppn == e.ppn;
    }
    forall q | 0 <= q < |m.role| && !m.role[q].Low? ensures m'.frames[q] == m.frames[q] {
      SetLeafData(m, k, e, q);
    }
    assert m'.refs[e.ppn] - {k} == m.refs[e.ppn] - {k};
    CountsChange(m, m', e.ppn);
    BooksChange(m, m', k, e.ppn);
  }

  lemma ShareInv(m: Mem, k: Key, e: Pte)
    requires Inv(m) && CanMap(m, k, e) && m.role[e.ppn] == User && !e.w && NoWriter(m, e.ppn)
    ensures Inv(Share(m, k, e))
  {
    hide AllocOk, RefsOk, CowOk, TreesOk, PtOk, LowPage;
    ShareBooks(m, k, e);
    SlotRole(m, k);
    LeafThenBooks(m, k, e, Share(m, k, e));
  }

  ghost predicate Mapped(m: Mem, k: Key) {
    Shape(m) && k in m.pt && m.pt[k].ppn < |m.role|
  }

  /** A mapped page has a slot, and its entry is what the finite map says. */
  lemma MappedHasSlot(m: Mem, k: Key)
    requires Inv(m) && k in m.pt
    ensures HasSlot(m, k) && Mapped(m, k) && Lookup(m, k.pid, k.vpn) == m.pt[k]
    ensures m.pt[k].v && m.pt[k].r && m.role[m.pt[k].ppn] == User && IsData(m, m.pt[k].ppn)
    ensures k in m.refs[m.pt[k].ppn] && m.pgrc[m.pt[k].ppn] == |m.refs[m.pt[k].ppn]| >= 1
  {
    assert Lookup(m, k.pid, k.vpn).v;
    LowPageRole(m, k.pid, k.vpn);
    var p := m.pt[k].ppn;
    assert m.refs[p] != {} && m.role[p] == User && m.pgrc[p] == Uses(m, p);
  }

  /** Remove a mapping and kfree its page: the page is freed when the last mapping goes. */
  ghost function Drop(m: Mem, k: Key): (m': Mem)
    requires HasSlot(m, k) && Mapped(m, k)
  {
    var p := m.pt[k].ppn;
    var m1 := SetLeaf(m, k, ZERO).(
                refs := m.refs[p := m.refs[p] - {k}], pgrc := m.pgrc[p := m.pgrc[p] - 1]);
    if m.refs[p] == {k} then
      m1.(role := m.role[p := Unused], free := [p] + m.free, frames := m1.frames[p := Junk(1)])
    else m1
  }

  lemma DropAlloc(m: Mem, k: Key)
    requires Inv(m) && k in m.pt && HasSlot(m, k) && Mapped(m, k)
    ensures var m' := Drop(m, k); Shape(m') && AllocOk(m')
  {
    hide TreesOk, PtOk, LowPage, CowOk, RefsOk, SetEntry;
    MappedHasSlot(m, k);
    var m' := Drop(m, k);
    var p := m.pt[k].ppn;
    assert m.refs[p] == (m.refs[p] - {k}) + {k};
    if m.refs[p] != {k} {
      CountsChange(m, m', p);
    } else {
      forall q | 0 <= q < |m'.role| && m'.role[q] == Unused ensures q in m'.free {
        if q != p {
          assert q in m.free;
        }
      }
    }
  }

  lemma DropRefs(m: Mem, k: Key)
    requires Inv(m) && k in m.pt && HasSlot(m, k) && Mapped(m, k)
    ensures var m' := Drop(m, k); Shape(m') && RefsOk(m') && CowOk(m')
  {
    hide TreesOk, PtOk, LowPage, SetEntry, AllocOk;
    MappedHasSlot(m, k);
    var m' := Drop(m, k);
    var p := m.pt[k].ppn;
    forall q | 0 <= q < |m.role| && !m.role[q].Low? && q != p ensures m'.frames[q] == m.frames[q] {
      SetLeafData(m, k, ZERO, q);
    }
    SetLeafData(m, k, ZERO, p);
    assert m'.refs[p] - {k} == m.refs[p] - {k};
    assert m.refs[p] == m'.refs[p] + {k};
    BooksChange(m, m', k, p);
  }

  lemma DropInv(m: Mem, k: Key)
    requires Inv(m) && k in m.pt
    ensures HasSlot(m, k) && Mapped(m, k) && Inv(Drop(m, k))
  {
    hide AllocOk, RefsOk, CowOk, TreesOk, PtOk, LowPage;
    MappedHasSlot(m, k);
    DropAlloc(m, k);
    DropRefs(m, k);
    SlotRole(m, k);
    LeafThenBooks(m, k, ZERO, Drop(m, k));
  }

  /** fork takes write permission away and leaves the copy-on-write mark. */
  function Marked(e: Pte): (r: Pte) {
    if e.w then e.(w := false, c := true) else e
  }

  lemma ProtectBooks(m: Mem, k: Key)
    requires Inv(m) && k in m.pt && HasSlot(m, k)
    ensures var m' := SetLeaf(m, k, Marked(m.pt[k]));
            Shape(m') && AllocOk(m') && RefsOk(m') && CowOk(m') && NoWriter(m', m.pt[k].ppn)
  {
    hide TreesOk, PtOk, LowPage, SetEntry;
    MappedHasSlot(m, k);
    var m' := SetLeaf(m, k, Marked(m.pt[k]));
    var p := m.pt[k].ppn;
    forall q | 0 <= q < |m.role| && !m.role[q].Low? ensures m'.frames[q] == m.frames[q] {
      SetLeafData(m, k, Marked(m.pt[k]), q);
    }
    forall j | j in m.pt && j != k && m.pt[j].ppn == p ensures !m.pt[j].w {
      assert k in m.refs[p] && j in m.refs[p];
    }
    CountsChange(m, m', p);
    BooksChange(m, m', k, p);
  }

  lemma ProtectInv(m: Mem, k: Key)
    requires Inv(m) && k in m.pt
    ensures HasSlot(m, k) && Inv(SetLeaf(m, k, Marked(m.pt[k])))
    ensures NoWriter(SetLeaf(m, k, Marked(m.pt[k])), m.pt[k].ppn)
  {
    hide AllocOk, RefsOk, CowOk, TreesOk, PtOk, LowPage;
    MappedHasSlot(m, k);
    SlotRole(m, k);
    ProtectBooks(m, k);
    LeafThenBooks(m, k, Marked(m.pt[k]), SetLeaf(m, k, Marked(m.pt[k])));
  }

  /** Replace the content of a data page. */
  function Poke(m: Mem, p: nat, data: seq<Byte>): (m': Mem)
    requires p < |m.frames|
  {
    m.(frames := m.frames[p := Bytes(data)])
  }

  lemma PokeInv(m: Mem, p: nat, data: seq<Byte>)
    requires Inv(m) && p < |m.role| && (m.role[p] == User || m.role[p] == Kernel) && |data| == PGSIZE
    ensures Inv(Poke(m, p, data))
  {
    var m' := Poke(m, p, data);
    SameTablesTrees(m, m');
    SameTablesPt(m, m');
    PokeBooks(m, p, data);
  }

  lemma PokeBooks(m: Mem, p: nat, data: seq<Byte>)
    requires Inv(m) && p < |m.role| && (m.role[p] == User || m.role[p] == Kernel) && |data| == PGSIZE
    ensures var m' := Poke(m, p, data); Shape(m') && AllocOk(m') && RefsOk(m') && CowOk(m')
  {
    hide TreesOk, PtOk;
  }

  // ---- growing and shrinking the set of page tables ------------------------------------------------------

  /** Only roles and table pages outside the data pages change: counts and references stay exact. */
  lemma TablePageBooks(m: Mem, m': Mem, p: nat)
    requires Inv(m) && Shape(m') && p < |m.role| == |m'.role| && !m.role[p].User? && m.role[p] != Unused
    requires m'.role == m.role[p := m'.role[p]] && m'.role[p] != Unused && m'.role[p] != User
    requires m'.free == m.free && m'.pgrc == m.pgrc && m'.refs == m.refs && m'.pt == m.pt
    requires forall q :: 0 <= q < |m.role| && m.role[q] == User ==> m'.frames[q] == m.frames[q]
    ensures AllocOk(m') && RefsOk(m') && CowOk(m')
  {
    hide TreesOk, PtOk;
    CountsChange(m, m', p);
  }

  lemma UnlinkInv(m: Mem, page: nat, i: nat)
    requires Inv(m) && CanUnlink(m, page, i)
    ensures Inv(Unlink(m, page, i)) && Unlink(m, page, i).role[Entry(m, page, i).ppn] == Kernel
  {
    var m' := Unlink(m, page, i);
    UnlinkTrees(m, page, i);
    forall k | k in m'.pt
      ensures k.pid in m'.roots && k.vpn < MAXVPN && m'.pt[k].v && Lookup(m', k.pid, k.vpn) == m'.pt[k]
    {
      UnlinkLookup(m, page, i, k.pid, k.vpn);
    }
    forall pid, vpn | pid in m'.roots && 0 <= vpn < SLOTS && Lookup(m', pid, vpn).v
      ensures Key(pid, vpn) in m'.pt
    {
      UnlinkLookup(m, page, i, pid, vpn);
    }
    assert DownOk(m, page, i);
    TablePageBooks(m, m', Entry(m, page, i).ppn);
  }

  lemma AddRootInv(m: Mem, pid: Pid, q: nat)
    requires Inv(m) && q < |m.role| && m.role[q] == Kernel && pid !in m.roots
    ensures Inv(AddRoot(m, pid, q))
  {
    var m' := AddRoot(m, pid, q);
    AddRootTrees(m, pid, q);
    forall k | k in m'.pt
      ensures k.pid in m'.roots && k.vpn < MAXVPN && m'.pt[k].v && Lookup(m', k.pid, k.vpn) == m'.pt[k]
    {
      AddRootLookup(m, pid, q, k.pid, k.vpn);
    }
    forall pid', vpn | pid' in m'.roots && 0 <= vpn < SLOTS && Lookup(m', pid', vpn).v
      ensures Key(pid', vpn) in m'.pt
    {
      AddRootLookup(m, pid, q, pid', vpn);
    }
    TablePageBooks(m, m', q);
  }

  lemma DropRootInv(m: Mem, pid: Pid)
    requires Inv(m) && pid in m.roots && EmptyTable(m, m.roots[pid])
    ensures m.roots[pid] < |m.role| && Inv(DropRoot(m, pid)) && DropRoot(m, pid).role[m.roots[pid]] == Kernel
  {
    var m' := DropRoot(m, pid);
    DropRootTrees(m, pid);
    forall k | k in m'.pt
      ensures k.pid in m'.roots && k.vpn < MAXVPN && m'.pt[k].v && Lookup(m', k.pid, k.vpn) == m'.pt[k]
    {
      DropRootLookup(m, pid, k.pid, k.vpn);
    }
    forall pid', vpn | pid' in m'.roots && 0 <= vpn < SLOTS && Lookup(m', pid', vpn).v
      ensures Key(pid', vpn) in m'.pt
    {
      DropRootLookup(m, pid, pid', vpn);
    }
    TablePageBooks(m, m', m.roots[pid]);
  }
}
