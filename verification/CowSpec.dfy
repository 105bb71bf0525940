/** What user programs can see of memory: every process has its own private pages.
    The eager view forgets which physical pages are shared; a page counts as writable when its
    entry has W or the copy-on-write mark. */
module CowSpec {
  import opened VmModel
  import opened VmTree
  import opened VmOps

  datatype UPage = UPage(data: seq<Byte>, w: bool, x: bool, u: bool)

  ghost function PageOf(m: Mem, k: Key): (r: UPage)
    requires k in m.pt
  {
    var e := m.pt[k];
    UPage(if IsData(m, e.ppn) then m.frames[e.ppn].data else [], e.w || e.c, e.x, e.u)
  }

  ghost function Eager(m: Mem): (v: map<Key, UPage>) {
    map k | k in m.pt :: PageOf(m, k)
  }

  /** Nothing visible changes when the mappings and the mapped pages stay. */
  lemma EagerSame(m: Mem, m': Mem)
    requires Inv(m) && Shape(m') && |m'.role| == |m.role| && m'.pt == m.pt
    requires forall p :: 0 <= p < |m.role| && m.role[p] == User ==> m'.frames[p] == m.frames[p]
    ensures Eager(m') == Eager(m)
  {
    hide AllocOk, TreesOk, PtOk, CowOk;
    forall k | k in m.pt ensures PageOf(m', k) == PageOf(m, k) {
      assert m.role[m.pt[k].ppn] == User;
    }
  }

  ghost predicate SamePages(m: Mem, m': Mem, k: Key) {
    forall j :: j in m.pt && j != k && m.pt[j].ppn < |m.frames| == |m'.frames| ==>
      m'.frames[m.pt[j].ppn] == m.frames[m.pt[j].ppn]
  }

  lemma SamePage(m: Mem, m': Mem, k: Key, j: Key)
    requires Inv(m) && Shape(m') && |m'.role| == |m.role| && m'.pt - {k} == m.pt - {k} && SamePages(m, m', k) && j != k
    ensures j in Eager(m') <==> j in Eager(m)
    ensures j in Eager(m) ==> Eager(m')[j] == Eager(m)[j]
  {
    hide AllocOk, TreesOk, PtOk, CowOk;
    SameElsewhere(m, m', k, j);
  }

  /** One mapping changes and the pages of the others stay. */
  lemma EagerAt(m: Mem, m': Mem, k: Key)
    requires Inv(m) && Shape(m') && |m'.role| == |m.role| && m'.pt - {k} == m.pt - {k} && SamePages(m, m', k)
    ensures Eager(m') - {k} == Eager(m) - {k}
    ensures k in m'.pt ==> Eager(m') == Eager(m)[k := PageOf(m', k)]
    ensures k !in m'.pt ==> Eager(m') == Eager(m) - {k}
  {
    hide Inv, SamePages;
    var v, v' := Eager(m), Eager(m');
    forall j: Key | j != k ensures (j in v' <==> j in v) && (j in v ==> v'[j] == v[j]) {
      SamePage(m, m', k, j);
    }
    assert k in v' <==> k in m'.pt;
    assert k in v' ==> v'[k] == PageOf(m', k);
    hide Eager, PageOf;
    assert v' - {k} == v - {k};
  }

  lemma AllocEager(m: Mem)
    requires Inv(m) && m.free != []
    ensures m.free[0] < |m.role| && Eager(Alloc(m)) == Eager(m)
  {
    EagerSame(m, Alloc(m));
  }

  lemma LinkEager(m: Mem, page: nat, i: nat, q: nat)
    requires Inv(m) && CanLink(m, page, i, q)
    ensures Eager(Link(m, page, i, q)) == Eager(m)
  {
    EagerSame(m, Link(m, page, i, q));
  }

  lemma MapFreshEager(m: Mem, k: Key, e: Pte)
    requires Inv(m) && CanMap(m, k, e) && m.role[e.ppn] == Kernel && IsData(m, e.ppn)
    ensures Eager(MapFresh(m, k, e)) == Eager(m)[k := UPage(m.frames[e.ppn].data, e.w || e.c, e.x, e.u)]
  {
    hide AllocOk, TreesOk, PtOk, CowOk, LowPage, SetEntry;
    var m' := MapFresh(m, k, e);
    forall q | 0 <= q < |m.role| && !m.role[q].Low? ensures m'.frames[q] == m.frames[q] {
      SetLeafData(m, k, e, q);
    }
    EagerAt(m, m', k);
  }

  lemma ShareEager(m: Mem, k: Key, e: Pte)
    requires Inv(m) && CanMap(m, k, e) && m.role[e.ppn] == User && IsData(m, e.ppn)
    ensures Eager(Share(m, k, e)) == Eager(m)[k := UPage(m.frames[e.ppn].data, e.w || e.c, e.x, e.u)]
  {
    hide AllocOk, TreesOk, PtOk, CowOk, LowPage, SetEntry;
    var m' := Share(m, k, e);
    forall q | 0 <= q < |m.role| && !m.role[q].Low? ensures m'.frames[q] == m.frames[q] {
      SetLeafData(m, k, e, q);
    }
    EagerAt(m, m', k);
  }

  lemma DropEager(m: Mem, k: Key)
    requires Inv(m) && k in m.pt
    ensures HasSlot(m, k) && Mapped(m, k) && Eager(Drop(m, k)) == Eager(m) - {k}
  {
    hide AllocOk, TreesOk, PtOk, CowOk, LowPage, SetEntry;
    MappedHasSlot(m, k);
    var m' := Drop(m, k);
    var p := m.pt[k].ppn;
    forall j | j in m.pt && j != k ensures m'.frames[m.pt[j].ppn] == m.frames[m.pt[j].ppn] {
      MappedHasSlot(m, j);
      SetLeafData(m, k, ZERO, m.pt[j].ppn);
      assert m.pt[j].ppn == p ==> j in m.refs[p];
    }
    EagerAt(m, m', k);
  }

  lemma ProtectEager(m: Mem, k: Key)
    requires Inv(m) && k in m.pt
    ensures HasSlot(m, k) && Eager(SetLeaf(m, k, Marked(m.pt[k]))) == Eager(m)
  {
    hide AllocOk, TreesOk, PtOk, CowOk, LowPage, SetEntry;
    MappedHasSlot(m, k);
    var m' := SetLeaf(m, k, Marked(m.pt[k]));
    forall q | 0 <= q < |m.role| && !m.role[q].Low? ensures m'.frames[q] == m.frames[q] {
      SetLeafData(m, k, Marked(m.pt[k]), q);
    }
    EagerAt(m, m', k);
    assert PageOf(m', k) == PageOf(m, k);
  }

  /** A store through an entry with W is seen by that process alone. */
  lemma PokeEager(m: Mem, k: Key, data: seq<Byte>)
    requires Inv(m) && k in m.pt && m.pt[k].w && |data| == PGSIZE
    ensures m.pt[k].ppn < |m.frames| && k in Eager(m)
    ensures Eager(Poke(m, m.pt[k].ppn, data)) == Eager(m)[k := Eager(m)[k].(data := data)]
  {
    var m' := Poke(m, m.pt[k].ppn, data);
    forall j | j in m.pt && j != k ensures m'.frames[m.pt[j].ppn] == m.frames[m.pt[j].ppn] {
      assert j in m.refs[m.pt[j].ppn] && m.refs[m.pt[k].ppn] == {k};
    }
    EagerAt(m, m', k);
  }

  /** A store through an entry without W changes the page of exactly the keys that share it: it
      stays private, whatever is written, if and only if the page has no other mapping. */
  lemma StorePrivateIff(m: Mem, k: Key)
    requires Inv(m) && k in m.pt && m.pt[k].ppn < |m.refs| && IsData(m, m.pt[k].ppn)
    ensures (forall data: seq<Byte> :: |data| == PGSIZE ==> Eager(Poke(m, m.pt[k].ppn, data)) - {k} == Eager(m) - {k})
            <==> m.refs[m.pt[k].ppn] == {k}
  {
    hide TreesOk, PtOk, AllocOk;
    var p := m.pt[k].ppn;
    if m.refs[p] == {k} {
      forall data: seq<Byte> | |data| == PGSIZE ensures Eager(Poke(m, p, data)) - {k} == Eager(m) - {k} {
        var m' := Poke(m, p, data);
        forall j | j in m.pt && j != k ensures m'.frames[m.pt[j].ppn] == m.frames[m.pt[j].ppn] {
          assert j in m.refs[m.pt[j].ppn];
        }
        EagerAt(m, m', k);
      }
    } else {
      assert k in m.refs[p];
      var j :| j in m.refs[p] && j != k;
      var old_ := m.frames[p].data;
      var b: Byte := if old_[0] == 0 then 1 else 0;
      var data := old_[0 := b];
      assert Eager(Poke(m, p, data))[j].data[0] == b != Eager(m)[j].data[0];
      assert j in Eager(m) - {k} && (Eager(Poke(m, p, data)) - {k})[j] != (Eager(m) - {k})[j];
    }
  }
}
