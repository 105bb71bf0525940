/** The user-level allocator of user/umalloc.c. Addresses count in units of one Header (16 bytes).
    The free list is a ring of headers through memory; `blk`, `live` and `owned` are bookkeeping: all
    blocks with their sizes, those that the program holds, and the units that headers claim. Whether the
    process has that memory is another matter, because sbrk takes an int: `brk` is the end of what it has. */
module Umalloc {
  import opened Words

  /** Where the static header lives; the heap lies above it. Address 0 is the null pointer. */
  const BASE := 1

  datatype Hdr = Hdr(ptr: int, size: nat)

  datatype Heap = Heap(mem: map<int, Hdr>, blk: map<int, nat>, live: set<int>, owned: set<int>)

  // ---- rings in address order ---------------------------------------------------------------------------

  /** Nothing of f lies strictly between a and b. */
  ghost predicate Gap(f: set<int>, a: int, b: int) {
    forall c :: c in f ==> !(a < c < b)
  }

  /** b follows a in the circular list of f in address order; BASE is the smallest element. */
  ghost predicate IsNext(f: set<int>, a: int, b: int) {
    a in f && b in f && ((a < b && Gap(f, a, b)) || (b == BASE && forall c :: c in f ==> c <= a))
  }

  /** b belongs between a and q. */
  predicate Between(a: int, b: int, q: int) {
    a < b && (b < q || q == BASE)
  }

  lemma NextInsert(f: set<int>, a: int, q: int, b: int)
    requires BASE in f && (forall c :: c in f ==> c >= BASE) && IsNext(f, a, q) && Between(a, b, q)
    ensures IsNext(f + {b}, a, b) && IsNext(f + {b}, b, q) && b !in f
  {
  }

  lemma NextInsertOther(f: set<int>, a: int, q: int, b: int, c: int, x: int)
    requires BASE in f && (forall e :: e in f ==> e >= BASE) && IsNext(f, a, q) && Between(a, b, q) && IsNext(f, c, x)
    requires c != a
    ensures IsNext(f + {b}, c, x)
  {
  }

  lemma NextRemove(f: set<int>, p: int, a: int, q: int)
    requires BASE in f && (forall c :: c in f ==> c >= BASE) && IsNext(f, p, a) && IsNext(f, a, q) && a != BASE
    ensures IsNext(f - {a}, p, q) && p != a && q != a
  {
  }

  lemma NextRemoveOther(f: set<int>, p: int, a: int, c: int, x: int)
    requires BASE in f && (forall e :: e in f ==> e >= BASE) && IsNext(f, p, a) && IsNext(f, c, x) && a != BASE
    requires c != p && c != a
    ensures IsNext(f - {a}, c, x)
  {
  }

  /** The elements from p round to e, both included. */
  ghost function Arc(f: set<int>, p: int, e: int): (r: set<int>) {
    set c | c in f && (if p <= e then p <= c <= e else c >= p || c <= e)
  }

  /** Walking towards e, each step leaves less to visit. */
  lemma ArcStep(f: set<int>, p: int, q: int, e: int)
    requires BASE in f && (forall c :: c in f ==> c >= BASE) && IsNext(f, p, q) && e in f && p != e
    ensures Arc(f, q, e) < Arc(f, p, e)
  {
    forall c | c in Arc(f, q, e) ensures c in Arc(f, p, e) && c != p {
      assert c in f;
    }
    assert p in Arc(f, p, e);
  }

  // ---- invariants --------------------------------------------------------------------------------------

  /** The members of the list: the static header and the blocks that are not in use. */
  ghost function Free(h: Heap): (f: set<int>) {
    (set a | a in h.blk && a !in h.live) + {BASE}
  }

  ghost predicate LinkOk(h: Heap, a: int) {
    a in h.mem && IsNext(Free(h), a, h.mem[a].ptr)
  }

  /** The list is circular and in address order. */
  ghost predicate RingOk(h: Heap) {
    BASE in h.mem && h.mem[BASE].size == 0 && forall a {:trigger LinkOk(h, a)} :: a in Free(h) ==> LinkOk(h, a)
  }

  /** Blocks carry their sizes and do not overlap. */
  ghost predicate BlocksOk(h: Heap) {
    && h.live <= h.blk.Keys
    && (forall a :: a in h.blk ==> a > BASE && h.blk[a] >= 1 && a in h.mem && h.mem[a].size == h.blk[a])
    && (forall a, b :: a in h.blk && b in h.blk && a < b ==> a + h.blk[a] <= b)
  }

  ghost predicate Covered(blk: map<int, nat>, u: int) {
    exists a :: a in blk && a <= u < a + blk[a]
  }

  /** Blocks tile the memory obtained from sbrk. */
  ghost predicate TilesOk(h: Heap) {
    forall u :: u in h.owned <==> Covered(h.blk, u)
  }

  ghost predicate Core(h: Heap) {
    RingOk(h) && BlocksOk(h) && TilesOk(h)
  }

  /** Two free blocks that touch. */
  ghost predicate Touch(h: Heap, a: int, b: int) {
    a in h.blk && b in h.blk && a !in h.live && b !in h.live && a + h.blk[a] == b
  }

  /** Fully coalesced. */
  ghost predicate Coalesced(h: Heap) {
    forall a, b :: !Touch(h, a, b)
  }

  ghost predicate Inv(h: Heap) {
    Core(h) && Coalesced(h)
  }

  lemma FreeFacts(h: Heap)
    requires BlocksOk(h)
    ensures BASE in Free(h) && BASE !in h.blk && forall c :: c in Free(h) ==> c >= BASE
  {
  }

  ghost predicate InBlock(h: Heap, a: int, u: int) {
    a in h.blk && a <= u < a + h.blk[a]
  }

  /** The units that headers claim are those of the blocks, live or free, and each is in one block only. */
  lemma OneBlock(h: Heap, u: int)
    requires Inv(h)
    ensures u in h.owned <==> exists a :: InBlock(h, a, u)
    ensures forall a, b :: InBlock(h, a, u) && InBlock(h, b, u) ==> a == b
  {
    hide RingOk, Coalesced;
    if Covered(h.blk, u) {
      var a :| a in h.blk && a <= u < a + h.blk[a];
      assert InBlock(h, a, u);
    }
    if a :| InBlock(h, a, u) {
      assert Covered(h.blk, u);
    }
  }

  /** A new heap: the static header linked to itself. */
  function Start(mem: map<int, Hdr>): (h: Heap) {
    Heap(mem[BASE := Hdr(BASE, 0)], map[], {}, {})
  }

  lemma StartInv(mem: map<int, Hdr>)
    ensures Inv(Start(mem))
  {
    var h := Start(mem);
    assert Free(h) == {BASE};
    forall a | a in Free(h) ensures LinkOk(h, a) {
    }
  }

  // ---- moving a block between the list and the program ---------------------------------------------------

  /** Put live block b on the list after p. */
  function Insert(h: Heap, p: int, b: int): (r: Heap)
    requires p in h.mem && b in h.mem
  {
    h.(mem := h.mem[b := h.mem[b].(ptr := h.mem[p].ptr)][p := h.mem[p].(ptr := b)], live := h.live - {b})
  }

  ghost predicate CanInsert(h: Heap, p: int, b: int) {
    Core(h) && p in Free(h) && b in h.live && p in h.mem && Between(p, b, h.mem[p].ptr)
  }

  lemma InsertLink(h: Heap, p: int, b: int, a: int)
    requires CanInsert(h, p, b) && b in h.mem && Free(Insert(h, p, b)) == Free(h) + {b} && a in Free(h) + {b}
    ensures LinkOk(Insert(h, p, b), a)
  {
    hide Free, TilesOk;
    FreeFacts(h);
    assert LinkOk(h, p);
    var q := h.mem[p].ptr;
    NextInsert(Free(h), p, q, b);
    if a != b && a != p {
      assert LinkOk(h, a);
      NextInsertOther(Free(h), p, q, b, a, h.mem[a].ptr);
    }
  }

  lemma InsertFree(h: Heap, p: int, b: int)
    requires CanInsert(h, p, b)
    ensures b in h.mem && p != b && Free(Insert(h, p, b)) == Free(h) + {b} && BlocksOk(Insert(h, p, b))
  {
    hide TilesOk, RingOk;
    assert b in h.blk;
  }

  lemma InsertCore(h: Heap, p: int, b: int)
    requires CanInsert(h, p, b)
    ensures b in h.mem && p != b && Core(Insert(h, p, b)) && Free(Insert(h, p, b)) == Free(h) + {b}
  {
    hide TilesOk, LinkOk, Free, BlocksOk, Between;
    InsertFree(h, p, b);
    var h' := Insert(h, p, b);
    forall a | a in Free(h') ensures LinkOk(h', a) {
      InsertLink(h, p, b, a);
    }
    BaseSize(h, h');
    SameTiles(h, h');
  }

  /** The static header keeps its size 0. */
  lemma BaseSize(h: Heap, h': Heap)
    requires Core(h) && BASE in h'.mem && h'.mem[BASE].size == h.mem[BASE].size
    ensures h'.mem[BASE].size == 0
  {
  }

  lemma SameTiles(h: Heap, h': Heap)
    requires TilesOk(h) && h'.blk == h.blk && h'.owned == h.owned
    ensures TilesOk(h')
  {
  }

  /** Give block a, which follows p, to the program. */
  function Remove(h: Heap, p: int, a: int): (r: Heap)
    requires p in h.mem && a in h.mem
  {
    h.(mem := h.mem[p := h.mem[p].(ptr := h.mem[a].ptr)], live := h.live + {a})
  }

  ghost predicate CanRemove(h: Heap, p: int, a: int) {
    Core(h) && p in Free(h) && a in Free(h) && a != BASE && p in h.mem && h.mem[p].ptr == a
  }

  lemma RemoveLink(h: Heap, p: int, a: int, c: int)
    requires CanRemove(h, p, a) && a in h.mem && Free(Remove(h, p, a)) == Free(h) - {a} && c in Free(h) - {a}
    ensures LinkOk(Remove(h, p, a), c)
  {
    hide Free, TilesOk;
    FreeFacts(h);
    assert LinkOk(h, p) && LinkOk(h, a);
    NextRemove(Free(h), p, a, h.mem[a].ptr);
    if c != p {
      assert LinkOk(h, c);
      NextRemoveOther(Free(h), p, a, c, h.mem[c].ptr);
    }
  }

  lemma RemoveFree(h: Heap, p: int, a: int)
    requires CanRemove(h, p, a)
    ensures a in h.mem && a in h.blk && a !in h.live && Free(Remove(h, p, a)) == Free(h) - {a}
    ensures BlocksOk(Remove(h, p, a))
    ensures Coalesced(h) ==> Coalesced(Remove(h, p, a))
  {
    hide TilesOk, RingOk;
    var h' := Remove(h, p, a);
    if Coalesced(h) {
      forall x, y ensures !Touch(h', x, y) {
        assert !Touch(h, x, y);
      }
    }
  }

  lemma RemoveInv(h: Heap, p: int, a: int)
    requires CanRemove(h, p, a) && Coalesced(h)
    ensures a in h.mem && a in h.blk && a !in h.live && Inv(Remove(h, p, a))
  {
    hide TilesOk, LinkOk, Free, BlocksOk, Coalesced;
    RemoveFree(h, p, a);
    var h' := Remove(h, p, a);
    forall c | c in Free(h') ensures LinkOk(h', c) {
      RemoveLink(h, p, a, c);
    }
    SameTiles(h, h');
  }

  // ---- changing block boundaries ---------------------------------------------------------------------------

  /** Cut the last k units off free block a and give them to the program. */
  function Split(h: Heap, a: int, k: nat): (r: Heap)
    requires a in h.blk && a in h.mem && k < h.blk[a]
  {
    var c := a + h.blk[a] - k;
    var ptr := if c in h.mem then h.mem[c].ptr else 0;
    h.(mem := h.mem[a := h.mem[a].(size := h.blk[a] - k)][c := Hdr(ptr, k)], blk := h.blk[a := h.blk[a] - k][c := k],
       live := h.live + {c})
  }

  ghost predicate CanSplit(h: Heap, a: int, k: nat) {
    Inv(h) && a in h.blk && a !in h.live && 1 <= k < h.blk[a]
  }

  lemma SplitFresh(h: Heap, a: int, k: nat)
    requires CanSplit(h, a, k)
    ensures a in h.mem && a + h.blk[a] - k !in h.blk && a + h.blk[a] - k !in Free(h) && a + h.blk[a] - k > a > BASE
    ensures Free(Split(h, a, k)) == Free(h)
  {
    hide TilesOk, RingOk, Coalesced;
    var c := a + h.blk[a] - k;
    assert c !in h.blk;
    assert Free(Split(h, a, k)) == Free(h);
  }

  lemma SplitTiles(h: Heap, a: int, k: nat)
    requires CanSplit(h, a, k)
    ensures a in h.mem && TilesOk(Split(h, a, k))
  {
    SplitFresh(h, a, k);
    hide RingOk, Coalesced, Free;
    var h' := Split(h, a, k);
    var c := a + h.blk[a] - k;
    forall u ensures Covered(h.blk, u) <==> Covered(h'.blk, u) {
      SplitCover(h.blk, a, k, u);
    }
  }

  lemma SplitCover(blk: map<int, nat>, a: int, k: nat, u: int)
    requires a in blk && 1 <= k < blk[a] && a + blk[a] - k !in blk
    ensures Covered(blk, u) <==> Covered(blk[a := blk[a] - k][a + blk[a] - k := k], u)
  {
    var c := a + blk[a] - k;
    var blk' := blk[a := blk[a] - k][c := k];
    if Covered(blk, u) {
      var x :| x in blk && x <= u < x + blk[x];
      var y := if x == a && u >= c then c else x;
      assert y in blk' && y <= u < y + blk'[y];
    }
    if Covered(blk', u) {
      var y :| y in blk' && y <= u < y + blk'[y];
      var x := if y == c then a else y;
      assert x in blk && x <= u < x + blk[x];
    }
  }

  lemma SplitInv(h: Heap, a: int, k: nat)
    requires CanSplit(h, a, k)
    ensures a in h.mem && Inv(Split(h, a, k))
  {
    SplitFresh(h, a, k);
    SplitTiles(h, a, k);
    SplitBlocks(h, a, k);
    SplitRing(h, a, k);
  }

  lemma SplitBlocks(h: Heap, a: int, k: nat)
    requires CanSplit(h, a, k)
    ensures a in h.mem && BlocksOk(Split(h, a, k)) && Coalesced(Split(h, a, k))
  {
    hide TilesOk, RingOk;
    SplitFresh(h, a, k);
    var h' := Split(h, a, k);
    forall x, y ensures !Touch(h', x, y) {
      assert !Touch(h, x, y);
    }
  }

  lemma SplitRing(h: Heap, a: int, k: nat)
    requires CanSplit(h, a, k)
    ensures a in h.mem && RingOk(Split(h, a, k))
  {
    hide TilesOk, Coalesced, Free;
    SplitFresh(h, a, k);
    var h' := Split(h, a, k);
    forall c | c in Free(h') ensures LinkOk(h', c) {
      assert LinkOk(h, c);
    }
  }

  /** Join free block a with the next one, b, which it touches. */
  function Merge(h: Heap, a: int, b: int): (r: Heap)
    requires a in h.mem && b in h.mem && a in h.blk && b in h.blk
  {
    h.(mem := h.mem[a := Hdr(h.mem[b].ptr, h.mem[a].size + h.mem[b].size)],
       blk := h.blk[a := h.blk[a] + h.blk[b]] - {b})
  }

  ghost predicate CanMerge(h: Heap, a: int, b: int) {
    Core(h) && Touch(h, a, b)
  }

  /** Blocks that touch are neighbours on the list. */
  lemma TouchNext(h: Heap, a: int, b: int)
    requires CanMerge(h, a, b)
    ensures a in h.mem && b in h.mem && a in h.blk && b in h.blk && h.mem[a].ptr == b && a < b && b != BASE
    ensures a in Free(h) && b in Free(h)
  {
    hide TilesOk;
    assert LinkOk(h, a);
    var q := h.mem[a].ptr;
    assert b in Free(h) && a < b;
    assert a < q <= b && q in h.blk;
  }

  lemma MergeLink(h: Heap, a: int, b: int, c: int)
    requires CanMerge(h, a, b) && a in h.mem && b in h.mem && Free(Merge(h, a, b)) == Free(h) - {b}
    requires c in Free(h) - {b}
    ensures LinkOk(Merge(h, a, b), c)
  {
    hide Free, TilesOk;
    TouchNext(h, a, b);
    FreeFacts(h);
    assert LinkOk(h, a) && LinkOk(h, b);
    NextRemove(Free(h), a, b, h.mem[b].ptr);
    if c != a {
      assert LinkOk(h, c);
      NextRemoveOther(Free(h), a, b, c, h.mem[c].ptr);
    }
  }

  lemma MergeCover(blk: map<int, nat>, a: int, b: int, u: int)
    requires a in blk && b in blk && a < b && a + blk[a] == b
    ensures Covered(blk, u) <==> Covered(blk[a := blk[a] + blk[b]] - {b}, u)
  {
    var blk' := blk[a := blk[a] + blk[b]] - {b};
    if Covered(blk, u) {
      var x :| x in blk && x <= u < x + blk[x];
      var y := if x == b then a else x;
      assert y in blk' && y <= u < y + blk'[y];
    }
    if Covered(blk', u) {
      var y :| y in blk' && y <= u < y + blk'[y];
      var x := if y == a && u >= b then b else y;
      assert x in blk && x <= u < x + blk[x];
    }
  }

  lemma MergeFree(h: Heap, a: int, b: int)
    requires CanMerge(h, a, b)
    ensures a in h.mem && b in h.mem && Free(Merge(h, a, b)) == Free(h) - {b} && BlocksOk(Merge(h, a, b))
  {
    hide RingOk, TilesOk;
    FreeFacts(h);
    var h' := Merge(h, a, b);
    assert Free(h') == Free(h) - {b};
  }

  lemma MergeTiles(h: Heap, a: int, b: int)
    requires CanMerge(h, a, b) && a in h.mem && b in h.mem && a < b
    ensures TilesOk(Merge(h, a, b))
  {
    hide Covered, RingOk, BlocksOk;
    var h' := Merge(h, a, b);
    forall u ensures Covered(h.blk, u) <==> Covered(h'.blk, u) {
      MergeCover(h.blk, a, b, u);
    }
  }

  lemma MergeCore(h: Heap, a: int, b: int)
    requires CanMerge(h, a, b)
    ensures a in h.mem && b in h.mem && Core(Merge(h, a, b)) && Free(Merge(h, a, b)) == Free(h) - {b}
  {
    hide LinkOk, Free, TilesOk, BlocksOk, Touch;
    TouchNext(h, a, b);
    MergeFree(h, a, b);
    var h' := Merge(h, a, b);
    forall c | c in Free(h') ensures LinkOk(h', c) {
      MergeLink(h, a, b, c);
    }
    MergeTiles(h, a, b);
    NotBase(h, a, b);
  }

  lemma NotBase(h: Heap, a: int, b: int)
    requires CanMerge(h, a, b)
    ensures a != BASE && BASE in h.mem && h.mem[BASE].size == 0
  {
  }

  // ---- sbrk ----------------------------------------------------------------------------------------------

  function Units(a: int, k: nat): (s: set<int>)
    ensures forall u :: u in s <==> a <= u < a + k
  {
    if k == 0 then {} else Units(a, k - 1) + {a + k - 1}
  }

  /** What sbrk returned becomes a live block. */
  function Grow(h: Heap, a: int, k: nat): (r: Heap) {
    var ptr := if a in h.mem then h.mem[a].ptr else 0;
    h.(mem := h.mem[a := Hdr(ptr, k)], blk := h.blk[a := k], live := h.live + {a}, owned := h.owned + Units(a, k))
  }

  /** sbrk hands out memory above everything it gave before. */
  ghost predicate Above(h: Heap, a: int) {
    a > BASE && forall u :: u in h.owned ==> u < a
  }

  lemma GrowFresh(h: Heap, a: int, k: nat)
    requires Inv(h) && Above(h, a)
    ensures a !in h.blk && forall x :: x in h.blk ==> x + h.blk[x] <= a
  {
    hide RingOk, Coalesced;
    forall x | x in h.blk ensures x + h.blk[x] <= a {
      assert Covered(h.blk, x + h.blk[x] - 1);
    }
  }

  lemma GrowCover(blk: map<int, nat>, a: int, k: nat, u: int)
    requires a !in blk
    ensures Covered(blk[a := k], u) <==> Covered(blk, u) || a <= u < a + k
  {
    var blk' := blk[a := k];
    if Covered(blk, u) {
      var x :| x in blk && x <= u < x + blk[x];
      assert x in blk' && x <= u < x + blk'[x];
    }
    if a <= u < a + k {
      assert a in blk' && a <= u < a + blk'[a];
    }
    if Covered(blk', u) {
      var y :| y in blk' && y <= u < y + blk'[y];
      if y != a {
        assert y in blk && y <= u < y + blk[y];
      }
    }
  }

  lemma GrowInv(h: Heap, a: int, k: nat)
    requires Inv(h) && Above(h, a) && k >= 1
    ensures Inv(Grow(h, a, k)) && a !in h.blk && Free(Grow(h, a, k)) == Free(h)
  {
    GrowFresh(h, a, k);
    var h' := Grow(h, a, k);
    assert Free(h') == Free(h);
    GrowRing(h, a, k);
    hide RingOk, Covered;
    forall x, y ensures !Touch(h', x, y) {
      assert !Touch(h, x, y);
    }
    forall u ensures u in h'.owned <==> Covered(h'.blk, u) {
      GrowCover(h.blk, a, k, u);
    }
  }

  lemma GrowRing(h: Heap, a: int, k: nat)
    requires Inv(h) && a > BASE && a !in h.blk && Free(Grow(h, a, k)) == Free(h)
    ensures RingOk(Grow(h, a, k))
  {
    hide TilesOk, Coalesced, BlocksOk;
    var h' := Grow(h, a, k);
    forall c | c in Free(h') ensures LinkOk(h', c) {
      assert LinkOk(h, c);
    }
  }

  // ---- free(): insert, then join with both neighbours --------------------------------------------------------

  /** Join a with its successor if they touch. */
  ghost function Joined(h: Heap, a: int): (r: Heap)
    requires Core(h) && a in h.mem
  {
    var b := h.mem[a].ptr;
    if Touch(h, a, b) then TouchNext(h, a, b); Merge(h, a, b) else h
  }

  ghost function Returned(h: Heap, p: int, b: int): (r: Heap)
    requires CanInsert(h, p, b)
  {
    InsertCore(h, p, b);
    var h1 := Insert(h, p, b);
    JoinedCore(h1, b);
    var h2 := Joined(h1, b);
    JoinedKeeps(h1, p, b);
    Joined(h2, p)
  }

  lemma JoinedCore(h: Heap, a: int)
    requires Core(h) && a in h.mem
    ensures Core(Joined(h, a))
  {
    if Touch(h, a, h.mem[a].ptr) {
      MergeCore(h, a, h.mem[a].ptr);
    }
  }

  lemma JoinedKeeps(h: Heap, p: int, a: int)
    requires Core(h) && a in h.mem && p in h.mem && p != a
    ensures Core(Joined(h, a)) && p in Joined(h, a).mem && Joined(h, a).mem[p] == h.mem[p]
  {
    JoinedCore(h, a);
  }

  lemma JoinedFree(h: Heap, p: int, a: int)
    requires Core(h) && a in h.mem && p in Free(h) && p < a
    ensures Core(Joined(h, a)) && p in Free(Joined(h, a))
  {
    JoinedCore(h, a);
    if Touch(h, a, h.mem[a].ptr) {
      TouchNext(h, a, h.mem[a].ptr);
      MergeCore(h, a, h.mem[a].ptr);
    }
  }

  /** After Insert only the new block can touch a free one. */
  lemma InsertTouch(h: Heap, p: int, b: int, x: int, y: int)
    requires CanInsert(h, p, b) && Coalesced(h) && b in h.mem && Touch(Insert(h, p, b), x, y)
    ensures x == b || y == b
  {
    hide Core;
    assert !Touch(h, x, y);
  }

  /** After joining b with its successor, only a block before b can touch it. */
  lemma JoinTouch(h: Heap, p: int, b: int, x: int, y: int)
    requires CanInsert(h, p, b) && Coalesced(h) && b in h.mem && Core(Insert(h, p, b))
    ensures Touch(Joined(Insert(h, p, b), b), x, y) ==> y == b && x != b
  {
    hide RingOk, TilesOk;
    var h1 := Insert(h, p, b);
    var q := h1.mem[b].ptr;
    if Touch(h1, b, q) {
      TouchNext(h1, b, q);
      assert !Touch(h, q, y) && !Touch(h, x, y);
    } else {
      if Touch(h1, x, y) {
        InsertTouch(h, p, b, x, y);
      }
      TouchLink(h1, b, y);
    }
  }

  lemma TouchLink(h: Heap, a: int, b: int)
    requires Core(h)
    ensures Touch(h, a, b) ==> a in h.mem && h.mem[a].ptr == b && a in Free(h) && b != BASE
  {
    if Touch(h, a, b) {
      TouchNext(h, a, b);
    }
  }

  lemma ReturnedCore(h: Heap, p: int, b: int)
    requires CanInsert(h, p, b)
    ensures Core(Returned(h, p, b))
  {
    hide Core, Joined, Insert;
    InsertCore(h, p, b);
    var h1 := Insert(h, p, b);
    InsertMem(h, p, b);
    JoinedCore(h1, b);
    JoinedKeeps(h1, p, b);
    JoinedCore(Joined(h1, b), p);
  }

  lemma InsertMem(h: Heap, p: int, b: int)
    requires CanInsert(h, p, b) && b in h.mem
    ensures p in Insert(h, p, b).mem && b in Insert(h, p, b).mem && p != b
  {
    InsertCore(h, p, b);
  }

  lemma ReturnedCoalesced(h: Heap, p: int, b: int)
    requires CanInsert(h, p, b) && Coalesced(h)
    ensures Coalesced(Returned(h, p, b))
  {
    hide RingOk, TilesOk, Free, BlocksOk;
    InsertCore(h, p, b);
    var h1 := Insert(h, p, b);
    JoinedCore(h1, b);
    var h2 := Joined(h1, b);
    JoinedKeeps(h1, p, b);
    var h3 := Joined(h2, p);
    forall x, y ensures !Touch(h3, x, y) {
      LastTouch(h, p, b, x, y);
    }
  }

  lemma LastTouch(h: Heap, p: int, b: int, x: int, y: int)
    requires CanInsert(h, p, b) && Coalesced(h)
    ensures !Touch(Returned(h, p, b), x, y)
  {
    hide RingOk, TilesOk, Free;
    InsertCore(h, p, b);
    var h1 := Insert(h, p, b);
    JoinedCore(h1, b);
    var h2 := Joined(h1, b);
    JoinedKeeps(h1, p, b);
    JoinTouch(h, p, b, x, y);
    JoinTouch(h, p, b, b, y);
    TouchLink(h2, p, b);
    TouchLink(h2, x, b);
    JoinedFree(h1, p, b);
    OnePred(h2, x, p, b);
  }

  /** Only one header points to b. */
  lemma OnePred(h: Heap, x: int, p: int, b: int)
    requires Core(h) && p in Free(h) && p in h.mem && h.mem[p].ptr == b && b != BASE
    ensures x in Free(h) && x in h.mem && h.mem[x].ptr == b ==> x == p
  {
    assert LinkOk(h, p);
    assert x in Free(h) ==> LinkOk(h, x);
  }

  // ---- what free() leaves to see ---------------------------------------------------------------------------

  /** Live blocks are as they were, and some free block holds at least the units of b. */
  lemma ReturnedFacts(h: Heap, p: int, b: int) returns (c: int)
    requires CanInsert(h, p, b)
    ensures b in h.blk && Core(Returned(h, p, b))
    ensures var h' := Returned(h, p, b);
            && h'.live == h.live - {b} && h'.owned == h.owned && p in Free(h')
            && (forall a :: a in h'.live ==> a in h.blk && a in h'.blk && h'.blk[a] == h.blk[a])
            && c in h'.blk && c !in h'.live && h'.blk[c] >= h.blk[b]
  {
    hide RingOk, TilesOk;
    InsertCore(h, p, b);
    ReturnedCore(h, p, b);
    var h1 := Insert(h, p, b);
    JoinedCore(h1, b);
    var h2 := Joined(h1, b);
    JoinedKeeps(h1, p, b);
    JoinedFree(h1, p, b);
    var q := h1.mem[b].ptr;
    if Touch(h1, b, q) {
      TouchNext(h1, b, q);
    }
    JoinedSelf(h2, p);
    if Touch(h2, p, h2.mem[p].ptr) {
      TouchNext(h2, p, h2.mem[p].ptr);
      c := p;
    } else {
      c := b;
    }
  }

  lemma JoinedSelf(h: Heap, a: int)
    requires Core(h) && a in Free(h) && a in h.mem
    ensures Core(Joined(h, a)) && a in Free(Joined(h, a))
  {
    JoinedCore(h, a);
    if Touch(h, a, h.mem[a].ptr) {
      TouchNext(h, a, h.mem[a].ptr);
      MergeCore(h, a, h.mem[a].ptr);
    }
  }

  // ---- searching the ring ------------------------------------------------------------------------------------

  /** Every live block has its place on the list. */
  lemma PlaceExists(h: Heap, b: int) returns (t: int)
    requires Core(h) && b in h.live
    ensures t in Free(h) && t in h.mem && Between(t, b, h.mem[t].ptr)
  {
    FreeFacts(h);
    assert b in h.blk && b !in Free(h);
    t := Below(Free(h), b);
    assert LinkOk(h, t);
  }

  /** The largest element below b. */
  lemma {:induction false} Below(f: set<int>, b: int) returns (t: int)
    requires exists c :: c in f && c < b
    ensures t in f && t < b && forall c :: c in f && c < b ==> c <= t
    decreases f
  {
    var x :| x in f && x < b;
    if y :| y in f && x < y < b {
      var g := f - {x};
      assert y in g;
      t := Below(g, b);
      forall c | c in f && c < b ensures c <= t {
        assert c == x || c in g;
      }
    } else {
      t := x;
    }
  }

  lemma ArcAll(f: set<int>, a: int, p: int)
    requires BASE in f && (forall c :: c in f ==> c >= BASE) && IsNext(f, a, p)
    ensures Arc(f, p, a) == f
  {
  }

  lemma ArcOne(f: set<int>, p: int)
    requires p in f
    ensures Arc(f, p, p) == {p}
  {
  }

  lemma ArcRest(f: set<int>, p: int, q: int, e: int)
    requires BASE in f && (forall c :: c in f ==> c >= BASE) && IsNext(f, p, q) && e in f && p != e
    ensures Arc(f, q, e) == Arc(f, p, e) - {p}
  {
  }

  // ---- the code ------------------------------------------------------------------------------------------------

  /** Units for a request: the header and the bytes, rounded up. */
  function Nunits(nbytes: nat): (n: nat)
    ensures n >= 1 && (n - 1) * 16 >= nbytes
  {
    (nbytes + 15) / 16 + 1
  }

  /** What morecore hands to sbrk for n units: the number of bytes, converted to an int. */
  function SbrkArg(n: nat): (arg: int) {
    Int32(n * 16)
  }

  /** The end of memory after sbrk(16 * arg) with the end at `brk`; a size below zero leaves it alone. */
  function Moved(brk: int, arg: int): (r: int) {
    if brk + arg < 0 then brk else brk + arg
  }

  /** Units in a page: memory ends with the page that holds its last byte. */
  const PAGE := 256

  function PageEnd(brk: nat): (e: nat) {
    (brk + PAGE - 1) / PAGE * PAGE
  }

  /** Writing the header of the new block faults: the memory that sbrk has left ends before it. */
  predicate Faults(grant: nat, n: nat) {
    PageEnd(Moved(grant, SbrkArg(n) / 16)) <= grant
  }

  /** It faults exactly when sbrk was asked for nothing or a negative amount and no page is left at the
      old end of memory. */
  lemma FaultsIff(grant: nat, n: nat)
    requires 1 <= n <= 0x1000_0001
    ensures Faults(grant, n) ==> n * 16 >= 0x8000_0000 && SbrkArg(n) <= 0
    ensures SbrkArg(n) == 0 ==> (Faults(grant, n) <==> grant % PAGE == 0)
    ensures SbrkArg(n) <= -PAGE * 16 && grant * 16 + SbrkArg(n) >= 0 ==> Faults(grant, n)
  {
    SbrkExact(n, grant);
    var brk := Moved(grant, SbrkArg(n) / 16);
    PageEndIs(brk);
    PageEndIs(grant);
  }

  lemma PageEndIs(brk: nat)
    ensures brk <= PageEnd(brk) < brk + PAGE && (PageEnd(brk) == brk <==> brk % PAGE == 0)
  {
  }

  /** The units are obtained in full exactly when their number of bytes is an int. */
  lemma SbrkExact(n: nat, brk: nat)
    requires 1 <= n <= 0x1000_0001
    ensures SbrkArg(n) % 16 == 0
    ensures Moved(brk, SbrkArg(n) / 16) >= brk + n <==> n * 16 < 0x8000_0000
    ensures n * 16 < 0x8000_0000 ==> Moved(brk, SbrkArg(n) / 16) == brk + n
  {
    if n * 16 < 0x8000_0000 {
    } else if n * 16 < 0x1_8000_0000 {
      assert SbrkArg(n) == n * 16 - 0x1_0000_0000;
    }
  }

  /** A request that malloc can serve without asking sbrk for more than an int holds. */
  predicate FitsInt(nbytes: nat) {
    Core4096(Nunits(nbytes)) * 16 < 0x8000_0000
  }

  lemma FitsIntIff(nbytes: nat)
    ensures FitsInt(nbytes) <==> nbytes < 0x7fff_ffe1
  {
  }

  class Allocator {
    var mem: map<int, Hdr>
    var freep: int
    /** The end of the process's memory. */
    ghost var brk: nat
    ghost var blk: map<int, nat>
    ghost var live: set<int>
    ghost var owned: set<int>

    ghost function View(): (h: Heap)
      reads this
    {
      Heap(mem, blk, live, owned)
    }

    ghost predicate Valid()
      reads this
    {
      if freep == 0 then blk == map[] && live == {} && owned == {} else Inv(View()) && freep in Free(View())
    }

    /** Everything that headers claim is memory of the process. */
    ghost predicate Backed()
      reads this
    {
      BASE < brk && forall u :: u in owned ==> u < brk
    }

    /** A program that has not called malloc yet. */
    constructor (ghost size: nat)
      requires size > BASE
      ensures Valid() && freep == 0 && Backed() && brk == size
    {
      mem, freep, brk := map[], 0, size;
      blk, live, owned := map[], {}, {};
    }

    /** The search of free(): the list member after which block b belongs. */
    method FindPlace(b: int) returns (p: int)
      requires Valid() && freep != 0 && b in live
      ensures p in Free(View()) && p in mem && Between(p, b, mem[p].ptr)
    {
      hide Inv, Free, Arc;
      ghost var h := View();
      InvCore(h);
      ghost var t := PlaceExists(h, b);
      ghost var f := Free(h);
      p := freep;
      LinkFacts(h, p);
      while !(b > p && b < mem[p].ptr)
        invariant p in f && p in mem && IsNext(f, p, mem[p].ptr)
        decreases Arc(f, p, t)
      {
        if p >= mem[p].ptr && (b > p || b < mem[p].ptr) {
          LastPlace(h, b);
          return;
        }
        ArcStep(f, p, mem[p].ptr, t);
        p := mem[p].ptr;
        LinkFacts(h, p);
      }
    }

    /** free() on the block whose header is b. */
    method FreeBlock(b: int) returns (ghost c: int)
      requires Valid() && freep != 0 && b in live && b in blk
      modifies this
      ensures Valid() && freep != 0 && live == old(live) - {b} && owned == old(owned) && brk == old(brk)
      ensures forall a :: a in live ==> a in old(blk) && a in blk && blk[a] == old(blk)[a]
      ensures c in blk && c !in live && blk[c] >= old(blk)[b]
    {
      hide Inv, Free, Core, Coalesced, Between;
      ghost var h := View();
      InvCore(h);
      LastPlace(h, b);
      var p := FindPlace(b);
      ghost var h' := Returned(h, p, b);
      c := ReturnedFacts(h, p, b);
      ReturnedCoalesced(h, p, b);
      ReturnedMem(h, p, b);
      if b + mem[b].size == mem[p].ptr {
        mem := mem[b := Hdr(mem[mem[p].ptr].ptr, mem[b].size + mem[mem[p].ptr].size)];
      } else {
        mem := mem[b := mem[b].(ptr := mem[p].ptr)];
      }
      if p + mem[p].size == b {
        mem := mem[p := Hdr(mem[b].ptr, mem[p].size + mem[b].size)];
      } else {
        mem := mem[p := mem[p].(ptr := b)];
      }
      freep := p;
      blk, live, owned := h'.blk, h'.live, h'.owned;
      FreepOk(h', p);
    }

    /** morecore(nu), where sbrk answers `grant`, the end of memory at that time: a block that claims at
        least nu units goes on the list, unless sbrk refuses or the write of its header faults and kills the
        process. The process has those units exactly when their bytes fit an int. */
    method Morecore(nu: nat, grant: int) returns (ok: bool, fault: bool, ghost c: int)
      requires Valid() && Backed() && freep != 0 && 1 <= nu <= 0x1000_0001 && (grant == -1 || grant >= brk)
      modifies this
      ensures Valid() && freep != 0 && live == old(live) && (ok <==> grant != -1 && !fault)
      ensures fault <==> grant != -1 && Faults(grant, Core4096(nu))
      ensures forall a :: a in live ==> a in old(blk) && a in blk && blk[a] == old(blk)[a]
      ensures owned == old(owned) + if ok then Units(grant, Core4096(nu)) else {}
      ensures ok ==> c in blk && c !in live && blk[c] >= nu
      ensures !ok ==> View() == old(View()) && freep == old(freep)
      ensures brk == if grant == -1 then old(brk) else Moved(grant, SbrkArg(Core4096(nu)) / 16)
      ensures !fault ==> (Backed() <==> !ok || Core4096(nu) * 16 < 0x8000_0000)
    {
      hide Inv, Free, Units;
      LiveBlocks(View());
      var n := Core4096(nu);
      fault := false;
      if grant == -1 {
        return false, false, 0;
      }
      ghost var h := View();
      assert Above(h, grant);
      GrowInv(h, grant, n);
      GrowLive(h, grant);
      SbrkExact(n, grant);
      brk := Moved(grant, SbrkArg(n) / 16);
      if Faults(grant, n) {
        return false, true, 0;
      }
      mem := mem[grant := Hdr(if grant in mem then mem[grant].ptr else 0, n)];
      blk, live, owned := blk[grant := n], live + {grant}, owned + Units(grant, n);
      assert View() == Grow(h, grant, n);
      c := FreeBlock(grant);
      ok := true;
      assert grant + n - 1 in owned;
    }

    /** Take a block of nunits from list member p, which follows prevp. */
    method Take(prevp: int, p: int, nunits: nat) returns (r: int)
      requires Valid() && freep != 0 && nunits >= 1 && prevp in Free(View()) && prevp in mem && mem[prevp].ptr == p
      requires p in mem && mem[p].size >= nunits
      modifies this
      ensures Valid() && freep == prevp != 0 && r != 0 && r !in old(live) && live == old(live) + {r}
      ensures owned == old(owned) && brk == old(brk)
      ensures r in blk && blk[r] == nunits && forall a :: a in old(live) ==>
        a in old(blk) && a in blk && blk[a] == old(blk)[a]
    {
      hide Inv, Free, Coalesced;
      ghost var h := View();
      InvCore(h);
      TakeFacts(h, prevp, p, nunits);
      if mem[p].size == nunits {
        RemoveInv(h, prevp, p);
        RemoveFree(h, prevp, p);
        mem := mem[prevp := mem[prevp].(ptr := mem[p].ptr)];
        live := live + {p};
        assert View() == Remove(h, prevp, p);
        r := p;
      } else {
        SplitInv(h, p, nunits);
        SplitFresh(h, p, nunits);
        mem := mem[p := mem[p].(size := mem[p].size - nunits)];
        r := p + mem[p].size;
        mem := mem[r := Hdr(if r in mem then mem[r].ptr else 0, nunits)];
        blk, live := blk[p := blk[p] - nunits][r := nunits], live + {r};
        assert View() == Split(h, p, nunits);
      }
      freep := prevp;
      InvCore(View());
      FreepOk(View(), prevp);
      LiveBlocks(View());
    }

    /** malloc(nbytes), where sbrk answers `grant`, the end of memory then, if it is asked. The result is
        the header of the new block, one unit before the pointer that malloc returns; 0 stands for
        failure, and for the process that a fault killed. The block lies in memory of the process, as all
        others do, exactly when sbrk was not asked, refused, or could be asked for the size. */
    method Malloc(nbytes: nat, grant: int) returns (r: int, asked: nat, fault: bool)
      requires Valid() && Backed() && nbytes < 0x1_0000_0000 && (grant == -1 || grant >= brk)
      modifies this
      ensures fault <==> asked == 1 && grant != -1 && Faults(grant, Core4096(Nunits(nbytes)))
      ensures !fault ==> (Backed() <==> asked == 0 || grant == -1 || FitsInt(nbytes))
      ensures asked == 1 && grant != -1 ==> brk == Moved(grant, SbrkArg(Core4096(Nunits(nbytes))) / 16)
      ensures asked == 0 || grant == -1 ==> brk == old(brk)
      ensures Valid() && freep != 0 && asked <= 1
      ensures r != 0 ==> r !in old(live) && live == old(live) + {r} && r in blk && blk[r] == Nunits(nbytes)
      ensures r == 0 ==> live == old(live) && asked == 1 && (grant == -1 || fault)
      ensures fault ==> r == 0
      ensures forall a :: a in old(live) ==> a in old(blk) && a in blk && blk[a] == old(blk)[a]
      ensures owned == old(owned) + if asked == 1 && r != 0 then Units(grant, Core4096(Nunits(nbytes))) else {}
      ensures asked == 1 ==> forall a :: a in old(blk) && a !in old(live) ==> old(blk)[a] < Nunits(nbytes)
    {
      hide Inv, Free, Arc, Units, Nunits, SbrkArg, Moved, Faults;
      var nunits := Nunits(nbytes);
      assert nunits <= 0x1000_0001 by { UnitsBound(nbytes); }
      if freep == 0 {
        Initialise();
      }
      ghost var h := View();
      var prevp := freep;
      RingStart(h, prevp);
      var p := mem[prevp].ptr;
      asked, fault := 0, false;
      ghost var big := 0;
      while true
        invariant Valid() && freep != 0 && asked <= 1 && prevp in Free(View()) && prevp in mem && mem[prevp].ptr == p
        invariant p in Free(View()) && p in mem
        invariant asked == 0 ==> Backed() && brk == old(brk)
        invariant !fault && (asked == 1 ==> grant >= 0 && !Faults(grant, Core4096(nunits)))
        invariant asked == 1 ==> brk == Moved(grant, SbrkArg(Core4096(nunits)) / 16) && (Backed() <==> FitsInt(nbytes))
        invariant asked == 0 ==> View() == h && Small(h, Free(h) - Arc(Free(h), p, freep), nunits)
        invariant asked == 1 ==>
          grant != -1 && Small(h, Free(h), nunits) && owned == h.owned + Units(grant, Core4096(nunits))
        invariant asked == 1 ==>
          live == h.live && forall a :: a in live ==> a in h.blk && a in blk && blk[a] == h.blk[a]
        invariant asked == 1 ==> big in Arc(Free(View()), p, freep) && big in mem && mem[big].size >= nunits
        decreases 1 - asked, Arc(Free(View()), p, freep)
      {
        if mem[p].size >= nunits {
          r := Take(prevp, p, nunits);
          if asked == 1 {
            SmallBlocks(h, nunits);
          }
          return;
        }
        if p == freep {
          AllSmall(h, View(), p, nunits, asked, big);
          var ok;
          ok, fault, big := Morecore(nunits, grant);
          asked := 1;
          if !ok {
            SmallBlocks(h, nunits);
            return 0, asked, fault;
          }
          BigBlock(View(), big, nunits);
          p := freep;
          RingStart(View(), p);
          prevp := p;
          p := mem[p].ptr;
        } else {
          RingStep(View(), p, freep);
          SmallMore(h, View(), p, freep, nunits, asked);
          prevp := p;
          p := mem[p].ptr;
        }
      }
    }

    /** The first call: the list is the static header alone. */
    method Initialise()
      requires Valid() && freep == 0
      modifies this
      ensures Valid() && freep == BASE && View() == Start(old(mem)) && brk == old(brk)
    {
      StartInv(mem);
      mem := mem[BASE := Hdr(BASE, 0)];
      freep := BASE;
      assert View() == Start(old(mem));
      FreeFacts(View());
    }
  }

  /** morecore asks for at least 4096 units. */
  function Core4096(nu: nat): (n: nat)
    ensures n >= nu && n >= 4096
  {
    if nu < 4096 then 4096 else nu
  }

  lemma UnitsBound(nbytes: nat)
    requires nbytes < 0x1_0000_0000
    ensures Nunits(nbytes) <= 0x1000_0001
  {
  }

  lemma LiveBlocks(h: Heap)
    requires Inv(h)
    ensures h.live <= h.blk.Keys && forall a :: a in h.blk ==> a > BASE
  {
  }

  lemma GrowLive(h: Heap, grant: int)
    requires Inv(h) && grant !in h.blk
    ensures grant !in h.live && h.live + {grant} - {grant} == h.live
  {
  }

  lemma TakeFacts(h: Heap, prevp: int, p: int, n: nat)
    requires Inv(h) && prevp in Free(h) && prevp in h.mem && h.mem[prevp].ptr == p && p in h.mem
    requires h.mem[p].size >= n >= 1
    ensures p in Free(h) && p != BASE && p != prevp && p in h.blk && p !in h.live && h.blk[p] == h.mem[p].size
    ensures CanRemove(h, prevp, p)
  {
    assert LinkOk(h, prevp);
  }

  /** Every listed member is too small. */
  ghost predicate Small(h: Heap, f: set<int>, n: nat) {
    forall a :: a in f && a in h.mem ==> h.mem[a].size < n
  }

  lemma RingStart(h: Heap, p: int)
    requires Inv(h) && p in Free(h)
    ensures p in h.mem && h.mem[p].ptr in Free(h) && h.mem[p].ptr in h.mem
    ensures Arc(Free(h), h.mem[p].ptr, p) == Free(h) && Free(h) - Arc(Free(h), h.mem[p].ptr, p) == {}
  {
    hide Free, TilesOk, BlocksOk, Coalesced, Arc;
    LinkFacts(h, p);
    LinkFacts(h, h.mem[p].ptr);
    ArcAll(Free(h), p, h.mem[p].ptr);
  }

  lemma RingStep(h: Heap, p: int, e: int)
    requires Inv(h) && p in Free(h) && e in Free(h) && p != e
    ensures p in h.mem && h.mem[p].ptr in Free(h) && h.mem[p].ptr in h.mem
    ensures Arc(Free(h), h.mem[p].ptr, e) == Arc(Free(h), p, e) - {p}
    ensures Arc(Free(h), h.mem[p].ptr, e) < Arc(Free(h), p, e)
  {
    hide Free, TilesOk, BlocksOk, Coalesced, Arc;
    LinkFacts(h, p);
    LinkFacts(h, h.mem[p].ptr);
    ArcRest(Free(h), p, h.mem[p].ptr, e);
    ArcStep(Free(h), p, h.mem[p].ptr, e);
  }

  lemma SmallMore(h: Heap, h1: Heap, p: int, e: int, n: nat, asked: nat)
    requires asked == 0 ==> h1 == h && p in h.mem && h.mem[p].size < n && Small(h, Free(h) - Arc(Free(h), p, e), n)
    requires asked == 0 ==> Arc(Free(h), h.mem[p].ptr, e) == Arc(Free(h), p, e) - {p}
    ensures asked == 0 ==> Small(h, Free(h) - Arc(Free(h), h.mem[p].ptr, e), n)
  {
    hide Free, Arc;
  }

  /** Back at the start of the ring, everything was too small; after morecore this cannot happen. */
  lemma AllSmall(h: Heap, h1: Heap, p: int, n: nat, asked: nat, big: int)
    requires p in Free(h1) && p in h1.mem && h1.mem[p].size < n && asked <= 1
    requires asked == 0 ==> h1 == h && Small(h, Free(h) - Arc(Free(h), p, p), n)
    requires asked == 1 ==> big in Arc(Free(h1), p, p) && big in h1.mem && h1.mem[big].size >= n
    ensures asked == 0 && Small(h, Free(h), n)
  {
    hide Free, Arc;
    ArcOne(Free(h1), p);
  }

  lemma BigBlock(h: Heap, big: int, n: nat)
    requires Inv(h) && big in h.blk && big !in h.live && h.blk[big] >= n
    ensures big in Free(h) && big in h.mem && h.mem[big].size >= n
  {
  }

  lemma SmallBlocks(h: Heap, n: nat)
    requires Inv(h) && Small(h, Free(h), n)
    ensures forall a :: a in h.blk && a !in h.live ==> h.blk[a] < n
  {
    forall a | a in h.blk && a !in h.live ensures h.blk[a] < n {
      assert a in Free(h);
    }
  }

  lemma FreepOk(h: Heap, p: int)
    requires Core(h) && Coalesced(h) && p in Free(h)
    ensures Inv(h) && p != 0
  {
    FreeFacts(h);
  }

  /** The header writes of free(). */
  function WriteBack(mem: map<int, Hdr>, p: int, b: int): (r: map<int, Hdr>)
    requires p in mem && b in mem && p != b && (b + mem[b].size == mem[p].ptr ==> mem[p].ptr in mem)
  {
    var q := mem[p].ptr;
    var m1 := if b + mem[b].size == q then mem[b := Hdr(mem[q].ptr, mem[b].size + mem[q].size)]
              else mem[b := mem[b].(ptr := q)];
    if p + m1[p].size == b then m1[p := Hdr(m1[b].ptr, m1[p].size + m1[b].size)] else m1[p := m1[p].(ptr := b)]
  }

  /** They amount to inserting the block and joining it with both neighbours. */
  lemma ReturnedMem(h: Heap, p: int, b: int)
    requires CanInsert(h, p, b)
    ensures p in h.mem && b in h.mem && p != b && (b + h.mem[b].size == h.mem[p].ptr ==> h.mem[p].ptr in h.mem)
    ensures Returned(h, p, b).mem == WriteBack(h.mem, p, b)
  {
    hide Core, Free, Touch, Between;
    InsertCore(h, p, b);
    var h1 := Insert(h, p, b);
    JoinedCore(h1, b);
    JoinedKeeps(h1, p, b);
    SizeOf(h, b);
    FirstJoin(h, p, b);
    SecondJoin(h, p, b);
  }

  lemma SizeOf(h: Heap, b: int)
    requires Core(h) && b in h.live
    ensures b in h.blk && b in h.mem && h.mem[b].size == h.blk[b] && b > BASE
  {
  }

  lemma FirstJoin(h: Heap, p: int, b: int)
    requires CanInsert(h, p, b) && b in h.mem && b in h.blk && h.mem[b].size == h.blk[b] && b > BASE && p != b
    ensures var q := h.mem[p].ptr; Touch(Insert(h, p, b), b, q) <==> b + h.mem[b].size == q
    ensures b + h.mem[b].size == h.mem[p].ptr ==> h.mem[p].ptr in h.mem && h.mem[p].ptr != p && h.mem[p].ptr != b
  {
    hide TilesOk;
    assert LinkOk(h, p);
    FreeFacts(h);
  }

  lemma SecondJoin(h: Heap, p: int, b: int)
    requires CanInsert(h, p, b) && b in h.mem && Core(Insert(h, p, b)) && p != b
    ensures Core(Joined(Insert(h, p, b), b)) && p in Joined(Insert(h, p, b), b).mem
    ensures var h2 := Joined(Insert(h, p, b), b); Touch(h2, p, b) <==> p + h2.mem[p].size == b
    ensures Joined(Insert(h, p, b), b).mem[p].ptr == b
  {
    hide TilesOk, RingOk;
    var h1 := Insert(h, p, b);
    JoinedKeeps(h1, p, b);
    var h2 := Joined(h1, b);
    FreeFacts(h);
    BaseZero(h);
    if Touch(h1, b, h1.mem[b].ptr) {
      TouchNext(h1, b, h1.mem[b].ptr);
    }
  }

  lemma BaseZero(h: Heap)
    requires Core(h)
    ensures BASE in h.mem && h.mem[BASE].size == 0
  {
  }

  lemma InvCore(h: Heap)
    requires Inv(h)
    ensures Core(h) && Coalesced(h)
  {
  }

  lemma LinkFacts(h: Heap, p: int)
    requires Core(h) && p in Free(h)
    ensures p in h.mem && IsNext(Free(h), p, h.mem[p].ptr) && BASE in Free(h) && forall c :: c in Free(h) ==> c >= BASE
  {
    assert LinkOk(h, p);
    FreeFacts(h);
  }

  lemma LastPlace(h: Heap, b: int)
    requires Core(h) && b in h.live
    ensures b > BASE && b in h.blk && b in h.mem
  {
  }

  /** The first call asks for nearly 4 GB. sbrk is asked for 16 bytes and succeeds, and malloc returns a
      block of 2^28 + 1 units, inside which lies the address that the next sbrk will return. */
  method HugeRequest(ghost size: nat, grant: nat) returns (m: Allocator, r: int)
    requires BASE < size <= grant
    ensures m.Valid() && !m.Backed() && r != 0 && r in m.live && r in m.blk && m.blk[r] == 0x1000_0001
    ensures r < m.brk < r + m.blk[r]
  {
    hide Inv, Free;
    m := new Allocator(size);
    var asked, fault;
    assert Nunits(0xffff_fff8) == 0x1000_0001 && SbrkArg(0x1000_0001) == 16;
    FaultsIff(grant, 0x1000_0001);
    r, asked, fault := m.Malloc(0xffff_fff8, grant);
    assert asked == 1 by {
      if asked == 0 {
        OwnsNothing(m.View(), r);
      }
    }
    FirstBlock(m.View(), r, grant);
  }

  lemma OwnsNothing(h: Heap, r: int)
    requires Inv(h) && r in h.blk
    ensures r in h.owned
  {
    hide RingOk, Coalesced;
    assert Covered(h.blk, r);
  }

  lemma FirstBlock(h: Heap, r: int, grant: int)
    requires Inv(h) && r in h.blk && h.blk[r] == 0x1000_0001 && h.owned == Units(grant, 0x1000_0001)
    ensures r == grant
  {
    hide RingOk, Coalesced;
    assert Covered(h.blk, r) && Covered(h.blk, r + 0x1000_0000);
  }
}
