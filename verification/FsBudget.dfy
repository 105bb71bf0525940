/** How many blocks files need. A file that has been asked for `r` blocks owns at most those, and an
    indirect block if they go beyond the direct ones, so a disk with that many data blocks is not full. */
module FsBudget {
  import opened FsModel
  import opened FsSteps
  import opened Words
  import Pigeonhole

  /** Owners change only to free, or to block numbers below r of file n and its indirect block. */
  ghost predicate OwnersGrow(o: seq<Owner>, o': seq<Owner>, n: nat, r: nat) {
    |o'| == |o| && forall b :: 0 <= b < |o| ==>
      || o'[b] == o[b] || o'[b] == Free
      || (o'[b].Data? && o'[b].n == n && o'[b].bn < r) || (o'[b] == Ind(n) && r > NDIRECT)
  }

  lemma OwnersGrowTrans(o: seq<Owner>, o1: seq<Owner>, o2: seq<Owner>, n: nat, r1: nat, r2: nat)
    requires OwnersGrow(o, o1, n, r1) && OwnersGrow(o1, o2, n, r2) && r1 <= r2
    ensures OwnersGrow(o, o2, n, r2)
  {
  }

  lemma OwnersGrowMore(o: seq<Owner>, o': seq<Owner>, n: nat, r: nat, r': nat)
    requires OwnersGrow(o, o', n, r) && r <= r'
    ensures OwnersGrow(o, o', n, r')
  {
  }

  lemma OwnersGrowRefl(o: seq<Owner>, n: nat, r: nat)
    ensures OwnersGrow(o, o, n, r)
  {
  }

  /** balloc followed by the entry for it. */
  lemma OwnersGrowOne(o: seq<Owner>, o': seq<Owner>, b: nat, owner: Owner, n: nat, r: nat)
    requires b < |o| && o' == o[b := Pending][b := owner]
    requires (owner.Data? && owner.n == n && owner.bn < r) || (owner == Ind(n) && r > NDIRECT)
    ensures OwnersGrow(o, o', n, r)
  {
  }

  predicate Slot(o: Owner, reach: seq<nat>) {
    || (o.Data? && o.n < |reach| && o.bn < reach[o.n])
    || (o.Ind? && o.n < |reach| && reach[o.n] > NDIRECT)
  }

  /** Files own no block beyond those they have been asked for. */
  ghost predicate Compact(owner: seq<Owner>, reach: seq<nat>) {
    forall b :: 0 <= b < |owner| && (owner[b].Data? || owner[b].Ind?) ==> Slot(owner[b], reach)
  }

  /** File n has been asked for r blocks. */
  function Reached(reach: seq<nat>, n: nat, r: nat): (reach': seq<nat>)
    requires n < |reach|
    ensures |reach'| == |reach|
  {
    reach[n := Max(reach[n], r)]
  }

  lemma CompactGrow(o: seq<Owner>, o': seq<Owner>, reach: seq<nat>, n: nat, r: nat)
    requires Compact(o, reach) && OwnersGrow(o, o', n, r) && n < |reach|
    ensures Compact(o', Reached(reach, n, r))
  {
  }

  lemma CompactTrunc(o: seq<Owner>, o': seq<Owner>, reach: seq<nat>, n: nat)
    requires Compact(o, reach) && n < |reach| && |o'| == |o|
    requires forall b :: 0 <= b < |o| ==> o'[b] == if Owns(o[b], n) then Free else o[b]
    ensures Compact(o', reach[n := 0])
  {
  }

  // ---- counting blocks --------------------------------------------------------------------------------

  function FileNeed(r: nat): (n: nat) {
    r + if r > NDIRECT then 1 else 0
  }

  /** The data blocks that files of these lengths take. */
  function Need(reach: seq<nat>): (n: nat) {
    if reach == [] then 0 else Need(reach[..|reach| - 1]) + FileNeed(reach[|reach| - 1])
  }

  ghost function DataSlots(n: nat, r: nat): (s: set<Owner>)
    ensures |s| == r && forall o :: o in s <==> o.Data? && o.n == n && o.bn < r
  {
    if r == 0 then {} else DataSlots(n, r - 1) + {Data(n, r - 1)}
  }

  ghost function FileSlots(n: nat, r: nat): (s: set<Owner>)
    ensures |s| == FileNeed(r)
    ensures forall o :: o in s <==> (o.Data? && o.n == n && o.bn < r) || (o == Ind(n) && r > NDIRECT)
  {
    DataSlots(n, r) + if r > NDIRECT then {Ind(n)} else {}
  }

  ghost function AllSlots(reach: seq<nat>): (s: set<Owner>) {
    if reach == [] then {} else AllSlots(reach[..|reach| - 1]) + FileSlots(|reach| - 1, reach[|reach| - 1])
  }

  lemma {:induction false} AllSlotsAre(reach: seq<nat>)
    ensures |AllSlots(reach)| == Need(reach) && forall o :: o in AllSlots(reach) <==> Slot(o, reach)
  {
    if reach != [] {
      var k := |reach| - 1;
      var rest := reach[..k];
      AllSlotsAre(rest);
      forall o ensures Slot(o, reach) <==> Slot(o, rest) || o in FileSlots(k, reach[k]) {
        LastSlot(reach, o);
      }
      hide Slot;
      forall o | o in AllSlots(rest) ensures o !in FileSlots(k, reach[k]) {
        LastSlot(reach, o);
      }
    }
  }

  lemma LastSlot(reach: seq<nat>, o: Owner)
    requires reach != []
    ensures var k := |reach| - 1;
      && (Slot(o, reach) <==> Slot(o, reach[..k]) || o in FileSlots(k, reach[k]))
      && (Slot(o, reach[..k]) ==> o !in FileSlots(k, reach[k]))
  {
  }

  ghost function OwnerOf(fs: Fs, b: nat): (o: Owner) {
    if b < |fs.owner| then fs.owner[b] else Free
  }

  /** Different blocks have different owners. */
  lemma OneOwner(l: Layout, fs: Fs, a: nat, b: nat)
    requires Core(l, fs) && a < |fs.owner| && b < |fs.owner| && fs.owner[a] == fs.owner[b]
    requires fs.owner[a].Data? || fs.owner[a].Ind?
    ensures a == b
  {
    hide BitsOk, MapOk, BlockNo, Indirect;
  }

  lemma OwnedBlock(l: Layout, fs: Fs, b: nat)
    requires Core(l, fs) && NoPending(fs) && DiskFull(fs) && l.nmeta <= b < l.nblocks
    ensures b < |fs.owner| && (fs.owner[b].Data? || fs.owner[b].Ind?)
  {
    hide MapOk, OwnOk, Used;
  }

  /** A full disk whose owners lie in this set has no more data blocks than the set has elements. */
  lemma FullCount(l: Layout, fs: Fs, slots: set<Owner>)
    requires Core(l, fs) && NoPending(fs) && DiskFull(fs)
    requires forall b :: 0 <= b < |fs.owner| && (fs.owner[b].Data? || fs.owner[b].Ind?) ==> fs.owner[b] in slots
    ensures l.nblocks - l.nmeta <= |slots|
  {
    hide Core, NoPending, DiskFull;
    CoreShape(l, fs);
    ShapeLen(l, fs);
    var all, meta := Pigeonhole.Range(l.nblocks), Pigeonhole.Range(l.nmeta);
    var data := all - meta;
    assert all == data + meta;
    var f := (b: nat) => OwnerOf(fs, b);
    forall b | b in data ensures f(b) in slots && b < |fs.owner| && (fs.owner[b].Data? || fs.owner[b].Ind?) {
      OwnedBlock(l, fs, b);
    }
    forall a, b | a in data && b in data && f(a) == f(b) ensures a == b {
      OneOwner(l, fs, a, b);
    }
    Pigeonhole.Injected(data, slots, f);
  }

  /** If the disk is full and some block that was asked for is missing, there are fewer data blocks than
      files need. */
  lemma FullMeansShort(l: Layout, fs: Fs, reach: seq<nat>, missing: Owner)
    requires Core(l, fs) && NoPending(fs) && DiskFull(fs) && Compact(fs.owner, reach)
    requires Slot(missing, reach) && missing !in fs.owner
    ensures l.nblocks - l.nmeta < Need(reach)
  {
    hide Core, NoPending, DiskFull;
    AllSlotsAre(reach);
    var slots := AllSlots(reach) - {missing};
    forall b | 0 <= b < |fs.owner| && (fs.owner[b].Data? || fs.owner[b].Ind?) ensures fs.owner[b] in slots {
      assert Slot(fs.owner[b], reach);
    }
    FullCount(l, fs, slots);
  }

  lemma MissingBlock(l: Layout, fs: Fs, n: nat, bn: nat)
    requires Core(l, fs) && n < |fs.inodes| && bn < MAXFILE && BlockNo(fs, n, bn) == 0
    ensures Data(n, bn) !in fs.owner
  {
    hide BlockNo, Indirect, MapOk, Used;
    forall b | 0 <= b < |fs.owner| ensures fs.owner[b] != Data(n, bn) {
      assert b == 0 ==> fs.owner[b] == Meta;
    }
  }

  // ---- the blocks a write asks for --------------------------------------------------------------------------

  /** A write of cnt bytes at off that has stored tot of them has asked for the blocks below this one. */
  function Touches(off: nat, cnt: nat, tot: nat): (r: nat) {
    if tot < cnt then (off + tot) / BSIZE + 1 else (off + cnt + BSIZE - 1) / BSIZE
  }

  lemma TouchesMore(off: nat, tot: nat, m: nat)
    requires 0 < m <= BSIZE - (off + tot) % BSIZE
    ensures (off + tot) / BSIZE + 1 <= (off + tot + m + BSIZE - 1) / BSIZE
    ensures (off + tot + BSIZE - 1) / BSIZE <= (off + tot) / BSIZE + 1
  {
  }

  /** How many of cnt bytes at off are stored when avail of them can be read: writei copies what lies in one
      block at a time, so it stops at the last block boundary that it can reach. */
  function Stored(off: nat, cnt: nat, avail: nat): (n: nat)
    ensures n <= cnt && n <= avail
  {
    if avail >= cnt then cnt else
      var last := (off + avail) / BSIZE * BSIZE;
      if last <= off then 0 else last - off
  }

  lemma StoredBound(off: nat, cnt: nat, avail: nat, tot: nat)
    requires tot <= avail && tot <= cnt && (0 < tot < cnt ==> (off + tot) % BSIZE == 0)
    ensures tot <= Stored(off, cnt, avail)
  {
    if 0 < tot < cnt && avail < cnt {
      assert (off + tot) / BSIZE * BSIZE == off + tot;
      assert (off + tot) / BSIZE <= (off + avail) / BSIZE;
    }
  }

  /** The chunk in which the readable bytes end is not stored. */
  lemma StoredStop(off: nat, cnt: nat, avail: nat, tot: nat, m: nat)
    requires tot < cnt && m <= cnt - tot && m <= BSIZE - (off + tot) % BSIZE
    requires tot <= avail < tot + m && (tot > 0 ==> (off + tot) % BSIZE == 0)
    ensures Stored(off, cnt, avail) == tot
  {
    var cur, r := off + tot, (off + tot) % BSIZE;
    assert cur == cur / BSIZE * BSIZE + r;
    assert (off + avail) / BSIZE == cur / BSIZE by {
      assert off + avail == cur / BSIZE * BSIZE + (r + (avail - tot)) && r + (avail - tot) < BSIZE;
    }
  }
}
