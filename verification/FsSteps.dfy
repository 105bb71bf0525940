/** The pure half of FsCode: what each stretch of file-system code does to the value. */
module FsSteps {
  import opened FsModel
  import opened FsOps
  import opened Words
  import Pigeonhole

  lemma CoreShape(l: Layout, fs: Fs)
    requires Core(l, fs)
    ensures Shape(l, fs)
  {
  }

  lemma ShapeLen(l: Layout, fs: Fs)
    requires Shape(l, fs)
    ensures |fs.disk| == |fs.owner| == l.nblocks && l.nmeta <= l.nblocks
  {
  }

  ghost predicate AllUsed(l: Layout, disk: seq<Block>, n: nat) {
    forall c :: 0 <= c < n ==> Used(l, disk, c)
  }

  /** balloc took block b, the first free one. */
  ghost predicate Allocated(l: Layout, fs: Fs, fs': Fs, b: nat) {
    && Core(l, fs) && Core(l, fs') && KeepsAll(fs, fs') && b < |fs.owner| && fs.owner[b] == Free
    && AllUsed(l, fs.disk, b)
    && BBlock(l, b) < |fs.disk| && |fs.disk[BBlock(l, b)]| == BSIZE && fs' == Alloc(l, fs, b)
  }

  lemma SameBitmapBlock(l: Layout, b0: nat, bi: nat)
    requires b0 % BPB == 0 && bi < BPB
    ensures BBlock(l, b0 + bi) == BBlock(l, b0) && (b0 + bi) % BPB == bi
  {
  }

  lemma AllocFirst(l: Layout, fs: Fs, b: nat)
    requires Core(l, fs) && b < l.nblocks && AllUsed(l, fs.disk, b) && !Used(l, fs.disk, b)
    ensures BBlock(l, b) < |fs.disk| && |fs.disk[BBlock(l, b)]| == BSIZE && b < |fs.owner| && b != BBlock(l, b)
    ensures Allocated(l, fs, Alloc(l, fs, b), b) && b > 0
  {
    hide Used, MapOk, OwnOk;
    InBitmap(l, fs, b);
    AllocCore(l, fs, b);
    AllocKeeps(l, fs, b);
    ZeroIsMeta(l, fs);
  }

  // ---- bmap ------------------------------------------------------------------------------------------

  /** Files keep their blocks and bytes; only the bitmap, fresh blocks and the map of inode n may
      have changed. */
  ghost predicate Steady(l: Layout, fs: Fs, fs': Fs, n: nat) {
    && Core(l, fs') && NoPending(fs') && KeepsAll(fs, fs') && |fs'.disk| == |fs.disk|
    && (forall c :: 0 <= c < l.bmapstart && c < |fs.disk| ==> fs'.disk[c] == fs.disk[c])
    && (forall n' :: 0 <= n' < |fs.inodes| && n' != n ==> fs'.inodes[n'] == fs.inodes[n'])
    && (Indirect(fs, n) != 0 ==> Indirect(fs', n) == Indirect(fs, n))
  }

  lemma SteadyRefl(l: Layout, fs: Fs, n: nat)
    requires Core(l, fs) && NoPending(fs)
    ensures Steady(l, fs, fs, n)
  {
    hide Core;
    KeepsRefl(l, fs);
  }

  lemma SteadyTrans(l: Layout, fs: Fs, fs1: Fs, fs2: Fs, n: nat)
    requires Steady(l, fs, fs1, n) && Steady(l, fs1, fs2, n)
    ensures Steady(l, fs, fs2, n)
  {
    hide Core, Keeps, Indirect, NoPending;
    KeepsAllTrans(fs, fs1, fs2);
  }

  lemma AllocMeta(l: Layout, fs: Fs, fs': Fs, b: nat)
    requires Allocated(l, fs, fs', b)
    ensures |fs'.disk| == |fs.disk| && fs'.inodes == fs.inodes && fs'.owner == fs.owner[b := Pending]
    ensures 0 < b < |fs'.owner|
    ensures fs'.disk[b] == Zeros() && forall c :: 0 <= c < l.bmapstart && c < |fs.disk| ==> fs'.disk[c] == fs.disk[c]
  {
    hide MapOk, OwnOk, KeepsAll, Zeros, SetBitIn;
    InBitmap(l, fs, b);
    ZeroIsMeta(l, fs);
  }

  /** balloc followed by an entry in ip->addrs or in the indirect block. */
  lemma AllocAttach(l: Layout, fs: Fs, fs1: Fs, n: nat, bn: nat, b: nat)
    requires Allocated(l, fs, fs1, b) && NoPending(fs) && n < |fs.inodes| && bn < MAXFILE && BlockNo(fs, n, bn) == 0
    requires bn >= NDIRECT ==> Indirect(fs, n) != 0
    ensures CanAttach(l, fs1, n, bn, b) && |fs1.inodes[n].addrs| == NDIRECT + 1 && 0 < b < UINT && b < |fs1.owner|
    ensures b < |fs.owner| && fs1.owner == fs.owner[b := Pending]
    ensures bn >= NDIRECT ==> Indirect(fs1, n) == Indirect(fs, n) < |fs1.disk| && |fs1.disk[Indirect(fs1, n)]| == BSIZE
    ensures bn >= NDIRECT ==> fs1.disk[Indirect(fs1, n)] == fs.disk[Indirect(fs1, n)]
    ensures Steady(l, fs, Attach(fs1, n, bn, b), n) && BlockNo(Attach(fs1, n, bn, b), n, bn) == b
    ensures Indirect(Attach(fs1, n, bn, b), n) == Indirect(fs, n)
  {
    hide Core, BlockNo, Indirect, Keeps, Zeros, SetWord;
    AllocMeta(l, fs, fs1, b);
    AllocMap(l, fs, b, n, bn);
    AttachReady(l, fs1, n, bn, b);
    AttachCore(l, fs1, n, bn, b);
    AttachKeeps(l, fs1, n, bn, b);
    AttachMap(l, fs1, n, bn, b, n, bn);
    KeepsAllTrans(fs, fs1, Attach(fs1, n, bn, b));
    if bn >= NDIRECT {
      IndBlock(l, fs, n);
      AllocElsewhere(l, fs, b, Indirect(fs, n));
      IndBlock(l, fs1, n);
    }
  }

  lemma IndBlock(l: Layout, fs: Fs, n: nat)
    requires Core(l, fs) && n < |fs.inodes| && Indirect(fs, n) != 0
    ensures Indirect(fs, n) < |fs.owner| == |fs.disk| && fs.owner[Indirect(fs, n)] == Ind(n)
    ensures |fs.disk[Indirect(fs, n)]| == BSIZE
    ensures Indirect(fs, n) >= l.nmeta >= l.bmapstart
  {
  }

  lemma AllocAttachInd(l: Layout, fs: Fs, fs1: Fs, n: nat, b: nat)
    requires Allocated(l, fs, fs1, b) && NoPending(fs) && n < |fs.inodes| && Indirect(fs, n) == 0
    ensures n < |fs1.inodes| && |fs1.inodes[n].addrs| == NDIRECT + 1 && 0 < b < |fs1.owner|
    ensures b < |fs.owner| && fs1.owner == fs.owner[b := Pending]
    ensures Steady(l, fs, AttachInd(fs1, n, b), n) && Indirect(AttachInd(fs1, n, b), n) == b
    ensures forall bn :: 0 <= bn < MAXFILE ==> BlockNo(AttachInd(fs1, n, b), n, bn) == BlockNo(fs, n, bn)
  {
    hide Core, BlockNo, Indirect, Keeps, Zeros;
    AllocMeta(l, fs, fs1, b);
    AllocMap(l, fs, b, n, 0);
    CoreAddrs(l, fs1, n);
    AttachIndCore(l, fs1, n, b);
    AttachIndKeeps(l, fs1, n, b);
    KeepsAllTrans(fs, fs1, AttachInd(fs1, n, b));
    AttachIndMap(l, fs1, n, b, n, 0);
    forall bn | 0 <= bn < MAXFILE ensures BlockNo(AttachInd(fs1, n, b), n, bn) == BlockNo(fs, n, bn) {
      AllocMap(l, fs, b, n, bn);
      AttachIndMap(l, fs1, n, b, n, bn);
    }
  }

  lemma CoreAddrs(l: Layout, fs: Fs, n: nat)
    requires Core(l, fs) && n < |fs.inodes|
    ensures |fs.inodes[n].addrs| == NDIRECT + 1 && |fs.disk| == |fs.owner| == l.nblocks
    ensures Indirect(fs, n) == fs.inodes[n].addrs[NDIRECT]
    ensures forall bn :: 0 <= bn < NDIRECT ==> BlockNo(fs, n, bn) == fs.inodes[n].addrs[bn]
  {
  }

  lemma ListedNo(l: Layout, fs: Fs, n: nat, bn: nat)
    requires Core(l, fs) && n < |fs.inodes| && Indirect(fs, n) != 0 && NDIRECT <= bn < MAXFILE
    ensures Indirect(fs, n) < |fs.disk| && BlockNo(fs, n, bn) == Word(fs.disk[Indirect(fs, n)], bn - NDIRECT)
  {
  }

  /** The set of one block number, where 0 stands for none. */
  function One(b: nat): (s: set<nat>)
    ensures |s| <= 1
  {
    if b == 0 then {} else {b}
  }

  ghost function Count(c: bool): (n: nat) {
    if c then 1 else 0
  }

  lemma SteadyFacts(l: Layout, fs: Fs, fs': Fs, n: nat)
    requires Steady(l, fs, fs', n)
    ensures Core(l, fs') && NoPending(fs')
  {
  }

  lemma HasIndirect(l: Layout, fs: Fs, n: nat, bn: nat)
    requires NDIRECT <= bn < MAXFILE
    ensures BlockNo(fs, n, bn) != 0 ==> Indirect(fs, n) != 0
  {
  }

  lemma UnionSize(a: set<nat>, b: set<nat>)
    ensures |a + b| <= |a| + |b|
  {
  }

  // ---- itrunc -------------------------------------------------------------------------------------------

  ghost predicate DetachOf(l: Layout, fs: Fs, fs': Fs, n: nat, bn: nat) {
    && Core(l, fs) && n < |fs.inodes| && bn < MAXFILE && BlockNo(fs, n, bn) != 0
    && |fs.inodes[n].addrs| == NDIRECT + 1 && BlockNo(fs, n, bn) < |fs.owner|
    && BBlock(l, BlockNo(fs, n, bn)) < |fs.disk| && |fs.disk[BBlock(l, BlockNo(fs, n, bn))]| == BSIZE
    && (bn >= NDIRECT ==> Indirect(fs, n) < |fs.disk| && |fs.disk[Indirect(fs, n)]| == BSIZE)
    && fs' == Detach(l, fs, n, bn)
  }

  /** The first k file blocks of inode n are gone and free; all other blocks keep their owner. */
  ghost predicate Truncated(l: Layout, fs: Fs, fs': Fs, n: nat, k: nat) {
    && n < |fs.inodes| == |fs'.inodes| && |fs'.owner| == |fs.owner| && |fs'.disk| == |fs.disk|
    && (forall b :: 0 <= b < |fs.owner| ==>
          fs'.owner[b] == if fs.owner[b].Data? && fs.owner[b].n == n && fs.owner[b].bn < k then Free else fs.owner[b])
    && (forall bn :: 0 <= bn < MAXFILE ==> BlockNo(fs', n, bn) == if bn < k then 0 else BlockNo(fs, n, bn))
    && Indirect(fs', n) == Indirect(fs, n) && fs'.inodes[n].size == fs.inodes[n].size
    && KeepsOthers(fs, fs', n) && Elsewhere(l, fs, fs', n)
  }

  /** Inode blocks on disk and the other inodes are as they were. */
  ghost predicate Elsewhere(l: Layout, fs: Fs, fs': Fs, n: nat) {
    && |fs'.inodes| == |fs.inodes| && |fs'.disk| == |fs.disk|
    && (forall c :: 0 <= c < l.bmapstart && c < |fs.disk| ==> fs'.disk[c] == fs.disk[c])
    && (forall n' :: 0 <= n' < |fs.inodes| && n' != n ==> fs'.inodes[n'] == fs.inodes[n'])
  }

  lemma NotTruncated(l: Layout, fs: Fs, n: nat)
    requires Core(l, fs) && n < |fs.inodes|
    ensures Truncated(l, fs, fs, n, 0)
  {
    hide Core, Keeps, BlockNo, Indirect;
    KeepsRefl(l, fs);
  }

  lemma TruncSame(l: Layout, fs: Fs, fs1: Fs, n: nat, k: nat)
    requires Truncated(l, fs, fs1, n, k) && k < MAXFILE && Core(l, fs1) && BlockNo(fs1, n, k) == 0
    ensures Truncated(l, fs, fs1, n, k + 1)
  {
    hide BlockNo, Indirect, BitsOk, MapOk, Elsewhere, KeepsOthers;
    ZeroIsMeta(l, fs1);
    forall b | 0 <= b < |fs.owner|
      ensures fs1.owner[b] ==
        if fs.owner[b].Data? && fs.owner[b].n == n && fs.owner[b].bn < k + 1 then Free else fs.owner[b]
    {
      assert fs1.owner[b] != Data(n, k);
    }
  }

  lemma DetachKeeps(l: Layout, fs: Fs, fs': Fs, n: nat, bn: nat)
    requires DetachOf(l, fs, fs', n, bn)
    ensures KeepsOthers(fs, fs', n) && Elsewhere(l, fs, fs', n)
  {
    hide BlockNo, Indirect, OwnOk, SetBitIn, SetWord, Used;
    DetachReady(l, fs, n, bn);
    InBitmap(l, fs, BlockNo(fs, n, bn));
    forall n', bn' | 0 <= n' < |fs.inodes| && 0 <= bn' < MAXFILE && BlockNo(fs, n', bn') != 0 && n' != n
      ensures BlockNo(fs', n', bn') == BlockNo(fs, n', bn') < |fs.disk|
      ensures fs'.disk[BlockNo(fs, n', bn')] == fs.disk[BlockNo(fs, n', bn')]
    {
      DetachMap(l, fs, n, bn, n', bn');
      assert fs.owner[BlockNo(fs, n', bn')] == Data(n', bn');
    }
  }

  lemma TruncMore(l: Layout, fs: Fs, fs1: Fs, fs2: Fs, n: nat, k: nat)
    requires Truncated(l, fs, fs1, n, k) && k < MAXFILE && DetachOf(l, fs1, fs2, n, k)
    ensures Truncated(l, fs, fs2, n, k + 1)
  {
    hide Core, BlockNo, Indirect, Mark, SetWord, Keeps, KeepsOthers;
    DetachKeeps(l, fs1, fs2, n, k);
    DetachReady(l, fs1, n, k);
    KeepsOthersTrans(fs, fs1, fs2, n);
    forall bn | 0 <= bn < MAXFILE ensures BlockNo(fs2, n, bn) == if bn == k then 0 else BlockNo(fs1, n, bn) {
      DetachMap(l, fs1, n, k, n, bn);
    }
    DetachMap(l, fs1, n, k, n, 0);
    DetachOwner(l, fs, fs1, fs2, n, k);
  }

  lemma DetachOwner(l: Layout, fs: Fs, fs1: Fs, fs2: Fs, n: nat, k: nat)
    requires Truncated(l, fs, fs1, n, k) && k < MAXFILE && DetachOf(l, fs1, fs2, n, k)
    ensures forall b :: 0 <= b < |fs.owner| ==>
      fs2.owner[b] == if fs.owner[b].Data? && fs.owner[b].n == n && fs.owner[b].bn < k + 1 then Free else fs.owner[b]
  {
    hide BlockNo, Indirect, Mark, SetWord, KeepsOthers, Elsewhere, BitsOk;
    ZeroIsMeta(l, fs1);
    assert fs1.owner[BlockNo(fs1, n, k)] == Data(n, k);
    forall b | 0 <= b < |fs.owner|
      ensures fs2.owner[b] ==
        if fs.owner[b].Data? && fs.owner[b].n == n && fs.owner[b].bn < k + 1 then Free else fs.owner[b]
    {
      assert fs1.owner[b] == Data(n, k) ==> b == BlockNo(fs1, n, k);
    }
  }

  /** The memory as it would be with another content in block ind: itrunc frees the listed blocks
      without clearing their entries. */
  function Shadow(fs: Fs, ind: nat, block: Block): (r: Fs)
    requires ind < |fs.disk|
  {
    fs.(disk := fs.disk[ind := block])
  }

  lemma ShadowSelf(fs: Fs, ind: nat)
    requires ind < |fs.disk|
    ensures Shadow(fs, ind, fs.disk[ind]) == fs
  {
  }

  /** One entry of the indirect block, as the shadow sees it. */
  lemma ShadowEntry(l: Layout, fs: Fs, ind: nat, sh: Block, n: nat, j: nat)
    requires ind < |fs.disk| && Core(l, Shadow(fs, ind, sh)) && n < |fs.inodes| && j < NINDIRECT
    requires Indirect(Shadow(fs, ind, sh), n) == ind != 0 && Word(sh, j) != 0
    ensures |sh| == BSIZE && BlockNo(Shadow(fs, ind, sh), n, NDIRECT + j) == Word(sh, j) < |fs.owner|
    ensures BBlock(l, Word(sh, j)) < |fs.disk| && |fs.disk[BBlock(l, Word(sh, j))]| == BSIZE
    ensures Used(l, fs.disk, Word(sh, j))
    ensures Core(l, ShadowFreed(l, fs, ind, sh, j))
    ensures DetachOf(l, Shadow(fs, ind, sh), ShadowFreed(l, fs, ind, sh, j), n, NDIRECT + j)
  {
    hide BitsOk, MapOk, OwnOk, BitIn, SetBitIn, SetWord, Word;
    var v := Shadow(fs, ind, sh);
    DetachReady(l, v, n, NDIRECT + j);
    DetachCore(l, v, n, NDIRECT + j);
    assert v.disk[BBlock(l, Word(sh, j))] == fs.disk[BBlock(l, Word(sh, j))];
    assert Detach(l, v, n, NDIRECT + j).disk == ShadowFreed(l, fs, ind, sh, j).disk;
  }

  function ShadowFreed(l: Layout, fs: Fs, ind: nat, sh: Block, j: nat): (r: Fs)
    requires ind < |fs.disk| && |sh| == BSIZE && j < NINDIRECT && Word(sh, j) < |fs.owner|
    requires BBlock(l, Word(sh, j)) < |fs.disk| && |fs.disk[BBlock(l, Word(sh, j))]| == BSIZE
  {
    var b := Word(sh, j);
    Shadow(fs.(disk := Mark(l, fs.disk, b, false), owner := fs.owner[b := Free]), ind, SetWord(sh, j, 0))
  }

  lemma ShadowNone(l: Layout, fs: Fs, ind: nat, sh: Block, n: nat, j: nat)
    requires ind < |fs.disk| && n < |fs.inodes| && j < NINDIRECT && |sh| == BSIZE
    requires Core(l, Shadow(fs, ind, sh)) && Indirect(Shadow(fs, ind, sh), n) == ind != 0 && Word(sh, j) == 0
    ensures BlockNo(Shadow(fs, ind, sh), n, NDIRECT + j) == 0
  {
  }

  /** All blocks of inode n are free, and nothing else changed hands. */
  ghost predicate Emptied(l: Layout, fs: Fs, fs': Fs, n: nat) {
    && Core(l, fs') && n < |fs.inodes| == |fs'.inodes| && |fs'.owner| == |fs.owner|
    && (forall b :: 0 <= b < |fs.owner| ==> fs'.owner[b] == if Owns(fs.owner[b], n) then Free else fs.owner[b])
    && (forall bn :: 0 <= bn < MAXFILE ==> BlockNo(fs', n, bn) == 0) && Indirect(fs', n) == 0
    && fs'.inodes[n].size == fs.inodes[n].size && KeepsOthers(fs, fs', n) && Elsewhere(l, fs, fs', n)
  }

  predicate Owns(o: Owner, n: nat) {
    (o.Data? || o.Ind?) && o.n == n
  }

  /** No indirect block: the direct blocks were all there was. */
  lemma EmptiedDirect(l: Layout, fs: Fs, fs': Fs, n: nat)
    requires Core(l, fs) && Core(l, fs') && Truncated(l, fs, fs', n, NDIRECT) && Indirect(fs', n) == 0
    ensures Emptied(l, fs, fs', n)
  {
    hide BitsOk, MapOk, KeepsOthers, Elsewhere;
    ZeroIsMeta(l, fs');
    forall bn | 0 <= bn < MAXFILE ensures BlockNo(fs', n, bn) == 0 {
    }
    forall b | 0 <= b < |fs.owner| ensures fs'.owner[b] == if Owns(fs.owner[b], n) then Free else fs.owner[b] {
    }
  }

  /** The last step of itrunc: the indirect block itself goes. */
  lemma EmptiedIndirect(l: Layout, fs: Fs, fs1: Fs, ind: nat, sh: Block, n: nat)
    requires ind < |fs1.disk| && Core(l, Shadow(fs1, ind, sh)) && Truncated(l, fs, Shadow(fs1, ind, sh), n, MAXFILE)
    requires Core(l, fs) && Indirect(fs, n) == ind != 0 && |fs1.disk[ind]| == BSIZE
    ensures Indirect(fs1, n) == ind < |fs1.owner| && n < |fs1.inodes| && |fs1.inodes[n].addrs| == NDIRECT + 1
    ensures BBlock(l, ind) < |fs1.disk| && |fs1.disk[BBlock(l, ind)]| == BSIZE && Used(l, fs1.disk, ind)
    ensures Emptied(l, fs, DetachInd(l, fs1, n), n)
  {
    hide Core, BlockNo, Indirect, Mark, BitIn, Keeps, KeepsOthers, SetBitIn;
    var v := Shadow(fs1, ind, sh);
    assert Indirect(fs1, n) == Indirect(v, n) by { ShadowInd(fs1, ind, sh, n); }
    DetachIndReady(l, v, n);
    DetachIndCore(l, v, n);
    var v' := DetachInd(l, v, n);
    var fs' := DetachInd(l, fs1, n);
    IndBlock(l, v, n);
    ShadowBits(l, fs1, ind, sh);
    assert fs' == Put(v', ind, fs1.disk[ind]) by { PutShadow(l, fs1, ind, sh, n); }
    PutFree(l, v', ind, fs1.disk[ind]);
    DetachIndKeeps(l, v, n);
    KeepsOthersTrans(fs, v, v', n);
    KeepsOthersWeaken(v', fs', n);
    KeepsOthersTrans(fs, v', fs', n);
    forall bn | 0 <= bn < MAXFILE ensures BlockNo(fs', n, bn) == 0 {
      DetachIndMap(l, v, n, n, bn);
      PutFreeMap(l, v', ind, fs1.disk[ind], n, bn);
    }
    DetachIndMap(l, v, n, n, 0);
    PutFreeMap(l, v', ind, fs1.disk[ind], n, 0);
    EmptiedOwner(l, fs, v, fs', n);
  }

  lemma ShadowInd(fs: Fs, ind: nat, sh: Block, n: nat)
    requires ind < |fs.disk|
    ensures Indirect(Shadow(fs, ind, sh), n) == Indirect(fs, n)
  {
  }

  lemma ShadowBits(l: Layout, fs: Fs, ind: nat, sh: Block)
    requires ind < |fs.disk| && BBlock(l, ind) < |fs.disk| && BBlock(l, ind) != ind
    ensures Used(l, Shadow(fs, ind, sh).disk, ind) == Used(l, fs.disk, ind)
  {
  }

  lemma PutShadow(l: Layout, fs: Fs, ind: nat, sh: Block, n: nat)
    requires n < |fs.inodes| && |fs.inodes[n].addrs| == NDIRECT + 1 && ind == Indirect(fs, n) < |fs.owner|
    requires ind < |fs.disk|
    requires BBlock(l, ind) < |fs.disk| && |fs.disk[BBlock(l, ind)]| == BSIZE && BBlock(l, ind) != ind
    ensures Indirect(Shadow(fs, ind, sh), n) == ind
    ensures DetachInd(l, fs, n) == Put(DetachInd(l, Shadow(fs, ind, sh), n), ind, fs.disk[ind])
  {
    hide SetBitIn;
    var v := Shadow(fs, ind, sh);
    ShadowInd(fs, ind, sh, n);
    assert DetachInd(l, fs, n).disk == Put(DetachInd(l, v, n), ind, fs.disk[ind]).disk;
  }

  lemma PutFreeMap(l: Layout, fs: Fs, b: nat, data: Block, n: nat, bn: nat)
    requires Core(l, fs) && b < |fs.owner| && fs.owner[b] == Free && n < |fs.inodes|
    ensures BlockNo(Put(fs, b, data), n, bn) == BlockNo(fs, n, bn) && Indirect(Put(fs, b, data), n) == Indirect(fs, n)
  {
    hide BitsOk, OwnOk;
    SameMap(fs, Put(fs, b, data), n, bn);
  }

  /** What a free block holds does not matter. */
  lemma PutFree(l: Layout, fs: Fs, b: nat, data: Block)
    requires Core(l, fs) && b < |fs.owner| && fs.owner[b] == Free && |data| == BSIZE
    ensures Core(l, Put(fs, b, data)) && KeepsAll(fs, Put(fs, b, data))
  {
    hide BlockNo, Indirect;
    var fs' := Put(fs, b, data);
    forall n, bn | 0 <= n < |fs.inodes| && 0 <= bn < MAXFILE ensures BlockNo(fs', n, bn) == BlockNo(fs, n, bn) {
      PutFreeMap(l, fs, b, data, n, bn);
    }
    forall n | 0 <= n < |fs.inodes| ensures Indirect(fs', n) == Indirect(fs, n) {
      PutFreeMap(l, fs, b, data, n, 0);
    }
    SameBits(l, fs, fs');
    SameMaps(l, fs, fs', b);
  }

  lemma KeepsOthersWeaken(fs: Fs, fs': Fs, n: nat)
    requires KeepsAll(fs, fs')
    ensures KeepsOthers(fs, fs', n)
  {
    hide Keeps;
  }

  lemma DetachIndKeeps(l: Layout, fs: Fs, n: nat)
    requires Core(l, fs) && n < |fs.inodes| && Indirect(fs, n) != 0 && ListsNothing(fs, n)
    ensures |fs.inodes[n].addrs| == NDIRECT + 1 && Indirect(fs, n) < |fs.owner|
    ensures BBlock(l, Indirect(fs, n)) < |fs.disk| && |fs.disk[BBlock(l, Indirect(fs, n))]| == BSIZE
    ensures KeepsOthers(fs, DetachInd(l, fs, n), n) && Elsewhere(l, fs, DetachInd(l, fs, n), n)
  {
    hide BlockNo, Indirect, OwnOk, SetBitIn, Used, ListsNothing;
    DetachIndReady(l, fs, n);
    InBitmap(l, fs, Indirect(fs, n));
    var fs' := DetachInd(l, fs, n);
    forall n', bn' | 0 <= n' < |fs.inodes| && 0 <= bn' < MAXFILE && BlockNo(fs, n', bn') != 0 && n' != n
      ensures BlockNo(fs', n', bn') == BlockNo(fs, n', bn') < |fs.disk|
      ensures fs'.disk[BlockNo(fs, n', bn')] == fs.disk[BlockNo(fs, n', bn')]
    {
      DetachIndMap(l, fs, n, n', bn');
      assert fs.owner[BlockNo(fs, n', bn')] == Data(n', bn');
    }
  }

  lemma EmptiedOwner(l: Layout, fs: Fs, v: Fs, fs': Fs, n: nat)
    requires Core(l, fs) && Truncated(l, fs, v, n, MAXFILE) && 0 < Indirect(fs, n) < |fs.owner| && Core(l, v)
    requires fs'.owner == v.owner[Indirect(fs, n) := Free]
    ensures forall b :: 0 <= b < |fs.owner| ==> fs'.owner[b] == if Owns(fs.owner[b], n) then Free else fs.owner[b]
  {
    hide BitsOk, MapOk, KeepsOthers, Elsewhere, BlockNo, Indirect;
    forall b | 0 <= b < |fs.owner| ensures fs'.owner[b] == if Owns(fs.owner[b], n) then Free else fs.owner[b] {
      assert fs.owner[b].Data? ==> fs.owner[b].bn < MAXFILE;
      assert fs.owner[b] == Ind(n) ==> b == Indirect(fs, n);
      assert fs.owner[Indirect(fs, n)] == Ind(n) by { IndBlock(l, fs, n); }
    }
  }

  lemma TruncInd(l: Layout, fs: Fs, fs': Fs, n: nat)
    requires Truncated(l, fs, fs', n, NDIRECT)
    ensures Indirect(fs', n) == Indirect(fs, n) && n < |fs.inodes|
  {
  }

  lemma NotBitmap(l: Layout, fs: Fs, ind: nat, sh: Block, n: nat, b: nat)
    requires ind < |fs.disk| && Core(l, Shadow(fs, ind, sh)) && n < |fs.inodes| && b < |fs.owner|
    requires Indirect(Shadow(fs, ind, sh), n) == ind != 0
    ensures BBlock(l, b) != ind
  {
    hide OwnOk, BitIn;
    InBitmap(l, Shadow(fs, ind, sh), b);
    IndBlock(l, Shadow(fs, ind, sh), n);
  }

  // ---- the end of itrunc and writei: ip->size and iupdate -----------------------------------------------------

  /** The state is ready for a new size of inode n. */
  ghost predicate CanFinish(l: Layout, fs0: Fs, fs: Fs, n: nat, size: nat) {
    && Inv(l, fs0) && Core(l, fs) && NoPending(fs) && Elsewhere(l, fs0, fs, n) && KeepsOthers(fs0, fs, n)
    && n < |fs.inodes| == |fs0.inodes| && size <= MAXFILE * BSIZE
    && forall bn :: 0 <= bn && bn * BSIZE < size ==> BlockNo(fs, n, bn) != 0
  }

  /** The inode has its new size, in memory and on disk; its blocks and the other files are as they were. */
  ghost predicate Finished(l: Layout, fs0: Fs, fs: Fs, fs': Fs, n: nat, size: nat) {
    && Inv(l, fs') && fs'.owner == fs.owner && n < |fs'.inodes| == |fs0.inodes| == |fs.inodes|
    && fs'.inodes[n] == fs.inodes[n].(size := size)
    && (forall o :: 0 <= o < MAXFILE * BSIZE && BlockNo(fs, n, o / BSIZE) != 0 ==>
         ByteOf(fs', n, o) == ByteOf(fs, n, o))
    && (forall n' :: 0 <= n' < |fs0.inodes| && n' != n ==>
         fs'.inodes[n'] == fs0.inodes[n'] && Content(fs', n') == Content(fs0, n'))
  }

  lemma FinishCore(l: Layout, fs0: Fs, fs: Fs, n: nat, size: nat)
    requires CanFinish(l, fs0, fs, n, size)
    ensures var fs1 := Resize(fs, n, size);
            && Core(l, fs1) && n < |fs1.inodes| && IBlock(l, n) < |fs1.disk| && |fs1.disk[IBlock(l, n)]| == BSIZE
            && Storable(fs1.inodes[n])
            && Core(l, Iupdated(l, fs1, n)) && NoPending(Iupdated(l, fs1, n))
            && forall n', bn :: 0 <= n' < |fs.inodes| && 0 <= bn < MAXFILE ==>
                 BlockNo(Iupdated(l, fs1, n), n', bn) == BlockNo(fs, n', bn)
  {
    hide Core, BlockNo, PutWords, KeepsOthers, Elsewhere, Synced, NoHoles;
    ResizeCore(l, fs, n, size);
    IupdateCore(l, Resize(fs, n, size), n);
  }

  lemma FinishSynced(l: Layout, fs0: Fs, fs: Fs, fs1: Fs, n: nat, size: nat)
    requires CanFinish(l, fs0, fs, n, size) && fs1 == Resize(fs, n, size) && Core(l, fs1)
    requires IBlock(l, n) < |fs1.disk| && |fs1.disk[IBlock(l, n)]| == BSIZE
    requires Storable(fs1.inodes[n])
    ensures Synced(l, Iupdated(l, fs1, n))
  {
    hide Core, KeepsOthers, NoHoles, DiskInode, PutWords, BlockNo, NoPending;
    var fs2 := Iupdated(l, fs1, n);
    forall n' | 0 <= n' < |fs2.inodes| ensures DiskInode(l, fs2.disk, n') == fs2.inodes[n'] {
      IupdateDisk(l, fs1, n, n');
      if n' != n {
        SameDiskInode(l, fs0, fs1, n');
      }
    }
  }

  lemma SameDiskInode(l: Layout, fs0: Fs, fs1: Fs, n': nat)
    requires Core(l, fs0) && n' < |fs0.inodes| && |fs1.disk| == |fs0.disk|
    requires forall c :: 0 <= c < l.bmapstart && c < |fs0.disk| ==> fs1.disk[c] == fs0.disk[c]
    ensures DiskInode(l, fs1.disk, n') == DiskInode(l, fs0.disk, n')
  {
    IupdateReady(l, fs0, n');
  }

  /** Data blocks do not notice iupdate. */
  lemma FinishBlock(l: Layout, fs: Fs, fs1: Fs, n: nat, n': nat, bn: nat)
    requires Core(l, fs) && n < |fs.inodes| && n' < |fs.inodes| && bn < MAXFILE && BlockNo(fs, n', bn) != 0
    requires fs1.disk == fs.disk && fs1.owner == fs.owner && Core(l, fs1) && n < |fs1.inodes|
    requires IBlock(l, n) < |fs1.disk| && |fs1.disk[IBlock(l, n)]| == BSIZE
    requires Storable(fs1.inodes[n])
    ensures BlockNo(fs, n', bn) < |fs.disk|
    ensures Iupdated(l, fs1, n).disk[BlockNo(fs, n', bn)] == fs.disk[BlockNo(fs, n', bn)]
  {
    hide BitsOk, OwnOk, PutWords;
    IupdateReady(l, fs1, n);
  }

  lemma FinishBytes(l: Layout, fs: Fs, fs1: Fs, n: nat, n': nat, o: nat)
    requires Core(l, fs) && n < |fs.inodes| && n' < |fs.inodes| && o < MAXFILE * BSIZE
    requires fs1.disk == fs.disk && fs1.owner == fs.owner && Core(l, fs1) && n < |fs1.inodes|
    requires IBlock(l, n) < |fs1.disk| && |fs1.disk[IBlock(l, n)]| == BSIZE
    requires Storable(fs1.inodes[n])
    requires BlockNo(Iupdated(l, fs1, n), n', o / BSIZE) == BlockNo(fs, n', o / BSIZE) && Core(l, Iupdated(l, fs1, n))
    ensures BlockNo(fs, n', o / BSIZE) != 0 ==> ByteOf(Iupdated(l, fs1, n), n', o) == ByteOf(fs, n', o)
  {
    hide BitsOk, OwnOk, MapOk, BlockNo, PutWords;
    if BlockNo(fs, n', o / BSIZE) != 0 {
      FinishBlock(l, fs, fs1, n, n', o / BSIZE);
    }
  }

  lemma FinishKeeps(l: Layout, fs0: Fs, fs: Fs, fs1: Fs, n: nat)
    requires Core(l, fs) && n < |fs.inodes| && KeepsOthers(fs0, fs, n) && |fs1.inodes| == |fs.inodes|
    requires forall n' :: 0 <= n' < |fs.inodes| && n' != n ==> fs1.inodes[n'] == fs.inodes[n']
    requires fs1.disk == fs.disk && fs1.owner == fs.owner && Core(l, fs1)
    requires IBlock(l, n) < |fs1.disk| && |fs1.disk[IBlock(l, n)]| == BSIZE
    requires Storable(fs1.inodes[n])
    requires forall n', bn :: 0 <= n' < |fs.inodes| && 0 <= bn < MAXFILE ==>
      BlockNo(Iupdated(l, fs1, n), n', bn) == BlockNo(fs, n', bn)
    ensures KeepsOthers(fs0, Iupdated(l, fs1, n), n)
  {
    hide Core, BlockNo, PutWords;
    var fs2 := Iupdated(l, fs1, n);
    forall n', bn | 0 <= n' < |fs.inodes| && n' != n && 0 <= bn < MAXFILE && BlockNo(fs, n', bn) != 0
      ensures BlockNo(fs, n', bn) < |fs.disk| && fs2.disk[BlockNo(fs, n', bn)] == fs.disk[BlockNo(fs, n', bn)]
    {
      FinishBlock(l, fs, fs1, n, n', bn);
    }
    assert KeepsOthers(fs, fs2, n);
    KeepsOthersTrans(fs0, fs, fs2, n);
  }

  lemma FinishHoles(l: Layout, fs0: Fs, fs: Fs, fs2: Fs, n: nat, size: nat)
    requires CanFinish(l, fs0, fs, n, size) && KeepsOthers(fs0, fs2, n) && |fs2.inodes| == |fs.inodes|
    requires fs2.inodes[n].size == size
    requires forall bn :: 0 <= bn < MAXFILE ==> BlockNo(fs2, n, bn) == BlockNo(fs, n, bn)
    ensures NoHoles(fs2)
  {
    hide BitsOk, MapOk, OwnOk, BlockNo, Synced, Elsewhere, NoPending;
    forall n', bn | 0 <= n' < |fs2.inodes| && 0 <= bn && bn * BSIZE < fs2.inodes[n'].size
      ensures BlockNo(fs2, n', bn) != 0
    {
      if n' != n {
        assert Keeps(fs0, fs2, n');
        assert bn < MAXFILE;
      }
    }
  }

  lemma FinishInv(l: Layout, fs0: Fs, fs: Fs, n: nat, size: nat)
    requires CanFinish(l, fs0, fs, n, size)
    ensures var fs1 := Resize(fs, n, size);
            && IBlock(l, n) < |fs1.disk| && |fs1.disk[IBlock(l, n)]| == BSIZE
            && Storable(fs1.inodes[n])
            && Finished(l, fs0, fs, Iupdated(l, fs1, n), n, size)
  {
    hide Core, BlockNo, PutWords, KeepsOthers, Elsewhere, Synced, NoHoles, NoPending, DiskInode, ByteOf, Keeps, Content;
    FinishCore(l, fs0, fs, n, size);
    var fs1 := Resize(fs, n, size);
    var fs2 := Iupdated(l, fs1, n);
    FinishSynced(l, fs0, fs, fs1, n, size);
    FinishKeeps(l, fs0, fs, fs1, n);
    FinishHoles(l, fs0, fs, fs2, n, size);
    forall o | 0 <= o < MAXFILE * BSIZE && BlockNo(fs, n, o / BSIZE) != 0
      ensures ByteOf(fs2, n, o) == ByteOf(fs, n, o)
    {
      FinishBytes(l, fs, fs1, n, n, o);
    }
    forall n' | 0 <= n' < |fs0.inodes| && n' != n
      ensures fs2.inodes[n'] == fs0.inodes[n'] && Content(fs2, n') == Content(fs0, n')
    {
      OtherKept(l, fs0, fs, fs2, n, n');
    }
  }

  lemma OtherKept(l: Layout, fs0: Fs, fs: Fs, fs2: Fs, n: nat, n': nat)
    requires Inv(l, fs0) && Core(l, fs2) && KeepsOthers(fs0, fs2, n) && Elsewhere(l, fs0, fs, n) && n' < |fs0.inodes|
    requires n' != n
    requires |fs2.inodes| == |fs.inodes| && fs2.inodes[n'] == fs.inodes[n']
    ensures fs2.inodes[n'] == fs0.inodes[n'] && Content(fs2, n') == Content(fs0, n')
  {
    hide Core, BlockNo, Synced, NoHoles, NoPending, Content, Keeps;
    KeptContent(l, fs0, fs2, n');
  }

  lemma ReadyLen(l: Layout, fs0: Fs, fs: Fs, n: nat, size: nat)
    requires CanFinish(l, fs0, fs, n, size)
    ensures n < |fs.inodes|
  {
  }

  lemma EmptiedFinish(l: Layout, fs: Fs, fs': Fs, n: nat)
    requires Inv(l, fs) && Emptied(l, fs, fs', n)
    ensures CanFinish(l, fs, fs', n, 0) && |fs'.owner| == |fs.owner|
    ensures forall b :: 0 <= b < |fs.owner| ==> fs'.owner[b] == if Owns(fs.owner[b], n) then Free else fs.owner[b]
  {
    hide Core, BlockNo, Indirect, Synced, NoHoles, KeepsOthers, Elsewhere;
  }

  lemma FinishedFacts(l: Layout, fs0: Fs, fs: Fs, fs': Fs, n: nat, size: nat)
    requires Finished(l, fs0, fs, fs', n, size)
    ensures Inv(l, fs') && fs'.owner == fs.owner && n < |fs'.inodes| == |fs0.inodes| && fs'.inodes[n].size == size
    ensures size == 0 ==> Content(fs', n) == []
    ensures forall n' :: 0 <= n' < |fs0.inodes| && n' != n ==> Content(fs', n') == Content(fs0, n')
  {
    hide Inv;
  }

  // ---- readi ---------------------------------------------------------------------------------------------------

  lemma ContentLen(fs: Fs, n: nat)
    requires n < |fs.inodes|
    ensures |Content(fs, n)| == fs.inodes[n].size
  {
  }

  /** A byte below the size has its block: bmap finds it without allocating. */
  lemma BelowSize(l: Layout, fs: Fs, n: nat, o: nat)
    requires Inv(l, fs) && n < |fs.inodes| && o < fs.inodes[n].size
    ensures o / BSIZE < MAXFILE && 0 < BlockNo(fs, n, o / BSIZE) < |fs.disk|
    ensures |fs.disk[BlockNo(fs, n, o / BSIZE)]| == BSIZE
  {
    assert o / BSIZE * BSIZE <= o;
  }

  lemma ContentChunk(l: Layout, fs: Fs, n: nat, cur: nat, m: nat)
    requires Inv(l, fs) && n < |fs.inodes| && cur + m <= fs.inodes[n].size && cur < fs.inodes[n].size
    requires cur % BSIZE + m <= BSIZE
    ensures cur / BSIZE < MAXFILE && BlockNo(fs, n, cur / BSIZE) < |fs.disk|
    ensures |fs.disk[BlockNo(fs, n, cur / BSIZE)]| == BSIZE
    ensures Content(fs, n)[cur..cur + m] == fs.disk[BlockNo(fs, n, cur / BSIZE)][cur % BSIZE..cur % BSIZE + m]
  {
    hide Core, BlockNo, NoHoles, Synced;
    BelowSize(l, fs, n, cur);
    var a, b := Content(fs, n)[cur..cur + m], fs.disk[BlockNo(fs, n, cur / BSIZE)][cur % BSIZE..cur % BSIZE + m];
    forall i | 0 <= i < m ensures a[i] == b[i] {
      InBlock(cur, i);
    }
  }

  lemma InBlock(cur: nat, i: nat)
    requires cur % BSIZE + i < BSIZE
    ensures (cur + i) / BSIZE == cur / BSIZE && (cur + i) % BSIZE == cur % BSIZE + i
  {
  }

  lemma JoinSlices(c: seq<Byte>, i: nat, j: nat, k: nat)
    requires i <= j <= k <= |c|
    ensures c[i..j] + c[j..k] == c[i..k]
  {
  }

  // ---- writei --------------------------------------------------------------------------------------------------

  function Overwrite(block: Block, at: nat, bytes: seq<Byte>): (r: Block)
    requires at + |bytes| <= |block|
    ensures |r| == |block|
  {
    block[..at] + bytes + block[at + |bytes|..]
  }

  /** Blocks exist up to byte `end`. */
  ghost predicate Filled(fs: Fs, n: nat, end: nat) {
    forall bn :: 0 <= bn && bn * BSIZE < end ==> BlockNo(fs, n, bn) != 0
  }

  /** Bytes off..cur are those of src; the others below the size are the old ones. */
  ghost predicate Patched(fs0: Fs, fs: Fs, n: nat, size: nat, off: nat, cur: nat, src: seq<Byte>) {
    off <= cur <= off + |src| &&
    forall o :: 0 <= o < Max(size, cur) ==>
      ByteOf(fs, n, o) == if off <= o < cur then src[o - off] else ByteOf(fs0, n, o)
  }

  /** The middle of writei. */
  ghost predicate Writing(l: Layout, fs0: Fs, fs: Fs, n: nat, off: nat, cur: nat, src: seq<Byte>) {
    && Inv(l, fs0) && Core(l, fs) && NoPending(fs) && Elsewhere(l, fs0, fs, n) && KeepsOthers(fs0, fs, n)
    && n < |fs.inodes| == |fs0.inodes| && fs.inodes[n].size == fs0.inodes[n].size && off <= fs0.inodes[n].size
    && cur <= MAXFILE * BSIZE
    && Filled(fs, n, Max(fs0.inodes[n].size, cur)) && Patched(fs0, fs, n, fs0.inodes[n].size, off, cur, src)
  }

  lemma WritingFacts(l: Layout, fs0: Fs, fs: Fs, n: nat, off: nat, cur: nat, src: seq<Byte>)
    requires Writing(l, fs0, fs, n, off, cur, src)
    ensures Core(l, fs) && NoPending(fs) && n < |fs.inodes| && off <= cur <= off + |src|
    ensures cur < MAXFILE * BSIZE ==> cur / BSIZE < MAXFILE
  {
    hide Core, BlockNo;
  }

  lemma SteadyElsewhere(l: Layout, fs0: Fs, fs: Fs, fs1: Fs, n: nat)
    requires Elsewhere(l, fs0, fs, n) && KeepsOthers(fs0, fs, n) && Steady(l, fs, fs1, n)
    ensures Elsewhere(l, fs0, fs1, n) && KeepsOthers(fs0, fs1, n)
  {
    hide Core, Keeps, Indirect, NoPending;
    KeepsOthersWeaken(fs, fs1, n);
    KeepsOthersTrans(fs0, fs, fs1, n);
  }

  /** bmap leaves the bytes written so far alone. */
  lemma WritingSteady(l: Layout, fs0: Fs, fs: Fs, fs1: Fs, n: nat, off: nat, cur: nat, src: seq<Byte>)
    requires Writing(l, fs0, fs, n, off, cur, src) && Steady(l, fs, fs1, n)
    ensures Writing(l, fs0, fs1, n, off, cur, src)
    ensures Indirect(fs, n) != 0 ==> Indirect(fs1, n) == Indirect(fs, n)
  {
    hide Core, BlockNo, Synced, NoHoles, Indirect, KeepsOthers, Elsewhere, NoPending;
    SteadyElsewhere(l, fs0, fs, fs1, n);
    var end := Max(fs0.inodes[n].size, cur);
    assert end <= MAXFILE * BSIZE by { SizeBound(l, fs0, n); }
    assert Keeps(fs, fs1, n);
    forall bn | 0 <= bn && bn * BSIZE < end ensures BlockNo(fs1, n, bn) != 0 {
      assert bn < MAXFILE;
    }
    forall o | 0 <= o < end ensures ByteOf(fs1, n, o) == ByteOf(fs, n, o) {
      assert o / BSIZE * BSIZE <= o && o / BSIZE < MAXFILE;
      assert BlockNo(fs, n, o / BSIZE) != 0;
    }
  }

  lemma SizeBound(l: Layout, fs: Fs, n: nat)
    requires Core(l, fs) && n < |fs.inodes|
    ensures fs.inodes[n].size <= MAXFILE * BSIZE
  {
  }

  /** The bytes of inode n after one of its blocks is overwritten. */
  lemma PutByte(l: Layout, fs: Fs, n: nat, cur: nat, bytes: seq<Byte>, o: nat)
    requires Core(l, fs) && n < |fs.inodes| && cur / BSIZE < MAXFILE && o / BSIZE < MAXFILE
    requires cur % BSIZE + |bytes| <= BSIZE
    requires BlockNo(fs, n, cur / BSIZE) != 0 && BlockNo(fs, n, o / BSIZE) != 0
    ensures BlockNo(fs, n, cur / BSIZE) < |fs.disk| && |fs.disk[BlockNo(fs, n, cur / BSIZE)]| == BSIZE
    ensures var b := BlockNo(fs, n, cur / BSIZE);
            var fs' := Put(fs, b, Overwrite(fs.disk[b], cur % BSIZE, bytes));
            && BlockNo(fs', n, o / BSIZE) == BlockNo(fs, n, o / BSIZE)
            && ByteOf(fs', n, o) == if cur <= o < cur + |bytes| then bytes[o - cur] else ByteOf(fs, n, o)
  {
    hide BitsOk, OwnOk, BlockNo;
    var b := BlockNo(fs, n, cur / BSIZE);
    PutMap(l, fs, b, Overwrite(fs.disk[b], cur % BSIZE, bytes), n, o / BSIZE);
    assert cur == cur / BSIZE * BSIZE + cur % BSIZE && o == o / BSIZE * BSIZE + o % BSIZE;
    if o / BSIZE != cur / BSIZE {
      assert fs.owner[BlockNo(fs, n, o / BSIZE)] != fs.owner[b];
    }
  }

  lemma PutElsewhere(l: Layout, fs0: Fs, fs: Fs, b: nat, data: Block, n: nat)
    requires Core(l, fs) && b < |fs.owner| && fs.owner[b].Data? && fs.owner[b].n == n && Elsewhere(l, fs0, fs, n)
    requires KeepsOthers(fs0, fs, n)
    ensures Elsewhere(l, fs0, Put(fs, b, data), n) && KeepsOthers(fs0, Put(fs, b, data), n)
  {
    hide Keeps, MapOk, OwnOk, Used;
    PutKeepsOthers(l, fs, b, data, n);
    KeepsOthersTrans(fs0, fs, Put(fs, b, data), n);
  }

  lemma WritingPut(l: Layout, fs0: Fs, fs: Fs, n: nat, off: nat, cur: nat, m: nat, src: seq<Byte>)
    requires Writing(l, fs0, fs, n, off, cur, src) && 0 < m <= BSIZE - cur % BSIZE && cur + m <= MAXFILE * BSIZE
    requires cur + m - off <= |src|
    requires BlockNo(fs, n, cur / BSIZE) != 0
    ensures off <= cur && BlockNo(fs, n, cur / BSIZE) < |fs.disk| && |fs.disk[BlockNo(fs, n, cur / BSIZE)]| == BSIZE
    ensures var b := BlockNo(fs, n, cur / BSIZE);
            var fs' := Put(fs, b, Overwrite(fs.disk[b], cur % BSIZE, src[cur - off..cur + m - off]));
            Writing(l, fs0, fs', n, off, cur + m, src) && Indirect(fs', n) == Indirect(fs, n)
  {
    hide Core, BlockNo, Synced, NoHoles, Indirect, KeepsOthers, Elsewhere, ByteOf, Overwrite;
    var b := BlockNo(fs, n, cur / BSIZE);
    var bytes := src[cur - off..cur + m - off];
    PutByte(l, fs, n, cur, bytes, cur);
    DataBlock(l, fs, n, cur / BSIZE);
    var data := Overwrite(fs.disk[b], cur % BSIZE, bytes);
    var fs' := Put(fs, b, data);
    PutCore(l, fs, b, data);
    PutElsewhere(l, fs0, fs, b, data, n);
    PutMap(l, fs, b, data, n, 0);
    SizeBound(l, fs0, n);
    var end := Max(fs0.inodes[n].size, cur + m);
    FilledMore(fs, n, Max(fs0.inodes[n].size, cur), cur, m, end);
    forall bn | 0 <= bn && bn * BSIZE < end ensures BlockNo(fs', n, bn) != 0 {
      PutMap(l, fs, b, data, n, bn);
    }
    forall o | 0 <= o < end
      ensures ByteOf(fs', n, o) == if off <= o < cur + m then src[o - off] else ByteOf(fs0, n, o)
    {
      assert o / BSIZE * BSIZE <= o && o / BSIZE < MAXFILE;
      PutByte(l, fs, n, cur, bytes, o);
    }
  }

  /** A copy that fails after some bytes has changed the buffer. That shows in the file exactly if one of
      those bytes lies below the size and differs from the one that was there. */
  lemma TornWriteIff(l: Layout, fs: Fs, n: nat, cur: nat, bytes: seq<Byte>)
    requires Core(l, fs) && n < |fs.inodes| && cur / BSIZE < MAXFILE && cur % BSIZE + |bytes| <= BSIZE
    requires BlockNo(fs, n, cur / BSIZE) != 0 && Filled(fs, n, fs.inodes[n].size)
    ensures BlockNo(fs, n, cur / BSIZE) < |fs.disk| && |fs.disk[BlockNo(fs, n, cur / BSIZE)]| == BSIZE
    ensures var b := BlockNo(fs, n, cur / BSIZE);
            var fs' := Put(fs, b, Overwrite(fs.disk[b], cur % BSIZE, bytes));
            && |fs'.inodes| == |fs.inodes|
            && (Content(fs', n) == Content(fs, n) <==>
                  forall o :: cur <= o < cur + |bytes| && o < fs.inodes[n].size ==> bytes[o - cur] == ByteOf(fs, n, o))
  {
    hide Core, BlockNo, ByteOf, Overwrite;
    PutByte(l, fs, n, cur, bytes, cur);
    SizeBound(l, fs, n);
    var b := BlockNo(fs, n, cur / BSIZE);
    var fs' := Put(fs, b, Overwrite(fs.disk[b], cur % BSIZE, bytes));
    var c, c' := Content(fs, n), Content(fs', n);
    forall o | 0 <= o < fs.inodes[n].size
      ensures c[o] == ByteOf(fs, n, o) && c'[o] == if cur <= o < cur + |bytes| then bytes[o - cur] else c[o]
    {
      assert o / BSIZE * BSIZE <= o && o / BSIZE < MAXFILE;
      PutByte(l, fs, n, cur, bytes, o);
    }
    if c' == c {
      forall o | cur <= o < cur + |bytes| && o < fs.inodes[n].size ensures bytes[o - cur] == ByteOf(fs, n, o) {
        assert c'[o] == c[o];
      }
    }
  }

  lemma DataBlock(l: Layout, fs: Fs, n: nat, bn: nat)
    requires Core(l, fs) && n < |fs.inodes| && bn < MAXFILE && BlockNo(fs, n, bn) != 0
    ensures BlockNo(fs, n, bn) < |fs.owner| == |fs.disk| && fs.owner[BlockNo(fs, n, bn)] == Data(n, bn)
  {
  }

  lemma FilledMore(fs: Fs, n: nat, end: nat, cur: nat, m: nat, end': nat)
    requires Filled(fs, n, end) && cur <= end && m <= BSIZE - cur % BSIZE && BlockNo(fs, n, cur / BSIZE) != 0
    requires end' == Max(end, cur + m)
    ensures Filled(fs, n, end')
  {
    hide BlockNo;
    forall bn | 0 <= bn && bn * BSIZE < end' ensures BlockNo(fs, n, bn) != 0 {
      if bn * BSIZE >= end {
        assert cur == cur / BSIZE * BSIZE + cur % BSIZE;
        assert bn <= cur / BSIZE;
        assert bn * BSIZE >= cur;
        assert bn == cur / BSIZE;
      }
    }
  }

  lemma StartWriting(l: Layout, fs: Fs, n: nat, off: nat, src: seq<Byte>)
    requires Inv(l, fs) && n < |fs.inodes| && off <= fs.inodes[n].size
    ensures Writing(l, fs, fs, n, off, off, src)
  {
    hide BlockNo, BitsOk, MapOk, OwnOk, Synced;
    KeepsRefl(l, fs);
    SizeBound(l, fs, n);
  }

  // ---- the transaction budget ------------------------------------------------------------------------------------

  /** The number of blocks that a write of cnt bytes at off touches. */
  function Touched(off: nat, cnt: nat): (k: nat) {
    if cnt == 0 then 0 else (off + cnt - 1) / BSIZE - off / BSIZE + 1
  }

  /** Of these, the blocks that may be new: an unaligned write starts in a block that exists. */
  ghost function Fresh(off: nat, cnt: nat): (k: nat) {
    if cnt == 0 then 0 else Touched(off, cnt) - Count(off % BSIZE != 0)
  }

  /** One more round touches one more block. */
  lemma TouchMore(off: nat, tot: nat, m: nat, cnt: nat)
    requires tot < cnt && 0 < m <= BSIZE - (off + tot) % BSIZE && tot + m <= cnt
    requires (tot > 0 ==> (off + tot) % BSIZE == 0)
    requires m == BSIZE - (off + tot) % BSIZE || tot + m == cnt
    ensures Touched(off, tot + m) == Touched(off, tot) + 1 <= Touched(off, cnt)
    ensures Fresh(off, tot + m) == Fresh(off, tot) + Count(tot > 0 || off % BSIZE == 0)
    ensures Fresh(off, tot + m) <= Touched(off, cnt) - Count(off % BSIZE != 0)
    ensures tot + m < cnt ==> (off + tot + m) % BSIZE == 0
  {
    var cur := off + tot;
    assert (cur + m - 1) / BSIZE == cur / BSIZE by { InBlock(cur, m - 1); }
    if tot > 0 {
      assert (cur - 1) / BSIZE == cur / BSIZE - 1;
    }
    assert (off + cnt - 1) / BSIZE >= (cur + m - 1) / BSIZE;
  }

  /** No hole below the size: the first block of an unaligned write is there. */
  lemma FirstBlockExists(l: Layout, fs0: Fs, fs: Fs, n: nat, off: nat, tot: nat, src: seq<Byte>)
    requires Writing(l, fs0, fs, n, off, off + tot, src)
    ensures tot == 0 && off % BSIZE != 0 ==> BlockNo(fs, n, off / BSIZE) != 0
  {
    hide Core, BlockNo;
    if tot == 0 && off % BSIZE != 0 {
      assert off / BSIZE * BSIZE < off;
    }
  }

  /** What tot bytes of a write have logged, and whether they brought the indirect block. */
  ghost predicate Budget(datas: set<nat>, bits: set<nat>, off: nat, tot: nat, ind0: nat, ind: nat) {
    && |datas| <= Touched(off, tot) && |bits| <= Fresh(off, tot) + Count(ind0 == 0 && ind != 0)
    && (ind0 != 0 ==> ind == ind0)
  }

  lemma NothingLogged(off: nat, cnt: nat, ind: nat)
    ensures Budget({}, {}, off, 0, ind, ind)
    ensures 0 <= Touched(off, cnt) - Count(off % BSIZE != 0 && cnt > 0) + 1
  {
  }

  lemma BudgetStep(datas: set<nat>, bits: set<nat>, b: nat, bits1: set<nat>, off: nat, tot: nat, m: nat, cnt: nat,
                   ind0: nat, ind: nat, ind': nat, hole: bool)
    requires Budget(datas, bits, off, tot, ind0, ind) && (ind != 0 ==> ind' == ind)
    requires tot < cnt && 0 < m <= BSIZE - (off + tot) % BSIZE && tot + m <= cnt
    requires (tot > 0 ==> (off + tot) % BSIZE == 0)
    requires m == BSIZE - (off + tot) % BSIZE || tot + m == cnt
    requires |bits1| <= Count(hole) + Count(ind == 0 && ind' != 0)
    requires (b == 0 ==> |bits1| <= Count(ind == 0 && ind' != 0))
    requires tot == 0 && off % BSIZE != 0 ==> !hole
    ensures One(ind) <= One(ind') && (tot + m < cnt ==> (off + tot + m) % BSIZE == 0)
    ensures Budget(datas + One(b), bits + bits1, off, tot + m, ind0, ind')
    ensures |datas + One(b)| <= Touched(off, cnt)
    ensures |bits + bits1| <= Touched(off, cnt) - Count(off % BSIZE != 0 && cnt > 0) + 1
  {
    hide Touched, Fresh;
    UnionSize(datas, One(b));
    UnionSize(bits, bits1);
    TouchMore(off, tot, m, cnt);
  }

  const MAXOPBLOCKS := 10

  /** A chunk of at most three blocks' worth of bytes fits one transaction, wherever it starts and
      however many bitmap blocks there are. */
  lemma ChunkBudget(off: nat, cnt: nat, datas: set<nat>, bits: set<nat>, ind: nat, ib: nat, logged: set<nat>)
    requires cnt <= (MAXOPBLOCKS - 1 - 1 - 2) / 2 * BSIZE && logged <= datas + bits + One(ind) + {ib}
    requires |datas| <= Touched(off, cnt) && |bits| <= Touched(off, cnt) - Count(off % BSIZE != 0 && cnt > 0) + 1
    ensures |logged| <= MAXOPBLOCKS
  {
    UnionSize(datas, bits);
    UnionSize(datas + bits, One(ind));
    UnionSize(datas + bits + One(ind), {ib});
    Pigeonhole.SubsetSize(logged, datas + bits + One(ind) + {ib});
    if off % BSIZE == 0 {
      assert Touched(off, cnt) <= 3;
    } else {
      assert Touched(off, cnt) <= 4;
    }
  }

  /** `bytes` laid over `c` from position off on. */
  function Splice(c: seq<Byte>, off: nat, bytes: seq<Byte>): (r: seq<Byte>)
    requires off <= |c|
    ensures |r| == Max(|c|, off + |bytes|)
  {
    c[..off] + bytes + if off + |bytes| < |c| then c[off + |bytes|..] else []
  }

  lemma SpliceMore(c: seq<Byte>, off: nat, src: seq<Byte>, i: nat, r: nat)
    requires off <= |c| && i + r <= |src|
    ensures Splice(Splice(c, off, src[..i]), off + i, src[i..][..r]) == Splice(c, off, src[..i + r])
    ensures src[..0] == [] && Splice(c, off, []) == c
  {
    assert src[..i] + src[i..][..r] == src[..i + r];
  }

  lemma SpliceLen(c: seq<Byte>, off: nat, src: seq<Byte>, i: nat)
    requires off <= |c| && i <= |src|
    ensures |Splice(c, off, src[..i])| >= off + i
  {
  }

  lemma WritingFinish(l: Layout, fs0: Fs, fs: Fs, n: nat, off: nat, cur: nat, src: seq<Byte>)
    requires Writing(l, fs0, fs, n, off, cur, src)
    ensures n < |fs.inodes| == |fs0.inodes| && fs.inodes[n].size == fs0.inodes[n].size && off <= cur <= off + |src|
    ensures CanFinish(l, fs0, fs, n, Max(fs0.inodes[n].size, cur))
  {
    hide Core, BlockNo, Elsewhere, KeepsOthers, NoPending, NoHoles, Synced;
    SizeBound(l, fs0, n);
  }

  lemma WritingContent(l: Layout, fs0: Fs, fs: Fs, fs': Fs, n: nat, off: nat, cur: nat, src: seq<Byte>)
    requires Writing(l, fs0, fs, n, off, cur, src) && Finished(l, fs0, fs, fs', n, Max(fs0.inodes[n].size, cur))
    ensures Inv(l, fs') && n < |fs'.inodes| == |fs0.inodes| && off <= |Content(fs0, n)| && off <= cur <= off + |src|
    ensures Content(fs', n) == Splice(Content(fs0, n), off, src[..cur - off])
    ensures forall n' :: 0 <= n' < |fs0.inodes| && n' != n ==> Content(fs', n') == Content(fs0, n')
  {
    hide Inv, Core, BlockNo, Elsewhere, KeepsOthers, NoPending, ByteOf;
    SizeOk(l, fs0, n);
    var a, b := Content(fs', n), Splice(Content(fs0, n), off, src[..cur - off]);
    forall o | 0 <= o < |a| ensures a[o] == b[o] {
      assert o / BSIZE * BSIZE <= o;
      assert BlockNo(fs, n, o / BSIZE) != 0;
    }
  }

  lemma SizeOk(l: Layout, fs: Fs, n: nat)
    requires Inv(l, fs) && n < |fs.inodes|
    ensures fs.inodes[n].size <= MAXFILE * BSIZE
  {
  }

  ghost predicate DiskFull(fs: Fs) {
    forall b :: 0 <= b < |fs.owner| ==> fs.owner[b] != Free
  }

  lemma StillFull(l: Layout, fs0: Fs, fs: Fs, fs': Fs, n: nat, off: nat, cur: nat, src: seq<Byte>)
    requires Writing(l, fs0, fs, n, off, cur, src) && Finished(l, fs0, fs, fs', n, Max(fs0.inodes[n].size, cur))
    ensures AllUsed(l, fs.disk, l.nblocks) ==> DiskFull(fs')
    ensures Indirect(fs', n) == Indirect(fs, n)
  {
    hide MapOk, OwnOk, BlockNo, Used, Elsewhere, KeepsOthers, Content, Inv;
  }

  /** What was written is what is read back. */
  lemma SpliceRead(c: seq<Byte>, off: nat, bytes: seq<Byte>)
    requires off <= |c|
    ensures Splice(c, off, bytes)[off..off + |bytes|] == bytes
    ensures Splice(c, off, bytes)[..off] == c[..off]
    ensures off + |bytes| <= |c| ==> Splice(c, off, bytes)[off + |bytes|..] == c[off + |bytes|..]
  {
  }

  // ---- mkfs ------------------------------------------------------------------------------------------------------

  function EmptyInode(): (i: Inode) {
    Inode(seq<nat>(NDIRECT + 1, _ => 0), 0)
  }

  /** Bits below i are set, the others clear; blocks outside the bitmap are zero. */
  ghost predicate MarkedUpTo(l: Layout, disk: seq<Block>, i: nat) {
    && LayoutOk(l) && |disk| == l.nblocks && (forall c :: 0 <= c < |disk| ==> |disk[c]| == BSIZE)
    && (forall c :: 0 <= c < |disk| ==> (Used(l, disk, c) <==> c < i))
    && (forall c :: 0 <= c < l.bmapstart ==> disk[c] == Zeros())
  }

  lemma ZeroBit(k: nat)
    ensures !Bit(0, k)
  {
  }

  lemma NoneUsed(l: Layout, disk: seq<Block>)
    requires LayoutOk(l) && |disk| == l.nblocks && forall c :: 0 <= c < |disk| ==> disk[c] == Zeros()
    ensures MarkedUpTo(l, disk, 0)
  {
    forall c | 0 <= c < |disk| ensures !Used(l, disk, c) {
      assert BBlock(l, c) < |disk|;
      ZeroBit(c % BPB % 8);
    }
  }

  lemma MarkOne(l: Layout, disk: seq<Block>, i: nat)
    requires MarkedUpTo(l, disk, i) && i < l.nmeta
    ensures BBlock(l, i) < |disk| && |disk[BBlock(l, i)]| == BSIZE && (i % BPB) / 8 < BSIZE
    ensures MarkedUpTo(l, Mark(l, disk, i, true), i + 1)
  {
    hide BitIn, Zeros, SetBitIn;
    assert i / BPB <= l.nblocks / BPB;
    forall c | 0 <= c < |disk| ensures Used(l, Mark(l, disk, i, true), c) <==> c < i + 1 {
      assert c / BPB <= l.nblocks / BPB;
      MarkAt(l, disk, i, true, c);
    }
  }

  lemma MkfsInv(l: Layout, fs: Fs)
    requires MarkedUpTo(l, fs.disk, l.nmeta) && |fs.inodes| == l.ninodes && |fs.owner| == l.nblocks
    requires forall n :: 0 <= n < |fs.inodes| ==> fs.inodes[n] == EmptyInode()
    requires forall b :: 0 <= b < |fs.owner| ==> fs.owner[b] == if b < l.nmeta then Meta else Free
    ensures Inv(l, fs) && forall n :: 0 <= n < |fs.inodes| ==> Content(fs, n) == []
  {
    hide Used, Zeros;
    forall n, bn | 0 <= n < |fs.inodes| ensures BlockNo(fs, n, bn) == 0 {
    }
    forall n | 0 <= n < |fs.inodes| ensures DiskInode(l, fs.disk, n) == fs.inodes[n] {
      ZeroDiskInode(l, fs.disk, n);
    }
  }

  lemma ZeroDiskInode(l: Layout, disk: seq<Block>, n: nat)
    requires LayoutOk(l) && |disk| == l.nblocks && n < l.ninodes
    requires forall c :: 0 <= c < l.bmapstart ==> disk[c] == Zeros()
    ensures DiskInode(l, disk, n) == EmptyInode()
  {
    assert n / IPB <= l.ninodes / IPB && IBlock(l, n) < l.bmapstart;
    forall i: nat ensures Word(disk[IBlock(l, n)], i) == 0 {
      ZeroWord(i);
    }
    hide Word, Zeros;
    assert DiskInode(l, disk, n).addrs == EmptyInode().addrs;
  }

  lemma SizesAre(fs: Fs)
    ensures forall n :: 0 <= n < |fs.inodes| ==> |Content(fs, n)| == fs.inodes[n].size
  {
  }
}
