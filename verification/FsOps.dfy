/** The updates that balloc, bfree, bmap, itrunc and writei make, as functions, and what each of
    them keeps. */
module FsOps {
  import opened FsModel

  /** Indirect blocks and inodes unchanged: the file maps are unchanged. */
  lemma SameMap(fs: Fs, fs': Fs, n: nat, bn: nat)
    requires n < |fs.inodes| ==> n < |fs'.inodes| && fs'.inodes[n].addrs == fs.inodes[n].addrs
    requires |fs'.inodes| == |fs.inodes| && |fs'.disk| == |fs.disk|
    requires Indirect(fs, n) != 0 && Indirect(fs, n) < |fs.disk| ==>
      fs'.disk[Indirect(fs, n)] == fs.disk[Indirect(fs, n)]
    ensures BlockNo(fs', n, bn) == BlockNo(fs, n, bn) && Indirect(fs', n) == Indirect(fs, n)
  {
  }

  lemma InBitmap(l: Layout, fs: Fs, b: nat)
    requires Shape(l, fs) && b < |fs.owner|
    ensures l.bmapstart <= BBlock(l, b) < l.nmeta && |fs.disk[BBlock(l, b)]| == BSIZE
  {
  }

  // ---- balloc -----------------------------------------------------------------------------------------

  function Alloc(l: Layout, fs: Fs, b: nat): (r: Fs)
    requires BBlock(l, b) < |fs.disk| && |fs.disk[BBlock(l, b)]| == BSIZE && b < |fs.disk| && b < |fs.owner|
  {
    fs.(disk := Mark(l, fs.disk, b, true)[b := Zeros()], owner := fs.owner[b := Pending])
  }

  lemma AllocMap(l: Layout, fs: Fs, b: nat, n: nat, bn: nat)
    requires Core(l, fs) && b < |fs.owner| && fs.owner[b] == Free && n < |fs.inodes|
    ensures BBlock(l, b) < |fs.disk| && |fs.disk[BBlock(l, b)]| == BSIZE
    ensures BlockNo(Alloc(l, fs, b), n, bn) == BlockNo(fs, n, bn) && Indirect(Alloc(l, fs, b), n) == Indirect(fs, n)
  {
    InBitmap(l, fs, b);
    assert fs.owner[BBlock(l, b)] == Meta;
    SameMap(fs, Alloc(l, fs, b), n, bn);
  }

  lemma AllocBits(l: Layout, fs: Fs, b: nat)
    requires Core(l, fs) && b < |fs.owner| && fs.owner[b] == Free
    ensures BBlock(l, b) < |fs.disk| && |fs.disk[BBlock(l, b)]| == BSIZE && BitsOk(l, Alloc(l, fs, b))
    ensures Shape(l, Alloc(l, fs, b))
  {
    InBitmap(l, fs, b);
    var fs' := Alloc(l, fs, b);
    forall c | 0 <= c < |fs.owner|
      ensures (Used(l, fs'.disk, c) <==> fs'.owner[c] != Free) && (c < l.nmeta <==> fs'.owner[c] == Meta)
    {
      InBitmap(l, fs, c);
      MarkAt(l, fs.disk, b, true, c);
      assert fs.owner[BBlock(l, c)] == Meta;
      assert fs'.disk[BBlock(l, c)] == Mark(l, fs.disk, b, true)[BBlock(l, c)];
    }
  }

  lemma AllocCore(l: Layout, fs: Fs, b: nat)
    requires Core(l, fs) && b < |fs.owner| && fs.owner[b] == Free
    ensures BBlock(l, b) < |fs.disk| && |fs.disk[BBlock(l, b)]| == BSIZE && Core(l, Alloc(l, fs, b))
  {
    hide BitsOk, Mark, BlockNo, Zeros, Indirect;
    AllocBits(l, fs, b);
    var fs' := Alloc(l, fs, b);
    forall n, bn | 0 <= n < |fs.inodes| && 0 <= bn < MAXFILE
      ensures BlockNo(fs', n, bn) == BlockNo(fs, n, bn)
    {
      AllocMap(l, fs, b, n, bn);
    }
    forall n | 0 <= n < |fs.inodes| ensures Indirect(fs', n) == Indirect(fs, n) {
      AllocMap(l, fs, b, n, 0);
    }
    SameMaps(l, fs, fs', b);
  }

  lemma ZeroIsMeta(l: Layout, fs: Fs)
    requires Core(l, fs)
    ensures |fs.owner| > 0 && fs.owner[0] == Meta
  {
  }

  /** The maps are as before and one loose block changed hands. */
  lemma SameMaps(l: Layout, fs: Fs, fs': Fs, b: nat)
    requires Core(l, fs) && |fs'.inodes| == |fs.inodes| && |fs'.owner| == |fs.owner| && b < |fs.owner|
    requires forall n, bn :: 0 <= n < |fs.inodes| && 0 <= bn < MAXFILE ==> BlockNo(fs', n, bn) == BlockNo(fs, n, bn)
    requires forall n :: 0 <= n < |fs.inodes| ==> Indirect(fs', n) == Indirect(fs, n)
    requires fs'.owner == fs.owner[b := fs'.owner[b]]
    requires fs'.owner[b] == fs.owner[b]
      || (!fs'.owner[b].Data? && !fs'.owner[b].Ind? && !fs.owner[b].Data? && !fs.owner[b].Ind?)
    ensures MapOk(fs') && OwnOk(fs')
  {
    hide BlockNo, Indirect, BitsOk;
    ZeroIsMeta(l, fs);
  }

  // ---- bmap --------------------------------------------------------------------------------------------

  /** Give inode n a block for file block bn. */
  function Attach(fs: Fs, n: nat, bn: nat, b: nat): (r: Fs)
    requires n < |fs.inodes| && |fs.inodes[n].addrs| == NDIRECT + 1 && b < UINT && bn < MAXFILE && b < |fs.owner|
    requires bn >= NDIRECT ==> Indirect(fs, n) < |fs.disk| && |fs.disk[Indirect(fs, n)]| == BSIZE
  {
    var fs1 := fs.(owner := fs.owner[b := Data(n, bn)]);
    if bn < NDIRECT then fs1.(inodes := fs.inodes[n := fs.inodes[n].(addrs := fs.inodes[n].addrs[bn := b])])
    else fs1.(disk := fs.disk[Indirect(fs, n) := SetWord(fs.disk[Indirect(fs, n)], bn - NDIRECT, b)])
  }

  ghost predicate CanAttach(l: Layout, fs: Fs, n: nat, bn: nat, b: nat) {
    && Core(l, fs) && n < |fs.inodes| && bn < MAXFILE && b < |fs.owner| && fs.owner[b] == Pending
    && (bn >= NDIRECT ==> Indirect(fs, n) != 0)
  }

  lemma AttachReady(l: Layout, fs: Fs, n: nat, bn: nat, b: nat)
    requires CanAttach(l, fs, n, bn, b)
    ensures n < |fs.inodes| && |fs.inodes[n].addrs| == NDIRECT + 1 && 0 < b < UINT && b < |fs.owner|
    ensures bn >= NDIRECT ==>
      0 < Indirect(fs, n) < |fs.disk| && |fs.disk[Indirect(fs, n)]| == BSIZE && fs.owner[Indirect(fs, n)] == Ind(n)
  {
  }

  lemma AttachMap(l: Layout, fs: Fs, n: nat, bn: nat, b: nat, n': nat, bn': nat)
    requires CanAttach(l, fs, n, bn, b) && n' < |fs.inodes| && bn' < MAXFILE
    ensures n < |fs.inodes| && |fs.inodes[n].addrs| == NDIRECT + 1 && 0 < b < UINT
    ensures bn >= NDIRECT ==> Indirect(fs, n) < |fs.disk| && |fs.disk[Indirect(fs, n)]| == BSIZE
    ensures BlockNo(Attach(fs, n, bn, b), n', bn') == if n' == n && bn' == bn then b else BlockNo(fs, n', bn')
    ensures Indirect(Attach(fs, n, bn, b), n') == Indirect(fs, n')
  {
    hide BitsOk, OwnOk, SetWord, Word, MapOk;
    AttachReady(l, fs, n, bn, b);
    if bn >= NDIRECT {
      AttachListed(l, fs, n, bn, b, n', bn');
    }
  }

  lemma AttachListed(l: Layout, fs: Fs, n: nat, bn: nat, b: nat, n': nat, bn': nat)
    requires CanAttach(l, fs, n, bn, b) && n' < |fs.inodes| && NDIRECT <= bn && bn' < MAXFILE && 0 < b < UINT
    requires 0 < Indirect(fs, n) < |fs.disk| && |fs.disk[Indirect(fs, n)]| == BSIZE
    requires fs.owner[Indirect(fs, n)] == Ind(n)
    requires |fs.inodes[n].addrs| == NDIRECT + 1
    ensures BlockNo(Attach(fs, n, bn, b), n', bn') == if n' == n && bn' == bn then b else BlockNo(fs, n', bn')
  {
    hide BitsOk, OwnOk, SetWord, Word;
    if bn' >= NDIRECT && Indirect(fs, n') != 0 {
      assert fs.owner[Indirect(fs, n')] == Ind(n');
      SetWordAt(fs.disk[Indirect(fs, n)], bn - NDIRECT, b, bn' - NDIRECT);
    }
  }

  /** Bits depend on metadata blocks alone. */
  lemma SameBits(l: Layout, fs: Fs, fs': Fs)
    requires Core(l, fs) && |fs'.disk| == |fs.disk| && |fs'.owner| == |fs.owner|
    requires forall c :: 0 <= c < l.nmeta ==> fs'.disk[c] == fs.disk[c]
    requires forall c :: 0 <= c < |fs.owner| ==>
      (fs'.owner[c] == Free <==> fs.owner[c] == Free) && (fs'.owner[c] == Meta <==> fs.owner[c] == Meta)
    ensures BitsOk(l, fs')
  {
    hide MapOk, OwnOk, BitIn;
    forall c | 0 <= c < |fs.owner|
      ensures (Used(l, fs'.disk, c) <==> fs'.owner[c] != Free) && (c < l.nmeta <==> fs'.owner[c] == Meta)
    {
      InBitmap(l, fs, c);
    }
  }

  lemma AttachCore(l: Layout, fs: Fs, n: nat, bn: nat, b: nat)
    requires CanAttach(l, fs, n, bn, b) && BlockNo(fs, n, bn) == 0
    ensures n < |fs.inodes| && |fs.inodes[n].addrs| == NDIRECT + 1 && 0 < b < UINT
    ensures bn >= NDIRECT ==> Indirect(fs, n) < |fs.disk| && |fs.disk[Indirect(fs, n)]| == BSIZE
    ensures Core(l, Attach(fs, n, bn, b))
  {
    hide BlockNo, Indirect, SetWord;
    AttachReady(l, fs, n, bn, b);
    var fs' := Attach(fs, n, bn, b);
    forall n', bn' | 0 <= n' < |fs.inodes| && 0 <= bn' < MAXFILE
      ensures BlockNo(fs', n', bn') == if n' == n && bn' == bn then b else BlockNo(fs, n', bn')
    {
      AttachMap(l, fs, n, bn, b, n', bn');
    }
    forall n' | 0 <= n' < |fs.inodes| ensures Indirect(fs', n') == Indirect(fs, n') {
      AttachMap(l, fs, n, bn, b, n', 0);
    }
    SameBits(l, fs, fs');
    AttachMaps(l, fs, fs', n, bn, b);
  }

  lemma AttachMaps(l: Layout, fs: Fs, fs': Fs, n: nat, bn: nat, b: nat)
    requires Core(l, fs) && n < |fs.inodes| && bn < MAXFILE && 0 < b < |fs.owner| && fs.owner[b] == Pending
    requires BlockNo(fs, n, bn) == 0
    requires |fs'.inodes| == |fs.inodes| && fs'.owner == fs.owner[b := Data(n, bn)]
    requires forall n', bn' :: 0 <= n' < |fs.inodes| && 0 <= bn' < MAXFILE ==>
      BlockNo(fs', n', bn') == if n' == n && bn' == bn then b else BlockNo(fs, n', bn')
    requires forall n' :: 0 <= n' < |fs.inodes| ==> Indirect(fs', n') == Indirect(fs, n')
    ensures MapOk(fs') && OwnOk(fs')
  {
    hide BlockNo, Indirect, BitsOk;
    ZeroIsMeta(l, fs);
  }

  function AttachInd(fs: Fs, n: nat, b: nat): (r: Fs)
    requires n < |fs.inodes| && |fs.inodes[n].addrs| == NDIRECT + 1 && b < |fs.owner|
  {
    fs.(owner := fs.owner[b := Ind(n)],
        inodes := fs.inodes[n := fs.inodes[n].(addrs := fs.inodes[n].addrs[NDIRECT := b])])
  }

  lemma AttachIndMap(l: Layout, fs: Fs, n: nat, b: nat, n': nat, bn: nat)
    requires Core(l, fs) && n < |fs.inodes| && 0 < b < |fs.owner| && fs.disk[b] == Zeros() && Indirect(fs, n) == 0
    requires n' < |fs.inodes|
    ensures BlockNo(AttachInd(fs, n, b), n', bn) == BlockNo(fs, n', bn)
    ensures Indirect(AttachInd(fs, n, b), n') == if n' == n then b else Indirect(fs, n')
  {
    if bn >= NDIRECT {
      ZeroWord(bn - NDIRECT);
    }
  }

  lemma AttachIndCore(l: Layout, fs: Fs, n: nat, b: nat)
    requires Core(l, fs) && n < |fs.inodes| && b < |fs.owner| && fs.owner[b] == Pending && fs.disk[b] == Zeros()
    requires Indirect(fs, n) == 0
    ensures b > 0 && Core(l, AttachInd(fs, n, b))
  {
    hide BlockNo, Indirect, Zeros;
    var fs' := AttachInd(fs, n, b);
    forall n', bn' | 0 <= n' < |fs.inodes| && 0 <= bn' < MAXFILE
      ensures BlockNo(fs', n', bn') == BlockNo(fs, n', bn')
    {
      AttachIndMap(l, fs, n, b, n', bn');
    }
    forall n' | 0 <= n' < |fs.inodes| ensures Indirect(fs', n') == if n' == n then b else Indirect(fs, n') {
      AttachIndMap(l, fs, n, b, n', 0);
    }
    SameBits(l, fs, fs');
    AttachIndMaps(l, fs, fs', n, b);
  }

  lemma AttachIndMaps(l: Layout, fs: Fs, fs': Fs, n: nat, b: nat)
    requires Core(l, fs) && n < |fs.inodes| && 0 < b < |fs.owner| && fs.owner[b] == Pending && Indirect(fs, n) == 0
    requires |fs'.inodes| == |fs.inodes| && fs'.owner == fs.owner[b := Ind(n)]
    requires forall n', bn' :: 0 <= n' < |fs.inodes| && 0 <= bn' < MAXFILE ==>
      BlockNo(fs', n', bn') == BlockNo(fs, n', bn')
    requires forall n' :: 0 <= n' < |fs.inodes| ==> Indirect(fs', n') == if n' == n then b else Indirect(fs, n')
    ensures MapOk(fs') && OwnOk(fs')
  {
    hide BlockNo, Indirect, BitsOk;
    ZeroIsMeta(l, fs);
  }

  // ---- bfree -----------------------------------------------------------------------------------------------

  /** Take file block bn away from inode n and clear its bit. */
  function Detach(l: Layout, fs: Fs, n: nat, bn: nat): (r: Fs)
    requires n < |fs.inodes| && |fs.inodes[n].addrs| == NDIRECT + 1 && bn < MAXFILE && BlockNo(fs, n, bn) < |fs.owner|
    requires BBlock(l, BlockNo(fs, n, bn)) < |fs.disk| && |fs.disk[BBlock(l, BlockNo(fs, n, bn))]| == BSIZE
    requires bn >= NDIRECT ==> Indirect(fs, n) < |fs.disk| && |fs.disk[Indirect(fs, n)]| == BSIZE
  {
    var b := BlockNo(fs, n, bn);
    var fs1 := fs.(disk := Mark(l, fs.disk, b, false), owner := fs.owner[b := Free]);
    if bn < NDIRECT then fs1.(inodes := fs.inodes[n := fs.inodes[n].(addrs := fs.inodes[n].addrs[bn := 0])])
    else fs1.(disk := fs1.disk[Indirect(fs, n) := SetWord(fs.disk[Indirect(fs, n)], bn - NDIRECT, 0)])
  }

  lemma DetachReady(l: Layout, fs: Fs, n: nat, bn: nat)
    requires Core(l, fs) && n < |fs.inodes| && bn < MAXFILE && BlockNo(fs, n, bn) != 0
    ensures |fs.inodes[n].addrs| == NDIRECT + 1 && BlockNo(fs, n, bn) < |fs.owner|
    ensures fs.owner[BlockNo(fs, n, bn)] == Data(n, bn)
    ensures BBlock(l, BlockNo(fs, n, bn)) < |fs.disk| && |fs.disk[BBlock(l, BlockNo(fs, n, bn))]| == BSIZE
    ensures fs.owner[BBlock(l, BlockNo(fs, n, bn))] == Meta && Used(l, fs.disk, BlockNo(fs, n, bn))
    ensures bn >= NDIRECT ==>
      0 < Indirect(fs, n) < |fs.disk| && |fs.disk[Indirect(fs, n)]| == BSIZE && fs.owner[Indirect(fs, n)] == Ind(n)
  {
    InBitmap(l, fs, BlockNo(fs, n, bn));
  }

  lemma DetachMap(l: Layout, fs: Fs, n: nat, bn: nat, n': nat, bn': nat)
    requires Core(l, fs) && n < |fs.inodes| && bn < MAXFILE && BlockNo(fs, n, bn) != 0 && n' < |fs.inodes|
    requires bn' < MAXFILE
    ensures |fs.inodes[n].addrs| == NDIRECT + 1 && BlockNo(fs, n, bn) < |fs.owner|
    ensures BBlock(l, BlockNo(fs, n, bn)) < |fs.disk| && |fs.disk[BBlock(l, BlockNo(fs, n, bn))]| == BSIZE
    ensures bn >= NDIRECT ==> Indirect(fs, n) < |fs.disk| && |fs.disk[Indirect(fs, n)]| == BSIZE
    ensures BlockNo(Detach(l, fs, n, bn), n', bn') == if n' == n && bn' == bn then 0 else BlockNo(fs, n', bn')
    ensures Indirect(Detach(l, fs, n, bn), n') == Indirect(fs, n')
  {
    hide BitsOk, SetWord, Word, SetBitIn;
    DetachReady(l, fs, n, bn);
    var fs' := Detach(l, fs, n, bn);
    assert Indirect(fs', n') == Indirect(fs, n');
    if Indirect(fs, n') != 0 {
      assert fs.owner[Indirect(fs, n')] == Ind(n');
      if bn >= NDIRECT && bn' >= NDIRECT {
        SetWordAt(fs.disk[Indirect(fs, n)], bn - NDIRECT, 0, bn' - NDIRECT);
      }
    }
  }

  lemma DetachBits(l: Layout, fs: Fs, n: nat, bn: nat)
    requires Core(l, fs) && n < |fs.inodes| && bn < MAXFILE && BlockNo(fs, n, bn) != 0
    ensures |fs.inodes[n].addrs| == NDIRECT + 1 && BlockNo(fs, n, bn) < |fs.owner|
    ensures BBlock(l, BlockNo(fs, n, bn)) < |fs.disk| && |fs.disk[BBlock(l, BlockNo(fs, n, bn))]| == BSIZE
    ensures bn >= NDIRECT ==> Indirect(fs, n) < |fs.disk| && |fs.disk[Indirect(fs, n)]| == BSIZE
    ensures BitsOk(l, Detach(l, fs, n, bn)) && Shape(l, Detach(l, fs, n, bn))
  {
    hide MapOk, OwnOk, BitIn, SetBitIn, SetWord, BlockNo, Indirect;
    DetachReady(l, fs, n, bn);
    var fs' := Detach(l, fs, n, bn);
    var b := BlockNo(fs, n, bn);
    forall c | 0 <= c < |fs.owner|
      ensures (Used(l, fs'.disk, c) <==> fs'.owner[c] != Free) && (c < l.nmeta <==> fs'.owner[c] == Meta)
    {
      InBitmap(l, fs, c);
      MarkAt(l, fs.disk, b, false, c);
      assert fs.owner[BBlock(l, c)] == Meta;
      assert fs'.disk[BBlock(l, c)] == Mark(l, fs.disk, b, false)[BBlock(l, c)];
    }
  }

  lemma DetachCore(l: Layout, fs: Fs, n: nat, bn: nat)
    requires Core(l, fs) && n < |fs.inodes| && bn < MAXFILE && BlockNo(fs, n, bn) != 0
    ensures |fs.inodes[n].addrs| == NDIRECT + 1 && BlockNo(fs, n, bn) < |fs.owner|
    ensures BBlock(l, BlockNo(fs, n, bn)) < |fs.disk| && |fs.disk[BBlock(l, BlockNo(fs, n, bn))]| == BSIZE
    ensures bn >= NDIRECT ==> Indirect(fs, n) < |fs.disk| && |fs.disk[Indirect(fs, n)]| == BSIZE
    ensures Core(l, Detach(l, fs, n, bn))
  {
    hide BlockNo, Indirect, SetWord, Mark, BitsOk;
    DetachReady(l, fs, n, bn);
    DetachBits(l, fs, n, bn);
    var fs' := Detach(l, fs, n, bn);
    forall n', bn' | 0 <= n' < |fs.inodes| && 0 <= bn' < MAXFILE
      ensures BlockNo(fs', n', bn') == if n' == n && bn' == bn then 0 else BlockNo(fs, n', bn')
    {
      DetachMap(l, fs, n, bn, n', bn');
    }
    forall n' | 0 <= n' < |fs.inodes| ensures Indirect(fs', n') == Indirect(fs, n') {
      DetachMap(l, fs, n, bn, n', 0);
    }
    DetachMaps(l, fs, fs', n, bn);
  }

  lemma DetachMaps(l: Layout, fs: Fs, fs': Fs, n: nat, bn: nat)
    requires Core(l, fs) && n < |fs.inodes| && bn < MAXFILE && 0 < BlockNo(fs, n, bn) < |fs.owner|
    requires |fs'.inodes| == |fs.inodes| && fs'.owner == fs.owner[BlockNo(fs, n, bn) := Free]
    requires forall n', bn' :: 0 <= n' < |fs.inodes| && 0 <= bn' < MAXFILE ==>
      BlockNo(fs', n', bn') == if n' == n && bn' == bn then 0 else BlockNo(fs, n', bn')
    requires forall n' :: 0 <= n' < |fs.inodes| ==> Indirect(fs', n') == Indirect(fs, n')
    ensures MapOk(fs') && OwnOk(fs')
  {
    hide BlockNo, Indirect, BitsOk;
    ZeroIsMeta(l, fs);
  }

  /** Free the indirect block itself, once it lists nothing. */
  function DetachInd(l: Layout, fs: Fs, n: nat): (r: Fs)
    requires n < |fs.inodes| && |fs.inodes[n].addrs| == NDIRECT + 1 && Indirect(fs, n) < |fs.owner|
    requires BBlock(l, Indirect(fs, n)) < |fs.disk| && |fs.disk[BBlock(l, Indirect(fs, n))]| == BSIZE
  {
    fs.(disk := Mark(l, fs.disk, Indirect(fs, n), false), owner := fs.owner[Indirect(fs, n) := Free],
        inodes := fs.inodes[n := fs.inodes[n].(addrs := fs.inodes[n].addrs[NDIRECT := 0])])
  }

  ghost predicate ListsNothing(fs: Fs, n: nat) {
    forall bn :: NDIRECT <= bn < MAXFILE ==> BlockNo(fs, n, bn) == 0
  }

  lemma DetachIndReady(l: Layout, fs: Fs, n: nat)
    requires Core(l, fs) && n < |fs.inodes| && Indirect(fs, n) != 0
    ensures |fs.inodes[n].addrs| == NDIRECT + 1 && Indirect(fs, n) < |fs.owner| && fs.owner[Indirect(fs, n)] == Ind(n)
    ensures BBlock(l, Indirect(fs, n)) < |fs.disk| && |fs.disk[BBlock(l, Indirect(fs, n))]| == BSIZE
    ensures fs.owner[BBlock(l, Indirect(fs, n))] == Meta && Used(l, fs.disk, Indirect(fs, n))
  {
    InBitmap(l, fs, Indirect(fs, n));
  }

  lemma DetachIndBits(l: Layout, fs: Fs, n: nat)
    requires Core(l, fs) && n < |fs.inodes| && Indirect(fs, n) != 0
    ensures |fs.inodes[n].addrs| == NDIRECT + 1 && Indirect(fs, n) < |fs.owner|
    ensures BBlock(l, Indirect(fs, n)) < |fs.disk| && |fs.disk[BBlock(l, Indirect(fs, n))]| == BSIZE
    ensures BitsOk(l, DetachInd(l, fs, n)) && Shape(l, DetachInd(l, fs, n))
  {
    hide MapOk, OwnOk, BitIn, SetBitIn, BlockNo, Indirect;
    DetachIndReady(l, fs, n);
    var fs' := DetachInd(l, fs, n);
    forall c | 0 <= c < |fs.owner|
      ensures (Used(l, fs'.disk, c) <==> fs'.owner[c] != Free) && (c < l.nmeta <==> fs'.owner[c] == Meta)
    {
      InBitmap(l, fs, c);
      MarkAt(l, fs.disk, Indirect(fs, n), false, c);
    }
  }

  lemma DetachIndMap(l: Layout, fs: Fs, n: nat, n': nat, bn: nat)
    requires Core(l, fs) && n < |fs.inodes| && Indirect(fs, n) != 0 && ListsNothing(fs, n) && n' < |fs.inodes|
    requires bn < MAXFILE
    ensures |fs.inodes[n].addrs| == NDIRECT + 1 && Indirect(fs, n) < |fs.owner|
    ensures BBlock(l, Indirect(fs, n)) < |fs.disk| && |fs.disk[BBlock(l, Indirect(fs, n))]| == BSIZE
    ensures BlockNo(DetachInd(l, fs, n), n', bn) == BlockNo(fs, n', bn)
    ensures Indirect(DetachInd(l, fs, n), n') == if n' == n then 0 else Indirect(fs, n')
  {
    hide BitsOk, Word, SetBitIn;
    DetachIndReady(l, fs, n);
    if Indirect(fs, n') != 0 {
      assert fs.owner[Indirect(fs, n')] == Ind(n');
    }
  }

  lemma DetachIndCore(l: Layout, fs: Fs, n: nat)
    requires Core(l, fs) && n < |fs.inodes| && Indirect(fs, n) != 0 && ListsNothing(fs, n)
    ensures |fs.inodes[n].addrs| == NDIRECT + 1 && Indirect(fs, n) < |fs.owner|
    ensures BBlock(l, Indirect(fs, n)) < |fs.disk| && |fs.disk[BBlock(l, Indirect(fs, n))]| == BSIZE
    ensures Core(l, DetachInd(l, fs, n))
  {
    hide BlockNo, Indirect, Mark, BitsOk;
    DetachIndReady(l, fs, n);
    DetachIndBits(l, fs, n);
    var fs' := DetachInd(l, fs, n);
    forall n', bn' | 0 <= n' < |fs.inodes| && 0 <= bn' < MAXFILE
      ensures BlockNo(fs', n', bn') == BlockNo(fs, n', bn')
    {
      DetachIndMap(l, fs, n, n', bn');
    }
    forall n' | 0 <= n' < |fs.inodes| ensures Indirect(fs', n') == if n' == n then 0 else Indirect(fs, n') {
      DetachIndMap(l, fs, n, n', 0);
    }
    DetachIndMaps(l, fs, fs', n);
  }

  lemma DetachIndMaps(l: Layout, fs: Fs, fs': Fs, n: nat)
    requires Core(l, fs) && n < |fs.inodes| && 0 < Indirect(fs, n) < |fs.owner|
    requires |fs'.inodes| == |fs.inodes| && fs'.owner == fs.owner[Indirect(fs, n) := Free]
    requires forall n', bn' :: 0 <= n' < |fs.inodes| && 0 <= bn' < MAXFILE ==>
      BlockNo(fs', n', bn') == BlockNo(fs, n', bn')
    requires forall n' :: 0 <= n' < |fs.inodes| ==> Indirect(fs', n') == if n' == n then 0 else Indirect(fs, n')
    ensures MapOk(fs') && OwnOk(fs')
  {
    hide BlockNo, Indirect, BitsOk;
    ZeroIsMeta(l, fs);
  }

  // ---- data, size and the inode on disk ---------------------------------------------------------------------

  function Put(fs: Fs, b: nat, data: Block): (r: Fs)
    requires b < |fs.disk|
  {
    fs.(disk := fs.disk[b := data])
  }

  lemma PutMap(l: Layout, fs: Fs, b: nat, data: Block, n: nat, bn: nat)
    requires Core(l, fs) && b < |fs.owner| && fs.owner[b].Data? && n < |fs.inodes|
    ensures BlockNo(Put(fs, b, data), n, bn) == BlockNo(fs, n, bn) && Indirect(Put(fs, b, data), n) == Indirect(fs, n)
  {
    hide BitsOk, OwnOk;
    SameMap(fs, Put(fs, b, data), n, bn);
  }

  lemma PutCore(l: Layout, fs: Fs, b: nat, data: Block)
    requires Core(l, fs) && b < |fs.owner| && fs.owner[b].Data? && |data| == BSIZE
    ensures Core(l, Put(fs, b, data))
  {
    hide BlockNo, Indirect;
    var fs' := Put(fs, b, data);
    forall n, bn | 0 <= n < |fs.inodes| && 0 <= bn < MAXFILE ensures BlockNo(fs', n, bn) == BlockNo(fs, n, bn) {
      PutMap(l, fs, b, data, n, bn);
    }
    forall n | 0 <= n < |fs.inodes| ensures Indirect(fs', n) == Indirect(fs, n) {
      PutMap(l, fs, b, data, n, 0);
    }
    SameBits(l, fs, fs');
    SameMaps(l, fs, fs', b);
  }

  function Resize(fs: Fs, n: nat, size: nat): (r: Fs)
    requires n < |fs.inodes|
  {
    fs.(inodes := fs.inodes[n := fs.inodes[n].(size := size)])
  }

  lemma ResizeCore(l: Layout, fs: Fs, n: nat, size: nat)
    requires Core(l, fs) && n < |fs.inodes| && size <= MAXFILE * BSIZE
    ensures Core(l, Resize(fs, n, size))
    ensures forall n', bn :: 0 <= n' < |fs.inodes| ==> BlockNo(Resize(fs, n, size), n', bn) == BlockNo(fs, n', bn)
  {
    var fs' := Resize(fs, n, size);
    forall n', bn | 0 <= n' < |fs.inodes|
      ensures BlockNo(fs', n', bn) == BlockNo(fs, n', bn) && Indirect(fs', n') == Indirect(fs, n')
    {
    }
    hide BlockNo, Indirect;
    assert forall n' :: 0 <= n' < |fs.inodes| ==> Indirect(fs', n') == Indirect(fs, n') by {
      forall n' | 0 <= n' < |fs.inodes| ensures Indirect(fs', n') == Indirect(fs, n') {
        assert BlockNo(fs', n', 0) == BlockNo(fs, n', 0);
      }
    }
    ZeroIsMeta(l, fs);
    SameBits(l, fs, fs');
    SameMaps(l, fs, fs', 0);
  }

  /** Consecutive words stored in a block. */
  function PutWords(b: Block, base: nat, ws: seq<nat>): (r: Block)
    requires |b| == BSIZE && base + |ws| <= NINDIRECT && forall i :: 0 <= i < |ws| ==> ws[i] < UINT
    ensures |r| == BSIZE
  {
    if ws == [] then b else
      var k := |ws| - 1;
      SetWord(PutWords(b, base, ws[..k]), base + k, ws[k])
  }

  lemma {:induction false} PutWordsAt(b: Block, base: nat, ws: seq<nat>, j: nat)
    requires |b| == BSIZE && base + |ws| <= NINDIRECT && (forall i :: 0 <= i < |ws| ==> ws[i] < UINT) && j < NINDIRECT
    ensures Word(PutWords(b, base, ws), j) == if base <= j < base + |ws| then ws[j - base] else Word(b, j)
  {
    if ws != [] {
      hide Word, SetWord;
      var k := |ws| - 1;
      PutWordsAt(b, base, ws[..k], j);
      SetWordAt(PutWords(b, base, ws[..k]), base + k, ws[k], j);
    }
  }

  /** The numbers of an inode fit the words of its slot. */
  predicate Storable(i: Inode) {
    |i.addrs| == NDIRECT + 1 && i.size < UINT && forall k :: 0 <= k < NDIRECT + 1 ==> i.addrs[k] < UINT
  }

  /** iupdate: the in-memory inode goes to its slot on disk. */
  function Iupdated(l: Layout, fs: Fs, n: nat): (r: Fs)
    requires n < |fs.inodes| && IBlock(l, n) < |fs.disk| && |fs.disk[IBlock(l, n)]| == BSIZE
    requires Storable(fs.inodes[n])
  {
    var ws := [fs.inodes[n].size] + fs.inodes[n].addrs;
    fs.(disk := fs.disk[IBlock(l, n) := PutWords(fs.disk[IBlock(l, n)], 16 * (n % IPB) + 2, ws)])
  }

  lemma IupdateReady(l: Layout, fs: Fs, n: nat)
    requires Core(l, fs) && n < |fs.inodes|
    ensures IBlock(l, n) < l.bmapstart && IBlock(l, n) < |fs.disk| && |fs.disk[IBlock(l, n)]| == BSIZE
    ensures fs.owner[IBlock(l, n)] == Meta
    ensures Storable(fs.inodes[n])
  {
    hide BitsOk, MapOk, OwnOk;
    IBlockMeta(l, fs, n);
    AddrsFit(l, fs, n);
  }

  lemma IBlockMeta(l: Layout, fs: Fs, n: nat)
    requires Core(l, fs) && n < |fs.inodes|
    ensures IBlock(l, n) < l.bmapstart && IBlock(l, n) < |fs.disk| && |fs.disk[IBlock(l, n)]| == BSIZE
    ensures fs.owner[IBlock(l, n)] == Meta
  {
    hide MapOk, OwnOk, Used;
    assert n / IPB <= l.ninodes / IPB;
  }

  lemma AddrsFit(l: Layout, fs: Fs, n: nat)
    requires Core(l, fs) && n < |fs.inodes|
    ensures |fs.inodes[n].addrs| == NDIRECT + 1 && forall i :: 0 <= i < NDIRECT + 1 ==> fs.inodes[n].addrs[i] < UINT
  {
    hide BitsOk, OwnOk;
    forall i | 0 <= i < NDIRECT + 1 ensures fs.inodes[n].addrs[i] < UINT {
      if i < NDIRECT {
        assert BlockNo(fs, n, i) == fs.inodes[n].addrs[i];
      } else {
        assert Indirect(fs, n) == fs.inodes[n].addrs[i];
      }
    }
  }

  /** The slot of one inode changes, and no other. */
  lemma IupdateDisk(l: Layout, fs: Fs, n: nat, n': nat)
    requires Core(l, fs) && n < |fs.inodes| && n' < |fs.inodes|
    ensures IBlock(l, n) < |fs.disk| && |fs.disk[IBlock(l, n)]| == BSIZE
    ensures Storable(fs.inodes[n])
    ensures DiskInode(l, Iupdated(l, fs, n).disk, n') == if n' == n then fs.inodes[n] else DiskInode(l, fs.disk, n')
  {
    hide BitsOk, MapOk, OwnOk, Word, SetWord, PutWords;
    IupdateReady(l, fs, n);
    var block := fs.disk[IBlock(l, n)];
    var ws := [fs.inodes[n].size] + fs.inodes[n].addrs;
    var disk' := Iupdated(l, fs, n).disk;
    if IBlock(l, n') == IBlock(l, n) {
      var a, b := DiskInode(l, disk', n'), if n' == n then fs.inodes[n] else DiskInode(l, fs.disk, n');
      assert n == n / IPB * IPB + n % IPB && n' == n' / IPB * IPB + n' % IPB;
      forall i | 0 <= i < NDIRECT + 1 ensures a.addrs[i] == b.addrs[i] {
        PutWordsAt(block, 16 * (n % IPB) + 2, ws, 16 * (n' % IPB) + 3 + i);
      }
      PutWordsAt(block, 16 * (n % IPB) + 2, ws, 16 * (n' % IPB) + 2);
      assert a.addrs == b.addrs && a.size == b.size;
    }
  }

  lemma IupdateCore(l: Layout, fs: Fs, n: nat)
    requires Core(l, fs) && n < |fs.inodes|
    ensures IBlock(l, n) < |fs.disk| && |fs.disk[IBlock(l, n)]| == BSIZE
    ensures Storable(fs.inodes[n])
    ensures Core(l, Iupdated(l, fs, n))
    ensures forall n', bn :: 0 <= n' < |fs.inodes| && 0 <= bn < MAXFILE ==>
      BlockNo(Iupdated(l, fs, n), n', bn) == BlockNo(fs, n', bn)
  {
    hide PutWords, Used, BlockNo, Indirect;
    IupdateReady(l, fs, n);
    var fs' := Iupdated(l, fs, n);
    forall n', bn | 0 <= n' < |fs.inodes| && 0 <= bn < MAXFILE ensures BlockNo(fs', n', bn) == BlockNo(fs, n', bn) {
      SameMap(fs, fs', n', bn);
    }
    forall n' | 0 <= n' < |fs.inodes| ensures Indirect(fs', n') == Indirect(fs, n') {
      SameMap(fs, fs', n', 0);
    }
    assert BitsOk(l, fs') by { IupdateBits(l, fs, n); }
    SameMaps(l, fs, fs', 0);
  }

  lemma IupdateBits(l: Layout, fs: Fs, n: nat)
    requires Core(l, fs) && n < |fs.inodes|
    ensures IBlock(l, n) < |fs.disk| && |fs.disk[IBlock(l, n)]| == BSIZE
    ensures Storable(fs.inodes[n])
    ensures BitsOk(l, Iupdated(l, fs, n))
  {
    hide PutWords, MapOk, OwnOk, BitIn, BlockNo, Indirect;
    IupdateReady(l, fs, n);
    var fs' := Iupdated(l, fs, n);
    forall c | 0 <= c < |fs.owner| ensures Used(l, fs'.disk, c) == Used(l, fs.disk, c) {
      InBitmap(l, fs, c);
    }
  }

  // ---- what files keep ---------------------------------------------------------------------------------------

  /** Every block of inode n is still its block, with the same bytes. */
  ghost predicate Keeps(fs: Fs, fs': Fs, n: nat) {
    && |fs'.inodes| == |fs.inodes| && |fs'.disk| == |fs.disk| && n < |fs.inodes|
    && fs'.inodes[n].size == fs.inodes[n].size
    && forall bn :: 0 <= bn < MAXFILE && BlockNo(fs, n, bn) != 0 ==>
         && BlockNo(fs', n, bn) == BlockNo(fs, n, bn) < |fs.disk|
         && fs'.disk[BlockNo(fs, n, bn)] == fs.disk[BlockNo(fs, n, bn)]
  }

  ghost predicate KeepsAll(fs: Fs, fs': Fs) {
    |fs'.inodes| == |fs.inodes| && forall n :: 0 <= n < |fs.inodes| ==> Keeps(fs, fs', n)
  }

  ghost predicate KeepsOthers(fs: Fs, fs': Fs, n: nat) {
    |fs'.inodes| == |fs.inodes| && forall n' :: 0 <= n' < |fs.inodes| && n' != n ==> Keeps(fs, fs', n')
  }

  lemma KeepsTrans(fs: Fs, fs1: Fs, fs2: Fs, n: nat)
    requires Keeps(fs, fs1, n) && Keeps(fs1, fs2, n)
    ensures Keeps(fs, fs2, n)
  {
    hide BlockNo;
  }

  lemma KeepsAllTrans(fs: Fs, fs1: Fs, fs2: Fs)
    requires KeepsAll(fs, fs1) && KeepsAll(fs1, fs2)
    ensures KeepsAll(fs, fs2)
  {
    hide Keeps;
    forall n | 0 <= n < |fs.inodes| ensures Keeps(fs, fs2, n) {
      KeepsTrans(fs, fs1, fs2, n);
    }
  }

  lemma KeepsOthersTrans(fs: Fs, fs1: Fs, fs2: Fs, n: nat)
    requires KeepsOthers(fs, fs1, n) && KeepsOthers(fs1, fs2, n)
    ensures KeepsOthers(fs, fs2, n)
  {
    hide Keeps;
    forall n' | 0 <= n' < |fs.inodes| && n' != n ensures Keeps(fs, fs2, n') {
      KeepsTrans(fs, fs1, fs2, n');
    }
  }

  lemma KeepsRefl(l: Layout, fs: Fs)
    requires Core(l, fs)
    ensures KeepsAll(fs, fs)
  {
    hide BlockNo, BitsOk, OwnOk;
  }

  lemma AllocKeeps(l: Layout, fs: Fs, b: nat)
    requires Core(l, fs) && b < |fs.owner| && fs.owner[b] == Free
    ensures BBlock(l, b) < |fs.disk| && |fs.disk[BBlock(l, b)]| == BSIZE && KeepsAll(fs, Alloc(l, fs, b))
  {
    hide BlockNo, Indirect, Mark, BitsOk, OwnOk;
    AllocBits(l, fs, b);
    var fs' := Alloc(l, fs, b);
    forall n, bn | 0 <= n < |fs.inodes| && 0 <= bn < MAXFILE && BlockNo(fs, n, bn) != 0
      ensures BlockNo(fs', n, bn) == BlockNo(fs, n, bn) < |fs.disk|
      ensures fs'.disk[BlockNo(fs, n, bn)] == fs.disk[BlockNo(fs, n, bn)]
    {
      AllocMap(l, fs, b, n, bn);
      AllocElsewhere(l, fs, b, BlockNo(fs, n, bn));
    }
  }

  lemma AllocElsewhere(l: Layout, fs: Fs, b: nat, c: nat)
    requires Core(l, fs) && b < |fs.owner| && fs.owner[b] == Free && c < |fs.owner|
    requires (fs.owner[c].Data? || fs.owner[c].Ind?)
    ensures BBlock(l, b) < |fs.disk| && |fs.disk[BBlock(l, b)]| == BSIZE && Alloc(l, fs, b).disk[c] == fs.disk[c]
  {
    hide BlockNo, Indirect, MapOk, OwnOk, SetBitIn;
    InBitmap(l, fs, b);
  }

  lemma AttachKeeps(l: Layout, fs: Fs, n: nat, bn: nat, b: nat)
    requires CanAttach(l, fs, n, bn, b) && BlockNo(fs, n, bn) == 0
    ensures n < |fs.inodes| && |fs.inodes[n].addrs| == NDIRECT + 1 && 0 < b < UINT
    ensures bn >= NDIRECT ==> Indirect(fs, n) < |fs.disk| && |fs.disk[Indirect(fs, n)]| == BSIZE
    ensures KeepsAll(fs, Attach(fs, n, bn, b))
  {
    hide BlockNo, Indirect, SetWord, BitsOk, OwnOk;
    AttachReady(l, fs, n, bn, b);
    var fs' := Attach(fs, n, bn, b);
    forall n', bn' | 0 <= n' < |fs.inodes| && 0 <= bn' < MAXFILE && BlockNo(fs, n', bn') != 0
      ensures BlockNo(fs', n', bn') == BlockNo(fs, n', bn') < |fs.disk|
      ensures fs'.disk[BlockNo(fs, n', bn')] == fs.disk[BlockNo(fs, n', bn')]
    {
      AttachMap(l, fs, n, bn, b, n', bn');
    }
  }

  lemma AttachIndKeeps(l: Layout, fs: Fs, n: nat, b: nat)
    requires Core(l, fs) && n < |fs.inodes| && 0 < b < |fs.owner| && fs.owner[b] == Pending && fs.disk[b] == Zeros()
    requires Indirect(fs, n) == 0
    ensures KeepsAll(fs, AttachInd(fs, n, b))
  {
    hide BlockNo, Indirect, BitsOk, OwnOk, Zeros;
    var fs' := AttachInd(fs, n, b);
    forall n', bn' | 0 <= n' < |fs.inodes| && 0 <= bn' < MAXFILE && BlockNo(fs, n', bn') != 0
      ensures BlockNo(fs', n', bn') == BlockNo(fs, n', bn') < |fs.disk|
      ensures fs'.disk[BlockNo(fs, n', bn')] == fs.disk[BlockNo(fs, n', bn')]
    {
      AttachIndMap(l, fs, n, b, n', bn');
    }
  }

  lemma PutKeepsOthers(l: Layout, fs: Fs, b: nat, data: Block, n: nat)
    requires Core(l, fs) && b < |fs.owner| && fs.owner[b].Data? && fs.owner[b].n == n
    ensures KeepsOthers(fs, Put(fs, b, data), n)
  {
    hide BlockNo, Indirect, BitsOk, OwnOk;
    var fs' := Put(fs, b, data);
    forall n', bn' | 0 <= n' < |fs.inodes| && 0 <= bn' < MAXFILE && BlockNo(fs, n', bn') != 0 && n' != n
      ensures BlockNo(fs', n', bn') == BlockNo(fs, n', bn') < |fs.disk|
      ensures fs'.disk[BlockNo(fs, n', bn')] == fs.disk[BlockNo(fs, n', bn')]
    {
      PutMap(l, fs, b, data, n', bn');
    }
  }

  /** A file that is kept reads the same. */
  lemma KeptContent(l: Layout, fs: Fs, fs': Fs, n: nat)
    requires Core(l, fs) && Core(l, fs') && NoHoles(fs) && Keeps(fs, fs', n)
    ensures Content(fs', n) == Content(fs, n)
  {
    hide BlockNo, BitsOk, OwnOk, MapOk;
    forall o | 0 <= o < fs.inodes[n].size ensures ByteOf(fs', n, o) == ByteOf(fs, n, o) {
      assert o / BSIZE * BSIZE <= o && o / BSIZE < MAXFILE;
      assert BlockNo(fs, n, o / BSIZE) != 0;
    }
  }
}
