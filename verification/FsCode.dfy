/** kernel/fs.c and filewrite of kernel/file.c as the code runs them, on top of the logged block
    map: bread and log_write are array accesses, and `logged` collects the blocks that the current
    transaction has passed to log_write. */
module FsCode {
  import opened FsModel
  import opened FsOps
  import opened FsSteps
  import opened FsBudget
  import opened FlatFiles

  class FileSystem {
    const l: Layout
    const disk: array<Block>
    const inodes: array<Inode>
    ghost var owner: seq<Owner>
    var logged: set<nat>
    /** The number of blocks that each file has been asked for since it was last empty. */
    ghost var reach: seq<nat>

    ghost function View(): (fs: Fs)
      reads this, disk, inodes
    {
      Fs(disk[..], inodes[..], owner)
    }

    ghost predicate Valid()
      reads this, disk, inodes
    {
      Inv(l, View()) && |reach| == inodes.Length && Compact(owner, reach)
    }

    /** The state mkfs leaves: metadata blocks marked, everything else free, all inodes empty. */
    constructor (lay: Layout)
      requires LayoutOk(lay)
      ensures l == lay && Valid() && forall n :: 0 <= n < inodes.Length ==> Content(View(), n) == [] && reach[n] == 0
      ensures forall b :: 0 <= b < |owner| ==> owner[b] == if b < l.nmeta then Meta else Free
    {
      l := lay;
      disk := new Block[lay.nblocks](_ => Zeros());
      inodes := new Inode[lay.ninodes](_ => EmptyInode());
      owner := seq(lay.nblocks, b => if b < lay.nmeta then Meta else Free);
      logged, reach := {}, seq(lay.ninodes, _ => 0);
      new;
      hide Zeros, SetBitIn, BitIn, EmptyInode;
      NoneUsed(l, disk[..]);
      var i := 0;
      while i < l.nmeta
        invariant 0 <= i <= l.nmeta && MarkedUpTo(l, disk[..], i)
        modifies disk
      {
        MarkOne(l, disk[..], i);
        disk[BBlock(l, i)] := SetBitIn(disk[BBlock(l, i)], i % BPB, true);
        i := i + 1;
      }
      MkfsInv(l, View());
    }

    /** balloc's inner loop: the first clear bit of the bitmap block for blocks b0.. */
    method FindClear(b0: nat) returns (bi: nat)
      requires Shape(l, View()) && b0 % BPB == 0 && b0 < l.nblocks && AllUsed(l, disk[..], b0)
      ensures bi <= BPB && b0 + bi <= l.nblocks && AllUsed(l, disk[..], b0 + bi)
      ensures bi < BPB && b0 + bi < l.nblocks ==> !Used(l, disk[..], b0 + bi)
    {
      hide BitIn, Shape;
      ShapeLen(l, View());
      InBitmap(l, View(), b0);
      var block := disk[BBlock(l, b0)];
      bi := 0;
      while bi < BPB && b0 + bi < l.nblocks
        invariant 0 <= bi <= BPB && b0 + bi <= l.nblocks && AllUsed(l, disk[..], b0 + bi)
      {
        SameBitmapBlock(l, b0, bi);
        if !BitIn(block, bi) {
          return;
        }
        bi := bi + 1;
      }
    }

    /** Mark the block in use and zero it, logging both. */
    method TakeBlock(b: nat)
      requires Shape(l, View()) && b < l.nblocks && BBlock(l, b) < disk.Length && |disk[BBlock(l, b)]| == BSIZE
      requires b != BBlock(l, b)
      modifies this`owner, this`logged, disk
      ensures View() == Alloc(l, old(View()), b) && logged == old(logged) + {BBlock(l, b), b}
    {
      hide SetBitIn, Zeros;
      assert (b % BPB) / 8 < BSIZE;
      disk[BBlock(l, b)] := SetBitIn(disk[BBlock(l, b)], b % BPB, true);
      logged := logged + {BBlock(l, b)};
      disk[b] := Zeros();
      logged := logged + {b};
      owner := owner[b := Pending];
    }

    /** balloc: the first block whose bit is clear, zeroed; 0 when there is none. */
    method Balloc() returns (b: nat)
      requires Core(l, View())
      modifies this`owner, this`logged, disk
      ensures b == 0 ==> View() == old(View()) && logged == old(logged) && AllUsed(l, disk[..], l.nblocks)
      ensures b != 0 ==> Allocated(l, old(View()), View(), b) && logged == old(logged) + {BBlock(l, b), b}
    {
      hide Core, Used, Allocated, Alloc, Shape, BBlock;
      ghost var fs := View();
      CoreShape(l, fs);
      var b0 := 0;
      while b0 < l.nblocks
        invariant b0 % BPB == 0 && View() == fs && logged == old(logged)
        invariant AllUsed(l, fs.disk, if b0 < l.nblocks then b0 else l.nblocks)
      {
        var bi := FindClear(b0);
        if bi < BPB && b0 + bi < l.nblocks {
          AllocFirst(l, fs, b0 + bi);
          TakeBlock(b0 + bi);
          return b0 + bi;
        }
        b0 := b0 + BPB;
      }
      return 0;
    }

    /** The direct half of bmap. */
    method BmapDirect(n: nat, bn: nat) returns (b: nat, ghost bits: set<nat>)
      requires Core(l, View()) && NoPending(View()) && n < inodes.Length && bn < NDIRECT
      modifies this`owner, this`logged, disk, inodes
      ensures Steady(l, old(View()), View(), n) && BlockNo(View(), n, bn) == b
      ensures Indirect(View(), n) == old(Indirect(View(), n))
      ensures b == 0 ==> AllUsed(l, disk[..], l.nblocks)
      ensures BlockNo(old(View()), n, bn) != 0 ==> View() == old(View()) && logged == old(logged)
      ensures logged <= old(logged) + bits + One(b) && |bits| <= Count(BlockNo(old(View()), n, bn) == 0 && b != 0)
      ensures OwnersGrow(old(owner), owner, n, bn + 1)
    {
      hide Core, BlockNo, Indirect, Steady, Allocated, NoPending, BBlock, AllUsed, CanAttach, OwnersGrow;
      ghost var fs := View();
      CoreAddrs(l, fs, n);
      SteadyRefl(l, fs, n);
      OwnersGrowRefl(owner, n, bn + 1);
      bits := {};
      b := inodes[n].addrs[bn];
      if b == 0 {
        b := Balloc();
        if b == 0 {
          return;
        }
        bits := {BBlock(l, b)};
        AllocAttach(l, fs, View(), n, bn, b);
        inodes[n] := inodes[n].(addrs := inodes[n].addrs[bn := b]);
        owner := owner[b := Data(n, bn)];
        OwnersGrowOne(fs.owner, owner, b, Data(n, bn), n, bn + 1);
      }
    }

    /** bmap loads the indirect block, allocating it if necessary. */
    method BmapIndirect(n: nat) returns (b: nat, ghost bits: set<nat>)
      requires Core(l, View()) && NoPending(View()) && n < inodes.Length
      modifies this`owner, this`logged, disk, inodes
      ensures Steady(l, old(View()), View(), n) && Indirect(View(), n) == b
      ensures forall bn :: 0 <= bn < MAXFILE ==> BlockNo(View(), n, bn) == BlockNo(old(View()), n, bn)
      ensures b == 0 ==> AllUsed(l, disk[..], l.nblocks)
      ensures Indirect(old(View()), n) != 0 ==> View() == old(View()) && logged == old(logged)
      ensures logged <= old(logged) + bits + One(b) && |bits| <= Count(Indirect(old(View()), n) == 0 && b != 0)
      ensures OwnersGrow(old(owner), owner, n, NDIRECT + 1)
    {
      hide Core, BlockNo, Indirect, Steady, Allocated, NoPending, BBlock, AllUsed, OwnersGrow;
      ghost var fs := View();
      CoreAddrs(l, fs, n);
      SteadyRefl(l, fs, n);
      OwnersGrowRefl(owner, n, NDIRECT + 1);
      bits := {};
      b := inodes[n].addrs[NDIRECT];
      if b == 0 {
        b := Balloc();
        if b == 0 {
          return;
        }
        bits := {BBlock(l, b)};
        AllocAttachInd(l, fs, View(), n, b);
        inodes[n] := inodes[n].(addrs := inodes[n].addrs[NDIRECT := b]);
        owner := owner[b := Ind(n)];
        OwnersGrowOne(fs.owner, owner, b, Ind(n), n, NDIRECT + 1);
      }
    }

    /** bmap looks up the entry of the indirect block, allocating a block for it if necessary. */
    method BmapListed(n: nat, bn: nat, ind: nat) returns (b: nat, ghost bits: set<nat>)
      requires Core(l, View()) && NoPending(View()) && n < inodes.Length && NDIRECT <= bn < MAXFILE
      requires ind == Indirect(View(), n) != 0
      modifies this`owner, this`logged, disk
      ensures Steady(l, old(View()), View(), n) && BlockNo(View(), n, bn) == b && Indirect(View(), n) == ind
      ensures b == 0 ==> AllUsed(l, disk[..], l.nblocks)
      ensures BlockNo(old(View()), n, bn) != 0 ==> View() == old(View()) && logged == old(logged)
      ensures logged <= old(logged) + bits + One(b) + {ind}
      ensures |bits| <= Count(BlockNo(old(View()), n, bn) == 0 && b != 0)
      ensures OwnersGrow(old(owner), owner, n, bn + 1)
    {
      hide Core, BlockNo, Indirect, Steady, Allocated, NoPending, BBlock, AllUsed, CanAttach, Word, SetWord, OwnersGrow;
      ghost var fs := View();
      ListedNo(l, fs, n, bn);
      IndBlock(l, fs, n);
      SteadyRefl(l, fs, n);
      OwnersGrowRefl(owner, n, bn + 1);
      bits := {};
      var a := disk[ind];
      b := Word(a, bn - NDIRECT);
      if b == 0 {
        b := Balloc();
        if b != 0 {
          bits := {BBlock(l, b)};
          AllocAttach(l, fs, View(), n, bn, b);
          disk[ind] := SetWord(a, bn - NDIRECT, b);
          logged := logged + {ind};
          owner := owner[b := Data(n, bn)];
          OwnersGrowOne(fs.owner, owner, b, Data(n, bn), n, bn + 1);
        }
      }
    }

    /** bmap(ip, bn); the result is 0 when the disk is full. */
    method Bmap(n: nat, bn: nat) returns (b: nat, ghost bits: set<nat>)
      requires Core(l, View()) && NoPending(View()) && n < inodes.Length && bn < MAXFILE
      modifies this`owner, this`logged, disk, inodes
      ensures Steady(l, old(View()), View(), n) && BlockNo(View(), n, bn) == b
      ensures b == 0 ==> AllUsed(l, disk[..], l.nblocks)
      ensures BlockNo(old(View()), n, bn) != 0 ==> View() == old(View()) && logged == old(logged)
      ensures logged <= old(logged) + bits + One(b) + One(Indirect(View(), n))
      ensures |bits| <= Count(BlockNo(old(View()), n, bn) == 0 && b != 0)
        + Count(Indirect(old(View()), n) == 0 && Indirect(View(), n) != 0)
      ensures OwnersGrow(old(owner), owner, n, bn + 1)
    {
      hide Core, BlockNo, Indirect, Steady, NoPending, AllUsed, OwnersGrow;
      ghost var fs := View();
      if bn < NDIRECT {
        b, bits := BmapDirect(n, bn);
        return;
      }
      HasIndirect(l, fs, n, bn);
      var ind, bits1 := BmapIndirect(n);
      ghost var fs1 := View();
      OwnersGrowMore(fs.owner, owner, n, NDIRECT + 1, bn + 1);
      if ind == 0 {
        HasIndirect(l, fs1, n, bn);
        return 0, bits1;
      }
      SteadyFacts(l, fs, fs1, n);
      ghost var bits2;
      b, bits2 := BmapListed(n, bn, ind);
      SteadyTrans(l, fs, fs1, View(), n);
      OwnersGrowTrans(fs.owner, fs1.owner, owner, n, bn + 1, bn + 1);
      bits := bits1 + bits2;
      UnionSize(bits1, bits2);
    }

    /** bfree; a false result is the panic on a block that is free already. */
    method Bfree(b: nat) returns (ok: bool)
      requires BBlock(l, b) < disk.Length && |disk[BBlock(l, b)]| == BSIZE
      modifies this`logged, disk
      ensures ok <==> Used(l, old(disk[..]), b)
      ensures ok ==> disk[..] == Mark(l, old(disk[..]), b, false)
      ensures !ok ==> disk[..] == old(disk[..])
      ensures logged == old(logged) + if ok then {BBlock(l, b)} else {}
    {
      hide SetBitIn, BitIn;
      assert (b % BPB) / 8 < BSIZE;
      var bp := disk[BBlock(l, b)];
      ok := BitIn(bp, b % BPB);
      if ok {
        disk[BBlock(l, b)] := SetBitIn(bp, b % BPB, false);
        logged := logged + {BBlock(l, b)};
      }
    }

    /** One round of itrunc's first loop: free a direct block and forget it. */
    method FreeDirect(n: nat, i: nat)
      requires Core(l, View()) && n < inodes.Length && i < NDIRECT && BlockNo(View(), n, i) != 0
      modifies this`owner, this`logged, disk, inodes
      ensures Core(l, View()) && DetachOf(l, old(View()), View(), n, i)
    {
      hide Core, Indirect, Used, Mark, BBlock;
      ghost var fs := View();
      DetachReady(l, fs, n, i);
      DetachCore(l, fs, n, i);
      ghost var b := BlockNo(fs, n, i);
      var freed := Bfree(inodes[n].addrs[i]);
      inodes[n] := inodes[n].(addrs := inodes[n].addrs[i := 0]);
      owner := owner[b := Free];
      assert View() == Detach(l, fs, n, i);
    }

    /** The first loop of itrunc. */
    method TruncDirect(n: nat)
      requires Core(l, View()) && NoPending(View()) && n < inodes.Length
      modifies this`owner, this`logged, disk, inodes
      ensures Core(l, View()) && Truncated(l, old(View()), View(), n, NDIRECT)
    {
      hide Core, BlockNo, Indirect, Truncated, DetachOf, NoPending;
      ghost var fs := View();
      NotTruncated(l, fs, n);
      var i := 0;
      while i < NDIRECT
        invariant 0 <= i <= NDIRECT && Core(l, View()) && Truncated(l, fs, View(), n, i)
      {
        ghost var fs1 := View();
        CoreAddrs(l, fs1, n);
        if inodes[n].addrs[i] != 0 {
          FreeDirect(n, i);
          TruncMore(l, fs, fs1, View(), n, i);
        } else {
          TruncSame(l, fs, fs1, n, i);
        }
        i := i + 1;
      }
    }

    /** itrunc, one entry of the indirect block: its block is freed, the entry stays. */
    method FreeListed(n: nat, ind: nat, j: nat, b: nat, ghost sh: Block) returns (ghost sh': Block)
      requires ind < disk.Length && Core(l, Shadow(View(), ind, sh)) && n < inodes.Length && j < NINDIRECT
      requires Indirect(Shadow(View(), ind, sh), n) == ind != 0 && b == Word(sh, j) != 0
      modifies this`owner, this`logged, disk
      ensures Core(l, Shadow(View(), ind, sh')) && |sh'| == BSIZE && disk[ind] == old(disk[ind])
      ensures DetachOf(l, Shadow(old(View()), ind, sh), Shadow(View(), ind, sh'), n, NDIRECT + j)
      ensures forall t :: 0 <= t < NINDIRECT && t != j ==> Word(sh', t) == Word(sh, t)
    {
      hide Core, Indirect, Used, BBlock, Word, SetWord, DetachOf, SetBitIn;
      ghost var fs := View();
      ShadowEntry(l, fs, ind, sh, n, j);
      NotBitmap(l, fs, ind, sh, n, b);
      var freed := Bfree(b);
      owner := owner[b := Free];
      sh' := SetWord(sh, j, 0);
      assert Shadow(View(), ind, sh') == ShadowFreed(l, fs, ind, sh, j);
      forall t | 0 <= t < NINDIRECT && t != j ensures Word(sh', t) == Word(sh, t) {
        SetWordAt(sh, j, 0, t);
      }
    }

    /** The second loop of itrunc. */
    method TruncListed(n: nat, ghost fs: Fs) returns (ghost sh: Block)
      requires Core(l, View()) && Truncated(l, fs, View(), n, NDIRECT) && n < inodes.Length && Indirect(View(), n) != 0
      modifies this`owner, this`logged, disk
      ensures Indirect(View(), n) == old(Indirect(View(), n)) < disk.Length && |disk[Indirect(View(), n)]| == BSIZE
      ensures Core(l, Shadow(View(), Indirect(View(), n), sh))
      ensures Truncated(l, fs, Shadow(View(), Indirect(View(), n), sh), n, MAXFILE)
    {
      hide Core, BlockNo, Truncated, DetachOf, Word;
      IndBlock(l, View(), n);
      CoreAddrs(l, View(), n);
      var ind := inodes[n].addrs[NDIRECT];
      ShadowSelf(View(), ind);
      var a := disk[ind];
      sh := a;
      var j := 0;
      while j < NINDIRECT
        invariant 0 <= j <= NINDIRECT && Core(l, Shadow(View(), ind, sh)) && |sh| == BSIZE && disk[ind] == a
        invariant Truncated(l, fs, Shadow(View(), ind, sh), n, NDIRECT + j)
        invariant forall t :: j <= t < NINDIRECT ==> Word(sh, t) == Word(a, t)
      {
        ghost var v := Shadow(View(), ind, sh);
        if Word(a, j) != 0 {
          sh := FreeListed(n, ind, j, Word(a, j), sh);
          TruncMore(l, fs, v, Shadow(View(), ind, sh), n, NDIRECT + j);
        } else {
          ShadowNone(l, View(), ind, sh, n, j);
          TruncSame(l, fs, v, n, NDIRECT + j);
        }
        j := j + 1;
      }
    }

    /** Free the indirect block itself and forget it. */
    method FreeIndirect(n: nat)
      requires n < inodes.Length && |inodes[n].addrs| == NDIRECT + 1 && Indirect(View(), n) < |owner|
      requires Used(l, disk[..], Indirect(View(), n))
      requires BBlock(l, Indirect(View(), n)) < disk.Length && |disk[BBlock(l, Indirect(View(), n))]| == BSIZE
      modifies this`owner, this`logged, disk, inodes
      ensures View() == DetachInd(l, old(View()), n)
    {
      hide Used, Mark, BBlock;
      var b := inodes[n].addrs[NDIRECT];
      var freed := Bfree(b);
      inodes[n] := inodes[n].(addrs := inodes[n].addrs[NDIRECT := 0]);
      owner := owner[b := Free];
    }

    /** itrunc up to its iupdate. */
    method FreeBlocks(n: nat)
      requires Core(l, View()) && NoPending(View()) && n < inodes.Length
      modifies this`owner, this`logged, disk, inodes
      ensures Emptied(l, old(View()), View(), n)
    {
      hide Core, BlockNo, Indirect, Truncated, Emptied, Used, BBlock, NoPending;
      ghost var fs := View();
      TruncDirect(n);
      CoreAddrs(l, View(), n);
      TruncInd(l, fs, View(), n);
      if inodes[n].addrs[NDIRECT] != 0 {
        ghost var sh := TruncListed(n, fs);
        EmptiedIndirect(l, fs, View(), Indirect(fs, n), sh, n);
        FreeIndirect(n);
      } else {
        EmptiedDirect(l, fs, View(), n);
      }
    }

    /** Set the size and write the inode to disk. */
    method SetSize(n: nat, size: nat, ghost fs0: Fs)
      requires CanFinish(l, fs0, View(), n, size)
      modifies this`logged, disk, inodes
      ensures Finished(l, fs0, old(View()), View(), n, size) && logged == old(logged) + {IBlock(l, n)}
    {
      hide CanFinish, Finished, PutWords, IBlock;
      ghost var fs := View();
      FinishInv(l, fs0, fs, n, size);
      ReadyLen(l, fs0, fs, n, size);
      inodes[n] := inodes[n].(size := size);
      var ws := [inodes[n].size] + inodes[n].addrs;
      disk[IBlock(l, n)] := PutWords(disk[IBlock(l, n)], 16 * (n % IPB) + 2, ws);
      logged := logged + {IBlock(l, n)};
      assert View() == Iupdated(l, Resize(fs, n, size), n);
    }

    /** itrunc: precisely the blocks of inode n become free, and the file is empty. */
    method Itrunc(n: nat)
      requires Inv(l, View()) && n < inodes.Length
      modifies this`owner, this`logged, disk, inodes
      ensures Inv(l, View()) && inodes[n].size == 0 && Content(View(), n) == []
      ensures forall b :: 0 <= b < |owner| == |old(owner)| ==>
        owner[b] == if Owns(old(owner)[b], n) then Free else old(owner)[b]
      ensures |owner| == |old(owner)|
      ensures forall n' :: 0 <= n' < inodes.Length && n' != n ==> Content(View(), n') == old(Content(View(), n'))
    {
      hide Core, BlockNo, Indirect, Synced, NoHoles, NoPending, Emptied, CanFinish, Finished, Content;
      ghost var fs := View();
      FreeBlocks(n);
      EmptiedFinish(l, fs, View(), n);
      ghost var fs1 := View();
      SetSize(n, 0, fs);
      FinishedFacts(l, fs, fs1, View(), n, 0);
    }

    /** One round of readi: bmap, bread and the slice to copy. */
    method ReadChunk(n: nat, cur: nat, m: nat) returns (chunk: seq<Byte>)
      requires Inv(l, View()) && n < inodes.Length && cur < inodes[n].size && cur + m <= inodes[n].size
      requires cur % BSIZE + m <= BSIZE
      modifies this`owner, this`logged, disk, inodes
      ensures View() == old(View()) && logged == old(logged) && |chunk| == m
      ensures cur + m <= |Content(View(), n)| && chunk == Content(View(), n)[cur..cur + m]
    {
      hide Core, BlockNo, Indirect, Synced, NoHoles, Content, Steady, One;
      ghost var fs := View();
      ContentLen(fs, n);
      BelowSize(l, fs, n, cur);
      var b, bits := Bmap(n, cur / BSIZE);
      ContentChunk(l, fs, n, cur, m);
      chunk := disk[b][cur % BSIZE..cur % BSIZE + m];
    }

    /** readi(ip, dst, off, cnt), where the first `room` bytes of dst can be written. The bytes are
        what arrived; -1 is the error of a failed copy. Nothing is ever allocated. */
    method Readi(n: nat, off: nat, cnt: nat, room: nat) returns (tot: int, bytes: seq<Byte>)
      requires Inv(l, View()) && n < inodes.Length && off < UINT && cnt < UINT
      modifies this`owner, this`logged, disk, inodes
      ensures View() == old(View()) && logged == old(logged)
      ensures off > inodes[n].size || off + cnt >= UINT ==> tot == 0 && bytes == []
      ensures off <= inodes[n].size && off + cnt < UINT ==>
        var want := if off + cnt > inodes[n].size then inodes[n].size - off else cnt;
        && (tot == -1 <==> room < want) && (tot != -1 ==> tot == |bytes| == want)
        && |bytes| <= want && bytes == Content(View(), n)[off..off + |bytes|]
    {
      hide Core, BlockNo, Indirect, Synced, NoHoles, NoPending, Content, Steady, One;
      ghost var fs := View();
      bytes := [];
      if off > inodes[n].size || (off + cnt) % UINT < off {
        return 0, bytes;
      }
      var want := cnt;
      if off + cnt > inodes[n].size {
        want := inodes[n].size - off;
      }
      ContentLen(fs, n);
      while |bytes| < want
        invariant View() == fs && logged == old(logged) && |bytes| <= want && |bytes| <= room
        invariant bytes == Content(fs, n)[off..off + |bytes|]
      {
        var cur := off + |bytes|;
        var m := BSIZE - cur % BSIZE;
        if want - |bytes| < m {
          m := want - |bytes|;
        }
        var chunk := ReadChunk(n, cur, m);
        if |bytes| + m > room {
          return -1, bytes;
        }
        JoinSlices(Content(fs, n), off, cur, cur + m);
        bytes := bytes + chunk;
      }
      tot := |bytes|;
    }

    /** One round of writei: bmap, copy, log_write. False when the disk is full or the copy fails. */
    method WriteChunk(n: nat, off: nat, cur: nat, m: nat, src: seq<Byte>, ghost fs0: Fs)
      returns (ok: bool, b: nat, ghost bits: set<nat>)
      requires Writing(l, fs0, View(), n, off, cur, src) && 0 < m <= BSIZE - cur % BSIZE && cur + m <= MAXFILE * BSIZE
      modifies this`owner, this`logged, disk, inodes
      ensures Writing(l, fs0, View(), n, off, if ok then cur + m else cur, src)
      ensures ok ==> cur + m - off <= |src|
      ensures logged <= old(logged) + bits + One(b) + One(Indirect(View(), n)) && (ok ==> b != 0)
      ensures |bits| <= Count(BlockNo(old(View()), n, cur / BSIZE) == 0)
        + Count(Indirect(old(View()), n) == 0 && Indirect(View(), n) != 0)
      ensures b == 0 ==> |bits| <= Count(Indirect(old(View()), n) == 0 && Indirect(View(), n) != 0)
      ensures Indirect(old(View()), n) != 0 ==> Indirect(View(), n) == Indirect(old(View()), n)
      ensures !ok ==> cur + m - off > |src| || (AllUsed(l, disk[..], l.nblocks) && Data(n, cur / BSIZE) !in owner)
      ensures OwnersGrow(old(owner), owner, n, cur / BSIZE + 1)
    {
      hide BlockNo, Indirect, Steady, Writing, AllUsed, Overwrite, OwnersGrow, Core, NoPending;
      ghost var fs := View();
      WritingFacts(l, fs0, fs, n, off, cur, src);
      b, bits := Bmap(n, cur / BSIZE);
      ghost var fs1 := View();
      WritingSteady(l, fs0, fs, fs1, n, off, cur, src);
      if b == 0 {
        WritingFacts(l, fs0, fs1, n, off, cur, src);
        MissingBlock(l, fs1, n, cur / BSIZE);
        return false, 0, bits;
      }
      if cur + m - off > |src| {
        return false, b, bits;
      }
      WritingPut(l, fs0, fs1, n, off, cur, m, src);
      disk[b] := Overwrite(disk[b], cur % BSIZE, src[cur - off..cur + m - off]);
      logged := logged + {b};
      ok := true;
    }

    /** writei's loop. `datas` and `bits` are the data and bitmap blocks it logged. */
    method WriteLoop(n: nat, off: nat, cnt: nat, src: seq<Byte>)
      returns (tot: nat, ghost datas: set<nat>, ghost bits: set<nat>)
      requires Inv(l, View()) && n < inodes.Length && off <= inodes[n].size && off + cnt <= MAXFILE * BSIZE
      modifies this`owner, this`logged, disk, inodes
      ensures tot <= cnt && Writing(l, old(View()), View(), n, off, off + tot, src)
      ensures tot <= Stored(off, cnt, |src|)
      ensures tot < Stored(off, cnt, |src|) ==>
        AllUsed(l, disk[..], l.nblocks) && Data(n, (off + tot) / BSIZE) !in owner
      ensures OwnersGrow(old(owner), owner, n, Touches(off, cnt, tot))
      ensures logged <= old(logged) + datas + bits + One(Indirect(View(), n))
      ensures |datas| <= Touched(off, cnt) && |bits| <= Touched(off, cnt) - Count(off % BSIZE != 0 && cnt > 0) + 1
    {
      hide BlockNo, Indirect, Writing, AllUsed, Inv, One, Budget, Touched, Fresh, Count, Shape, Core, OwnersGrow,
        Stored;
      ghost var fs0 := View();
      OwnersGrowRefl(owner, n, (off + BSIZE - 1) / BSIZE);
      StartWriting(l, fs0, n, off, src);
      tot, datas, bits := 0, {}, {};
      NothingLogged(off, cnt, Indirect(fs0, n));
      while tot < cnt
        invariant 0 <= tot <= cnt && Writing(l, fs0, View(), n, off, off + tot, src)
        invariant 0 < tot < cnt ==> (off + tot) % BSIZE == 0
        invariant OwnersGrow(fs0.owner, owner, n, (off + tot + BSIZE - 1) / BSIZE)
        invariant logged <= old(logged) + datas + bits + One(Indirect(View(), n))
        invariant Budget(datas, bits, off, tot, Indirect(fs0, n), Indirect(View(), n))
        invariant |datas| <= Touched(off, cnt) && |bits| <= Touched(off, cnt) - Count(off % BSIZE != 0 && cnt > 0) + 1
      {
        var m := BSIZE - (off + tot) % BSIZE;
        if cnt - tot < m {
          m := cnt - tot;
        }
        ghost var fs, datas0, bits0, bits1 := View(), datas, bits, {};
        FirstBlockExists(l, fs0, fs, n, off, tot, src);
        var ok, b;
        ok, b, bits1 := WriteChunk(n, off, off + tot, m, src, fs0);
        TouchesMore(off, tot, m);
        OwnersGrowTrans(fs0.owner, fs.owner, owner, n, (off + tot + BSIZE - 1) / BSIZE, (off + tot) / BSIZE + 1);
        datas, bits := datas + One(b), bits + bits1;
        BudgetStep(datas0, bits0, b, bits1, off, tot, m, cnt, Indirect(fs0, n), Indirect(fs, n), Indirect(View(), n),
                   BlockNo(fs, n, (off + tot) / BSIZE) == 0);
        if !ok {
          WritingFacts(l, fs0, View(), n, off, off + tot, src);
          StoredBound(off, cnt, |src|, tot);
          if tot + m > |src| {
            StoredStop(off, cnt, |src|, tot, m);
          }
          return;
        }
        OwnersGrowMore(fs0.owner, owner, n, (off + tot) / BSIZE + 1, (off + tot + m + BSIZE - 1) / BSIZE);
        tot := tot + m;
      }
      WritingFacts(l, fs0, View(), n, off, off + tot, src);
      StoredBound(off, cnt, |src|, tot);
    }

    /** writei(ip, src, off, cnt), where `src` are the readable bytes at the user address: -1, or the
        number of bytes written. */
    method Writei(n: nat, off: nat, cnt: nat, src: seq<Byte>)
      returns (tot: int, ghost datas: set<nat>, ghost bits: set<nat>)
      requires Inv(l, View()) && n < inodes.Length && off < UINT && cnt < UINT
      modifies this`owner, this`logged, disk, inodes
      ensures Inv(l, View())
      ensures tot == -1 <==> off > old(inodes[n]).size || off + cnt >= UINT || off + cnt > MAXFILE * BSIZE
      ensures tot == -1 ==> View() == old(View()) && logged == old(logged)
      ensures tot != -1 ==> 0 <= tot <= cnt && tot <= |src| && off <= |old(Content(View(), n))|
      ensures tot != -1 ==> Content(View(), n) == Splice(old(Content(View(), n)), off, src[..tot])
      ensures tot != -1 ==> tot <= Stored(off, cnt, |src|)
      ensures 0 <= tot < Stored(off, cnt, |src|) ==> DiskFull(View()) && Data(n, (off + tot) / BSIZE) !in owner
      ensures tot >= 0 ==> OwnersGrow(old(owner), owner, n, Touches(off, cnt, tot))
      ensures tot == -1 ==> owner == old(owner)
      ensures forall n' :: 0 <= n' < inodes.Length && n' != n ==> Content(View(), n') == old(Content(View(), n'))
      ensures tot != -1 ==>
        && logged <= old(logged) + datas + bits + One(Indirect(View(), n)) + {IBlock(l, n)}
        && |datas| <= Touched(off, cnt) && |bits| <= Touched(off, cnt) - Count(off % BSIZE != 0 && cnt > 0) + 1
    {
      hide Core, BlockNo, Indirect, NoPending, NoHoles, Synced, Content, Writing, CanFinish, Finished, Touched, Count,
        One, AllUsed, Splice, IBlock, OwnersGrow, DiskFull, Touches, Stored;
      ghost var fs0 := View();
      ContentLen(fs0, n);
      datas, bits := {}, {};
      if off > inodes[n].size || (off + cnt) % UINT < off {
        return -1, {}, {};
      }
      if off + cnt > MAXFILE * BSIZE {
        return -1, {}, {};
      }
      tot, datas, bits := WriteLoop(n, off, cnt, src);
      ghost var fs := View();
      WritingFinish(l, fs0, fs, n, off, off + tot, src);
      SetSize(n, if off + tot > inodes[n].size then off + tot else inodes[n].size, fs0);
      WritingContent(l, fs0, fs, View(), n, off, off + tot, src);
      StillFull(l, fs0, fs, View(), n, off, off + tot, src);
    }

    /** writei of one transaction, with the number of blocks asked for. */
    method WriteStep(n: nat, off: nat, cnt: nat, src: seq<Byte>)
      returns (tot: int, ghost datas: set<nat>, ghost bits: set<nat>)
      requires Valid() && n < inodes.Length && off < UINT && cnt < UINT
      modifies this`owner, this`logged, this`reach, disk, inodes
      ensures Valid()
      ensures tot == -1 || 0 <= tot <= cnt
      ensures reach == if tot == -1 then old(reach) else Reached(old(reach), n, Touches(off, cnt, tot))
      ensures tot == -1 <==> off > |old(Content(View(), n))| || off + cnt >= UINT || off + cnt > MAXFILE * BSIZE
      ensures tot == -1 ==> View() == old(View()) && logged == old(logged)
      ensures tot != -1 ==> 0 <= tot <= cnt && tot <= |src| && off <= |old(Content(View(), n))|
      ensures tot != -1 ==> Content(View(), n) == Splice(old(Content(View(), n)), off, src[..tot])
      ensures tot != -1 ==> tot <= Stored(off, cnt, |src|)
      ensures 0 <= tot < Stored(off, cnt, |src|) ==> l.nblocks - l.nmeta < Need(reach)
      ensures forall n' :: 0 <= n' < inodes.Length && n' != n ==> Content(View(), n') == old(Content(View(), n'))
      ensures tot != -1 ==>
        && logged <= old(logged) + datas + bits + One(Indirect(View(), n)) + {IBlock(l, n)}
        && |datas| <= Touched(off, cnt) && |bits| <= Touched(off, cnt) - Count(off % BSIZE != 0 && cnt > 0) + 1
    {
      hide Core, NoPending, NoHoles, Synced, Content, Splice, Touched, Count, One, IBlock, Indirect, OwnersGrow,
        DiskFull, Compact, Need, BlockNo;
      ContentLen(View(), n);
      ghost var fs := View();
      tot, datas, bits := Writei(n, off, cnt, src);
      if tot != -1 {
        CompactGrow(fs.owner, owner, reach, n, Touches(off, cnt, tot));
        reach := Reached(reach, n, Touches(off, cnt, tot));
        if tot < Stored(off, cnt, |src|) {
          FullMeansShort(l, View(), reach, Data(n, (off + tot) / BSIZE));
        }
      }
    }

    /** The inode branch of filewrite. Every chunk is one transaction; `most` is the largest number of
        blocks that any of them logged. With a range that fits a file and readable data it fails only
        if the disk has fewer blocks than the files need. */
    method Filewrite(n: nat, off: nat, cnt: int, src: seq<Byte>) returns (ret: int, off': nat, ghost most: nat)
      requires Valid() && n < inodes.Length && off < UINT && cnt < 0x8000_0000
      modifies this`owner, this`logged, this`reach, disk, inodes
      ensures Valid() && most <= MAXOPBLOCKS
      ensures off <= off' <= off + |src| && (ret == cnt || ret == -1)
      ensures off' > off ==> off <= |old(Content(View(), n))|
      ensures Content(View(), n) ==
        if off' == off then old(Content(View(), n)) else Splice(old(Content(View(), n)), off, src[..off' - off])
      ensures ret == cnt && cnt >= 0 ==> off' == off + cnt
      ensures cnt < 0 ==> ret == -1
      ensures cnt > 0 && (off > |old(Content(View(), n))| || off + cnt > MAXFILE * BSIZE || |src| < cnt) ==> ret == -1
      ensures ret == -1 && cnt >= 0 ==>
        || off > |old(Content(View(), n))| || off + cnt > MAXFILE * BSIZE || |src| < cnt
        || l.nblocks - l.nmeta < Need(reach)
      ensures forall n' :: 0 <= n' < inodes.Length && n' != n ==> Content(View(), n') == old(Content(View(), n'))
    {
      hide Inv, Content, Splice, Touched, Count, One, AllUsed, IBlock, Indirect, Compact, Need, Touches;
      ghost var c0 := Content(View(), n);
      var max := (MAXOPBLOCKS - 1 - 1 - 2) / 2 * BSIZE;
      var i := 0;
      off', most := off, 0;
      while i < cnt
        invariant 0 <= i && (i <= cnt || i == 0) && off' == off + i && i <= |src| && Valid()
        invariant most <= MAXOPBLOCKS
        invariant i > 0 ==> off <= |c0| && off' <= MAXFILE * BSIZE
        invariant Content(View(), n) == if i == 0 then c0 else Splice(c0, off, src[..i])
        invariant forall n' :: 0 <= n' < inodes.Length && n' != n ==> Content(View(), n') == old(Content(View(), n'))
      {
        var n1 := cnt - i;
        if n1 > max {
          n1 := max;
        }
        logged := {};
        if i > 0 {
          SpliceLen(c0, off, src, i);
        }
        var r, datas, bits := WriteStep(n, off', n1, src[i..]);
        if r != -1 {
          ChunkBudget(off', n1, datas, bits, Indirect(View(), n), IBlock(l, n), logged);
          SpliceMore(c0, off, src, i, r);
        }
        most := if |logged| > most then |logged| else most;
        if r > 0 {
          off' := off' + r;
        }
        if r != n1 {
          break;
        }
        i := i + r;
      }
      ret := if i == cnt then cnt else -1;
    }

    /** All files as flat byte arrays. */
    ghost function Contents(): (f: Files)
      reads this, disk, inodes
    {
      Files(seq(inodes.Length, n requires 0 <= n < inodes.Length reads this, disk, inodes => Content(View(), n)), reach)
    }

    /** One file operation. */
    method Step(op: FileOp) returns (out: FileOut)
      requires Valid()
      modifies this`owner, this`logged, this`reach, disk, inodes
      ensures Valid() && Answers(old(Contents()), op, out, l.nblocks - l.nmeta)
      ensures Contents() == After(old(Contents()), op, out)
    {
      hide Inv, Content, Splice, Touched, Count, One, IBlock, Indirect, Compact, Need, Touches;
      ghost var fs := View();
      SizesAre(fs);
      if op.n >= inodes.Length || (!op.Trunc? && (op.off >= UINT || op.cnt >= UINT)) {
        return FileOut(-1, []);
      }
      match op {
        case Write(n, off, cnt, src) =>
          var tot, datas, bits := WriteStep(n, off, cnt, src);
          out := FileOut(tot, []);
          assert tot != -1 ==> Contents().data[n] == Splice(old(Contents()).data[n], off, src[..tot]);
        case Read(n, off, cnt, room) =>
          var tot, bytes := Readi(n, off, cnt, room);
          out := FileOut(tot, bytes);
          assert Contents().data[n] == Content(View(), n);
        case Trunc(n) =>
          Itrunc(n);
          ghost var fs1 := View();
          CompactTrunc(fs.owner, owner, reach, n);
          reach := reach[n := 0];
          assert View() == fs1;
          out := FileOut(0, []);
          assert Contents().data[n] == [];
      }
    }

    /** The file system behaves as flat byte arrays over every run of writes, reads and truncations. */
    method Run(ops: seq<FileOp>) returns (outs: seq<FileOut>)
      requires Valid()
      modifies this`owner, this`logged, this`reach, disk, inodes
      ensures Valid() && |outs| == |ops|
      ensures AnswersAll(old(Contents()), ops, outs, l.nblocks - l.nmeta)
      ensures Contents() == AfterAll(old(Contents()), ops, outs)
    {
      hide Inv, Answers, After, Compact;
      ghost var files := Contents();
      outs := [];
      while |outs| < |ops|
        invariant Valid() && |outs| <= |ops|
        invariant AnswersAll(files, ops[..|outs|], outs, l.nblocks - l.nmeta)
        invariant Contents() == AfterAll(files, ops[..|outs|], outs)
      {
        var out := Step(ops[|outs|]);
        RunMore(files, ops, outs, |outs|, out, l.nblocks - l.nmeta);
        outs := outs + [out];
      }
      assert ops[..|ops|] == ops;
    }
  }
}
