/** The block layer of the file system (kernel/fs.c) as a value: disk blocks as bytes, the bitmap
    and the inode table inside them, and the in-memory inodes. `owner` records what each block is
    allocated for; the bits, the inodes and the indirect blocks have to agree with it. */
module FsModel {

  const BSIZE := 1024
  const NDIRECT := 12
  const NINDIRECT := 256
  const MAXFILE := NDIRECT + NINDIRECT
  /** Bitmap bits per block. */
  const BPB := BSIZE * 8
  /** Inodes per block: a dinode is 64 bytes, 16 words. */
  const IPB := 16
  const UINT := 0x1_0000_0000

  type Byte = b: int | 0 <= b < 256
  type Block = seq<Byte>

  /** The superblock's numbers. */
  datatype Layout = Layout(nblocks: nat, nmeta: nat, inodestart: nat, bmapstart: nat, ninodes: nat)

  ghost predicate LayoutOk(l: Layout) {
    && 2 <= l.inodestart && l.inodestart + l.ninodes / IPB + 1 <= l.bmapstart
    && l.bmapstart + l.nblocks / BPB + 1 <= l.nmeta <= l.nblocks < 0x8000_0000
  }

  datatype Inode = Inode(addrs: seq<nat>, size: nat)

  datatype Owner = Free | Meta | Pending | Data(n: nat, bn: nat) | Ind(n: nat)

  datatype Fs = Fs(disk: seq<Block>, inodes: seq<Inode>, owner: seq<Owner>)

  // ---- bytes, words and bits -----------------------------------------------------------------------

  function Zeros(): (b: Block) {
    seq(BSIZE, _ => 0)
  }

  /** The i-th little-endian word of a block. */
  function Word(b: Block, i: nat): (w: nat)
    ensures w < UINT
  {
    if |b| == BSIZE && i < NINDIRECT then
      (b[4 * i] as int) + 256 * (b[4 * i + 1] as int) + 65536 * (b[4 * i + 2] as int) + 16777216 * (b[4 * i + 3] as int)
    else 0
  }

  function SetWord(b: Block, i: nat, w: nat): (r: Block)
    requires |b| == BSIZE && i < NINDIRECT && w < UINT
    ensures |r| == BSIZE
  {
    b[4 * i := w % 256][4 * i + 1 := w / 256 % 256][4 * i + 2 := w / 65536 % 256][4 * i + 3 := w / 16777216]
  }

  lemma SetWordAt(b: Block, i: nat, w: nat, j: nat)
    requires |b| == BSIZE && i < NINDIRECT && w < UINT && j < NINDIRECT
    ensures Word(SetWord(b, i, w), j) == if j == i then w else Word(b, j)
  {
    if j == i {
      Digits(w);
    }
  }

  lemma Digits(w: nat)
    requires w < UINT
    ensures w / 16777216 < 256
    ensures w == w % 256 + 256 * (w / 256 % 256) + 65536 * (w / 65536 % 256) + 16777216 * (w / 16777216)
  {
    assert w / 65536 == w / 256 / 256 && w / 16777216 == w / 65536 / 256;
  }

  lemma ZeroWord(i: nat)
    ensures Word(Zeros(), i) == 0
  {
  }

  /** Bit k of d. */
  predicate Bit(d: nat, k: nat) {
    if k == 0 then d % 2 == 1 else Bit(d / 2, k - 1)
  }

  /** d with bit k set or cleared. */
  function WithBit(d: nat, k: nat, on: bool): (r: nat) {
    if k == 0 then d / 2 * 2 + (if on then 1 else 0) else WithBit(d / 2, k - 1, on) * 2 + d % 2
  }

  /** Changing one bit leaves the others alone. */
  lemma {:induction false} WithBitAt(d: nat, k: nat, on: bool, j: nat)
    ensures Bit(WithBit(d, k, on), j) == if j == k then on else Bit(d, j)
  {
    if k > 0 {
      assert WithBit(d, k, on) / 2 == WithBit(d / 2, k - 1, on);
      if j > 0 {
        WithBitAt(d / 2, k - 1, on, j - 1);
      }
    } else {
      assert WithBit(d, 0, on) / 2 == d / 2;
    }
  }

  function Power(k: nat): (p: nat) {
    if k == 0 then 1 else 2 * Power(k - 1)
  }

  /** A byte stays a byte. */
  lemma {:induction false} WithBitBound(d: nat, k: nat, on: bool, n: nat)
    requires k < n && d < Power(n)
    ensures WithBit(d, k, on) < Power(n)
  {
    if k > 0 {
      WithBitBound(d / 2, k - 1, on, n - 1);
    }
  }

  // ---- the bitmap ------------------------------------------------------------------------------------

  predicate BitIn(block: Block, bi: nat) {
    bi / 8 < |block| && Bit(block[bi / 8], bi % 8)
  }

  function SetBitIn(block: Block, bi: nat, on: bool): (r: Block)
    requires bi / 8 < |block|
    ensures |r| == |block|
  {
    assert Power(8) == 256;
    WithBitBound(block[bi / 8], bi % 8, on, 8);
    block[bi / 8 := WithBit(block[bi / 8], bi % 8, on)]
  }

  lemma SetBitInAt(block: Block, bi: nat, on: bool, bj: nat)
    requires bi / 8 < |block| && bj / 8 < |block|
    ensures BitIn(SetBitIn(block, bi, on), bj) == if bj == bi then on else BitIn(block, bj)
  {
    WithBitAt(block[bi / 8], bi % 8, on, bj % 8);
    assert bi == bi / 8 * 8 + bi % 8 && bj == bj / 8 * 8 + bj % 8;
  }

  /** Block of the free map that contains the bit for block b. */
  function BBlock(l: Layout, b: nat): (r: nat) {
    b / BPB + l.bmapstart
  }

  predicate Used(l: Layout, disk: seq<Block>, b: nat) {
    BBlock(l, b) < |disk| && BitIn(disk[BBlock(l, b)], b % BPB)
  }

  function Mark(l: Layout, disk: seq<Block>, b: nat, on: bool): (r: seq<Block>)
    requires BBlock(l, b) < |disk| && |disk[BBlock(l, b)]| == BSIZE
    ensures |r| == |disk|
  {
    disk[BBlock(l, b) := SetBitIn(disk[BBlock(l, b)], b % BPB, on)]
  }

  /** One bit of the map changes. */
  lemma MarkAt(l: Layout, disk: seq<Block>, b: nat, on: bool, c: nat)
    requires BBlock(l, b) < |disk| && |disk[BBlock(l, b)]| == BSIZE && BBlock(l, c) < |disk|
    requires |disk[BBlock(l, c)]| == BSIZE
    ensures Used(l, Mark(l, disk, b, on), c) == if c == b then on else Used(l, disk, c)
  {
    if BBlock(l, c) == BBlock(l, b) {
      assert c % BPB < BPB && b % BPB < BPB;
      SetBitInAt(disk[BBlock(l, b)], b % BPB, on, c % BPB);
      assert b == b / BPB * BPB + b % BPB && c == c / BPB * BPB + c % BPB;
    }
  }

  // ---- inodes -------------------------------------------------------------------------------------------

  /** Block containing inode n. */
  function IBlock(l: Layout, n: nat): (r: nat) {
    n / IPB + l.inodestart
  }

  /** The dinode of n: words 2 (size) and 3..15 (addrs) of its 16-word slot. */
  function DiskInode(l: Layout, disk: seq<Block>, n: nat): (i: Inode) {
    var block := if IBlock(l, n) < |disk| then disk[IBlock(l, n)] else [];
    var slot := 16 * (n % IPB);
    Inode(seq<nat>(NDIRECT + 1, i requires 0 <= i => Word(block, slot + 3 + i)), Word(block, slot + 2))
  }

  function Indirect(fs: Fs, n: nat): (b: nat) {
    if n < |fs.inodes| && |fs.inodes[n].addrs| == NDIRECT + 1 then fs.inodes[n].addrs[NDIRECT] else 0
  }

  /** The block that holds file block bn of inode n; 0 when there is none. */
  function BlockNo(fs: Fs, n: nat, bn: nat): (b: nat) {
    if n >= |fs.inodes| || |fs.inodes[n].addrs| != NDIRECT + 1 then 0
    else if bn < NDIRECT then fs.inodes[n].addrs[bn]
    else if Indirect(fs, n) == 0 || Indirect(fs, n) >= |fs.disk| then 0
    else Word(fs.disk[Indirect(fs, n)], bn - NDIRECT)
  }

  ghost predicate Shape(l: Layout, fs: Fs) {
    && LayoutOk(l) && |fs.disk| == |fs.owner| == l.nblocks && |fs.inodes| == l.ninodes
    && (forall b :: 0 <= b < |fs.disk| ==> |fs.disk[b]| == BSIZE)
    && (forall n :: 0 <= n < |fs.inodes| ==>
         |fs.inodes[n].addrs| == NDIRECT + 1 && fs.inodes[n].size <= MAXFILE * BSIZE)
  }

  /** The bitmap marks exactly the metadata and the owned blocks. */
  ghost predicate BitsOk(l: Layout, fs: Fs) {
    forall b :: 0 <= b < |fs.owner| ==>
      && (Used(l, fs.disk, b) <==> fs.owner[b] != Free) && (b < l.nmeta <==> fs.owner[b] == Meta)
  }

  /** Inodes and indirect blocks lead to blocks that are theirs: no block is reached twice. */
  ghost predicate MapOk(fs: Fs) {
    && (forall n, bn :: 0 <= n < |fs.inodes| && 0 <= bn < MAXFILE && BlockNo(fs, n, bn) != 0 ==>
          BlockNo(fs, n, bn) < |fs.owner| && fs.owner[BlockNo(fs, n, bn)] == Data(n, bn))
    && (forall n :: 0 <= n < |fs.inodes| && Indirect(fs, n) != 0 ==>
          Indirect(fs, n) < |fs.owner| && fs.owner[Indirect(fs, n)] == Ind(n))
  }

  /** Owned blocks are reached: nothing is lost. */
  ghost predicate OwnOk(fs: Fs) {
    forall b :: 0 <= b < |fs.owner| ==>
      && (fs.owner[b].Data? ==>
            fs.owner[b].n < |fs.inodes| && fs.owner[b].bn < MAXFILE && BlockNo(fs, fs.owner[b].n, fs.owner[b].bn) == b)
      && (fs.owner[b].Ind? ==> fs.owner[b].n < |fs.inodes| && Indirect(fs, fs.owner[b].n) == b)
  }

  ghost predicate Core(l: Layout, fs: Fs) {
    Shape(l, fs) && BitsOk(l, fs) && MapOk(fs) && OwnOk(fs)
  }

  /** Every block below the size of an inode exists. */
  ghost predicate NoHoles(fs: Fs) {
    forall n, bn :: 0 <= n < |fs.inodes| && 0 <= bn && bn * BSIZE < fs.inodes[n].size ==> BlockNo(fs, n, bn) != 0
  }

  ghost predicate NoPending(fs: Fs) {
    forall b :: 0 <= b < |fs.owner| ==> fs.owner[b] != Pending
  }

  ghost predicate Synced(l: Layout, fs: Fs) {
    forall n :: 0 <= n < |fs.inodes| ==> DiskInode(l, fs.disk, n) == fs.inodes[n]
  }

  /** What holds between file-system calls. */
  ghost predicate Inv(l: Layout, fs: Fs) {
    Core(l, fs) && NoPending(fs) && NoHoles(fs) && Synced(l, fs)
  }

  // ---- files ----------------------------------------------------------------------------------------------

  /** Byte o of the file. */
  ghost function ByteOf(fs: Fs, n: nat, o: nat): (b: Byte) {
    var blk := BlockNo(fs, n, o / BSIZE);
    if blk < |fs.disk| && |fs.disk[blk]| == BSIZE then fs.disk[blk][o % BSIZE] else 0
  }

  /** An inode as a flat byte array. */
  ghost function Content(fs: Fs, n: nat): (c: seq<Byte>)
    requires n < |fs.inodes|
  {
    seq(fs.inodes[n].size, o requires 0 <= o => ByteOf(fs, n, o))
  }
}
