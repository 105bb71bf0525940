/** What files are promised to be: each inode a flat byte array, and nothing else. */
module FlatFiles {
  import opened FsModel
  import opened FsSteps
  import opened FsBudget

  datatype FileOp =
    | Write(n: nat, off: nat, cnt: nat, src: seq<Byte>)
    | Read(n: nat, off: nat, cnt: nat, room: nat)
    | Trunc(n: nat)

  /** The return value, and the bytes that a read delivered. */
  datatype FileOut = FileOut(tot: int, bytes: seq<Byte>)

  /** The arrays, and how many blocks each has been asked for since it was last empty. */
  datatype Files = Files(data: seq<seq<Byte>>, reach: seq<nat>)

  predicate Sensible(f: Files, op: FileOp) {
    op.n < |f.data| == |f.reach| && (op.Write? || op.Read? ==> op.off < UINT && op.cnt < UINT)
  }

  /** The arrays after an operation with that outcome: a write splices a prefix of its data in. */
  function After(f: Files, op: FileOp, out: FileOut): (r: Files) {
    if !Sensible(f, op) then f else
      match op
      case Write(n, off, cnt, src) =>
        if 0 <= out.tot <= |src| && off <= |f.data[n]| then
          Files(f.data[n := Splice(f.data[n], off, src[..out.tot])], Reached(f.reach, n, Touches(off, cnt, out.tot)))
        else f
      case Read(_, _, _, _) => f
      case Trunc(n) => Files(f.data[n := []], f.reach[n := 0])
  }

  /** The outcomes that flat arrays allow on a disk with `capacity` data blocks. A write stores its data up
      to the last block boundary that the readable bytes reach, or all of it; it stops before that only if
      the files, with the block it asked for, do not fit. */
  predicate Answers(f: Files, op: FileOp, out: FileOut, capacity: int) {
    if !Sensible(f, op) then out == FileOut(-1, []) else
      match op
      case Write(n, off, cnt, src) =>
        && (out.tot == -1 <==> off > |f.data[n]| || off + cnt >= UINT || off + cnt > MAXFILE * BSIZE)
        && (out.tot != -1 ==> 0 <= out.tot <= cnt && out.tot <= |src| && off <= |f.data[n]|)
        && (out.tot != -1 ==> out.tot <= Stored(off, cnt, |src|))
        && (0 <= out.tot < Stored(off, cnt, |src|) ==> capacity < Need(After(f, op, out).reach))
      case Read(n, off, cnt, room) =>
        if off > |f.data[n]| || off + cnt >= UINT then out == FileOut(0, []) else
          var want := if off + cnt > |f.data[n]| then |f.data[n]| - off else cnt;
          && (out.tot == -1 <==> room < want) && (out.tot != -1 ==> out.tot == |out.bytes| == want)
          && |out.bytes| <= want && out.bytes == f.data[n][off..off + |out.bytes|]
      case Trunc(_) => out == FileOut(0, [])
  }

  function AfterAll(f: Files, ops: seq<FileOp>, outs: seq<FileOut>): (r: Files)
    requires |ops| == |outs|
  {
    if ops == [] then f else
      var k := |ops| - 1;
      After(AfterAll(f, ops[..k], outs[..k]), ops[k], outs[k])
  }

  predicate AnswersAll(f: Files, ops: seq<FileOp>, outs: seq<FileOut>, capacity: int)
    requires |ops| == |outs|
  {
    ops != [] ==>
      var k := |ops| - 1;
      && AnswersAll(f, ops[..k], outs[..k], capacity)
      && Answers(AfterAll(f, ops[..k], outs[..k]), ops[k], outs[k], capacity)
  }

  lemma RunMore(f: Files, ops: seq<FileOp>, outs: seq<FileOut>, i: nat, out: FileOut, capacity: int)
    requires i < |ops| && |outs| == i
    ensures AfterAll(f, ops[..i + 1], outs + [out]) == After(AfterAll(f, ops[..i], outs), ops[i], out)
    ensures AnswersAll(f, ops[..i + 1], outs + [out], capacity) <==>
              AnswersAll(f, ops[..i], outs, capacity) && Answers(AfterAll(f, ops[..i], outs), ops[i], out, capacity)
  {
    assert ops[..i + 1][..i] == ops[..i] && (outs + [out])[..i] == outs;
  }

  /** On a disk with room, a write stores all its data, and a read right after it returns what was written. */
  lemma WriteThenRead(f: Files, n: nat, off: nat, src: seq<Byte>, wrote: FileOut, got: FileOut, capacity: int)
    requires n < |f.data| == |f.reach| && off <= |f.data[n]| && off + |src| <= MAXFILE * BSIZE
    requires Answers(f, Write(n, off, |src|, src), wrote, capacity)
    requires forall tot :: 0 <= tot <= |src| ==> Need(Reached(f.reach, n, Touches(off, |src|, tot))) <= capacity
    requires Answers(After(f, Write(n, off, |src|, src), wrote), Read(n, off, |src|, |src|), got, capacity)
    ensures wrote.tot == |src| && got == FileOut(|src|, src)
  {
    SpliceRead(f.data[n], off, src);
    assert src[..|src|] == src;
  }
}
