/** kernel/pipe.c. A pipewrite or piperead that finds the pipe full or empty sleeps in the middle, so
    the methods here are the stretches of code that run without releasing pi->lock; stretches of
    different readers and writers may follow each other in any order. */
module Pipe {
  import opened Words

  const PIPESIZE := 512
  /** nread and nwrite are unsigned 32-bit counters. */
  const UINT := 0x1_0000_0000

  type Byte = b: int | 0 <= b < 256

  /** How a stretch ends: the call returns, it fails, or it goes to sleep. */
  datatype End = Returned | Failed | Asleep

  datatype Op =
    | Write(src: seq<Byte>, n: int, killed: bool)
    | Read(n: int, room: nat, killed: bool)
    | CloseEnd(writable: bool)

  lemma Increment(n: nat)
    ensures (n % UINT + 1) % UINT == (n + 1) % UINT
  {
  }

  /** The wrapped counters still tell full from empty. */
  lemma FullEmpty(r: nat, w: nat)
    requires r <= w <= r + PIPESIZE
    ensures r % UINT == w % UINT <==> r == w
    ensures w % UINT == (r % UINT + PIPESIZE) % UINT <==> w == r + PIPESIZE
  {
    assert (r % UINT + PIPESIZE) % UINT == (r + PIPESIZE) % UINT;
  }

  /** The ring holds the bytes written and not yet taken. */
  ghost predicate Holds(data: seq<Byte>, written: seq<Byte>, taken: nat) {
    && |data| == PIPESIZE && taken <= |written| <= taken + PIPESIZE
    && forall k :: taken <= k < |written| ==> data[k % PIPESIZE] == written[k]
  }

  lemma HoldsPush(data: seq<Byte>, written: seq<Byte>, taken: nat, b: Byte)
    requires Holds(data, written, taken) && |written| < taken + PIPESIZE
    ensures Holds(data[|written| % PIPESIZE := b], written + [b], taken)
  {
    var data', w' := data[|written| % PIPESIZE := b], written + [b];
    forall k | taken <= k < |w'| ensures data'[k % PIPESIZE] == w'[k] {
      if k < |written| {
        SlotsDiffer(PIPESIZE, k, |written|);
      }
    }
  }

  class PipeObj {
    const data: array<Byte>
    var nread: nat
    var nwrite: nat
    var readopen: bool
    var writeopen: bool
    /** Everything ever written, and everything ever taken out. */
    ghost var written: seq<Byte>
    ghost var taken: seq<Byte>

    /** What has been taken is a prefix of what was written, and the rest fits the ring. */
    ghost predicate Valid()
      reads this, data
    {
      && Holds(data[..], written, |taken|) && taken == written[..|taken|]
      && nwrite == |written| % UINT && nread == |taken| % UINT
    }

    /** pipealloc. */
    constructor ()
      ensures Valid() && written == [] && taken == [] && readopen && writeopen && fresh(data)
    {
      data := new Byte[PIPESIZE](_ => 0);
      nread, nwrite, readopen, writeopen := 0, 0, true, true;
      written, taken := [], [];
    }

    method PipeClose(writable: bool)
      requires Valid()
      modifies this`readopen, this`writeopen
      ensures Valid() && writeopen == (old(writeopen) && !writable) && readopen == (old(readopen) && writable)
    {
      if writable {
        writeopen := false;
      } else {
        readopen := false;
      }
    }

    /** A byte goes into the ring at the write counter. */
    method Push(ch: Byte)
      requires Valid() && |written| < |taken| + PIPESIZE
      modifies this`nwrite, this`written, data
      ensures Valid() && written == old(written) + [ch]
    {
      SlotOf(|written|, 8388608, PIPESIZE);
      Increment(|written|);
      HoldsPush(data[..], written, |taken|, ch);
      data[nwrite % PIPESIZE] := ch;
      nwrite := (nwrite + 1) % UINT;
      written := written + [ch];
    }

    /** A byte comes out of the ring at the read counter. */
    method Pop() returns (ch: Byte)
      requires Valid() && |taken| < |written|
      modifies this`nread, this`taken
      ensures Valid() && ch == written[|old(taken)|] && taken == old(taken) + [ch]
    {
      SlotOf(|taken|, 8388608, PIPESIZE);
      Increment(|taken|);
      ch := data[nread % PIPESIZE];
      nread := (nread + 1) % UINT;
      taken := taken + [ch];
    }

    /** pipewrite from byte i on, until it returns or sleeps. `src` are the bytes that can be copied
        in; the copy of byte |src| fails. */
    method WriteStretch(src: seq<Byte>, n: int, i: nat, killed: bool) returns (end: End, i': nat)
      requires Valid() && i <= |src| && (i <= n || i == 0)
      modifies this`nwrite, this`written, data
      ensures Valid() && i <= i' <= |src| && written == old(written) + src[i..i']
      ensures end == Failed <==> i < n && (!readopen || killed)
      ensures end == Failed ==> i' == i
      ensures end == Asleep ==> i' < n && |written| == |taken| + PIPESIZE
      ensures end == Returned ==> i' >= n || i' == |src|
    {
      i' := i;
      assert src[i..i] == [];
      while i' < n
        invariant Valid() && i <= i' <= |src| && written == old(written) + src[i..i'] && (i' <= n || i' == i)
        invariant i' > i ==> readopen && !killed
      {
        if !readopen || killed {
          return Failed, i';
        }
        FullEmpty(|taken|, |written|);
        if nwrite == (nread + PIPESIZE) % UINT {
          return Asleep, i';
        }
        if i' == |src| {
          break;
        }
        Push(src[i']);
        assert src[i..i' + 1] == src[i..i'] + [src[i']];
        i' := i' + 1;
      }
      end := Returned;
    }

    /** piperead, until it returns or sleeps. The copy of byte `room` fails. The bytes delivered are
        the next ones in order; a byte is lost exactly when the copy of one fails. */
    method ReadStretch(n: int, room: nat, killed: bool) returns (end: End, bytes: seq<Byte>, lost: bool)
      requires Valid()
      modifies this`nread, this`taken
      ensures Valid() && |old(taken)| + |bytes| <= |written|
      ensures end == Failed <==> |old(taken)| == |written| && writeopen && killed
      ensures end == Asleep <==> |old(taken)| == |written| && writeopen && !killed
      ensures end != Returned ==> bytes == [] && !lost
      ensures |taken| == |old(taken)| + |bytes| + if lost then 1 else 0
      ensures bytes == written[|old(taken)|..|old(taken)| + |bytes|]
      ensures end == Returned ==>
        var avail := |written| - |old(taken)|;
        var want := if n < 0 then 0 else if n < avail then n else avail;
        |bytes| == (if room < want then room else want) && (lost <==> room < want)
    {
      bytes, lost := [], false;
      FullEmpty(|taken|, |written|);
      if nread == nwrite && writeopen {
        return if killed then Failed else Asleep, [], false;
      }
      ghost var t := |taken|;
      var i := 0;
      while i < n
        invariant 0 <= i && (i <= n || i == 0) && i <= room && Valid() && |taken| == t + i && |bytes| == i && !lost
        invariant bytes == written[t..t + i]
      {
        FullEmpty(|taken|, |written|);
        if nread == nwrite {
          break;
        }
        var ch := Pop();
        if i >= room {
          lost := true;
          break;
        }
        assert written[t..t + i + 1] == written[t..t + i] + [written[t + i]];
        bytes := bytes + [ch];
        i := i + 1;
      }
      end := Returned;
    }

    /** Any interleaving of stretches. The bytes delivered to readers are those accepted from writers, in
        order, up to a point at most PIPESIZE before the end, without the positions that were lost; each
        lost byte is one failed copy, so with successful copies they are a prefix. */
    method Run(ops: seq<Op>) returns (sent: seq<Byte>, got: seq<Byte>, ghost gone: set<nat>, lost: nat)
      requires Valid() && written == [] && taken == []
      modifies this, data
      ensures Valid() && sent == written && |got| + lost == |taken| && |gone| == lost
      ensures |taken| <= |sent| <= |taken| + PIPESIZE && (forall k :: k in gone ==> k < |taken|)
      ensures got == Without(sent[..|taken|], gone)
      ensures lost == 0 ==> got <= sent && |sent| - |got| <= PIPESIZE
    {
      hide Holds;
      sent, got, gone, lost := [], [], {}, 0;
      HoldsFacts(data[..], written, |taken|);
      var k := 0;
      while k < |ops|
        invariant 0 <= k <= |ops| && Valid() && sent == written && |got| + lost == |taken| && |gone| == lost
        invariant (forall k :: k in gone ==> k < |taken|) && got == Without(taken, gone)
      {
        match ops[k] {
          case Write(src, n, killed) =>
            var end, i := WriteStretch(src, n, 0, killed);
            sent := sent + src[..i];
            assert src[0..i] == src[..i];
          case Read(n, room, killed) =>
            ghost var t := taken;
            HoldsFacts(data[..], written, |taken|);
            var end, bytes, l := ReadStretch(n, room, killed);
            HoldsFacts(data[..], written, |taken|);
            ReadDelivers(written, t, taken, bytes, l, gone);
            got := got + bytes;
            gone := gone + if l then {|t| + |bytes|} else {};
            lost := lost + if l then 1 else 0;
          case CloseEnd(writable) =>
            PipeClose(writable);
        }
        k := k + 1;
      }
      HoldsFacts(data[..], written, |taken|);
      if lost == 0 {
        NothingGone(taken);
      }
    }
  }

  lemma HoldsFacts(data: seq<Byte>, written: seq<Byte>, taken: nat)
    requires Holds(data, written, taken)
    ensures taken <= |written| <= taken + PIPESIZE
  {
  }

  /** The elements of s at the other positions, in order. */
  ghost function Without(s: seq<Byte>, gone: set<nat>): (r: seq<Byte>) {
    if s == [] then [] else
      var n := |s| - 1;
      Without(s[..n], gone) + if n in gone then [] else [s[n]]
  }

  lemma {:induction false} NothingGone(s: seq<Byte>)
    ensures Without(s, {}) == s
  {
    if s != [] {
      NothingGone(s[..|s| - 1]);
    }
  }

  lemma WithoutLast(s: seq<Byte>, x: Byte, gone: set<nat>)
    ensures Without(s + [x], gone) == Without(s, gone) + if |s| in gone then [] else [x]
  {
    assert (s + [x])[..|s|] == s;
  }

  lemma {:induction false} WithoutMore(s: seq<Byte>, more: seq<Byte>, gone: set<nat>)
    requires forall k :: k in gone ==> k < |s|
    ensures Without(s + more, gone) == Without(s, gone) + more
  {
    hide Without;
    if more == [] {
      assert s + more == s && Without(s, gone) + more == Without(s, gone);
    } else {
      var n := |more| - 1;
      var front, x := more[..n], more[n];
      WithoutMore(s, front, gone);
      assert more == front + [x];
      assert s + more == (s + front) + [x];
      WithoutLast(s + front, x, gone);
    }
  }

  lemma {:induction false} WithoutSame(s: seq<Byte>, gone: set<nat>, k: nat)
    requires k >= |s|
    ensures Without(s, gone + {k}) == Without(s, gone)
  {
    if s != [] {
      WithoutSame(s[..|s| - 1], gone, k);
    }
  }

  /** One read delivers the next bytes, and loses the one after them or nothing. */
  lemma ReadDelivers(written: seq<Byte>, t: seq<Byte>, t': seq<Byte>, bytes: seq<Byte>, lost: bool, gone: set<nat>)
    requires |t'| == |t| + |bytes| + (if lost then 1 else 0) <= |written| && t == written[..|t|]
    requires t' == written[..|t'|]
    requires bytes == written[|t|..|t| + |bytes|] && forall k :: k in gone ==> k < |t|
    ensures Without(t', gone + if lost then {|t| + |bytes|} else {}) == Without(t, gone) + bytes
  {
    var n := |t| + |bytes|;
    assert t + bytes == written[..n];
    WithoutMore(t, bytes, gone);
    if lost {
      assert t'[..n] == t + bytes;
      WithoutSame(t + bytes, gone, n);
    } else {
      assert gone + {} == gone && t' == t + bytes;
    }
  }
}
