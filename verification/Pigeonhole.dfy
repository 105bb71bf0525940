/** Counting facts about sequences and sets. */
module Pigeonhole {

  predicate NoDup<T(==)>(s: seq<T>) {
    forall i, j :: 0 <= i < j < |s| ==> s[i] != s[j]
  }

  ghost function Elems<T>(s: seq<T>): (r: set<T>)
  {
    set x | x in s
  }

  lemma {:induction false} ElemsSize<T>(s: seq<T>)
    ensures |Elems(s)| <= |s|
    ensures NoDup(s) ==> |Elems(s)| == |s|
  {
    if s != [] {
      var n := |s| - 1;
      ElemsSize(s[..n]);
      assert s == s[..n] + [s[n]];
      assert Elems(s) == Elems(s[..n]) + {s[n]};
    }
  }

  ghost function Range(n: nat): (r: set<nat>)
    ensures |r| == n
    ensures forall v: nat :: v in r <==> v < n
  {
    if n == 0 then {} else Range(n - 1) + {n - 1}
  }

  lemma {:induction false} SubsetSize<T>(a: set<T>, b: set<T>)
    requires a <= b
    ensures |a| <= |b|
    ensures |a| == |b| ==> a == b
    decreases b
  {
    if a != {} {
      var x :| x in a;
      SubsetSize(a - {x}, b - {x});
      assert a == a - {x} + {x} && b == b - {x} + {x};
    }
  }

  /** There are at most `n` distinct numbers below `n`. */
  lemma Below(s: seq<nat>, n: nat)
    requires NoDup(s) && forall k :: 0 <= k < |s| ==> s[k] < n
    ensures |s| <= n
  {
    ElemsSize(s);
    SubsetSize(Elems(s), Range(n));
  }

  /** `n` distinct numbers below `n` are all of them. */
  lemma Onto(s: seq<nat>, n: nat)
    requires NoDup(s) && |s| == n && forall k :: 0 <= k < n ==> s[k] < n
    ensures forall v: nat :: v < n ==> v in s
  {
    ElemsSize(s);
    SubsetSize(Elems(s), Range(n));
    forall v: nat | v < n ensures v in s {
      assert v in Range(n) && v in Elems(s);
    }
  }

  /** If every element of `s` occurs in `t` then `t` is at least as long. */
  lemma Fits<T>(s: seq<T>, t: seq<T>)
    requires NoDup(s) && forall k :: 0 <= k < |s| ==> s[k] in t
    ensures |s| <= |t|
  {
    ElemsSize(s);
    ElemsSize(t);
    SubsetSize(Elems(s), Elems(t));
  }

  /** A set that goes injectively into another is no larger. */
  lemma {:induction false} Injected<A(!new), B(!new)>(s: set<A>, t: set<B>, f: A -> B)
    requires forall a :: a in s ==> f(a) in t
    requires forall a, b :: a in s && b in s && f(a) == f(b) ==> a == b
    ensures |s| <= |t|
    decreases s
  {
    if s != {} {
      var a :| a in s;
      forall b | b in s - {a} ensures f(b) in t - {f(a)} {
        assert f(b) == f(a) ==> b == a;
      }
      Injected(s - {a}, t - {f(a)}, f);
      assert s == s - {a} + {a};
    }
  }
}
