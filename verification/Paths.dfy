/** Finite sequences of steps of a relation. */
module Paths {

  ghost predicate Path<S(!new)>(r: (S, S) -> bool, s: S, s': S, n: nat)
    decreases n
  {
    if n == 0 then s' == s
    else exists t :: Path(r, s, t, n - 1) && r(t, s')
  }

  ghost predicate Reaches<S(!new)>(r: (S, S) -> bool, s: S, s': S) {
    exists n: nat :: Path(r, s, s', n)
  }

  lemma ReachesRefl<S(!new)>(r: (S, S) -> bool, s: S)
    ensures Reaches(r, s, s)
  {
    assert Path(r, s, s, 0);
  }

  lemma ReachesStep<S(!new)>(r: (S, S) -> bool, s: S, t: S, s': S)
    requires Reaches(r, s, t) && r(t, s')
    ensures Reaches(r, s, s')
  {
    var n: nat :| Path(r, s, t, n);
    assert Path(r, s, s', n + 1);
  }

  lemma {:induction false} PathTrans<S(!new)>(r: (S, S) -> bool, s: S, t: S, u: S, m: nat, n: nat)
    requires Path(r, s, t, m) && Path(r, t, u, n)
    ensures Path(r, s, u, m + n)
    decreases n
  {
    if n > 0 {
      var v :| Path(r, t, v, n - 1) && r(v, u);
      PathTrans(r, s, t, v, m, n - 1);
    }
  }

  lemma ReachesTrans<S(!new)>(r: (S, S) -> bool, s: S, t: S, u: S)
    requires Reaches(r, s, t) && Reaches(r, t, u)
    ensures Reaches(r, s, u)
  {
    var m: nat :| Path(r, s, t, m);
    var n: nat :| Path(r, t, u, n);
    PathTrans(r, s, t, u, m, n);
  }
}
