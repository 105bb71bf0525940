/** The lottery scheduler (LBS) of kernel/proc.c: the ticket ledger and the draw. Each dispatch scan
    and each ledger update is one step. Sums are C ints and wrap at 32 bits. */
module Lottery {
  import opened ParkMiller
  import opened ProcStates
  import opened Words
  import Pigeonhole

  datatype Proc = Proc(state: PState, tickets: nat, chan: int)

  // ---- what the ledger means ----------------------------------------------------------------------------

  function Weight(p: Proc): (w: nat) {
    if p.state == RUNNABLE then p.tickets else 0
  }

  /** Tickets held by runnable processes. */
  function Sum(ps: seq<Proc>): (n: nat) {
    if ps == [] then 0 else Sum(ps[..|ps| - 1]) + Weight(ps[|ps| - 1])
  }

  lemma {:induction false} SumUpdate(ps: seq<Proc>, i: nat, p: Proc)
    requires i < |ps|
    ensures Sum(ps[i := p]) == Sum(ps) - Weight(ps[i]) + Weight(p)
  {
    var n := |ps| - 1;
    if i == n {
      assert ps[i := p][..n] == ps[..n];
    } else {
      SumUpdate(ps[..n], i, p);
      assert ps[i := p][..n] == ps[..n][i := p];
    }
  }

  lemma {:induction false} SumMonotone(ps: seq<Proc>, i: nat)
    requires i <= |ps|
    ensures Sum(ps[..i]) <= Sum(ps)
  {
    if i < |ps| {
      var n := |ps| - 1;
      SumMonotone(ps[..n], i);
      assert ps[..n][..i] == ps[..i];
    } else {
      assert ps[..i] == ps;
    }
  }

  lemma SumStep(ps: seq<Proc>, i: nat)
    requires i < |ps|
    ensures Sum(ps[..i + 1]) == Sum(ps[..i]) + Weight(ps[i])
  {
    assert ps[..i + 1][..i] == ps[..i];
  }

  lemma SumNone(ps: seq<Proc>)
    ensures Sum(ps[..0]) == 0
  {
  }

  /** Draw rn falls to process i: it is among the tickets of i, laid out in table order. */
  predicate Wins(ps: seq<Proc>, i: nat, rn: int)
    requires i < |ps|
  {
    ps[i].state == RUNNABLE && Sum(ps[..i]) < rn <= Sum(ps[..i]) + ps[i].tickets
  }

  /** Every draw falls to some process. */
  lemma {:induction false} SomeoneWins(ps: seq<Proc>, rn: int) returns (i: nat)
    requires 1 <= rn <= Sum(ps)
    ensures i < |ps| && Wins(ps, i, rn)
  {
    var n := |ps| - 1;
    SumStep(ps, n);
    assert ps[..n + 1] == ps;
    if rn <= Sum(ps[..n]) {
      i := SomeoneWins(ps[..n], rn);
      assert ps[..n][..i] == ps[..i];
    } else {
      i := n;
    }
  }

  /** No draw falls to two. */
  lemma OneWins(ps: seq<Proc>, i: nat, j: nat, rn: int)
    requires i < |ps| && j < |ps| && Wins(ps, i, rn) && Wins(ps, j, rn)
    ensures i == j
  {
    if i < j {
      Disjoint(ps, i, j);
    } else if j < i {
      Disjoint(ps, j, i);
    }
  }

  lemma Disjoint(ps: seq<Proc>, i: nat, j: nat)
    requires i < j < |ps|
    ensures Sum(ps[..i]) + Weight(ps[i]) <= Sum(ps[..j])
  {
    SumStep(ps, i);
    SumMonotone(ps[..j], i + 1);
    assert ps[..j][..i + 1] == ps[..i + 1];
  }

  ghost function Interval(lo: nat, n: nat): (s: set<int>)
    ensures |s| == n && forall x :: x in s <==> lo < x <= lo + n
  {
    if n == 0 then {} else Interval(lo, n - 1) + {lo + n}
  }

  /** Exactly p->tickets of the draws 1..totaltickets select p. */
  lemma ExactShare(ps: seq<Proc>, i: nat) returns (draws: set<int>)
    requires i < |ps| && ps[i].state == RUNNABLE
    ensures |draws| == ps[i].tickets && forall rn :: rn in draws <==> Wins(ps, i, rn)
    ensures forall rn :: rn in draws ==> 1 <= rn <= Sum(ps)
  {
    draws := Interval(Sum(ps[..i]), ps[i].tickets);
    SumStep(ps, i);
    SumMonotone(ps, i + 1);
  }

  // ---- the scan, with sums that wrap ---------------------------------------------------------------------

  /** The scan for draw rn stops at process i: the wrapped sum reaches rn there and at no runnable process before. */
  predicate Chosen(ps: seq<Proc>, i: nat, rn: int) {
    && i < |ps| && ps[i].state == RUNNABLE && rn <= Int32(Sum(ps[..i + 1]))
    && forall j :: 0 <= j < i && ps[j].state == RUNNABLE ==> Int32(Sum(ps[..j + 1])) < rn
  }

  /** rand() % totaltickets + 1, where a remainder by zero is the dividend, as the RISC-V instruction gives
      it, and the sign of the divisor does not matter. */
  function DrawOf(total: int, r: nat): (rn: int)
    ensures 1 <= rn <= r + 1
  {
    var t := if total < 0 then -total else total;
    if t == 0 then r + 1 else r % t + 1
  }

  /** Some state of the generator gives this draw. */
  ghost predicate CanDraw(total: int, rn: int) {
    exists next: nat :: rn == DrawOf(total, Rand(next))
  }

  /** rand() does not return 2^31 - 2, so that is the largest draw. */
  const LARGEST := 0x7fff_fffe

  function Top(total: int): (n: nat)
    ensures n <= LARGEST
  {
    var t := if total < 0 then -total else total;
    if t == 0 || t > LARGEST then LARGEST else t
  }

  lemma DrawOfBounds(total: int, r: nat)
    requires r < LARGEST
    ensures 1 <= DrawOf(total, r) <= Top(total)
    ensures r < Top(total) ==> DrawOf(total, r) == r + 1
  {
  }

  lemma CanDrawIff(total: int, rn: int)
    ensures CanDraw(total, rn) <==> 1 <= rn <= Top(total)
  {
    hide DrawOf, Top, Rand;
    if 1 <= rn <= Top(total) {
      var next := RandOnto(rn - 1);
      DrawOfBounds(total, rn - 1);
      assert rn == DrawOf(total, Rand(next));
    }
    if CanDraw(total, rn) {
      var next: nat :| rn == DrawOf(total, Rand(next));
      DrawOfBounds(total, Rand(next));
    }
  }

  /** The draws that can come up and for which the scan stops at process i. */
  ghost function Draws(ps: seq<Proc>, i: nat): (draws: set<int>) {
    set rn | 1 <= rn <= LARGEST && CanDraw(Int32(Sum(ps)), rn) && Chosen(ps, i, rn)
  }

  /** While the sum fits an int, the scan stops at the process that the draw falls to. */
  lemma ChosenWins(ps: seq<Proc>, i: nat, rn: int)
    requires Sum(ps) < 0x8000_0000 && 1 <= rn && i < |ps|
    ensures Chosen(ps, i, rn) <==> Wins(ps, i, rn)
  {
    forall j | 0 <= j <= |ps| ensures Int32(Sum(ps[..j])) == Sum(ps[..j]) {
      SumMonotone(ps, j);
    }
    SumStep(ps, i);
    if Wins(ps, i, rn) {
      forall j | 0 <= j < i && ps[j].state == RUNNABLE ensures Int32(Sum(ps[..j + 1])) < rn {
        Disjoint(ps, j, i);
        SumStep(ps, j);
      }
    } else if Chosen(ps, i, rn) {
      BelowWithoutReach(ps, i, rn);
    }
  }

  /** A sum that no process has lifted to rn is below rn. */
  lemma {:induction false} BelowWithoutReach(ps: seq<Proc>, i: nat, rn: int)
    requires i <= |ps| && 1 <= rn
    requires forall j :: 0 <= j < i && ps[j].state == RUNNABLE ==> Int32(Sum(ps[..j + 1])) < rn
    ensures Int32(Sum(ps[..i])) < rn
  {
    if i > 0 {
      BelowWithoutReach(ps, i - 1, rn);
      SumStep(ps, i - 1);
    }
  }

  /** All draws that select one of the first n processes. */
  ghost function DrawsBelow(ps: seq<Proc>, n: nat): (draws: set<int>)
    requires n <= |ps|
  {
    if n == 0 then {} else DrawsBelow(ps, n - 1) + Draws(ps, n - 1)
  }

  lemma {:induction false} DrawsBelowBounds(ps: seq<Proc>, n: nat)
    requires n <= |ps|
    ensures forall rn :: rn in DrawsBelow(ps, n) ==>
      1 <= rn <= LARGEST && exists i :: 0 <= i < n && Chosen(ps, i, rn)
  {
    hide CanDraw;
    if n > 0 {
      DrawsBelowBounds(ps, n - 1);
    }
  }

  predicate FairShares(ps: seq<Proc>, shares: seq<set<int>>) {
    |shares| == |ps| && forall i :: 0 <= i < |ps| && ps[i].state == RUNNABLE ==> |shares[i]| == ps[i].tickets
  }

  ghost function Shares(ps: seq<Proc>): (shares: seq<set<int>>) {
    seq(|ps|, i requires 0 <= i => Draws(ps, i))
  }

  lemma DrawsApart(ps: seq<Proc>, n: nat)
    requires n < |ps|
    ensures DrawsBelow(ps, n) !! Draws(ps, n)
    ensures ps[n].state != RUNNABLE ==> Draws(ps, n) == {}
  {
    DrawsBelowBounds(ps, n);
    forall rn | rn in DrawsBelow(ps, n) ensures rn !in Draws(ps, n) {
      var i :| 0 <= i < n && Chosen(ps, i, rn);
      assert ps[i].state == RUNNABLE;
    }
  }

  /** If every share is fair, the draws that select the first n processes are as many as their tickets. */
  lemma {:induction false} FairCount(ps: seq<Proc>, n: nat)
    requires n <= |ps| && FairShares(ps, Shares(ps))
    ensures |DrawsBelow(ps, n)| == Sum(ps[..n])
  {
    hide Chosen, Int32, CanDraw;
    if n > 0 {
      FairCount(ps, n - 1);
      SumStep(ps, n - 1);
      DrawsApart(ps, n - 1);
      assert Shares(ps)[n - 1] == Draws(ps, n - 1);
    }
  }

  lemma AtMost(draws: set<int>, n: nat)
    requires forall rn :: rn in draws ==> 1 <= rn <= n
    ensures |draws| <= n
  {
    Pigeonhole.SubsetSize(draws, Interval(0, n));
  }

  /** There are at most 2^31 - 2 draws to share. */
  lemma FairFits(ps: seq<Proc>)
    requires FairShares(ps, Shares(ps))
    ensures Sum(ps) <= LARGEST
  {
    FairCount(ps, |ps|);
    assert ps[..|ps|] == ps;
    DrawsBelowBounds(ps, |ps|);
    AtMost(DrawsBelow(ps, |ps|), LARGEST);
  }

  /** While the sum is no larger than the largest draw, the draws that select process i are its tickets. */
  lemma DrawsAreTickets(ps: seq<Proc>, i: nat)
    requires Sum(ps) <= LARGEST && i < |ps| && ps[i].state == RUNNABLE
    ensures |Draws(ps, i)| == ps[i].tickets
  {
    var draws := ExactShare(ps, i);
    forall rn ensures rn in draws <==> rn in Draws(ps, i) {
      CanDrawIff(Int32(Sum(ps)), rn);
      if 1 <= rn {
        ChosenWins(ps, i, rn);
      }
    }
    assert Draws(ps, i) == draws;
  }

  /** Exactly p->tickets of the draws that can come up select p, for every runnable p, if and only if the
      ticket sum is below 2^31 - 1. */
  lemma FairIffSumFits(ps: seq<Proc>)
    ensures FairShares(ps, Shares(ps)) <==> Sum(ps) < 0x7fff_ffff
  {
    if Sum(ps) < 0x7fff_ffff {
      forall i | 0 <= i < |ps| && ps[i].state == RUNNABLE ensures |Shares(ps)[i]| == ps[i].tickets {
        DrawsAreTickets(ps, i);
      }
    }
    if FairShares(ps, Shares(ps)) {
      FairFits(ps);
    }
  }

  /** The sum fits an int, but the only draw of the second process never comes up. */
  const EDGE: seq<Proc> := [Proc(RUNNABLE, 0x7fff_fffe, 0), Proc(RUNNABLE, 1, 0)]

  lemma LastTicketStarves()
    ensures Sum(EDGE) == 0x7fff_ffff && Draws(EDGE, 1) == {}
    ensures forall next: nat :: Chosen(EDGE, 0, DrawOf(Int32(Sum(EDGE)), Rand(next)))
  {
    assert EDGE[..0] == [] && EDGE[..2] == EDGE;
    SumStep(EDGE, 0);
    SumStep(EDGE, 1);
    assert Int32(Sum(EDGE[..1])) == 0x7fff_fffe;
    assert forall rn :: rn <= LARGEST ==> !Chosen(EDGE, 1, rn);
  }

  /** Four processes whose sum has wrapped to 9. */
  const STARVING: seq<Proc> :=
    [Proc(RUNNABLE, 1, 0), Proc(RUNNABLE, 0x7fff_ffff, 0), Proc(RUNNABLE, 0x7fff_ffff, 0), Proc(RUNNABLE, 10, 0)]

  lemma StarvingSums()
    ensures Sum(STARVING[..1]) == 1 && Sum(STARVING[..2]) == 0x8000_0000
    ensures Sum(STARVING[..3]) == 0xffff_ffff && Sum(STARVING) == 0x1_0000_0009
  {
    assert STARVING[..0] == [] && STARVING[..4] == STARVING;
    SumStep(STARVING, 0);
    SumStep(STARVING, 1);
    SumStep(STARVING, 2);
    SumStep(STARVING, 3);
  }

  /** The two largest holders never win, and the last one gets less than its share. */
  lemma LargestHoldersStarve()
    ensures Draws(STARVING, 0) == {1} && Draws(STARVING, 1) == {} && Draws(STARVING, 2) == {}
    ensures Draws(STARVING, 3) == Interval(1, 8)
  {
    StarvingSums();
    assert STARVING[..4] == STARVING;
    assert Int32(Sum(STARVING)) == 9 && Int32(Sum(STARVING[..1])) == 1;
    assert Int32(Sum(STARVING[..2])) < 0 && Int32(Sum(STARVING[..3])) < 0;
    forall rn ensures CanDraw(9, rn) <==> 1 <= rn <= 9 {
      CanDrawIff(9, rn);
    }
    hide CanDraw;
    forall rn | 1 <= rn <= 9 ensures Chosen(STARVING, 0, rn) <==> rn == 1 {
    }
    forall rn | 1 <= rn <= 9 ensures Chosen(STARVING, 3, rn) <==> rn > 1 {
    }
  }

  // ---- the ledger ------------------------------------------------------------------------------------------

  class Table {
    const proc: array<Proc>
    var totaltickets: int
    var ctickets: int
    const rng: Random

    ghost predicate Valid()
      reads this, proc
    {
      totaltickets == Int32(Sum(proc[..])) && forall i :: 0 <= i < proc.Length ==> proc[i].tickets < 0x8000_0000
    }

    constructor (n: nat)
      ensures Valid() && proc.Length == n && fresh(proc) && fresh(rng)
      ensures forall i :: 0 <= i < n ==> proc[i].state == UNUSED
    {
      proc := new Proc[n](_ => Proc(UNUSED, 0, 0));
      totaltickets, ctickets := 0, 0;
      rng := new Random();
      new;
      NoTickets(proc[..]);
    }

    /** One entry changes; the ledger follows. */
    method Update(i: nat, p: Proc, change: int)
      requires Valid() && i < proc.Length && change == Weight(p) - Weight(proc[i]) && p.tickets < 0x8000_0000
      modifies this`totaltickets, proc
      ensures Valid() && proc[..] == old(proc[..])[i := p] && (change == 0 ==> totaltickets == old(totaltickets))
    {
      SumUpdate(proc[..], i, p);
      WrapAdd(Sum(proc[..]), change);
      proc[i] := p;
      totaltickets := Int32(totaltickets + change);
    }

    /** The search of allocproc: the first unused entry becomes USED without tickets; -1 when there is none. */
    method Allocproc() returns (i: int)
      requires Valid()
      modifies this`totaltickets, proc
      ensures Valid() && totaltickets == old(totaltickets) && -1 <= i < proc.Length
      ensures i >= 0 ==>
        old(proc[i]).state == UNUSED && proc[..] == old(proc[..])[i := Proc(USED, 0, old(proc[i]).chan)]
      ensures forall k :: 0 <= k < (if i < 0 then proc.Length else i) ==> old(proc[k]).state != UNUSED
      ensures i < 0 ==> proc[..] == old(proc[..])
    {
      i := 0;
      while i < proc.Length && proc[i].state != UNUSED
        invariant 0 <= i <= proc.Length
        invariant forall k :: 0 <= k < i ==> proc[k].state != UNUSED
      {
        i := i + 1;
      }
      if i == proc.Length {
        return -1;
      }
      Update(i, Proc(USED, 0, proc[i].chan), 0);
    }

    /** userinit: the first process has one ticket. */
    method Userinit(i: nat)
      requires Valid() && i < proc.Length && proc[i].state == USED
      modifies this`totaltickets, proc
      ensures Valid() && proc[..] == old(proc[..])[i := Proc(RUNNABLE, 1, old(proc[i]).chan)]
    {
      Update(i, Proc(RUNNABLE, 1, proc[i].chan), 1);
    }

    /** fork: the child is runnable with as many tickets as its parent. */
    method Fork(parent: nat, child: nat)
      requires Valid() && parent < proc.Length && child < proc.Length && proc[parent].state == RUNNING
      requires proc[child].state == USED
      modifies this`totaltickets, proc
      ensures Valid()
      ensures proc[..] == old(proc[..])[child := Proc(RUNNABLE, old(proc[parent]).tickets, old(proc[child]).chan)]
    {
      Update(child, Proc(RUNNABLE, proc[parent].tickets, proc[child].chan), proc[parent].tickets);
    }

    /** yield. */
    method Yield(i: nat)
      requires Valid() && i < proc.Length && proc[i].state == RUNNING
      modifies this`totaltickets, proc
      ensures Valid() && proc[..] == old(proc[..])[i := old(proc[i]).(state := RUNNABLE)]
    {
      Update(i, proc[i].(state := RUNNABLE), proc[i].tickets);
    }

    /** sleep, exit and freeproc move tickets of processes that are not runnable. */
    method Sleep(i: nat, chan: int)
      requires Valid() && i < proc.Length && proc[i].state == RUNNING
      modifies this`totaltickets, proc
      ensures Valid() && totaltickets == old(totaltickets)
      ensures proc[..] == old(proc[..])[i := old(proc[i]).(state := SLEEPING, chan := chan)]
    {
      Update(i, proc[i].(state := SLEEPING, chan := chan), 0);
    }

    method Exit(i: nat)
      requires Valid() && i < proc.Length && proc[i].state == RUNNING
      modifies this`totaltickets, proc
      ensures Valid() && totaltickets == old(totaltickets)
      ensures proc[..] == old(proc[..])[i := old(proc[i]).(state := ZOMBIE)]
    {
      Update(i, proc[i].(state := ZOMBIE), 0);
    }

    method Freeproc(i: nat)
      requires Valid() && i < proc.Length && (proc[i].state == ZOMBIE || proc[i].state == USED)
      modifies this`totaltickets, proc
      ensures Valid() && totaltickets == old(totaltickets) && proc[..] == old(proc[..])[i := Proc(UNUSED, 0, 0)]
    {
      Update(i, Proc(UNUSED, 0, 0), 0);
    }

    /** wakeup: everybody asleep on the channel, except the caller. */
    method Wakeup(chan: int, self: int)
      requires Valid()
      modifies this`totaltickets, proc
      ensures Valid()
      ensures forall i :: 0 <= i < proc.Length ==>
        proc[i] == if i != self && Waits(old(proc[i]).state, old(proc[i]).chan, chan)
          then old(proc[i]).(state := RUNNABLE) else old(proc[i])
    {
      var i := 0;
      while i < proc.Length
        invariant 0 <= i <= proc.Length && Valid()
        invariant forall k :: i <= k < proc.Length ==> proc[k] == old(proc[k])
        invariant forall k :: 0 <= k < i ==>
          proc[k] == if k != self && Waits(old(proc[k]).state, old(proc[k]).chan, chan)
            then old(proc[k]).(state := RUNNABLE) else old(proc[k])
      {
        if i != self && proc[i].state == SLEEPING && proc[i].chan == chan {
          Rouse(i);
        }
        i := i + 1;
      }
    }

    /** A sleeping process becomes runnable: the same three lines in wakeup and in kill. */
    method Rouse(i: nat)
      requires Valid() && i < proc.Length && proc[i].state == SLEEPING
      modifies this`totaltickets, proc
      ensures Valid() && forall k :: 0 <= k < proc.Length ==>
        proc[k] == if k == i then old(proc[i]).(state := RUNNABLE) else old(proc[k])
    {
      Update(i, proc[i].(state := RUNNABLE), proc[i].tickets);
      assert proc[..][i] == proc[i];
      forall k | 0 <= k < proc.Length
        ensures proc[k] == if k == i then old(proc[i]).(state := RUNNABLE) else old(proc[k])
      {
        assert proc[..][k] == proc[k];
      }
    }

    /** kill, on the table entry it found. */
    method Kill(i: nat)
      requires Valid() && i < proc.Length
      modifies this`totaltickets, proc
      ensures Valid()
      ensures forall k :: 0 <= k < proc.Length ==>
        proc[k] == if k == i && old(proc[i].state) == SLEEPING then old(proc[i]).(state := RUNNABLE) else old(proc[k])
    {
      if proc[i].state == SLEEPING {
        Rouse(i);
      }
    }

    /** sys_settickets of the running process: its tickets are not in the sum at that moment. */
    method Settickets(i: nat, n: int) returns (r: int)
      requires Valid() && i < proc.Length && proc[i].state == RUNNING && n < 0x8000_0000
      modifies this`totaltickets, proc
      ensures Valid() && totaltickets == old(totaltickets) && (r == -1 <==> n < 0)
      ensures proc[..] == if n < 0 then old(proc[..]) else old(proc[..])[i := old(proc[i]).(tickets := n)]
    {
      if n < 0 {
        return -1;
      }
      Update(i, proc[i].(tickets := n), 0);
      return 0;
    }

    /** The draw. */
    method Draw() returns (rn: int)
      modifies rng
      ensures rn == DrawOf(totaltickets, rng.next) && rng.next == Rand(old(rng.next))
      ensures 1 <= rn <= LARGEST && (totaltickets > 0 ==> rn <= totaltickets)
    {
      var r := rng.DoRand();
      var t := if totaltickets < 0 then -totaltickets else totaltickets;
      rn := (if t == 0 then r else r % t) + 1;
    }

    /** The scan stops at the first runnable process whose wrapped sum reaches the draw. It finds one for
        every draw up to totaltickets, whatever the sum. */
    method Scan(rn: int) returns (w: int)
      requires Valid() && 1 <= rn
      modifies this`ctickets
      ensures -1 <= w < proc.Length && (rn <= totaltickets ==> w >= 0)
      ensures w >= 0 ==> Chosen(proc[..], w, rn)
      ensures w < 0 ==> forall j :: 0 <= j < proc.Length ==> !Chosen(proc[..], j, rn)
    {
      hide Int32, Sum;
      ghost var ps := proc[..];
      var i := 0;
      var p := 0;
      SumNone(ps);
      while p < proc.Length
        invariant 0 <= p <= proc.Length && 0 <= i && Int32(Sum(ps[..p])) < rn
        invariant i == 0 ==> Sum(ps[..p]) == 0
        invariant i > 0 ==> ctickets == Int32(Sum(ps[..p]))
        invariant forall j :: 0 <= j < p && ps[j].state == RUNNABLE ==> Int32(Sum(ps[..j + 1])) < rn
      {
        SumStep(ps, p);
        if proc[p].state == RUNNABLE {
          if i == 0 {
            ctickets := proc[p].tickets;
          } else {
            WrapAdd(Sum(ps[..p]), proc[p].tickets);
            ctickets := Int32(proc[p].tickets + ctickets);
          }
          if ctickets >= rn {
            return p;
          }
          i := i + 1;
        }
        p := p + 1;
      }
      assert ps[..p] == ps;
      return -1;
    }

    /** One round of the scheduler loop up to the context switch. With a positive total there is always a
        winner, and while the sum fits an int it is the process that the draw falls to. */
    method Dispatch() returns (rn: int, w: int)
      requires Valid()
      modifies this`totaltickets, this`ctickets, proc, rng
      ensures Valid() && -1 <= w < proc.Length && (old(totaltickets) > 0 ==> w >= 0)
      ensures rn == DrawOf(old(totaltickets), rng.next) && rng.next == Rand(old(rng.next))
      ensures w >= 0 ==> Chosen(old(proc[..]), w, rn) && proc[..] == old(proc[..])[w := old(proc[w]).(state := RUNNING)]
      ensures w >= 0 && Sum(old(proc[..])) < 0x8000_0000 ==> Wins(old(proc[..]), w, rn)
      ensures w < 0 ==>
        proc[..] == old(proc[..]) && forall j :: 0 <= j < proc.Length ==> !Chosen(proc[..], j, rn)
    {
      rn := Draw();
      w := Scan(rn);
      if w >= 0 {
        if Sum(proc[..]) < 0x8000_0000 {
          ChosenWins(proc[..], w, rn);
        }
        Update(w, proc[w].(state := RUNNING), -(proc[w].tickets as int));
      }
    }
  }

  lemma {:induction false} NoTickets(ps: seq<Proc>)
    requires forall i :: 0 <= i < |ps| ==> ps[i].state == UNUSED
    ensures Sum(ps) == 0
  {
    if ps != [] {
      NoTickets(ps[..|ps| - 1]);
    }
  }
}
