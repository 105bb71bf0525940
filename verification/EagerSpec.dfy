/** The memory that programs are promised: every process owns private pages, fork copies all of
    them at once, and nothing is shared. It knows nothing of frames and counts; physical memory
    enters only as the number of pages there are. */
module EagerSpec {
  import opened VmModel
  import opened CowSpec
  import opened VmSteps
  import opened VmBudget
  import opened Words

  /** Private pages, sizes, the largest size, in pages, that each process has reached, since page tables
      stay that large until the process exits, and the pages that a fork has left marked. */
  datatype Users = Users(pages: map<Key, UPage>, sz: map<Pid, nat>, peak: map<Pid, nat>, marked: set<Key>)

  datatype Op =
    | Fork(parent: Pid, child: Pid)
    | Exit(pid: Pid)
    | Sbrk(pid: Pid, n: int)
    | Store(pid: Pid, va: nat, sp: nat, b: Byte)
    | Load(pid: Pid, va: nat, sp: nat)
    | ToUser(pid: Pid, dst: nat, src: seq<Byte>)
    | FromUser(pid: Pid, from: nat, len: nat)

  /** What the operation reports. Failed is for lack of memory, also when that kills a process, with the number
      of pages that fork or sbrk has tried; a copy that stops early tells how far it came. */
  datatype Outcome = Ok | Failed(reached: nat) | Killed | Data(bytes: seq<Byte>) | Short(bytes: seq<Byte>)
                   | Stopped(r: CopyResult, done: nat) | Refused

  /** PGROUNDUP(sz) / PGSIZE */
  function Pages(sz: nat): (n: nat) {
    (sz + PGSIZE - 1) / PGSIZE
  }

  /** Sizes end below the trapframe page. */
  const LIMIT := MAXVA - 2 * PGSIZE

  /** Operations the kernel can be asked for: live processes, an unused child, 64-bit addresses, and
      sizes that fit under the trapframe. */
  predicate Sensible(sz: map<Pid, nat>, op: Op) {
    match op
    case Fork(parent, child) => parent in sz && child !in sz
    case Exit(pid) => pid in sz
    case Sbrk(pid, n) => pid in sz && sz[pid] + n <= LIMIT
    case Store(pid, va, sp, _) => pid in sz && va < TOP && sp < TOP
    case Load(pid, va, sp) => pid in sz && va < TOP && sp < TOP
    case ToUser(pid, dst, _) => pid in sz && dst < TOP
    case FromUser(pid, src, _) => pid in sz && src < TOP
  }

  /** copyout never looks at PTE_W, so its targets have to be writable. */
  ghost predicate Fair(u: Users, op: Op) {
    op.ToUser? ==> WritableRange(u.pages, op.pid, op.dst, |op.src|)
  }

  /** The physical pages that eager copying needs: all private pages, and the page tables. */
  ghost function Need(u: Users): (n: nat) {
    |u.pages| + |AllTables(u.peak)|
  }

  /** Process pid has reached n pages. */
  function Asked(peak: map<Pid, nat>, pid: Pid, n: nat): (r: map<Pid, nat>) {
    peak[pid := if pid in peak then Max(peak[pid], n) else n]
  }

  /** The new pages between two sizes are zero. */
  ghost function GrownPages(v: map<Key, UPage>, pid: Pid, s: nat, s': nat, w: bool, x: bool): (r: map<Key, UPage>)
    requires s <= s'
  {
    AddZeros(v, pid, Pages(s), Pages(s') - Pages(s), w, x)
  }

  ghost function Grown(u: Users, pid: Pid, n: int): (u': Users)
    requires pid in u.sz
  {
    var s := u.sz[pid];
    if n > 0 then
      u.(pages := GrownPages(u.pages, pid, s, s + n, true, false), sz := u.sz[pid := s + n],
         peak := Asked(u.peak, pid, Pages(s + n)))
    else if n == 0 || s + n < 0 then u
    else
      var gone := Range(pid, Pages(s + n), Pages(s) - Pages(s + n));
      Users(u.pages - gone, u.sz[pid := s + n], u.peak, u.marked - gone)
  }

  /** The child gets copies of all pages; the writable ones are marked on both sides. */
  ghost function Forked(u: Users, parent: Pid, child: Pid): (u': Users)
    requires parent in u.sz
  {
    var n := Pages(u.sz[parent]);
    Users(Copied(u.pages, parent, child, n), u.sz[child := u.sz[parent]], u.peak[child := n],
          ForkMarks(u.marked, u.pages, parent, child, n, n))
  }

  /** Bytes that the kernel has written to user memory. */
  ghost function Delivered(u: Users, pid: Pid, dst: nat, bytes: seq<Byte>): (u': Users) {
    u.(pages := Written(u.pages, pid, dst, bytes), marked := Cleared(u.marked, pid, dst, |bytes|))
  }

  /** Memory after an operation with that outcome. */
  ghost function After(u: Users, op: Op, out: Outcome): (u': Users) {
    if !Sensible(u.sz, op) then u else
      match op
      case Fork(parent, child) =>
        if out == Ok then Forked(u, parent, child)
        else if out.Failed? then u.(marked := ForkMarks(u.marked, u.pages, parent, child, out.reached, 0))
        else u
      case Exit(pid) =>
        var gone := Range(pid, 0, Pages(u.sz[pid]));
        Users(u.pages - gone, u.sz - {pid}, u.peak - {pid}, u.marked - gone)
      case Sbrk(pid, n) =>
        if out == Ok then Grown(u, pid, n)
        else if out.Failed? then u.(peak := Asked(u.peak, pid, Pages(u.sz[pid]) + out.reached))
        else u
      case Store(pid, va, _, b) =>
        if out == Ok then u.(pages := Written(u.pages, pid, va, [b]), marked := u.marked - {Key(pid, va / PGSIZE)})
        else u
      case ToUser(pid, dst, src) =>
        if out == Ok then Delivered(u, pid, dst, src)
        else if out.Stopped? && out.done <= |src| then Delivered(u, pid, dst, src[..out.done]) else u
      case _ => u
  }

  lemma AfterFork(u: Users, parent: Pid, child: Pid, r: nat)
    requires parent in u.sz && child !in u.sz
    ensures After(u, Fork(parent, child), Failed(r)) ==
      u.(marked := ForkMarks(u.marked, u.pages, parent, child, r, 0))
    ensures After(u, Fork(parent, child), Ok) == Forked(u, parent, child)
  {
  }

  /** A store that private memory allows. */
  ghost predicate MayStore(u: Users, pid: Pid, va: nat) {
    Reachable(u.pages, pid, va) && u.pages[Key(pid, va / PGSIZE)].w
  }

  /** A store that usertrap takes for an overrun of the stack: to a marked page near the stack pointer. */
  ghost predicate Overrun(u: Users, pid: Pid, va: nat, sp: nat) {
    Key(pid, va / PGSIZE) in u.marked && NearStack(va, sp)
  }

  /** The outcomes private memory allows on a machine with `npages` pages. An operation fails for lack of
      memory only if eager copying would not fit either; a store or a copyout may need one page more for a
      moment, but only for a marked page. A store is killed if private memory forbids it or it looks like an
      overrun of the stack, and not otherwise. */
  ghost predicate Answers(u: Users, op: Op, out: Outcome, npages: nat) {
    if !Sensible(u.sz, op) then out == Refused else
      match op
      case Fork(parent, _) =>
        out == Ok || (out.Failed? && out.reached <= Pages(u.sz[parent]) && npages < Need(After(u, op, Ok)))
      case Exit(_) => out == Ok
      case Sbrk(pid, n) =>
        || out == Ok
        || (out.Failed? && n > 0 && out.reached <= Pages(u.sz[pid] + n) - Pages(u.sz[pid])
            && npages < Need(After(u, op, Ok)))
      case Store(pid, va, sp, _) =>
        || (out == Ok && MayStore(u, pid, va) && !Overrun(u, pid, va, sp))
        || (out == Killed && (!MayStore(u, pid, va) || Overrun(u, pid, va, sp)))
        || (out.Failed? && MayStore(u, pid, va) && Key(pid, va / PGSIZE) in u.marked && !NearStack(va, sp)
            && npages <= Need(u))
      case Load(pid, va, _) =>
        || (out.Data? && |out.bytes| == 1 && ReadsAt(u.pages, pid, va, out.bytes[0]))
        || (out == Killed && !Reachable(u.pages, pid, va))
      case ToUser(pid, dst, src) =>
        || (out == Ok && ReachableRange(u.pages, pid, dst, |src|))
        || (out.Stopped? && out.done < |src| && ReachableRange(u.pages, pid, dst, out.done)
            && ((out.r == Fault && !Reachable(u.pages, pid, dst + out.done))
                || (out.r == NoMemory && Reachable(u.pages, pid, dst + out.done)
                    && Key(pid, (dst + out.done) / PGSIZE) in u.marked && npages <= Need(u))))
      case FromUser(pid, src, len) =>
        || (out.Data? && |out.bytes| == len && Reads(u.pages, pid, src, out.bytes))
        || (out.Short? && |out.bytes| < len && Reads(u.pages, pid, src, out.bytes)
            && !Reachable(u.pages, pid, src + |out.bytes|))
  }

  ghost function AfterAll(u: Users, ops: seq<Op>, outs: seq<Outcome>): (u': Users)
    requires |ops| == |outs|
  {
    if ops == [] then u else
      var n := |ops| - 1;
      After(AfterAll(u, ops[..n], outs[..n]), ops[n], outs[n])
  }

  /** Every copyout of the run goes to writable pages. */
  ghost predicate FairRun(u: Users, ops: seq<Op>, outs: seq<Outcome>)
    requires |ops| == |outs|
  {
    ops != [] ==>
      var n := |ops| - 1;
      FairRun(u, ops[..n], outs[..n]) && Fair(AfterAll(u, ops[..n], outs[..n]), ops[n])
  }

  ghost predicate AnswersRun(u: Users, ops: seq<Op>, outs: seq<Outcome>, npages: nat)
    requires |ops| == |outs|
  {
    ops != [] ==>
      var n := |ops| - 1;
      AnswersRun(u, ops[..n], outs[..n], npages) && Answers(AfterAll(u, ops[..n], outs[..n]), ops[n], outs[n], npages)
  }

  lemma RunMore(u: Users, ops: seq<Op>, outs: seq<Outcome>, i: nat, out: Outcome, npages: nat)
    requires i < |ops| && |outs| == i
    ensures AfterAll(u, ops[..i + 1], outs + [out]) == After(AfterAll(u, ops[..i], outs), ops[i], out)
    ensures FairRun(u, ops[..i + 1], outs + [out]) <==>
              FairRun(u, ops[..i], outs) && Fair(AfterAll(u, ops[..i], outs), ops[i])
    ensures AnswersRun(u, ops[..i + 1], outs + [out], npages) <==>
              AnswersRun(u, ops[..i], outs, npages) && Answers(AfterAll(u, ops[..i], outs), ops[i], out, npages)
  {
    assert ops[..i + 1][..i] == ops[..i] && (outs + [out])[..i] == outs;
  }

  /** The process that acts. */
  function Actor(op: Op): (pid: Pid) {
    if op.Fork? then op.parent else op.pid
  }

  /** Private memory is private: an operation changes no page, and no mark, of a process other than the one
      that acts, except that fork gives the new child its pages. */
  lemma Isolation(u: Users, op: Op, out: Outcome, k: Key)
    requires k.pid != Actor(op) && !(op.Fork? && k.pid == op.child)
    ensures k in After(u, op, out).pages <==> k in u.pages
    ensures k in u.pages ==> After(u, op, out).pages[k] == u.pages[k]
    ensures k in After(u, op, out).marked <==> k in u.marked
  {
    hide Patch, Zeros;
  }

  /** The process takes part in no fork of the run. */
  predicate ForkFree(ops: seq<Op>, pid: Pid) {
    forall i :: 0 <= i < |ops| && ops[i].Fork? ==> ops[i].parent != pid && ops[i].child != pid
  }

  ghost predicate Unmarked(u: Users, pid: Pid) {
    forall k :: k in u.marked ==> k.pid != pid
  }

  lemma UnmarkedStep(u: Users, op: Op, out: Outcome, pid: Pid)
    requires Unmarked(u, pid) && (op.Fork? ==> op.parent != pid && op.child != pid)
    ensures Unmarked(After(u, op, out), pid)
  {
    hide Copied, GrownPages, Written, Asked, Sensible;
  }

  /** Only fork marks pages: a process that takes no part in one has none, whatever the run. */
  lemma {:induction false} ForkFreeUnmarked(u: Users, ops: seq<Op>, outs: seq<Outcome>, pid: Pid)
    requires |ops| == |outs| && Unmarked(u, pid) && ForkFree(ops, pid)
    ensures Unmarked(AfterAll(u, ops, outs), pid)
    decreases |ops|
  {
    hide After;
    if ops != [] {
      var n := |ops| - 1;
      ForkFreeUnmarked(u, ops[..n], outs[..n], pid);
      UnmarkedStep(AfterAll(u, ops[..n], outs[..n]), ops[n], outs[n], pid);
    }
  }

  /** So its stores go as private memory says, wherever the stack pointer stands and however little memory
      is left. */
  lemma ForkFreeStores(u: Users, ops: seq<Op>, outs: seq<Outcome>, store: Op, out: Outcome, npages: nat)
    requires |ops| == |outs| && store.Store? && Unmarked(u, store.pid) && ForkFree(ops, store.pid)
    requires AnswersRun(u, ops + [store], outs + [out], npages)
    requires Sensible(AfterAll(u, ops, outs).sz, store)
    ensures out == if MayStore(AfterAll(u, ops, outs), store.pid, store.va) then Ok else Killed
  {
    hide MayStore, Need, Sensible, After;
    ForkFreeUnmarked(u, ops, outs, store.pid);
    RunMore(u, ops + [store], outs, |ops|, out, npages);
    assert (ops + [store])[..|ops| + 1] == ops + [store] && (ops + [store])[..|ops|] == ops;
  }

  /** After fork, parent and child read the same byte at every address, and each sees only its own
      later stores. */
  lemma ForkThenStore(u: Users, parent: Pid, child: Pid, va: nat, sp: nat, b: Byte, a: nat)
    requires parent in u.sz && child !in u.sz && Reachable(u.pages, parent, a) && a / PGSIZE < Pages(u.sz[parent])
    requires Reachable(u.pages, parent, va) && va < TOP && sp < TOP && va / PGSIZE < Pages(u.sz[parent])
    ensures var u1 := After(u, Fork(parent, child), Ok);
            var u2 := After(u1, Store(child, va, sp, b), Ok);
            && ReadsAt(u2.pages, parent, a, ByteAt(u.pages, parent, a))
            && ReadsAt(u2.pages, child, a, if a == va then b else ByteAt(u.pages, parent, a))
  {
    var u1 := After(u, Fork(parent, child), Ok);
    var kp, kc := Key(parent, a / PGSIZE), Key(child, a / PGSIZE);
    assert kc in Range(child, 0, Pages(u.sz[parent]));
    assert u1.pages[kc] == u.pages[kp] && u1.pages[kp] == u.pages[kp];
    var o := a % PGSIZE;
    assert a == a / PGSIZE * PGSIZE + o;
  }
}
