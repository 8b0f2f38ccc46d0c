/** A call on the split-ordered table that runs alone ends, from every state other threads may have left it in:
    at the latest its second attempt at a compare-and-swap succeeds. */
module SplitEnds {
  import opened SplitOrder
  import opened SplitList
  import opened SplitThreads
  import opened SplitHistory
  import opened SplitAnswers

  // ---------- how much of the list is left ----------

  /** The number of nodes of the list from `n` on. */
  ghost function Behind(list: seq<nat>, n: nat): (c: nat) {
    if list == [] then 0 else if list[0] == n then |list| else Behind(list[1..], n)
  }

  lemma {:induction false} BehindIs(list: seq<nat>, k: nat)
    requires k < |list| && forall i :: 0 <= i < k ==> list[i] != list[k]
    ensures Behind(list, list[k]) == |list| - k
  {
    if k > 0 {
      BehindIs(list[1..], k - 1);
    }
  }

  lemma {:induction false} BehindMost(list: seq<nat>, n: nat)
    ensures Behind(list, n) <= |list|
  {
    if list != [] {
      BehindMost(list[1..], n);
    }
  }

  lemma NextIsCloser(h: Heap, prev: nat, cur: nat)
    requires Ok(h) && Sees(h, prev, cur)
    ensures Behind(h.list, cur) < Behind(h.list, prev)
  {
    var k := Neighbours(h, prev, cur);
    NoEarlier(h, k);
    NoEarlier(h, k + 1);
    BehindIs(h.list, k);
    BehindIs(h.list, k + 1);
  }

  lemma UnlinkIsCloser(h: Heap, prev: nat, cur: nat, next: int)
    requires Ok(h) && Sees(h, prev, cur) && cur < |h.nodes|
    ensures Behind(Unlink(h, prev, cur, next).list, prev) < Behind(h.list, prev)
  {
    var k := UnlinkIs(h, prev, cur, next);
    NoEarlier(h, k);
    BehindIs(h.list, k);
    BehindIs(Unlink(h, prev, cur, next).list, k);
  }

  lemma SomeLeft(h: Heap, prev: nat)
    requires Ok(h) && prev < |h.nodes| && !h.nodes[prev].marked
    ensures 0 < Behind(h.list, prev) <= |h.list|
  {
    var k := Position(h, prev);
    NoEarlier(h, k);
    BehindIs(h.list, k);
  }

  // ---------- how far a thread is ----------

  /** Compared from left to right. */
  datatype Rank = Rank(kind: nat, path: nat, stale: bool, left: nat, phase: nat)

  predicate Below(r: Rank, q: Rank) {
    if r.kind != q.kind then r.kind < q.kind
    else if r.path != q.path then r.path < q.path
    else if r.stale != q.stale then q.stale
    else if r.left != q.left then r.left < q.left
    else r.phase < q.phase
  }

  /** The registers still show the shared state: the next compare-and-swap will succeed. */
  ghost predicate Current(h: Heap, t: Thread)
    requires Ready(h, t)
  {
    match t
    case Search(_, _, _, _, prev, cur, phase) => PhaseCurrent(h, prev, cur, phase)
    case Linking(_, _, _, _, prev, cur) => Sees(h, prev, cur)
    case Reread(_, _, node, val) => h.nodes[node].val == val
    case Peek(_, _, _, prev, node) => !h.nodes[node].marked
    case Marking(_, _, _, prev, node, next) => Sees(h, node, next)
    case _ => true
  }

  ghost predicate PhaseCurrent(h: Heap, prev: nat, cur: int, phase: Phase)
    requires cur < |h.nodes| && (phase.Check? || phase.Restart? || cur >= 0)
  {
    match phase
    case Restart => true
    case Check => Sees(h, prev, cur)
    case Read => Sees(h, prev, cur)
    case Help(_) => Sees(h, prev, cur)
    case Minus(next) => Sees(h, prev, next)
    case Settle(next) => Sees(h, prev, cur) && Sees(h, cur, next)
  }

  ghost function Kind(t: Thread): (k: nat) {
    match t
    case Idle => 0
    case Seek(_, _, _) => 8
    case Reload(_, _, _, _) => 7
    case Publish(_, _, _, _, _) => 7
    case Search(_, _, task, _, _, _, _) => TaskKind(task)
    case Linking(_, _, task, _, _, _) => TaskKind(task)
    case Peek(_, _, _, _, _) => 6
    case Marking(_, _, _, _, _, _) => 6
    case Cutting(_, _, _, _, _, _, _) => 5
    case Swap(_, _, _) => 3
    case Load(_, _, _) => 3
    case Reread(_, _, _, _) => 3
    case Plus(_, _, _) => 2
    case Bump(_, _, _) => 1
    case Last(_, _, _) => 1
  }

  ghost function TaskKind(task: Task): (k: nat) {
    match task
    case MakeDummy(_, _) => 7
    case Run => 6
    case Clean(_, _) => 4
  }

  /** The buckets still to be found or made. */
  ghost function PathLeft(t: Thread): (n: nat) {
    match t
    case Seek(_, _, path) => if path == [] then 0 else LastOf(path)
    case Reload(_, _, path, _) => 3 * |path|
    case Publish(_, _, _, path, _) => 3 * |path| + 1
    case Search(_, _, task, _, _, _, _) => TaskPath(task)
    case Linking(_, _, task, _, _, _) => TaskPath(task)
    case _ => 0
  }

  ghost function TaskPath(task: Task): (n: nat) {
    if task.MakeDummy? then 3 * |task.path| + 2 else 0
  }

  /** The nodes between an up-to-date search and the end of the list. */
  ghost function NodesLeft(h: Heap, t: Thread): (n: nat)
    requires Ready(h, t)
  {
    if !t.Search? || !Current(h, t) then 0
    else if t.phase.Restart? then |h.list| + 1
    else Behind(h.list, t.prev)
  }

  ghost function PhaseLeft(t: Thread, stale: bool): (n: nat) {
    match t
    case Search(_, _, _, _, _, _, phase) => SearchLeft(phase, stale)
    case Load(_, _, _) => 2
    case Peek(_, _, _, _, _) => 2
    case _ => 1
  }

  ghost function SearchLeft(phase: Phase, stale: bool): (n: nat) {
    match phase
    case Restart => 9
    case Read => 8
    case Help(_) => 7
    case Settle(_) => 7
    case Minus(_) => if stale then 6 else 10
    case Check => if stale then 5 else 9
  }

  ghost function RankOf(h: Heap, t: Thread): (r: Rank)
    requires Ready(h, t)
  {
    var stale := !Current(h, t);
    Rank(Kind(t), PathLeft(t), stale, NodesLeft(h, t), PhaseLeft(t, stale))
  }

  // ---------- every step brings the thread closer ----------

  /** What the thread may rely on. */
  ghost predicate Known(ord: Order, s: Sys, t: Thread) {
    true == (
      Ok(s.h) && 0 in s.table && ThreadOk(ord, s.h, Now(s), t) && Ready(s.h, t)
    )
  }

  ghost predicate Closer(s: Sys, t: Thread, o: Out)
    requires Ready(s.h, t)
  {
    o.thread.Idle? || (Ready(o.h, o.thread) ==> Below(RankOf(o.h, o.thread), RankOf(s.h, t)))
  }

  lemma ParentIsLess(b: nat)
    requires b >= 1
    ensures Parent(b) < b
  {
  }

  lemma PathCloser(ord: Order, s: Sys, t: Thread)
    requires Known(ord, s, t)
    ensures t.Seek? ==> Closer(s, t, SeekStep(s, t))
    ensures t.Reload? ==> Closer(s, t, ReloadStep(s, t))
  {
    if t.Seek? && LastOf(t.path) >= 1 {
      ParentIsLess(LastOf(t.path));
    }
  }

  lemma EndCloser(ord: Order, s: Sys, t: Thread, found: bool)
    requires Known(ord, s, t) && t.Search? && Sees(s.h, t.prev, t.cur)
    requires (t.phase.Check? && !found) || t.phase.Settle?
    ensures Closer(s, t, SearchEnd(s, t, found))
  {
    SomeLeft(s.h, t.prev);
  }

  lemma RestartCloser(ord: Order, s: Sys, t: Thread)
    requires Known(ord, s, t) && t.Search? && t.phase.Restart?
    ensures Closer(s, t, SearchStep(ord, s, t))
  {
    assert !s.h.nodes[t.head].marked;
    SomeLeft(s.h, t.head);
  }

  lemma CheckCloser(ord: Order, s: Sys, t: Thread)
    requires Known(ord, s, t) && t.Search?
    requires t.phase.Check? || t.phase.Minus? || t.phase.Read?
    ensures Closer(s, t, SearchStep(ord, s, t))
  {
    if t.phase.Check? && Sees(s.h, t.prev, t.cur) && t.cur < 0 {
      EndCloser(ord, s, t, false);
    }
  }

  lemma HelpCloser(ord: Order, s: Sys, t: Thread)
    requires Known(ord, s, t) && t.Search? && t.phase.Help?
    ensures Closer(s, t, SearchStep(ord, s, t))
  {
    if Sees(s.h, t.prev, t.cur) {
      UnlinkIsCloser(s.h, t.prev, t.cur, t.phase.next);
    }
  }

  lemma SettleCloser(ord: Order, s: Sys, t: Thread)
    requires Known(ord, s, t) && t.Search? && t.phase.Settle?
    ensures Closer(s, t, SearchStep(ord, s, t))
  {
    var goal, a := Goal(ord, t.op, t.task), s.h.nodes[t.cur].tag;
    if Sees(s.h, t.prev, t.cur) {
      NextIsCloser(s.h, t.prev, t.cur);
      if !Less(a, goal) {
        EndCloser(ord, s, t, !Less(goal, a));
      }
    }
  }

  lemma SearchCloser(ord: Order, s: Sys, t: Thread)
    requires Known(ord, s, t) && t.Search?
    ensures Closer(s, t, SearchStep(ord, s, t))
  {
    match t.phase
    case Restart => RestartCloser(ord, s, t);
    case Help(_) => HelpCloser(ord, s, t);
    case Settle(_) => SettleCloser(ord, s, t);
    case _ => CheckCloser(ord, s, t);
  }

  lemma SwapsCloser(ord: Order, s: Sys, t: Thread, c: Choice)
    requires Known(ord, s, t) && !c.spurious
    requires t.Linking? || t.Marking? || t.Cutting?
    ensures Closer(s, t, Act(ord, s, t, c))
  {
  }

  lemma ActCloser(ord: Order, s: Sys, t: Thread, c: Choice)
    requires Known(ord, s, t) && !t.Idle? && !c.spurious
    ensures Closer(s, t, Act(ord, s, t, c))
  {
    if t.Search? {
      SearchCloser(ord, s, t);
    } else if t.Linking? || t.Marking? || t.Cutting? {
      SwapsCloser(ord, s, t, c);
    } else if t.Seek? || t.Reload? {
      PathCloser(ord, s, t);
    }
  }

  // ---------- the call ends ----------

  ghost function Distance(s: Sys, tid: nat): (r: Rank) {
    if tid < |s.threads| && Ready(s.h, s.threads[tid]) then RankOf(s.h, s.threads[tid]) else Rank(0, 0, false, 0, 0)
  }

  ghost predicate Sound(ord: Order, s: Sys) {
    true == Inv(ord, s)
  }

  lemma StepCloser(ord: Order, s: Sys, tid: nat, c: Choice)
    requires Sound(ord, s) && Waits(s, tid) && !c.spurious
    ensures var s' := Step(ord, s, tid, c);
            Sound(ord, s') && |s'.threads| == |s.threads|
            && (!Waits(s', tid) || Below(Distance(s', tid), Distance(s, tid)))
  {
    StepInv(ord, s, tid, c);
    IsReady(ord, s, tid);
    IsReady(ord, Step(ord, s, tid, c), tid);
    ActCloser(ord, s, s.threads[tid], c);
  }

  /** The choices `i`, `i + 1`, ... of an endless supply. */
  ghost function Taken(cs: nat -> Choice, i: nat, n: nat): (w: seq<Choice>)
    ensures |w| == n
  {
    seq(n, j requires 0 <= j < n => cs(i + j))
  }

  lemma TakenFirst(cs: nat -> Choice, i: nat, n: nat)
    ensures Taken(cs, i, n + 1)[0] == cs(i) && Taken(cs, i, n + 1)[1..] == Taken(cs, i + 1, n)
  {
  }

  /** The thread has a call to finish. */
  ghost predicate Waits(s: Sys, tid: nat) {
    tid < |s.threads| && !s.threads[tid].Idle?
  }

  /** The call ends in the step after the first `n`. */
  ghost predicate EndsAfter(ord: Order, s: Sys, tid: nat, cs: nat -> Choice, i: nat, n: nat) {
    var w := Taken(cs, i, n);
    && Busy(ord, s, tid, w)
    && var s' := Step(ord, Alone(ord, s, tid, w), tid, cs(i + n)); tid < |s'.threads| && s'.threads[tid].Idle?
  }

  lemma EndsNow(ord: Order, s: Sys, tid: nat, cs: nat -> Choice, i: nat)
    requires Waits(s, tid) && |Step(ord, s, tid, cs(i)).threads| == |s.threads|
    requires !Waits(Step(ord, s, tid, cs(i)), tid)
    ensures EndsAfter(ord, s, tid, cs, i, 0)
  {
  }

  lemma EndsLater(ord: Order, s: Sys, tid: nat, cs: nat -> Choice, i: nat, n: nat)
    requires Waits(s, tid) && EndsAfter(ord, Step(ord, s, tid, cs(i)), tid, cs, i + 1, n)
    ensures EndsAfter(ord, s, tid, cs, i, n + 1)
  {
    TakenFirst(cs, i, n);
  }

  /** Each step keeps `keeps` and either ends the call or lowers `rank`. */
  ghost predicate Descent(ord: Order, keeps: Sys -> bool, rank: Sys -> Rank, tid: nat, cs: nat -> Choice, s: Sys,
                          i: nat) {
    keeps(s) && Waits(s, tid) ==>
      var s' := Step(ord, s, tid, cs(i));
      keeps(s') && |s'.threads| == |s.threads| && (!Waits(s', tid) || Below(rank(s'), rank(s)))
  }

  lemma {:induction false} FiniteDescent(ord: Order, keeps: Sys -> bool, rank: Sys -> Rank, s: Sys, tid: nat,
                                         cs: nat -> Choice, i: nat, r: Rank)
    returns (n: nat)
    requires forall x, j: nat {:trigger Descent(ord, keeps, rank, tid, cs, x, j)} ::
               Descent(ord, keeps, rank, tid, cs, x, j)
    requires keeps(s) && Waits(s, tid) && r == rank(s)
    ensures EndsAfter(ord, s, tid, cs, i, n)
    decreases r.kind, r.path, r.stale, r.left, r.phase
  {
    assert Descent(ord, keeps, rank, tid, cs, s, i);
    var s1 := Step(ord, s, tid, cs(i));
    if Waits(s1, tid) {
      n := FiniteDescent(ord, keeps, rank, s1, tid, cs, i + 1, rank(s1));
      EndsLater(ord, s, tid, cs, i, n);
      n := n + 1;
    } else {
      n := 0;
      EndsNow(ord, s, tid, cs, i);
    }
  }

  lemma {:induction false} Ends(ord: Order, s: Sys, tid: nat, cs: nat -> Choice, i: nat) returns (n: nat)
    requires Inv(ord, s) && Waits(s, tid) && forall j :: !cs(j).spurious
    ensures EndsAfter(ord, s, tid, cs, i, n)
  {
    var keeps, rank := (x: Sys) => Sound(ord, x), (x: Sys) => Distance(x, tid);
    forall x, j: nat ensures Descent(ord, keeps, rank, tid, cs, x, j) {
      if Sound(ord, x) && Waits(x, tid) {
        StepCloser(ord, x, tid, cs(j));
      }
    }
    n := FiniteDescent(ord, keeps, rank, s, tid, cs, i, rank(s));
  }

  /** Obstruction freedom: in every state of every run, whatever the other threads have left undone, a thread that
      is left to run alone finishes its call, if its weak compare-and-swaps do not fail for no reason. */
  lemma {:induction false} ObstructionFree(hash: int -> Word, n: nat, schedule: seq<(nat, Choice)>, tid: nat,
                                           cs: nat -> Choice)
    returns (steps: nat)
    requires forall j :: !cs(j).spurious
    requires Waits(RunOf(Source(hash), Init(Source(hash), n), schedule), tid)
    ensures EndsAfter(Source(hash), RunOf(Source(hash), Init(Source(hash), n), schedule), tid, cs, 0, steps)
  {
    var ord := Source(hash);
    SourceLaws(hash);
    InitInv(ord, n);
    RunInv(ord, Init(ord, n), schedule);
    var s := RunOf(ord, Init(ord, n), schedule);
    steps := Ends(ord, s, tid, cs, 0);
  }

  lemma {:induction false} Completed(ord: Order, s: Sys, tid: nat, cs: nat -> Choice) returns (steps: nat, d: Done)
    requires Inv(ord, s) && History(s) && tid < |s.threads| && AllIdle(s) && forall j :: !cs(j).spurious
    ensures Completion(ord, s, tid, cs, steps, d)
  {
    StepStretch(ord, s, tid, cs(0));
    var s1 := Step(ord, s, tid, cs(0));
    steps := Ends(ord, s1, tid, cs, 1);
    EndsIdle(ord, s, tid, cs(0), Taken(cs, 1, steps), cs(1 + steps));
    d := CallAlone(ord, s, tid, cs(0), Taken(cs, 1, steps), cs(1 + steps));
  }

  lemma {:induction false} EndsIdle(ord: Order, s: Sys, tid: nat, c: Choice, w: seq<Choice>, last: Choice)
    requires Inv(ord, s) && History(s) && tid < |s.threads| && AllIdle(s) && Busy(ord, Step(ord, s, tid, c), tid, w)
    requires !Waits(Step(ord, Alone(ord, Step(ord, s, tid, c), tid, w), tid, last), tid)
    ensures AllIdle(Step(ord, Alone(ord, Step(ord, s, tid, c), tid, w), tid, last))
  {
    var s1 := Step(ord, s, tid, c);
    StepStretch(ord, s, tid, c);
    BusyStretch(ord, s1, tid, w);
    StepStretch(ord, Alone(ord, s1, tid, w), tid, last);
  }

  /** Thread `tid` begins a call and ends it after `steps` more steps, with the outcome of a sequential map. */
  ghost predicate Completion(ord: Order, s: Sys, tid: nat, cs: nat -> Choice, steps: nat, d: Done) {
    var s1 := Step(ord, s, tid, cs(0));
    && EndsAfter(ord, s1, tid, cs, 1, steps)
    && Outcome(s, Step(ord, Alone(ord, s1, tid, Taken(cs, 1, steps)), tid, cs(1 + steps)), cs(0).op, d)
  }

  /** In every run: a call begun while no other is in flight and left to run alone ends, with the result of a
      sequential map, and leaves the map that follows. */
  lemma {:induction false} Completes(hash: int -> Word, n: nat, schedule: seq<(nat, Choice)>, tid: nat,
                                     cs: nat -> Choice)
    returns (steps: nat, d: Done)
    requires tid < n && (forall j :: !cs(j).spurious)
             && AllIdle(RunOf(Source(hash), Init(Source(hash), n), schedule))
    ensures Completion(Source(hash), RunOf(Source(hash), Init(Source(hash), n), schedule), tid, cs, steps, d)
  {
    var ord := Source(hash);
    SourceLaws(hash);
    InitInv(ord, n);
    InitHistory(ord, n);
    RunInv(ord, Init(ord, n), schedule);
    RunHistory(ord, Init(ord, n), schedule);
    RunThreads(ord, Init(ord, n), schedule);
    steps, d := Completed(ord, RunOf(ord, Init(ord, n), schedule), tid, cs);
  }
}
