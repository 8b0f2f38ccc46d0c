/** What a call on the split-ordered table answers: every call that ends leaves one result, and a call that runs
    while no other does behaves as on a sequential map. */
module SplitAnswers {
  import opened SplitOrder
  import opened SplitList
  import opened SplitThreads
  import opened SplitHistory

  // ---------- every call that ends leaves one result ----------

  /** The step is one of thread `tid`: if the thread returns, one result of its operation is added; otherwise none
      is, and the thread goes on with its operation or begins the one it is told to. */
  ghost predicate Answers(s: Sys, s': Sys, tid: nat, c: Choice)
    requires tid < |s.threads|
  {
    && |s'.threads| == |s.threads| && s'.threads == s.threads[tid := s'.threads[tid]]
    && var t, t' := s.threads[tid], s'.threads[tid];
       if t.Idle? then s'.done == s.done && !t'.Idle? && t'.op == c.op && t'.since == Now(s)
       else if t'.Idle? then
         |s'.done| == |s.done| + 1 && s'.done == s.done + [s'.done[|s.done|]]
         && s'.done[|s.done|].op == t.op && s'.done[|s.done|].since == t.since
       else s'.done == s.done && t'.op == t.op && t'.since == t.since
  }

  /** The same of the effect of a step. */
  ghost predicate Goes(t: Thread, o: Out)
    requires !t.Idle?
  {
    if o.thread.Idle? then |o.done| == 1 && o.done[0].op == t.op && o.done[0].since == t.since
    else o.done == [] && o.thread.op == t.op && o.thread.since == t.since
  }

  lemma SearchGoes(ord: Order, s: Sys, t: Thread)
    requires t.Search? && Ready(s.h, t)
    ensures Goes(t, SearchStep(ord, s, t))
  {
  }

  lemma ActGoes(ord: Order, s: Sys, t: Thread, c: Choice)
    requires Ready(s.h, t) && !t.Idle?
    ensures Goes(t, Act(ord, s, t, c))
  {
    if t.Search? {
      SearchGoes(ord, s, t);
    }
  }

  /** A step that takes a thread back to idle adds exactly one result, with the operation the thread was called
      with and the moment of the call; no other step adds one. */
  lemma StepAnswers(ord: Order, s: Sys, tid: nat, c: Choice)
    requires Inv(ord, s) && tid < |s.threads|
    ensures Answers(s, Step(ord, s, tid, c), tid, c)
  {
    var t := s.threads[tid];
    IsReady(ord, s, tid);
    if !t.Idle? {
      ActGoes(ord, s, t, c);
      GoesAnswers(s, tid, c, Act(ord, s, t, c));
    }
  }

  lemma GoesAnswers(s: Sys, tid: nat, c: Choice, o: Out)
    requires tid < |s.threads| && !s.threads[tid].Idle? && Goes(s.threads[tid], o)
    ensures Answers(s, Apply(s, tid, o), tid, c)
  {
  }

  lemma IsReady(ord: Order, s: Sys, tid: nat)
    requires Inv(ord, s) && tid < |s.threads|
    ensures Ready(s.h, s.threads[tid])
  {
    assert ThreadOk(ord, s.h, Now(s), s.threads[tid]);
  }

  // ---------- a call that runs alone ----------

  /** The state after thread `tid` has taken steps with these choices. */
  ghost function Alone(ord: Order, s: Sys, tid: nat, w: seq<Choice>): (s': Sys)
    decreases |w|
  {
    if w == [] then s else Alone(ord, Step(ord, s, tid, w[0]), tid, w[1..])
  }

  /** The call does not end on the way. */
  ghost predicate Busy(ord: Order, s: Sys, tid: nat, w: seq<Choice>)
    decreases |w|
  {
    && tid < |s.threads| && !s.threads[tid].Idle?
    && (w == [] || Busy(ord, Step(ord, s, tid, w[0]), tid, w[1..]))
  }

  /** What a stretch of steps of one thread leaves as it was. */
  ghost predicate Stretch(s: Sys, s': Sys, tid: nat)
    requires tid < |s.threads|
  {
    && |s'.threads| == |s.threads| && s'.threads == s.threads[tid := s'.threads[tid]]
    && |s'.past| >= |s.past| && s'.past[..|s.past|] == s.past
  }

  lemma {:induction false} StepStretch(ord: Order, s: Sys, tid: nat, c: Choice)
    requires Inv(ord, s) && History(s) && tid < |s.threads|
    ensures var s' := Step(ord, s, tid, c);
            && Inv(ord, s') && History(s') && Stretch(s, s', tid) && Answers(s, s', tid, c)
            && |s'.past| == |s.past| + 1
  {
    StepInv(ord, s, tid, c);
    StepHistory(ord, s, tid, c);
    StepAnswers(ord, s, tid, c);
    IsReady(ord, s, tid);
  }

  lemma StretchJoins(s: Sys, s1: Sys, s2: Sys, tid: nat)
    requires tid < |s.threads| && tid < |s1.threads| && Stretch(s, s1, tid) && Stretch(s1, s2, tid)
    ensures Stretch(s, s2, tid)
  {
    assert s2.past[..|s.past|] == s2.past[..|s1.past|][..|s.past|];
  }

  lemma {:induction false} BusyStretch(ord: Order, s: Sys, tid: nat, w: seq<Choice>)
    requires Inv(ord, s) && History(s) && tid < |s.threads| && Busy(ord, s, tid, w)
    ensures var s' := Alone(ord, s, tid, w);
            && Inv(ord, s') && History(s') && Stretch(s, s', tid) && !s'.threads[tid].Idle?
            && s'.done == s.done && s'.threads[tid].op == s.threads[tid].op
            && s'.threads[tid].since == s.threads[tid].since
    decreases |w|
  {
    if w != [] {
      var s1 := Step(ord, s, tid, w[0]);
      StepStretch(ord, s, tid, w[0]);
      BusyStretch(ord, s1, tid, w[1..]);
      StretchJoins(s, s1, Alone(ord, s, tid, w), tid);
    } else {
      assert s.past[..|s.past|] == s.past;
    }
  }

  // ---------- one call between two quiet states ----------

  /** One more result, the one of a sequential map, and the map that follows. */
  ghost predicate Outcome(s: Sys, s': Sys, op: Op, d: Done) {
    && s'.done == s.done + [d] && d.op == op
    && Right(Contents(s.h), d) && Contents(s'.h) == After(Contents(s.h), op)
  }

  ghost predicate AllIdle(s: Sys) {
    forall i :: 0 <= i < |s.threads| ==> s.threads[i] == Idle
  }

  lemma {:induction false} NoClaims(ts: seq<Thread>)
    requires forall i :: 0 <= i < |ts| ==> ts[i] == Idle
    ensures Claims(ts) == []
  {
    if ts != [] {
      NoClaims(ts[1..]);
    }
  }

  /** From moment `n` on, only operation `d` takes effect. */
  lemma {:induction false} OnlyOne(s: Sys, s': Sys, d: Done, m: nat)
    requires History(s) && AllIdle(s') && s'.done == s.done + [d] && m >= Now(s)
    ensures Own(All(s'), m) == One(d, m)
  {
    NoClaims(s'.threads);
    assert All(s') == s.done + [d];
    OwnConcat(s.done, [d], m);
    OwnOne(d, m);
    forall i | 0 <= i < |s.done| ensures s.done[i].late || s.done[i].at != m {
      assert Timely(s.h, |s.past|, s.done[i]);
    }
    OwnNone(s.done, m);
  }

  /** A node that died was taken by an operation of that moment. */
  lemma LateMeansOther(s: Sys, x: nat, m: nat)
    requires History(s) && DiedAt(s.h, x, m)
    ensures Own(All(s), m) != multiset{}
  {
    assert DeadOk(s.past, s.done, Own(All(s), s.h.nodes[x].died), s.h.nodes[x]);
  }

  lemma {:induction false} NotLate(s: Sys, s': Sys, d: Done)
    requires History(s) && History(s') && AllIdle(s') && s'.done == s.done + [d] && d.since >= Now(s)
    ensures !d.late && d.since <= d.at && d.at + 1 < |s'.past|
  {
    assert s'.done[|s.done|] == d;
    assert Timely(s'.h, |s'.past|, d);
    if d.late {
      var x: nat :| DiedAt(s'.h, x, d.at);
      OnlyOne(s, s', d, d.at);
      LateMeansOther(s', x, d.at);
    }
  }

  lemma {:induction false} SamePast(past: seq<map<int, int>>, a: nat, b: nat)
    requires a <= b < |past| && forall m :: a <= m < b ==> past[m + 1] == past[m]
    ensures past[b] == past[a]
    decreases b
  {
    if a < b {
      SamePast(past, a, b - 1);
      assert past[b - 1 + 1] == past[b - 1];
    }
  }

  lemma {:induction false} MomentIs(s: Sys, s': Sys, d: Done, m: nat)
    requires History(s) && History(s') && AllIdle(s') && s'.done == s.done + [d] && !d.late
    requires Now(s) <= m && m + 1 < |s'.past|
    ensures if m == d.at then Right(s'.past[m], d) && After(s'.past[m], d.op) == s'.past[m + 1]
            else s'.past[m + 1] == s'.past[m]
  {
    OnlyOne(s, s', d, m);
    assert MomentOk(s'.past, Own(All(s'), m), m);
    if m == d.at {
      Singled(Core(d));
    }
  }

  lemma Singled(d: Done)
    ensures multiset{d} != multiset{} && forall e :: multiset{d} == multiset{e} ==> e == d
  {
    forall e | multiset{d} == multiset{e} ensures e == d {
      assert e in multiset{e};
    }
  }

  /** Between two moments at which no call is in flight, with one call in between: it has the result of the map
      before, and leaves the map that follows. */
  lemma {:induction false} OneBetween(s: Sys, s': Sys, d: Done)
    requires History(s) && History(s') && AllIdle(s') && s'.done == s.done + [d] && d.since >= Now(s)
    requires |s'.past| >= |s.past| && s'.past[..|s.past|] == s.past
    ensures Right(Contents(s.h), d) && Contents(s'.h) == After(Contents(s.h), d.op)
  {
    var n, n' := |s.past| - 1, |s'.past| - 1;
    NotLate(s, s', d);
    assert s'.past[n] == s'.past[..|s.past|][n] == Contents(s.h);
    forall m | n <= m < n' && m != d.at ensures s'.past[m + 1] == s'.past[m] {
      MomentIs(s, s', d, m);
    }
    MomentIs(s, s', d, d.at);
    SamePast(s'.past, n, d.at);
    SamePast(s'.past, d.at + 1, n');
  }

  /** In every run: a call made while no other is in flight, and run to its end by itself, has the result of a
      sequential map and leaves the map that follows.  An insertion tells whether the key was new, a deletion
      whether it was present, a lookup gives its value; afterwards an inserted key is present with its value and
      a deleted one is absent. */
  lemma {:induction false} Sequential(hash: int -> Word, n: nat, schedule: seq<(nat, Choice)>, tid: nat, c: Choice,
                                      w: seq<Choice>, last: Choice)
    returns (d: Done)
    requires tid < n
    requires var ord := Source(hash);
             var s := RunOf(ord, Init(ord, n), schedule);
             var s1 := Step(ord, s, tid, c);
             && AllIdle(s) && Busy(ord, s1, tid, w)
             && AllIdle(Step(ord, Alone(ord, s1, tid, w), tid, last))
    ensures var ord := Source(hash);
            var s := RunOf(ord, Init(ord, n), schedule);
            var s' := Step(ord, Alone(ord, Step(ord, s, tid, c), tid, w), tid, last);
            Outcome(s, s', c.op, d)
  {
    var ord := Source(hash);
    SourceLaws(hash);
    InitInv(ord, n);
    InitHistory(ord, n);
    RunInv(ord, Init(ord, n), schedule);
    RunHistory(ord, Init(ord, n), schedule);
    RunThreads(ord, Init(ord, n), schedule);
    d := CallAlone(ord, RunOf(ord, Init(ord, n), schedule), tid, c, w, last);
  }

  lemma {:induction false} RunThreads(ord: Order, s: Sys, schedule: seq<(nat, Choice)>)
    ensures |RunOf(ord, s, schedule).threads| == |s.threads|
    decreases |schedule|
  {
    if schedule != [] {
      RunThreads(ord, s, schedule[..|schedule| - 1]);
    }
  }

  lemma {:induction false} CallAlone(ord: Order, s: Sys, tid: nat, c: Choice, w: seq<Choice>, last: Choice)
    returns (d: Done)
    requires Inv(ord, s) && History(s) && tid < |s.threads| && AllIdle(s)
    requires Busy(ord, Step(ord, s, tid, c), tid, w)
    requires AllIdle(Step(ord, Alone(ord, Step(ord, s, tid, c), tid, w), tid, last))
    ensures var s' := Step(ord, Alone(ord, Step(ord, s, tid, c), tid, w), tid, last);
            Outcome(s, s', c.op, d)
  {
    var s1 := Step(ord, s, tid, c);
    StepStretch(ord, s, tid, c);
    BusyStretch(ord, s1, tid, w);
    var s2 := Alone(ord, s1, tid, w);
    StepStretch(ord, s2, tid, last);
    var s' := Step(ord, s2, tid, last);
    StretchJoins(s, s1, s2, tid);
    StretchJoins(s, s2, s', tid);
    d := s'.done[|s.done|];
    OneBetween(s, s', d);
  }
}
