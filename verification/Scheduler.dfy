/** The coroutine scheduler of one worker thread.  Coroutine 0 polls for completions; the others issue
    requests and yield.  Runnable coroutines form a ring that begins with coroutine 0. */
module Scheduler {

  /** A request in flight: the queue pair it was posted to and the coroutine that waits for it. */
  datatype Request = Request(qp: int, coro: nat)

  /** `ring` in running order; `pending` is the list of queue pairs to poll, `flight` what the network
      still owes, oldest first; `run` has control. */
  datatype Sched = Sched(n: nat, ring: seq<nat>, counts: seq<nat>, pending: seq<int>, flight: seq<Request>, run: nat)

  // ---------- counting ----------

  function Owed(flight: seq<Request>, c: nat): (k: nat) {
    if flight == [] then 0 else (if flight[0].coro == c then 1 else 0) + Owed(flight[1..], c)
  }

  function Posted(flight: seq<Request>): (qps: multiset<int>) {
    if flight == [] then multiset{} else multiset{flight[0].qp} + Posted(flight[1..])
  }

  function Total(counts: seq<nat>): (k: nat) {
    if counts == [] then 0 else counts[0] + Total(counts[1..])
  }

  function Drop<T>(s: seq<T>, i: nat): (r: seq<T>)
    requires i < |s|
    ensures |r| == |s| - 1
  {
    s[..i] + s[i + 1..]
  }

  lemma {:induction false} OwedConcat(a: seq<Request>, b: seq<Request>, c: nat)
    ensures Owed(a + b, c) == Owed(a, c) + Owed(b, c)
  {
    if a == [] {
      assert a + b == b;
    } else {
      assert (a + b)[1..] == a[1..] + b;
      OwedConcat(a[1..], b, c);
    }
  }

  lemma {:induction false} PostedConcat(a: seq<Request>, b: seq<Request>)
    ensures Posted(a + b) == Posted(a) + Posted(b)
  {
    if a == [] {
      assert a + b == b;
    } else {
      assert (a + b)[1..] == a[1..] + b;
      PostedConcat(a[1..], b);
    }
  }

  lemma OneRequest(r: Request, c: nat)
    ensures Owed([r], c) == (if r.coro == c then 1 else 0) && Posted([r]) == multiset{r.qp}
  {
    assert [r][1..] == [];
  }

  lemma DropCounts(flight: seq<Request>, j: nat, c: nat)
    requires j < |flight|
    ensures Owed(Drop(flight, j), c) == Owed(flight, c) - if flight[j].coro == c then 1 else 0
    ensures Posted(flight) == Posted(Drop(flight, j)) + multiset{flight[j].qp}
  {
    var a, b, r := flight[..j], flight[j + 1..], flight[j];
    assert flight == a + [r] + b;
    OwedConcat(a + [r], b, c);
    OwedConcat(a, [r], c);
    OwedConcat(a, b, c);
    PostedConcat(a + [r], b);
    PostedConcat(a, [r]);
    PostedConcat(a, b);
    OneRequest(r, c);
  }

  lemma DropBag(s: seq<int>, i: nat)
    requires i < |s|
    ensures multiset(s) == multiset(Drop(s, i)) + multiset{s[i]}
  {
    assert s == s[..i] + [s[i]] + s[i + 1..];
  }

  lemma {:induction false} TotalUpdate(counts: seq<nat>, c: nat, v: nat)
    requires c < |counts|
    ensures Total(counts[c := v]) == Total(counts) - counts[c] + v
  {
    if c == 0 {
      assert counts[c := v][1..] == counts[1..];
    } else {
      assert counts[c := v][1..] == counts[1..][c - 1 := v];
      TotalUpdate(counts[1..], c - 1, v);
    }
  }

  /** The oldest request in flight on a queue pair: requests on one queue pair complete in order. */
  function Oldest(flight: seq<Request>, qp: int): (j: nat)
    requires qp in Posted(flight)
    ensures j < |flight| && flight[j].qp == qp
    ensures forall i :: 0 <= i < j ==> flight[i].qp != qp
  {
    if flight[0].qp == qp then 0 else 1 + Oldest(flight[1..], qp)
  }

  // ---------- steps ----------

  /** AddPendingQP by the running worker. */
  function Issue(s: Sched, qp: int): (s': Sched)
    requires s.run < |s.counts|
  {
    s.(pending := s.pending + [qp], flight := s.flight + [Request(qp, s.run)],
      counts := s.counts[s.run := s.counts[s.run] + 1])
  }

  /** Yield by the running worker: with nothing outstanding it goes on; otherwise it leaves the ring and
      the next in the ring gets control. */
  function Yield(s: Sched): (s': Sched)
    requires s.run < |s.counts|
  {
    if s.counts[s.run] == 0 || |s.ring| < 2 then s
    else s.(ring := [s.ring[0]] + s.ring[2..], run := if |s.ring| == 2 then s.ring[0] else s.ring[2])
  }

  /** The poll of entry `i` of the pending list succeeds. */
  function Finish(s: Sched, i: nat): (s': Sched)
    requires i < |s.pending| && s.pending[i] in Posted(s.flight)
    requires forall j :: 0 <= j < |s.flight| ==> s.flight[j].coro < |s.counts| && s.counts[s.flight[j].coro] > 0
  {
    var j := Oldest(s.flight, s.pending[i]);
    var c := s.flight[j].coro;
    var k := s.counts[c] - 1;
    s.(pending := Drop(s.pending, i), flight := Drop(s.flight, j), counts := s.counts[c := k],
       ring := if k == 0 then s.ring + [c] else s.ring)
  }

  ghost predicate Inv(s: Sched) {
    && s.n >= 1 && |s.counts| == s.n
    && s.ring != [] && s.ring[0] == 0
    && (forall i :: 0 <= i < |s.ring| ==> s.ring[i] < s.n)
    && (forall i, j :: 0 <= i < j < |s.ring| ==> s.ring[i] != s.ring[j])
    && (forall c :: 0 <= c < s.n ==> s.counts[c] == Owed(s.flight, c))
    && (forall j :: 0 <= j < |s.flight| ==> 1 <= s.flight[j].coro < s.n)
    && multiset(s.pending) == Posted(s.flight)
    && Total(s.counts) == |s.pending|
    && (forall c :: 1 <= c < s.n && c != s.run ==> (c !in s.ring <==> s.counts[c] > 0))
    && (s.run == 0 || (|s.ring| >= 2 && s.run == s.ring[1]))
  }

  lemma {:induction false} InFlightOwed(flight: seq<Request>, j: nat)
    requires j < |flight|
    ensures Owed(flight, flight[j].coro) > 0
  {
    if j != 0 {
      InFlightOwed(flight[1..], j - 1);
    }
  }

  lemma IssueKeeps(s: Sched, qp: int)
    requires Inv(s) && s.run != 0
    ensures Inv(Issue(s, qp))
  {
    var s' := Issue(s, qp);
    forall c | 0 <= c < s.n ensures s'.counts[c] == Owed(s'.flight, c) {
      OwedConcat(s.flight, [Request(qp, s.run)], c);
      OneRequest(Request(qp, s.run), c);
    }
    PostedConcat(s.flight, [Request(qp, s.run)]);
    OneRequest(Request(qp, s.run), 0);
    TotalUpdate(s.counts, s.run, s.counts[s.run] + 1);
  }

  /** Control passes only to coroutine 0 or to a worker with nothing outstanding. */
  lemma YieldKeeps(s: Sched)
    requires Inv(s) && s.run != 0
    ensures Inv(Yield(s))
    ensures s.counts[s.run] > 0 ==> Yield(s).run != s.run && s.run !in Yield(s).ring
    ensures Yield(s).run == s.run || Yield(s).run == 0 || s.counts[Yield(s).run] == 0
  {
    var s' := Yield(s);
    if s' != s {
      forall c | 1 <= c < s.n && c != s.run ensures c in s'.ring <==> c in s.ring {
        WithoutSecond(s.ring, c);
      }
      WithoutSecond(s.ring, s.run);
    }
  }

  lemma WithoutSecond(ring: seq<nat>, c: nat)
    requires |ring| >= 2 && forall i, j :: 0 <= i < j < |ring| ==> ring[i] != ring[j]
    ensures var r := [ring[0]] + ring[2..];
            && (forall i :: 0 <= i < |r| ==> r[i] == ring[if i == 0 then 0 else i + 1])
            && (c in r <==> c in ring && c != ring[1])
  {
    var r := [ring[0]] + ring[2..];
    if c in ring && c != ring[1] {
      var i :| 0 <= i < |ring| && ring[i] == c;
      assert r[if i == 0 then 0 else i - 1] == c;
    }
  }

  lemma FinishReady(s: Sched, i: nat)
    requires Inv(s) && i < |s.pending|
    ensures s.pending[i] in Posted(s.flight)
    ensures forall j :: 0 <= j < |s.flight| ==> s.flight[j].coro < |s.counts| && s.counts[s.flight[j].coro] > 0
  {
    assert s.pending[i] in multiset(s.pending);
    forall j | 0 <= j < |s.flight| ensures s.counts[s.flight[j].coro] > 0 {
      InFlightOwed(s.flight, j);
    }
  }

  lemma CancelOne(a: multiset<int>, b: multiset<int>, x: int)
    requires a + multiset{x} == b + multiset{x}
    ensures a == b
  {
    assert forall y :: (a + multiset{x})[y] == a[y] + multiset{x}[y];
    assert forall y :: (b + multiset{x})[y] == b[y] + multiset{x}[y];
  }

  lemma FinishCounts(s: Sched, j: nat, c: nat)
    requires Inv(s) && j < |s.flight| && c < s.n && s.counts[s.flight[j].coro] > 0
    ensures s.counts[s.flight[j].coro := s.counts[s.flight[j].coro] - 1][c] == Owed(Drop(s.flight, j), c)
  {
    DropCounts(s.flight, j, c);
  }

  lemma FinishBags(pending: seq<int>, flight: seq<Request>, i: nat, j: nat)
    requires i < |pending| && j < |flight| && flight[j].qp == pending[i] && multiset(pending) == Posted(flight)
    ensures multiset(Drop(pending, i)) == Posted(Drop(flight, j))
  {
    DropCounts(flight, j, 0);
    DropBag(pending, i);
    CancelOne(multiset(Drop(pending, i)), Posted(Drop(flight, j)), pending[i]);
  }

  lemma FinishBooks(s: Sched, i: nat)
    requires Inv(s) && i < |s.pending| && s.pending[i] in Posted(s.flight)
    requires forall j :: 0 <= j < |s.flight| ==> s.flight[j].coro < |s.counts| && s.counts[s.flight[j].coro] > 0
    ensures var s' := Finish(s, i);
            && (forall c :: 0 <= c < s.n ==> s'.counts[c] == Owed(s'.flight, c))
            && (forall j :: 0 <= j < |s'.flight| ==> 1 <= s'.flight[j].coro < s.n)
            && multiset(s'.pending) == Posted(s'.flight) && Total(s'.counts) == |s'.pending|
  {
    var j, s' := Oldest(s.flight, s.pending[i]), Finish(s, i);
    forall c | 0 <= c < s.n ensures s'.counts[c] == Owed(s'.flight, c) {
      FinishCounts(s, j, c);
    }
    FinishBags(s.pending, s.flight, i, j);
    TotalUpdate(s.counts, s.flight[j].coro, s.counts[s.flight[j].coro] - 1);
    forall m | 0 <= m < |s'.flight| ensures 1 <= s'.flight[m].coro < s.n {
      assert s'.flight[m] == s.flight[if m < j then m else m + 1];
    }
  }

  /** A completion while coroutine 0 polls: the coroutine it was for was outside the ring, and is appended
      exactly when nothing else is owed to it. */
  lemma FinishKeeps(s: Sched, i: nat)
    requires Inv(s) && s.run == 0 && i < |s.pending|
    ensures s.pending[i] in Posted(s.flight)
    ensures forall j :: 0 <= j < |s.flight| ==> s.flight[j].coro < |s.counts| && s.counts[s.flight[j].coro] > 0
    ensures Inv(Finish(s, i))
    ensures s.flight[Oldest(s.flight, s.pending[i])].coro !in s.ring
  {
    FinishReady(s, i);
    FinishBooks(s, i);
    FinishRing(s, i);
  }

  lemma RingAppend(ring: seq<nat>, n: nat, c: nat)
    requires ring != [] && ring[0] == 0 && c < n && c !in ring
    requires forall j :: 0 <= j < |ring| ==> ring[j] < n
    requires forall j, k :: 0 <= j < k < |ring| ==> ring[j] != ring[k]
    ensures var r := ring + [c];
            && r[0] == 0 && (forall j :: 0 <= j < |r| ==> r[j] < n)
            && (forall j, k :: 0 <= j < k < |r| ==> r[j] != r[k])
            && (forall d :: d in r <==> d in ring || d == c)
  {
  }

  lemma FinishRing(s: Sched, i: nat)
    requires Inv(s) && s.run == 0 && i < |s.pending| && s.pending[i] in Posted(s.flight)
    requires forall j :: 0 <= j < |s.flight| ==> s.flight[j].coro < |s.counts| && s.counts[s.flight[j].coro] > 0
    ensures var s' := Finish(s, i);
            && s'.ring != [] && s'.ring[0] == 0 && (forall j :: 0 <= j < |s'.ring| ==> s'.ring[j] < s.n)
            && (forall j, k :: 0 <= j < k < |s'.ring| ==> s'.ring[j] != s'.ring[k])
            && (forall d :: 1 <= d < s.n ==> (d !in s'.ring <==> s'.counts[d] > 0))
    ensures s.flight[Oldest(s.flight, s.pending[i])].coro !in s.ring
  {
    var c := s.flight[Oldest(s.flight, s.pending[i])].coro;
    assert c !in s.ring;
    RingAppend(s.ring, s.n, c);
  }

  // ---------- polling ----------

  /** PollRegularCompletion from entry `i` on; `done` tells which polls find a completion. */
  ghost function PollFrom(s: Sched, i: nat, done: seq<bool>): (s': Sched)
    requires Inv(s) && s.run == 0 && i + |done| == |s.pending|
    ensures Inv(s') && s'.run == 0
    decreases |done|
  {
    if done == [] then s
    else if done[0] then (FinishKeeps(s, i); PollFrom(Finish(s, i), i, done[1..]))
    else PollFrom(s, i + 1, done[1..])
  }

  /** The loop of coroutine 0: poll, then hand control to the first worker of the ring, if any. */
  ghost function Poll(s: Sched, done: seq<bool>): (s': Sched)
    requires Inv(s) && s.run == 0 && |done| == |s.pending|
  {
    var p := PollFrom(s, 0, done);
    if |p.ring| < 2 then p else p.(run := p.ring[1])
  }

  lemma PollKeeps(s: Sched, done: seq<bool>)
    requires Inv(s) && s.run == 0 && |done| == |s.pending|
    ensures Inv(Poll(s, done))
    ensures Poll(s, done).run == 0 || Poll(s, done).counts[Poll(s, done).run] == 0
  {
  }

  /** Polling only appends to the ring. */
  lemma {:induction false} PollAppends(s: Sched, i: nat, done: seq<bool>)
    requires Inv(s) && s.run == 0 && i + |done| == |s.pending|
    ensures s.ring <= PollFrom(s, i, done).ring
    decreases |done|
  {
    if done != [] {
      if done[0] {
        FinishKeeps(s, i);
        PollAppends(Finish(s, i), i, done[1..]);
      } else {
        PollAppends(s, i + 1, done[1..]);
      }
    }
  }

  // ---------- what a poll does ----------

  /** The entries whose poll found nothing, in order. */
  function Kept<T>(s: seq<T>, done: seq<bool>): (r: seq<T>)
    requires |s| == |done|
  {
    if s == [] then [] else (if done[0] then [] else [s[0]]) + Kept(s[1..], done[1..])
  }

  /** How many polls of queue pair `qp` found a completion. */
  function Found(pending: seq<int>, done: seq<bool>, qp: int): (k: nat)
    requires |pending| == |done|
  {
    if done == [] then 0
    else (if done[0] && pending[0] == qp then 1 else 0) + Found(pending[1..], done[1..], qp)
  }

  function Trues(done: seq<bool>): (k: nat) {
    if done == [] then 0 else (if done[0] then 1 else 0) + Trues(done[1..])
  }

  /** The requests in flight on one queue pair, oldest first. */
  function OnPair(flight: seq<Request>, qp: int): (r: seq<Request>) {
    if flight == [] then [] else (if flight[0].qp == qp then [flight[0]] else []) + OnPair(flight[1..], qp)
  }

  lemma {:induction false} NoneOn(flight: seq<Request>, qp: int)
    requires forall i :: 0 <= i < |flight| ==> flight[i].qp != qp
    ensures OnPair(flight, qp) == []
  {
    if flight != [] {
      NoneOn(flight[1..], qp);
    }
  }

  lemma {:induction false} OnPairParts(a: seq<Request>, r: Request, b: seq<Request>, q: int)
    ensures OnPair(a + [r] + b, q) == OnPair(a, q) + (if r.qp == q then [r] else []) + OnPair(b, q)
    ensures OnPair(a + b, q) == OnPair(a, q) + OnPair(b, q)
  {
    OnPairConcat(a + [r], b, q);
    OnPairConcat(a, [r], q);
    OnPairConcat(a, b, q);
    assert [r][1..] == [];
  }

  /** A completion takes the oldest request of its queue pair and leaves the other pairs alone. */
  lemma {:induction false} DropOldest(flight: seq<Request>, qp: int, q: int)
    requires qp in Posted(flight)
    ensures var r := OnPair(flight, q);
            q == qp ==> r != [] && OnPair(Drop(flight, Oldest(flight, qp)), q) == r[1..]
    ensures q != qp ==> OnPair(Drop(flight, Oldest(flight, qp)), q) == OnPair(flight, q)
  {
    var j := Oldest(flight, qp);
    var a, r, b := flight[..j], flight[j], flight[j + 1..];
    assert flight == a + [r] + b;
    OnPairParts(a, r, b, q);
    if q == qp {
      NoneOn(a, q);
    }
  }

  /** The list without entry `i`, which was found done. */
  lemma DropFound(pending: seq<int>, i: nat)
    requires i < |pending|
    ensures Drop(pending, i)[..i] == pending[..i] && Drop(pending, i)[i..] == pending[i..][1..]
  {
  }

  /** After a poll the list holds exactly the entries found not done, in their order. */
  lemma {:induction false} PollPending(s: Sched, i: nat, done: seq<bool>)
    requires Inv(s) && s.run == 0 && i + |done| == |s.pending|
    ensures PollFrom(s, i, done).pending == s.pending[..i] + Kept(s.pending[i..], done)
    ensures PollFrom(s, i, done).n == s.n && |PollFrom(s, i, done).flight| == |s.flight| - Trues(done)
    decreases |done|
  {
    if done == [] {
      assert s.pending[..i] == s.pending;
    } else if done[0] {
      FinishKeeps(s, i);
      TakeOne(s.pending, i, done);
      PollPending(Finish(s, i), i, done[1..]);
    } else {
      PollPending(s, i + 1, done[1..]);
      SkipOne(s.pending, i, done);
    }
  }

  /** Of every queue pair the oldest requests are gone, as many as polls of it found a completion. */
  lemma {:induction false} PollFlight(s: Sched, i: nat, done: seq<bool>, qp: int)
    requires Inv(s) && s.run == 0 && i + |done| == |s.pending|
    ensures var k := Found(s.pending[i..], done, qp);
            k <= |OnPair(s.flight, qp)| && OnPair(PollFrom(s, i, done).flight, qp) == OnPair(s.flight, qp)[k..]
    decreases |done|
  {
    if done == [] {
    } else if done[0] {
      FinishKeeps(s, i);
      PollFlight(Finish(s, i), i, done[1..], qp);
      FoundOne(s.pending, s.flight, i, done, qp);
    } else {
      PollFlight(s, i + 1, done[1..], qp);
      assert s.pending[i..][1..] == s.pending[i + 1..];
    }
  }

  /** The requests of queue pair `qp` that go with one completion found and with those that follow. */
  lemma FoundOne(pending: seq<int>, flight: seq<Request>, i: nat, done: seq<bool>, qp: int)
    requires i < |pending| && i + |done| == |pending| && done[0] && pending[i] in Posted(flight)
    requires Found(Drop(pending, i)[i..], done[1..], qp) <= |OnPair(Drop(flight, Oldest(flight, pending[i])), qp)|
    ensures var k := Found(pending[i..], done, qp);
            k <= |OnPair(flight, qp)| && OnPair(flight, qp)[k..]
              == OnPair(Drop(flight, Oldest(flight, pending[i])), qp)[Found(Drop(pending, i)[i..], done[1..], qp)..]
  {
    DropFound(pending, i);
    DropOldest(flight, pending[i], qp);
  }

  lemma TakeOne(pending: seq<int>, i: nat, done: seq<bool>)
    requires i < |pending| && i + |done| == |pending| && done[0]
    ensures Drop(pending, i)[..i] + Kept(Drop(pending, i)[i..], done[1..]) == pending[..i] + Kept(pending[i..], done)
  {
    DropFound(pending, i);
    assert Kept(pending[i..], done) == [] + Kept(pending[i..][1..], done[1..]);
  }

  lemma SkipOne(pending: seq<int>, i: nat, done: seq<bool>)
    requires i < |pending| && i + |done| == |pending| && !done[0]
    ensures pending[i..][1..] == pending[i + 1..]
    ensures pending[..i + 1] + Kept(pending[i + 1..], done[1..]) == pending[..i] + Kept(pending[i..], done)
  {
    assert pending[i..][1..] == pending[i + 1..];
    assert pending[..i + 1] == pending[..i] + [pending[i]];
  }

  lemma {:induction false} NoneKept(s: seq<int>, done: seq<bool>)
    requires |s| == |done| && forall i :: 0 <= i < |done| ==> done[i]
    ensures Kept(s, done) == []
  {
    if s != [] {
      NoneKept(s[1..], done[1..]);
    }
  }

  lemma {:induction false} NothingOwed(counts: seq<nat>)
    requires Total(counts) == 0
    ensures forall c :: 0 <= c < |counts| ==> counts[c] == 0
  {
    if counts != [] {
      NothingOwed(counts[1..]);
      assert forall c :: 1 <= c < |counts| ==> counts[c] == counts[1..][c - 1];
    }
  }

  /** When every poll finds a completion, nothing is pending afterwards and every worker is in the ring. */
  lemma PollAll(s: Sched, done: seq<bool>)
    requires Inv(s) && s.run == 0 && |done| == |s.pending| && forall i :: 0 <= i < |done| ==> done[i]
    ensures var s' := PollFrom(s, 0, done); s'.pending == [] && forall c :: 1 <= c < s.n ==> c in s'.ring
  {
    PollPending(s, 0, done);
    assert s.pending[0..] == s.pending;
    NoneKept(s.pending, done);
    NothingOwed(PollFrom(s, 0, done).counts);
  }

  /** After a round of coroutine 0, the first worker of the ring has control; it keeps it only if there is none. */
  lemma PollHandsOver(s: Sched, done: seq<bool>)
    requires Inv(s) && s.run == 0 && |done| == |s.pending|
    ensures var s' := Poll(s, done);
            && s'.run == (if |s'.ring| < 2 then 0 else s'.ring[1])
            && s'.pending == Kept(s.pending, done) && |s'.flight| == |s.flight| - Trues(done)
  {
    PollPending(s, 0, done);
    assert s.pending[0..] == s.pending;
  }

  /** A worker that issues a request and yields is outside the ring until the request is found done. */
  lemma IssueAndYield(s: Sched, qp: int)
    requires Inv(s) && s.run != 0
    ensures var s' := Yield(Issue(s, qp));
            && Inv(s') && s.run !in s'.ring && s'.run != s.run && s'.counts[s.run] == s.counts[s.run] + 1
            && s'.pending == s.pending + [qp] && OnPair(s'.flight, qp) == OnPair(s.flight, qp) + [Request(qp, s.run)]
  {
    IssueKeeps(s, qp);
    YieldKeeps(Issue(s, qp));
    OnPairConcat(s.flight, [Request(qp, s.run)], qp);
    assert [Request(qp, s.run)][1..] == [];
  }

  lemma {:induction false} OnPairConcat(a: seq<Request>, b: seq<Request>, qp: int)
    ensures OnPair(a + b, qp) == OnPair(a, qp) + OnPair(b, qp)
  {
    if a == [] {
      assert a + b == b;
    } else {
      assert (a + b)[1..] == a[1..] + b;
      OnPairConcat(a[1..], b, qp);
    }
  }

  // ---------- runs ----------

  datatype Action = DoIssue(qp: int) | DoYield | DoPoll(done: seq<bool>)

  /** One step; an action that the coroutine in control cannot take changes nothing. */
  ghost function Step(s: Sched, a: Action): (s': Sched)
    requires Inv(s)
    ensures Inv(s')
  {
    match a
    case DoIssue(qp) => if s.run == 0 then s else (IssueKeeps(s, qp); Issue(s, qp))
    case DoYield => if s.run == 0 then s else (YieldKeeps(s); Yield(s))
    case DoPoll(done) => if s.run != 0 || |done| != |s.pending| then s else (PollKeeps(s, done); Poll(s, done))
  }

  ghost function Run(s: Sched, acts: seq<Action>): (s': Sched)
    requires Inv(s)
    ensures Inv(s')
    decreases |acts|
  {
    if acts == [] then s else Run(Step(s, acts[0]), acts[1..])
  }

  /** In every reachable state a worker is outside the ring exactly when it waits, the pending list is as
      long as the counts add up to, and only a worker at the front of the ring runs. */
  lemma Reachable(n: nat, acts: seq<Action>)
    requires n >= 1
    ensures Inv(Start(n))
    ensures var s := Run(Start(n), acts);
            && (forall i, j :: 0 <= i < j < |s.ring| ==> s.ring[i] != s.ring[j])
            && (forall c :: 1 <= c < s.n && c != s.run ==> (c !in s.ring <==> s.counts[c] > 0))
            && |s.pending| == Total(s.counts) == |s.flight|
            && (s.run == 0 || (|s.ring| >= 2 && s.run == s.ring[1]))
  {
    StartInv(n);
    FlightSize(Run(Start(n), acts).flight);
  }

  lemma {:induction false} FlightSize(flight: seq<Request>)
    ensures |Posted(flight)| == |flight|
  {
    if flight != [] {
      FlightSize(flight[1..]);
    }
  }

  function UpTo(n: nat): (s: seq<nat>)
    ensures |s| == n && forall i :: 0 <= i < n ==> s[i] == i
  {
    if n == 0 then [] else UpTo(n - 1) + [n - 1]
  }

  function Zeros(n: nat): (s: seq<nat>)
    ensures |s| == n && forall i :: 0 <= i < n ==> s[i] == 0
  {
    if n == 0 then [] else [0] + Zeros(n - 1)
  }

  lemma {:induction false} TotalZeros(n: nat)
    ensures Total(Zeros(n)) == 0
  {
    if n != 0 {
      TotalZeros(n - 1);
      assert Zeros(n)[1..] == Zeros(n - 1);
    }
  }

  /** All coroutines linked in a ring, coroutine 0 in control. */
  function Start(n: nat): (s: Sched) {
    Sched(n, UpTo(n), Zeros(n), [], [], 0)
  }

  lemma StartInv(n: nat)
    requires n >= 1
    ensures Inv(Start(n))
  {
    TotalZeros(n);
    var s := Start(n);
    forall c | 1 <= c < n ensures c in s.ring {
      assert s.ring[c] == c;
    }
  }

  // ---------- order ----------

  /** The step takes the running worker out of the ring. */
  ghost predicate Leaves(s: Sched, a: Action) {
    a.DoYield? && s.run != 0 && s.run < |s.counts| && s.counts[s.run] > 0
  }

  /** Step `j` of a run leads from state `j` to state `j + 1`. */
  ghost predicate Moved(states: seq<Sched>, acts: seq<Action>, j: nat) {
    j < |acts| && j + 1 < |states| && Inv(states[j]) && states[j + 1] == Step(states[j], acts[j])
  }

  ghost predicate Walk(states: seq<Sched>, acts: seq<Action>) {
    |states| == |acts| + 1 && forall j {:trigger Moved(states, acts, j)} :: 0 <= j < |acts| ==> Moved(states, acts, j)
  }

  /** Departures among the first `j` steps. */
  ghost function Departures(states: seq<Sched>, acts: seq<Action>, j: nat): (k: nat)
    requires j <= |acts| && j <= |states|
  {
    if j == 0 then 0 else Departures(states, acts, j - 1) + if Leaves(states[j - 1], acts[j - 1]) then 1 else 0
  }

  /** A ready worker moves up by one place with every departure, and not otherwise. */
  lemma StepMovesUp(s: Sched, a: Action, i: nat)
    requires Inv(s) && 2 <= i < |s.ring|
    ensures var s' := Step(s, a); var i' := if Leaves(s, a) then i - 1 else i;
            && i' < |s'.ring| && s'.ring[i'] == s.ring[i]
            && (Leaves(s, a) && i == 2 ==> s'.run == s.ring[i])
  {
    if a.DoPoll? && s.run == 0 && |a.done| == |s.pending| {
      PollAppends(s, 0, a.done);
    }
  }

  lemma NotRunning(s: Sched, i: nat)
    requires Inv(s) && 2 <= i < |s.ring|
    ensures s.run != s.ring[i]
  {
  }

  /** Worker `w` stands at place `i` of the ring. */
  ghost predicate Stands(s: Sched, w: nat, i: nat) {
    2 <= i < |s.ring| && s.ring[i] == w
  }

  lemma StepStands(s: Sched, a: Action, w: nat, i: nat)
    requires Inv(s) && Stands(s, w, i) && (Leaves(s, a) ==> i > 2)
    ensures Stands(Step(s, a), w, if Leaves(s, a) then i - 1 else i)
  {
    StepMovesUp(s, a, i);
  }

  lemma {:induction false} MovesUp(states: seq<Sched>, acts: seq<Action>, w: nat, i: nat, j: nat)
    requires Walk(states, acts) && Stands(states[0], w, i) && j <= |acts| && Departures(states, acts, j) + 2 <= i
    ensures Stands(states[j], w, i - Departures(states, acts, j))
  {
    if j != 0 {
      MovesUp(states, acts, w, i, j - 1);
      assert Moved(states, acts, j - 1);
      StepStands(states[j - 1], acts[j - 1], w, i - Departures(states, acts, j - 1));
    }
  }

  lemma {:induction false} FewerBefore(states: seq<Sched>, acts: seq<Action>, m: nat, j: nat)
    requires Walk(states, acts) && m <= j <= |acts|
    ensures Departures(states, acts, m) <= Departures(states, acts, j)
    decreases j
  {
    if m < j {
      FewerBefore(states, acts, m, j - 1);
    }
  }

  /** First in, first out: a ready worker with `k` ring members between it and the head does not run
      before the `k`-th departure, and that departure hands control to it. */
  lemma FirstInFirstOut(states: seq<Sched>, acts: seq<Action>, k: nat, j: nat)
    requires Walk(states, acts) && 1 <= k && k + 1 < |states[0].ring|
    requires j < |acts| && Departures(states, acts, j) == k - 1 && Departures(states, acts, j + 1) == k
    ensures forall m :: 0 <= m <= j ==> states[m].run != states[0].ring[k + 1]
    ensures states[j + 1].run == states[0].ring[k + 1]
  {
    forall m | 0 <= m <= j ensures states[m].run != states[0].ring[k + 1] {
      FewerBefore(states, acts, m, j);
      MovesUp(states, acts, states[0].ring[k + 1], k + 1, m);
      assert Moved(states, acts, m);
      NotRunning(states[m], k + 1 - Departures(states, acts, m));
    }
    MovesUp(states, acts, states[0].ring[k + 1], k + 1, j);
    assert Moved(states, acts, j);
    StepMovesUp(states[j], acts[j], 2);
  }
}
