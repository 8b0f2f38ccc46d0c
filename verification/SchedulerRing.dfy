/** The scheduler with its intrusive list: arrays of links updated in place, proved against the ring of
    `Scheduler`. */
module SchedulerRing {
  import opened Scheduler

  /** The successor of place `i` of the ring. */
  function After(ring: seq<nat>, i: nat): (c: nat)
    requires i < |ring|
  {
    if i + 1 < |ring| then ring[i + 1] else ring[0]
  }

  /** The links lead around the ring.  Only the predecessor of the head may be stale. */
  ghost predicate Links(ring: seq<nat>, next: seq<nat>, prev: seq<nat>, i: nat) {
    && i < |ring| && ring[i] < |next| && ring[i] < |prev|
    && next[ring[i]] == After(ring, i)
    && (i > 0 ==> prev[ring[i]] == ring[i - 1])
  }

  ghost predicate Linked(ring: seq<nat>, next: seq<nat>, prev: seq<nat>, tail: nat) {
    && ring != [] && tail == ring[|ring| - 1]
    && forall i {:trigger Links(ring, next, prev, i)} :: 0 <= i < |ring| ==> Links(ring, next, prev, i)
  }

  ghost predicate Distinct(ring: seq<nat>) {
    forall i, j :: 0 <= i < j < |ring| ==> ring[i] != ring[j]
  }

  /** Taking the second member out. */
  lemma UnlinkKeeps(ring: seq<nat>, next: seq<nat>, prev: seq<nat>, tail: nat)
    requires Linked(ring, next, prev, tail) && Distinct(ring) && |ring| >= 2 && |next| == |prev|
    ensures var c := ring[1];
            && c < |next| && prev[c] == ring[0] < |next| && next[c] < |next|
            && next[c] == (if |ring| == 2 then ring[0] else ring[2])
            && Linked([ring[0]] + ring[2..], next[prev[c] := next[c]], prev[next[c] := prev[c]],
                      if tail == c then prev[c] else tail)
  {
    assert Links(ring, next, prev, 0) && Links(ring, next, prev, 1) && Links(ring, next, prev, |ring| - 1);
    if |ring| > 2 {
      assert Links(ring, next, prev, 2);
    }
    var c := ring[1];
    var r, n', p' := [ring[0]] + ring[2..], next[prev[c] := next[c]], prev[next[c] := prev[c]];
    forall i | 0 <= i < |r| ensures Links(r, n', p', i) {
      assert Links(ring, next, prev, if i == 0 then 0 else i + 1);
      assert r[i] == ring[if i == 0 then 0 else i + 1];
    }
  }

  /** Appending a coroutine behind the tail. */
  lemma AppendKeeps(ring: seq<nat>, next: seq<nat>, prev: seq<nat>, tail: nat, c: nat)
    requires Linked(ring, next, prev, tail) && Distinct(ring) && c !in ring && c < |next| == |prev|
    ensures tail < |next| && Linked(ring + [c], next[tail := c][c := ring[0]], prev[c := tail], c)
  {
    assert Links(ring, next, prev, |ring| - 1);
    var r, n', p' := ring + [c], next[tail := c][c := ring[0]], prev[c := tail];
    forall i | 0 <= i < |r| ensures Links(r, n', p', i) {
      if i < |ring| {
        assert Links(ring, next, prev, i);
      }
    }
  }

  /** All coroutines linked in order. */
  lemma FullCircle(n: nat, next: seq<nat>, prev: seq<nat>)
    requires n >= 1 && |next| == |prev| == n
    requires forall i :: 0 <= i < n ==> next[i] == if i + 1 < n then i + 1 else 0
    requires forall i :: 0 < i < n ==> prev[i] == i - 1
    ensures Linked(UpTo(n), next, prev, n - 1) && forall c :: 0 <= c < n ==> c in UpTo(n)
  {
    forall i | 0 <= i < n ensures Links(UpTo(n), next, prev, i) {
    }
    forall c | 0 <= c < n ensures c in UpTo(n) {
      assert UpTo(n)[c] == c;
    }
  }

  class Coroutines {
    const n: nat
    const next: array<nat>
    const prev: array<nat>
    const wait: array<bool>      // is_wait_poll
    const counts: array<nat>     // pending_counts
    var pending: seq<int>        // pending_qps
    var flight: seq<Request>     // what the network still owes
    var tail: nat
    var run: nat
    ghost var ring: seq<nat>

    ghost function State(): (s: Sched)
      reads this, counts
    {
      Sched(n, ring, counts[..], pending, flight, run)
    }

    ghost predicate Shape()
      reads this
    {
      && n >= 1 && next.Length == prev.Length == wait.Length == counts.Length == n
      && next != prev && next != counts && prev != counts
    }

    ghost predicate Valid()
      reads this, next, prev, wait, counts
    {
      && Shape() && Inv(State()) && Linked(ring, next[..], prev[..], tail)
      && run < n && !wait[run] && (forall c :: 0 <= c < n && c !in ring ==> wait[c])
    }

    /** The constructor and LoopLinkCoroutine. */
    constructor (n: nat)
      requires n >= 1
      ensures Valid() && State() == Start(n)
    {
      this.n := n;
      next := new nat[n](i => i + 1);
      prev := new nat[n](i => if i > 0 then i - 1 else 0);
      wait := new bool[n](i => false);
      counts := new nat[n](i => 0);
      pending, flight, tail, run := [], [], n - 1, 0;
      ring := UpTo(n);
      new;
      prev[0] := n - 1;
      next[n - 1] := 0;
      StartInv(n);
      assert counts[..] == Zeros(n);
      FullCircle(n, next[..], prev[..]);
    }

    /** AddPendingQP, by the running worker. */
    method AddPending(qp: int)
      requires Valid() && run != 0
      modifies this`pending, this`flight, counts
      ensures Valid() && State() == Issue(old(State()), qp)
    {
      IssueKeeps(State(), qp);
      pending := pending + [qp];
      flight := flight + [Request(qp, run)];
      counts[run] := counts[run] + 1;
    }

    /** RunCoroutine: hand control to `c`. */
    method RunCoroutine(c: nat)
      requires c < wait.Length
      modifies this`run, wait
      ensures run == c && wait[..] == old(wait[..])[c := false]
    {
      wait[c] := false;
      run := c;
    }

    /** Yield, by the running worker. */
    method YieldNow()
      requires Valid() && run != 0
      modifies this`tail, this`run, this`ring, next, prev, wait
      ensures Valid() && State() == Yield(old(State()))
    {
      ghost var s := State();
      YieldKeeps(s);
      if counts[run] == 0 {
        return;
      }
      UnlinkKeeps(ring, next[..], prev[..], tail);
      var c := run;
      var follower := next[c];
      next[prev[c]] := follower;
      prev[follower] := prev[c];
      if tail == c {
        tail := prev[c];
      }
      wait[c] := true;
      ring := [ring[0]] + ring[2..];
      RunCoroutine(follower);
      forall d | 0 <= d < n && d !in ring ensures wait[d] {
        if d in s.ring && d != s.run {
          StillIn(s, d);
        }
      }
    }

    /** AppendCoroutine: a coroutine that is not waiting stays where it is. */
    method Append(c: nat)
      requires Shape() && c < n && Distinct(ring) && Linked(ring, next[..], prev[..], tail) && ring[0] == 0
      requires wait[c] ==> c !in ring
      modifies this`tail, this`ring, next, prev
      ensures ring == (if wait[c] then old(ring) + [c] else old(ring)) && Linked(ring, next[..], prev[..], tail)
    {
      if !wait[c] {
        return;
      }
      AppendKeeps(ring, next[..], prev[..], tail, c);
      var before := tail;
      next[before] := c;
      tail := c;
      next[c] := 0;
      prev[c] := before;
      ring := ring + [c];
    }

    /** One completion found by PollRegularCompletion. */
    method Complete(i: nat)
      requires Valid() && run == 0 && i < |pending|
      modifies this`pending, this`flight, this`tail, this`ring, next, prev, counts
      ensures Valid()
      ensures pending == Drop(old(pending), i) && old(Completes(i)) == State()
    {
      ghost var s := State();
      FinishKeeps(s, i);
      var j := Oldest(flight, pending[i]);
      var c := flight[j].coro;
      counts[c] := counts[c] - 1;
      if counts[c] == 0 {
        Append(c);
      }
      pending := pending[..i] + pending[i + 1..];
      flight := flight[..j] + flight[j + 1..];
      assert State() == Finish(s, i);
    }

    ghost function Completes(i: nat): (s: Sched)
      requires Valid() && run == 0 && i < |pending|
      reads this, next, prev, wait, counts
    {
      FinishKeeps(State(), i);
      Finish(State(), i)
    }

    /** PollRegularCompletion: `done` tells which polls find a completion. */
    method PollRegular(done: seq<bool>)
      requires Valid() && run == 0 && |done| == |pending|
      modifies this`pending, this`flight, this`tail, this`ring, next, prev, counts
      ensures Valid() && State() == PollFrom(old(State()), 0, done)
      ensures pending == Kept(old(pending), done) && |flight| == |old(flight)| - Trues(done)
    {
      ghost var s := State();
      PollPending(s, 0, done);
      assert pending[0..] == pending;
      var i, k := 0, 0;
      while i < |pending|
        invariant Valid() && k <= |done| && i + (|done| - k) == |pending|
        invariant PollFrom(s, 0, done) == PollFrom(State(), i, done[k..])
        decreases |done| - k
      {
        assert done[k..][1..] == done[k + 1..];
        if done[k] {
          Complete(i);
        } else {
          i := i + 1;
        }
        k := k + 1;
      }
    }

    /** One round of the poll loop of coroutine 0. */
    method PollLoop(done: seq<bool>)
      requires Valid() && run == 0 && |done| == |pending|
      modifies this, next, prev, wait, counts
      ensures Valid() && State() == Poll(old(State()), done)
      ensures run == if |ring| < 2 then 0 else ring[1]
    {
      ghost var s := State();
      PollKeeps(s, done);
      PollHandsOver(s, done);
      PollRegular(done);
      HandOver();
    }

    /** The other half: control goes to the first worker of the ring, if there is one. */
    method HandOver()
      requires Valid() && run == 0
      modifies this`run, wait
      ensures State() == if |ring| < 2 then old(State()) else old(State()).(run := ring[1])
      ensures Inv(State()) ==> Valid()
    {
      assert Links(ring, next[..], prev[..], 0);
      var c := next[0];
      if c != 0 {
        RunCoroutine(c);
      }
    }
  }

  lemma StillIn(s: Sched, d: nat)
    requires Inv(s) && s.run != 0 && d in s.ring && d != s.run
    ensures d in [s.ring[0]] + s.ring[2..]
  {
    var i :| 0 <= i < |s.ring| && s.ring[i] == d;
    assert ([s.ring[0]] + s.ring[2..])[if i == 0 then 0 else i - 1] == d;
  }
}
