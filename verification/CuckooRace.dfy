/** The run in which the comparison of hashpowers does not protect.  One thread reads the hashpower and the lock
    container and then stalls; another doubles the table, which replaces the container, and doubles it again;
    in the second doubling the hashpower shown is for a moment the one the first thread read. */
module CuckooRace {
  import opened Bits
  import opened CuckooIndex
  import opened CuckooBuckets
  import T = CuckooTable
  import F = CuckooSearch
  import opened CuckooLocks
  import opened CuckooThreads
  import G = CuckooGuard

  // ---------- runs in which searches give up for a reason ----------

  /** No displacement within reach frees a slot for the key. */
  ghost predicate Exhausted(cfg: Config, s: Sys, th: Thread)
    requires th.Hunt?
  {
    th.op.Insert? ==>
      F.NoPath(cfg, th.hp, T.View(cfg, s.t), Home(cfg, th.hp, th.op.k), Other(cfg, th.hp, th.op.k))
  }

  ghost predicate Justified(cfg: Config, s: Sys, tid: nat, ch: Choice) {
    ch.GiveUp? && tid < |s.threads| && s.threads[tid].Hunt? ==> Exhausted(cfg, s, s.threads[tid])
  }

  /** Every search that gives up has nothing to find. */
  ghost predicate Honest(cfg: Config, s: Sys, w: seq<(nat, Choice)>)
    decreases |w|
  {
    w != [] && T.Shape(cfg, s.t) ==>
      Justified(cfg, s, w[0].0, w[0].1) && Honest(cfg, Step(cfg, s, w[0].0, w[0].1), w[1..])
  }

  ghost predicate Leads(cfg: Config, s: Sys, s': Sys) {
    exists w: seq<(nat, Choice)> :: Run(cfg, s, w) == s' && Honest(cfg, s, w)
  }

  lemma {:induction false} RunAppend(cfg: Config, s: Sys, w: seq<(nat, Choice)>, tid: nat, ch: Choice)
    requires Honest(cfg, s, w) && T.Shape(cfg, Run(cfg, s, w).t) && Justified(cfg, Run(cfg, s, w), tid, ch)
    ensures Run(cfg, s, w + [(tid, ch)]) == Step(cfg, Run(cfg, s, w), tid, ch) && Honest(cfg, s, w + [(tid, ch)])
    decreases |w|
  {
    if w == [] {
      OneStep(cfg, s, tid, ch);
      assert w + [(tid, ch)] == [(tid, ch)];
    } else {
      RunAppend(cfg, Step(cfg, s, w[0].0, w[0].1), w[1..], tid, ch);
      assert (w + [(tid, ch)])[1..] == w[1..] + [(tid, ch)];
    }
  }

  lemma OneStep(cfg: Config, s: Sys, tid: nat, ch: Choice)
    requires T.Shape(cfg, s.t) && Justified(cfg, s, tid, ch)
    ensures Run(cfg, s, [(tid, ch)]) == Step(cfg, s, tid, ch) && Honest(cfg, s, [(tid, ch)])
  {
    var w := [(tid, ch)];
    assert w[1..] == [];
    assert Run(cfg, Step(cfg, s, tid, ch), w[1..]) == Step(cfg, s, tid, ch);
    assert Honest(cfg, Step(cfg, s, tid, ch), w[1..]);
  }

  lemma LeadsOn(cfg: Config, s0: Sys, s: Sys, tid: nat, ch: Choice)
    requires Leads(cfg, s0, s) && T.Shape(cfg, s.t) && Justified(cfg, s, tid, ch)
    ensures Leads(cfg, s0, Step(cfg, s, tid, ch))
  {
    var w :| Run(cfg, s0, w) == s && Honest(cfg, s0, w);
    RunAppend(cfg, s0, w, tid, ch);
    assert Run(cfg, s0, w + [(tid, ch)]) == Step(cfg, s, tid, ch);
  }

  lemma LeadsInv(cfg: Config, s0: Sys, s: Sys)
    requires Inv(cfg, s0) && Leads(cfg, s0, s)
    ensures Inv(cfg, s)
  {
    var w :| Run(cfg, s0, w) == s && Honest(cfg, s0, w);
    RunInv(cfg, s0, w);
  }

  /** Some set of states, `P`, that keeps the invariant and is closed under such steps. */
  ghost predicate KeepsInv(cfg: Config, P: Sys -> bool, s: Sys) {
    P(s) ==> Inv(cfg, s)
  }

  ghost predicate KeepsOn(cfg: Config, P: Sys -> bool, s: Sys, tid: nat, ch: Choice) {
    P(s) && T.Shape(cfg, s.t) && Justified(cfg, s, tid, ch) ==> P(Step(cfg, s, tid, ch))
  }

  ghost predicate Closed(cfg: Config, P: Sys -> bool) {
    && (forall s :: KeepsInv(cfg, P, s))
    && (forall s, tid: nat, ch :: KeepsOn(cfg, P, s, tid, ch))
  }

  ghost predicate On(cfg: Config, P: Sys -> bool, s: Sys) {
    true == (Closed(cfg, P) && P(s))
  }

  lemma OnInv(cfg: Config, P: Sys -> bool, s: Sys)
    requires On(cfg, P, s)
    ensures Inv(cfg, s)
  {
    assert KeepsInv(cfg, P, s);
  }

  lemma OnTable(cfg: Config, P: Sys -> bool, s: Sys)
    requires On(cfg, P, s)
    ensures T.Inv(cfg, s.t)
  {
    OnInv(cfg, P, s);
  }

  lemma Goes(cfg: Config, P: Sys -> bool, s: Sys, tid: nat, ch: Choice)
    requires On(cfg, P, s) && Justified(cfg, s, tid, ch)
    ensures T.Shape(cfg, s.t) && On(cfg, P, Step(cfg, s, tid, ch))
  {
    OnTable(cfg, P, s);
    assert KeepsOn(cfg, P, s, tid, ch);
  }

  // ---------- taking locks that are free ----------

  lemma FreeLock(s: Sys, c: nat, l: nat)
    requires LocksOk(s) && c < |s.locks| && l < |s.locks[c]|
    requires forall i :: 0 <= i < |s.threads| ==> !Holds(s.threads[i], c, l)
    ensures s.locks[c][l] == Free
  {
  }

  /** Only the thread and the locks differ. */
  ghost predicate Quietly(s: Sys, s': Sys, tid: nat, th: Thread)
    requires tid < |s.threads|
  {
    && s'.t == s.t && s'.front == s.front && s'.fault == s.fault && s'.log == s.log
    && s'.threads == s.threads[tid := th] && |s'.locks| == |s.locks|
    && forall c :: 0 <= c < |s.locks| ==> |s'.locks[c]| == |s.locks[c]|
  }

  /** Nobody else holds the locks the thread needs, and the hashpower shown is the one it read. */
  ghost predicate MayEnter(cfg: Config, s: Sys, tid: nat, th: Thread)
    requires th.Acquire? || th.Verify? || th.Migrate?
  {
    && tid < |s.threads| && s.threads[tid] == th && !s.fault && s.t.hp <= cfg.lockBits
    && s.front.shown == th.hp && th.goal.Direct?
    && (forall i, l :: 0 <= i < |s.threads| && i != tid && l in th.need ==> !Holds(s.threads[i], th.c, l))
  }

  lemma AllMigrated(cfg: Config, t: T.Table)
    requires T.Shape(cfg, t) && t.hp <= cfg.lockBits
    ensures T.Unmigrated(t.mig) == 0 && forall l :: 0 <= l < |t.mig| ==> t.mig[l]
  {
    if t.rem > 0 {
      Pow2Monotone(t.hp, cfg.lockBits);
    }
    T.UnmigratedZero(t.mig);
  }

  lemma NotYet(th: Thread)
    requires th.Acquire? && th.got < |th.need| && Ascending(th.need)
    ensures !Holds(th, th.c, th.need[th.got])
  {
  }

  lemma TakesOne(cfg: Config, P: Sys -> bool, s: Sys, tid: nat, th: Thread) returns (s': Sys)
    requires th.Acquire? && On(cfg, P, s) && MayEnter(cfg, s, tid, th)
    ensures On(cfg, P, s') && th.got < |th.need| && Quietly(s, s', tid, WithOneMore(th))
  {
    OnInv(cfg, P, s);
    assert ThreadOk(cfg, s, th);
    NeedInRange(cfg, th.op, th.hp, th.goal);
    var l := th.need[th.got];
    assert l in th.need;
    NotYet(th);
    FreeLock(s, th.c, l);
    Goes(cfg, P, s, tid, Go);
    s' := Step(cfg, s, tid, Go);
  }

  lemma ComparesOne(cfg: Config, P: Sys -> bool, s: Sys, tid: nat, th: Thread) returns (s': Sys)
    requires th.Verify? && On(cfg, P, s) && MayEnter(cfg, s, tid, th)
    ensures On(cfg, P, s') && th.need != []
    ensures Quietly(s, s', tid,
              if |th.need| == 1 then Migrate(th.op, th.hp, th.goal, th.c, th.need, 0)
              else Acquire(th.op, th.hp, th.goal, th.c, th.need, 1))
  {
    OnInv(cfg, P, s);
    assert ThreadOk(cfg, s, th);
    Goes(cfg, P, s, tid, Go);
    s' := Step(cfg, s, tid, Go);
  }

  lemma {:induction false} MigratesOn(cfg: Config, P: Sys -> bool, s: Sys, tid: nat, th: Thread) returns (s': Sys)
    requires th.Migrate? && th.m <= |th.need| && On(cfg, P, s) && MayEnter(cfg, s, tid, th)
    ensures On(cfg, P, s') && Quietly(s, s', tid, Work(th.op, th.hp, th.goal, th.c, th.need))
    decreases |th.need| - th.m
  {
    OnInv(cfg, P, s);
    assert ThreadOk(cfg, s, th);
    AllMigrated(cfg, s.t);
    Goes(cfg, P, s, tid, Go);
    s' := Step(cfg, s, tid, Go);
    if th.m < |th.need| {
      NeedOfTable(cfg, s, th);
      s' := MigratesOn(cfg, P, s', tid, MigratedOne(th));
    }
  }

  lemma NeedsTwo(cfg: Config, op: Op, hp: nat)
    ensures 1 <= |Need(cfg, op, hp, Direct)| <= 2
  {
  }

  /** Free locks are taken and the comparison is passed. */
  lemma Enters(cfg: Config, P: Sys -> bool, s: Sys, tid: nat, th: Thread) returns (s': Sys)
    requires th.Acquire? && th.got == 0 && On(cfg, P, s) && MayEnter(cfg, s, tid, th)
    ensures On(cfg, P, s') && Quietly(s, s', tid, Work(th.op, th.hp, th.goal, th.c, th.need))
  {
    OnInv(cfg, P, s);
    assert ThreadOk(cfg, s, th);
    NeedsTwo(cfg, th.op, th.hp);
    s' := TakesOne(cfg, P, s, tid, th);
    s' := ComparesOne(cfg, P, s', tid, Verify(th.op, th.hp, th.goal, th.c, th.need));
    if |th.need| == 2 {
      s' := TakesOne(cfg, P, s', tid, Acquire(th.op, th.hp, th.goal, th.c, th.need, 1));
    }
    s' := MigratesOn(cfg, P, s', tid, Migrate(th.op, th.hp, th.goal, th.c, th.need, 0));
  }

  // ---------- keys that all have the same hash ----------

  ghost function KeysTo(ks: seq<Key>, j: nat): (m: set<Key>)
    requires j <= |ks|
    ensures forall i :: 0 <= i < j ==> ks[i] in m
    ensures forall k :: k in m ==> exists i :: 0 <= i < j && ks[i] == k
  {
    if j == 0 then {} else KeysTo(ks, j - 1) + {ks[j - 1]}
  }

  /** Different keys with one hash. */
  ghost predicate Colliding(cfg: Config, ks: seq<Key>) {
    && (forall i, j :: 0 <= i < j < |ks| ==> ks[i] != ks[j])
    && (forall i, j :: 0 <= i < |ks| && 0 <= j < |ks| ==> cfg.hash(ks[i]) == cfg.hash(ks[j]))
  }

  lemma {:induction false} KeysToSize(ks: seq<Key>, j: nat)
    requires j <= |ks| && forall a, b :: 0 <= a < b < |ks| ==> ks[a] != ks[b]
    ensures |KeysTo(ks, j)| == j
    decreases j
  {
    if j > 0 {
      KeysToSize(ks, j - 1);
      assert ks[j - 1] !in KeysTo(ks, j - 1);
    }
  }

  ghost function KeysIn(bkt: Bucket): (m: set<Key>)
    ensures forall s :: 0 <= s < |bkt| && bkt[s].Full? ==> bkt[s].e.key in m
    ensures |m| <= |bkt|
  {
    if bkt == [] then {}
    else
      var m := KeysIn(bkt[1..]);
      assert forall s :: 1 <= s < |bkt| ==> bkt[s] == bkt[1..][s - 1];
      if bkt[0].Full? then m + {bkt[0].e.key} else m
  }

  /** The two buckets of a hash have room for so many keys, at every hashpower. */
  lemma AtMost(cfg: Config, t: T.Table, ks: seq<Key>, j: nat)
    requires T.Inv(cfg, t) && Colliding(cfg, ks) && 1 <= j <= |ks| && KeysTo(ks, j) <= T.Abs(cfg, t).Keys
    ensures j <= 2 * cfg.slots
  {
    var i1, i2 := Home(cfg, t.hp, ks[0]), Other(cfg, t.hp, ks[0]);
    assert InRange(cfg, t.hp, ks[0]);
    var a, b := T.View(cfg, t)[i1], T.View(cfg, t)[i2];
    T.ViewOk(cfg, t, i1);
    T.ViewOk(cfg, t, i2);
    forall k | k in KeysTo(ks, j) ensures k in KeysIn(a) + KeysIn(b) {
      var i, s := T.InView(cfg, t, k);
      assert i == i1 || i == i2;
    }
    KeysToSize(ks, j);
    Within(KeysTo(ks, j), KeysIn(a), KeysIn(b));
  }

  /** Twice as many colliding keys as a bucket has slots, and one more, fit no table: without a maximum hashpower
      the insertion of the last of them doubles the table for ever. */
  lemma NeverFits(cfg: Config, t: T.Table, ks: seq<Key>)
    requires T.Inv(cfg, t) && Colliding(cfg, ks) && |ks| == 2 * cfg.slots + 1
    ensures exists i :: 0 <= i < |ks| && ks[i] !in T.Abs(cfg, t)
  {
    if forall i :: 0 <= i < |ks| ==> ks[i] in T.Abs(cfg, t) {
      AtMost(cfg, t, ks, |ks|);
    }
  }

  lemma Within(m: set<Key>, a: set<Key>, b: set<Key>)
    requires m <= a + b
    ensures |m| <= |a| + |b|
  {
    Larger(m, a + b);
    assert a + b == a + (b - a);
    Larger(b - a, b);
  }

  lemma {:induction false} Larger(m: set<Key>, n: set<Key>)
    requires m <= n
    ensures |m| <= |n|
    decreases m
  {
    if m != {} {
      var k :| k in m;
      Larger(m - {k}, n - {k});
    }
  }

  /** If all keys of the table have one hash, no path leaves their two buckets. */
  lemma {:induction false} StaysAtHome(cfg: Config, t: T.Table, k: Key, b: nat, slots: seq<nat>)
    requires T.Shape(cfg, t) && OneHash(cfg, t, k) && Placed(cfg, t.hp, k, b)
    ensures Placed(cfg, t.hp, k, F.Reach(cfg, t.hp, t.cur, b, slots))
    decreases |slots|
  {
    if slots != [] {
      var front, last := slots[..|slots| - 1], slots[|slots| - 1];
      StaysAtHome(cfg, t, k, b, front);
      var r := F.Reach(cfg, t.hp, t.cur, b, front);
      if r < |t.cur| && last < |t.cur[r]| && t.cur[r][last].Full? {
        assert T.BucketOk(cfg, t.hp, r, t.cur[r]) && T.SlotOk(cfg, t.hp, r, t.cur[r][last]);
        assert OneHashAt(cfg, t, k, r, last);
        assert AltStays(cfg, t.hp, k, r);
      }
    }
  }

  ghost predicate OneHashAt(cfg: Config, t: T.Table, k: Key, b: nat, s: nat) {
    b < |t.cur| && s < |t.cur[b]| && t.cur[b][s].Full? ==> cfg.hash(t.cur[b][s].e.key) == cfg.hash(k)
  }

  ghost predicate OneHash(cfg: Config, t: T.Table, k: Key) {
    forall b: nat, s: nat :: OneHashAt(cfg, t, k, b, s)
  }

  lemma KeysCollide(cfg: Config, t: T.Table, ks: seq<Key>, j: nat, k: Key)
    requires T.Inv(cfg, t) && t.hp <= cfg.lockBits && Colliding(cfg, ks) && j <= |ks| && k in ks
    requires T.Abs(cfg, t).Keys == KeysTo(ks, j)
    ensures OneHash(cfg, t, k)
  {
    AllMigrated(cfg, t);
    forall b: nat, s: nat ensures OneHashAt(cfg, t, k, b, s) {
      if b < |t.cur| && s < |t.cur[b]| && t.cur[b][s].Full? {
        var k' := t.cur[b][s].e.key;
        T.LookupTwoBuckets(cfg, t, k');
        assert T.HoldsAt(t, k', b, s);
        assert k' in T.Abs(cfg, t).Keys;
      }
    }
  }

  ghost predicate BothFull(cfg: Config, t: T.Table, k: Key) {
    && Home(cfg, t.hp, k) < |t.cur| && F.FullBucket(t.cur[Home(cfg, t.hp, k)])
    && Other(cfg, t.hp, k) < |t.cur| && F.FullBucket(t.cur[Other(cfg, t.hp, k)])
  }

  /** Both buckets are full of keys with the same hash: the search has nothing to find. */
  lemma NothingToFind(cfg: Config, t: T.Table, k: Key)
    requires T.Shape(cfg, t) && t.hp <= cfg.lockBits && OneHash(cfg, t, k)
    requires BothFull(cfg, t, k)
    ensures F.NoPath(cfg, t.hp, T.View(cfg, t), Home(cfg, t.hp, k), Other(cfg, t.hp, k))
  {
    AllMigrated(cfg, t);
    T.NothingPending(cfg, t);
    var i1, i2 := Home(cfg, t.hp, k), Other(cfg, t.hp, k);
    assert InRange(cfg, t.hp, k);
    forall q: F.Path | |q.slots| < cfg.pathLen && F.Digits(cfg.slots, q)
      ensures F.EndsFull(cfg, t.hp, t.cur, i1, i2, q) {
      StaysAtHome(cfg, t, k, F.StartOf(i1, i2, q), q.slots);
    }
  }

  // ---------- inserting until the table is full ----------

  /** Thread 0 runs alone, thread 1 has stalled before its first lock, the others are idle; the map holds the
      first `j` keys and no doubling is going on. */
  ghost predicate Alone(cfg: Config, s: Sys, ks: seq<Key>, j: nat, stalled: Thread) {
    true == (
      && |s.threads| >= 2 && s.threads[1] == stalled && stalled.Acquire? && stalled.got == 0
      && (forall i :: 2 <= i < |s.threads| ==> s.threads[i] == Idle)
      && !s.threads[0].Doubling? && !s.fault && s.t.hp <= cfg.lockBits
      && Colliding(cfg, ks) && |ks| == 2 * cfg.slots + 1
      && j <= |ks| && Same(T.Abs(cfg, s.t).Keys, KeysTo(ks, j))
    )
  }

  lemma NobodyElse(s: Sys, i: nat, c: nat, l: nat)
    requires |s.threads| >= 2 && s.threads[1].Acquire? && s.threads[1].got == 0 && 1 <= i < |s.threads|
    requires forall x :: 2 <= x < |s.threads| ==> s.threads[x] == Idle
    ensures !Holds(s.threads[i], c, l)
  {
  }

  lemma AloneQuiet(cfg: Config, s: Sys, ks: seq<Key>, j: nat, stalled: Thread)
    requires Alone(cfg, s, ks, j, stalled)
    ensures NoDoubling(s.threads)
  {
  }

  lemma ShownWhenQuiet(cfg: Config, P: Sys -> bool, s: Sys)
    requires On(cfg, P, s) && NoDoubling(s.threads)
    ensures s.front.shown == s.t.hp == s.front.lockHp && !s.front.bare
  {
    OnInv(cfg, P, s);
  }

  lemma NotDoubling(cfg: Config, P: Sys -> bool, s: Sys, ks: seq<Key>, j: nat, stalled: Thread)
    requires On(cfg, P, s) && Alone(cfg, s, ks, j, stalled)
    ensures s.front.shown == s.t.hp == s.front.lockHp && !s.front.bare
  {
    AloneQuiet(cfg, s, ks, j, stalled);
    ShownWhenQuiet(cfg, P, s);
  }

  lemma AloneWith(cfg: Config, s: Sys, s': Sys, ks: seq<Key>, j: nat, j': nat, stalled: Thread, th: Thread)
    requires Alone(cfg, s, ks, j, stalled) && s'.threads == s.threads[0 := th] && !th.Doubling? && !s'.fault
    requires s'.t.hp <= cfg.lockBits && j' <= |ks| && Same(T.Abs(cfg, s'.t).Keys, KeysTo(ks, j'))
    ensures Alone(cfg, s', ks, j', stalled)
  {
  }

  lemma StillAlone(cfg: Config, s: Sys, s': Sys, ks: seq<Key>, j: nat, stalled: Thread, th: Thread)
    requires Alone(cfg, s, ks, j, stalled) && Quietly(s, s', 0, th) && !th.Doubling?
    ensures Alone(cfg, s', ks, j, stalled)
  {
  }

  lemma Snaps(cfg: Config, P: Sys -> bool, s: Sys, tid: nat, op: Op) returns (s': Sys)
    requires On(cfg, P, s) && tid < |s.threads| && s.threads[tid] == Snapshot(op) && !s.fault
    ensures On(cfg, P, s') && s.locks != []
    ensures var hp := s.front.shown;
            Quietly(s, s', tid, Acquire(op, hp, Direct, |s.locks| - 1, Need(cfg, op, hp, Direct), 0))
  {
    Goes(cfg, P, s, tid, Go);
    var s1 := Step(cfg, s, tid, Go);
    assert Quietly(s, s1, tid, Fetch(op, s.front.shown, Direct));
    s' := Fetches(cfg, P, s1, tid);
  }

  lemma Fetches(cfg: Config, P: Sys -> bool, s: Sys, tid: nat) returns (s': Sys)
    requires On(cfg, P, s) && tid < |s.threads| && s.threads[tid].Fetch? && !s.fault
    ensures On(cfg, P, s') && s.locks != []
    ensures var Fetch(op, hp, goal) := s.threads[tid];
            Quietly(s, s', tid, Acquire(op, hp, goal, |s.locks| - 1, Need(cfg, op, hp, goal), 0))
  {
    OnInv(cfg, P, s);
    Goes(cfg, P, s, tid, Go);
    s' := Step(cfg, s, tid, Go);
  }

  /** From the snapshot to the critical section of an insertion. */
  lemma Reaches(cfg: Config, P: Sys -> bool, s: Sys, ks: seq<Key>, j: nat, stalled: Thread, op: Op)
    returns (s': Sys, th: Thread)
    requires On(cfg, P, s) && Alone(cfg, s, ks, j, stalled) && s.threads[0] == Snapshot(op)
    ensures On(cfg, P, s') && Quietly(s, s', 0, th) && th.Work? && th.op == op && th.goal.Direct?
    ensures !Astray(s', th.hp, th.c)
  {
    NotDoubling(cfg, P, s, ks, j, stalled);
    var s2 := Snaps(cfg, P, s, 0, op);
    var th2 := Acquire(op, s.t.hp, Direct, |s.locks| - 1, Need(cfg, op, s.t.hp, Direct), 0);
    StillAlone(cfg, s, s2, ks, j, stalled, th2);
    AloneMayEnter(cfg, s2, ks, j, stalled, th2);
    s' := Enters(cfg, P, s2, 0, th2);
    th := Work(op, s.t.hp, Direct, th2.c, th2.need);
  }

  lemma AloneMayEnter(cfg: Config, s: Sys, ks: seq<Key>, j: nat, stalled: Thread, th: Thread)
    requires Alone(cfg, s, ks, j, stalled) && s.threads[0] == th && th.Acquire? && th.goal.Direct?
    requires s.front.shown == th.hp
    ensures MayEnter(cfg, s, 0, th)
  {
    forall i, l | 0 <= i < |s.threads| && i != 0 && l in th.need ensures !Holds(s.threads[i], th.c, l) {
      NobodyElse(s, i, th.c, l);
    }
  }

  /** Inserting one of the keys: it is added, or its buckets are full. */
  lemma InsertsOne(cfg: Config, P: Sys -> bool, s: Sys, ks: seq<Key>, v: Val, j: nat, stalled: Thread)
    returns (s': Sys, added: bool)
    requires On(cfg, P, s) && Alone(cfg, s, ks, j, stalled) && j < |ks| && s.threads[0] == Snapshot(Insert(ks[j], v))
    ensures On(cfg, P, s') && Inserted(cfg, s, s', ks, v, j, stalled, added)
  {
    var s1, th := Reaches(cfg, P, s, ks, j, stalled, Insert(ks[j], v));
    StillAlone(cfg, s, s1, ks, j, stalled, th);
    Goes(cfg, P, s1, 0, Go);
    s' := Step(cfg, s1, 0, Go);
    OnInv(cfg, P, s1);
    HolderStep(cfg, s1, 0, Go);
    added := WorksOnce(cfg, s1, ks, v, j, stalled, th);
  }

  ghost predicate Inserted(cfg: Config, s: Sys, s': Sys, ks: seq<Key>, v: Val, j: nat, stalled: Thread, added: bool)
    requires j < |ks|
  {
    true == (
      && s'.t.hp == s.t.hp && s'.front == s.front && |s'.locks| == |s.locks|
      && Alone(cfg, s', ks, if added then j + 1 else j, stalled)
      && s'.threads[0] == (if added then Idle else Hunt(Insert(ks[j], v), s.t.hp))
      && (!added ==> BothFull(cfg, s'.t, ks[j]))
    )
  }

  lemma InsertShape(cfg: Config, s: Sys, th: Thread)
    requires T.Shape(cfg, s.t) && s.threads != [] && th.Work? && th.goal.Direct? && th.op.Insert?
    requires T.Lookup(cfg, s.t, th.op.k) == T.Nowhere
    ensures var q := Vacancy(cfg, s.t, th.op.k);
            && (q.At? && cfg.lock(q.b) < |s.t.cnt| ==>
                  Same(WorkStep(cfg, s, 0, th), Finish(s, 0,
                    T.Add(cfg, s.t, q.b, q.s, Entry(Tag(cfg, th.op.k), th.op.k, th.op.v)), th.op, Done(true))))
            && (!q.At? ==> Same(WorkStep(cfg, s, 0, th), Leave(s, 0, Hunt(th.op, th.hp))))
  {
  }

  lemma NotIn(cfg: Config, s: Sys, ks: seq<Key>, j: nat, stalled: Thread)
    requires Alone(cfg, s, ks, j, stalled) && j < |ks|
    ensures ks[j] !in T.Abs(cfg, s.t)
  {
    assert ks[j] !in KeysTo(ks, j);
  }

  lemma OneKeyMore(m: map<Key, Val>, ks: seq<Key>, j: nat, v: Val)
    requires j < |ks| && m.Keys == KeysTo(ks, j)
    ensures m[ks[j] := v].Keys == KeysTo(ks, j + 1)
  {
  }

  lemma AddedKeys(cfg: Config, t: T.Table, ks: seq<Key>, v: Val, j: nat, b: nat, x: nat)
    requires T.Inv(cfg, t) && j < |ks| && Same(T.Abs(cfg, t).Keys, KeysTo(ks, j)) && ks[j] !in T.Abs(cfg, t)
    requires b < |t.cur| && x < cfg.slots && !T.Pending(cfg, t, b) && t.cur[b][x] == Vacant
    requires Placed(cfg, t.hp, ks[j], b) && cfg.lock(b) < |t.cnt|
    ensures Same(T.Abs(cfg, T.Add(cfg, t, b, x, Entry(Tag(cfg, ks[j]), ks[j], v))).Keys, KeysTo(ks, j + 1))
  {
    T.AddKeeps(cfg, t, b, x, Entry(Tag(cfg, ks[j]), ks[j], v));
    OneKeyMore(T.Abs(cfg, t), ks, j, v);
  }

  lemma Adds(cfg: Config, s: Sys, ks: seq<Key>, v: Val, j: nat, stalled: Thread, b: nat, x: nat)
    requires T.Inv(cfg, s.t) && Alone(cfg, s, ks, j, stalled) && j < |ks|
    requires b < |s.t.cur| && x < cfg.slots && !T.Pending(cfg, s.t, b) && s.t.cur[b][x] == Vacant
    requires Placed(cfg, s.t.hp, ks[j], b) && cfg.lock(b) < |s.t.cnt|
    ensures Inserted(cfg, s, Finish(s, 0, T.Add(cfg, s.t, b, x, Entry(Tag(cfg, ks[j]), ks[j], v)), Insert(ks[j], v),
              Done(true)), ks, v, j, stalled, true)
  {
    var t' := T.Add(cfg, s.t, b, x, Entry(Tag(cfg, ks[j]), ks[j], v));
    NotIn(cfg, s, ks, j, stalled);
    AddedKeys(cfg, s.t, ks, v, j, b, x);
    AloneWith(cfg, s, Finish(s, 0, t', Insert(ks[j], v), Done(true)), ks, j, j + 1, stalled, Idle);
  }

  lemma Hunts(cfg: Config, s: Sys, ks: seq<Key>, v: Val, j: nat, stalled: Thread)
    requires T.Inv(cfg, s.t) && Alone(cfg, s, ks, j, stalled) && j < |ks|
    requires Vacancy(cfg, s.t, ks[j]) == T.Nowhere
    ensures Inserted(cfg, s, Leave(s, 0, Hunt(Insert(ks[j], v), s.t.hp)), ks, v, j, stalled, false)
  {
    assert InRange(cfg, s.t.hp, ks[j]);
    var th := Hunt(Insert(ks[j], v), s.t.hp);
    AloneWith(cfg, s, Leave(s, 0, th), ks, j, j, stalled, th);
  }

  lemma WorksOnce(cfg: Config, s: Sys, ks: seq<Key>, v: Val, j: nat, stalled: Thread, th: Thread) returns (added: bool)
    requires Inv(cfg, s) && Alone(cfg, s, ks, j, stalled) && j < |ks| && s.threads[0] == th
    requires th.Work? && th.op == Insert(ks[j], v) && th.goal.Direct? && InCharge(s, th)
    ensures Inserted(cfg, s, WorkStep(cfg, s, 0, th), ks, v, j, stalled, added)
  {
    OwnLookup(cfg, s, 0);
    NotIn(cfg, s, ks, j, stalled);
    InsertShape(cfg, s, th);
    var q := Vacancy(cfg, s.t, ks[j]);
    added := q.At?;
    Owns(cfg, s, 0);
    if added {
      OwnBucket(cfg, s, th, q.b);
      assert LockStays(cfg, s.t.hp, q.b);
      Adds(cfg, s, ks, v, j, stalled, q.b, q.s);
    } else {
      Hunts(cfg, s, ks, v, j, stalled);
    }
  }

  /** The insertion of key `j` begins. */
  ghost predicate Going(cfg: Config, s: Sys, ks: seq<Key>, v: Val, j: nat, stalled: Thread) {
    true == (j < |ks| && Alone(cfg, s, ks, j, stalled) && s.threads[0] == Snapshot(Insert(ks[j], v)))
  }

  /** The insertion of key `j` searches in vain. */
  ghost predicate Full(cfg: Config, s: Sys, ks: seq<Key>, v: Val, j: nat, stalled: Thread) {
    true == (
      && j < |ks| && Alone(cfg, s, ks, j, stalled) && s.threads[0] == Hunt(Insert(ks[j], v), s.t.hp)
      && Exhausted(cfg, s, s.threads[0])
    )
  }

  ghost predicate SameShow(s: Sys, s': Sys) {
    true == (s'.t.hp == s.t.hp && s'.front == s.front && |s'.locks| == |s.locks|)
  }

  /** One key more, or the end of the search. */
  lemma FillsOne(cfg: Config, P: Sys -> bool, s: Sys, ks: seq<Key>, v: Val, j: nat, stalled: Thread)
    returns (s': Sys, added: bool)
    requires On(cfg, P, s) && Going(cfg, s, ks, v, j, stalled)
    ensures On(cfg, P, s') && SameShow(s, s') && j < |ks|
    ensures if added then Going(cfg, s', ks, v, j + 1, stalled) else Full(cfg, s', ks, v, j, stalled)
  {
    s', added := InsertsOne(cfg, P, s, ks, v, j, stalled);
    OnTable(cfg, P, s');
    if added {
      RoomLeft(cfg, s, s', ks, v, j, stalled);
      s' := Invokes(cfg, P, s', ks, j + 1, stalled, Insert(ks[j + 1], v));
    } else {
      Vain(cfg, s, s', ks, v, j, stalled);
    }
  }

  /** Keys are inserted until one finds its buckets full, at the latest when all others are in. */
  lemma {:induction false} FillsUp(cfg: Config, P: Sys -> bool, s: Sys, ks: seq<Key>, v: Val, j: nat, stalled: Thread)
    returns (s': Sys, j': nat)
    requires On(cfg, P, s) && Going(cfg, s, ks, v, j, stalled)
    ensures On(cfg, P, s') && SameShow(s, s') && Full(cfg, s', ks, v, j', stalled)
    decreases |ks| - j
  {
    var s1, added := FillsOne(cfg, P, s, ks, v, j, stalled);
    if added {
      s', j' := FillsUp(cfg, P, s1, ks, v, j + 1, stalled);
      SameShows(s, s1, s');
    } else {
      s', j' := s1, j;
    }
  }

  lemma SameShows(s: Sys, s1: Sys, s': Sys)
    requires SameShow(s, s1) && SameShow(s1, s')
    ensures SameShow(s, s')
  {
  }

  lemma RoomLeft(cfg: Config, s: Sys, s': Sys, ks: seq<Key>, v: Val, j: nat, stalled: Thread)
    requires T.Inv(cfg, s'.t) && j < |ks| && Inserted(cfg, s, s', ks, v, j, stalled, true)
    ensures j + 1 < |ks|
    ensures Alone(cfg, s', ks, j + 1, stalled) && s'.threads[0] == Idle
    ensures s'.t.hp == s.t.hp && s'.front == s.front && |s'.locks| == |s.locks|
  {
    AtMost(cfg, s'.t, ks, j + 1);
  }

  lemma Vain(cfg: Config, s: Sys, s': Sys, ks: seq<Key>, v: Val, j: nat, stalled: Thread)
    requires T.Inv(cfg, s'.t) && j < |ks| && Inserted(cfg, s, s', ks, v, j, stalled, false)
    ensures Full(cfg, s', ks, v, j, stalled)
    ensures s'.t.hp == s.t.hp && s'.front == s.front && |s'.locks| == |s.locks|
  {
    SearchIsVain(cfg, s', ks, j, stalled);
  }

  lemma Invokes(cfg: Config, P: Sys -> bool, s: Sys, ks: seq<Key>, j: nat, stalled: Thread, op: Op) returns (s': Sys)
    requires On(cfg, P, s) && Alone(cfg, s, ks, j, stalled) && s.threads[0] == Idle && op.Insert?
    ensures On(cfg, P, s') && Quietly(s, s', 0, Snapshot(op)) && Alone(cfg, s', ks, j, stalled)
  {
    Goes(cfg, P, s, 0, Invoke(op));
    s' := Step(cfg, s, 0, Invoke(op));
    StillAlone(cfg, s, s', ks, j, stalled, Snapshot(op));
  }

  lemma SearchIsVain(cfg: Config, s: Sys, ks: seq<Key>, j: nat, stalled: Thread)
    requires T.Inv(cfg, s.t) && Alone(cfg, s, ks, j, stalled) && j < |ks| && BothFull(cfg, s.t, ks[j])
    requires s.threads[0].Hunt? && s.threads[0].op.Insert? && s.threads[0].op.k == ks[j] && s.threads[0].hp == s.t.hp
    ensures Exhausted(cfg, s, s.threads[0])
  {
    KeysCollide(cfg, s.t, ks, j, ks[j]);
    NothingToFind(cfg, s.t, ks[j]);
  }

  // ---------- doubling ----------

  lemma GivesUp(cfg: Config, P: Sys -> bool, s: Sys, ks: seq<Key>, v: Val, j: nat, stalled: Thread) returns (s': Sys)
    requires On(cfg, P, s) && Full(cfg, s, ks, v, j, stalled)
    ensures On(cfg, P, s') && s.locks != []
    ensures Quietly(s, s', 0, GrabAll(Insert(ks[j], v), s.t.hp, |s.locks| - 1, |s.locks| - 1, 0))
  {
    Goes(cfg, P, s, 0, GiveUp);
    s' := Step(cfg, s, 0, GiveUp);
    SomeLocks(cfg, P, s);
    GiveUpIs(cfg, s);
  }

  lemma SomeLocks(cfg: Config, P: Sys -> bool, s: Sys)
    requires On(cfg, P, s)
    ensures s.locks != []
  {
    OnInv(cfg, P, s);
  }

  lemma GiveUpIs(cfg: Config, s: Sys)
    requires T.Shape(cfg, s.t) && s.threads != [] && s.threads[0].Hunt? && s.threads[0].op.Insert? && s.locks != []
    requires !s.fault
    ensures var th := s.threads[0];
            Same(Step(cfg, s, 0, GiveUp), Become(s, 0, GrabAll(th.op, th.hp, |s.locks| - 1, |s.locks| - 1, 0)))
  {
  }

  lemma GrabsOne(cfg: Config, P: Sys -> bool, s: Sys, ks: seq<Key>, j: nat, stalled: Thread, th: Thread)
    returns (s': Sys)
    requires On(cfg, P, s) && Alone(cfg, s, ks, j, stalled) && s.threads[0] == th && th.GrabAll?
    requires th.first == th.c == |s.locks| - 1 && th.l <= |s.locks[th.c]|
    ensures On(cfg, P, s')
    ensures Quietly(s, s', 0, if th.l < |s.locks[th.c]| then GrabAll(th.op, th.hp, th.first, th.c, th.l + 1)
                              else AllHeld(th.op, th.hp, th.first))
  {
    if th.l < |s.locks[th.c]| {
      NextIsFree(cfg, P, s, ks, j, stalled, th);
    }
    Goes(cfg, P, s, 0, Go);
    s' := Step(cfg, s, 0, Go);
    GrabIs(cfg, s, th);
  }

  lemma NextIsFree(cfg: Config, P: Sys -> bool, s: Sys, ks: seq<Key>, j: nat, stalled: Thread, th: Thread)
    requires On(cfg, P, s) && Alone(cfg, s, ks, j, stalled) && s.threads[0] == th && th.GrabAll?
    requires th.first == th.c < |s.locks| && th.l < |s.locks[th.c]|
    ensures s.locks[th.c][th.l] == Free
  {
    OnInv(cfg, P, s);
    forall i | 0 <= i < |s.threads| ensures !Holds(s.threads[i], th.c, th.l) {
      if i != 0 {
        NobodyElse(s, i, th.c, th.l);
      }
    }
    FreeLock(s, th.c, th.l);
  }

  lemma GrabIs(cfg: Config, s: Sys, th: Thread)
    requires T.Shape(cfg, s.t) && s.threads != [] && s.threads[0] == th && th.GrabAll? && !s.fault
    ensures Same(Step(cfg, s, 0, Go), GrabStep(s, 0, th))
  {
  }

  lemma {:induction false} GrabsAll(cfg: Config, P: Sys -> bool, s: Sys, ks: seq<Key>, j: nat, stalled: Thread,
                                    th: Thread)
    returns (s': Sys)
    requires On(cfg, P, s) && Alone(cfg, s, ks, j, stalled) && s.threads[0] == th && th.GrabAll?
    requires th.first == th.c == |s.locks| - 1 && th.l <= |s.locks[th.c]|
    ensures On(cfg, P, s') && Quietly(s, s', 0, AllHeld(th.op, th.hp, th.first))
    decreases |s.locks[th.c]| - th.l
  {
    s' := GrabsOne(cfg, P, s, ks, j, stalled, th);
    if th.l < |s.locks[th.c]| {
      var th' := GrabAll(th.op, th.hp, th.first, th.c, th.l + 1);
      StillAlone(cfg, s, s', ks, j, stalled, th');
      s' := GrabsAll(cfg, P, s', ks, j, stalled, th');
    }
  }

  /** The moment between swapping and assigning: thread 0 doubles the table, and the hashpower shown is that of
      the doubling before. */
  ghost predicate Between(cfg: Config, s: Sys, s': Sys, op: Op) {
    && s.locks != [] && |s'.locks| >= |s.locks|
    && (NumLocks(cfg, s.t.hp) < NumLocks(cfg, s.t.hp + 1) ==> |s'.locks| == |s.locks| + 1)
    && s.threads != [] && s'.threads == s.threads[0 := Doubling(op, |s.locks| - 1, Swapped)]
    && s'.t == s.t && !s'.fault && s'.front == Front(s.front.prev, s.t.hp, s.t.hp + 1, true)
  }

  lemma Swaps(cfg: Config, P: Sys -> bool, s: Sys, th: Thread) returns (s': Sys)
    requires On(cfg, P, s) && s.threads != [] && s.threads[0] == th && th.AllHeld? && !th.op.Clear? && !s.fault
    requires th.hp == s.t.hp == s.front.shown == s.front.lockHp && s.t.hp + 1 <= cfg.maxHp
    requires th.first == |s.locks| - 1
    ensures On(cfg, P, s') && Between(cfg, s, s', th.op)
  {
    Goes(cfg, P, s, 0, Go);
    var s1 := Step(cfg, s, 0, Go);
    OnInv(cfg, P, s);
    Grows(cfg, s, th);
    Goes(cfg, P, s1, 0, Go);
    s' := Step(cfg, s1, 0, Go);
    DoublingStepIs(cfg, s1);
  }

  lemma Grows(cfg: Config, s: Sys, th: Thread)
    requires Inv(cfg, s) && s.threads != [] && s.threads[0] == th && th.AllHeld? && !th.op.Clear? && !s.fault
    requires th.hp == s.t.hp == s.front.shown == s.front.lockHp && s.t.hp + 1 <= cfg.maxHp
    ensures Same(Step(cfg, s, 0, Go), Become(WithLocks(cfg, s, 0), 0, Doubling(th.op, th.first, Grown)))
    ensures |s.locks[|s.locks| - 1]| == NumLocks(cfg, s.t.hp)
  {
  }

  /** The insertion gives up and begins to double the table. */
  lemma Begins(cfg: Config, P: Sys -> bool, s: Sys, ks: seq<Key>, v: Val, j: nat, stalled: Thread) returns (s': Sys)
    requires On(cfg, P, s) && Full(cfg, s, ks, v, j, stalled) && s.t.hp + 1 <= cfg.maxHp
    ensures On(cfg, P, s') && Between(cfg, s, s', Insert(ks[j], v))
  {
    var op := Insert(ks[j], v);
    NotDoubling(cfg, P, s, ks, j, stalled);
    var s1 := GivesUp(cfg, P, s, ks, v, j, stalled);
    var th1 := GrabAll(op, s.t.hp, |s.locks| - 1, |s.locks| - 1, 0);
    StillAlone(cfg, s, s1, ks, j, stalled, th1);
    var s2 := GrabsAll(cfg, P, s1, ks, j, stalled, th1);
    s' := Swaps(cfg, P, s2, AllHeld(op, s.t.hp, |s.locks| - 1));
  }

  /** The doubling ends. */
  lemma Ends(cfg: Config, P: Sys -> bool, s: Sys, s1: Sys, ks: seq<Key>, j: nat, stalled: Thread, op: Op)
    returns (s': Sys)
    requires On(cfg, P, s1) && Alone(cfg, s, ks, j, stalled) && Between(cfg, s, s1, op) && s.t.hp + 1 <= cfg.lockBits
    ensures On(cfg, P, s') && Alone(cfg, s', ks, j, stalled) && s'.threads[0] == Snapshot(op)
    ensures |s'.locks| == |s1.locks| && s'.t.hp == s.t.hp + 1
    ensures s'.front == Front(s.t.hp + 1, s.t.hp, s.t.hp + 1, false)
  {
    s' := Installs(cfg, P, s1);
    SameKeys(cfg, P, s1);
    AloneWith(cfg, s, s', ks, j, j, stalled, Snapshot(op));
  }

  lemma SameKeys(cfg: Config, P: Sys -> bool, s: Sys)
    requires On(cfg, P, s)
    ensures Same(T.Abs(cfg, T.Double(cfg, s.t)).Keys, T.Abs(cfg, s.t).Keys) && T.Double(cfg, s.t).hp == s.t.hp + 1
  {
    OnTable(cfg, P, s);
    T.DoubleKeeps(cfg, s.t);
  }

  lemma Installs(cfg: Config, P: Sys -> bool, s: Sys) returns (s': Sys)
    requires On(cfg, P, s) && s.threads != [] && s.threads[0].Doubling? && s.threads[0].stage.Swapped? && !s.fault
    ensures On(cfg, P, s') && |s'.locks| == |s.locks| && s'.t == T.Double(cfg, s.t) && !s'.fault
    ensures s'.threads == s.threads[0 := Snapshot(s.threads[0].op)]
    ensures s'.front == Front(s.t.hp + 1, s.front.prev, s.front.lockHp, false)
  {
    Goes(cfg, P, s, 0, Go);
    var s1 := Step(cfg, s, 0, Go);
    DoublingStepIs(cfg, s);
    Goes(cfg, P, s1, 0, Go);
    s' := Step(cfg, s1, 0, Go);
    DoublingStepIs(cfg, s1);
  }

  lemma DoublingStepIs(cfg: Config, s: Sys)
    requires T.Shape(cfg, s.t) && s.threads != [] && s.threads[0].Doubling? && !s.fault
    ensures Same(Step(cfg, s, 0, Go), DoublingStep(cfg, s, 0, s.threads[0]))
  {
  }

  // ---------- the race ----------

  /** Thread 1 reads the hashpower and the lock container, and stalls. */
  lemma Stalls(cfg: Config, P: Sys -> bool, hp: nat, n: nat, ks: seq<Key>) returns (s: Sys, stalled: Thread)
    requires On(cfg, P, Init(cfg, hp, n)) && n >= 2 && hp <= cfg.lockBits
    requires Colliding(cfg, ks) && |ks| == 2 * cfg.slots + 1
    ensures On(cfg, P, s) && Alone(cfg, s, ks, 0, stalled) && s.threads[0] == Idle
    ensures s.t.hp == hp && |s.locks| == 1
    ensures stalled == Acquire(Find(ks[0]), hp, Direct, 0, Need(cfg, Find(ks[0]), hp, Direct), 0)
  {
    var op, i := Find(ks[0]), Init(cfg, hp, n);
    OnTable(cfg, P, i);
    T.EmptyHolds(cfg, hp);
    assert T.Abs(cfg, i.t).Keys == KeysTo(ks, 0);
    Goes(cfg, P, i, 1, Invoke(op));
    var s1 := Step(cfg, i, 1, Invoke(op));
    assert Quietly(i, s1, 1, Snapshot(op));
    s := Snaps(cfg, P, s1, 1, op);
    stalled := Acquire(op, hp, Direct, 0, Need(cfg, op, hp, Direct), 0);
  }

  /** Thread 0 fills its buckets and doubles the table, which replaces the lock container. */
  lemma DoublesOnce(cfg: Config, P: Sys -> bool, s: Sys, ks: seq<Key>, v: Val, stalled: Thread)
    returns (s': Sys, j: nat)
    requires On(cfg, P, s) && Alone(cfg, s, ks, 0, stalled) && s.threads[0] == Idle && |s.locks| == 1
    requires s.t.hp < cfg.lockBits && s.t.hp + 1 <= cfg.maxHp && ks != []
    ensures On(cfg, P, s') && j < |ks| && Alone(cfg, s', ks, j, stalled) && s'.threads[0] == Snapshot(Insert(ks[j], v))
    ensures s'.t.hp == s.t.hp + 1 && |s'.locks| == 2 && s'.front.prev == s.t.hp
  {
    var s1 := Invokes(cfg, P, s, ks, 0, stalled, Insert(ks[0], v));
    assert Going(cfg, s1, ks, v, 0, stalled);
    var s2;
    s2, j := FillsUp(cfg, P, s1, ks, v, 0, stalled);
    var s3 := Begins(cfg, P, s2, ks, v, j, stalled);
    FullIsAlone(cfg, s2, ks, v, j, stalled);
    MoreLocks(cfg, s.t.hp);
    s' := Ends(cfg, P, s2, s3, ks, j, stalled, Insert(ks[j], v));
  }

  lemma MoreLocks(cfg: Config, hp: nat)
    requires hp < cfg.lockBits
    ensures NumLocks(cfg, hp) < NumLocks(cfg, hp + 1)
  {
    Pow2Monotone(hp + 1, cfg.lockBits);
  }

  lemma FullIsAlone(cfg: Config, s: Sys, ks: seq<Key>, v: Val, j: nat, stalled: Thread)
    requires Full(cfg, s, ks, v, j, stalled)
    ensures j < |ks| && Alone(cfg, s, ks, j, stalled)
  {
  }

  /** It doubles the table again; once the containers are swapped, thread 1 goes on. */
  lemma DoublesTwice(cfg: Config, P: Sys -> bool, s: Sys, ks: seq<Key>, v: Val, j: nat, stalled: Thread)
    returns (s': Sys)
    requires On(cfg, P, s) && j < |ks| && Alone(cfg, s, ks, j, stalled) && s.threads[0] == Snapshot(Insert(ks[j], v))
    requires s.t.hp + 1 <= cfg.maxHp && |s.locks| == 2
    requires stalled.goal.Direct? && stalled.c == 0 && s.front.prev == stalled.hp
    ensures On(cfg, P, s') && MayEnter(cfg, s', 1, stalled) && s'.front.bare && s'.threads[0].Doubling?
  {
    assert Going(cfg, s, ks, v, j, stalled);
    var s2, j2 := FillsUp(cfg, P, s, ks, v, j, stalled);
    FullIsAlone(cfg, s2, ks, v, j2, stalled);
    s' := Begins(cfg, P, s2, ks, v, j2, stalled);
    Slips(cfg, s2, s', ks, j2, stalled, Insert(ks[j2], v));
  }

  /** The doubling does not hold the container that thread 1 waits for, and shows the hashpower it read. */
  lemma Slips(cfg: Config, s: Sys, s': Sys, ks: seq<Key>, j: nat, stalled: Thread, op: Op)
    requires Alone(cfg, s, ks, j, stalled) && Between(cfg, s, s', op) && |s.locks| == 2
    requires stalled.goal.Direct? && stalled.c == 0 && s.front.prev == stalled.hp
    ensures MayEnter(cfg, s', 1, stalled)
  {
    forall i, l | 0 <= i < |s'.threads| && i != 1 && l in stalled.need ensures !Holds(s'.threads[i], 0, l) {
      if i >= 2 {
        assert s.threads[i] == Idle;
      }
    }
  }

  /** Thread 1 takes its locks, passes the comparison and uses the buckets. */
  lemma Strays(cfg: Config, P: Sys -> bool, s: Sys, stalled: Thread) returns (s': Sys)
    requires stalled.Acquire? && stalled.got == 0 && !stalled.op.Clear? && On(cfg, P, s)
    requires MayEnter(cfg, s, 1, stalled) && s.front.bare && s.threads[0].Doubling?
    ensures On(cfg, P, s') && s'.fault && s'.front.bare && s'.threads != [] && s'.threads[0].Doubling?
  {
    var s1 := Enters(cfg, P, s, 1, stalled);
    Goes(cfg, P, s1, 1, Go);
    s' := Step(cfg, s1, 1, Go);
  }

  lemma Races(cfg: Config, P: Sys -> bool, hp: nat, n: nat, ks: seq<Key>, v: Val) returns (s: Sys)
    requires On(cfg, P, Init(cfg, hp, n)) && n >= 2 && hp < cfg.lockBits && hp + 2 <= cfg.maxHp
    requires Colliding(cfg, ks) && |ks| == 2 * cfg.slots + 1
    ensures P(s) && s.fault && s.front.bare && s.threads != [] && s.threads[0].Doubling?
  {
    var s1, stalled := Stalls(cfg, P, hp, n, ks);
    var s2, j := DoublesOnce(cfg, P, s1, ks, v, stalled);
    var s3 := DoublesTwice(cfg, P, s2, ks, v, j, stalled);
    s := Strays(cfg, P, s3, stalled);
  }

  /** For every map that starts with fewer locks than the maximum and may double twice, and every hash function
      with enough colliding keys: two threads can run so that one of them uses the buckets while the other has
      taken their storage away.  Every search on the way that gives up has nothing to find. */
  lemma Unprotected(hash: Key -> U64, slots: nat, pathLen: nat, lockBits: nat, maxHp: nat, simple: bool,
                    hp: nat, n: nat, ks: seq<Key>, v: Val)
    returns (schedule: seq<(nat, Choice)>)
    requires slots >= 1 && pathLen >= 1 && hp < lockBits && hp + 2 <= maxHp && n >= 2
    requires |ks| == 2 * slots + 1 && forall i, j :: 0 <= i < j < |ks| ==> ks[i] != ks[j] && hash(ks[i]) == hash(ks[j])
    ensures var cfg := Libcuckoo(hash, slots, pathLen, lockBits, maxHp, simple);
            var s := Run(cfg, Init(cfg, hp, n), schedule);
            && Honest(cfg, Init(cfg, hp, n), schedule)
            && s.fault && s.front.bare && s.threads != [] && s.threads[0].Doubling?
  {
    LibcuckooLaws(hash, slots, pathLen, lockBits, maxHp, simple);
    var cfg := Libcuckoo(hash, slots, pathLen, lockBits, maxHp, simple);
    schedule := RaceOf(cfg, hp, n, ks, v);
  }

  lemma RaceOf(cfg: Config, hp: nat, n: nat, ks: seq<Key>, v: Val) returns (schedule: seq<(nat, Choice)>)
    requires Laws(cfg) && n >= 2 && hp < cfg.lockBits && hp + 2 <= cfg.maxHp
    requires Colliding(cfg, ks) && |ks| == 2 * cfg.slots + 1
    ensures var s := Run(cfg, Init(cfg, hp, n), schedule);
            && Honest(cfg, Init(cfg, hp, n), schedule)
            && s.fault && s.front.bare && s.threads != [] && s.threads[0].Doubling?
  {
    var s0 := Init(cfg, hp, n);
    var P := s => Leads(cfg, s0, s);
    ReachedIsOn(cfg, hp, n, P);
    var s := Races(cfg, P, hp, n, ks, v);
    schedule :| Run(cfg, s0, schedule) == s && Honest(cfg, s0, schedule);
  }

  lemma ReachedIsOn(cfg: Config, hp: nat, n: nat, P: Sys -> bool)
    requires Laws(cfg) && forall s :: P(s) <==> Leads(cfg, Init(cfg, hp, n), s)
    ensures On(cfg, P, Init(cfg, hp, n))
  {
    var s0 := Init(cfg, hp, n);
    InitInv(cfg, hp, n);
    forall s ensures KeepsInv(cfg, P, s) {
      if P(s) {
        LeadsInv(cfg, s0, s);
      }
    }
    forall s, tid: nat, ch ensures KeepsOn(cfg, P, s, tid, ch) {
      if P(s) && T.Shape(cfg, s.t) && Justified(cfg, s, tid, ch) {
        LeadsOn(cfg, s0, s, tid, ch);
      }
    }
    assert Run(cfg, s0, []) == s0 && Honest(cfg, s0, []);
  }

  /** The exact condition: the comparison of hashpowers protects the buckets in every run of two or more threads
      if and only if the first lock container has its full size or the map doubles at most once. */
  lemma ProtectedExactly(hash: Key -> U64, slots: nat, pathLen: nat, lockBits: nat, maxHp: nat, simple: bool,
                         hp: nat, n: nat, ks: seq<Key>, v: Val)
    requires slots >= 1 && pathLen >= 1 && n >= 2
    requires |ks| == 2 * slots + 1 && forall i, j :: 0 <= i < j < |ks| ==> ks[i] != ks[j] && hash(ks[i]) == hash(ks[j])
    ensures var cfg := Libcuckoo(hash, slots, pathLen, lockBits, maxHp, simple);
            (forall schedule: seq<(nat, Choice)> :: !Run(cfg, Init(cfg, hp, n), schedule).fault)
            <==> hp >= lockBits || maxHp < hp + 2
  {
    if hp >= lockBits || maxHp < hp + 2 {
      forall schedule: seq<(nat, Choice)>
        ensures !Run(Libcuckoo(hash, slots, pathLen, lockBits, maxHp, simple),
                   Init(Libcuckoo(hash, slots, pathLen, lockBits, maxHp, simple), hp, n), schedule).fault {
        G.Linearizable(hash, slots, pathLen, lockBits, maxHp, simple, hp, n, schedule);
      }
    } else {
      var schedule := Unprotected(hash, slots, pathLen, lockBits, maxHp, simple, hp, n, ks, v);
    }
  }
}
