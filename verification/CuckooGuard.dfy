/** When the comparison of hashpowers protects the buckets.  A doubling swaps in the emptied container of the
    doubling before, and shows that container's hashpower until the new one is assigned.  A thread that read
    this hashpower two doublings ago, and still waits for a lock of a container that has been replaced since,
    takes its lock and passes the comparison in that moment.  This needs two doublings and a lock container
    that grows; if one of them is ruled out, no thread ever touches the buckets unprotected. */
module CuckooGuard {
  import opened Bits
  import opened CuckooIndex
  import opened CuckooBuckets
  import T = CuckooTable
  import opened CuckooLocks
  import opened CuckooThreads

  /** The lock container of the first hashpower is as large as they get, or there is at most one doubling. */
  ghost predicate Safe(cfg: Config, base: nat) {
    NumLocks(cfg, base) == MaxLocks(cfg) || cfg.maxHp < base + 2
  }

  ghost predicate ThreadGuarded(s: Sys, th: Thread) {
    && (Inside(th) ==> !Astray(s, th.hp, th.c))
    && (th.Doubling? ==> th.first == 0)
  }

  /** Every thread that passed the comparison is in charge, and a doubling holds the locks of all containers. */
  ghost predicate Guarded(cfg: Config, base: nat, s: Sys) {
    true == (
      && !s.fault && base <= s.t.hp
      && (NumLocks(cfg, base) == MaxLocks(cfg) || s.front.lockHp == base ==> |s.locks| == 1)
      && forall i :: 0 <= i < |s.threads| ==> ThreadGuarded(s, s.threads[i])
    )
  }

  /** Comparing hashpowers once, after the first lock, is enough: the container fetched earlier is then the
      current one, the hashpower is that of the table, and the buckets are in place. */
  lemma VerifySound(cfg: Config, base: nat, s: Sys, tid: nat)
    requires Inv(cfg, s) && Guarded(cfg, base, s) && tid < |s.threads| && s.threads[tid].Verify?
    requires s.front.shown == s.threads[tid].hp
    ensures !Astray(s, s.threads[tid].hp, s.threads[tid].c)
  {
    var th := s.threads[tid];
    NeedInRange(cfg, th.op, th.hp, th.goal);
    assert th.need[0] in th.need;
    assert Holds(th, th.c, th.need[0]);
    forall j | 0 <= j < |s.threads| ensures !s.threads[j].Doubling? {
      if s.threads[j].Doubling? {
        assert ThreadGuarded(s, s.threads[j]);
        NotBoth(s, tid, j, th.c, th.need[0]);
        assert false;
      }
    }
    assert NoDoubling(s.threads);
  }

  // ---------- steps of a thread that does not hold all locks ----------

  ghost predicate SameFrame(s: Sys, s': Sys) {
    s'.t.hp == s.t.hp && |s'.locks| == |s.locks| && s'.front == s.front
  }

  lemma GuardKept(cfg: Config, base: nat, s: Sys, s': Sys, tid: nat, th: Thread)
    requires Guarded(cfg, base, s) && SameFrame(s, s') && !s'.fault
    requires tid < |s.threads| && s'.threads == s.threads[tid := th] && ThreadGuarded(s', th)
    ensures Guarded(cfg, base, s')
  {
    forall i | 0 <= i < |s'.threads| ensures ThreadGuarded(s', s'.threads[i]) {
      if i != tid {
        assert ThreadGuarded(s, s.threads[i]);
      }
    }
  }

  /** A step of one thread leaves the others alone; inside a critical section it goes on with the hashpower and
      the container it had, and it gets there only by the comparison. */
  ghost predicate Steady(s: Sys, s': Sys, tid: nat)
    requires tid < |s.threads|
  {
    && SameFrame(s, s') && |s'.threads| == |s.threads|
    && s'.threads == s.threads[tid := s'.threads[tid]] && !s'.threads[tid].Doubling?
    && var th, th' := s.threads[tid], s'.threads[tid];
       Inside(th') ==>
         && (Inside(th) || (th.Verify? && s.front.shown == th.hp))
         && th'.hp == th.hp && th'.c == th.c
  }

  lemma OuterSteady(cfg: Config, s: Sys, tid: nat, ch: Choice)
    requires T.Shape(cfg, s.t) && tid < |s.threads|
    requires var th := s.threads[tid]; !Inside(th) && !HasAll(th)
    ensures Steady(s, Step(cfg, s, tid, ch), tid) && Step(cfg, s, tid, ch).fault == s.fault
  {
  }

  lemma DirectSteady(cfg: Config, s: Sys, tid: nat, th: Thread)
    requires T.Shape(cfg, s.t) && tid < |s.threads| && th == s.threads[tid] && th.Work? && !th.op.Clear?
    requires th.goal.Direct? || th.goal.Visit? || th.goal.Read?
    ensures Steady(s, WorkStep(cfg, s, tid, th), tid) && WorkStep(cfg, s, tid, th).fault == s.fault
  {
  }

  lemma ShiftSteady(cfg: Config, s: Sys, tid: nat, th: Thread)
    requires T.Shape(cfg, s.t) && tid < |s.threads| && th == s.threads[tid] && th.Work? && !th.op.Clear?
             && th.goal.Shift?
    ensures Steady(s, ShiftStep(cfg, s, tid, th), tid) && ShiftStep(cfg, s, tid, th).fault == s.fault
  {
  }

  lemma SettleSteady(cfg: Config, s: Sys, tid: nat, th: Thread)
    requires T.Shape(cfg, s.t) && tid < |s.threads| && th == s.threads[tid] && th.Settle? && th.op.Insert?
    ensures Steady(s, SettleStep(cfg, s, tid, th), tid) && SettleStep(cfg, s, tid, th).fault == s.fault
  {
  }

  lemma MigrateSteady(cfg: Config, s: Sys, tid: nat, th: Thread)
    requires T.Shape(cfg, s.t) && tid < |s.threads| && th == s.threads[tid] && th.Migrate?
    requires !Astray(s, th.hp, th.c)
    ensures Steady(s, MigrateStep(cfg, s, tid, th), tid) && MigrateStep(cfg, s, tid, th).fault == s.fault
  {
  }

  lemma InsideSteady(cfg: Config, s: Sys, tid: nat, ch: Choice)
    requires T.Shape(cfg, s.t) && tid < |s.threads| && !s.fault && ThreadOk(cfg, s, s.threads[tid])
    requires Inside(s.threads[tid]) && !Astray(s, s.threads[tid].hp, s.threads[tid].c)
    ensures Steady(s, Step(cfg, s, tid, ch), tid) && !Step(cfg, s, tid, ch).fault
  {
    var th := s.threads[tid];
    HolderStep(cfg, s, tid, ch);
    match th {
      case Migrate(_, _, _, _, _, _) => MigrateSteady(cfg, s, tid, th);
      case Work(_, _, _, _, _) =>
        if th.goal.Shift? {
          ShiftSteady(cfg, s, tid, th);
        } else {
          DirectSteady(cfg, s, tid, th);
        }
      case Settle(_, _, _, _, _, _) => SettleSteady(cfg, s, tid, th);
      case _ =>
    }
  }

  lemma SteadyGuard(cfg: Config, base: nat, s: Sys, s': Sys, tid: nat)
    requires Inv(cfg, s) && Guarded(cfg, base, s) && tid < |s.threads| && Steady(s, s', tid) && !s'.fault
    ensures Guarded(cfg, base, s')
  {
    var th := s.threads[tid];
    assert ThreadGuarded(s, th);
    if th.Verify? && s.front.shown == th.hp {
      VerifySound(cfg, base, s, tid);
    }
    GuardKept(cfg, base, s, s', tid, s'.threads[tid]);
  }

  // ---------- steps under all locks ----------

  lemma NoneInside(cfg: Config, base: nat, s: Sys, tid: nat, i: nat)
    requires Inv(cfg, s) && Guarded(cfg, base, s) && tid < |s.threads| && HasAll(s.threads[tid])
    requires i < |s.threads| && i != tid
    ensures !Inside(s.threads[i]) && !s.threads[i].Doubling?
  {
    OneDoubles(cfg, s, tid);
    assert ThreadGuarded(s, s.threads[i]);
    NotInside(cfg, s, s, tid, i);
  }

  lemma AllGuard(cfg: Config, base: nat, s: Sys, s': Sys, tid: nat, th: Thread)
    requires Inv(cfg, s) && Guarded(cfg, base, s) && tid < |s.threads| && HasAll(s.threads[tid])
    requires s'.threads == s.threads[tid := th] && !Inside(th) && (th.Doubling? ==> th.first == 0)
    requires !s'.fault && s'.t.hp >= s.t.hp
    requires NumLocks(cfg, base) == MaxLocks(cfg) || s'.front.lockHp == base ==> |s'.locks| == 1
    ensures Guarded(cfg, base, s')
  {
    forall i | 0 <= i < |s'.threads| ensures ThreadGuarded(s', s'.threads[i]) {
      if i != tid {
        NoneInside(cfg, base, s, tid, i);
      }
    }
  }

  /** A doubling begins with a single lock container, or it would not be allowed. */
  lemma FirstContainer(cfg: Config, base: nat, s: Sys, tid: nat)
    requires Safe(cfg, base) && Inv(cfg, s) && Guarded(cfg, base, s) && tid < |s.threads|
    requires var th := s.threads[tid]; th.AllHeld? && th.hp + 1 <= cfg.maxHp && s.front.shown == th.hp
    ensures |s.locks| == 1 && s.threads[tid].first == 0
    ensures NumLocks(cfg, base) == MaxLocks(cfg) || s.front.lockHp + 1 == base ==>
              |MaybeResizeLocks(cfg, s.locks, s.front.lockHp + 1, tid)| == 1
  {
    OneDoubles(cfg, s, tid);
    NumLocksMonotone(cfg, base, s.t.hp);
    assert ThreadOk(cfg, s, s.threads[tid]);
  }

  lemma AllHeldGuard(cfg: Config, base: nat, s: Sys, tid: nat)
    requires Safe(cfg, base) && Inv(cfg, s) && Guarded(cfg, base, s) && tid < |s.threads| && s.threads[tid].AllHeld?
    ensures Guarded(cfg, base, AllHeldStep(cfg, s, tid, s.threads[tid]))
  {
    var th := s.threads[tid];
    var s' := AllHeldStep(cfg, s, tid, th);
    if !th.op.Clear? && th.hp + 1 <= cfg.maxHp && s.front.shown == th.hp {
      FirstContainer(cfg, base, s, tid);
    }
    AllHeldShape(cfg, s, tid);
    AllGuard(cfg, base, s, s', tid, s'.threads[tid]);
  }

  lemma AllHeldShape(cfg: Config, s: Sys, tid: nat)
    requires tid < |s.threads| && s.threads[tid].AllHeld?
    ensures var th, s' := s.threads[tid], AllHeldStep(cfg, s, tid, s.threads[tid]);
            && s'.fault == s.fault && s'.t.hp == s.t.hp && |s'.threads| == |s.threads|
            && s'.threads == s.threads[tid := s'.threads[tid]] && !Inside(s'.threads[tid])
            && (s'.threads[tid].Doubling? ==>
                  && !th.op.Clear? && th.hp + 1 <= cfg.maxHp && s.front.shown == th.hp
                  && s'.threads[tid].first == th.first && s'.front.lockHp == s.front.lockHp + 1
                  && s'.locks == MaybeResizeLocks(cfg, s.locks, s.front.lockHp + 1, tid))
            && (!s'.threads[tid].Doubling? ==> s'.front == s.front && |s'.locks| == |s.locks|)
  {
  }

  lemma DoublingGuard(cfg: Config, base: nat, s: Sys, tid: nat)
    requires Inv(cfg, s) && Guarded(cfg, base, s) && tid < |s.threads| && s.threads[tid].Doubling?
    ensures Guarded(cfg, base, DoublingStep(cfg, s, tid, s.threads[tid]))
  {
    var th := s.threads[tid];
    var s' := DoublingStep(cfg, s, tid, th);
    assert ThreadGuarded(s, th);
    AllGuard(cfg, base, s, s', tid, s'.threads[tid]);
  }

  // ---------- every run ----------

  lemma StepGuarded(cfg: Config, base: nat, s: Sys, tid: nat, ch: Choice)
    requires Safe(cfg, base) && Inv(cfg, s) && Guarded(cfg, base, s)
    ensures Guarded(cfg, base, Step(cfg, s, tid, ch))
  {
    if tid < |s.threads| {
      var th := s.threads[tid];
      assert ThreadGuarded(s, th) && ThreadOk(cfg, s, th);
      if HasAll(th) {
        HolderStep(cfg, s, tid, ch);
        if th.AllHeld? {
          AllHeldGuard(cfg, base, s, tid);
        } else {
          DoublingGuard(cfg, base, s, tid);
        }
      } else {
        if Inside(th) {
          InsideSteady(cfg, s, tid, ch);
        } else {
          OuterSteady(cfg, s, tid, ch);
        }
        SteadyGuard(cfg, base, s, Step(cfg, s, tid, ch), tid);
      }
    }
  }

  lemma {:induction false} RunGuarded(cfg: Config, base: nat, s: Sys, schedule: seq<(nat, Choice)>)
    requires Safe(cfg, base) && Inv(cfg, s) && Guarded(cfg, base, s)
    ensures Inv(cfg, Run(cfg, s, schedule)) && Guarded(cfg, base, Run(cfg, s, schedule))
    decreases |schedule|
  {
    if schedule != [] {
      StepInv(cfg, s, schedule[0].0, schedule[0].1);
      StepGuarded(cfg, base, s, schedule[0].0, schedule[0].1);
      RunGuarded(cfg, base, Step(cfg, s, schedule[0].0, schedule[0].1), schedule[1..]);
    }
  }

  lemma SafeIs(cfg: Config, base: nat)
    ensures Safe(cfg, base) <==> base >= cfg.lockBits || cfg.maxHp < base + 2
  {
    if base >= cfg.lockBits {
      Pow2Monotone(cfg.lockBits, base);
    } else {
      Pow2Monotone(base + 1, cfg.lockBits);
    }
  }

  /** For any hash function, any number of threads and any interleaving, on a map whose first lock container has
      its full size or that doubles at most once: no thread uses the buckets unprotected, the operations that
      have taken effect form a history that a sequential map would have produced, and the table stands for the
      resulting map: no key is lost, none is stored twice, and no displacement, migration or doubling shows. */
  lemma Linearizable(hash: Key -> U64, slots: nat, pathLen: nat, lockBits: nat, maxHp: nat, simple: bool,
                     hp: nat, n: nat, schedule: seq<(nat, Choice)>)
    requires slots >= 1 && pathLen >= 1
    requires hp >= lockBits || maxHp < hp + 2
    ensures var cfg := Libcuckoo(hash, slots, pathLen, lockBits, maxHp, simple);
            var s := Run(cfg, Init(cfg, hp, n), schedule);
            && !s.fault
            && Legal(s.log) && T.Abs(cfg, s.t) == Replay(s.log)
            && NoDup(T.Held(cfg, s.t))
            && T.Sum(s.t.cnt) == |Replay(s.log)|
            && Inv(cfg, s)
  {
    LibcuckooLaws(hash, slots, pathLen, lockBits, maxHp, simple);
    var cfg := Libcuckoo(hash, slots, pathLen, lockBits, maxHp, simple);
    InitInv(cfg, hp, n);
    SafeIs(cfg, hp);
    RunGuarded(cfg, hp, Init(cfg, hp, n), schedule);
    T.SizeIsKeyCount(cfg, Run(cfg, Init(cfg, hp, n), schedule).t);
  }

  /** On any map, up to the first unprotected use of the buckets, the history is legal and the table stands for its
      result. */
  lemma LegalUntilFault(hash: Key -> U64, slots: nat, pathLen: nat, lockBits: nat, maxHp: nat, simple: bool,
                        hp: nat, n: nat, schedule: seq<(nat, Choice)>)
    requires slots >= 1 && pathLen >= 1
    ensures var cfg := Libcuckoo(hash, slots, pathLen, lockBits, maxHp, simple);
            var s := Run(cfg, Init(cfg, hp, n), schedule);
            Legal(s.log) && T.Abs(cfg, s.t) == Replay(s.log) && Inv(cfg, s)
  {
    LibcuckooLaws(hash, slots, pathLen, lockBits, maxHp, simple);
    var cfg := Libcuckoo(hash, slots, pathLen, lockBits, maxHp, simple);
    InitInv(cfg, hp, n);
    RunInv(cfg, Init(cfg, hp, n), schedule);
  }

  // ---------- the map with default parameters ----------

  /** The smallest hashpower with room for `n` elements. */
  predicate Reserved(slots: nat, n: nat, hp: nat)
    requires slots >= 1
  {
    var buckets := (n + slots - 1) / slots;
    buckets <= Pow2(hp) && (hp == 0 || Pow2(hp - 1) < buckets)
  }

  /** reserve_calc */
  method ReserveCalc(slots: nat, n: nat) returns (hp: nat)
    requires slots >= 1
    ensures Reserved(slots, n, hp)
  {
    var buckets := (n + slots - 1) / slots;
    hp := 0;
    while Pow2(hp) < buckets
      invariant hp == 0 || Pow2(hp - 1) < buckets
      decreases buckets - Pow2(hp)
    {
      hp := hp + 1;
    }
  }

  lemma ReservedIs(k: nat, hp: nat)
    requires Reserved(4, 4 * Pow2(k), hp)
    ensures hp == k
  {
    assert (4 * Pow2(k) + 3) / 4 == Pow2(k);
    if hp > k {
      Pow2Monotone(k, hp - 1);
    } else if hp < k {
      Pow2Monotone(hp + 1, k);
    }
  }

  /** The default map: room for 4 * 2^16 elements in buckets of four, and up to 2^16 locks.  It starts with all of
      them, so it is safe whatever the maximum hashpower. */
  lemma DefaultMap(hash: Key -> U64, maxHp: nat, simple: bool, hp: nat, n: nat, schedule: seq<(nat, Choice)>)
    requires Reserved(4, 4 * Pow2(16), hp)
    ensures var cfg := Libcuckoo(hash, 4, 5, 16, maxHp, simple);
            var s := Run(cfg, Init(cfg, hp, n), schedule);
            !s.fault && Legal(s.log) && T.Abs(cfg, s.t) == Replay(s.log)
  {
    ReservedIs(16, hp);
    Linearizable(hash, 4, 5, 16, maxHp, simple, hp, n, schedule);
  }
}
