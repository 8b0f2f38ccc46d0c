/** What a call on the cuckoo map answers: every call that ends leaves one event, its result is settled by the map
    at that moment, and the exception of a table at its maximum is thrown there only. */
module CuckooAnswers {
  import opened Bits
  import opened CuckooIndex
  import opened CuckooBuckets
  import T = CuckooTable
  import opened CuckooLocks
  import opened CuckooThreads

  // ---------- every call that ends leaves one event ----------

  /** The step is one of thread `tid`: if the thread returns, one event of its operation is added; otherwise
      none is, and the thread goes on with its operation or begins the one it is told to. */
  ghost predicate Answers(s: Sys, s': Sys, tid: nat, ch: Choice)
    requires tid < |s.threads|
  {
    && |s'.threads| == |s.threads| && s'.threads == s.threads[tid := s'.threads[tid]] && s'.t.hp >= s.t.hp
    && var th, th' := s.threads[tid], s'.threads[tid];
       if th.Idle? then s'.log == s.log && (th'.Idle? || (ch.Invoke? && th'.op == ch.op))
       else if th'.Idle? then
         |s'.log| == |s.log| + 1 && s'.log == s.log + [s'.log[|s.log|]]
         && s'.log[|s.log|].tid == tid && s'.log[|s.log|].op == th.op
       else s'.log == s.log && th'.op == th.op
  }

  lemma OuterAnswers(cfg: Config, s: Sys, tid: nat, ch: Choice)
    requires T.Shape(cfg, s.t) && tid < |s.threads| && !s.fault
    requires var th := s.threads[tid]; !(th.Migrate? || th.Work? || th.Settle? || th.GrabAll? || HasAll(th))
    ensures Answers(s, Step(cfg, s, tid, ch), tid, ch)
  {
  }

  lemma MigrateAnswers(cfg: Config, s: Sys, tid: nat, th: Thread, ch: Choice)
    requires T.Shape(cfg, s.t) && tid < |s.threads| && th == s.threads[tid] && th.Migrate?
    ensures Answers(s, MigrateStep(cfg, s, tid, th), tid, ch)
  {
  }

  lemma WorkAnswers(cfg: Config, s: Sys, tid: nat, th: Thread, ch: Choice)
    requires T.Shape(cfg, s.t) && tid < |s.threads| && th == s.threads[tid] && th.Work? && !th.op.Clear?
    ensures Answers(s, WorkStep(cfg, s, tid, th), tid, ch)
  {
  }

  lemma SettleEnds(cfg: Config, s: Sys, tid: nat, th: Thread, ch: Choice)
    requires T.Shape(cfg, s.t) && tid < |s.threads| && th == s.threads[tid] && th.Settle? && th.op.Insert?
    ensures Answers(s, SettleStep(cfg, s, tid, th), tid, ch)
  {
  }

  lemma GrabAnswers(cfg: Config, s: Sys, tid: nat, th: Thread, ch: Choice)
    requires tid < |s.threads| && th == s.threads[tid] && th.GrabAll?
    ensures Answers(s, GrabStep(s, tid, th), tid, ch)
  {
  }

  lemma AllHeldAnswers(cfg: Config, s: Sys, tid: nat, th: Thread, ch: Choice)
    requires tid < |s.threads| && th == s.threads[tid] && th.AllHeld?
    ensures Answers(s, AllHeldStep(cfg, s, tid, th), tid, ch)
    ensures Throws(s, AllHeldStep(cfg, s, tid, th)) <==> !th.op.Clear? && th.hp + 1 > cfg.maxHp
  {
  }

  lemma DoublingAnswers(cfg: Config, s: Sys, tid: nat, th: Thread, ch: Choice)
    requires tid < |s.threads| && th == s.threads[tid] && th.Doubling?
    ensures Answers(s, DoublingStep(cfg, s, tid, th), tid, ch)
    ensures DoublingStep(cfg, s, tid, th).log == s.log
  {
  }

  /** A step that takes a thread back to idle adds exactly one event, with the operation the thread was called
      with; no other step adds one, and the operation of a thread never changes on the way. */
  lemma StepAnswers(cfg: Config, s: Sys, tid: nat, ch: Choice)
    requires Inv(cfg, s) && tid < |s.threads| && !s.fault
    ensures Answers(s, Step(cfg, s, tid, ch), tid, ch)
  {
    var th := s.threads[tid];
    assert ThreadOk(cfg, s, th);
    HolderStep(cfg, s, tid, ch);
    match th {
      case Migrate(_, _, _, _, _, _) => MigrateAnswers(cfg, s, tid, th, ch);
      case Work(_, hp, _, c, _) => WorkAnswers(cfg, s, tid, th, ch);
      case Settle(_, _, _, _, _, _) => SettleEnds(cfg, s, tid, th, ch);
      case GrabAll(_, _, _, _, _) => GrabAnswers(cfg, s, tid, th, ch);
      case AllHeld(_, _, _) => AllHeldAnswers(cfg, s, tid, th, ch);
      case Doubling(_, _, _) => DoublingAnswers(cfg, s, tid, th, ch);
      case _ => OuterAnswers(cfg, s, tid, ch);
    }
  }

  // ---------- what a critical section answers ----------

  /** The one result the operation has on map `m`, short of an exception. */
  ghost function Result(m: map<Key, Val>, op: Op): (r: Res) {
    match op
    case Find(k) => if k in m then Found(m[k]) else Missing
    case Update(k, _) => Done(k in m)
    case Erase(k) => Done(k in m)
    case Insert(k, _) => Done(k !in m)
    case Clear => Done(true)
  }

  ghost predicate BothFull(cfg: Config, t: T.Table, k: Key)
    requires T.Shape(cfg, t)
  {
    Vacancy(cfg, t, k).Nowhere?
  }

  /** With both buckets held and migrated, a call ends with the result the map has for it, unless it is an
      insertion of an absent key whose buckets are full: that goes on to displace entries. */
  lemma DirectAnswers(cfg: Config, s: Sys, tid: nat, ch: Choice)
    requires Inv(cfg, s) && tid < |s.threads| && !s.fault
    requires var th := s.threads[tid]; th.Work? && th.goal.Direct? && InCharge(s, th)
    ensures var th, s', m := s.threads[tid], Step(cfg, s, tid, ch), T.Abs(cfg, s.t);
            if th.op.Insert? && th.op.k !in m && BothFull(cfg, s.t, th.op.k)
            then s'.threads[tid] == Hunt(th.op, th.hp) && s'.log == s.log && s'.t == s.t
            else s'.threads[tid] == Idle && s'.log == s.log + [Event(tid, th.op, Result(m, th.op))]
  {
    var th := s.threads[tid];
    HolderStep(cfg, s, tid, ch);
    OwnLookup(cfg, s, tid);
    Owns(cfg, s, tid);
    DirectResult(cfg, s, tid, th);
  }

  lemma DirectResult(cfg: Config, s: Sys, tid: nat, th: Thread)
    requires tid < |s.threads| && th.Work? && th.goal.Direct? && Owning(cfg, s, th)
    requires LookupOk(cfg, s, th, T.Lookup(cfg, s.t, th.op.k))
    ensures var s', m := DirectStep(cfg, s, tid, th), T.Abs(cfg, s.t);
            if th.op.Insert? && th.op.k !in m && BothFull(cfg, s.t, th.op.k)
            then s'.threads[tid] == Hunt(th.op, th.hp) && s'.log == s.log && s'.t == s.t
            else s'.threads[tid] == Idle && s'.log == s.log + [Event(tid, th.op, Result(m, th.op))]
  {
    assert InRange(cfg, s.t.hp, th.op.k);
    assert LockStays(cfg, s.t.hp, Home(cfg, s.t.hp, th.op.k));
    assert LockStays(cfg, s.t.hp, Other(cfg, s.t.hp, th.op.k));
  }

  /** After a displacement has freed a slot, the insertion ends, with the result the map has for it then. */
  lemma SettleAnswers(cfg: Config, s: Sys, tid: nat, ch: Choice)
    requires Inv(cfg, s) && tid < |s.threads| && !s.fault && s.threads[tid].Settle? && InCharge(s, s.threads[tid])
    ensures var th, s' := s.threads[tid], Step(cfg, s, tid, ch);
            s'.threads[tid] == Idle && s'.log == s.log + [Event(tid, th.op, Result(T.Abs(cfg, s.t), th.op))]
  {
    var th := s.threads[tid];
    HolderStep(cfg, s, tid, ch);
    OwnLookup(cfg, s, tid);
    SettleFacts(cfg, s, tid);
    SettleResult(cfg, s, tid, th);
  }

  lemma SettleFacts(cfg: Config, s: Sys, tid: nat)
    requires Inv(cfg, s) && tid < |s.threads| && s.threads[tid].Settle? && InCharge(s, s.threads[tid])
    ensures var th := s.threads[tid];
            th.op.Insert? && th.b < |s.t.cur| && th.s < |s.t.cur[th.b]| && cfg.lock(th.b) < |s.t.cnt|
  {
    assert ThreadOk(cfg, s, s.threads[tid]);
    assert LockStays(cfg, s.t.hp, s.threads[tid].b);
  }

  lemma SettleResult(cfg: Config, s: Sys, tid: nat, th: Thread)
    requires T.Shape(cfg, s.t) && s.locks != [] && tid < |s.threads| && th.Settle? && th.op.Insert?
    requires th.b < |s.t.cur| && th.s < |s.t.cur[th.b]| && cfg.lock(th.b) < |s.t.cnt|
    requires LookupOk(cfg, s, th, T.Lookup(cfg, s.t, th.op.k))
    ensures var s' := SettleStep(cfg, s, tid, th);
            s'.threads[tid] == Idle && s'.log == s.log + [Event(tid, th.op, Result(T.Abs(cfg, s.t), th.op))]
  {
  }

  // ---------- the exception ----------

  ghost predicate Throws(s: Sys, s': Sys) {
    |s'.log| == |s.log| + 1 && s'.log[|s.log|].res == Threw
  }

  /** An exception is thrown exactly by an insertion that holds all locks and may not double the table. */
  lemma ThrowsExactly(cfg: Config, s: Sys, tid: nat, ch: Choice)
    requires Inv(cfg, s) && tid < |s.threads| && !s.fault
    ensures var th := s.threads[tid];
            Throws(s, Step(cfg, s, tid, ch)) <==> th.AllHeld? && th.op.Insert? && th.hp + 1 > cfg.maxHp
  {
    var th := s.threads[tid];
    assert ThreadOk(cfg, s, th);
    if th.AllHeld? {
      HolderStep(cfg, s, tid, ch);
      AllHeldAnswers(cfg, s, tid, th, ch);
    } else if th.Work? || th.Settle? {
      HolderThrowsNot(cfg, s, tid, ch);
    } else {
      StepAnswers(cfg, s, tid, ch);
      HolderStep(cfg, s, tid, ch);
      OthersBusy(cfg, s, tid, th, ch);
    }
  }

  /** The remaining steps add nothing to the history. */
  lemma OthersBusy(cfg: Config, s: Sys, tid: nat, th: Thread, ch: Choice)
    requires T.Shape(cfg, s.t) && tid < |s.threads| && th == s.threads[tid] && !s.fault
    requires !th.AllHeld? && !th.Work? && !th.Settle?
    ensures Step(cfg, s, tid, ch).log == s.log
  {
  }

  lemma HolderThrowsNot(cfg: Config, s: Sys, tid: nat, ch: Choice)
    requires Inv(cfg, s) && tid < |s.threads| && !s.fault && (s.threads[tid].Work? || s.threads[tid].Settle?)
    ensures !Throws(s, Step(cfg, s, tid, ch))
  {
    var th := s.threads[tid];
    if InCharge(s, th) && th.Settle? {
      SettleAnswers(cfg, s, tid, ch);
    } else if InCharge(s, th) && th.goal.Direct? {
      DirectAnswers(cfg, s, tid, ch);
    } else {
      AddsNothing(cfg, s, tid, ch);
    }
  }

  lemma AddsNothing(cfg: Config, s: Sys, tid: nat, ch: Choice)
    requires Inv(cfg, s) && tid < |s.threads| && !s.fault && (s.threads[tid].Work? || s.threads[tid].Settle?)
    requires InCharge(s, s.threads[tid]) ==> s.threads[tid].Work? && !s.threads[tid].goal.Direct?
    ensures Step(cfg, s, tid, ch).log == s.log
  {
    var th := s.threads[tid];
    assert ThreadOk(cfg, s, th);
    HolderStep(cfg, s, tid, ch);
    if InCharge(s, th) {
      StaysBusy(cfg, s, tid, th);
    }
  }

  lemma StaysBusy(cfg: Config, s: Sys, tid: nat, th: Thread)
    requires T.Shape(cfg, s.t) && tid < |s.threads| && th.Work? && !th.op.Clear? && !th.goal.Direct?
    ensures WorkStep(cfg, s, tid, th).log == s.log
  {
  }

  ghost predicate Thrown(log: seq<Event>) {
    exists i :: 0 <= i < |log| && log[i].res == Threw
  }

  ghost predicate AtLimit(cfg: Config, s: Sys) {
    Thrown(s.log) ==> s.t.hp >= cfg.maxHp
  }

  lemma StepAtLimit(cfg: Config, s: Sys, tid: nat, ch: Choice)
    requires Inv(cfg, s) && AtLimit(cfg, s)
    ensures AtLimit(cfg, Step(cfg, s, tid, ch))
  {
    if tid < |s.threads| && !s.fault {
      var s' := Step(cfg, s, tid, ch);
      StepAnswers(cfg, s, tid, ch);
      ThrowsExactly(cfg, s, tid, ch);
      Limit(cfg, s, tid);
      if Thrown(s'.log) && !Throws(s, s') {
        var i :| 0 <= i < |s'.log| && s'.log[i].res == Threw;
        assert s.log[i].res == Threw;
      }
    }
  }

  lemma Limit(cfg: Config, s: Sys, tid: nat)
    requires Inv(cfg, s) && tid < |s.threads|
    ensures s.threads[tid].AllHeld? ==> s.threads[tid].hp <= s.t.hp
  {
    assert ThreadOk(cfg, s, s.threads[tid]);
  }

  lemma {:induction false} RunAtLimit(cfg: Config, s: Sys, schedule: seq<(nat, Choice)>)
    requires Inv(cfg, s) && AtLimit(cfg, s)
    ensures AtLimit(cfg, Run(cfg, s, schedule))
    decreases |schedule|
  {
    if schedule != [] {
      StepInv(cfg, s, schedule[0].0, schedule[0].1);
      StepAtLimit(cfg, s, schedule[0].0, schedule[0].1);
      RunAtLimit(cfg, Step(cfg, s, schedule[0].0, schedule[0].1), schedule[1..]);
    }
  }

  /** In every run, if an insertion has thrown, the table has reached its maximum. */
  lemma {:induction false} ThrownAtLimit(hash: Key -> U64, slots: nat, pathLen: nat, lockBits: nat, maxHp: nat,
                                         simple: bool, hp: nat, n: nat, schedule: seq<(nat, Choice)>)
    requires slots >= 1 && pathLen >= 1
    ensures var cfg := Libcuckoo(hash, slots, pathLen, lockBits, maxHp, simple);
            var s := Run(cfg, Init(cfg, hp, n), schedule);
            Thrown(s.log) ==> s.t.hp >= maxHp
  {
    LibcuckooLaws(hash, slots, pathLen, lockBits, maxHp, simple);
    var cfg := Libcuckoo(hash, slots, pathLen, lockBits, maxHp, simple);
    InitInv(cfg, hp, n);
    RunAtLimit(cfg, Init(cfg, hp, n), schedule);
  }
}
