/** Any number of threads operating on one cuckoo hash map.  A step takes one lock, or reads or compares the
    hashpower, or migrates the buckets of one held lock, or does the work of one critical section, or is one of
    the stages in which a doubling shows itself.  A schedule picks, at every step, a thread and a resolution of
    its free choices. */
module CuckooThreads {
  import opened Bits
  import opened CuckooIndex
  import opened CuckooBuckets
  import T = CuckooTable
  import opened CuckooLocks

  datatype Op = Find(k: Key) | Update(k: Key, v: Val) | Erase(k: Key) | Insert(k: Key, v: Val) | Clear
  datatype Res = Found(v: Val) | Missing | Done(ok: bool) | Threw

  /** An operation takes effect, with this result. */
  datatype Event = Event(tid: nat, op: Op, res: Res)

  datatype Owner = Free | By(tid: nat)

  /** One position of a displacement path and the hash seen there. */
  datatype Rec = Rec(bucket: nat, slot: nat, hash: U64)

  /** Why a thread takes locks. */
  datatype Goal =
    | Direct                                                  // the two buckets of the key
    | Visit(b: nat)                                           // slot_search looks at a bucket
    | Read(slots: seq<nat>, path: seq<Rec>, b: nat)           // cuckoopath_search fills in the path
    | Shift(path: seq<Rec>, depth: nat)                       // cuckoopath_move

  datatype Thread =
    | Idle
    | Snapshot(op: Op)                                        // about to read the hashpower
    | Fetch(op: Op, hp: nat, goal: Goal)                      // about to read the current lock container
    | Acquire(op: Op, hp: nat, goal: Goal, c: nat, need: seq<nat>, got: nat)  // holds need[..got]
    | Verify(op: Op, hp: nat, goal: Goal, c: nat, need: seq<nat>)             // holds need[..1], compares hashpowers
    | Migrate(op: Op, hp: nat, goal: Goal, c: nat, need: seq<nat>, m: nat)    // holds need, migrated need[..m]
    | Work(op: Op, hp: nat, goal: Goal, c: nat, need: seq<nat>)               // holds need, all migrated
    | Hunt(op: Op, hp: nat)                                   // run_cuckoo, no lock held
    | Settle(op: Op, hp: nat, c: nat, need: seq<nat>, b: nat, s: nat)         // a slot was freed
    | GrabAll(op: Op, hp: nat, first: nat, c: nat, l: nat)    // lock_all, next is lock l of container c
    | AllHeld(op: Op, hp: nat, first: nat)
    | Doubling(op: Op, first: nat, stage: Stage)              // cuckoo_fast_double, holds all locks

  /** How far a doubling has come. */
  datatype Stage =
    | Grown                                                   // a larger lock container was appended if need be
    | Swapped                                                 // the containers were swapped: buckets_ has no storage
    | Filling                                                 // the new storage is there and is being filled

  datatype Choice =
    | Go
    | Invoke(op: Op)
    | LookAt(b: nat)                                          // slot_search dequeues a bucket
    | GiveUp                                                  // slot_search fails
    | Follow(second: bool, slots: seq<nat>)                   // slot_search found a path

  /** What a doubling shows of itself to the other threads.  The hashpower they read is a field of its own: a
      doubling shows that of the container swapped in before it shows the new one. */
  datatype Front = Front(
    shown: nat,                      // hashpower of buckets_
    prev: nat,                       // hashpower of old_buckets_
    lockHp: nat,                     // hashpower the current lock container was sized for
    bare: bool)                      // buckets_ has no storage or is being filled

  /** The machine stops when a thread uses the buckets unprotected. */
  datatype Sys = Sys(t: T.Table, locks: seq<seq<Owner>>, threads: seq<Thread>, log: seq<Event>, front: Front,
                     fault: bool)

  // ---------- sequential meaning of an operation ----------

  ghost predicate Right(m: map<Key, Val>, op: Op, res: Res) {
    match op
    case Find(k) => res == if k in m then Found(m[k]) else Missing
    case Update(k, _) => res == Done(k in m)
    case Erase(k) => res == Done(k in m)
    case Insert(k, _) => res == Done(k !in m) || res == Threw
    case Clear => res == Done(true)
  }

  ghost function After(m: map<Key, Val>, op: Op, res: Res): (m': map<Key, Val>) {
    match op
    case Find(_) => m
    case Update(k, v) => if k in m then m[k := v] else m
    case Erase(k) => m - {k}
    case Insert(k, v) => if k in m || res == Threw then m else m[k := v]
    case Clear => map[]
  }

  /** The map after a history of operations, started empty. */
  ghost function Replay(log: seq<Event>): (m: map<Key, Val>) {
    if log == [] then map[]
    else
      var e := log[|log| - 1];
      After(Replay(log[..|log| - 1]), e.op, e.res)
  }

  /** Every result in the history is the one a sequential map would have given. */
  ghost predicate Legal(log: seq<Event>) {
    log != [] ==>
      && Legal(log[..|log| - 1])
      && Right(Replay(log[..|log| - 1]), log[|log| - 1].op, log[|log| - 1].res)
  }

  // ---------- locks ----------

  ghost function Give(locks: seq<seq<Owner>>, c: nat, l: nat, o: Owner): (r: seq<seq<Owner>>)
    requires c < |locks| && l < |locks[c]|
    ensures |r| == |locks| && forall i :: 0 <= i < |locks| ==> |r[i]| == |locks[i]|
  {
    locks[c := locks[c][l := o]]
  }

  ghost function ReleaseRowTo(row: seq<Owner>, tid: nat, keep: seq<nat>, n: nat): (r: seq<Owner>)
    requires n <= |row|
    ensures |r| == n
    ensures forall l :: 0 <= l < n ==> r[l] == if row[l] == By(tid) && l !in keep then Free else row[l]
  {
    if n == 0 then []
    else ReleaseRowTo(row, tid, keep, n - 1) + [if row[n - 1] == By(tid) && n - 1 !in keep then Free else row[n - 1]]
  }

  ghost function ReleaseRow(row: seq<Owner>, tid: nat, keep: seq<nat>): (r: seq<Owner>)
    ensures |r| == |row|
    ensures forall l :: 0 <= l < |row| ==> r[l] == if row[l] == By(tid) && l !in keep then Free else row[l]
  {
    ReleaseRowTo(row, tid, keep, |row|)
  }

  ghost function ReleaseTo(locks: seq<seq<Owner>>, tid: nat, c: nat, keep: seq<nat>, n: nat): (r: seq<seq<Owner>>)
    requires n <= |locks|
    ensures |r| == n
    ensures forall i :: 0 <= i < n ==> r[i] == ReleaseRow(locks[i], tid, if i == c then keep else [])
  {
    if n == 0 then []
    else ReleaseTo(locks, tid, c, keep, n - 1) + [ReleaseRow(locks[n - 1], tid, if n - 1 == c then keep else [])]
  }

  /** The thread lets go of every lock it holds, except those of container `c` listed in `keep`. */
  ghost function Release(locks: seq<seq<Owner>>, tid: nat, c: nat, keep: seq<nat>): (r: seq<seq<Owner>>)
    ensures |r| == |locks|
    ensures forall i :: 0 <= i < |locks| ==> r[i] == ReleaseRow(locks[i], tid, if i == c then keep else [])
  {
    ReleaseTo(locks, tid, c, keep, |locks|)
  }

  /** Locks of container `c` that a thread in this state holds. */
  ghost predicate Holds(th: Thread, c: nat, l: nat) {
    match th
    case Acquire(_, _, _, c', need, got) => c == c' && got <= |need| && l in need[..got]
    case Verify(_, _, _, c', need) => c == c' && need != [] && l == need[0]
    case Migrate(_, _, _, c', need, _) => c == c' && l in need
    case Work(_, _, _, c', need) => c == c' && l in need
    case Settle(_, _, c', need, _, _) => c == c' && l in need
    case GrabAll(_, _, first, c', l') => first <= c < c' || (c == c' && l < l')
    case AllHeld(_, _, first) => first <= c
    case Doubling(_, first, _) => first <= c
    case _ => false
  }

  /** Locks for a goal: lock_one, lock_two or lock_three of the buckets concerned. */
  ghost function Need(cfg: Config, op: Op, hp: nat, goal: Goal): (ls: seq<nat>)
    ensures Ascending(ls) && |ls| >= 1
  {
    match goal
    case Direct => if op.Clear? then [0] else LockTwo(cfg.lock(Home(cfg, hp, op.k)), cfg.lock(Other(cfg, hp, op.k)))
    case Visit(b) => [cfg.lock(b)]
    case Read(_, _, b) => [cfg.lock(b)]
    case Shift(path, d) =>
      if op.Clear? || d >= |path| then [0]
      else if d == 0 then LockTwo(cfg.lock(Home(cfg, hp, op.k)), cfg.lock(Other(cfg, hp, op.k)))
      else if d == 1 then
        LockThree(cfg.lock(Home(cfg, hp, op.k)), cfg.lock(Other(cfg, hp, op.k)), cfg.lock(path[1].bucket))
      else LockTwo(cfg.lock(path[d - 1].bucket), cfg.lock(path[d].bucket))
  }

  // ---------- steps ----------

  ghost function Finish(s: Sys, tid: nat, t': T.Table, op: Op, res: Res): (s': Sys)
    requires tid < |s.threads|
  {
    s.(t := t', locks := Release(s.locks, tid, 0, []), threads := s.threads[tid := Idle],
       log := s.log + [Event(tid, op, res)])
  }

  ghost function Leave(s: Sys, tid: nat, th: Thread): (s': Sys)
    requires tid < |s.threads|
  {
    s.(locks := Release(s.locks, tid, 0, []), threads := s.threads[tid := th])
  }

  ghost function Become(s: Sys, tid: nat, th: Thread): (s': Sys)
    requires tid < |s.threads|
  {
    s.(threads := s.threads[tid := th])
  }

  /** lock() succeeds on a free lock; on a taken one the thread keeps spinning. */
  ghost function TakeStep(s: Sys, tid: nat, c: nat, l: nat, th: Thread): (s': Sys)
    requires tid < |s.threads|
  {
    if c < |s.locks| && l < |s.locks[c]| && s.locks[c][l] == Free then
      Become(s.(locks := Give(s.locks, c, l, By(tid))), tid, th)
    else s
  }

  /** find, update, erase and the first attempt of insert, with both buckets held and migrated. */
  ghost function DirectStep(cfg: Config, s: Sys, tid: nat, th: Thread): (s': Sys)
    requires tid < |s.threads| && T.Shape(cfg, s.t) && th.Work? && !th.op.Clear?
  {
    var t, k := s.t, th.op.k;
    var p := T.Lookup(cfg, t, k);
    match th.op
    case Find(_) =>
      Finish(s, tid, t, th.op, if p.At? then Found(t.cur[p.b][p.s].e.val) else Missing)
    case Update(_, v) =>
      Finish(s, tid, if p.At? then T.SetVal(t, p.b, p.s, v) else t, th.op, Done(p.At?))
    case Erase(_) =>
      Finish(s, tid, if p.At? && cfg.lock(p.b) < |t.cnt| then T.Del(cfg, t, p.b, p.s) else t, th.op, Done(p.At?))
    case Insert(_, v) =>
      if p.At? then Finish(s, tid, t, th.op, Done(false))
      else
        var q := Vacancy(cfg, t, k);
        if q.At? && cfg.lock(q.b) < |t.cnt| then
          Finish(s, tid, T.Add(cfg, t, q.b, q.s, Entry(Tag(cfg, k), k, v)), th.op, Done(true))
        else Leave(s, tid, Hunt(th.op, th.hp))
  }

  /** The slot cuckoo_insert would use: the last vacant one of the first bucket, else of the second. */
  ghost function Vacancy(cfg: Config, t: T.Table, k: Key): (p: T.Place)
    requires T.Shape(cfg, t)
    ensures p.At? ==> p.b < |t.cur| && p.s < cfg.slots && t.cur[p.b][p.s] == Vacant && Placed(cfg, t.hp, k, p.b)
  {
    assert InRange(cfg, t.hp, k);
    var i1, i2 := Home(cfg, t.hp, k), Other(cfg, t.hp, k);
    var r1 := T.LastVacant(t.cur[i1], |t.cur[i1]|);
    if r1 >= 0 then T.At(i1, r1)
    else
      var r2 := T.LastVacant(t.cur[i2], |t.cur[i2]|);
      if r2 >= 0 then T.At(i2, r2) else T.Nowhere
  }

  /** One iteration of the second loop of cuckoopath_search. */
  ghost function ReadStep(cfg: Config, s: Sys, tid: nat, th: Thread): (s': Sys)
    requires tid < |s.threads| && th.Work? && th.goal.Read?
  {
    var Read(slots, path, b) := th.goal;
    if |path| < |slots| && b < |s.t.cur| && slots[|path|] < |s.t.cur[b]|
    then Leave(s, tid, Fetch(th.op, th.hp, ReadGoal(cfg, th.hp, th.goal, s.t.cur[b][slots[|path|]])))
    else s
  }

  /** What follows a look at one position: the next position, or moving along the path. */
  ghost function ReadGoal(cfg: Config, hp: nat, g: Goal, x: Slot): (g': Goal)
    requires g.Read? && |g.path| < |g.slots|
  {
    var Read(slots, path, b) := g;
    if x == Vacant then Shift(path + [Rec(b, slots[|path|], 0)], |path|)
    else
      var h := cfg.hash(x.e.key);
      var path' := path + [Rec(b, slots[|path|], h)];
      if |path'| == |slots| then Shift(path', |path|) else Read(slots, path', cfg.alt(hp, cfg.partial(h), b))
  }

  /** cuckoopath_move re-validates a step of a path that may be stale. */
  ghost predicate StillGood(cfg: Config, t: T.Table, from: Rec, to: Rec) {
    true == (
      && from.bucket < |t.cur| && from.slot < |t.cur[from.bucket]|
      && to.bucket < |t.cur| && to.slot < |t.cur[to.bucket]|
      && t.cur[to.bucket][to.slot] == Vacant
      && t.cur[from.bucket][from.slot].Full?
      && cfg.hash(t.cur[from.bucket][from.slot].e.key) == from.hash
    )
  }

  ghost function ShiftStep(cfg: Config, s: Sys, tid: nat, th: Thread): (s': Sys)
    requires tid < |s.threads| && th.Work? && th.goal.Shift? && !th.op.Clear?
  {
    var Shift(path, d) := th.goal;
    var own := Need(cfg, th.op, th.hp, Direct);
    if d >= |path| then s
    else if d == 0 then
      if path[0].bucket < |s.t.cur| && path[0].slot < |s.t.cur[path[0].bucket]|
         && s.t.cur[path[0].bucket][path[0].slot] == Vacant
      then Become(s, tid, Settle(th.op, th.hp, th.c, th.need, path[0].bucket, path[0].slot))
      else Leave(s, tid, Hunt(th.op, th.hp))
    else if !StillGood(cfg, s.t, path[d - 1], path[d]) then
      Leave(s, tid, Hunt(th.op, th.hp))
    else
      var from, to := path[d - 1], path[d];
      var t' := T.Displace(s.t, from.bucket, from.slot, to.bucket, to.slot);
      if d == 1 then
        s.(t := t', locks := Release(s.locks, tid, th.c, own),
           threads := s.threads[tid := Settle(th.op, th.hp, th.c, own, from.bucket, from.slot)])
      else
        Leave(s.(t := t'), tid, Fetch(th.op, th.hp, Shift(path, d - 1)))
  }

  /** The end of cuckoo_insert: check again for the key, then store it in the freed slot. */
  ghost function SettleStep(cfg: Config, s: Sys, tid: nat, th: Thread): (s': Sys)
    requires tid < |s.threads| && T.Shape(cfg, s.t) && th.Settle? && th.op.Insert?
  {
    var k := th.op.k;
    if T.Lookup(cfg, s.t, k).At? then Finish(s, tid, s.t, th.op, Done(false))
    else if th.b < |s.t.cur| && th.s < |s.t.cur[th.b]| && cfg.lock(th.b) < |s.t.cnt| then
      Finish(s, tid, T.Add(cfg, s.t, th.b, th.s, Entry(Tag(cfg, k), k, th.op.v)), th.op, Done(true))
    else s
  }

  /** lock_all: every lock of the container current at the start, then of any appended since. */
  ghost function GrabStep(s: Sys, tid: nat, th: Thread): (s': Sys)
    requires tid < |s.threads| && th.GrabAll?
  {
    if th.c < |s.locks| then
      if th.l < |s.locks[th.c]| then TakeStep(s, tid, th.c, th.l, GrabAll(th.op, th.hp, th.first, th.c, th.l + 1))
      else if th.c + 1 < |s.locks| then Become(s, tid, GrabAll(th.op, th.hp, th.first, th.c + 1, 0))
      else Become(s, tid, AllHeld(th.op, th.hp, th.first))
    else s
  }

  /** clear, or the start of cuckoo_fast_double, under all locks. */
  ghost function AllHeldStep(cfg: Config, s: Sys, tid: nat, th: Thread): (s': Sys)
    requires tid < |s.threads| && th.AllHeld?
  {
    if th.op.Clear? then Finish(s, tid, T.Clear(cfg, s.t), th.op, Done(true))
    else if th.hp + 1 > cfg.maxHp then Finish(s, tid, s.t, th.op, Threw)
    else if s.front.shown != th.hp then Leave(s, tid, Snapshot(th.op))
    else
      Become(WithLocks(cfg, s, tid), tid, Doubling(th.op, th.first, Grown))
  }

  ghost function WithLocks(cfg: Config, s: Sys, tid: nat): (s': Sys) {
    var hp := s.front.lockHp + 1;
    s.(locks := MaybeResizeLocks(cfg, s.locks, hp, tid), front := s.front.(lockHp := hp))
  }

  /** The rest of cuckoo_fast_double: swap the containers, assign a new one, fill it and unlock. */
  ghost function DoublingStep(cfg: Config, s: Sys, tid: nat, th: Thread): (s': Sys)
    requires tid < |s.threads| && th.Doubling?
  {
    match th.stage
    case Grown =>
      Become(s.(front := Front(s.front.prev, s.t.hp, s.front.lockHp, true)), tid,
             Doubling(th.op, th.first, Swapped))
    case Swapped =>
      Become(s.(t := T.Double(cfg, s.t), front := s.front.(shown := s.t.hp + 1)), tid,
             Doubling(th.op, th.first, Filling))
    case Filling => Leave(s.(front := s.front.(bare := false)), tid, Snapshot(th.op))
  }

  ghost function Row(n: nat, o: Owner): (r: seq<Owner>)
    ensures |r| == n && forall l :: 0 <= l < n ==> r[l] == o
  {
    if n == 0 then [] else Row(n - 1, o) + [o]
  }

  ghost function IdleThreads(n: nat): (r: seq<Thread>)
    ensures |r| == n && forall i :: 0 <= i < n ==> r[i] == Idle
  {
    if n == 0 then [] else IdleThreads(n - 1) + [Idle]
  }

  /** A larger lock container is appended, all of it held, if the table outgrows the current one. */
  ghost function MaybeResizeLocks(cfg: Config, locks: seq<seq<Owner>>, hp: nat, tid: nat): (r: seq<seq<Owner>>) {
    if locks != [] && |locks[|locks| - 1]| < NumLocks(cfg, hp)
    then locks + [Row(NumLocks(cfg, hp), By(tid))]
    else locks
  }

  /** One lock of lock_one, lock_two or lock_three. */
  ghost function AcquireStep(s: Sys, tid: nat, th: Thread): (s': Sys)
    requires tid < |s.threads| && th.Acquire?
  {
    if th.got >= |th.need| then s else TakeStep(s, tid, th.c, th.need[th.got], WithOneMore(th))
  }

  /** The state after one more lock: compare hashpowers after the first, go on to migrate after the last. */
  ghost function WithOneMore(th: Thread): (th': Thread)
    requires th.Acquire? && th.got < |th.need|
    ensures forall c, l :: Holds(th', c, l) <==> Holds(th, c, l) || (c == th.c && l == th.need[th.got])
  {
    var Acquire(op, hp, goal, c, need, got) := th;
    assert need[..got + 1] == need[..got] + [need[got]];
    assert need[..|need|] == need;
    if got == 0 then Verify(op, hp, goal, c, need)
    else if got + 1 == |need| then Migrate(op, hp, goal, c, need, 0)
    else th.(got := got + 1)
  }

  /** check_hashpower, after the first lock. */
  ghost function VerifyStep(s: Sys, tid: nat, th: Thread): (s': Sys)
    requires tid < |s.threads| && th.Verify?
  {
    var Verify(op, hp, goal, c, need) := th;
    if s.front.shown != hp then Leave(s, tid, Snapshot(op))
    else if |need| == 1 then Become(s, tid, Migrate(op, hp, goal, c, need, 0))
    else Become(s, tid, Acquire(op, hp, goal, c, need, 1))
  }

  /** rehash_lock on the next of the held locks. */
  ghost function MigrateStep(cfg: Config, s: Sys, tid: nat, th: Thread): (s': Sys)
    requires tid < |s.threads| && th.Migrate?
  {
    var Migrate(op, hp, goal, c, need, m) := th;
    if m >= |need| then Become(s, tid, Work(op, hp, goal, c, need))
    else if need[m] < |s.t.mig| && !s.t.mig[need[m]] && Astray(s, hp, c) then s.(fault := true)
    else if need[m] < |s.t.mig| && (!s.t.mig[need[m]] ==> s.t.rem > 0) then
      Become(s.(t := T.Rehash(cfg, s.t, need[m])), tid, Migrate(op, hp, goal, c, need, m + 1))
    else s
  }

  ghost function HuntStep(cfg: Config, s: Sys, tid: nat, th: Thread, ch: Choice): (s': Sys)
    requires tid < |s.threads| && th.Hunt? && th.op.Insert?
  {
    match ch
    case LookAt(b) =>
      if b < Pow2(th.hp) then Become(s, tid, Fetch(th.op, th.hp, Visit(b))) else s
    case GiveUp =>
      if s.locks == [] then s
      else Become(s, tid, GrabAll(th.op, th.hp, |s.locks| - 1, |s.locks| - 1, 0))
    case Follow(second, slots) =>
      if 1 <= |slots| <= cfg.pathLen && forall i :: 0 <= i < |slots| ==> slots[i] < cfg.slots then
        var b := if second then Other(cfg, th.hp, th.op.k) else Home(cfg, th.hp, th.op.k);
        Become(s, tid, Fetch(th.op, th.hp, Read(slots, [], b)))
      else s
    case _ => s
  }

  /** The lock container and the hashpower a thread worked with are still the current ones. */
  ghost predicate Current(s: Sys, hp: nat, c: nat) {
    hp == s.t.hp && c + 1 == |s.locks|
  }

  /** A thread that believes in this hashpower and this lock container may not touch the buckets: they have
      no storage or are being filled, or its locks are not the ones that protect them. */
  ghost predicate Astray(s: Sys, hp: nat, c: nat) {
    s.front.bare || !Current(s, hp, c)
  }

  /** One critical section. */
  ghost function WorkStep(cfg: Config, s: Sys, tid: nat, th: Thread): (s': Sys)
    requires T.Shape(cfg, s.t) && tid < |s.threads| && th.Work? && !th.op.Clear?
  {
    match th.goal
    case Direct => DirectStep(cfg, s, tid, th)
    case Visit(_) => Leave(s, tid, Hunt(th.op, th.hp))
    case Read(_, _, _) => ReadStep(cfg, s, tid, th)
    case Shift(_, _) => ShiftStep(cfg, s, tid, th)
  }

  ghost function Step(cfg: Config, s: Sys, tid: nat, ch: Choice): (s': Sys)
    requires T.Shape(cfg, s.t)
  {
    if tid >= |s.threads| || s.fault then s
    else
      var th := s.threads[tid];
      match th
      case Idle =>
        if !ch.Invoke? then s
        else if !ch.op.Clear? then Become(s, tid, Snapshot(ch.op))
        else if s.locks == [] then s
        else Become(s, tid, GrabAll(ch.op, 0, |s.locks| - 1, |s.locks| - 1, 0))
      case Snapshot(op) => Become(s, tid, Fetch(op, s.front.shown, Direct))
      case Fetch(op, hp, goal) =>
        if s.locks == [] then s
        else Become(s, tid, Acquire(op, hp, goal, |s.locks| - 1, Need(cfg, op, hp, goal), 0))
      case Acquire(_, _, _, _, _, _) => AcquireStep(s, tid, th)
      case Verify(_, _, _, _, _) => VerifyStep(s, tid, th)
      case Migrate(_, _, _, _, _, _) => MigrateStep(cfg, s, tid, th)
      case Work(op, hp, _, c, _) =>
        if op.Clear? then s
        else if Astray(s, hp, c) then s.(fault := true)
        else WorkStep(cfg, s, tid, th)
      case Hunt(op, _) => if op.Insert? then HuntStep(cfg, s, tid, th, ch) else s
      case Settle(op, hp, c, _, _, _) =>
        if !op.Insert? then s
        else if Astray(s, hp, c) then s.(fault := true)
        else SettleStep(cfg, s, tid, th)
      case GrabAll(_, _, _, _, _) => GrabStep(s, tid, th)
      case AllHeld(_, _, _) => AllHeldStep(cfg, s, tid, th)
      case Doubling(_, _, _) => DoublingStep(cfg, s, tid, th)
  }

  // ---------- invariant ----------

  ghost predicate PathOk(cfg: Config, op: Op, hp: nat, path: seq<Rec>) {
    && !op.Clear?
    && (path != [] ==> Placed(cfg, hp, op.k, path[0].bucket))
    && (forall i :: 0 <= i < |path| ==> path[i].bucket < Pow2(hp) && path[i].slot < cfg.slots)
    && (forall i :: 0 < i < |path| ==> path[i].bucket == cfg.alt(hp, cfg.partial(path[i - 1].hash), path[i - 1].bucket))
  }

  /** `b` is where a path that went through `path` continues. */
  ghost predicate NextOk(cfg: Config, op: Op, hp: nat, path: seq<Rec>, b: nat)
    requires !op.Clear?
  {
    && b < Pow2(hp)
    && if path == [] then Placed(cfg, hp, op.k, b)
       else b == cfg.alt(hp, cfg.partial(path[|path| - 1].hash), path[|path| - 1].bucket)
  }

  ghost predicate GoalOk(cfg: Config, op: Op, hp: nat, goal: Goal) {
    && !op.Clear?
    && (!goal.Direct? ==> op.Insert?)
    && match goal
       case Direct => true
       case Visit(b) => b < Pow2(hp)
       case Read(slots, path, b) =>
         && |path| < |slots| <= cfg.pathLen
         && (forall i :: 0 <= i < |slots| ==> slots[i] < cfg.slots)
         && PathOk(cfg, op, hp, path) && NextOk(cfg, op, hp, path, b)
       case Shift(path, d) => d < |path| && PathOk(cfg, op, hp, path)
  }

  ghost predicate MigratedAll(t: T.Table, need: seq<nat>, m: nat) {
    m <= |need| && forall i :: 0 <= i < m ==> need[i] < |t.mig| && t.mig[need[i]]
  }

  ghost predicate LockingOk(cfg: Config, s: Sys, op: Op, hp: nat, goal: Goal, c: nat, need: seq<nat>) {
    && hp <= s.t.hp && GoalOk(cfg, op, hp, goal)
    && need == Need(cfg, op, hp, goal)
    && c < |s.locks| && NumLocks(cfg, hp) <= |s.locks[c]|
    && (hp == s.front.lockHp ==> c + 1 == |s.locks|)
  }

  ghost predicate ThreadOk(cfg: Config, s: Sys, th: Thread) {
    true == match th
    case Idle => true
    case Snapshot(op) => !op.Clear?
    case Fetch(op, hp, goal) => hp <= s.t.hp && GoalOk(cfg, op, hp, goal)
    case Acquire(op, hp, goal, c, need, got) => LockingOk(cfg, s, op, hp, goal, c, need) && got < |need|
    case Verify(op, hp, goal, c, need) => LockingOk(cfg, s, op, hp, goal, c, need)
    case Migrate(op, hp, goal, c, need, m) =>
      LockingOk(cfg, s, op, hp, goal, c, need) && (Current(s, hp, c) ==> MigratedAll(s.t, need, m))
    case Work(op, hp, goal, c, need) =>
      LockingOk(cfg, s, op, hp, goal, c, need) && (Current(s, hp, c) ==> MigratedAll(s.t, need, |need|))
    case Hunt(op, hp) => op.Insert? && hp <= s.t.hp
    case Settle(op, hp, c, need, b, x) =>
      && op.Insert? && LockingOk(cfg, s, op, hp, Direct, c, need) && Placed(cfg, hp, op.k, b)
      && (Current(s, hp, c) ==>
            MigratedAll(s.t, need, |need|) && b < |s.t.cur| && x < |s.t.cur[b]| && s.t.cur[b][x] == Vacant)
    case GrabAll(op, hp, first, c, l) =>
      && (op.Clear? || op.Insert?) && hp <= s.t.hp
      && first <= c < |s.locks| && l <= |s.locks[c]|
    case AllHeld(op, hp, first) =>
      (op.Clear? || op.Insert?) && hp <= s.t.hp && first < |s.locks|
    case Doubling(op, first, stage) => op.Insert? && first < |s.locks| && StageOk(s, stage)
  }

  ghost predicate StageOk(s: Sys, stage: Stage) {
    && (stage.Filling? ==> s.front.lockHp == s.t.hp)
    && (!stage.Filling? ==> s.front.lockHp == s.t.hp + 1)
    && (!stage.Swapped? ==> s.front.shown == s.t.hp)
    && (s.front.bare <==> !stage.Grown?)
  }

  ghost predicate NoDoubling(threads: seq<Thread>) {
    forall i :: 0 <= i < |threads| ==> !threads[i].Doubling?
  }

  /** Unless a doubling is going on, the hashpower shown is that of the table and the buckets are in place. */
  ghost predicate Shown(s: Sys) {
    true == (
      && s.front.prev <= s.t.hp && s.front.shown <= s.t.hp <= s.front.lockHp
      && (NoDoubling(s.threads) ==> s.front.shown == s.t.hp == s.front.lockHp && !s.front.bare)
    )
  }

  /** A lock is owned by a thread exactly when that thread's state says it holds it. */
  ghost predicate LocksOk(s: Sys) {
    LocksMatch(s.locks, s.threads)
  }

  ghost predicate LocksMatch(locks: seq<seq<Owner>>, threads: seq<Thread>) {
    && (forall c, l :: 0 <= c < |locks| && 0 <= l < |locks[c]| && locks[c][l].By? ==> locks[c][l].tid < |threads|)
    && (forall i, c, l :: 0 <= i < |threads| && 0 <= c < |locks| && 0 <= l < |locks[c]| ==>
          (Holds(threads[i], c, l) <==> locks[c][l] == By(i)))
  }

  ghost predicate Inv(cfg: Config, s: Sys) {
    true == (
      && T.Inv(cfg, s.t)
      && s.locks != [] && |s.locks[|s.locks| - 1]| == NumLocks(cfg, s.front.lockHp)
      && LocksOk(s) && Shown(s)
      && (forall i :: 0 <= i < |s.threads| ==> ThreadOk(cfg, s, s.threads[i]))
      && Legal(s.log) && Same(Replay(s.log), T.Abs(cfg, s.t))
    )
  }

  // ---------- small facts ----------

  lemma NumLocksMonotone(cfg: Config, hp: nat, hp': nat)
    requires hp <= hp'
    ensures NumLocks(cfg, hp) <= NumLocks(cfg, hp')
  {
    Pow2Monotone(hp, hp');
  }

  lemma NeedInRange(cfg: Config, op: Op, hp: nat, goal: Goal)
    requires Laws(cfg) && GoalOk(cfg, op, hp, goal)
    ensures forall l :: l in Need(cfg, op, hp, goal) ==> l < NumLocks(cfg, hp)
  {
    assert InRange(cfg, hp, op.k);
    assert LockStays(cfg, hp, Home(cfg, hp, op.k));
    assert LockStays(cfg, hp, Other(cfg, hp, op.k));
    match goal {
      case Direct =>
      case Visit(b) => assert LockStays(cfg, hp, b);
      case Read(_, _, b) => assert LockStays(cfg, hp, b);
      case Shift(path, d) =>
        assert LockStays(cfg, hp, path[d].bucket);
        if d >= 1 {
          assert LockStays(cfg, hp, path[d - 1].bucket);
        }
    }
  }

  /** Appending one event whose result is right keeps the history legal. */
  lemma LogGrows(log: seq<Event>, e: Event)
    requires Legal(log) && Right(Replay(log), e.op, e.res)
    ensures Legal(log + [e]) && Replay(log + [e]) == After(Replay(log), e.op, e.res)
  {
    assert (log + [e])[..|log|] == log;
  }

  // ---------- locks stay consistent ----------

  lemma ReleaseKeeps(s: Sys, tid: nat, th: Thread, c: nat, keep: seq<nat>)
    requires LocksOk(s) && tid < |s.threads|
    requires forall c', l :: 0 <= c' < |s.locks| && 0 <= l < |s.locks[c']| ==>
               (Holds(th, c', l) <==> c' == c && l in keep)
    requires forall l :: l in keep ==> Holds(s.threads[tid], c, l)
    ensures LocksOk(s.(locks := Release(s.locks, tid, c, keep), threads := s.threads[tid := th]))
  {
  }

  lemma TakeKeeps(s: Sys, tid: nat, th: Thread, c: nat, l: nat)
    requires LocksOk(s) && tid < |s.threads| && c < |s.locks| && l < |s.locks[c]| && s.locks[c][l] == Free
    requires forall c', l' :: 0 <= c' < |s.locks| && 0 <= l' < |s.locks[c']| ==>
               (Holds(th, c', l') <==> Holds(s.threads[tid], c', l') || (c' == c && l' == l))
    ensures LocksOk(s.(locks := Give(s.locks, c, l, By(tid)), threads := s.threads[tid := th]))
  {
  }

  lemma BecomeKeeps(s: Sys, tid: nat, th: Thread)
    requires LocksOk(s) && tid < |s.threads|
    requires forall c, l :: 0 <= c < |s.locks| && 0 <= l < |s.locks[c]| ==>
               (Holds(th, c, l) <==> Holds(s.threads[tid], c, l))
    ensures LocksOk(s.(threads := s.threads[tid := th]))
  {
  }

  // ---------- other threads are not disturbed ----------

  /** A step of `tid` that keeps the hashpower and the containers, only ever migrates more locks, and
      changes migrated buckets only under locks that `tid` holds. */
  ghost predicate TouchesOwn(cfg: Config, s: Sys, s': Sys, tid: nat)
    requires tid < |s.threads| && s.locks != []
  {
    && s'.t.hp == s.t.hp && |s'.t.mig| == |s.t.mig| && |s'.t.cur| == |s.t.cur|
    && |s'.locks| == |s.locks| && s'.front == s.front
    && (forall c :: 0 <= c < |s.locks| ==> |s'.locks[c]| == |s.locks[c]|)
    && (forall l :: 0 <= l < |s.t.mig| && s.t.mig[l] ==> s'.t.mig[l])
    && (forall b ::
          0 <= b < |s.t.cur| && !T.Pending(cfg, s.t, b) && !Holds(s.threads[tid], |s.locks| - 1, cfg.lock(b)) ==>
          s'.t.cur[b] == s.t.cur[b])
  }

  lemma OtherThreadOk(cfg: Config, s: Sys, s': Sys, tid: nat, i: nat)
    requires Inv(cfg, s) && tid < |s.threads| && i < |s.threads| && i != tid
    requires s.locks != [] && TouchesOwn(cfg, s, s', tid)
    ensures ThreadOk(cfg, s', s.threads[i])
  {
    var th := s.threads[i];
    if th.Settle? && Current(s, th.hp, th.c) {
      SettleLock(cfg, s, th);
      NotBoth(s, i, tid, th.c, cfg.lock(th.b));
      SettledStays(cfg, s, s', th);
    }
    Undisturbed(cfg, s, s', tid, th);
  }

  lemma SettleLock(cfg: Config, s: Sys, th: Thread)
    requires Laws(cfg) && th.Settle? && ThreadOk(cfg, s, th)
    ensures th.c < |s.locks| && cfg.lock(th.b) < |s.locks[th.c]| && Holds(th, th.c, cfg.lock(th.b))
  {
    NeedInRange(cfg, th.op, th.hp, Direct);
    assert cfg.lock(th.b) in th.need;
  }

  lemma NotBoth(s: Sys, i: nat, j: nat, c: nat, l: nat)
    requires LocksOk(s) && i < |s.threads| && j < |s.threads| && i != j && c < |s.locks| && l < |s.locks[c]|
    requires Holds(s.threads[i], c, l)
    ensures !Holds(s.threads[j], c, l)
  {
    assert s.locks[c][l] == By(i);
  }

  lemma SettledStays(cfg: Config, s: Sys, s': Sys, th: Thread)
    requires th.Settle? && ThreadOk(cfg, s, th) && Current(s, th.hp, th.c) && s.locks != []
    requires T.Shape(cfg, s.t) && th.b < |s'.t.cur|
    requires !T.Pending(cfg, s.t, th.b) ==> s'.t.cur[th.b] == s.t.cur[th.b]
    ensures th.b < |s.t.cur| && s'.t.cur[th.b] == s.t.cur[th.b]
  {
    assert cfg.lock(th.b) in th.need;
  }

  lemma Undisturbed(cfg: Config, s: Sys, s': Sys, tid: nat, th: Thread)
    requires tid < |s.threads| && s.locks != [] && TouchesOwn(cfg, s, s', tid) && ThreadOk(cfg, s, th)
    requires th.Settle? && Current(s, th.hp, th.c) ==> th.b < |s.t.cur| && s'.t.cur[th.b] == s.t.cur[th.b]
    ensures ThreadOk(cfg, s', th)
  {
  }

  lemma OthersOk(cfg: Config, s: Sys, s': Sys, tid: nat, th: Thread)
    requires Inv(cfg, s) && tid < |s.threads|
    requires TouchesOwn(cfg, s, s', tid)
    requires s'.threads == s.threads[tid := th] && ThreadOk(cfg, s', th)
    ensures forall i :: 0 <= i < |s'.threads| ==> ThreadOk(cfg, s', s'.threads[i])
  {
    forall i | 0 <= i < |s'.threads| ensures ThreadOk(cfg, s', s'.threads[i]) {
      if i != tid {
        OtherThreadOk(cfg, s, s', tid, i);
      }
    }
  }

  lemma {:induction false} Compose(cfg: Config, s: Sys, s': Sys, tid: nat, th: Thread)
    requires Inv(cfg, s) && tid < |s.threads| && TouchesOwn(cfg, s, s', tid)
    requires s'.threads == s.threads[tid := th] && ThreadOk(cfg, s', th)
    requires !th.Doubling? && !s.threads[tid].Doubling?
    requires T.Inv(cfg, s'.t) && LocksOk(s')
    requires Legal(s'.log) && Replay(s'.log) == T.Abs(cfg, s'.t)
    ensures Inv(cfg, s')
  {
    OthersOk(cfg, s, s', tid, th);
    ShownStays(s, s', tid, th);
  }

  lemma ShownStays(s: Sys, s': Sys, tid: nat, th: Thread)
    requires Shown(s) && s'.front == s.front && s'.t.hp == s.t.hp && tid < |s.threads|
    requires s'.threads == s.threads[tid := th] && !th.Doubling? && !s.threads[tid].Doubling?
    ensures Shown(s')
  {
    if NoDoubling(s'.threads) {
      forall i | 0 <= i < |s.threads| ensures !s.threads[i].Doubling? {
        assert i == tid || s'.threads[i] == s.threads[i];
      }
    }
  }

  lemma SameThread(cfg: Config, s: Sys, s': Sys, th: Thread)
    requires ThreadOk(cfg, s, th) && s'.t == s.t && s'.front == s.front
    requires |s'.locks| == |s.locks| && forall c :: 0 <= c < |s.locks| ==> |s'.locks[c]| == |s.locks[c]|
    ensures ThreadOk(cfg, s', th)
  {
  }

  /** The invariant is about everything but the fault. */
  lemma FaultInv(cfg: Config, s: Sys)
    requires Inv(cfg, s)
    ensures Inv(cfg, s.(fault := true))
  {
    var s' := s.(fault := true);
    forall i | 0 <= i < |s'.threads| ensures ThreadOk(cfg, s', s'.threads[i]) {
      SameThread(cfg, s, s', s.threads[i]);
    }
  }

  lemma BecomeInv(cfg: Config, s: Sys, tid: nat, th: Thread)
    requires Inv(cfg, s) && tid < |s.threads| && ThreadOk(cfg, s, th)
    requires !th.Doubling? && !s.threads[tid].Doubling?
    requires forall c, l :: 0 <= c < |s.locks| && 0 <= l < |s.locks[c]| ==>
               (Holds(th, c, l) <==> Holds(s.threads[tid], c, l))
    ensures Inv(cfg, Become(s, tid, th))
  {
    BecomeKeeps(s, tid, th);
    Compose(cfg, s, Become(s, tid, th), tid, th);
  }

  lemma TakeInv(cfg: Config, s: Sys, tid: nat, c: nat, l: nat, th: Thread)
    requires Inv(cfg, s) && tid < |s.threads| && c < |s.locks| && l < |s.locks[c]| && ThreadOk(cfg, s, th)
    requires !th.Doubling? && !s.threads[tid].Doubling?
    requires forall c', l' :: 0 <= c' < |s.locks| && 0 <= l' < |s.locks[c']| ==>
               (Holds(th, c', l') <==> Holds(s.threads[tid], c', l') || (c' == c && l' == l))
    ensures Inv(cfg, TakeStep(s, tid, c, l, th))
  {
    if s.locks[c][l] == Free {
      TakeKeeps(s, tid, th, c, l);
      Compose(cfg, s, TakeStep(s, tid, c, l, th), tid, th);
    }
  }

  ghost predicate HoldsNothing(th: Thread) {
    th.Idle? || th.Snapshot? || th.Fetch? || th.Hunt?
  }

  /** A thread that holds nothing relies on the hashpower only. */
  lemma FreeThread(cfg: Config, s: Sys, s': Sys, th: Thread)
    requires HoldsNothing(th) && ThreadOk(cfg, s, th) && s'.t.hp >= s.t.hp
    ensures ThreadOk(cfg, s', th)
  {
  }

  lemma {:induction false} LeaveInv(cfg: Config, s: Sys, tid: nat, th: Thread)
    requires Inv(cfg, s) && tid < |s.threads| && HoldsNothing(th) && ThreadOk(cfg, s, th)
    requires !s.threads[tid].Doubling?
    ensures Inv(cfg, Leave(s, tid, th))
  {
    var s' := Leave(s, tid, th);
    ReleaseKeeps(s, tid, th, 0, []);
    FreeThread(cfg, s, s', th);
    Compose(cfg, s, s', tid, th);
  }

  /** A critical section that changes the table under its own locks and then lets them go. */
  lemma {:induction false} FinishInv(cfg: Config, s: Sys, tid: nat, t': T.Table, op: Op, res: Res)
    requires Inv(cfg, s) && tid < |s.threads| && !s.threads[tid].Doubling? && T.Inv(cfg, t')
    requires TouchesOwn(cfg, s, s.(t := t'), tid)
    requires Right(T.Abs(cfg, s.t), op, res) && T.Abs(cfg, t') == After(T.Abs(cfg, s.t), op, res)
    ensures Inv(cfg, Finish(s, tid, t', op, res))
  {
    var s' := Finish(s, tid, t', op, res);
    ReleaseKeeps(s, tid, Idle, 0, []);
    LogGrows(s.log, Event(tid, op, res));
    ReleaseTouchesOwn(cfg, s, s', tid, t', 0, []);
    Compose(cfg, s, s', tid, Idle);
  }

  // ---------- each kind of step keeps the invariant ----------

  lemma AcquireInv(cfg: Config, s: Sys, tid: nat)
    requires Inv(cfg, s) && tid < |s.threads| && s.threads[tid].Acquire?
    ensures Inv(cfg, AcquireStep(s, tid, s.threads[tid]))
  {
    var th := s.threads[tid];
    NeedInRange(cfg, th.op, th.hp, th.goal);
    assert th.need[th.got] in th.need;
    TakeInv(cfg, s, tid, th.c, th.need[th.got], WithOneMore(th));
  }

  lemma VerifyInv(cfg: Config, s: Sys, tid: nat)
    requires Inv(cfg, s) && tid < |s.threads| && s.threads[tid].Verify?
    ensures Inv(cfg, VerifyStep(s, tid, s.threads[tid]))
  {
    var Verify(op, hp, goal, c, need) := s.threads[tid];
    if s.front.shown != hp {
      LeaveInv(cfg, s, tid, Snapshot(op));
    } else if |need| == 1 {
      BecomeInv(cfg, s, tid, Migrate(op, hp, goal, c, need, 0));
    } else {
      assert need[..1] == [need[0]];
      BecomeInv(cfg, s, tid, Acquire(op, hp, goal, c, need, 1));
    }
  }

  lemma MigrateInv(cfg: Config, s: Sys, tid: nat)
    requires Inv(cfg, s) && tid < |s.threads| && s.threads[tid].Migrate?
    ensures Inv(cfg, MigrateStep(cfg, s, tid, s.threads[tid]))
  {
    var th := s.threads[tid];
    if th.m >= |th.need| {
      MigrateAllInv(cfg, s, tid);
      assert Same(MigrateStep(cfg, s, tid, th), Become(s, tid, Work(th.op, th.hp, th.goal, th.c, th.need)));
    } else {
      NeedOfTable(cfg, s, th);
      MigrateNext(cfg, s, tid);
    }
  }

  lemma MigrateNext(cfg: Config, s: Sys, tid: nat)
    requires Inv(cfg, s) && tid < |s.threads| && s.threads[tid].Migrate? && s.threads[tid].m < |s.threads[tid].need|
    ensures Inv(cfg, MigrateStep(cfg, s, tid, s.threads[tid]))
  {
    MigrateOne(cfg, s, tid);
    FaultInv(cfg, s);
    MigrateShape(cfg, s, tid, s.threads[tid]);
  }

  lemma MigrateShape(cfg: Config, s: Sys, tid: nat, th: Thread)
    requires T.Shape(cfg, s.t) && tid < |s.threads| && th.Migrate? && th.m < |th.need|
    requires var l := th.need[th.m]; l < |s.t.mig| && (!s.t.mig[l] ==> s.t.rem > 0)
    ensures Same(MigrateStep(cfg, s, tid, th), s.(fault := true))
            || Same(MigrateStep(cfg, s, tid, th),
                 Become(s.(t := T.Rehash(cfg, s.t, th.need[th.m])), tid, MigratedOne(th)))
  {
  }

  lemma NeedOfTable(cfg: Config, s: Sys, th: Thread)
    requires Inv(cfg, s) && ThreadOk(cfg, s, th) && th.Migrate? && th.m < |th.need|
    ensures th.need[th.m] < |s.t.mig|
  {
    NeedInRange(cfg, th.op, th.hp, th.goal);
    NumLocksMonotone(cfg, th.hp, s.t.hp);
    assert th.need[th.m] in th.need;
  }

  lemma MigrateAllInv(cfg: Config, s: Sys, tid: nat)
    requires Inv(cfg, s) && tid < |s.threads| && s.threads[tid].Migrate? && s.threads[tid].m >= |s.threads[tid].need|
    ensures var th := s.threads[tid]; Inv(cfg, Become(s, tid, Work(th.op, th.hp, th.goal, th.c, th.need)))
  {
    var th := s.threads[tid];
    BecomeInv(cfg, s, tid, Work(th.op, th.hp, th.goal, th.c, th.need));
  }

  ghost function MigratedOne(th: Thread): (th': Thread)
    requires th.Migrate?
  {
    Migrate(th.op, th.hp, th.goal, th.c, th.need, th.m + 1)
  }

  lemma MigrateOne(cfg: Config, s: Sys, tid: nat)
    requires Inv(cfg, s) && tid < |s.threads| && s.threads[tid].Migrate? && s.threads[tid].m < |s.threads[tid].need|
    ensures var l := s.threads[tid].need[s.threads[tid].m]; l < |s.t.mig| && (!s.t.mig[l] ==> s.t.rem > 0)
    ensures var th := s.threads[tid];
            Inv(cfg, Become(s.(t := T.Rehash(cfg, s.t, th.need[th.m])), tid, MigratedOne(th)))
  {
    var th := s.threads[tid];
    var l, th' := th.need[th.m], MigratedOne(th);
    NeedOfTable(cfg, s, th);
    T.RehashKeeps(cfg, s.t, l);
    BecomeKeeps(s, tid, th');
    RehashTouchesOwn(cfg, s, tid, l);
    Rehashed(cfg, s, tid, T.Rehash(cfg, s.t, l));
  }

  lemma Rehashed(cfg: Config, s: Sys, tid: nat, t': T.Table)
    requires Inv(cfg, s) && tid < |s.threads| && s.threads[tid].Migrate? && s.threads[tid].m < |s.threads[tid].need|
    requires T.Inv(cfg, t') && Same(T.Abs(cfg, t'), T.Abs(cfg, s.t)) && TouchesOwn(cfg, s, s.(t := t'), tid)
    requires var l := s.threads[tid].need[s.threads[tid].m]; l < |t'.mig| && t'.mig[l]
    requires LocksMatch(s.locks, s.threads[tid := MigratedOne(s.threads[tid])])
    ensures Inv(cfg, Become(s.(t := t'), tid, MigratedOne(s.threads[tid])))
  {
    var th := s.threads[tid];
    var s' := Become(s.(t := t'), tid, MigratedOne(th));
    BecomeTouchesOwn(cfg, s, tid, t', MigratedOne(th));
    if Current(s, th.hp, th.c) {
      MigratedMore(s.t, t', th.need, th.m);
    }
    Compose(cfg, s, s', tid, MigratedOne(th));
  }

  lemma BecomeTouchesOwn(cfg: Config, s: Sys, tid: nat, t': T.Table, th: Thread)
    requires tid < |s.threads| && s.locks != [] && TouchesOwn(cfg, s, s.(t := t'), tid)
    ensures TouchesOwn(cfg, s, Become(s.(t := t'), tid, th), tid)
  {
  }

  lemma MigratedMore(t: T.Table, t': T.Table, need: seq<nat>, m: nat)
    requires MigratedAll(t, need, m) && |t'.mig| == |t.mig| && m < |need| && need[m] < |t'.mig| && t'.mig[need[m]]
    requires forall l :: 0 <= l < |t.mig| && t.mig[l] ==> t'.mig[l]
    ensures MigratedAll(t', need, m + 1)
  {
  }

  lemma RehashTouchesOwn(cfg: Config, s: Sys, tid: nat, l: nat)
    requires T.Inv(cfg, s.t) && tid < |s.threads| && s.locks != [] && l < |s.t.mig| && (!s.t.mig[l] ==> s.t.rem > 0)
    ensures TouchesOwn(cfg, s, s.(t := T.Rehash(cfg, s.t, l)), tid)
  {
    if !s.t.mig[l] {
      T.RehashIsLocal(cfg, s.t, l);
    }
  }

  // ---------- the work done inside a critical section ----------

  /** The thread's locks protect the buckets it works on. */
  ghost predicate InCharge(s: Sys, th: Thread) {
    (th.Work? || th.Settle?) && !Astray(s, th.hp, th.c)
  }

  ghost function GoalOf(th: Thread): (g: Goal)
    requires th.Work? || th.Settle?
  {
    if th.Work? then th.goal else Direct
  }

  /** What a thread in charge relies on. */
  ghost predicate Owning(cfg: Config, s: Sys, th: Thread)
    requires th.Work? || th.Settle?
  {
    true == (
      && T.Inv(cfg, s.t) && th.hp == s.t.hp && th.c + 1 == |s.locks|
      && GoalOk(cfg, th.op, th.hp, GoalOf(th)) && th.need == Need(cfg, th.op, th.hp, GoalOf(th))
      && MigratedAll(s.t, th.need, |th.need|)
    )
  }

  lemma Owns(cfg: Config, s: Sys, tid: nat)
    requires Inv(cfg, s) && tid < |s.threads| && InCharge(s, s.threads[tid])
    ensures Owning(cfg, s, s.threads[tid])
  {
    assert ThreadOk(cfg, s, s.threads[tid]);
  }

  /** Writing to a bucket whose lock the thread holds disturbs nobody. */
  lemma WriteTouchesOwn(cfg: Config, s: Sys, tid: nat, t': T.Table, b: nat, bkt: Bucket)
    requires tid < |s.threads| && s.locks != [] && b < |s.t.cur|
    requires Holds(s.threads[tid], |s.locks| - 1, cfg.lock(b))
    requires t'.hp == s.t.hp && t'.mig == s.t.mig && t'.cur == s.t.cur[b := bkt]
    ensures TouchesOwn(cfg, s, s.(t := t'), tid)
  {
  }

  /** The thread holds the locks of both buckets of its key, and both are migrated. */
  lemma OwnBucket(cfg: Config, s: Sys, th: Thread, b: nat)
    requires (th.Work? && th.goal.Direct?) || th.Settle?
    requires Owning(cfg, s, th) && Placed(cfg, s.t.hp, th.op.k, b)
    ensures b < |s.t.cur| && !T.Pending(cfg, s.t, b)
    ensures Holds(th, |s.locks| - 1, cfg.lock(b))
  {
    assert InRange(cfg, th.hp, th.op.k);
    assert cfg.lock(b) in th.need;
  }

  lemma OwnLookup(cfg: Config, s: Sys, tid: nat)
    requires Inv(cfg, s) && tid < |s.threads|
    requires InCharge(s, s.threads[tid])
    requires var th := s.threads[tid]; (th.Work? && th.goal.Direct?) || th.Settle?
    ensures LookupOk(cfg, s, s.threads[tid], T.Lookup(cfg, s.t, s.threads[tid].op.k))
  {
    Owns(cfg, s, tid);
    LookedUp(cfg, s, s.threads[tid]);
  }

  /** The place is where the key is, if it is anywhere, and its lock is held. */
  ghost predicate LookupOk(cfg: Config, s: Sys, th: Thread, p: T.Place)
    requires (th.Work? || th.Settle?) && !th.op.Clear? && s.locks != [] && T.Shape(cfg, s.t)
  {
    var k := th.op.k;
    && (p.At? <==> k in T.Abs(cfg, s.t))
    && (p.At? ==> p.b < |s.t.cur| && p.s < cfg.slots && s.t.cur[p.b][p.s].Full?
                  && s.t.cur[p.b][p.s].e.key == k && T.Abs(cfg, s.t)[k] == s.t.cur[p.b][p.s].e.val
                  && Holds(th, |s.locks| - 1, cfg.lock(p.b)))
  }

  lemma LookedUp(cfg: Config, s: Sys, th: Thread)
    requires (th.Work? && th.goal.Direct?) || th.Settle?
    requires Owning(cfg, s, th)
    ensures LookupOk(cfg, s, th, T.Lookup(cfg, s.t, th.op.k))
  {
    var k := th.op.k;
    OwnBucket(cfg, s, th, Home(cfg, s.t.hp, k));
    OwnBucket(cfg, s, th, Other(cfg, s.t.hp, k));
    T.LookupCorrect(cfg, s.t, k);
  }

  lemma UpdateInv(cfg: Config, s: Sys, tid: nat)
    requires Inv(cfg, s) && tid < |s.threads| && s.threads[tid].Work? && s.threads[tid].goal.Direct?
             && s.threads[tid].op.Update?
    requires InCharge(s, s.threads[tid])
    ensures Inv(cfg, DirectStep(cfg, s, tid, s.threads[tid]))
  {
    var th, p := s.threads[tid], T.Lookup(cfg, s.t, s.threads[tid].op.k);
    OwnLookup(cfg, s, tid);
    if p.At? {
      T.SetValKeeps(cfg, s.t, p.b, p.s, th.op.v);
      var t' := T.SetVal(s.t, p.b, p.s, th.op.v);
      WriteTouchesOwn(cfg, s, tid, t', p.b, t'.cur[p.b]);
      FinishInv(cfg, s, tid, t', th.op, Done(true));
    } else {
      FinishInv(cfg, s, tid, s.t, th.op, Done(false));
    }
  }

  lemma NothingRemoved(m: map<Key, Val>, k: Key)
    requires k !in m
    ensures m - {k} == m
  {
  }

  lemma EraseInv(cfg: Config, s: Sys, tid: nat)
    requires Inv(cfg, s) && tid < |s.threads| && s.threads[tid].Work? && s.threads[tid].goal.Direct?
             && s.threads[tid].op.Erase?
    requires InCharge(s, s.threads[tid])
    ensures Inv(cfg, DirectStep(cfg, s, tid, s.threads[tid]))
  {
    var th, p := s.threads[tid], T.Lookup(cfg, s.t, s.threads[tid].op.k);
    OwnLookup(cfg, s, tid);
    if p.At? {
      ErasedInv(cfg, s, tid, p.b, p.s);
    } else {
      NothingRemoved(T.Abs(cfg, s.t), th.op.k);
      FinishInv(cfg, s, tid, s.t, th.op, Done(false));
    }
    EraseShape(cfg, s, tid, th);
  }

  lemma EraseShape(cfg: Config, s: Sys, tid: nat, th: Thread)
    requires T.Shape(cfg, s.t) && tid < |s.threads| && th.Work? && th.op.Erase?
    ensures var p := T.Lookup(cfg, s.t, th.op.k);
            if p.At? then
              cfg.lock(p.b) < |s.t.cnt| ==>
                Same(DirectStep(cfg, s, tid, th), Finish(s, tid, T.Del(cfg, s.t, p.b, p.s), th.op, Done(true)))
            else Same(DirectStep(cfg, s, tid, th), Finish(s, tid, s.t, th.op, Done(false)))
  {
  }

  lemma ErasedInv(cfg: Config, s: Sys, tid: nat, b: nat, x: nat)
    requires Inv(cfg, s) && tid < |s.threads| && s.threads[tid].Work? && s.threads[tid].op.Erase?
    requires b < |s.t.cur| && x < cfg.slots && s.t.cur[b][x].Full? && s.t.cur[b][x].e.key == s.threads[tid].op.k
    requires s.threads[tid].op.k in T.Abs(cfg, s.t) && Holds(s.threads[tid], |s.locks| - 1, cfg.lock(b))
    ensures cfg.lock(b) < |s.t.cnt|
    ensures Inv(cfg, Finish(s, tid, T.Del(cfg, s.t, b, x), s.threads[tid].op, Done(true)))
  {
    T.DelKeeps(cfg, s.t, b, x);
    var t' := T.Del(cfg, s.t, b, x);
    WriteTouchesOwn(cfg, s, tid, t', b, t'.cur[b]);
    FinishInv(cfg, s, tid, t', s.threads[tid].op, Done(true));
  }

  lemma PresentInv(cfg: Config, s: Sys, tid: nat)
    requires Inv(cfg, s) && tid < |s.threads| && s.threads[tid].Work? && s.threads[tid].goal.Direct?
             && s.threads[tid].op.Insert? && T.Lookup(cfg, s.t, s.threads[tid].op.k).At?
    requires InCharge(s, s.threads[tid])
    ensures Inv(cfg, DirectStep(cfg, s, tid, s.threads[tid]))
  {
    var th := s.threads[tid];
    OwnLookup(cfg, s, tid);
    assert Same(DirectStep(cfg, s, tid, th), Finish(s, tid, s.t, th.op, Done(false)));
    FinishInv(cfg, s, tid, s.t, th.op, Done(false));
  }

  lemma InsertInv(cfg: Config, s: Sys, tid: nat)
    requires Inv(cfg, s) && tid < |s.threads| && s.threads[tid].Work? && s.threads[tid].goal.Direct?
             && s.threads[tid].op.Insert?
    requires InCharge(s, s.threads[tid])
    ensures Inv(cfg, DirectStep(cfg, s, tid, s.threads[tid]))
  {
    var th, p := s.threads[tid], T.Lookup(cfg, s.t, s.threads[tid].op.k);
    OwnLookup(cfg, s, tid);
    var q := Vacancy(cfg, s.t, th.op.k);
    if p.At? {
      PresentInv(cfg, s, tid);
    } else if q.At? {
      StoreInv(cfg, s, tid, q.b, q.s);
    } else {
      assert Same(DirectStep(cfg, s, tid, th), Leave(s, tid, Hunt(th.op, th.hp)));
      LeaveInv(cfg, s, tid, Hunt(th.op, th.hp));
    }
  }

  lemma DirectInv(cfg: Config, s: Sys, tid: nat)
    requires Inv(cfg, s) && tid < |s.threads| && s.threads[tid].Work? && s.threads[tid].goal.Direct?
    requires InCharge(s, s.threads[tid])
    ensures Inv(cfg, DirectStep(cfg, s, tid, s.threads[tid]))
  {
    var th := s.threads[tid];
    match th.op {
      case Find(k) =>
        OwnLookup(cfg, s, tid);
        var p := T.Lookup(cfg, s.t, k);
        FinishInv(cfg, s, tid, s.t, th.op, if p.At? then Found(s.t.cur[p.b][p.s].e.val) else Missing);
      case Update(_, _) => UpdateInv(cfg, s, tid);
      case Erase(_) => EraseInv(cfg, s, tid);
      case Insert(_, _) => InsertInv(cfg, s, tid);
    }
  }

  /** Storing a new key in a vacant slot of one of its buckets. */
  lemma StoreInv(cfg: Config, s: Sys, tid: nat, b: nat, x: nat)
    requires Inv(cfg, s) && tid < |s.threads|
    requires InCharge(s, s.threads[tid])
    requires var th := s.threads[tid]; ((th.Work? && th.goal.Direct?) || th.Settle?) && th.op.Insert?
    requires b < |s.t.cur| && x < cfg.slots && s.t.cur[b][x] == Vacant
    requires Placed(cfg, s.t.hp, s.threads[tid].op.k, b) && s.threads[tid].op.k !in T.Abs(cfg, s.t)
    ensures cfg.lock(b) < |s.t.cnt|
    ensures var th := s.threads[tid];
            Inv(cfg, Finish(s, tid, T.Add(cfg, s.t, b, x, Entry(Tag(cfg, th.op.k), th.op.k, th.op.v)), th.op,
              Done(true)))
  {
    var th := s.threads[tid];
    var e := Entry(Tag(cfg, th.op.k), th.op.k, th.op.v);
    Owns(cfg, s, tid);
    OwnBucket(cfg, s, th, b);
    T.AddKeeps(cfg, s.t, b, x, e);
    var t' := T.Add(cfg, s.t, b, x, e);
    WriteTouchesOwn(cfg, s, tid, t', b, t'.cur[b]);
    FinishInv(cfg, s, tid, t', th.op, Done(true));
  }

  lemma SettleInv(cfg: Config, s: Sys, tid: nat)
    requires Inv(cfg, s) && tid < |s.threads| && s.threads[tid].Settle?
    requires InCharge(s, s.threads[tid])
    ensures Inv(cfg, SettleStep(cfg, s, tid, s.threads[tid]))
  {
    var th := s.threads[tid];
    OwnLookup(cfg, s, tid);
    if T.Lookup(cfg, s.t, th.op.k).At? {
      assert Same(SettleStep(cfg, s, tid, th), Finish(s, tid, s.t, th.op, Done(false)));
      FinishInv(cfg, s, tid, s.t, th.op, Done(false));
    } else {
      StoreInv(cfg, s, tid, th.b, th.s);
      SettleShape(cfg, s, tid, th);
    }
  }

  lemma SettleShape(cfg: Config, s: Sys, tid: nat, th: Thread)
    requires T.Shape(cfg, s.t) && tid < |s.threads| && th.Settle? && th.op.Insert?
    requires th.b < |s.t.cur| && th.s < |s.t.cur[th.b]| && cfg.lock(th.b) < |s.t.cnt|
    requires T.Lookup(cfg, s.t, th.op.k) == T.Nowhere
    ensures Same(SettleStep(cfg, s, tid, th),
              Finish(s, tid, T.Add(cfg, s.t, th.b, th.s, Entry(Tag(cfg, th.op.k), th.op.k, th.op.v)), th.op,
                Done(true)))
  {
  }

  lemma ReadInv(cfg: Config, s: Sys, tid: nat)
    requires Inv(cfg, s) && tid < |s.threads| && s.threads[tid].Work? && s.threads[tid].goal.Read?
    requires InCharge(s, s.threads[tid])
    ensures Inv(cfg, ReadStep(cfg, s, tid, s.threads[tid]))
  {
    var th := s.threads[tid];
    Owns(cfg, s, tid);
    var g := ReadNext(cfg, s, tid, th);
    LeaveInv(cfg, s, tid, Fetch(th.op, th.hp, g));
  }

  lemma ReadNext(cfg: Config, s: Sys, tid: nat, th: Thread) returns (g: Goal)
    requires tid < |s.threads| && th.Work? && th.goal.Read? && Owning(cfg, s, th)
    ensures Same(ReadStep(cfg, s, tid, th), Leave(s, tid, Fetch(th.op, th.hp, g)))
    ensures ThreadOk(cfg, s, Fetch(th.op, th.hp, g))
  {
    var Read(slots, path, b) := th.goal;
    var x := s.t.cur[b][slots[|path|]];
    g := ReadGoal(cfg, th.hp, th.goal, x);
    ReadGoalOk(cfg, th.op, th.hp, th.goal, x);
  }

  lemma ReadGoalOk(cfg: Config, op: Op, hp: nat, g: Goal, x: Slot)
    requires Laws(cfg) && g.Read? && GoalOk(cfg, op, hp, g)
    ensures GoalOk(cfg, op, hp, ReadGoal(cfg, hp, g, x))
  {
    var Read(slots, path, b) := g;
    var h: U64 := if x == Vacant then 0 else cfg.hash(x.e.key);
    PathGrows(cfg, op, hp, path, Rec(b, slots[|path|], h));
    assert AltInRange(cfg, hp, cfg.partial(h), b);
  }

  lemma PathGrows(cfg: Config, op: Op, hp: nat, path: seq<Rec>, r: Rec)
    requires PathOk(cfg, op, hp, path) && NextOk(cfg, op, hp, path, r.bucket) && r.slot < cfg.slots
    ensures PathOk(cfg, op, hp, path + [r])
  {
  }

  /** A validated move is a legal displacement, however stale the path was. */
  lemma StillGoodDisplaces(cfg: Config, s: Sys, tid: nat)
    requires Inv(cfg, s) && tid < |s.threads| && s.threads[tid].Work? && s.threads[tid].goal.Shift?
    requires InCharge(s, s.threads[tid])
    requires var g := s.threads[tid].goal; g.depth >= 1 && StillGood(cfg, s.t, g.path[g.depth - 1], g.path[g.depth])
    ensures var from, to := s.threads[tid].goal.path[s.threads[tid].goal.depth - 1],
            s.threads[tid].goal.path[s.threads[tid].goal.depth];
            && T.CanDisplace(cfg, s.t, from.bucket, from.slot, to.bucket, to.slot)
            && Holds(s.threads[tid], |s.locks| - 1, cfg.lock(from.bucket))
            && Holds(s.threads[tid], |s.locks| - 1, cfg.lock(to.bucket))
  {
    Owns(cfg, s, tid);
    DisplacesOwn(cfg, s, s.threads[tid]);
  }

  lemma DisplacesOwn(cfg: Config, s: Sys, th: Thread)
    requires th.Work? && th.goal.Shift? && Owning(cfg, s, th)
    requires var g := th.goal; 1 <= g.depth < |g.path| && StillGood(cfg, s.t, g.path[g.depth - 1], g.path[g.depth])
    ensures var from, to := th.goal.path[th.goal.depth - 1], th.goal.path[th.goal.depth];
            && T.CanDisplace(cfg, s.t, from.bucket, from.slot, to.bucket, to.slot)
            && Holds(th, |s.locks| - 1, cfg.lock(from.bucket)) && Holds(th, |s.locks| - 1, cfg.lock(to.bucket))
  {
    var Shift(path, d) := th.goal;
    assert cfg.lock(path[d].bucket) in th.need;
    if d == 1 {
      assert Placed(cfg, th.hp, th.op.k, path[0].bucket);
    }
    assert cfg.lock(path[d - 1].bucket) in th.need;
  }

  lemma DisplaceTouchesOwn(cfg: Config, s: Sys, tid: nat, b: nat, x: nat, b': nat, x': nat)
    requires tid < |s.threads| && s.locks != [] && b < |s.t.cur| && b' < |s.t.cur| && x < |s.t.cur[b]|
             && x' < |s.t.cur[b']|
    requires Holds(s.threads[tid], |s.locks| - 1, cfg.lock(b)) && Holds(s.threads[tid], |s.locks| - 1, cfg.lock(b'))
    ensures TouchesOwn(cfg, s, s.(t := T.Displace(s.t, b, x, b', x')), tid)
  {
  }

  lemma ShiftInv(cfg: Config, s: Sys, tid: nat)
    requires Inv(cfg, s) && tid < |s.threads| && s.threads[tid].Work? && s.threads[tid].goal.Shift?
    requires InCharge(s, s.threads[tid])
    ensures Inv(cfg, ShiftStep(cfg, s, tid, s.threads[tid]))
  {
    OnPath(cfg, s, tid);
    if s.threads[tid].goal.depth == 0 {
      ShiftedInv(cfg, s, tid);
    } else {
      MoveInv(cfg, s, tid);
    }
  }

  lemma {:induction false} MoveInv(cfg: Config, s: Sys, tid: nat)
    requires Inv(cfg, s) && tid < |s.threads| && s.threads[tid].Work? && s.threads[tid].goal.Shift?
    requires InCharge(s, s.threads[tid]) && 1 <= s.threads[tid].goal.depth < |s.threads[tid].goal.path|
    requires s.threads[tid].op.Insert?
    ensures Inv(cfg, ShiftStep(cfg, s, tid, s.threads[tid]))
  {
    var th := s.threads[tid];
    var good := GoodOrStale(cfg, s, tid, th);
    if good {
      GoodInv(cfg, s, tid);
    } else {
      HuntAgain(cfg, s, tid);
    }
  }

  lemma HuntAgain(cfg: Config, s: Sys, tid: nat)
    requires Inv(cfg, s) && tid < |s.threads| && s.threads[tid].Work? && s.threads[tid].op.Insert?
    ensures Inv(cfg, Leave(s, tid, Hunt(s.threads[tid].op, s.threads[tid].hp)))
  {
    assert ThreadOk(cfg, s, s.threads[tid]);
    LeaveInv(cfg, s, tid, Hunt(s.threads[tid].op, s.threads[tid].hp));
  }

  lemma {:induction false} GoodInv(cfg: Config, s: Sys, tid: nat)
    requires Inv(cfg, s) && tid < |s.threads| && s.threads[tid].Work? && s.threads[tid].goal.Shift?
    requires InCharge(s, s.threads[tid]) && s.threads[tid].op.Insert?
    requires var g := s.threads[tid].goal;
             1 <= g.depth < |g.path| && StillGood(cfg, s.t, g.path[g.depth - 1], g.path[g.depth])
    ensures Inv(cfg, ShiftStep(cfg, s, tid, s.threads[tid]))
  {
    if s.threads[tid].goal.depth == 1 {
      LastMoveInv(cfg, s, tid);
    } else {
      EarlyMoveInv(cfg, s, tid);
    }
  }

  lemma OnPath(cfg: Config, s: Sys, tid: nat)
    requires Inv(cfg, s) && tid < |s.threads| && s.threads[tid].Work? && s.threads[tid].goal.Shift?
    ensures s.threads[tid].goal.depth < |s.threads[tid].goal.path| && s.threads[tid].op.Insert?
  {
    assert ThreadOk(cfg, s, s.threads[tid]);
  }

  /** A path that has gone stale is given up. */
  lemma GoodOrStale(cfg: Config, s: Sys, tid: nat, th: Thread) returns (good: bool)
    requires tid < |s.threads| && th.Work? && th.goal.Shift? && !th.op.Clear? && 1 <= th.goal.depth < |th.goal.path|
    ensures good ==> StillGood(cfg, s.t, th.goal.path[th.goal.depth - 1], th.goal.path[th.goal.depth])
    ensures !good ==> Same(ShiftStep(cfg, s, tid, th), Leave(s, tid, Hunt(th.op, th.hp)))
  {
    good := StillGood(cfg, s.t, th.goal.path[th.goal.depth - 1], th.goal.path[th.goal.depth]);
  }

  /** An empty path: the slot is still vacant, or the search begins again. */
  lemma ShiftedInv(cfg: Config, s: Sys, tid: nat)
    requires Inv(cfg, s) && tid < |s.threads| && s.threads[tid].Work? && s.threads[tid].goal.Shift?
    requires InCharge(s, s.threads[tid]) && s.threads[tid].goal.depth == 0
    ensures Inv(cfg, ShiftStep(cfg, s, tid, s.threads[tid]))
  {
    var th := s.threads[tid];
    Owns(cfg, s, tid);
    ShiftedThread(cfg, s, tid, th);
    if s.t.cur[th.goal.path[0].bucket][th.goal.path[0].slot] == Vacant {
      BecomeInv(cfg, s, tid, LastSettle(cfg, th));
    } else {
      LeaveInv(cfg, s, tid, Hunt(th.op, th.hp));
    }
  }

  lemma ShiftedThread(cfg: Config, s: Sys, tid: nat, th: Thread)
    requires tid < |s.threads| && th.Work? && th.goal.Shift? && th.goal.depth == 0
    requires ThreadOk(cfg, s, th) && Owning(cfg, s, th)
    ensures var r := th.goal.path[0]; r.bucket < |s.t.cur| && r.slot < |s.t.cur[r.bucket]|
    ensures var r := th.goal.path[0];
            if s.t.cur[r.bucket][r.slot] == Vacant
            then Same(ShiftStep(cfg, s, tid, th), Become(s, tid, LastSettle(cfg, th)))
                 && ThreadOk(cfg, s, LastSettle(cfg, th)) && LastSettle(cfg, th).need == th.need
            else Same(ShiftStep(cfg, s, tid, th), Leave(s, tid, Hunt(th.op, th.hp)))
  {
  }

  /** The move itself: the table keeps its invariant and its map, and only own buckets are written. */
  lemma MoveOwn(cfg: Config, s: Sys, tid: nat)
    requires tid < |s.threads| && s.threads[tid].Work? && s.threads[tid].goal.Shift?
    requires Owning(cfg, s, s.threads[tid])
    requires var g := s.threads[tid].goal;
             1 <= g.depth < |g.path| && StillGood(cfg, s.t, g.path[g.depth - 1], g.path[g.depth])
    ensures s.locks != [] && Moved(cfg, s, tid, MovedTable(s, s.threads[tid]))
  {
    var g := s.threads[tid].goal;
    var from, to := g.path[g.depth - 1], g.path[g.depth];
    DisplacesOwn(cfg, s, s.threads[tid]);
    T.DisplaceKeeps(cfg, s.t, from.bucket, from.slot, to.bucket, to.slot);
    DisplaceTouchesOwn(cfg, s, tid, from.bucket, from.slot, to.bucket, to.slot);
  }

  ghost function MovedTable(s: Sys, th: Thread): (t': T.Table)
    requires th.Work? && th.goal.Shift? && 1 <= th.goal.depth < |th.goal.path|
    requires var from, to := th.goal.path[th.goal.depth - 1], th.goal.path[th.goal.depth];
             && from.bucket < |s.t.cur| && from.slot < |s.t.cur[from.bucket]|
             && to.bucket < |s.t.cur| && to.slot < |s.t.cur[to.bucket]|
  {
    var from, to := th.goal.path[th.goal.depth - 1], th.goal.path[th.goal.depth];
    T.Displace(s.t, from.bucket, from.slot, to.bucket, to.slot)
  }

  ghost predicate Moved(cfg: Config, s: Sys, tid: nat, t': T.Table)
    requires tid < |s.threads| && s.locks != []
  {
    true == (
      T.Inv(cfg, t') && T.Shape(cfg, s.t) && Same(T.Abs(cfg, t'), T.Abs(cfg, s.t))
      && TouchesOwn(cfg, s, s.(t := t'), tid)
    )
  }

  lemma EarlyMoveInv(cfg: Config, s: Sys, tid: nat)
    requires Inv(cfg, s) && tid < |s.threads| && s.threads[tid].Work? && s.threads[tid].goal.Shift?
    requires InCharge(s, s.threads[tid])
    requires var g := s.threads[tid].goal; g.depth >= 2 && StillGood(cfg, s.t, g.path[g.depth - 1], g.path[g.depth])
    ensures Inv(cfg, ShiftStep(cfg, s, tid, s.threads[tid]))
  {
    var th := s.threads[tid];
    Owns(cfg, s, tid);
    MoveOwn(cfg, s, tid);
    EarlyShape(cfg, s, tid, th);
    EarlyThread(cfg, s, th);
    EarlyMoved(cfg, s, tid, MovedTable(s, th), StepBack(th));
  }

  ghost function StepBack(th: Thread): (th': Thread)
    requires th.Work? && th.goal.Shift? && th.goal.depth >= 1
  {
    Fetch(th.op, th.hp, Shift(th.goal.path, th.goal.depth - 1))
  }

  lemma EarlyShape(cfg: Config, s: Sys, tid: nat, th: Thread)
    requires tid < |s.threads| && th.Work? && th.goal.Shift? && !th.op.Clear? && 2 <= th.goal.depth < |th.goal.path|
    requires StillGood(cfg, s.t, th.goal.path[th.goal.depth - 1], th.goal.path[th.goal.depth])
    ensures Same(ShiftStep(cfg, s, tid, th), Leave(s.(t := MovedTable(s, th)), tid, StepBack(th)))
  {
  }

  lemma EarlyThread(cfg: Config, s: Sys, th: Thread)
    requires th.Work? && th.goal.Shift? && th.goal.depth >= 1 && Owning(cfg, s, th)
    ensures ThreadOk(cfg, s, StepBack(th))
  {
  }

  lemma MovedSame(cfg: Config, s: Sys, tid: nat, t': T.Table)
    requires tid < |s.threads| && s.locks != [] && Moved(cfg, s, tid, t')
    ensures t'.hp == s.t.hp
  {
  }

  lemma {:induction false} ComposeMoved(cfg: Config, s: Sys, s': Sys, tid: nat, t': T.Table, c: nat, keep: seq<nat>,
                                        th: Thread)
    requires Inv(cfg, s) && tid < |s.threads| && !s.threads[tid].Doubling? && !th.Doubling?
    requires s.locks != [] && Moved(cfg, s, tid, t') && ThreadOk(cfg, s', th)
    requires s' == s.(t := t', locks := Release(s.locks, tid, c, keep), threads := s.threads[tid := th])
    requires LocksMatch(s'.locks, s'.threads)
    ensures Inv(cfg, s')
  {
    ReleaseTouchesOwn(cfg, s, s', tid, t', c, keep);
    Compose(cfg, s, s', tid, th);
  }

  lemma {:induction false} EarlyMoved(cfg: Config, s: Sys, tid: nat, t': T.Table, th: Thread)
    requires Inv(cfg, s) && tid < |s.threads| && !s.threads[tid].Doubling?
    requires HoldsNothing(th) && ThreadOk(cfg, s, th)
    requires s.locks != [] && Moved(cfg, s, tid, t')
    ensures Inv(cfg, Leave(s.(t := t'), tid, th))
  {
    var s' := Leave(s.(t := t'), tid, th);
    ReleaseKeeps(s, tid, th, 0, []);
    MovedSame(cfg, s, tid, t');
    FreeThread(cfg, s, s', th);
    ComposeMoved(cfg, s, s', tid, t', 0, [], th);
  }

  lemma LastMoveInv(cfg: Config, s: Sys, tid: nat)
    requires Inv(cfg, s) && tid < |s.threads| && s.threads[tid].Work? && s.threads[tid].goal.Shift?
    requires InCharge(s, s.threads[tid])
    requires var g := s.threads[tid].goal; g.depth == 1 && StillGood(cfg, s.t, g.path[0], g.path[1])
    ensures Inv(cfg, ShiftStep(cfg, s, tid, s.threads[tid]))
  {
    var th := s.threads[tid];
    Owns(cfg, s, tid);
    MoveOwn(cfg, s, tid);
    var t' := MovedTable(s, th);
    LastShape(cfg, s, tid, th);
    LastThread(cfg, s, th, t');
    LastMoved(cfg, s, tid, t', LastSettle(cfg, th));
  }

  /** The thread after the last move: it keeps the locks of the two buckets of its key. */
  ghost function LastSettle(cfg: Config, th: Thread): (th': Thread)
    requires th.Work? && th.goal.Shift? && th.goal.path != []
  {
    Settle(th.op, th.hp, th.c, Need(cfg, th.op, th.hp, Direct), th.goal.path[0].bucket, th.goal.path[0].slot)
  }

  ghost function Keeping(s: Sys, tid: nat, t': T.Table, th: Thread): (s': Sys)
    requires tid < |s.threads| && th.Settle?
  {
    s.(t := t', locks := Release(s.locks, tid, th.c, th.need), threads := s.threads[tid := th])
  }

  lemma LastShape(cfg: Config, s: Sys, tid: nat, th: Thread)
    requires tid < |s.threads| && th.Work? && th.goal.Shift? && !th.op.Clear? && 1 == th.goal.depth < |th.goal.path|
    requires StillGood(cfg, s.t, th.goal.path[0], th.goal.path[1])
    ensures Same(ShiftStep(cfg, s, tid, th), Keeping(s, tid, MovedTable(s, th), LastSettle(cfg, th)))
  {
  }

  lemma KeptLocks(s: Sys, tid: nat, th: Thread)
    requires LocksOk(s) && tid < |s.threads| && s.threads[tid].Work? && th.Settle? && th.c == s.threads[tid].c
    requires forall l :: l in th.need ==> l in s.threads[tid].need
    ensures LocksMatch(Release(s.locks, tid, th.c, th.need), s.threads[tid := th])
  {
    forall l | l in th.need ensures Holds(s.threads[tid], th.c, l) {
    }
    ReleaseKeeps(s, tid, th, th.c, th.need);
  }

  /** The locks of the two target buckets are kept, the third one is let go. */
  lemma {:induction false} LastMoved(cfg: Config, s: Sys, tid: nat, t': T.Table, th: Thread)
    requires Inv(cfg, s) && tid < |s.threads| && s.threads[tid].Work? && th.Settle? && th.c == s.threads[tid].c
    requires s.locks != [] && Moved(cfg, s, tid, t') && ThreadOk(cfg, s.(t := t'), th)
    requires forall l :: l in th.need ==> l in s.threads[tid].need
    ensures Inv(cfg, Keeping(s, tid, t', th))
  {
    KeptLocks(s, tid, th);
    SameThread(cfg, s.(t := t'), Keeping(s, tid, t', th), th);
    ComposeMoved(cfg, s, Keeping(s, tid, t', th), tid, t', th.c, th.need, th);
  }

  lemma LastThread(cfg: Config, s: Sys, th: Thread, t': T.Table)
    requires th.Work? && th.goal.Shift? && th.goal.depth == 1 && ThreadOk(cfg, s, th) && Owning(cfg, s, th)
    requires StillGood(cfg, s.t, th.goal.path[0], th.goal.path[1]) && t' == MovedTable(s, th)
    ensures ThreadOk(cfg, s.(t := t'), LastSettle(cfg, th))
    ensures forall l :: l in LastSettle(cfg, th).need ==> l in th.need
  {
    OwnMigrated(s.t, t', th.need, Need(cfg, th.op, th.hp, Direct));
    DisplacesOwn(cfg, s, th);
  }

  lemma ReleaseTouchesOwn(cfg: Config, s: Sys, s': Sys, tid: nat, t': T.Table, c: nat, keep: seq<nat>)
    requires tid < |s.threads| && s.locks != [] && TouchesOwn(cfg, s, s.(t := t'), tid)
    requires s'.t == t' && s'.locks == Release(s.locks, tid, c, keep) && s'.front == s.front
    ensures TouchesOwn(cfg, s, s', tid)
  {
  }

  lemma OwnMigrated(t: T.Table, t': T.Table, need: seq<nat>, own: seq<nat>)
    requires MigratedAll(t, need, |need|) && |t'.mig| == |t.mig|
    requires forall l :: 0 <= l < |t.mig| && t.mig[l] ==> t'.mig[l]
    requires forall l :: l in own ==> l in need
    ensures MigratedAll(t', own, |own|)
  {
    forall i | 0 <= i < |own| ensures own[i] < |t'.mig| && t'.mig[own[i]] {
      assert own[i] in need;
    }
  }

  lemma HuntInv(cfg: Config, s: Sys, tid: nat, ch: Choice)
    requires Inv(cfg, s) && tid < |s.threads| && s.threads[tid].Hunt?
    ensures Inv(cfg, HuntStep(cfg, s, tid, s.threads[tid], ch))
  {
    var th := s.threads[tid];
    match ch {
      case LookAt(b) =>
        if b < Pow2(th.hp) {
          BecomeInv(cfg, s, tid, Fetch(th.op, th.hp, Visit(b)));
        }
      case GiveUp =>
        BecomeInv(cfg, s, tid, GrabAll(th.op, th.hp, |s.locks| - 1, |s.locks| - 1, 0));
      case Follow(second, slots) =>
        if 1 <= |slots| <= cfg.pathLen && forall i :: 0 <= i < |slots| ==> slots[i] < cfg.slots {
          assert InRange(cfg, th.hp, th.op.k);
          var b := if second then Other(cfg, th.hp, th.op.k) else Home(cfg, th.hp, th.op.k);
          BecomeInv(cfg, s, tid, Fetch(th.op, th.hp, Read(slots, [], b)));
        }
      case _ =>
    }
  }

  lemma GrabInv(cfg: Config, s: Sys, tid: nat)
    requires Inv(cfg, s) && tid < |s.threads| && s.threads[tid].GrabAll?
    ensures Inv(cfg, GrabStep(s, tid, s.threads[tid]))
  {
    var th := s.threads[tid];
    if th.l < |s.locks[th.c]| {
      assert Same(GrabStep(s, tid, th), TakeStep(s, tid, th.c, th.l, GrabAll(th.op, th.hp, th.first, th.c, th.l + 1)));
      GrabOneInv(cfg, s, tid);
    } else if th.c + 1 < |s.locks| {
      assert Same(GrabStep(s, tid, th), Become(s, tid, GrabAll(th.op, th.hp, th.first, th.c + 1, 0)));
      GrabNextInv(cfg, s, tid);
    } else {
      assert Same(GrabStep(s, tid, th), Become(s, tid, AllHeld(th.op, th.hp, th.first)));
      GrabbedInv(cfg, s, tid);
    }
  }

  lemma GrabOneInv(cfg: Config, s: Sys, tid: nat)
    requires Inv(cfg, s) && tid < |s.threads| && s.threads[tid].GrabAll?
    requires var th := s.threads[tid]; th.c < |s.locks| && th.l < |s.locks[th.c]|
    ensures var th := s.threads[tid];
            Inv(cfg, TakeStep(s, tid, th.c, th.l, GrabAll(th.op, th.hp, th.first, th.c, th.l + 1)))
  {
    var th := s.threads[tid];
    var th' := GrabAll(th.op, th.hp, th.first, th.c, th.l + 1);
    GrabbedMore(th);
    TakeInv(cfg, s, tid, th.c, th.l, th');
  }

  lemma GrabbedMore(th: Thread)
    requires th.GrabAll? && th.first <= th.c
    ensures var th' := GrabAll(th.op, th.hp, th.first, th.c, th.l + 1);
            forall c, l :: 0 <= c && 0 <= l ==> (Holds(th', c, l) <==> Holds(th, c, l) || (c == th.c && l == th.l))
  {
  }

  lemma GrabNextInv(cfg: Config, s: Sys, tid: nat)
    requires Inv(cfg, s) && tid < |s.threads| && s.threads[tid].GrabAll?
    requires var th := s.threads[tid]; th.c + 1 < |s.locks| && th.l == |s.locks[th.c]|
    ensures var th := s.threads[tid]; Inv(cfg, Become(s, tid, GrabAll(th.op, th.hp, th.first, th.c + 1, 0)))
  {
    var th := s.threads[tid];
    var th' := GrabAll(th.op, th.hp, th.first, th.c + 1, 0);
    forall c, l | 0 <= c < |s.locks| && 0 <= l < |s.locks[c]| ensures Holds(th', c, l) <==> Holds(th, c, l) {
    }
    BecomeInv(cfg, s, tid, th');
  }

  lemma GrabbedInv(cfg: Config, s: Sys, tid: nat)
    requires Inv(cfg, s) && tid < |s.threads| && s.threads[tid].GrabAll?
    requires var th := s.threads[tid]; th.c + 1 == |s.locks| && th.l == |s.locks[th.c]|
    ensures var th := s.threads[tid]; Inv(cfg, Become(s, tid, AllHeld(th.op, th.hp, th.first)))
  {
    var th := s.threads[tid];
    var th' := AllHeld(th.op, th.hp, th.first);
    forall c, l | 0 <= c < |s.locks| && 0 <= l < |s.locks[c]| ensures Holds(th', c, l) <==> Holds(th, c, l) {
    }
    BecomeInv(cfg, s, tid, th');
  }

  // ---------- resizing and clearing under all locks ----------

  ghost predicate HasAll(th: Thread) {
    th.AllHeld? || th.Doubling?
  }

  /** While one thread holds all locks, no other holds a lock of the current container. */
  lemma AllHeldExcludes(s: Sys, tid: nat, i: nat, l: nat)
    requires LocksOk(s) && tid < |s.threads| && i < |s.threads| && i != tid && s.locks != []
    requires HasAll(s.threads[tid]) && s.threads[tid].first < |s.locks| && l < |s.locks[|s.locks| - 1]|
    ensures !Holds(s.threads[i], |s.locks| - 1, l)
  {
    assert Holds(s.threads[tid], |s.locks| - 1, l);
    assert s.locks[|s.locks| - 1][l] == By(tid);
  }

  /** ... and no other is doubling the table. */
  lemma OneDoubles(cfg: Config, s: Sys, tid: nat)
    requires Inv(cfg, s) && tid < |s.threads| && HasAll(s.threads[tid])
    ensures forall i :: 0 <= i < |s.threads| && i != tid ==> !HasAll(s.threads[i])
    ensures s.threads[tid].AllHeld? ==> s.front.shown == s.t.hp == s.front.lockHp && !s.front.bare
  {
    forall i | 0 <= i < |s.threads| && i != tid ensures !HasAll(s.threads[i]) {
      AllHeldExcludes(s, tid, i, 0);
    }
  }

  /** A thread that holds a lock of the current container, if its container and hashpower are current. */
  ghost predicate Inside(th: Thread) {
    (th.Acquire? && th.got > 0) || th.Migrate? || th.Work? || th.Settle?
  }

  lemma InsideHolds(cfg: Config, s: Sys, th: Thread)
    requires Inv(cfg, s) && ThreadOk(cfg, s, th) && Inside(th)
    ensures th.need != [] && th.c < |s.locks| && th.need[0] < |s.locks[th.c]| && Holds(th, th.c, th.need[0])
  {
    NeedInRange(cfg, th.op, th.hp, if th.Settle? then Direct else th.goal);
    assert th.need[0] in th.need;
    if th.Acquire? {
      assert th.need[0] == th.need[..th.got][0];
    }
  }

  /** Hashpowers and lock containers never get smaller, and a container is replaced only for a larger hashpower. */
  ghost predicate NeverShrinks(s: Sys, s': Sys) {
    && s'.t.hp >= s.t.hp
    && (s'.front.lockHp > s.front.lockHp || (s'.front.lockHp == s.front.lockHp && |s'.locks| == |s.locks|))
    && |s'.locks| >= |s.locks| && forall c :: 0 <= c < |s.locks| ==> |s'.locks[c]| == |s.locks[c]|
  }

  lemma Survives(cfg: Config, s: Sys, s': Sys, th: Thread)
    requires ThreadOk(cfg, s, th) && !th.Doubling? && s.t.hp <= s.front.lockHp && NeverShrinks(s, s')
    requires !(Inside(th) && Current(s', th.hp, th.c))
    ensures ThreadOk(cfg, s', th)
  {
  }

  /** Other threads rely on nothing but what never shrinks, or else hold a lock that is taken. */
  lemma OtherSurvivesResize(cfg: Config, s: Sys, s': Sys, tid: nat, i: nat)
    requires Inv(cfg, s) && tid < |s.threads| && i < |s.threads| && i != tid && HasAll(s.threads[tid])
    requires NeverShrinks(s, s')
    ensures ThreadOk(cfg, s', s.threads[i])
  {
    OneDoubles(cfg, s, tid);
    NotInside(cfg, s, s', tid, i);
    Survives(cfg, s, s', s.threads[i]);
  }

  lemma NotInside(cfg: Config, s: Sys, s': Sys, tid: nat, i: nat)
    requires Inv(cfg, s) && tid < |s.threads| && i < |s.threads| && i != tid && HasAll(s.threads[tid])
    requires NeverShrinks(s, s')
    ensures var th := s.threads[i]; !(Inside(th) && Current(s', th.hp, th.c))
  {
    var th := s.threads[i];
    if Inside(th) {
      InsideHolds(cfg, s, th);
      HoldsOld(s, tid, i, th.c, th.need[0]);
    }
  }

  /** While one thread holds all locks, a lock another holds is one of an older container. */
  lemma HoldsOld(s: Sys, tid: nat, i: nat, c: nat, l: nat)
    requires LocksOk(s) && tid < |s.threads| && i < |s.threads| && i != tid
    requires HasAll(s.threads[tid]) && s.threads[tid].first < |s.locks|
    requires c < |s.locks| && l < |s.locks[c]| && Holds(s.threads[i], c, l)
    ensures c + 1 < |s.locks|
  {
    if c + 1 == |s.locks| {
      AllHeldExcludes(s, tid, i, l);
    }
  }

  /** A step under all locks. */
  lemma ComposeAll(cfg: Config, s: Sys, s': Sys, tid: nat, th: Thread)
    requires Inv(cfg, s) && tid < |s.threads| && HasAll(s.threads[tid])
    requires NeverShrinks(s, s')
    requires |s'.locks[|s'.locks| - 1]| == NumLocks(cfg, s'.front.lockHp)
    requires s'.threads == s.threads[tid := th] && ThreadOk(cfg, s', th)
    requires T.Inv(cfg, s'.t) && LocksOk(s') && Legal(s'.log) && Same(Replay(s'.log), T.Abs(cfg, s'.t))
    requires s'.front.prev <= s'.t.hp && s'.front.shown <= s'.t.hp <= s'.front.lockHp
    requires th.Doubling? || (s'.front.shown == s'.t.hp == s'.front.lockHp && !s'.front.bare)
    ensures Inv(cfg, s')
  {
    forall i | 0 <= i < |s'.threads| ensures ThreadOk(cfg, s', s'.threads[i]) {
      if i != tid {
        OtherSurvivesResize(cfg, s, s', tid, i);
      }
    }
    assert s'.threads[tid] == th;
  }

  lemma ClearInv(cfg: Config, s: Sys, tid: nat)
    requires Inv(cfg, s) && tid < |s.threads| && s.threads[tid].AllHeld? && s.threads[tid].op.Clear?
    ensures Inv(cfg, Finish(s, tid, T.Clear(cfg, s.t), Clear, Done(true)))
  {
    var s' := Finish(s, tid, T.Clear(cfg, s.t), Clear, Done(true));
    T.ClearKeeps(cfg, s.t);
    ReleaseKeeps(s, tid, Idle, 0, []);
    LogGrows(s.log, Event(tid, Clear, Done(true)));
    OneDoubles(cfg, s, tid);
    ComposeAll(cfg, s, s', tid, Idle);
  }

  lemma ResizeLocksKeeps(cfg: Config, s: Sys, hp: nat, tid: nat, th: Thread)
    requires LocksOk(s) && s.locks != [] && tid < |s.threads| && s.threads[tid].AllHeld? && th.Doubling?
    requires th.first == s.threads[tid].first <= |s.locks|
    requires forall i, l :: 0 <= i < |s.threads| && i != tid && 0 <= l ==> !Holds(s.threads[i], |s.locks|, l)
    ensures LocksMatch(MaybeResizeLocks(cfg, s.locks, hp, tid), s.threads[tid := th])
  {
  }

  lemma NoneBeyond(cfg: Config, s: Sys, tid: nat)
    requires Inv(cfg, s) && tid < |s.threads| && HasAll(s.threads[tid])
    ensures forall i, l :: 0 <= i < |s.threads| && i != tid && 0 <= l ==> !Holds(s.threads[i], |s.locks|, l)
  {
    OneDoubles(cfg, s, tid);
  }

  lemma ResizedShape(cfg: Config, locks: seq<seq<Owner>>, tid: nat, hp: nat)
    requires locks != [] && |locks[|locks| - 1]| == NumLocks(cfg, hp)
    ensures var r := MaybeResizeLocks(cfg, locks, hp + 1, tid);
            && |r| >= |locks| && |r[|r| - 1]| == NumLocks(cfg, hp + 1)
            && forall c :: 0 <= c < |locks| ==> |r[c]| == |locks[c]|
  {
    NumLocksMonotone(cfg, hp, hp + 1);
  }

  lemma GrowInv(cfg: Config, s: Sys, tid: nat)
    requires Inv(cfg, s) && tid < |s.threads| && s.threads[tid].AllHeld? && s.threads[tid].op.Insert?
    ensures var th := s.threads[tid];
            Inv(cfg, Become(WithLocks(cfg, s, tid), tid, Doubling(th.op, th.first, Grown)))
  {
    var th := s.threads[tid];
    var th' := Doubling(th.op, th.first, Grown);
    OneDoubles(cfg, s, tid);
    NoneBeyond(cfg, s, tid);
    ResizedShape(cfg, s.locks, tid, s.front.lockHp);
    ResizeLocksKeeps(cfg, s, s.front.lockHp + 1, tid, th');
    ComposeAll(cfg, s, Become(WithLocks(cfg, s, tid), tid, th'), tid, th');
  }

  lemma {:induction false} SwapInv(cfg: Config, s: Sys, tid: nat)
    requires Inv(cfg, s) && tid < |s.threads| && s.threads[tid].Doubling? && s.threads[tid].stage.Grown?
    ensures Inv(cfg, DoublingStep(cfg, s, tid, s.threads[tid]))
  {
    var th := s.threads[tid];
    BecomeKeeps(s, tid, Doubling(th.op, th.first, Swapped));
    ComposeAll(cfg, s, DoublingStep(cfg, s, tid, th), tid, Doubling(th.op, th.first, Swapped));
  }

  lemma {:induction false} AssignInv(cfg: Config, s: Sys, tid: nat)
    requires Inv(cfg, s) && tid < |s.threads| && s.threads[tid].Doubling? && s.threads[tid].stage.Swapped?
    ensures Inv(cfg, DoublingStep(cfg, s, tid, s.threads[tid]))
  {
    var th := s.threads[tid];
    T.DoubleKeeps(cfg, s.t);
    BecomeKeeps(s, tid, Doubling(th.op, th.first, Filling));
    ComposeAll(cfg, s, DoublingStep(cfg, s, tid, th), tid, Doubling(th.op, th.first, Filling));
  }

  lemma {:induction false} FillInv(cfg: Config, s: Sys, tid: nat)
    requires Inv(cfg, s) && tid < |s.threads| && s.threads[tid].Doubling? && s.threads[tid].stage.Filling?
    ensures Inv(cfg, DoublingStep(cfg, s, tid, s.threads[tid]))
  {
    var th := s.threads[tid];
    ReleaseKeeps(s, tid, Snapshot(th.op), 0, []);
    ComposeAll(cfg, s, DoublingStep(cfg, s, tid, th), tid, Snapshot(th.op));
  }

  lemma DoublingInv(cfg: Config, s: Sys, tid: nat)
    requires Inv(cfg, s) && tid < |s.threads| && s.threads[tid].Doubling?
    ensures Inv(cfg, DoublingStep(cfg, s, tid, s.threads[tid]))
  {
    match s.threads[tid].stage {
      case Grown => SwapInv(cfg, s, tid);
      case Swapped => AssignInv(cfg, s, tid);
      case Filling => FillInv(cfg, s, tid);
    }
  }

  lemma AllHeldInv(cfg: Config, s: Sys, tid: nat)
    requires Inv(cfg, s) && tid < |s.threads| && s.threads[tid].AllHeld?
    ensures Inv(cfg, AllHeldStep(cfg, s, tid, s.threads[tid]))
  {
    var th := s.threads[tid];
    if th.op.Clear? {
      ClearInv(cfg, s, tid);
    } else if th.hp + 1 > cfg.maxHp {
      FinishInv(cfg, s, tid, s.t, th.op, Threw);
    } else if s.front.shown != th.hp {
      LeaveInv(cfg, s, tid, Snapshot(th.op));
    } else {
      GrowInv(cfg, s, tid);
    }
  }

  // ---------- every step, every run ----------

  lemma StepInv(cfg: Config, s: Sys, tid: nat, ch: Choice)
    requires Inv(cfg, s)
    ensures Inv(cfg, Step(cfg, s, tid, ch))
  {
    if tid < |s.threads| && !s.fault {
      match s.threads[tid] {
        case Idle => InvokeInv(cfg, s, tid, ch);
        case Snapshot(op) => BecomeInv(cfg, s, tid, Fetch(op, s.front.shown, Direct));
        case Fetch(op, hp, goal) => FetchInv(cfg, s, tid);
        case Acquire(_, _, _, _, _, _) => AcquireInv(cfg, s, tid);
        case Verify(_, _, _, _, _) => VerifyInv(cfg, s, tid);
        case Hunt(_, _) => HuntInv(cfg, s, tid, ch);
        case _ => HolderInv(cfg, s, tid, ch);
      }
    }
  }

  /** The steps of a thread that has passed the comparison of hashpowers, or goes for all locks. */
  lemma HolderInv(cfg: Config, s: Sys, tid: nat, ch: Choice)
    requires Inv(cfg, s) && tid < |s.threads| && !s.fault
    requires var th := s.threads[tid]; th.Migrate? || th.Work? || th.Settle? || th.GrabAll? || HasAll(th)
    ensures Inv(cfg, Step(cfg, s, tid, ch))
  {
    HolderStep(cfg, s, tid, ch);
    FaultInv(cfg, s);
    match s.threads[tid] {
      case Migrate(_, _, _, _, _, _) => MigrateInv(cfg, s, tid);
      case Work(_, hp, _, c, _) =>
        if !Astray(s, hp, c) {
          WorkInv(cfg, s, tid);
        }
      case Settle(_, hp, c, _, _, _) =>
        if !Astray(s, hp, c) {
          SettleInv(cfg, s, tid);
        }
      case GrabAll(_, _, _, _, _) => GrabInv(cfg, s, tid);
      case AllHeld(_, _, _) => AllHeldInv(cfg, s, tid);
      case Doubling(_, _, _) => DoublingInv(cfg, s, tid);
    }
  }

  lemma HolderStep(cfg: Config, s: Sys, tid: nat, ch: Choice)
    requires T.Shape(cfg, s.t) && tid < |s.threads| && !s.fault && ThreadOk(cfg, s, s.threads[tid])
    ensures var th, s' := s.threads[tid], Step(cfg, s, tid, ch);
            && (th.Migrate? ==> Same(s', MigrateStep(cfg, s, tid, th)))
            && (th.Work? && InCharge(s, th) ==> Same(s', WorkStep(cfg, s, tid, th)))
            && (th.Settle? && InCharge(s, th) ==> Same(s', SettleStep(cfg, s, tid, th)))
            && ((th.Work? || th.Settle?) && !InCharge(s, th) ==> Same(s', s.(fault := true)))
            && (th.GrabAll? ==> Same(s', GrabStep(s, tid, th)))
            && (th.AllHeld? ==> Same(s', AllHeldStep(cfg, s, tid, th)))
            && (th.Doubling? ==> Same(s', DoublingStep(cfg, s, tid, th)))
  {
  }

  lemma InvokeInv(cfg: Config, s: Sys, tid: nat, ch: Choice)
    requires Inv(cfg, s) && tid < |s.threads| && s.threads[tid].Idle?
    ensures Inv(cfg, Step(cfg, s, tid, ch))
  {
    if ch.Invoke? && !ch.op.Clear? {
      BecomeInv(cfg, s, tid, Snapshot(ch.op));
    } else if ch.Invoke? {
      BecomeInv(cfg, s, tid, GrabAll(ch.op, 0, |s.locks| - 1, |s.locks| - 1, 0));
    }
  }

  lemma FetchInv(cfg: Config, s: Sys, tid: nat)
    requires Inv(cfg, s) && tid < |s.threads| && s.threads[tid].Fetch?
    ensures var th := s.threads[tid];
            Inv(cfg, Become(s, tid, Acquire(th.op, th.hp, th.goal, |s.locks| - 1, Need(cfg, th.op, th.hp, th.goal), 0)))
  {
    var Fetch(op, hp, goal) := s.threads[tid];
    NumLocksMonotone(cfg, hp, s.front.lockHp);
    BecomeInv(cfg, s, tid, Acquire(op, hp, goal, |s.locks| - 1, Need(cfg, op, hp, goal), 0));
  }

  lemma WorkInv(cfg: Config, s: Sys, tid: nat)
    requires Inv(cfg, s) && tid < |s.threads| && s.threads[tid].Work? && InCharge(s, s.threads[tid])
    ensures Inv(cfg, WorkStep(cfg, s, tid, s.threads[tid]))
  {
    var th := s.threads[tid];
    match th.goal {
      case Direct => DirectInv(cfg, s, tid);
      case Visit(_) => LeaveInv(cfg, s, tid, Hunt(th.op, th.hp));
      case Read(_, _, _) => ReadInv(cfg, s, tid);
      case Shift(_, _) => ShiftInv(cfg, s, tid);
    }
  }

  ghost function Init(cfg: Config, hp: nat, n: nat): (s: Sys) {
    Sys(T.Empty(cfg, hp), [Row(NumLocks(cfg, hp), Free)], IdleThreads(n), [], Front(hp, 0, hp, false), false)
  }

  lemma InitInv(cfg: Config, hp: nat, n: nat)
    requires Laws(cfg)
    ensures Inv(cfg, Init(cfg, hp, n))
  {
    T.EmptyHolds(cfg, hp);
  }

  /** The state after a schedule: at each step, which thread moves and how it resolves its choices. */
  ghost function Run(cfg: Config, s: Sys, schedule: seq<(nat, Choice)>): (s': Sys)
    decreases |schedule|
  {
    if schedule == [] || !T.Shape(cfg, s.t) then s
    else Run(cfg, Step(cfg, s, schedule[0].0, schedule[0].1), schedule[1..])
  }

  lemma {:induction false} RunInv(cfg: Config, s: Sys, schedule: seq<(nat, Choice)>)
    requires Inv(cfg, s)
    ensures Inv(cfg, Run(cfg, s, schedule))
    decreases |schedule|
  {
    if schedule != [] {
      StepInv(cfg, s, schedule[0].0, schedule[0].1);
      RunInv(cfg, Step(cfg, s, schedule[0].0, schedule[0].1), schedule[1..]);
    }
  }

  // ---------- deadlock freedom ----------

  /** The lock a thread spins on. */
  ghost predicate Wants(s: Sys, th: Thread, c: nat, l: nat) {
    match th
    case Acquire(_, _, _, c', need, got) => c == c' && got < |need| && l == need[got]
    case GrabAll(_, _, _, c', l') => c == c' && l == l' && c < |s.locks| && l < |s.locks[c]|
    case _ => false
  }

  /** The thread spins on a lock that another thread holds. */
  ghost predicate Blocked(s: Sys, i: nat) {
    && i < |s.threads|
    && exists c: nat, l: nat :: Wants(s, s.threads[i], c, l) && c < |s.locks| && l < |s.locks[c]| && s.locks[c][l].By?
  }

  predicate Before(c: nat, l: nat, c': nat, l': nat) {
    c < c' || (c == c' && l < l')
  }

  /** A thread that waits for a lock holds only earlier locks, and never the one it waits for. */
  lemma WaitsInOrder(cfg: Config, s: Sys, i: nat, c: nat, l: nat, c': nat, l': nat)
    requires Inv(cfg, s) && i < |s.threads| && Holds(s.threads[i], c, l) && Wants(s, s.threads[i], c', l')
    ensures Before(c, l, c', l')
  {
    var th := s.threads[i];
    if th.Acquire? {
      var j :| 0 <= j < th.got && th.need[j] == l;
    }
  }

  /** If some thread is blocked, then some thread that holds a lock can run. */
  lemma {:induction false} NoDeadlock(cfg: Config, s: Sys, i: nat, c: nat, l: nat) returns (j: nat)
    requires Inv(cfg, s) && i < |s.threads|
    requires Wants(s, s.threads[i], c, l) && c < |s.locks| && l < |s.locks[c]| && s.locks[c][l].By?
    ensures j < |s.threads| && !Blocked(s, j)
    ensures exists c': nat, l': nat :: c' < |s.locks| && l' < |s.locks[c']| && s.locks[c'][l'] == By(j)
    decreases |s.locks| - c, |s.locks[c]| - l
  {
    j := s.locks[c][l].tid;
    assert Holds(s.threads[j], c, l);
    if Blocked(s, j) {
      var c': nat, l': nat :| Wants(s, s.threads[j], c', l') && c' < |s.locks| && l' < |s.locks[c']|
        && s.locks[c'][l'].By?;
      WaitsInOrder(cfg, s, j, c, l, c', l');
      j := NoDeadlock(cfg, s, j, c', l');
    } else {
      assert s.locks[c][l] == By(j);
    }
  }

  ghost predicate Moves(s: Sys, s': Sys, i: nat) {
    i < |s.threads| && i < |s'.threads| && s'.threads[i] != s.threads[i]
  }

  lemma WorkMoves(cfg: Config, s: Sys, i: nat)
    requires Inv(cfg, s) && i < |s.threads| && s.threads[i].Work?
    requires InCharge(s, s.threads[i])
    ensures Moves(s, WorkStep(cfg, s, i, s.threads[i]), i)
  {
    var th := s.threads[i];
    Owns(cfg, s, i);
    if th.goal.Direct? {
      LookedUp(cfg, s, th);
      DirectMoves(cfg, s, i, th);
    }
  }

  lemma DirectMoves(cfg: Config, s: Sys, i: nat, th: Thread)
    requires i < |s.threads| && s.threads[i] == th && th.Work? && th.goal.Direct? && Owning(cfg, s, th)
    ensures Moves(s, DirectStep(cfg, s, i, th), i)
  {
    assert InRange(cfg, s.t.hp, th.op.k);
    assert LockStays(cfg, s.t.hp, Home(cfg, s.t.hp, th.op.k));
    assert LockStays(cfg, s.t.hp, Other(cfg, s.t.hp, th.op.k));
  }

  lemma SettleMoves(cfg: Config, s: Sys, i: nat)
    requires Inv(cfg, s) && i < |s.threads| && s.threads[i].Settle?
    requires InCharge(s, s.threads[i])
    ensures Moves(s, SettleStep(cfg, s, i, s.threads[i]), i)
  {
    assert LockStays(cfg, s.t.hp, s.threads[i].b);
  }

  lemma TakeMoves(cfg: Config, s: Sys, i: nat)
    requires Inv(cfg, s) && i < |s.threads| && (s.threads[i].Acquire? || s.threads[i].GrabAll?) && !Blocked(s, i)
    ensures s.threads[i].Acquire? ==> Moves(s, AcquireStep(s, i, s.threads[i]), i)
    ensures s.threads[i].GrabAll? ==> Moves(s, GrabStep(s, i, s.threads[i]), i)
  {
    var th := s.threads[i];
    if th.Acquire? {
      NeedInRange(cfg, th.op, th.hp, th.goal);
      assert th.need[th.got] in th.need;
      assert Wants(s, th, th.c, th.need[th.got]);
    } else if th.l < |s.locks[th.c]| {
      assert Wants(s, th, th.c, th.l);
    }
  }

  lemma MigrateMoves(cfg: Config, s: Sys, i: nat)
    requires Inv(cfg, s) && i < |s.threads| && s.threads[i].Migrate?
    ensures Moves(s, MigrateStep(cfg, s, i, s.threads[i]), i) || MigrateStep(cfg, s, i, s.threads[i]).fault
  {
    if s.threads[i].m < |s.threads[i].need| {
      MigrateOne(cfg, s, i);
    }
  }

  /** A thread that is neither idle nor blocked changes state on its next step, or uses the buckets unprotected. */
  lemma Unblocked(cfg: Config, s: Sys, i: nat)
    requires Inv(cfg, s) && i < |s.threads| && !s.threads[i].Idle? && !Blocked(s, i) && !s.fault
    ensures var s' := Step(cfg, s, i, if s.threads[i].Hunt? then GiveUp else Go); Moves(s, s', i) || s'.fault
  {
    var th := s.threads[i];
    HolderStep(cfg, s, i, Go);
    if th.Acquire? || th.GrabAll? {
      TakeMoves(cfg, s, i);
    } else if th.Migrate? {
      MigrateMoves(cfg, s, i);
    } else if th.Work? || th.Settle? {
      InsideMoves(cfg, s, i);
    }
  }

  lemma InsideMoves(cfg: Config, s: Sys, i: nat)
    requires Inv(cfg, s) && i < |s.threads| && (s.threads[i].Work? || s.threads[i].Settle?) && !s.fault
    ensures Moves(s, Step(cfg, s, i, Go), i) || Step(cfg, s, i, Go).fault
  {
    HolderStep(cfg, s, i, Go);
    if InCharge(s, s.threads[i]) {
      if s.threads[i].Work? {
        WorkMoves(cfg, s, i);
      } else {
        SettleMoves(cfg, s, i);
      }
    }
  }
}
