/** A call on the cuckoo map that runs alone ends.  If the displacement search does what it is proved to do in
    `CuckooSearch`, an insertion that has a path to a vacant slot takes it and succeeds; one that has none doubles the
    table until it has, or throws at the maximum. */
module CuckooAlone {
  import opened Bits
  import opened CuckooIndex
  import opened CuckooBuckets
  import T = CuckooTable
  import S = CuckooSearch
  import P = CuckooPath
  import opened CuckooLocks
  import opened CuckooThreads
  import opened CuckooAnswers

  // ---------- paths ----------

  function Note(r: Rec): (n: P.Record) {
    P.Record(r.bucket, r.slot, r.hash)
  }

  function Notes(path: seq<Rec>): (ns: seq<P.Record>)
    ensures |ns| == |path| && forall i :: 0 <= i < |path| ==> ns[i] == Note(path[i])
  {
    if path == [] then [] else Notes(path[..|path| - 1]) + [Note(path[|path| - 1])]
  }

  lemma NotesNext(path: seq<Rec>, r: Rec)
    ensures Notes(path + [r]) == Notes(path) + [Note(r)]
  {
    assert (path + [r])[..|path|] == path;
  }

  /** What slot_search may return for key `k`: a shortest path that ends at a vacant slot. */
  ghost predicate Leads(cfg: Config, t: T.Table, k: Key, x: S.Item, p: S.Path) {
    S.FoundPath(cfg, t.hp, T.View(cfg, t), Home(cfg, t.hp, k), Other(cfg, t.hp, k), x, p)
  }

  ghost predicate Roomy(cfg: Config, t: T.Table, k: Key) {
    exists x, p :: Leads(cfg, t, k, x, p)
  }

  /** cuckoopath_search has recorded `path` and is about to look at bucket `b`. */
  ghost predicate Reading(cfg: Config, t: T.Table, k: Key, slots: seq<nat>, path: seq<Rec>, b: nat) {
    exists x, p: S.Path :: p.slots == slots && ReadingAlong(cfg, t, k, path, b, x, p)
  }

  ghost predicate ReadingAlong(cfg: Config, t: T.Table, k: Key, path: seq<Rec>, b: nat, x: S.Item, p: S.Path) {
    P.Walking(cfg, t.hp, T.View(cfg, t), Home(cfg, t.hp, k), Other(cfg, t.hp, k), x, p, Notes(path), b)
  }

  /** cuckoopath_move has made position `d` of the path vacant. */
  ghost predicate Shifting(cfg: Config, t: T.Table, k: Key, path: seq<Rec>, d: nat) {
    exists v :: ShiftingFrom(cfg, t, k, path, d, v)
  }

  ghost predicate ShiftingFrom(cfg: Config, t: T.Table, k: Key, path: seq<Rec>, d: nat, v: seq<Bucket>) {
    true == (
      && P.Route(cfg, t.hp, v, Home(cfg, t.hp, k), Other(cfg, t.hp, k), Notes(path), d)
      && P.Moving(cfg, T.View(cfg, t), v, Notes(path), d)
    )
  }

  // ---------- what holds on the way ----------

  /** No other call is in flight. */
  ghost predicate Lone(s: Sys, tid: nat) {
    && tid < |s.threads| && !s.fault
    && forall i :: 0 <= i < |s.threads| && i != tid ==> s.threads[i] == Idle
  }

  /** The goal is still good for the table; `room` says that there was a path at the start. */
  ghost predicate GoalKept(cfg: Config, t: T.Table, op: Op, goal: Goal, room: bool)
    requires !op.Clear?
  {
    match goal
    case Direct => room ==> Roomy(cfg, t, op.k)
    case Visit(_) => false
    case Read(slots, path, b) => Reading(cfg, t, op.k, slots, path, b)
    case Shift(path, d) => Shifting(cfg, t, op.k, path, d)
  }

  /** The thread works with the present table and locks. */
  ghost predicate Fresh(cfg: Config, s: Sys, th: Thread, room: bool) {
    match th
    case Idle => true
    case Snapshot(op) => !op.Clear? && (room ==> Roomy(cfg, s.t, op.k))
    case Fetch(op, hp, goal) => !op.Clear? && hp == s.t.hp && GoalKept(cfg, s.t, op, goal, room)
    case Acquire(op, hp, goal, c, _, _) => !op.Clear? && Current(s, hp, c) && GoalKept(cfg, s.t, op, goal, room)
    case Verify(op, hp, goal, c, _) => !op.Clear? && Current(s, hp, c) && GoalKept(cfg, s.t, op, goal, room)
    case Migrate(op, hp, goal, c, _, _) => !op.Clear? && Current(s, hp, c) && GoalKept(cfg, s.t, op, goal, room)
    case Work(op, hp, goal, c, _) => !op.Clear? && Current(s, hp, c) && GoalKept(cfg, s.t, op, goal, room)
    case Hunt(op, hp) => op.Insert? && hp == s.t.hp && Absent(cfg, s, op) && (room ==> Roomy(cfg, s.t, op.k))
    case Settle(op, hp, c, _, _, _) => Current(s, hp, c)
    case GrabAll(op, hp, _, c, _) =>
      c + 1 == |s.locks| && (op.Clear? || (!room && hp == s.t.hp && Absent(cfg, s, op)))
    case AllHeld(op, hp, _) => op.Clear? || (!room && hp == s.t.hp && Absent(cfg, s, op))
    case Doubling(_, _, stage) => !room && (!stage.Filling? ==> s.t.hp < cfg.maxHp)
  }

  ghost predicate Absent(cfg: Config, s: Sys, op: Op) {
    op.Insert? && op.k !in T.Abs(cfg, s.t)
  }

  /** What a step of the thread may rely on. */
  ghost predicate Known(cfg: Config, s: Sys, tid: nat, th: Thread, room: bool) {
    true == (
      && s.locks != [] && tid < |s.threads| && s.threads[tid] == th && !s.fault
      && ThreadOk(cfg, s, th) && Fresh(cfg, s, th, room)
      && (!th.Doubling? ==> s.front.shown == s.t.hp && !s.front.bare)
    )
  }

  // ---------- how far the thread is ----------

  /** Compared from left to right. */
  datatype Rank = Rank(growth: nat, kind: nat, goal: nat, phase: nat, left: nat)

  predicate Below(r: Rank, q: Rank) {
    if r.growth != q.growth then r.growth < q.growth
    else if r.kind != q.kind then r.kind < q.kind
    else if r.goal != q.goal then r.goal < q.goal
    else if r.phase != q.phase then r.phase < q.phase
    else r.left < q.left
  }

  function Minus(a: nat, b: nat): (d: nat) {
    if a > b then a - b else 0
  }

  function GoalKind(goal: Goal): (k: nat) {
    match goal
    case Direct => 7
    case Visit(_) => 5
    case Read(_, _, _) => 5
    case Shift(_, _) => 4
  }

  function GoalLeft(goal: Goal): (n: nat) {
    match goal
    case Direct => 0
    case Visit(_) => 0
    case Read(slots, path, _) => Minus(|slots|, |path|)
    case Shift(_, d) => d
  }

  ghost function RankOf(cfg: Config, s: Sys, th: Thread): (r: Rank) {
    var growth := Minus(cfg.maxHp, s.t.hp);
    match th
    case Idle => Rank(0, 0, 0, 0, 0)
    case Snapshot(_) => Rank(growth, 8, 0, 0, 0)
    case Fetch(_, _, goal) => Rank(growth, GoalKind(goal), GoalLeft(goal), 5, 0)
    case Acquire(_, _, goal, _, need, got) =>
      Rank(growth, GoalKind(goal), GoalLeft(goal), if got == 0 then 4 else 2, Minus(|need|, got))
    case Verify(_, _, goal, _, _) => Rank(growth, GoalKind(goal), GoalLeft(goal), 3, 0)
    case Migrate(_, _, goal, _, need, m) => Rank(growth, GoalKind(goal), GoalLeft(goal), 1, Minus(|need|, m))
    case Work(_, _, goal, _, _) => Rank(growth, GoalKind(goal), GoalLeft(goal), 0, 0)
    case Hunt(_, _) => Rank(growth, 6, 0, 0, 0)
    case Settle(_, _, _, _, _, _) => Rank(growth, 3, 0, 0, 0)
    case GrabAll(_, _, _, c, l) => Rank(growth, 3, 0, 0, if c < |s.locks| then Minus(|s.locks[c]|, l) else 0)
    case AllHeld(_, _, _) => Rank(growth, 2, 0, 0, 0)
    case Doubling(_, _, stage) => Rank(growth, if stage.Grown? then 1 else if stage.Swapped? then 0 else 9, 0, 0, 0)
  }

  /** The step ends the call or brings the thread closer to its end. */
  ghost predicate Closer(cfg: Config, s: Sys, s': Sys, tid: nat, room: bool)
    requires tid < |s.threads|
  {
    && !s'.fault && |s'.threads| == |s.threads| && (!s.threads[tid].Doubling? ==> s'.t.hp == s.t.hp)
    && var th' := s'.threads[tid];
       th'.Idle? || (Fresh(cfg, s', th', room) && Below(RankOf(cfg, s', th'), RankOf(cfg, s, s.threads[tid])))
  }

  // ---------- taking locks ----------

  /** The lock the thread is about to take is free. */
  ghost predicate CanTake(s: Sys, c: nat, l: nat) {
    c < |s.locks| && l < |s.locks[c]| && s.locks[c][l] == Free
  }

  lemma FreeLock(s: Sys, tid: nat, c: nat, l: nat)
    requires LocksOk(s) && Lone(s, tid) && c < |s.locks| && l < |s.locks[c]| && !Holds(s.threads[tid], c, l)
    ensures CanTake(s, c, l)
  {
    forall i | 0 <= i < |s.threads| ensures s.locks[c][l] != By(i) {
      assert !Holds(s.threads[i], c, l);
    }
  }

  lemma NotHeld(cfg: Config, s: Sys, tid: nat, c: nat, l: nat)
    requires Inv(cfg, s) && tid < |s.threads| && Wants(s, s.threads[tid], c, l)
    ensures !Holds(s.threads[tid], c, l)
  {
    if Holds(s.threads[tid], c, l) {
      WaitsInOrder(cfg, s, tid, c, l, c, l);
    }
  }

  lemma TakesOne(cfg: Config, s: Sys, tid: nat, th: Thread)
    requires Inv(cfg, s) && Lone(s, tid) && s.threads[tid] == th
    ensures th.Acquire? ==> th.got < |th.need| && CanTake(s, th.c, th.need[th.got])
    ensures th.GrabAll? ==> th.c < |s.locks| && (th.l < |s.locks[th.c]| ==> CanTake(s, th.c, th.l))
  {
    assert ThreadOk(cfg, s, th);
    if th.Acquire? {
      NeedInRange(cfg, th.op, th.hp, th.goal);
      assert th.need[th.got] in th.need;
      NotHeld(cfg, s, tid, th.c, th.need[th.got]);
      FreeLock(s, tid, th.c, th.need[th.got]);
    } else if th.GrabAll? && th.l < |s.locks[th.c]| {
      NotHeld(cfg, s, tid, th.c, th.l);
      FreeLock(s, tid, th.c, th.l);
    }
  }

  lemma AcquireCloser(cfg: Config, s: Sys, tid: nat, th: Thread, room: bool)
    requires Known(cfg, s, tid, th, room) && th.Acquire? && th.got < |th.need| && CanTake(s, th.c, th.need[th.got])
    ensures Closer(cfg, s, AcquireStep(s, tid, th), tid, room)
  {
  }

  lemma GrabCloser(cfg: Config, s: Sys, tid: nat, th: Thread, room: bool)
    requires Known(cfg, s, tid, th, room) && th.GrabAll?
    requires th.c < |s.locks| && (th.l < |s.locks[th.c]| ==> CanTake(s, th.c, th.l))
    ensures Closer(cfg, s, GrabStep(s, tid, th), tid, room)
  {
  }

  /** The thread goes on with the same goal. */
  lemma BecomeCloser(cfg: Config, s: Sys, tid: nat, th: Thread, th': Thread, room: bool)
    requires Known(cfg, s, tid, th, room) && !th'.Idle? && Fresh(cfg, s, th', room)
    requires Below(RankOf(cfg, s, th'), RankOf(cfg, s, th))
    ensures Closer(cfg, s, Become(s, tid, th'), tid, room)
  {
  }

  lemma OuterCloser(cfg: Config, s: Sys, tid: nat, th: Thread, ch: Choice, room: bool)
    requires T.Shape(cfg, s.t) && Known(cfg, s, tid, th, room) && (th.Snapshot? || th.Fetch? || th.Verify?)
    ensures Closer(cfg, s, Step(cfg, s, tid, ch), tid, room)
  {
    if th.Snapshot? {
      BecomeCloser(cfg, s, tid, th, Fetch(th.op, s.front.shown, Direct), room);
    } else if th.Fetch? {
      BecomeCloser(cfg, s, tid, th,
                   Acquire(th.op, th.hp, th.goal, |s.locks| - 1, Need(cfg, th.op, th.hp, th.goal), 0), room);
    } else if |th.need| == 1 {
      BecomeCloser(cfg, s, tid, th, Migrate(th.op, th.hp, th.goal, th.c, th.need, 0), room);
    } else {
      BecomeCloser(cfg, s, tid, th, Acquire(th.op, th.hp, th.goal, th.c, th.need, 1), room);
    }
  }

  // ---------- migrating ----------

  lemma GoalSame(cfg: Config, t: T.Table, t': T.Table, op: Op, goal: Goal, room: bool)
    requires !op.Clear? && GoalKept(cfg, t, op, goal, room)
    requires t'.hp == t.hp && T.View(cfg, t') == T.View(cfg, t)
    ensures GoalKept(cfg, t', op, goal, room)
  {
    match goal
    case Direct =>
      if room {
        var x, p :| Leads(cfg, t, op.k, x, p);
        assert Leads(cfg, t', op.k, x, p);
      }
    case Visit(_) =>
    case Read(slots, path, b) =>
      var x, p: S.Path :| p.slots == slots && ReadingAlong(cfg, t, op.k, path, b, x, p);
      assert ReadingAlong(cfg, t', op.k, path, b, x, p);
    case Shift(path, d) =>
      var v :| ShiftingFrom(cfg, t, op.k, path, d, v);
      assert ShiftingFrom(cfg, t', op.k, path, d, v);
  }

  lemma RehashGoal(cfg: Config, t: T.Table, l: nat, op: Op, goal: Goal, room: bool)
    requires T.Inv(cfg, t) && l < |t.mig| && !op.Clear? && GoalKept(cfg, t, op, goal, room)
    ensures !t.mig[l] ==> t.rem > 0
    ensures T.Rehash(cfg, t, l).hp == t.hp && GoalKept(cfg, T.Rehash(cfg, t, l), op, goal, room)
  {
    T.RehashKeeps(cfg, t, l);
    GoalSame(cfg, t, T.Rehash(cfg, t, l), op, goal, room);
  }

  lemma MigrateMore(cfg: Config, s: Sys, tid: nat, th: Thread, t': T.Table, room: bool)
    requires Known(cfg, s, tid, th, room) && th.Migrate? && th.m < |th.need| && !th.op.Clear?
    requires t'.hp == s.t.hp && GoalKept(cfg, t', th.op, th.goal, room)
    ensures Closer(cfg, s, Become(s.(t := t'), tid, th.(m := th.m + 1)), tid, room)
  {
  }

  lemma MigrateLast(cfg: Config, s: Sys, tid: nat, th: Thread, room: bool)
    requires Known(cfg, s, tid, th, room) && th.Migrate? && th.m >= |th.need|
    ensures Closer(cfg, s, MigrateStep(cfg, s, tid, th), tid, room)
  {
  }

  lemma MigratesOne(cfg: Config, s: Sys, tid: nat, th: Thread)
    requires tid < |s.threads| && th.Migrate? && th.m < |th.need| && th.need[th.m] < |s.t.mig|
    requires !Astray(s, th.hp, th.c) && (!s.t.mig[th.need[th.m]] ==> s.t.rem > 0)
    ensures MigrateStep(cfg, s, tid, th)
            == Become(s.(t := T.Rehash(cfg, s.t, th.need[th.m])), tid, th.(m := th.m + 1))
  {
  }

  lemma MigrateCloser(cfg: Config, s: Sys, tid: nat, th: Thread, room: bool)
    requires T.Inv(cfg, s.t) && Known(cfg, s, tid, th, room) && th.Migrate?
    requires th.m < |th.need| ==> th.need[th.m] < |s.t.mig|
    ensures Closer(cfg, s, MigrateStep(cfg, s, tid, th), tid, room)
  {
    if th.m < |th.need| {
      RehashGoal(cfg, s.t, th.need[th.m], th.op, th.goal, room);
      MigratesOne(cfg, s, tid, th);
      MigrateMore(cfg, s, tid, th, T.Rehash(cfg, s.t, th.need[th.m]), room);
    } else {
      MigrateLast(cfg, s, tid, th, room);
    }
  }

  // ---------- reading the path ----------

  /** A bucket whose lock is among those migrated. */
  lemma Ready(cfg: Config, t: T.Table, need: seq<nat>, b: nat)
    requires b < |t.cur| && MigratedAll(t, need, |need|) && cfg.lock(b) in need
    ensures !T.Pending(cfg, t, b) && T.View(cfg, t)[b] == t.cur[b]
  {
    T.ViewAt(cfg, t, b);
  }

  /** The next goal comes after this one. */
  predicate Nearer(g: Goal, g': Goal) {
    GoalKind(g') < GoalKind(g) || (GoalKind(g') == GoalKind(g) && GoalLeft(g') < GoalLeft(g))
  }

  ghost predicate Sound(cfg: Config, t: T.Table) {
    true == T.Inv(cfg, t)
  }

  /** The slot is vacant: the path ends here, and moving along it may begin. */
  lemma ReadsEnd(cfg: Config, t: T.Table, k: Key, path: seq<Rec>, b: nat, x: S.Item, p: S.Path, r: Rec)
    requires T.Inv(cfg, t) && ReadingAlong(cfg, t, k, path, b, x, p)
    requires |path| < |p.slots| && r == Rec(b, p.slots[|path|], 0)
    requires b < |t.cur| && p.slots[|path|] < |t.cur[b]| && T.View(cfg, t)[b] == t.cur[b]
    requires t.cur[b][p.slots[|path|]].Vacant?
    ensures Shifting(cfg, t, k, path + [r], |path|)
  {
    var v, i1, i2 := T.View(cfg, t), Home(cfg, t.hp, k), Other(cfg, t.hp, k);
    P.WalksOn(cfg, t.hp, v, i1, i2, x, p, Notes(path), b);
    NotesNext(path, r);
    P.FoundRoute(cfg, t, i1, i2, x, p, Notes(path + [r]));
    assert ShiftingFrom(cfg, t, k, path + [r], |path|, v);
  }

  /** The slot is occupied: the other bucket of its entry comes next. */
  lemma ReadsFurther(cfg: Config, t: T.Table, k: Key, path: seq<Rec>, b: nat, x: S.Item, p: S.Path, r: Rec)
    requires ReadingAlong(cfg, t, k, path, b, x, p) && |path| < |p.slots|
    requires b < |t.cur| && p.slots[|path|] < |t.cur[b]| && T.View(cfg, t)[b] == t.cur[b]
    requires t.cur[b][p.slots[|path|]].Full?
    requires r == Rec(b, p.slots[|path|], cfg.hash(t.cur[b][p.slots[|path|]].e.key))
    ensures |path| + 1 < |p.slots|
    ensures ReadingAlong(cfg, t, k, path + [r], cfg.alt(t.hp, cfg.partial(r.hash), b), x, p)
  {
    P.WalksOn(cfg, t.hp, T.View(cfg, t), Home(cfg, t.hp, k), Other(cfg, t.hp, k), x, p, Notes(path), b);
    NotesNext(path, r);
  }

  lemma ReadRange(cfg: Config, t: T.Table, k: Key, path: seq<Rec>, b: nat, x: S.Item, p: S.Path)
    requires ReadingAlong(cfg, t, k, path, b, x, p)
    ensures |path| < |p.slots| && b < |t.cur| && p.slots[|path|] < |T.View(cfg, t)[b]|
  {
    P.WalksOn(cfg, t.hp, T.View(cfg, t), Home(cfg, t.hp, k), Other(cfg, t.hp, k), x, p, Notes(path), b);
  }

  lemma ReadOne(cfg: Config, t: T.Table, op: Op, g: Goal, x: S.Item, p: S.Path, room: bool)
    requires Sound(cfg, t) && !op.Clear? && g.Read? && p.slots == g.slots
    requires ReadingAlong(cfg, t, op.k, g.path, g.b, x, p)
    requires |g.path| < |g.slots| && g.b < |t.cur| && g.slots[|g.path|] < |t.cur[g.b]|
    requires T.View(cfg, t)[g.b] == t.cur[g.b]
    ensures var g' := ReadGoal(cfg, t.hp, g, t.cur[g.b][g.slots[|g.path|]]);
            Nearer(g, g') && GoalKept(cfg, t, op, g', room)
  {
    var Read(slots, path, b) := g;
    var y := t.cur[b][slots[|path|]];
    if y.Vacant? {
      ReadsEnd(cfg, t, op.k, path, b, x, p, Rec(b, slots[|path|], 0));
    } else {
      ReadsFurther(cfg, t, op.k, path, b, x, p, Rec(b, slots[|path|], cfg.hash(y.e.key)));
    }
  }

  lemma ReadNext(cfg: Config, t: T.Table, op: Op, g: Goal, need: seq<nat>, room: bool)
    requires Sound(cfg, t) && !op.Clear? && g.Read? && GoalKept(cfg, t, op, g, room)
    requires MigratedAll(t, need, |need|) && g.b < |t.cur| && cfg.lock(g.b) in need
    ensures |g.path| < |g.slots| && g.slots[|g.path|] < |t.cur[g.b]|
    ensures var g' := ReadGoal(cfg, t.hp, g, t.cur[g.b][g.slots[|g.path|]]);
            Nearer(g, g') && GoalKept(cfg, t, op, g', room)
  {
    var x, p: S.Path :| p.slots == g.slots && ReadingAlong(cfg, t, op.k, g.path, g.b, x, p);
    Ready(cfg, t, need, g.b);
    ReadRange(cfg, t, op.k, g.path, g.b, x, p);
    ReadOne(cfg, t, op, g, x, p, room);
  }

  /** The thread lets its locks go and turns to the next goal. */
  lemma LeaveCloser(cfg: Config, s: Sys, tid: nat, th: Thread, t': T.Table, g: Goal, room: bool)
    requires Known(cfg, s, tid, th, room) && th.Work? && !th.op.Clear? && t'.hp == s.t.hp
    requires Nearer(th.goal, g) && GoalKept(cfg, t', th.op, g, room)
    ensures Closer(cfg, s, Leave(s.(t := t'), tid, Fetch(th.op, th.hp, g)), tid, room)
  {
  }

  lemma ReadCloser(cfg: Config, s: Sys, tid: nat, th: Thread, room: bool)
    requires T.Inv(cfg, s.t) && Known(cfg, s, tid, th, room) && th.Work? && th.goal.Read?
    ensures Closer(cfg, s, ReadStep(cfg, s, tid, th), tid, room)
  {
    ReadNext(cfg, s.t, th.op, th.goal, th.need, room);
    var g := ReadGoal(cfg, th.hp, th.goal, s.t.cur[th.goal.b][th.goal.slots[|th.goal.path|]]);
    LeaveCloser(cfg, s, tid, th, s.t, g, room);
  }

  // ---------- moving along the path ----------

  lemma ShiftsOn(cfg: Config, t: T.Table, k: Key, path: seq<Rec>, d: nat, v: seq<Bucket>)
    requires T.Inv(cfg, t) && ShiftingFrom(cfg, t, k, path, d, v) && 1 <= d < |path|
    requires !T.Pending(cfg, t, path[d - 1].bucket) && !T.Pending(cfg, t, path[d].bucket)
    ensures StillGood(cfg, t, path[d - 1], path[d])
    ensures Shifting(cfg, T.Displace(t, path[d - 1].bucket, path[d - 1].slot, path[d].bucket, path[d].slot), k, path,
                     d - 1)
  {
    var ns := Notes(path);
    assert P.Linked(cfg, t.hp, v, ns, d - 1);
    P.MoveStep(cfg, t, v, ns, d);
    var t' := T.Displace(t, path[d - 1].bucket, path[d - 1].slot, path[d].bucket, path[d].slot);
    assert ShiftingFrom(cfg, t', k, path, d - 1, v);
  }

  lemma OpenStart(cfg: Config, t: T.Table, k: Key, path: seq<Rec>, v: seq<Bucket>)
    requires T.Shape(cfg, t) && ShiftingFrom(cfg, t, k, path, 0, v) && path != []
    requires path[0].bucket < |t.cur| && T.View(cfg, t)[path[0].bucket] == t.cur[path[0].bucket]
    ensures path[0].slot < |t.cur[path[0].bucket]| && t.cur[path[0].bucket][path[0].slot] == Vacant
  {
  }

  /** The locks held cover the positions concerned. */
  lemma ShiftLocks(cfg: Config, t: T.Table, op: Op, path: seq<Rec>, d: nat)
    requires GoalOk(cfg, op, t.hp, Shift(path, d))
    ensures cfg.lock(path[d].bucket) in Need(cfg, op, t.hp, Shift(path, d))
    ensures d >= 1 ==> cfg.lock(path[d - 1].bucket) in Need(cfg, op, t.hp, Shift(path, d))
  {
    assert Placed(cfg, t.hp, op.k, path[0].bucket);
  }

  lemma ShiftNext(cfg: Config, t: T.Table, op: Op, path: seq<Rec>, d: nat, need: seq<nat>)
    requires T.Inv(cfg, t) && GoalOk(cfg, op, t.hp, Shift(path, d)) && Shifting(cfg, t, op.k, path, d)
    requires need == Need(cfg, op, t.hp, Shift(path, d)) && MigratedAll(t, need, |need|)
    ensures path[d].bucket < |t.cur| && path[d].slot < |t.cur[path[d].bucket]|
            && t.cur[path[d].bucket][path[d].slot] == Vacant
    ensures d >= 1 ==> StillGood(cfg, t, path[d - 1], path[d])
    ensures d >= 1 ==> path[d - 1].bucket < |t.cur| && path[d - 1].slot < |t.cur[path[d - 1].bucket]|
    ensures d >= 1 ==> Shifting(cfg, T.Displace(t, path[d - 1].bucket, path[d - 1].slot, path[d].bucket, path[d].slot),
                                op.k, path, d - 1)
  {
    var v :| ShiftingFrom(cfg, t, op.k, path, d, v);
    ShiftLocks(cfg, t, op, path, d);
    Ready(cfg, t, need, path[d].bucket);
    if d >= 1 {
      Ready(cfg, t, need, path[d - 1].bucket);
      ShiftsOn(cfg, t, op.k, path, d, v);
    } else {
      OpenStart(cfg, t, op.k, path, v);
    }
  }

  /** A slot of the key is free: the insertion is about to end. */
  lemma SettleNext(cfg: Config, s: Sys, tid: nat, th: Thread, t': T.Table, locks: seq<seq<Owner>>, th': Thread,
                   room: bool)
    requires Known(cfg, s, tid, th, room) && th.Work? && th.goal.Shift?
    requires th'.Settle? && th'.hp == th.hp && th'.c == th.c && t'.hp == s.t.hp && |locks| == |s.locks|
    ensures Closer(cfg, s, s.(t := t', locks := locks, threads := s.threads[tid := th']), tid, room)
  {
  }

  lemma ShiftIs(cfg: Config, s: Sys, tid: nat, th: Thread, t': T.Table)
    requires tid < |s.threads| && th.Work? && th.goal.Shift? && !th.op.Clear?
    requires var Shift(path, d) := th.goal;
             && 1 <= d < |path| && StillGood(cfg, s.t, path[d - 1], path[d])
             && t' == T.Displace(s.t, path[d - 1].bucket, path[d - 1].slot, path[d].bucket, path[d].slot)
    ensures var Shift(path, d) := th.goal;
            var own := Need(cfg, th.op, th.hp, Direct);
            ShiftStep(cfg, s, tid, th)
            == if d >= 2 then Leave(s.(t := t'), tid, Fetch(th.op, th.hp, Shift(path, d - 1)))
               else s.(t := t', locks := Release(s.locks, tid, th.c, own),
                       threads := s.threads[tid := Settle(th.op, th.hp, th.c, own, path[0].bucket, path[0].slot)])
  {
  }

  lemma ShiftMoves(cfg: Config, s: Sys, tid: nat, th: Thread, t': T.Table, path: seq<Rec>, d: nat, room: bool)
    requires Known(cfg, s, tid, th, room) && th.Work? && th.goal == Shift(path, d) && !th.op.Clear? && d >= 2
    requires t'.hp == s.t.hp && Shifting(cfg, t', th.op.k, path, d - 1)
    requires ShiftStep(cfg, s, tid, th) == Leave(s.(t := t'), tid, Fetch(th.op, th.hp, Shift(path, d - 1)))
    ensures Closer(cfg, s, ShiftStep(cfg, s, tid, th), tid, room)
  {
    LeaveCloser(cfg, s, tid, th, t', Shift(path, d - 1), room);
  }

  lemma ShiftEnds(cfg: Config, s: Sys, tid: nat, th: Thread, room: bool)
    requires Known(cfg, s, tid, th, room) && th.Work? && th.goal.Shift? && !th.op.Clear?
    requires th.goal.depth == 0 && th.goal.path != []
    requires var r := th.goal.path[0];
             r.bucket < |s.t.cur| && r.slot < |s.t.cur[r.bucket]| && s.t.cur[r.bucket][r.slot] == Vacant
    ensures Closer(cfg, s, ShiftStep(cfg, s, tid, th), tid, room)
  {
    var r := th.goal.path[0];
    SettleNext(cfg, s, tid, th, s.t, s.locks, Settle(th.op, th.hp, th.c, th.need, r.bucket, r.slot), room);
  }

  lemma ShiftCloser(cfg: Config, s: Sys, tid: nat, th: Thread, room: bool)
    requires T.Inv(cfg, s.t) && Known(cfg, s, tid, th, room) && th.Work? && th.goal.Shift?
    ensures Closer(cfg, s, ShiftStep(cfg, s, tid, th), tid, room)
  {
    var Shift(path, d) := th.goal;
    ShiftNext(cfg, s.t, th.op, path, d, th.need);
    if d == 0 {
      ShiftEnds(cfg, s, tid, th, room);
    } else {
      var t' := T.Displace(s.t, path[d - 1].bucket, path[d - 1].slot, path[d].bucket, path[d].slot);
      ShiftIs(cfg, s, tid, th, t');
      if d >= 2 {
        ShiftMoves(cfg, s, tid, th, t', path, d, room);
      } else {
        var own := Need(cfg, th.op, th.hp, Direct);
        SettleNext(cfg, s, tid, th, t', Release(s.locks, tid, th.c, own),
                   Settle(th.op, th.hp, th.c, own, path[0].bucket, path[0].slot), room);
      }
    }
  }

  // ---------- looking for a path, doubling, finishing ----------

  /** What slot_search does: it returns a path if there is one and gives up otherwise. */
  ghost predicate Seeks(cfg: Config, t: T.Table, k: Key, ch: Choice) {
    if Roomy(cfg, t, k) then ch.Follow? && exists x :: Leads(cfg, t, k, x, S.Path(ch.second, ch.slots))
    else ch.GiveUp?
  }

  lemma NoneLeads(cfg: Config, t: T.Table, k: Key, x: S.Item, p: S.Path)
    requires S.NoPath(cfg, t.hp, T.View(cfg, t), Home(cfg, t.hp, k), Other(cfg, t.hp, k))
    ensures !Leads(cfg, t, k, x, p)
  {
    if p.slots != [] && S.Digits(cfg.slots, p) && |p.slots| <= cfg.pathLen {
      assert S.EndsFull(cfg, t.hp, T.View(cfg, t), Home(cfg, t.hp, k), Other(cfg, t.hp, k), S.Front(p));
    }
  }

  /** The two outcomes of slot_search are what is asked of it here. */
  lemma SearchSeeks(cfg: Config, t: T.Table, k: Key)
    ensures forall x, p :: Leads(cfg, t, k, x, p) ==> Seeks(cfg, t, k, Follow(p.second, p.slots))
    ensures S.NoPath(cfg, t.hp, T.View(cfg, t), Home(cfg, t.hp, k), Other(cfg, t.hp, k)) ==>
              Seeks(cfg, t, k, GiveUp)
  {
    if S.NoPath(cfg, t.hp, T.View(cfg, t), Home(cfg, t.hp, k), Other(cfg, t.hp, k)) {
      forall x, p ensures !Leads(cfg, t, k, x, p) {
        NoneLeads(cfg, t, k, x, p);
      }
    }
    forall x, p | Leads(cfg, t, k, x, p) ensures Seeks(cfg, t, k, Follow(p.second, p.slots)) {
      assert Leads(cfg, t, k, x, S.Path(p.second, p.slots));
    }
  }

  lemma ReadStart(cfg: Config, t: T.Table, k: Key, x: S.Item, p: S.Path)
    requires T.Shape(cfg, t) && Leads(cfg, t, k, x, p)
    ensures Reading(cfg, t, k, p.slots, [], S.StartOf(Home(cfg, t.hp, k), Other(cfg, t.hp, k), p))
    ensures 1 <= |p.slots| <= cfg.pathLen && forall i :: 0 <= i < |p.slots| ==> p.slots[i] < cfg.slots
  {
    P.ViewGrid(cfg, t);
    assert p.slots[..0] == [];
    assert ReadingAlong(cfg, t, k, [], S.StartOf(Home(cfg, t.hp, k), Other(cfg, t.hp, k), p), x, p);
  }

  lemma FollowCloser(cfg: Config, s: Sys, tid: nat, th: Thread, ch: Choice, x: S.Item, room: bool)
    requires T.Shape(cfg, s.t) && Known(cfg, s, tid, th, room) && th.Hunt? && th.op.Insert? && ch.Follow?
    requires Leads(cfg, s.t, th.op.k, x, S.Path(ch.second, ch.slots))
    ensures Closer(cfg, s, HuntStep(cfg, s, tid, th, ch), tid, room)
  {
    var p := S.Path(ch.second, ch.slots);
    ReadStart(cfg, s.t, th.op.k, x, p);
    var b := S.StartOf(Home(cfg, s.t.hp, th.op.k), Other(cfg, s.t.hp, th.op.k), p);
    BecomeCloser(cfg, s, tid, th, Fetch(th.op, th.hp, Read(ch.slots, [], b)), room);
  }

  lemma HuntCloser(cfg: Config, s: Sys, tid: nat, th: Thread, ch: Choice, room: bool)
    requires T.Shape(cfg, s.t) && Known(cfg, s, tid, th, room) && th.Hunt? && th.op.Insert?
    requires Seeks(cfg, s.t, th.op.k, ch)
    ensures Closer(cfg, s, HuntStep(cfg, s, tid, th, ch), tid, room)
  {
    if ch.Follow? {
      var x :| Leads(cfg, s.t, th.op.k, x, S.Path(ch.second, ch.slots));
      FollowCloser(cfg, s, tid, th, ch, x, room);
    } else {
      BecomeCloser(cfg, s, tid, th, GrabAll(th.op, th.hp, |s.locks| - 1, |s.locks| - 1, 0), room);
    }
  }

  lemma AllHeldCloser(cfg: Config, s: Sys, tid: nat, th: Thread, room: bool)
    requires Known(cfg, s, tid, th, room) && th.AllHeld?
    ensures Closer(cfg, s, AllHeldStep(cfg, s, tid, th), tid, room)
  {
  }

  lemma DoublingCloser(cfg: Config, s: Sys, tid: nat, th: Thread, room: bool)
    requires Known(cfg, s, tid, th, room) && th.Doubling?
    ensures Closer(cfg, s, DoublingStep(cfg, s, tid, th), tid, room)
  {
  }

  lemma DirectKeeps(cfg: Config, s: Sys, tid: nat, th: Thread)
    requires tid < |s.threads| && T.Shape(cfg, s.t) && th.Work? && !th.op.Clear?
    ensures var s' := DirectStep(cfg, s, tid, th);
            s'.fault == s.fault && |s'.threads| == |s.threads| && s'.t.hp == s.t.hp
  {
  }

  lemma SettleKeeps(cfg: Config, s: Sys, tid: nat, th: Thread)
    requires tid < |s.threads| && T.Shape(cfg, s.t) && th.Settle? && th.op.Insert?
    ensures var s' := SettleStep(cfg, s, tid, th);
            s'.fault == s.fault && |s'.threads| == |s.threads| && s'.t.hp == s.t.hp
  {
  }

  // ---------- every step ----------

  lemma Knows(cfg: Config, s: Sys, tid: nat, room: bool)
    requires Inv(cfg, s) && Lone(s, tid) && Fresh(cfg, s, s.threads[tid], room)
    ensures T.Inv(cfg, s.t) && Known(cfg, s, tid, s.threads[tid], room)
  {
    var th := s.threads[tid];
    assert ThreadOk(cfg, s, th);
    if !th.Doubling? {
      assert NoDoubling(s.threads);
    }
  }

  lemma DirectCloser(cfg: Config, s: Sys, tid: nat, ch: Choice, room: bool)
    requires Inv(cfg, s) && Lone(s, tid) && Known(cfg, s, tid, s.threads[tid], room)
    requires s.threads[tid].Settle? || (s.threads[tid].Work? && s.threads[tid].goal.Direct?)
    ensures Closer(cfg, s, Step(cfg, s, tid, ch), tid, room)
  {
    var th := s.threads[tid];
    HolderStep(cfg, s, tid, ch);
    if th.Settle? {
      SettleAnswers(cfg, s, tid, ch);
      SettleKeeps(cfg, s, tid, th);
    } else {
      DirectAnswers(cfg, s, tid, ch);
      DirectKeeps(cfg, s, tid, th);
    }
  }

  lemma WorkCloser(cfg: Config, s: Sys, tid: nat, ch: Choice, room: bool)
    requires Inv(cfg, s) && Lone(s, tid) && T.Inv(cfg, s.t) && Known(cfg, s, tid, s.threads[tid], room)
    requires s.threads[tid].Work?
    ensures Closer(cfg, s, Step(cfg, s, tid, ch), tid, room)
  {
    var th := s.threads[tid];
    if th.goal.Direct? {
      DirectCloser(cfg, s, tid, ch, room);
    } else {
      HolderStep(cfg, s, tid, ch);
      if th.goal.Read? {
        ReadCloser(cfg, s, tid, th, room);
      } else {
        ShiftCloser(cfg, s, tid, th, room);
      }
    }
  }

  lemma MigrateReady(cfg: Config, s: Sys, tid: nat)
    requires Inv(cfg, s) && tid < |s.threads| && s.threads[tid].Migrate?
    ensures var th := s.threads[tid]; th.m < |th.need| ==> th.need[th.m] < |s.t.mig|
  {
    if s.threads[tid].m < |s.threads[tid].need| {
      MigrateOne(cfg, s, tid);
    }
  }

  lemma StepCloser(cfg: Config, s: Sys, tid: nat, ch: Choice, room: bool)
    requires Inv(cfg, s) && Lone(s, tid) && Fresh(cfg, s, s.threads[tid], room) && !s.threads[tid].Idle?
    requires s.threads[tid].Hunt? ==> Seeks(cfg, s.t, s.threads[tid].op.k, ch)
    ensures Closer(cfg, s, Step(cfg, s, tid, ch), tid, room)
  {
    var th := s.threads[tid];
    Knows(cfg, s, tid, room);
    TakesOne(cfg, s, tid, th);
    if th.Work? {
      WorkCloser(cfg, s, tid, ch, room);
    } else if th.Settle? {
      DirectCloser(cfg, s, tid, ch, room);
    } else if th.Snapshot? || th.Fetch? || th.Verify? {
      OuterCloser(cfg, s, tid, th, ch, room);
    } else if th.Acquire? {
      AcquireCloser(cfg, s, tid, th, room);
    } else if th.Hunt? {
      HuntCloser(cfg, s, tid, th, ch, room);
    } else {
      HolderStep(cfg, s, tid, ch);
      if th.Migrate? {
        MigrateReady(cfg, s, tid);
        MigrateCloser(cfg, s, tid, th, room);
      } else if th.GrabAll? {
        GrabCloser(cfg, s, tid, th, room);
      } else if th.AllHeld? {
        AllHeldCloser(cfg, s, tid, th, room);
      } else {
        DoublingCloser(cfg, s, tid, th, room);
      }
    }
  }

  // ---------- the call ends ----------

  /** The call of `op`, made in state `s0`, is in progress. */
  ghost predicate OnTheWay(cfg: Config, s0: Sys, op: Op, tid: nat, room: bool, s: Sys) {
    true == (
      && Inv(cfg, s) && Lone(s, tid) && Fresh(cfg, s, s.threads[tid], room)
      && !s.threads[tid].Idle? && s.threads[tid].op == op && s.log == s0.log && (room ==> s.t.hp == s0.t.hp)
    )
  }

  /** It has ended, with one more event in the history. */
  ghost predicate Ended(cfg: Config, s0: Sys, op: Op, tid: nat, room: bool, s: Sys) {
    true == (
      && Inv(cfg, s) && Lone(s, tid) && s.threads[tid].Idle? && (room ==> s.t.hp == s0.t.hp)
      && |s.log| == |s0.log| + 1 && s.log == s0.log + [s.log[|s0.log|]]
      && s.log[|s0.log|].tid == tid && s.log[|s0.log|].op == op
      && (s.log[|s0.log|].res == Threw ==>
            !room && op.Insert? && op.k !in Replay(s0.log) && s.t.hp >= cfg.maxHp)
    )
  }

  ghost predicate Picks(cfg: Config, tid: nat, pick: Sys -> Choice, s: Sys) {
    tid < |s.threads| && s.threads[tid].Hunt? && s.threads[tid].op.Insert? ==>
      Seeks(cfg, s.t, s.threads[tid].op.k, pick(s))
  }

  lemma ThrowsAbsent(cfg: Config, s: Sys, tid: nat, room: bool)
    requires Inv(cfg, s) && tid < |s.threads| && Fresh(cfg, s, s.threads[tid], room)
    requires var th := s.threads[tid]; th.AllHeld? && th.op.Insert? && th.hp + 1 > cfg.maxHp
    ensures !room && s.threads[tid].op.k !in Replay(s.log) && s.t.hp >= cfg.maxHp
  {
  }

  /** A step that does not throw, or throws at the maximum. */
  ghost predicate AtMaximum(cfg: Config, s: Sys, s': Sys, op: Op, room: bool) {
    Throws(s, s') ==> !room && op.Insert? && op.k !in Replay(s.log) && s'.t.hp >= cfg.maxHp
  }

  lemma GoesOn(cfg: Config, s0: Sys, op: Op, tid: nat, room: bool, s: Sys, s': Sys, ch: Choice)
    requires tid < |s.threads| && !s.threads[tid].Idle? && s.threads[tid].op == op && Lone(s, tid)
    requires s.log == s0.log && (room ==> s.t.hp == s0.t.hp) && (s.threads[tid].Doubling? ==> !room)
    requires Inv(cfg, s') && Answers(s, s', tid, ch) && Closer(cfg, s, s', tid, room)
    requires AtMaximum(cfg, s, s', op, room)
    ensures || Ended(cfg, s0, op, tid, room, s')
            || (OnTheWay(cfg, s0, op, tid, room, s')
                && Below(RankOf(cfg, s', s'.threads[tid]), RankOf(cfg, s, s.threads[tid])))
  {
  }

  lemma StepRight(cfg: Config, s: Sys, tid: nat, room: bool, ch: Choice)
    requires Inv(cfg, s) && Lone(s, tid) && Fresh(cfg, s, s.threads[tid], room) && !s.threads[tid].Idle?
    ensures AtMaximum(cfg, s, Step(cfg, s, tid, ch), s.threads[tid].op, room)
  {
    ThrowsExactly(cfg, s, tid, ch);
    StepAnswers(cfg, s, tid, ch);
    if Throws(s, Step(cfg, s, tid, ch)) {
      ThrowsAbsent(cfg, s, tid, room);
    }
  }

  lemma StepOn(cfg: Config, s0: Sys, op: Op, tid: nat, room: bool, s: Sys, ch: Choice)
    requires OnTheWay(cfg, s0, op, tid, room, s)
    requires s.threads[tid].Hunt? && s.threads[tid].op.Insert? ==> Seeks(cfg, s.t, s.threads[tid].op.k, ch)
    ensures T.Shape(cfg, s.t)
    ensures var s' := Step(cfg, s, tid, ch);
            || Ended(cfg, s0, op, tid, room, s')
            || (OnTheWay(cfg, s0, op, tid, room, s')
                && Below(RankOf(cfg, s', s'.threads[tid]), RankOf(cfg, s, s.threads[tid])))
  {
    StepInv(cfg, s, tid, ch);
    StepCloser(cfg, s, tid, ch, room);
    StepAnswers(cfg, s, tid, ch);
    StepRight(cfg, s, tid, room, ch);
    GoesOn(cfg, s0, op, tid, room, s, Step(cfg, s, tid, ch), ch);
  }

  ghost function Iterate<X>(step: X -> X, x: X, n: nat): (x': X)
    decreases n
  {
    if n == 0 then x else Iterate(step, step(x), n - 1)
  }

  /** Each step either ends the matter or keeps `keeps` and lowers `rank`. */
  ghost predicate Descent<X>(keeps: X -> bool, ends: X -> bool, rank: X -> Rank, step: X -> X, x: X) {
    keeps(x) ==> ends(step(x)) || (keeps(step(x)) && Below(rank(step(x)), rank(x)))
  }

  lemma {:induction false} FiniteDescent<X(!new)>(keeps: X -> bool, ends: X -> bool, rank: X -> Rank, step: X -> X,
                                                  x: X, r: Rank)
    returns (n: nat)
    requires forall y {:trigger Descent(keeps, ends, rank, step, y)} :: Descent(keeps, ends, rank, step, y)
    requires keeps(x) && r == rank(x)
    ensures ends(Iterate(step, x, n))
    decreases r.growth, r.kind, r.goal, r.phase, r.left
  {
    assert Descent(keeps, ends, rank, step, x);
    if ends(step(x)) {
      n := 1;
      assert Iterate(step, step(x), 0) == step(x);
    } else {
      n := FiniteDescent(keeps, ends, rank, step, step(x), rank(step(x)));
      n := n + 1;
    }
  }

  /** The state after `n` steps of thread `tid`. */
  ghost function Alone(cfg: Config, s: Sys, tid: nat, pick: Sys -> Choice, n: nat): (s': Sys) {
    Iterate((x: Sys) => if T.Shape(cfg, x.t) then Step(cfg, x, tid, pick(x)) else x, s, n)
  }

  ghost function RankIn(cfg: Config, tid: nat, s: Sys): (r: Rank) {
    if tid < |s.threads| then RankOf(cfg, s, s.threads[tid]) else Rank(0, 0, 0, 0, 0)
  }

  lemma {:induction false} Ends(cfg: Config, s0: Sys, op: Op, tid: nat, room: bool, s: Sys, pick: Sys -> Choice)
    returns (n: nat)
    requires OnTheWay(cfg, s0, op, tid, room, s)
    requires forall x {:trigger Picks(cfg, tid, pick, x)} :: Picks(cfg, tid, pick, x)
    ensures Ended(cfg, s0, op, tid, room, Alone(cfg, s, tid, pick, n))
  {
    var keeps, ends := (x: Sys) => OnTheWay(cfg, s0, op, tid, room, x), (x: Sys) => Ended(cfg, s0, op, tid, room, x);
    var rank := (x: Sys) => RankIn(cfg, tid, x);
    var step := (x: Sys) => if T.Shape(cfg, x.t) then Step(cfg, x, tid, pick(x)) else x;
    forall x ensures Descent(keeps, ends, rank, step, x) {
      if OnTheWay(cfg, s0, op, tid, room, x) {
        assert Picks(cfg, tid, pick, x);
        StepOn(cfg, s0, op, tid, room, x, pick(x));
      }
    }
    n := FiniteDescent(keeps, ends, rank, step, s, rank(s));
    assert Alone(cfg, s, tid, pick, n) == Iterate(step, s, n);
  }

  ghost predicate AllIdle(s: Sys) {
    forall i :: 0 <= i < |s.threads| ==> s.threads[i] == Idle
  }

  /** The key of an insertion has a way into the table without a doubling. */
  ghost predicate HasRoom(cfg: Config, t: T.Table, op: Op) {
    op.Insert? && Roomy(cfg, t, op.k)
  }

  lemma Begins(cfg: Config, s: Sys, tid: nat, op: Op)
    requires Inv(cfg, s) && tid < |s.threads| && AllIdle(s) && !s.fault
    ensures T.Shape(cfg, s.t) && OnTheWay(cfg, s, op, tid, HasRoom(cfg, s.t, op), Step(cfg, s, tid, Invoke(op)))
  {
    StepInv(cfg, s, tid, Invoke(op));
  }

  /** The outcome of a call of `op` made in state `s`. */
  ghost predicate Outcome(cfg: Config, s: Sys, op: Op, tid: nat, s': Sys, res: Res) {
    && AllIdle(s') && s'.log == s.log + [Event(tid, op, res)] && Inv(cfg, s')
    && (res == Threw ==> op.Insert? && op.k !in T.Abs(cfg, s.t) && s'.t.hp >= cfg.maxHp)
    && (res != Threw ==> res == Result(T.Abs(cfg, s.t), op))
    && T.Abs(cfg, s'.t) == After(T.Abs(cfg, s.t), op, res)
    && (HasRoom(cfg, s.t, op) ==> res != Threw && s'.t.hp == s.t.hp)
  }

  lemma EndedIs(cfg: Config, s: Sys, op: Op, tid: nat, s': Sys) returns (res: Res)
    requires Inv(cfg, s) && Ended(cfg, s, op, tid, HasRoom(cfg, s.t, op), s')
    ensures Outcome(cfg, s, op, tid, s', res)
  {
    var e := s'.log[|s.log|];
    res := e.res;
    assert s'.log[..|s.log|] == s.log;
  }

  lemma {:induction false} CallEnds(cfg: Config, s: Sys, tid: nat, op: Op, pick: Sys -> Choice)
    returns (n: nat, res: Res)
    requires Inv(cfg, s) && tid < |s.threads| && AllIdle(s) && !s.fault
    requires forall x {:trigger Picks(cfg, tid, pick, x)} :: Picks(cfg, tid, pick, x)
    ensures T.Shape(cfg, s.t) && Outcome(cfg, s, op, tid, Alone(cfg, Step(cfg, s, tid, Invoke(op)), tid, pick, n), res)
  {
    Begins(cfg, s, tid, op);
    var s1 := Step(cfg, s, tid, Invoke(op));
    n := Ends(cfg, s, op, tid, HasRoom(cfg, s.t, op), s1, pick);
    res := EndedIs(cfg, s, op, tid, Alone(cfg, s1, tid, pick, n));
  }

  /** In every run, for every hash function and every size of the table: a call made while no other is in flight, and
      left to run alone, ends.  Unless it throws, it has the result of a sequential map; in any case it leaves the map
      that follows.  It throws only if it is the insertion of an absent key and the table is at its maximum.  An
      insertion that has a path to a vacant slot when it is made neither throws nor doubles the table. */
  lemma {:induction false} CallCompletes(hash: Key -> U64, slots: nat, pathLen: nat, lockBits: nat, maxHp: nat,
                                         simple: bool, hp: nat, n: nat, schedule: seq<(nat, Choice)>, tid: nat, op: Op,
                                         pick: Sys -> Choice)
    returns (steps: nat, res: Res)
    requires slots >= 1 && pathLen >= 1
    requires var cfg := Libcuckoo(hash, slots, pathLen, lockBits, maxHp, simple);
             var s := Run(cfg, Init(cfg, hp, n), schedule);
             && AllIdle(s) && !s.fault && tid < |s.threads|
             && forall x {:trigger Picks(cfg, tid, pick, x)} :: Picks(cfg, tid, pick, x)
    ensures var cfg := Libcuckoo(hash, slots, pathLen, lockBits, maxHp, simple);
            var s := Run(cfg, Init(cfg, hp, n), schedule);
            && T.Shape(cfg, s.t)
            && Outcome(cfg, s, op, tid, Alone(cfg, Step(cfg, s, tid, Invoke(op)), tid, pick, steps), res)
  {
    LibcuckooLaws(hash, slots, pathLen, lockBits, maxHp, simple);
    var cfg := Libcuckoo(hash, slots, pathLen, lockBits, maxHp, simple);
    InitInv(cfg, hp, n);
    RunInv(cfg, Init(cfg, hp, n), schedule);
    steps, res := CallEnds(cfg, Run(cfg, Init(cfg, hp, n), schedule), tid, op, pick);
  }
}
