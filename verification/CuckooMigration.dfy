/** Moving old buckets over, one at a time: which buckets are done part-way through the loops of
    rehash_lock and cuckoo_fast_double. */
module CuckooMigration {
  import opened Bits
  import opened CuckooIndex
  import opened CuckooBuckets
  import opened CuckooTable

  /** A container with bucket `b` and its upper twin replaced by the halves of `bkt`. */
  ghost function PutHalves(cfg: Config, hp: nat, v: seq<Bucket>, b: nat, n: nat, bkt: Bucket): (r: seq<Bucket>)
    requires b < n && |v| == 2 * n
  {
    v[b := Stay(cfg, hp, b, bkt)][b + n := Rise(cfg, hp, b, bkt)]
  }

  ghost function PutSlot(cfg: Config, hp: nat, v: seq<Bucket>, b: nat, up: nat, s: nat, s': nat,
                         x: Slot): (r: seq<Bucket>)
    requires b < |v| && up < |v| && s < |v[b]| && s' < |v[up]|
  {
    if Leaves(cfg, hp, b, x) then v[up := v[up][s' := x]] else v[b := v[b][s := x]]
  }

  lemma PutStep(cfg: Config, hp: nat, v: seq<Bucket>, b: nat, up: nat, low: Bucket, high: Bucket, s: nat, s': nat,
                x: Slot)
    requires b < |v| && up < |v| && b != up && s < |low| && s' < |high| && low[s] == Vacant
    ensures PutSlot(cfg, hp, v[b := low][up := high], b, up, s, s', x)
         == v[b := low[s := if Leaves(cfg, hp, b, x) then Vacant else x]]
            [up := if Leaves(cfg, hp, b, x) then high[s' := x] else high]
  {
    assert low[s := Vacant] == low;
  }

  /** The buckets `base .. base + MaxLocks` take the locks in order. */
  ghost predicate Aligned(cfg: Config, base: nat) {
    forall c :: base <= c < base + MaxLocks(cfg) ==> cfg.lock(c) == c - base
  }

  lemma AlignedStart(cfg: Config)
    requires Laws(cfg)
    ensures Aligned(cfg, 0)
  {
    forall c | 0 <= c < MaxLocks(cfg) ensures cfg.lock(c) == c {
      assert LockStride(cfg, c);
    }
  }

  /** After bucket `base + l`, the next bucket of lock `l` is one stride further. */
  lemma AlignedNext(cfg: Config, base: nat, l: nat)
    requires Laws(cfg) && Aligned(cfg, base) && l < MaxLocks(cfg)
    ensures Aligned(cfg, base + MaxLocks(cfg)) && cfg.lock(base + l) == l
    ensures forall c :: base + l < c < base + l + MaxLocks(cfg) ==> cfg.lock(c) != l
  {
    var m := MaxLocks(cfg);
    forall c | base + m <= c < base + m + m ensures cfg.lock(c) == c - (base + m) {
      assert LockStride(cfg, c - m);
    }
    forall c | base + l < c < base + l + m ensures cfg.lock(c) != l {
      if c >= base + m {
        assert cfg.lock(c) == c - (base + m);
      }
    }
  }

  /** Of `2n` buckets, bucket `c` belongs to lock `l` and comes from an old bucket below `b`. */
  ghost predicate MovedBelow(cfg: Config, l: nat, n: nat, b: nat, c: nat) {
    cfg.lock(c) == l && (if c < n then c < b else c - n < b)
  }

  /** The container part-way through: buckets moved so far are final, the others untouched. */
  ghost predicate Mixed<T>(cfg: Config, l: nat, b: nat, was: seq<T>, goal: seq<T>, now: seq<T>) {
    && |was| == |goal| == |now|
    && forall c :: 0 <= c < |now| ==> now[c] == if MovedBelow(cfg, l, |now| / 2, b, c) then goal[c] else was[c]
  }

  lemma MixedStart<T>(cfg: Config, hp: nat, l: nat, was: seq<T>, goal: seq<T>)
    requires Laws(cfg) && l < MaxLocks(cfg) <= Pow2(hp) && |was| == |goal| == 2 * Pow2(hp)
    ensures Aligned(cfg, 0) && Mixed(cfg, l, l, was, goal, was)
  {
    AlignedStart(cfg);
    forall c | 0 <= c < |was| ensures !MovedBelow(cfg, l, Pow2(hp), l, c) {
      if c >= Pow2(hp) {
        assert LockStays(cfg, hp, c - Pow2(hp));
      }
    }
  }

  /** The next old bucket of lock `l` and both its targets are still to be done. */
  lemma MixedHere<T>(cfg: Config, hp: nat, l: nat, base: nat, was: seq<T>, goal: seq<T>, now: seq<T>)
    requires Laws(cfg) && Aligned(cfg, base) && l < MaxLocks(cfg) <= Pow2(hp) && base + l < Pow2(hp)
    requires |now| == 2 * Pow2(hp) && Mixed(cfg, l, base + l, was, goal, now)
    ensures cfg.lock(base + l) == cfg.lock(base + l + Pow2(hp)) == l
    ensures now[base + l] == was[base + l] && now[base + l + Pow2(hp)] == was[base + l + Pow2(hp)]
  {
    assert LockStays(cfg, hp, base + l);
  }

  lemma MovedNext(cfg: Config, hp: nat, l: nat, base: nat, c: nat)
    requires Laws(cfg) && Aligned(cfg, base) && l < MaxLocks(cfg) <= Pow2(hp) && base + l < Pow2(hp)
    ensures MovedBelow(cfg, l, Pow2(hp), base + l + MaxLocks(cfg), c) <==>
              MovedBelow(cfg, l, Pow2(hp), base + l, c) || c == base + l || c == base + l + Pow2(hp)
  {
    AlignedNext(cfg, base, l);
    assert LockStays(cfg, hp, base + l);
    if c >= Pow2(hp) {
      assert LockStays(cfg, hp, c - Pow2(hp));
    }
  }

  lemma MixedStep<T>(cfg: Config, hp: nat, l: nat, base: nat, was: seq<T>, goal: seq<T>, now: seq<T>, next: seq<T>)
    requires Laws(cfg) && Aligned(cfg, base) && l < MaxLocks(cfg) <= Pow2(hp) && base + l < Pow2(hp)
    requires |now| == 2 * Pow2(hp) && Mixed(cfg, l, base + l, was, goal, now)
    requires next == now[base + l := goal[base + l]][base + l + Pow2(hp) := goal[base + l + Pow2(hp)]]
    ensures Mixed(cfg, l, base + l + MaxLocks(cfg), was, goal, next)
  {
    forall c | 0 <= c < |now|
      ensures next[c] == if MovedBelow(cfg, l, |now| / 2, base + l + MaxLocks(cfg), c) then goal[c] else was[c]
    {
      MovedNext(cfg, hp, l, base, c);
    }
  }

  lemma MixedNext(cfg: Config, hp: nat, l: nat, base: nat, prev: seq<Bucket>, was: seq<Bucket>, goal: seq<Bucket>,
                  now: seq<Bucket>)
    requires Laws(cfg) && Aligned(cfg, base) && l < MaxLocks(cfg) <= Pow2(hp) && base + l < Pow2(hp) == |prev|
    requires |now| == 2 * |prev| && Mixed(cfg, l, base + l, was, goal, now) && SplitsAll(cfg, hp, prev, goal, l)
    ensures Aligned(cfg, base + MaxLocks(cfg))
    ensures Mixed(cfg, l, base + l + MaxLocks(cfg), was, goal,
            PutHalves(cfg, hp, now, base + l, |prev|, prev[base + l]))
  {
    AlignedNext(cfg, base, l);
    assert SplitsTo(cfg, hp, prev, goal, base + l);
    MixedStep(cfg, hp, l, base, was, goal, now, PutHalves(cfg, hp, now, base + l, |prev|, prev[base + l]));
  }

  lemma MixedEnd<T>(cfg: Config, l: nat, b: nat, was: seq<T>, goal: seq<T>, now: seq<T>)
    requires Mixed(cfg, l, b, was, goal, now) && |now| % 2 == 0 && b >= |now| / 2
    requires forall c :: 0 <= c < |now| && cfg.lock(c) != l ==> Same(goal[c], was[c])
    ensures now == goal
  {
  }

  /** In `goal`, bucket `b` and its upper twin hold the two halves of old bucket `b`. */
  ghost predicate SplitsTo(cfg: Config, hp: nat, prev: seq<Bucket>, goal: seq<Bucket>, b: nat) {
    && b < |prev| && |goal| == 2 * |prev|
    && Same(goal[b], Stay(cfg, hp, b, prev[b]))
    && Same(goal[b + |prev|], Rise(cfg, hp, b, prev[b]))
  }

  ghost predicate SplitsAll(cfg: Config, hp: nat, prev: seq<Bucket>, goal: seq<Bucket>, l: nat) {
    forall b: nat {:trigger SplitsTo(cfg, hp, prev, goal, b)} ::
      b < |prev| && cfg.lock(b) == l ==> SplitsTo(cfg, hp, prev, goal, b)
  }

  /** What rehash_lock relies on: if lock `l` still has old buckets, they are intact and their targets
      are vacant. */
  ghost predicate Ready(cfg: Config, t: Table, l: nat, lazy: bool) {
    && Laws(cfg) && l < |t.mig| <= MaxLocks(cfg)
    && (!t.mig[l] ==>
          && t.hp >= 1 && MaxLocks(cfg) <= Pow2(t.hp - 1) && |t.prev| == Pow2(t.hp - 1) && |t.cur| == 2 * |t.prev|
          && (forall b :: 0 <= b < |t.prev| ==> |t.prev[b]| == cfg.slots)
          && (forall b :: 0 <= b < |t.cur| && cfg.lock(b) == l ==> Same(t.cur[b], VacantBucket(cfg.slots)))
          && (lazy ==> t.rem > 0))
  }

  lemma ShapeReady(cfg: Config, t: Table, l: nat)
    requires Shape(cfg, t) && l < |t.mig|
    ensures Ready(cfg, t, l, true)
  {
    UnmigratedZero(t.mig);
    if !t.mig[l] {
      forall b | 0 <= b < |t.cur| && cfg.lock(b) == l ensures Same(t.cur[b], VacantBucket(cfg.slots)) {
        assert Pending(cfg, t, b);
      }
      forall b | 0 <= b < |t.prev| ensures |t.prev[b]| == cfg.slots {
        assert BucketOk(cfg, t.hp - 1, b, t.prev[b]);
      }
    }
  }

  lemma MigratedHalves(cfg: Config, t: Table, l: nat, b: nat)
    requires l < |t.mig| && !t.mig[l] && t.hp >= 1 && b < |t.prev| && |t.cur| == 2 * |t.prev|
    requires cfg.lock(b) == l && cfg.lock(b + |t.prev|) == l
    ensures SplitsTo(cfg, t.hp - 1, t.prev, Migrated(cfg, t, l), b)
  {
    MigratedAt(cfg, t, l, b);
    MigratedAt(cfg, t, l, b + |t.prev|);
    HalvesOf(cfg, t, Migrated(cfg, t, l), b);
  }

  lemma HalvesOf(cfg: Config, t: Table, m: seq<Bucket>, b: nat)
    requires t.hp >= 1 && b < |t.prev| && |t.cur| == |m| == 2 * |t.prev|
    requires Pending(cfg, t, b) && Pending(cfg, t, b + |t.prev|)
    requires Same(m[b], BucketView(cfg, t, b)) && Same(m[b + |t.prev|], BucketView(cfg, t, b + |t.prev|))
    ensures SplitsTo(cfg, t.hp - 1, t.prev, m, b)
  {
  }

  lemma MigratedLocks(cfg: Config, hp: nat, n: nat, l: nat, b: nat)
    requires Laws(cfg) && n == Pow2(hp) && MaxLocks(cfg) <= n && b < n && cfg.lock(b) == l
    ensures cfg.lock(b + n) == l
  {
    assert LockStays(cfg, hp, b);
  }

  lemma MigratedOne(cfg: Config, t: Table, l: nat, b: nat)
    requires Laws(cfg) && l < |t.mig| && !t.mig[l] && t.hp >= 1 && b < |t.prev| && cfg.lock(b) == l
    requires |t.prev| == Pow2(t.hp - 1) && MaxLocks(cfg) <= |t.prev| && |t.cur| == 2 * |t.prev|
    ensures SplitsTo(cfg, t.hp - 1, t.prev, Migrated(cfg, t, l), b)
  {
    MigratedLocks(cfg, t.hp - 1, |t.prev|, l, b);
    MigratedHalves(cfg, t, l, b);
  }

  lemma MigratedSplits(cfg: Config, t: Table, l: nat)
    requires Laws(cfg) && l < |t.mig| && !t.mig[l] && t.hp >= 1
    requires |t.prev| == Pow2(t.hp - 1) && MaxLocks(cfg) <= |t.prev| && |t.cur| == 2 * |t.prev|
    ensures SplitsAll(cfg, t.hp - 1, t.prev, Migrated(cfg, t, l), l)
    ensures forall c :: 0 <= c < |t.cur| && cfg.lock(c) != l ==> Same(Migrated(cfg, t, l)[c], t.cur[c])
  {
    forall c | 0 <= c < |t.cur| && cfg.lock(c) != l ensures Same(Migrated(cfg, t, l)[c], t.cur[c]) {
      MigratedAt(cfg, t, l, c);
    }
    forall b: nat | b < |t.prev| && cfg.lock(b) == l ensures SplitsTo(cfg, t.hp - 1, t.prev, Migrated(cfg, t, l), b) {
      MigratedOne(cfg, t, l, b);
    }
  }

  // ---------- finishing a migration ----------

  /** All pending data migrated and the old storage released. */
  ghost function Settled(cfg: Config, t: Table): (t': Table) {
    Table(t.hp, View(cfg, t), [], Flags(|t.mig|, true), t.cnt, 0)
  }

  /** Part-way: the locks below `i` have been migrated. */
  ghost predicate Settling(cfg: Config, t: Table, t': Table, i: nat) {
    && t'.hp == t.hp && t'.prev == t.prev && t'.cnt == t.cnt && t'.rem == t.rem
    && |t'.mig| == |t.mig| && |t'.cur| == |t.cur|
    && (forall l :: 0 <= l < |t.mig| ==> t'.mig[l] == (t.mig[l] || l < i))
    && (forall b :: 0 <= b < |t.cur| ==> Same(t'.cur[b], if cfg.lock(b) < i then BucketView(cfg, t, b) else t.cur[b]))
  }

  lemma SettleStep(cfg: Config, t: Table, t': Table, i: nat)
    requires Settling(cfg, t, t', i) && i < |t.mig|
    ensures Settling(cfg, t, RehashNow(cfg, t', i), i + 1)
  {
    var r := RehashNow(cfg, t', i);
    forall b | 0 <= b < |t.cur|
      ensures Same(r.cur[b], if cfg.lock(b) < i + 1 then BucketView(cfg, t, b) else t.cur[b]) {
      assert Same(t'.cur[b], if cfg.lock(b) < i then BucketView(cfg, t, b) else t.cur[b]);
      MigratedAt(cfg, t', i, b);
    }
  }

  lemma CanSettle(cfg: Config, t: Table, t': Table, i: nat)
    requires Shape(cfg, t) && Settling(cfg, t, t', i) && i < |t.mig|
    ensures Ready(cfg, t', i, false)
  {
    ShapeReady(cfg, t, i);
    if !t'.mig[i] {
      forall b | 0 <= b < |t'.cur| && cfg.lock(b) == i ensures Same(t'.cur[b], VacantBucket(cfg.slots)) {
        assert Same(t'.cur[b], t.cur[b]);
      }
    }
  }

  lemma SettleEnd(cfg: Config, t: Table, t': Table)
    requires Shape(cfg, t) && Settling(cfg, t, t', |t.mig|)
    ensures t'.cur == View(cfg, t) && t'.mig == Flags(|t.mig|, true)
  {
    forall b | 0 <= b < |t.cur| ensures Same(t'.cur[b], View(cfg, t)[b]) {
      assert LockStays(cfg, t.hp, b);
      ViewAt(cfg, t, b);
    }
  }

  ghost function GrowFlags(mig: seq<bool>, n: nat): (r: seq<bool>) {
    if n <= |mig| then mig else mig + Flags(n - |mig|, true)
  }

  /** Old counters and flags in front, new locks empty and migrated. */
  lemma GrownIs(cnt: seq<int>, cnt': seq<int>, mig: seq<bool>, mig': seq<bool>, n: nat)
    requires |cnt| == |mig| && |cnt'| == |mig'| == if n > |mig| then n else |mig|
    requires cnt <= cnt' && mig <= mig' && forall l :: |cnt| <= l < |cnt'| ==> cnt'[l] == 0 && mig'[l]
    ensures cnt' == GrowCounters(cnt, n) && mig' == GrowFlags(mig, n)
  {
  }

  lemma SettledReady(cfg: Config, t: Table)
    requires Shape(cfg, t)
    ensures |View(cfg, t)| == Pow2(t.hp)
    ensures forall b :: 0 <= b < |View(cfg, t)| ==> |View(cfg, t)[b]| == cfg.slots
    ensures GrowFlags(Flags(|t.mig|, true), NumLocks(cfg, t.hp + 1)) == Flags(NumLocks(cfg, t.hp + 1), true)
  {
    forall b | 0 <= b < |View(cfg, t)| ensures |View(cfg, t)[b]| == cfg.slots {
      ViewOk(cfg, t, b);
    }
  }

  // ---------- splitting a whole container ----------

  /** Of two halves of `n` buckets each, the first `i` of both are final and the rest vacant. */
  ghost predicate Halved<T>(now: seq<T>, goal: seq<T>, vacant: T, n: nat, i: nat) {
    && |now| == |goal| == 2 * n
    && forall c :: 0 <= c < 2 * n ==> now[c] == if (if c < n then c else c - n) < i then goal[c] else vacant
  }

  lemma HalvedStep<T>(now: seq<T>, goal: seq<T>, vacant: T, n: nat, i: nat)
    requires Halved(now, goal, vacant, n, i) && i < n
    ensures Same(now[i], vacant) && Same(now[i + n], vacant)
    ensures Halved(now[i := goal[i]][i + n := goal[i + n]], goal, vacant, n, i + 1)
  {
  }

  lemma HalvedEnd<T>(now: seq<T>, goal: seq<T>, vacant: T, n: nat)
    requires Halved(now, goal, vacant, n, n)
    ensures now == goal
  {
  }

  /** The first `i` buckets of `v` have been split. */
  ghost predicate SplitTo(cfg: Config, hp: nat, v: seq<Bucket>, now: seq<Bucket>, i: nat) {
    true == Halved(now, Split(cfg, hp, v), VacantBucket(cfg.slots), |v|, i)
  }

  lemma SplitStep(cfg: Config, hp: nat, v: seq<Bucket>, now: seq<Bucket>, i: nat)
    requires SplitTo(cfg, hp, v, now, i) && i < |v|
    ensures Same(now[i], VacantBucket(cfg.slots)) && Same(now[i + |v|], VacantBucket(cfg.slots))
    ensures SplitTo(cfg, hp, v, PutHalves(cfg, hp, now, i, |v|, v[i]), i + 1)
  {
    SplitHalves(cfg, hp, v, i);
    HalvedPut(cfg, hp, now, Split(cfg, hp, v), VacantBucket(cfg.slots), |v|, i, v[i]);
  }

  lemma SplitHalves(cfg: Config, hp: nat, v: seq<Bucket>, i: nat)
    requires i < |v|
    ensures Same(Split(cfg, hp, v)[i], Stay(cfg, hp, i, v[i]))
    ensures Same(Split(cfg, hp, v)[i + |v|], Rise(cfg, hp, i, v[i]))
  {
    SplitAt(cfg, hp, v, i);
    SplitAt(cfg, hp, v, i + |v|);
  }

  lemma HalvedPut(cfg: Config, hp: nat, now: seq<Bucket>, goal: seq<Bucket>, vacant: Bucket, n: nat, i: nat,
                  bkt: Bucket)
    requires Halved(now, goal, vacant, n, i) && i < n
    requires Same(goal[i], Stay(cfg, hp, i, bkt)) && Same(goal[i + n], Rise(cfg, hp, i, bkt))
    ensures Same(now[i], vacant) && Same(now[i + n], vacant)
    ensures Halved(PutHalves(cfg, hp, now, i, n, bkt), goal, vacant, n, i + 1)
  {
    HalvedStep(now, goal, vacant, n, i);
  }
}
