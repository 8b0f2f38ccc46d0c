/** The whole table at one moment: current buckets, old buckets still waiting for lazy migration,
    per-lock migration flags and element counters.  Operations are stated on values; the class
    `CuckooMap` and the step machine `CuckooThreads` are both proved against them. */
module CuckooTable {
  import opened Bits
  import opened CuckooIndex
  import opened CuckooBuckets

  datatype Table = Table(
    hp: nat,
    cur: seq<Bucket>,    // buckets_
    prev: seq<Bucket>,   // old_buckets_, empty once deallocated
    mig: seq<bool>,      // is_migrated, per lock
    cnt: seq<int>,       // elem_counter, per lock
    rem: nat)            // num_remaining_lazy_rehash_locks_

  // ---------- sums over the lock array ----------

  function Sum(s: seq<int>): (r: int) {
    if s == [] then 0 else s[0] + Sum(s[1..])
  }

  lemma {:induction false} SumUpdate(s: seq<int>, i: nat, x: int)
    requires i < |s|
    ensures Sum(s[i := x]) == Sum(s) - s[i] + x
  {
    if i == 0 {
      assert s[i := x][1..] == s[1..];
    } else {
      assert s[i := x][1..] == s[1..][i - 1 := x];
      SumUpdate(s[1..], i - 1, x);
    }
  }

  lemma {:induction false} SumConcat(s: seq<int>, t: seq<int>)
    ensures Sum(s + t) == Sum(s) + Sum(t)
  {
    if s == [] {
      assert s + t == t;
    } else {
      assert (s + t)[1..] == s[1..] + t;
      SumConcat(s[1..], t);
    }
  }

  function Zeros(n: nat): (s: seq<int>)
    ensures |s| == n && forall i :: 0 <= i < n ==> s[i] == 0
  {
    if n == 0 then [] else [0] + Zeros(n - 1)
  }

  lemma {:induction false} SumZeros(n: nat)
    ensures Sum(Zeros(n)) == 0
  {
    if n != 0 {
      assert Zeros(n)[1..] == Zeros(n - 1);
      SumZeros(n - 1);
    }
  }

  /** Number of locks whose buckets have not been migrated. */
  function Unmigrated(mig: seq<bool>): (n: nat) {
    if mig == [] then 0 else (if mig[0] then 0 else 1) + Unmigrated(mig[1..])
  }

  lemma {:induction false} UnmigratedUpdate(mig: seq<bool>, l: nat)
    requires l < |mig| && !mig[l]
    ensures Unmigrated(mig[l := true]) == Unmigrated(mig) - 1
  {
    if l == 0 {
      assert mig[l := true][1..] == mig[1..];
    } else {
      assert mig[l := true][1..] == mig[1..][l - 1 := true];
      UnmigratedUpdate(mig[1..], l - 1);
    }
  }

  lemma {:induction false} UnmigratedZero(mig: seq<bool>)
    ensures Unmigrated(mig) == 0 <==> forall l :: 0 <= l < |mig| ==> mig[l]
  {
    if mig != [] {
      UnmigratedZero(mig[1..]);
      assert forall l :: 0 <= l < |mig[1..]| ==> mig[1..][l] == mig[l + 1];
      if forall l :: 0 <= l < |mig[1..]| ==> mig[1..][l] {
        forall l | 0 < l < |mig| ensures mig[l] {
          assert mig[1..][l - 1];
        }
      }
    }
  }

  function Flags(n: nat, b: bool): (s: seq<bool>)
    ensures |s| == n && forall i :: 0 <= i < n ==> s[i] == b
  {
    if n == 0 then [] else [b] + Flags(n - 1, b)
  }

  lemma {:induction false} UnmigratedFlags(n: nat, b: bool)
    ensures Unmigrated(Flags(n, b)) == if b then 0 else n
  {
    if n != 0 {
      assert Flags(n, b)[1..] == Flags(n - 1, b);
      UnmigratedFlags(n - 1, b);
    }
  }

  // ---------- what the table stands for ----------

  /** Bucket `b` has not been migrated yet. */
  ghost predicate Pending(cfg: Config, t: Table, b: nat) {
    cfg.lock(b) < |t.mig| && !t.mig[cfg.lock(b)]
  }

  /** Bucket `b` of the container that results from splitting every bucket of `v`. */
  ghost function SplitBucket(cfg: Config, hp: nat, v: seq<Bucket>, b: nat): (r: Bucket) {
    if b < |v| then Stay(cfg, hp, b, v[b])
    else if b - |v| < |v| then Rise(cfg, hp, b - |v|, v[b - |v|])
    else []
  }

  /** What bucket `b` holds, or will hold once its lock is migrated. */
  ghost function BucketView(cfg: Config, t: Table, b: nat): (r: Bucket)
    requires b < |t.cur|
  {
    if Pending(cfg, t, b) && t.hp >= 1 then SplitBucket(cfg, t.hp - 1, t.prev, b) else t.cur[b]
  }

  ghost function ViewTo(cfg: Config, t: Table, n: nat): (v: seq<Bucket>)
    requires n <= |t.cur|
    ensures |v| == n
  {
    if n == 0 then [] else ViewTo(cfg, t, n - 1) + [BucketView(cfg, t, n - 1)]
  }

  lemma {:induction false} ViewToAt(cfg: Config, t: Table, n: nat, b: nat)
    requires b < n <= |t.cur|
    ensures Same(ViewTo(cfg, t, n)[b], BucketView(cfg, t, b))
  {
    if b < n - 1 {
      ViewToAt(cfg, t, n - 1, b);
    }
  }

  ghost function View(cfg: Config, t: Table): (v: seq<Bucket>)
    ensures |v| == |t.cur|
  {
    ViewTo(cfg, t, |t.cur|)
  }

  lemma ViewAt(cfg: Config, t: Table, b: nat)
    requires b < |t.cur|
    ensures Same(View(cfg, t)[b], BucketView(cfg, t, b))
  {
    ViewToAt(cfg, t, |t.cur|, b);
  }

  lemma ViewIs(cfg: Config, t: Table)
    ensures forall b :: 0 <= b < |t.cur| ==> Same(View(cfg, t)[b], BucketView(cfg, t, b))
  {
    forall b | 0 <= b < |t.cur| ensures Same(View(cfg, t)[b], BucketView(cfg, t, b)) {
      ViewAt(cfg, t, b);
    }
  }

  ghost function Held(cfg: Config, t: Table): (m: multiset<Entry>) {
    Total(View(cfg, t))
  }

  /** The key-value map the table stands for. */
  ghost function Abs(cfg: Config, t: Table): (m: map<Key, Val>) {
    Contents(Held(cfg, t))
  }

  ghost predicate SlotOk(cfg: Config, hp: nat, b: nat, x: Slot) {
    x.Full? ==> x.e.partial == Tag(cfg, x.e.key) && Placed(cfg, hp, x.e.key, b)
  }

  ghost predicate BucketOk(cfg: Config, hp: nat, b: nat, bkt: Bucket) {
    |bkt| == cfg.slots && forall s {:trigger SlotOk(cfg, hp, b, bkt[s])} :: 0 <= s < |bkt| ==>
        SlotOk(cfg, hp, b, bkt[s])
  }

  ghost predicate Shape(cfg: Config, t: Table) {
    && Laws(cfg)
    && |t.mig| == |t.cnt| == NumLocks(cfg, t.hp)
    && |t.cur| == Pow2(t.hp)
    && (forall b :: 0 <= b < |t.cur| ==> |t.cur[b]| == cfg.slots)
    && (forall b {:trigger BucketOk(cfg, t.hp, b, t.cur[b])} :: 0 <= b < |t.cur| ==> BucketOk(cfg, t.hp, b, t.cur[b]))
    && (forall b :: 0 <= b < |t.cur| && Pending(cfg, t, b) ==> Same(t.cur[b], VacantBucket(cfg.slots)))
    && t.rem == Unmigrated(t.mig)
    && (t.rem > 0 ==> t.hp >= 1 && MaxLocks(cfg) <= Pow2(t.hp - 1) && |t.prev| == Pow2(t.hp - 1))
    && (t.rem > 0 ==> forall b {:trigger BucketOk(cfg, t.hp - 1, b, t.prev[b])} :: 0 <= b < |t.prev| ==>
        BucketOk(cfg, t.hp - 1, b, t.prev[b]))
  }

  ghost predicate Inv(cfg: Config, t: Table) {
    && Shape(cfg, t)
    && NoDup(Held(cfg, t))
    && Sum(t.cnt) == |Held(cfg, t)|
  }

  // ---------- views ----------

  lemma StayOk(cfg: Config, hp: nat, b: nat, bkt: Bucket)
    requires Laws(cfg) && BucketOk(cfg, hp, b, bkt)
    ensures BucketOk(cfg, hp + 1, b, Stay(cfg, hp, b, bkt))
  {
    var r := Stay(cfg, hp, b, bkt);
    forall s | 0 <= s < |r| ensures SlotOk(cfg, hp + 1, b, r[s]) {
      StayAt(cfg, hp, b, bkt, s);
      assert SlotOk(cfg, hp, b, bkt[s]);
      if r[s].Full? {
        assert DestStays(cfg, hp, r[s].e.key, b);
      }
    }
  }

  lemma RiseOk(cfg: Config, hp: nat, b: nat, bkt: Bucket)
    requires Laws(cfg) && BucketOk(cfg, hp, b, bkt)
    ensures BucketOk(cfg, hp + 1, b + Pow2(hp), Rise(cfg, hp, b, bkt))
  {
    var r := Rise(cfg, hp, b, bkt);
    var c := Climbers(cfg, hp, b, bkt);
    forall s | 0 <= s < |r| ensures SlotOk(cfg, hp + 1, b + Pow2(hp), r[s]) {
      if s < |c| {
        var i := ClimberOf(cfg, hp, b, bkt, s);
        assert SlotOk(cfg, hp, b, bkt[i]);
        assert DestStays(cfg, hp, c[s].e.key, b);
      }
    }
  }

  lemma SplitBucketOk(cfg: Config, hp: nat, v: seq<Bucket>, b: nat)
    requires Laws(cfg) && |v| == Pow2(hp) && b < 2 * |v|
    requires forall c :: 0 <= c < |v| ==> BucketOk(cfg, hp, c, v[c])
    ensures BucketOk(cfg, hp + 1, b, SplitBucket(cfg, hp, v, b))
  {
    if b < |v| {
      StayOk(cfg, hp, b, v[b]);
    } else {
      RiseOk(cfg, hp, b - |v|, v[b - |v|]);
    }
  }

  lemma ViewOk(cfg: Config, t: Table, b: nat)
    requires Shape(cfg, t) && b < |t.cur|
    ensures BucketOk(cfg, t.hp, b, View(cfg, t)[b])
  {
    ViewAt(cfg, t, b);
    assert BucketOk(cfg, t.hp, b, t.cur[b]);
    if Pending(cfg, t, b) {
      UnmigratedZero(t.mig);
      SplitBucketOk(cfg, t.hp - 1, t.prev, b);
    }
  }

  lemma NothingPending(cfg: Config, t: Table)
    requires Unmigrated(t.mig) == 0
    ensures View(cfg, t) == t.cur
  {
    UnmigratedZero(t.mig);
    ViewIs(cfg, t);
  }

  // ---------- operations under migrated locks ----------

  /** Overwrite one slot of the current container. */
  ghost function Write(t: Table, b: nat, s: nat, x: Slot): (t': Table)
    requires b < |t.cur| && s < |t.cur[b]|
  {
    t.(cur := t.cur[b := t.cur[b][s := x]])
  }

  lemma WriteView(cfg: Config, t: Table, b: nat, s: nat, x: Slot)
    requires b < |t.cur| && s < |t.cur[b]| && !Pending(cfg, t, b)
    ensures Same(View(cfg, t)[b], t.cur[b])
    ensures View(cfg, Write(t, b, s, x)) == View(cfg, t)[b := t.cur[b][s := x]]
  {
    var v, v' := View(cfg, t), View(cfg, Write(t, b, s, x));
    ViewAt(cfg, t, b);
    forall c | 0 <= c < |t.cur| ensures Same(v'[c], v[b := t.cur[b][s := x]][c]) {
      ViewAt(cfg, t, c);
      ViewAt(cfg, Write(t, b, s, x), c);
    }
  }

  lemma WriteShape(cfg: Config, t: Table, b: nat, s: nat, x: Slot)
    requires Shape(cfg, t) && b < |t.cur| && s < |t.cur[b]| && !Pending(cfg, t, b) && SlotOk(cfg, t.hp, b, x)
    ensures Shape(cfg, Write(t, b, s, x))
  {
    var t' := Write(t, b, s, x);
    forall c | 0 <= c < |t'.cur| ensures BucketOk(cfg, t.hp, c, t'.cur[c]) {
      assert BucketOk(cfg, t.hp, c, t.cur[c]);
      forall i | 0 <= i < |t'.cur[c]| ensures SlotOk(cfg, t.hp, c, t'.cur[c][i]) {
        assert SlotOk(cfg, t.hp, c, t.cur[c][i]);
      }
    }
  }

  lemma WriteKeeps(cfg: Config, t: Table, b: nat, s: nat, x: Slot)
    requires Shape(cfg, t) && b < |t.cur| && s < |t.cur[b]| && !Pending(cfg, t, b) && SlotOk(cfg, t.hp, b, x)
    ensures Shape(cfg, Write(t, b, s, x))
    ensures One(t.cur[b][s]) <= Held(cfg, t)
    ensures Held(cfg, Write(t, b, s, x)) == Held(cfg, t) - One(t.cur[b][s]) + One(x)
  {
    WriteView(cfg, t, b, s, x);
    WriteShape(cfg, t, b, s, x);
    TotalWrite(View(cfg, t), b, s, x);
  }

  ghost function Bump(cfg: Config, t: Table, b: nat, d: int): (t': Table)
    requires cfg.lock(b) < |t.cnt|
  {
    t.(cnt := t.cnt[cfg.lock(b) := t.cnt[cfg.lock(b)] + d])
  }

  lemma {:induction false} ViewToIgnoresCounters(cfg: Config, t: Table, cnt: seq<int>, n: nat)
    requires n <= |t.cur|
    ensures ViewTo(cfg, t.(cnt := cnt), n) == ViewTo(cfg, t, n)
  {
    if n != 0 {
      ViewToIgnoresCounters(cfg, t, cnt, n - 1);
    }
  }

  lemma ShapeIgnoresCounters(cfg: Config, t: Table, cnt: seq<int>)
    requires Shape(cfg, t) && |cnt| == |t.cnt|
    ensures Shape(cfg, t.(cnt := cnt))
  {
    var t' := t.(cnt := cnt);
    forall b | 0 <= b < |t'.cur| ensures BucketOk(cfg, t'.hp, b, t'.cur[b]) {
      assert BucketOk(cfg, t.hp, b, t.cur[b]);
    }
    if t.rem > 0 {
      forall b | 0 <= b < |t'.prev| ensures BucketOk(cfg, t'.hp - 1, b, t'.prev[b]) {
        assert BucketOk(cfg, t.hp - 1, b, t.prev[b]);
      }
    }
  }

  lemma BumpKeeps(cfg: Config, t: Table, b: nat, d: int)
    requires Shape(cfg, t) && b < |t.cur|
    ensures cfg.lock(b) < |t.cnt|
    ensures Shape(cfg, Bump(cfg, t, b, d)) && Held(cfg, Bump(cfg, t, b, d)) == Held(cfg, t)
    ensures View(cfg, Bump(cfg, t, b, d)) == View(cfg, t)
    ensures Sum(Bump(cfg, t, b, d).cnt) == Sum(t.cnt) + d
  {
    assert LockStays(cfg, t.hp, b);
    SumUpdate(t.cnt, cfg.lock(b), t.cnt[cfg.lock(b)] + d);
    ShapeIgnoresCounters(cfg, t, Bump(cfg, t, b, d).cnt);
    ViewToIgnoresCounters(cfg, t, Bump(cfg, t, b, d).cnt, |t.cur|);
  }

  /** add_to_bucket: store a new entry and count it under the bucket's lock. */
  ghost function Add(cfg: Config, t: Table, b: nat, s: nat, e: Entry): (t': Table)
    requires b < |t.cur| && s < |t.cur[b]| && cfg.lock(b) < |t.cnt|
  {
    Bump(cfg, Write(t, b, s, Full(e)), b, 1)
  }

  lemma AddKeeps(cfg: Config, t: Table, b: nat, s: nat, e: Entry)
    requires Inv(cfg, t) && b < |t.cur| && s < cfg.slots && !Pending(cfg, t, b) && t.cur[b][s] == Vacant
    requires SlotOk(cfg, t.hp, b, Full(e)) && e.key !in Abs(cfg, t)
    ensures cfg.lock(b) < |t.cnt|
    ensures Inv(cfg, Add(cfg, t, b, s, e))
    ensures Abs(cfg, Add(cfg, t, b, s, e)) == Abs(cfg, t)[e.key := e.val]
  {
    WriteKeeps(cfg, t, b, s, Full(e));
    BumpKeeps(cfg, Write(t, b, s, Full(e)), b, 1);
    AddEntry(Held(cfg, t), e);
    assert Held(cfg, t) - multiset{} + multiset{e} == Held(cfg, t) + multiset{e};
  }

  /** del_from_bucket */
  ghost function Del(cfg: Config, t: Table, b: nat, s: nat): (t': Table)
    requires b < |t.cur| && s < |t.cur[b]| && cfg.lock(b) < |t.cnt|
  {
    Bump(cfg, Write(t, b, s, Vacant), b, -1)
  }

  lemma FullIsHeld(cfg: Config, t: Table, b: nat, s: nat)
    requires Shape(cfg, t) && b < |t.cur| && s < cfg.slots && t.cur[b][s].Full?
    ensures !Pending(cfg, t, b)
    ensures t.cur[b][s].e in Held(cfg, t)
  {
    assert VacantBucket(cfg.slots)[s] == Vacant;
    ViewAt(cfg, t, b);
    InTotal(View(cfg, t), b, s);
  }

  lemma DelKeeps(cfg: Config, t: Table, b: nat, s: nat)
    requires Inv(cfg, t) && b < |t.cur| && s < cfg.slots && t.cur[b][s].Full?
    ensures cfg.lock(b) < |t.cnt|
    ensures Inv(cfg, Del(cfg, t, b, s))
    ensures Abs(cfg, Del(cfg, t, b, s)) == Abs(cfg, t) - {t.cur[b][s].e.key}
  {
    FullIsHeld(cfg, t, b, s);
    WriteKeeps(cfg, t, b, s, Vacant);
    BumpKeeps(cfg, Write(t, b, s, Vacant), b, -1);
    var e := t.cur[b][s].e;
    DropEntry(Held(cfg, t), e);
    assert Held(cfg, t) - multiset{e} + multiset{} == Held(cfg, t) - multiset{e};
  }

  ghost function SetVal(t: Table, b: nat, s: nat, v: Val): (t': Table)
    requires b < |t.cur| && s < |t.cur[b]| && t.cur[b][s].Full?
  {
    Write(t, b, s, Full(t.cur[b][s].e.(val := v)))
  }

  lemma SetValKeeps(cfg: Config, t: Table, b: nat, s: nat, v: Val)
    requires Inv(cfg, t) && b < |t.cur| && s < cfg.slots && t.cur[b][s].Full?
    ensures Inv(cfg, SetVal(t, b, s, v))
    ensures Abs(cfg, SetVal(t, b, s, v)) == Abs(cfg, t)[t.cur[b][s].e.key := v]
  {
    var e := t.cur[b][s].e;
    FullIsHeld(cfg, t, b, s);
    assert BucketOk(cfg, t.hp, b, t.cur[b]) && SlotOk(cfg, t.hp, b, t.cur[b][s]);
    WriteKeeps(cfg, t, b, s, Full(e.(val := v)));
    ReplaceEntry(Held(cfg, t), e, v);
  }

  /** One displacement: setKV at the target, eraseKV at the source.  Counters are left alone, so the
      counter of a single lock drifts from the number of entries under it. */
  ghost function Displace(t: Table, b: nat, s: nat, b': nat, s': nat): (t': Table)
    requires b < |t.cur| && s < |t.cur[b]| && b' < |t.cur| && s' < |t.cur[b']|
  {
    Write(Write(t, b', s', t.cur[b][s]), b, s, Vacant)
  }

  ghost predicate CanDisplace(cfg: Config, t: Table, b: nat, s: nat, b': nat, s': nat) {
    && b < |t.cur| && s < |t.cur[b]| && b' < |t.cur| && s' < |t.cur[b']|
    && t.cur[b][s].Full? && t.cur[b'][s'] == Vacant && !Pending(cfg, t, b')
    && b' == cfg.alt(t.hp, Tag(cfg, t.cur[b][s].e.key), b)
  }

  lemma DisplaceFirst(cfg: Config, t: Table, b: nat, s: nat, b': nat, s': nat)
    requires Shape(cfg, t) && CanDisplace(cfg, t, b, s, b', s')
    ensures !Pending(cfg, t, b) && SlotOk(cfg, t.hp, b', t.cur[b][s])
  {
    FullIsHeld(cfg, t, b, s);
    assert BucketOk(cfg, t.hp, b, t.cur[b]) && SlotOk(cfg, t.hp, b, t.cur[b][s]);
    assert AltStays(cfg, t.hp, t.cur[b][s].e.key, b);
  }

  lemma DisplaceHeld(cfg: Config, t: Table, b: nat, s: nat, b': nat, s': nat)
    requires Shape(cfg, t) && CanDisplace(cfg, t, b, s, b', s')
    ensures Shape(cfg, Displace(t, b, s, b', s'))
    ensures Held(cfg, Displace(t, b, s, b', s')) == Held(cfg, t)
  {
    DisplaceFirst(cfg, t, b, s, b', s');
    var x := t.cur[b][s];
    var t1 := Write(t, b', s', x);
    WriteKeeps(cfg, t, b', s', x);
    assert !Pending(cfg, t1, b) && t1.cur[b][s] == x && One(t.cur[b'][s']) == multiset{};
    WriteKeeps(cfg, t1, b, s, Vacant);
    ThereAndBack(Held(cfg, t), x.e);
  }

  lemma DisplaceKeeps(cfg: Config, t: Table, b: nat, s: nat, b': nat, s': nat)
    requires Inv(cfg, t) && CanDisplace(cfg, t, b, s, b', s')
    ensures Inv(cfg, Displace(t, b, s, b', s'))
    ensures Abs(cfg, Displace(t, b, s, b', s')) == Abs(cfg, t)
  {
    DisplaceHeld(cfg, t, b, s, b', s');
  }

  lemma ThereAndBack(m: multiset<Entry>, e: Entry)
    ensures m - multiset{} + multiset{e} - multiset{e} + multiset{} == m
  {
  }

  // ---------- lazy migration ----------

  /** rehash_lock: move the old buckets of one lock into the current container. */
  ghost function RehashNow(cfg: Config, t: Table, l: nat): (t': Table)
    requires l < |t.mig|
  {
    if t.mig[l] then t else t.(cur := Migrated(cfg, t, l), mig := t.mig[l := true])
  }

  /** rehash_lock, lazy: the last lock to migrate also frees the old storage. */
  ghost function Rehash(cfg: Config, t: Table, l: nat): (t': Table)
    requires l < |t.mig| && (!t.mig[l] ==> t.rem > 0)
  {
    if t.mig[l] then t
    else RehashNow(cfg, t, l).(prev := if t.rem == 1 then [] else t.prev, rem := t.rem - 1)
  }

  /** The current container with the buckets of lock `l` filled in. */
  ghost function Migrated(cfg: Config, t: Table, l: nat): (v: seq<Bucket>)
    ensures |v| == |t.cur|
  {
    MigratedTo(cfg, t, l, |t.cur|)
  }

  ghost function MigratedTo(cfg: Config, t: Table, l: nat, n: nat): (v: seq<Bucket>)
    requires n <= |t.cur|
    ensures |v| == n
  {
    if n == 0 then []
    else MigratedTo(cfg, t, l, n - 1) + [if cfg.lock(n - 1) == l then BucketView(cfg, t, n - 1) else t.cur[n - 1]]
  }

  lemma {:induction false} MigratedToAt(cfg: Config, t: Table, l: nat, n: nat, b: nat)
    requires b < n <= |t.cur|
    ensures Same(MigratedTo(cfg, t, l, n)[b], if cfg.lock(b) == l then BucketView(cfg, t, b) else t.cur[b])
  {
    if b < n - 1 {
      MigratedToAt(cfg, t, l, n - 1, b);
    }
  }

  lemma MigratedAt(cfg: Config, t: Table, l: nat, b: nat)
    requires b < |t.cur|
    ensures Same(Migrated(cfg, t, l)[b], if cfg.lock(b) == l then BucketView(cfg, t, b) else t.cur[b])
  {
    MigratedToAt(cfg, t, l, |t.cur|, b);
  }

  /** Migrating one lock leaves the view, hence the key-value map, exactly as it was. */
  lemma RehashKeeps(cfg: Config, t: Table, l: nat)
    requires Inv(cfg, t) && l < |t.mig|
    ensures !t.mig[l] ==> t.rem > 0
    ensures Inv(cfg, Rehash(cfg, t, l))
    ensures View(cfg, Rehash(cfg, t, l)) == View(cfg, t)
    ensures Rehash(cfg, t, l).mig == t.mig[l := true]
    ensures Abs(cfg, Rehash(cfg, t, l)) == Abs(cfg, t)
  {
    UnmigratedZero(t.mig);
    if !t.mig[l] {
      RehashView(cfg, t, l);
      RehashShape(cfg, t, l);
    } else {
      assert t.mig[l := true] == t.mig;
    }
  }

  lemma RehashBucket(cfg: Config, t: Table, l: nat, b: nat)
    requires l < |t.mig| && !t.mig[l] && t.rem == Unmigrated(t.mig) && t.rem > 0 && b < |t.cur|
    ensures BucketView(cfg, Rehash(cfg, t, l), b) == BucketView(cfg, t, b)
  {
    var t' := Rehash(cfg, t, l);
    MigratedAt(cfg, t, l, b);
    if t.rem == 1 {
      UnmigratedUpdate(t.mig, l);
      UnmigratedZero(t'.mig);
      assert !Pending(cfg, t', b);
    }
  }

  lemma RehashView(cfg: Config, t: Table, l: nat)
    requires l < |t.mig| && !t.mig[l] && t.rem == Unmigrated(t.mig) && t.rem > 0
    ensures View(cfg, Rehash(cfg, t, l)) == View(cfg, t)
  {
    forall b | 0 <= b < |t.cur| ensures Same(View(cfg, Rehash(cfg, t, l))[b], View(cfg, t)[b]) {
      RehashBucket(cfg, t, l, b);
      ViewAt(cfg, t, b);
      ViewAt(cfg, Rehash(cfg, t, l), b);
    }
  }

  lemma RehashShape(cfg: Config, t: Table, l: nat)
    requires Shape(cfg, t) && l < |t.mig| && !t.mig[l] && t.rem > 0
    ensures Shape(cfg, Rehash(cfg, t, l))
  {
    var t' := Rehash(cfg, t, l);
    UnmigratedUpdate(t.mig, l);
    forall b | 0 <= b < |t.cur| ensures BucketOk(cfg, t.hp, b, t'.cur[b]) {
      ViewOk(cfg, t, b);
      ViewAt(cfg, t, b);
      MigratedAt(cfg, t, l, b);
      assert BucketOk(cfg, t.hp, b, t.cur[b]);
    }
    forall b | 0 <= b < |t.cur| && Pending(cfg, t', b) ensures Same(t'.cur[b], VacantBucket(cfg.slots)) {
      assert Pending(cfg, t, b);
      MigratedAt(cfg, t, l, b);
    }
  }

  /** From `t` to `t'` nothing but the progress of migration has changed. */
  ghost predicate Later(cfg: Config, t: Table, t': Table) {
    && Inv(cfg, t') && t'.hp == t.hp && t'.cnt == t.cnt && |t'.mig| == |t.mig|
    && View(cfg, t') == View(cfg, t)
    && forall l :: 0 <= l < |t.mig| && t.mig[l] ==> t'.mig[l]
  }

  lemma RehashLater(cfg: Config, t: Table, l: nat)
    requires Inv(cfg, t) && l < |t.mig|
    ensures !t.mig[l] ==> t.rem > 0
    ensures Later(cfg, t, Rehash(cfg, t, l)) && Rehash(cfg, t, l).mig[l]
  {
    RehashKeeps(cfg, t, l);
  }

  /** Migration under lock `l` writes only to buckets of lock `l`, and only to vacant ones; the old
      storage is released exactly when that was the last lock to migrate. */
  lemma RehashIsLocal(cfg: Config, t: Table, l: nat)
    requires Inv(cfg, t) && l < |t.mig| && !t.mig[l]
    ensures t.rem > 0 && t.prev != []
    ensures forall b :: 0 <= b < |t.cur| && cfg.lock(b) != l ==> Rehash(cfg, t, l).cur[b] == t.cur[b]
    ensures forall b :: 0 <= b < |t.cur| && cfg.lock(b) == l ==> t.cur[b] == VacantBucket(cfg.slots)
    ensures Rehash(cfg, t, l).prev == [] <==> forall l' :: 0 <= l' < |t.mig| && l' != l ==> t.mig[l']
  {
    UnmigratedZero(t.mig);
    UnmigratedUpdate(t.mig, l);
    var t' := Rehash(cfg, t, l);
    UnmigratedZero(t'.mig);
    forall b | 0 <= b < |t.cur| && cfg.lock(b) != l ensures Same(t'.cur[b], t.cur[b]) {
      MigratedAt(cfg, t, l, b);
    }
    forall b | 0 <= b < |t.cur| && cfg.lock(b) == l ensures t.cur[b] == VacantBucket(cfg.slots) {
      assert Pending(cfg, t, b);
    }
    assert forall l' :: 0 <= l' < |t.mig| && l' != l ==> t'.mig[l'] == t.mig[l'];
  }

  // ---------- doubling and clearing ----------

  ghost function StayTo(cfg: Config, hp: nat, v: seq<Bucket>, n: nat): (w: seq<Bucket>)
    requires n <= |v|
    ensures |w| == n
  {
    if n == 0 then [] else StayTo(cfg, hp, v, n - 1) + [Stay(cfg, hp, n - 1, v[n - 1])]
  }

  ghost function RiseTo(cfg: Config, hp: nat, v: seq<Bucket>, n: nat): (w: seq<Bucket>)
    requires n <= |v|
    ensures |w| == n
  {
    if n == 0 then [] else RiseTo(cfg, hp, v, n - 1) + [Rise(cfg, hp, n - 1, v[n - 1])]
  }

  lemma {:induction false} SplitToAt(cfg: Config, hp: nat, v: seq<Bucket>, n: nat, b: nat)
    requires b < n <= |v|
    ensures StayTo(cfg, hp, v, n)[b] == Stay(cfg, hp, b, v[b]) && RiseTo(cfg, hp, v, n)[b] == Rise(cfg, hp, b, v[b])
  {
    if b < n - 1 {
      SplitToAt(cfg, hp, v, n - 1, b);
    }
  }

  /** The container twice the size with every bucket split. */
  ghost function Split(cfg: Config, hp: nat, v: seq<Bucket>): (w: seq<Bucket>)
    ensures |w| == 2 * |v|
  {
    StayTo(cfg, hp, v, |v|) + RiseTo(cfg, hp, v, |v|)
  }

  lemma SplitAt(cfg: Config, hp: nat, v: seq<Bucket>, b: nat)
    requires b < 2 * |v|
    ensures Same(Split(cfg, hp, v)[b], SplitBucket(cfg, hp, v, b))
  {
    SplitToAt(cfg, hp, v, |v|, if b < |v| then b else b - |v|);
  }

  lemma SplitTotal(cfg: Config, hp: nat, v: seq<Bucket>)
    ensures Total(Split(cfg, hp, v)) == Total(v)
  {
    TotalConcat(StayTo(cfg, hp, v, |v|), RiseTo(cfg, hp, v, |v|));
    SplitPrefix(cfg, hp, v, |v|);
    assert v[..|v|] == v;
  }

  lemma {:induction false} SplitPrefix(cfg: Config, hp: nat, v: seq<Bucket>, n: nat)
    requires n <= |v|
    ensures Total(StayTo(cfg, hp, v, n)) + Total(RiseTo(cfg, hp, v, n)) == Total(v[..n])
  {
    if n != 0 {
      SplitPrefix(cfg, hp, v, n - 1);
      SplitEntries(cfg, hp, n - 1, v[n - 1]);
      TakeSnoc(v, n - 1);
      BothSnoc(StayTo(cfg, hp, v, n - 1), RiseTo(cfg, hp, v, n - 1), v[..n - 1],
               Stay(cfg, hp, n - 1, v[n - 1]), Rise(cfg, hp, n - 1, v[n - 1]), v[n - 1]);
    }
  }

  lemma TakeSnoc<T>(v: seq<T>, n: nat)
    requires n < |v|
    ensures v[..n + 1] == v[..n] + [v[n]]
  {
  }

  lemma BothSnoc(x: seq<Bucket>, y: seq<Bucket>, z: seq<Bucket>, p: Bucket, q: Bucket, r: Bucket)
    requires Total(x) + Total(y) == Total(z) && Entries(p) + Entries(q) == Entries(r)
    ensures Total(x + [p]) + Total(y + [q]) == Total(z + [r])
  {
    TotalSnoc(x, p);
    TotalSnoc(y, q);
    TotalSnoc(z, r);
    Regroup(Total(x), Entries(p), Total(y), Entries(q));
  }

  lemma TotalSnoc(v: seq<Bucket>, b: Bucket)
    ensures Total(v + [b]) == Total(v) + Entries(b)
  {
    TotalConcat(v, [b]);
    assert [b][1..] == [];
  }

  function VacantBuckets(n: nat, slots: nat): (v: seq<Bucket>)
    ensures |v| == n && forall b :: 0 <= b < n ==> Same(v[b], VacantBucket(slots))
  {
    if n == 0 then [] else VacantBuckets(n - 1, slots) + [VacantBucket(slots)]
  }

  ghost function GrowCounters(cnt: seq<int>, n: nat): (r: seq<int>) {
    if n <= |cnt| then cnt else cnt + Zeros(n - |cnt|)
  }

  /** cuckoo_fast_double: all pending data is migrated, then the table doubles, lazily if there are
      at least as many buckets as locks. */
  ghost function Double(cfg: Config, t: Table): (t': Table) {
    var v := View(cfg, t);
    var n := NumLocks(cfg, t.hp + 1);
    if Pow2(t.hp) < MaxLocks(cfg) then
      Table(t.hp + 1, Split(cfg, t.hp, v), [], Flags(n, true), GrowCounters(t.cnt, n), 0)
    else
      Table(t.hp + 1, VacantBuckets(Pow2(t.hp + 1), cfg.slots), v, Flags(n, false), GrowCounters(t.cnt, n), n)
  }

  lemma GrowCountersSum(cnt: seq<int>, n: nat)
    ensures Sum(GrowCounters(cnt, n)) == Sum(cnt)
  {
    if n > |cnt| {
      SumConcat(cnt, Zeros(n - |cnt|));
      SumZeros(n - |cnt|);
    }
  }

  lemma DoubleBucket(cfg: Config, t: Table, b: nat)
    requires Laws(cfg) && |t.cur| == Pow2(t.hp) && b < Pow2(t.hp + 1)
    ensures |Double(cfg, t).cur| == Pow2(t.hp + 1)
    ensures BucketView(cfg, Double(cfg, t), b) == SplitBucket(cfg, t.hp, View(cfg, t), b)
  {
    var t' := Double(cfg, t);
    SplitAt(cfg, t.hp, View(cfg, t), b);
    assert LockStays(cfg, t.hp + 1, b);
    assert Pending(cfg, t', b) <==> MaxLocks(cfg) <= Pow2(t.hp);
  }

  lemma DoubleView(cfg: Config, t: Table)
    requires Laws(cfg) && |t.cur| == Pow2(t.hp)
    ensures View(cfg, Double(cfg, t)) == Split(cfg, t.hp, View(cfg, t))
  {
    var v, w := View(cfg, Double(cfg, t)), Split(cfg, t.hp, View(cfg, t));
    DoubleBucket(cfg, t, 0);
    forall b | 0 <= b < |v| ensures Same(v[b], w[b]) {
      SplitAt(cfg, t.hp, View(cfg, t), b);
      DoubleBucket(cfg, t, b);
      ViewAt(cfg, Double(cfg, t), b);
    }
  }

  lemma SplitOk(cfg: Config, hp: nat, v: seq<Bucket>)
    requires Laws(cfg) && |v| == Pow2(hp) && forall c :: 0 <= c < |v| ==> BucketOk(cfg, hp, c, v[c])
    ensures forall b :: 0 <= b < 2 * |v| ==> BucketOk(cfg, hp + 1, b, Split(cfg, hp, v)[b])
  {
    forall b | 0 <= b < 2 * |v| ensures BucketOk(cfg, hp + 1, b, Split(cfg, hp, v)[b]) {
      SplitAt(cfg, hp, v, b);
      SplitBucketOk(cfg, hp, v, b);
    }
  }

  lemma DoubleShape(cfg: Config, t: Table)
    requires Shape(cfg, t)
    ensures Shape(cfg, Double(cfg, t))
  {
    var v, t' := View(cfg, t), Double(cfg, t);
    UnmigratedFlags(NumLocks(cfg, t.hp + 1), Pow2(t.hp) < MaxLocks(cfg));
    forall b | 0 <= b < |v| ensures BucketOk(cfg, t.hp, b, v[b]) {
      ViewOk(cfg, t, b);
    }
    if Pow2(t.hp) < MaxLocks(cfg) {
      SplitOk(cfg, t.hp, v);
    }
  }

  /** Doubling keeps the key-value map, the invariant and the total of the counters. */
  lemma DoubleKeeps(cfg: Config, t: Table)
    requires Inv(cfg, t)
    ensures Inv(cfg, Double(cfg, t))
    ensures Abs(cfg, Double(cfg, t)) == Abs(cfg, t)
  {
    DoubleView(cfg, t);
    DoubleShape(cfg, t);
    SplitTotal(cfg, t.hp, View(cfg, t));
    GrowCountersSum(t.cnt, NumLocks(cfg, t.hp + 1));
  }

  /** cuckoo_clear */
  ghost function Clear(cfg: Config, t: Table): (t': Table) {
    Table(t.hp, VacantBuckets(|t.cur|, cfg.slots), [], Flags(|t.mig|, true), Zeros(|t.cnt|), 0)
  }

  ghost function Empty(cfg: Config, hp: nat): (t: Table) {
    Table(hp, VacantBuckets(Pow2(hp), cfg.slots), VacantBuckets(1, cfg.slots),
          Flags(NumLocks(cfg, hp), true), Zeros(NumLocks(cfg, hp)), 0)
  }

  lemma VacantTable(cfg: Config, t: Table)
    requires Laws(cfg) && |t.mig| == |t.cnt| == NumLocks(cfg, t.hp)
    requires t.cur == VacantBuckets(Pow2(t.hp), cfg.slots)
    requires t.mig == Flags(|t.mig|, true) && t.cnt == Zeros(|t.cnt|) && t.rem == 0
    ensures Inv(cfg, t) && Abs(cfg, t) == map[]
  {
    VacantShape(cfg, t);
    VacantHeld(cfg, t);
    SumZeros(|t.cnt|);
    assert Contents(multiset{}) == map[];
  }

  lemma VacantHeld(cfg: Config, t: Table)
    requires t.cur == VacantBuckets(Pow2(t.hp), cfg.slots) && t.mig == Flags(|t.mig|, true)
    ensures Held(cfg, t) == multiset{}
  {
    UnmigratedFlags(|t.mig|, true);
    NothingPending(cfg, t);
    EntriesVacant(cfg.slots);
    TotalVacant(t.cur);
  }

  lemma VacantShape(cfg: Config, t: Table)
    requires Laws(cfg) && |t.mig| == |t.cnt| == NumLocks(cfg, t.hp)
    requires t.cur == VacantBuckets(Pow2(t.hp), cfg.slots) && t.mig == Flags(|t.mig|, true) && t.rem == 0
    ensures Shape(cfg, t)
  {
    UnmigratedFlags(|t.mig|, true);
  }

  lemma ClearKeeps(cfg: Config, t: Table)
    requires Inv(cfg, t)
    ensures Inv(cfg, Clear(cfg, t)) && Abs(cfg, Clear(cfg, t)) == map[]
  {
    VacantTable(cfg, Clear(cfg, t));
  }

  lemma EmptyHolds(cfg: Config, hp: nat)
    requires Laws(cfg)
    ensures Inv(cfg, Empty(cfg, hp)) && Abs(cfg, Empty(cfg, hp)) == map[]
  {
    VacantTable(cfg, Empty(cfg, hp));
  }

  /** The sum of the per-lock counters is the number of keys. */
  lemma SizeIsKeyCount(cfg: Config, t: Table)
    requires Inv(cfg, t)
    ensures Sum(t.cnt) == |Abs(cfg, t)|
  {
    ContentsSize(Held(cfg, t));
  }

  // ---------- looking up ----------

  ghost predicate HoldsAt(t: Table, k: Key, b: nat, s: nat) {
    b < |t.cur| && s < |t.cur[b]| && t.cur[b][s].Full? && t.cur[b][s].e.key == k
  }

  /** With both buckets migrated, a key is present exactly when one of them holds it. */
  lemma LookupTwoBuckets(cfg: Config, t: Table, k: Key)
    requires Inv(cfg, t)
    requires !Pending(cfg, t, Home(cfg, t.hp, k)) && !Pending(cfg, t, Other(cfg, t.hp, k))
    ensures k in Abs(cfg, t) ==> exists b: nat, s: nat :: HoldsAt(t, k, b, s) && Placed(cfg, t.hp, k, b)
    ensures forall b: nat, s: nat :: HoldsAt(t, k, b, s) ==> k in Abs(cfg, t) && Abs(cfg, t)[k] == t.cur[b][s].e.val
  {
    var m := Held(cfg, t);
    if k in Abs(cfg, t) {
      var e := EntryOf(m, k);
      var b, s := Find(View(cfg, t), e);
      ViewOk(cfg, t, b);
      ViewAt(cfg, t, b);
      assert SlotOk(cfg, t.hp, b, View(cfg, t)[b][s]);
      assert HoldsAt(t, k, b, s);
    }
    forall b: nat, s: nat | HoldsAt(t, k, b, s) ensures k in Abs(cfg, t) && Abs(cfg, t)[k] == t.cur[b][s].e.val {
      FullIsHeld(cfg, t, b, s);
      ContentsAt(m, t.cur[b][s].e);
    }
  }

  /** Migrated or not, a key stands in one of its two buckets. */
  lemma InView(cfg: Config, t: Table, k: Key) returns (b: nat, s: nat)
    requires Inv(cfg, t) && k in Abs(cfg, t)
    ensures b < |t.cur| && Placed(cfg, t.hp, k, b)
    ensures s < |View(cfg, t)[b]| && View(cfg, t)[b][s].Full? && View(cfg, t)[b][s].e.key == k
  {
    var e := EntryOf(Held(cfg, t), k);
    b, s := Find(View(cfg, t), e);
    ViewOk(cfg, t, b);
    assert SlotOk(cfg, t.hp, b, View(cfg, t)[b][s]);
  }

  // ---------- searching a bucket ----------

  /** try_read_from_bucket: the first slot from `i` on that holds `k`, or -1. */
  function SlotOf(cfg: Config, bkt: Bucket, tag: nat, k: Key, i: nat): (r: int)
    requires i <= |bkt|
    ensures -1 <= r < |bkt|
    ensures r >= 0 ==> r >= i && bkt[r].Full? && bkt[r].e.key == k
    decreases |bkt| - i
  {
    if i == |bkt| then -1
    else if bkt[i].Full? && (cfg.simple || bkt[i].e.partial == tag) && bkt[i].e.key == k then i
    else SlotOf(cfg, bkt, tag, k, i + 1)
  }

  lemma {:induction false} SlotOfMisses(cfg: Config, hp: nat, b: nat, bkt: Bucket, k: Key, i: nat)
    requires i <= |bkt| && SlotOf(cfg, bkt, Tag(cfg, k), k, i) == -1
    requires BucketOk(cfg, hp, b, bkt)
    ensures forall s :: i <= s < |bkt| && bkt[s].Full? ==> bkt[s].e.key != k
    decreases |bkt| - i
  {
    if i < |bkt| {
      assert SlotOk(cfg, hp, b, bkt[i]);
      SlotOfMisses(cfg, hp, b, bkt, k, i + 1);
    }
  }

  /** The last vacant slot among the first `n`, or -1. */
  function LastVacant(bkt: Bucket, n: nat): (r: int)
    requires n <= |bkt|
    ensures -1 <= r < n
    ensures r >= 0 ==> bkt[r] == Vacant
    ensures r == -1 ==> forall s :: 0 <= s < n ==> bkt[s].Full?
  {
    if n == 0 then -1 else if bkt[n - 1] == Vacant then n - 1 else LastVacant(bkt, n - 1)
  }

  datatype Place = Nowhere | At(b: nat, s: nat)

  /** cuckoo_find: look in both buckets. */
  function FindIn(cfg: Config, cur: seq<Bucket>, k: Key, i1: nat, i2: nat): (p: Place)
    requires i1 < |cur| && i2 < |cur|
    ensures p.At? ==> (p.b == i1 || p.b == i2) && p.s < |cur[p.b]| && cur[p.b][p.s].Full? && cur[p.b][p.s].e.key == k
  {
    var s1 := SlotOf(cfg, cur[i1], Tag(cfg, k), k, 0);
    if s1 >= 0 then At(i1, s1)
    else
      var s2 := SlotOf(cfg, cur[i2], Tag(cfg, k), k, 0);
      if s2 >= 0 then At(i2, s2) else Nowhere
  }

  ghost function Lookup(cfg: Config, t: Table, k: Key): (p: Place)
    requires Shape(cfg, t)
    ensures p.At? ==> HoldsAt(t, k, p.b, p.s) && Placed(cfg, t.hp, k, p.b)
  {
    assert InRange(cfg, t.hp, k);
    FindIn(cfg, t.cur, k, Home(cfg, t.hp, k), Other(cfg, t.hp, k))
  }

  /** Place `p` answers where key `k` is. */
  ghost predicate Located(cfg: Config, t: Table, k: Key, p: Place) {
    && (p.At? <==> k in Abs(cfg, t))
    && (p.At? ==> p.b < |t.cur| && p.s < cfg.slots && HoldsAt(t, k, p.b, p.s)
                  && Abs(cfg, t)[k] == t.cur[p.b][p.s].e.val)
  }

  /** With both buckets migrated, the two-bucket search finds a key exactly when it is present. */
  lemma LookupCorrect(cfg: Config, t: Table, k: Key)
    requires Inv(cfg, t)
    requires !Pending(cfg, t, Home(cfg, t.hp, k)) && !Pending(cfg, t, Other(cfg, t.hp, k))
    ensures Located(cfg, t, k, Lookup(cfg, t, k))
  {
    LookupTwoBuckets(cfg, t, k);
    assert InRange(cfg, t.hp, k);
    var p, i1, i2 := Lookup(cfg, t, k), Home(cfg, t.hp, k), Other(cfg, t.hp, k);
    if p == Nowhere && k in Abs(cfg, t) {
      var b: nat, s: nat :| HoldsAt(t, k, b, s) && Placed(cfg, t.hp, k, b);
      assert BucketOk(cfg, t.hp, i1, t.cur[i1]) && BucketOk(cfg, t.hp, i2, t.cur[i2]);
      SlotOfMisses(cfg, t.hp, i1, t.cur[i1], k, 0);
      SlotOfMisses(cfg, t.hp, i2, t.cur[i2], k, 0);
    }
  }

  /** Slot `s` of bucket `b` is vacant, is one of the two places for `k`, and may be written. */
  ghost predicate Free(cfg: Config, t: Table, k: Key, b: nat, s: nat) {
    && b < |t.cur| && s < cfg.slots && s < |t.cur[b]| && t.cur[b][s] == Vacant
    && Placed(cfg, t.hp, k, b) && !Pending(cfg, t, b)
  }
}
