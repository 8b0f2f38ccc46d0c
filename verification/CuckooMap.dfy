/** The cuckoo hash map with exclusive access: fixed-size arrays of buckets updated in place, lazy
    migration on every lock, breadth-first displacement and doubling, proved against the table values
    of `CuckooTable` and so against a plain map. */
module CuckooMap {
  import opened Bits
  import opened CuckooIndex
  import opened CuckooBuckets
  import opened CuckooTable
  import opened CuckooMigration
  import opened CuckooSearch
  import opened CuckooQueue
  import opened CuckooPath

  class Map {
    const cfg: Config
    var hp: nat
    var buckets: array<Bucket>
    var oldBuckets: array<Bucket>
    var migrated: seq<bool>   // is_migrated of every lock
    var counters: seq<int>    // elem_counter of every lock
    var remaining: nat

    /** The table as a value. */
    ghost function State(): (t: Table)
      reads this, buckets, oldBuckets
    {
      Table(hp, buckets[..], oldBuckets[..], migrated, counters, remaining)
    }

    ghost predicate Valid()
      reads this, buckets, oldBuckets
    {
      buckets != oldBuckets && Fits(cfg) && Inv(cfg, State())
    }

    /** The key-value map the object stands for. */
    ghost function Model(): (m: map<Key, Val>)
      reads this, buckets, oldBuckets
    {
      Abs(cfg, State())
    }

    // ---------- migration ----------

    /** move_bucket: split old bucket `b` over buckets `b` and `b + 2^(hp-1)`. */
    method MoveBucket(b: nat)
      requires hp >= 1 && buckets != oldBuckets && b < oldBuckets.Length && buckets.Length == 2 * oldBuckets.Length
      requires |oldBuckets[b]| == cfg.slots
      requires Same(buckets[b], VacantBucket(cfg.slots))
               && Same(buckets[b + oldBuckets.Length], VacantBucket(cfg.slots))
      modifies buckets
      ensures buckets[..] == PutHalves(cfg, hp - 1, old(buckets[..]), b, oldBuckets.Length, oldBuckets[b])
    {
      var bkt := oldBuckets[b];
      var up := b + oldBuckets.Length;
      var newSlot := 0;
      ghost var was := buckets[..];
      ghost var lows, highs, next := Parts(cfg, hp - 1, b, bkt);
      assert was == was[b := lows[0]][up := highs[0]];
      for s := 0 to cfg.slots
        invariant newSlot == next[s] && buckets[..] == was[b := lows[s]][up := highs[s]]
      {
        assert PartStep(cfg, hp - 1, b, bkt, lows, highs, next, s);
        PutStep(cfg, hp - 1, was, b, up, lows[s], highs[s], s, newSlot, bkt[s]);
        newSlot := MoveSlot(b, up, s, newSlot, bkt[s]);
      }
    }

    /** Move one slot: to its own place below, or to the next unused place above. */
    method MoveSlot(b: nat, up: nat, s: nat, newSlot: nat, x: Slot) returns (newSlot': nat)
      requires hp >= 1 && b < buckets.Length && up < buckets.Length && b != up
      requires s < |buckets[b]| && newSlot < |buckets[up]| && buckets[b][s] == Vacant && buckets[up][newSlot] == Vacant
      modifies buckets
      ensures buckets[..] == PutSlot(cfg, hp - 1, old(buckets[..]), b, up, s, newSlot, x)
      ensures newSlot' == if Leaves(cfg, hp - 1, b, x) then newSlot + 1 else newSlot
    {
      newSlot' := newSlot;
      assert buckets[b][s := Vacant] == buckets[b];
      if x.Full? {
        if GoesUp(cfg, hp - 1, x.e.key, b) {
          buckets[up] := buckets[up][newSlot := x];
          newSlot' := newSlot + 1;
        } else {
          buckets[b] := buckets[b][s := x];
        }
      }
    }

    /** Move every old bucket controlled by lock `l`. */
    method MoveBucketsOf(l: nat, ghost goal: seq<Bucket>)
      requires buckets != oldBuckets && Ready(cfg, State(), l, false) && !migrated[l] && |goal| == buckets.Length
      requires forall c :: 0 <= c < |goal| && cfg.lock(c) != l ==> Same(goal[c], buckets[c])
      requires SplitsAll(cfg, hp - 1, oldBuckets[..], goal, l)
      modifies buckets
      ensures buckets[..] == goal
    {
      ghost var was, base := buckets[..], 0;
      var b := l;
      MixedStart(cfg, hp - 1, l, was, goal);
      while b < oldBuckets.Length
        invariant b == base + l && Aligned(cfg, base)
        invariant Mixed(cfg, l, b, was, goal, buckets[..])
      {
        MoveNext(l, b, base, was, goal);
        b := b + MaxLocks(cfg);
        base := base + MaxLocks(cfg);
      }
      MixedEnd(cfg, l, b, was, goal, buckets[..]);
    }

    method MoveNext(l: nat, b: nat, ghost base: nat, ghost was: seq<Bucket>, ghost goal: seq<Bucket>)
      requires Laws(cfg) && hp >= 1 && buckets != oldBuckets
      requires oldBuckets.Length == Pow2(hp - 1) && buckets.Length == 2 * oldBuckets.Length
               && MaxLocks(cfg) <= oldBuckets.Length
      requires l < MaxLocks(cfg) && b == base + l && b < oldBuckets.Length && |oldBuckets[b]| == cfg.slots
      requires Aligned(cfg, base) && Mixed(cfg, l, base + l, was, goal, buckets[..])
      requires forall b :: 0 <= b < |was| && cfg.lock(b) == l ==> Same(was[b], VacantBucket(cfg.slots))
      requires SplitsAll(cfg, hp - 1, oldBuckets[..], goal, l)
      modifies buckets
      ensures Aligned(cfg, base + MaxLocks(cfg)) && Mixed(cfg, l, base + l + MaxLocks(cfg), was, goal, buckets[..])
    {
      ghost var now := buckets[..];
      MixedHere(cfg, hp - 1, l, base, was, goal, now);
      MixedNext(cfg, hp - 1, l, base, oldBuckets[..], was, goal, now);
      MoveBucket(b);
    }

    /** rehash_lock */
    method RehashLock(l: nat, lazy: bool)
      requires buckets != oldBuckets && Ready(cfg, State(), l, lazy)
      modifies this`remaining, this`oldBuckets, this`migrated, buckets
      ensures State() == if lazy then Rehash(cfg, old(State()), l) else RehashNow(cfg, old(State()), l)
      ensures oldBuckets == old(oldBuckets) || (lazy && fresh(oldBuckets))
    {
      if migrated[l] {
        return;
      }
      ghost var goal := Migrated(cfg, State(), l);
      MigratedSplits(cfg, State(), l);
      MoveBucketsOf(l, goal);
      migrated := migrated[l := true];
      if lazy {
        remaining := remaining - 1;
        if remaining == 0 {
          oldBuckets := new Bucket[0];
        }
      }
    }

    // ---------- taking locks ----------

    /** Bring lock `l` up to date, as taking it does. */
    method Take(l: nat)
      requires Valid() && l < |migrated|
      modifies this`remaining, this`oldBuckets, this`migrated, buckets
      ensures Valid() && Later(cfg, old(State()), State()) && migrated[l]
      ensures oldBuckets == old(oldBuckets) || fresh(oldBuckets)
    {
      ghost var t := State();
      RehashLater(cfg, t, l);
      ShapeReady(cfg, t, l);
      RehashLock(l, true);
    }

    /** lock_one: the lock of bucket `b` is migrated before the bucket is used. */
    method LockOne(b: nat)
      requires Valid() && b < buckets.Length
      modifies this`remaining, this`oldBuckets, this`migrated, buckets
      ensures Valid() && Later(cfg, old(State()), State()) && !Pending(cfg, State(), b)
      ensures oldBuckets == old(oldBuckets) || fresh(oldBuckets)
    {
      assert LockStays(cfg, hp, b);
      Take(cfg.lock(b));
    }

    /** lock_two */
    method LockTwo(i1: nat, i2: nat)
      requires Valid() && i1 < buckets.Length && i2 < buckets.Length
      modifies this`remaining, this`oldBuckets, this`migrated, buckets
      ensures Valid() && Later(cfg, old(State()), State())
      ensures !Pending(cfg, State(), i1) && !Pending(cfg, State(), i2)
      ensures oldBuckets == old(oldBuckets) || fresh(oldBuckets)
    {
      assert LockStays(cfg, hp, i1) && LockStays(cfg, hp, i2);
      var l1, l2 := cfg.lock(i1), cfg.lock(i2);
      if l2 < l1 {
        l1, l2 := l2, l1;
      }
      Take(l1);
      Take(l2);
    }

    /** lock_three: the three locks are sorted, then taken in order. */
    method LockThree(i1: nat, i2: nat, i3: nat)
      requires Valid() && i1 < buckets.Length && i2 < buckets.Length && i3 < buckets.Length
      modifies this`remaining, this`oldBuckets, this`migrated, buckets
      ensures Valid() && Later(cfg, old(State()), State())
      ensures !Pending(cfg, State(), i1) && !Pending(cfg, State(), i2) && !Pending(cfg, State(), i3)
      ensures oldBuckets == old(oldBuckets) || fresh(oldBuckets)
    {
      assert LockStays(cfg, hp, i1) && LockStays(cfg, hp, i2) && LockStays(cfg, hp, i3);
      var l0, l1, l2 := cfg.lock(i1), cfg.lock(i2), cfg.lock(i3);
      if l2 < l1 {
        l2, l1 := l1, l2;
      }
      if l2 < l0 {
        l2, l0 := l0, l2;
      }
      if l1 < l0 {
        l1, l0 := l0, l1;
      }
      Take(l0);
      Take(l1);
      Take(l2);
    }

    // ---------- lookup, update, erase ----------

    /** try_read_from_bucket */
    method TryRead(bkt: Bucket, k: Key) returns (r: int)
      ensures r == SlotOf(cfg, bkt, Tag(cfg, k), k, 0)
    {
      for i := 0 to |bkt|
        invariant SlotOf(cfg, bkt, Tag(cfg, k), k, 0) == SlotOf(cfg, bkt, Tag(cfg, k), k, i)
      {
        if bkt[i].Full? && (cfg.simple || bkt[i].e.partial == Tag(cfg, k)) && bkt[i].e.key == k {
          return i;
        }
      }
      return -1;
    }

    /** cuckoo_find */
    method CuckooFind(k: Key, i1: nat, i2: nat) returns (p: Place)
      requires i1 < buckets.Length && i2 < buckets.Length
      ensures p == FindIn(cfg, buckets[..], k, i1, i2)
    {
      var s := TryRead(buckets[i1], k);
      if s != -1 {
        return At(i1, s);
      }
      s := TryRead(buckets[i2], k);
      if s != -1 {
        return At(i2, s);
      }
      return Nowhere;
    }

    /** snapshot_and_lock_two followed by cuckoo_find: with both locks taken the search is decisive. */
    method Locate(k: Key) returns (p: Place)
      requires Valid()
      modifies this`remaining, this`oldBuckets, this`migrated, buckets
      ensures Valid() && Later(cfg, old(State()), State())
      ensures oldBuckets == old(oldBuckets) || fresh(oldBuckets)
      ensures Located(cfg, State(), k, p)
    {
      assert InRange(cfg, hp, k);
      LockTwo(Home(cfg, hp, k), Other(cfg, hp, k));
      p := CuckooFind(k, Home(cfg, hp, k), Other(cfg, hp, k));
      LookupCorrect(cfg, State(), k);
    }

    method Find(k: Key) returns (r: Maybe<Val>)
      requires Valid()
      modifies this`remaining, this`oldBuckets, this`migrated, buckets
      ensures Valid() && Model() == old(Model())
      ensures oldBuckets == old(oldBuckets) || fresh(oldBuckets)
      ensures r == if k in old(Model()) then Just(old(Model())[k]) else Nothing
    {
      var p := Locate(k);
      r := if p.At? then Just(buckets[p.b][p.s].e.val) else Nothing;
    }

    method Update(k: Key, v: Val) returns (found: bool)
      requires Valid()
      modifies this`remaining, this`oldBuckets, this`migrated, buckets
      ensures Valid() && found == (k in old(Model()))
      ensures Model() == if found then old(Model())[k := v] else old(Model())
      ensures oldBuckets == old(oldBuckets) || fresh(oldBuckets)
    {
      var p := Locate(k);
      found := p.At?;
      if found {
        SetValKeeps(cfg, State(), p.b, p.s, v);
        buckets[p.b] := buckets[p.b][p.s := Full(buckets[p.b][p.s].e.(val := v))];
      }
    }

    method Erase(k: Key) returns (found: bool)
      requires Valid()
      modifies this`remaining, this`oldBuckets, this`migrated, this`counters, buckets
      ensures Valid() && found == (k in old(Model()))
      ensures Model() == old(Model()) - {k}
      ensures oldBuckets == old(oldBuckets) || fresh(oldBuckets)
    {
      var p := Locate(k);
      found := p.At?;
      if found {
        DelKeeps(cfg, State(), p.b, p.s);
        DelFromBucket(p.b, p.s);
      }
    }

    /** del_from_bucket */
    method DelFromBucket(b: nat, s: nat)
      requires b < buckets.Length && s < |buckets[b]| && cfg.lock(b) < |counters| && buckets != oldBuckets
      modifies this`counters, buckets
      ensures State() == Del(cfg, old(State()), b, s)
    {
      buckets[b] := buckets[b][s := Vacant];
      counters := counters[cfg.lock(b) := counters[cfg.lock(b)] - 1];
    }

    /** add_to_bucket */
    method AddToBucket(b: nat, s: nat, e: Entry)
      requires b < buckets.Length && s < |buckets[b]| && cfg.lock(b) < |counters| && buckets != oldBuckets
      modifies this`counters, buckets
      ensures State() == Add(cfg, old(State()), b, s, e)
    {
      buckets[b] := buckets[b][s := Full(e)];
      counters := counters[cfg.lock(b) := counters[cfg.lock(b)] + 1];
    }

    /** size: the counters of single locks drift, their sum does not. */
    method Size() returns (n: int)
      requires Valid()
      ensures n == |Model()|
    {
      n := 0;
      ghost var c := counters;
      for i := 0 to |counters|
        invariant n + Sum(c[i..]) == Sum(c)
      {
        assert c[i..][1..] == c[i + 1..];
        n := n + counters[i];
      }
      SizeIsKeyCount(cfg, State());
    }

    // ---------- displacement ----------

    /** One round of slot_search: dequeue an item, lock its bucket and expand it. */
    method SearchOne(q: PathQueue, ghost v: seq<Bucket>, ghost i1: nat, ghost i2: nat, ghost paths: seq<Path>)
      returns (found: bool, x: Item, ghost paths': seq<Path>, ghost p: Path)
      requires Valid() && q.Valid() && q.first < q.last && q.items.Length == Start(cfg.slots, cfg.pathLen)
      requires Same(View(cfg, State()), v) && Searching(cfg, hp, v, i1, i2, q.All(), paths, q.first)
      modifies this`remaining, this`oldBuckets, this`migrated, buckets, q, q.items
      ensures Valid() && Later(cfg, old(State()), State())
      ensures oldBuckets == old(oldBuckets) || fresh(oldBuckets)
      ensures q.Valid() && q.first == old(q.first) + 1
      ensures found ==> FoundPath(cfg, hp, v, i1, i2, x, p)
      ensures !found ==> Searching(cfg, hp, v, i1, i2, q.All(), paths', q.first)
    {
      ExpandStart(cfg, hp, v, i1, i2, q.All(), paths, q.first);
      x := q.Dequeue();
      LockOne(x.bucket);
      ViewAt(cfg, State(), x.bucket);
      var slot;
      slot, paths', p := q.Expand(cfg, hp, x, buckets[x.bucket], v, i1, i2, paths);
      found := slot >= 0;
      if found {
        x := Item(x.bucket, Cut16(NextCode(cfg.slots, x.code, slot)), x.depth);
      }
    }

    /** The queue with the two start buckets in it. */
    method StartSearch(i1: nat, i2: nat, ghost v: seq<Bucket>) returns (q: PathQueue, ghost paths: seq<Path>)
      requires Valid() && i1 < buckets.Length && i2 < buckets.Length && Same(View(cfg, State()), v)
      ensures fresh(q) && fresh(q.items) && q.items.Length == Start(cfg.slots, cfg.pathLen)
      ensures q.Valid() && Searching(cfg, hp, v, i1, i2, q.All(), paths, q.first)
    {
      ViewGrid(cfg, State());
      SearchStart(cfg, hp, v, i1, i2);
      CapacityIsStart(cfg.slots, cfg.pathLen);
      q := new PathQueue(QueueCapacity(cfg.slots, cfg.pathLen));
      q.Enqueue(Item(i1, 0, 0));
      q.Enqueue(Item(i2, 1, 0));
      paths := [Path(false, []), Path(true, [])];
    }

    /** slot_search */
    method SlotSearch(i1: nat, i2: nat) returns (found: bool, x: Item, ghost p: Path)
      requires Valid() && i1 < buckets.Length && i2 < buckets.Length
      modifies this`remaining, this`oldBuckets, this`migrated, buckets
      ensures Valid() && Later(cfg, old(State()), State())
      ensures oldBuckets == old(oldBuckets) || fresh(oldBuckets)
      ensures found ==> FoundPath(cfg, hp, View(cfg, State()), i1, i2, x, p)
      ensures !found ==> NoPath(cfg, hp, View(cfg, State()), i1, i2)
    {
      ghost var t := State();
      ghost var v := View(cfg, t);
      var q;
      ghost var paths;
      q, paths := StartSearch(i1, i2, v);
      while q.first < q.last
        invariant Valid() && Later(cfg, t, State())
        invariant oldBuckets == old(oldBuckets) || fresh(oldBuckets)
        invariant q.Valid() && Searching(cfg, hp, v, i1, i2, q.All(), paths, q.first)
        decreases q.items.Length - q.first
      {
        found, x, paths, p := SearchOne(q, v, i1, i2, paths);
        if found {
          return;
        }
      }
      SearchFailed(cfg, hp, v, i1, i2, q.All(), paths);
      return false, Item(0, 0, 0), Path(false, []);
    }

    /** cuckoopath_search: decode the path that was found and note the hash of every key on it. */
    method PathSearch(i1: nat, i2: nat) returns (depth: int, recs: seq<Record>, ghost x: Item, ghost p: Path)
      requires Valid() && i1 < buckets.Length && i2 < buckets.Length
      modifies this`remaining, this`oldBuckets, this`migrated, buckets
      ensures Valid() && Later(cfg, old(State()), State())
      ensures oldBuckets == old(oldBuckets) || fresh(oldBuckets)
      ensures depth == -1 ==> NoPath(cfg, hp, View(cfg, State()), i1, i2)
      ensures depth != -1 ==> depth == x.depth && FoundPath(cfg, hp, View(cfg, State()), i1, i2, x, p)
      ensures depth != -1 ==> Recorded(cfg, hp, View(cfg, State()), StartOf(i1, i2, p), p.slots, recs, |p.slots|)
    {
      var found, y;
      found, y, p := SlotSearch(i1, i2);
      x := y;
      if !found {
        return -1, [], x, p;
      }
      var code, slots := Decode(cfg.slots, y, p);
      depth, recs := Walk(slots, if code == 0 then i1 else i2, i1, i2, y, p);
    }

    /** The second half of cuckoopath_search: fill in buckets and hashes from the start on. */
    method Walk(slots: seq<nat>, start: nat, ghost i1: nat, ghost i2: nat, x: Item, ghost p: Path)
      returns (depth: nat, recs: seq<Record>)
      requires Valid() && Same(slots, p.slots)
      requires FoundPath(cfg, hp, View(cfg, State()), i1, i2, x, p) && start == StartOf(i1, i2, p)
      modifies this`remaining, this`oldBuckets, this`migrated, buckets
      ensures Valid() && Later(cfg, old(State()), State()) && depth == x.depth
      ensures oldBuckets == old(oldBuckets) || fresh(oldBuckets)
      ensures Recorded(cfg, hp, View(cfg, State()), start, p.slots, recs, |p.slots|)
    {
      ghost var t := State();
      ghost var v := View(cfg, t);
      ViewGrid(cfg, t);
      var b := start;
      recs := [];
      for i := 0 to x.depth + 1
        invariant Valid() && Later(cfg, t, State())
        invariant oldBuckets == old(oldBuckets) || fresh(oldBuckets)
        invariant i <= x.depth ==> b == Reach(cfg, hp, v, start, p.slots[..i])
        invariant |recs| == i && Recorded(cfg, hp, v, start, p.slots, recs, i)
      {
        var vacant;
        vacant, recs, b := WalkOne(recs, slots[i], b, i1, i2, x, p, v);
        if vacant {
          return i, recs;
        }
      }
      return x.depth, recs;
    }

    /** One round of the walk: note the key in the next bucket and go on to its alternate bucket. */
    method WalkOne(recs: seq<Record>, s: nat, b: nat, ghost i1: nat, ghost i2: nat, ghost x: Item, ghost p: Path,
                   ghost v: seq<Bucket>)
      returns (vacant: bool, recs': seq<Record>, b': nat)
      requires Valid() && Same(View(cfg, State()), v) && Walking(cfg, hp, v, i1, i2, x, p, recs, b)
      requires |recs| < |p.slots| && s == p.slots[|recs|]
      modifies this`remaining, this`oldBuckets, this`migrated, buckets
      ensures Valid() && Later(cfg, old(State()), State())
      ensures oldBuckets == old(oldBuckets) || fresh(oldBuckets)
      ensures |recs'| == |recs| + 1 && Recorded(cfg, hp, v, StartOf(i1, i2, p), p.slots, recs', |recs| + 1)
      ensures vacant <==> |recs| == x.depth
      ensures !vacant ==> b' == Reach(cfg, hp, v, StartOf(i1, i2, p), p.slots[..|recs| + 1])
    {
      WalksOn(cfg, hp, v, i1, i2, x, p, recs, b);
      var y := ReadSlot(b, s, v);
      vacant := y.Vacant?;
      recs' := recs + [Noted(cfg, b, s, y)];
      b' := if vacant then b else cfg.alt(hp, Tag(cfg, y.e.key), b);
    }

    /** One slot, read under the lock of its bucket. */
    method ReadSlot(b: nat, s: nat, ghost v: seq<Bucket>) returns (y: Slot)
      requires Valid() && b < buckets.Length && Same(View(cfg, State()), v) && s < |v[b]|
      modifies this`remaining, this`oldBuckets, this`migrated, buckets
      ensures Valid() && Later(cfg, old(State()), State()) && y == v[b][s]
      ensures oldBuckets == old(oldBuckets) || fresh(oldBuckets)
    {
      LockOne(b);
      ViewAt(cfg, State(), b);
      y := buckets[b][s];
    }

    /** One step of cuckoopath_move: setKV at the target, eraseKV at the source. */
    method MoveEntry(b: nat, s: nat, b': nat, s': nat)
      requires b < buckets.Length && s < |buckets[b]| && b' < buckets.Length && s' < |buckets[b']|
               && buckets != oldBuckets
      modifies buckets
      ensures State() == Displace(old(State()), b, s, b', s')
    {
      buckets[b'] := buckets[b'][s' := buckets[b][s]];
      buckets[b] := buckets[b][s := Vacant];
    }

    /** cuckoopath_move: with exclusive access every check passes, so the path found is carried through
        at the first try and frees a slot in one of the two target buckets. */
    method PathMove(recs: seq<Record>, depth: nat, i1: nat, i2: nat, ghost x: Item, ghost p: Path) returns (ok: bool)
      requires Valid() && i1 < buckets.Length && i2 < buckets.Length && depth == x.depth
      requires FoundPath(cfg, hp, View(cfg, State()), i1, i2, x, p)
      requires Recorded(cfg, hp, View(cfg, State()), StartOf(i1, i2, p), p.slots, recs, |p.slots|)
      modifies this`remaining, this`oldBuckets, this`migrated, buckets
      ensures ok && Valid() && Same(Model(), old(Model()))
      ensures oldBuckets == old(oldBuckets) || fresh(oldBuckets)
      ensures !Pending(cfg, State(), i1) && !Pending(cfg, State(), i2)
      ensures recs[0].bucket == StartOf(i1, i2, p) && recs[0].bucket < buckets.Length
      ensures recs[0].slot < |buckets[recs[0].bucket]| && buckets[recs[0].bucket][recs[0].slot] == Vacant
    {
      FoundRoute(cfg, State(), i1, i2, x, p, recs);
      if depth == 0 {
        LockTwo(i1, i2);
        ViewAt(cfg, State(), recs[0].bucket);
        ok := buckets[recs[0].bucket][recs[0].slot] == Vacant;
        return;
      }
      ok := MoveAll(recs, depth, i1, i2, View(cfg, State()));
      ViewAt(cfg, State(), recs[0].bucket);
    }

    /** Part-way through the moves: the map is still `m`, position `d` of the path is vacant, and at the
        end the two target buckets are locked and migrated. */
    ghost predicate OnRoute(recs: seq<Record>, d: nat, i1: nat, i2: nat, v: seq<Bucket>, m: map<Key, Val>)
      reads this, buckets, oldBuckets
    {
      true == (
        && Valid() && Same(Model(), m) && i1 < buckets.Length && i2 < buckets.Length
        && Route(cfg, hp, v, i1, i2, recs, d) && Moving(cfg, View(cfg, State()), v, recs, d)
      )
    }

    ghost predicate BothReady(i1: nat, i2: nat)
      reads this, buckets, oldBuckets
    {
      !Pending(cfg, State(), i1) && !Pending(cfg, State(), i2)
    }

    /** The loop of cuckoopath_move, from the vacant slot at the end back to the start. */
    method MoveAll(recs: seq<Record>, depth: nat, i1: nat, i2: nat, ghost v: seq<Bucket>) returns (ok: bool)
      requires depth >= 1 && OnRoute(recs, depth, i1, i2, v, Model())
      modifies this`remaining, this`oldBuckets, this`migrated, buckets
      ensures ok && OnRoute(recs, 0, i1, i2, v, old(Model())) && BothReady(i1, i2)
      ensures oldBuckets == old(oldBuckets) || fresh(oldBuckets)
    {
      ok := true;
      var d := depth;
      while ok && d > 0
        invariant ok && 0 <= d <= depth && OnRoute(recs, d, i1, i2, v, old(Model()))
        invariant oldBuckets == old(oldBuckets) || fresh(oldBuckets)
        invariant d == 0 ==> BothReady(i1, i2)
        decreases d
      {
        d := d - 1;
        ok := MoveOne(recs, d, i1, i2, v, old(Model()));
      }
    }

    /** One round of cuckoopath_move: the entry at position `d` of the path goes to position `d + 1`. */
    method MoveOne(recs: seq<Record>, d: nat, i1: nat, i2: nat, ghost v: seq<Bucket>, ghost m: map<Key, Val>)
      returns (ok: bool)
      requires OnRoute(recs, d + 1, i1, i2, v, m)
      modifies this`remaining, this`oldBuckets, this`migrated, buckets
      ensures ok && OnRoute(recs, d, i1, i2, v, m) && (d == 0 ==> BothReady(i1, i2))
      ensures oldBuckets == old(oldBuckets) || fresh(oldBuckets)
    {
      var f, g := recs[d], recs[d + 1];
      assert Linked(cfg, hp, v, recs, d) && Kept(cfg, View(cfg, State()), v, f);
      if d == 0 {
        LockThree(i1, i2, g.bucket);
      } else {
        LockTwo(f.bucket, g.bucket);
      }
      ok := CheckAndMove(recs, d, i1, i2, v, m);
    }

    /** Under the locks: check both positions again, then move the entry. */
    method CheckAndMove(recs: seq<Record>, d: nat, ghost i1: nat, ghost i2: nat, ghost v: seq<Bucket>,
                        ghost m: map<Key, Val>)
      returns (ok: bool)
      requires OnRoute(recs, d + 1, i1, i2, v, m) && BothReady(recs[d].bucket, recs[d + 1].bucket)
      modifies buckets
      ensures ok && OnRoute(recs, d, i1, i2, v, m)
    {
      var f, g := recs[d], recs[d + 1];
      assert Linked(cfg, hp, v, recs, d);
      MoveStep(cfg, State(), v, recs, d + 1);
      var y := buckets[f.bucket][f.slot];
      ok := buckets[g.bucket][g.slot].Vacant? && y.Full? && cfg.hash(y.e.key) == f.hash;
      if ok {
        MoveEntry(f.bucket, f.slot, g.bucket, g.slot);
      }
    }

    // ---------- doubling ----------

    /** First part of cuckoo_fast_double: migrate whatever is still pending. */
    method Settle()
      requires Valid()
      modifies this`remaining, this`oldBuckets, this`migrated, buckets
      ensures Same(State(), Settled(cfg, old(State()))) && fresh(oldBuckets)
    {
      ghost var t := State();
      for i := 0 to |migrated|
        invariant Settling(cfg, t, State(), i) && oldBuckets == old(oldBuckets)
      {
        CanSettle(cfg, t, State(), i);
        SettleStep(cfg, t, State(), i);
        RehashLock(i, false);
      }
      SettleEnd(cfg, t, State());
      remaining := 0;
      oldBuckets := new Bucket[0];
    }

    /** maybe_resize_locks: a larger lock array, old counters copied, new locks empty and migrated. */
    method GrowLocks(n: nat)
      requires |counters| == |migrated|
      modifies this`migrated, this`counters
      ensures |counters| == |migrated| == if n > |old(migrated)| then n else |old(migrated)|
      ensures old(counters) <= counters && old(migrated) <= migrated
      ensures forall l :: |old(counters)| <= l < |counters| ==> counters[l] == 0 && migrated[l]
      ensures Sum(counters) == Sum(old(counters))
    {
      GrowCountersSum(counters, n);
      if n > |migrated| {
        counters := counters + Zeros(n - |counters|);
        migrated := migrated + Flags(n - |migrated|, true);
      }
    }

    /** Last part of cuckoo_fast_double for a small table: split every bucket at once. */
    method SplitAll()
      requires hp >= 1 && buckets != oldBuckets && buckets.Length == 2 * oldBuckets.Length
      requires forall b :: 0 <= b < oldBuckets.Length ==> |oldBuckets[b]| == cfg.slots
      requires buckets[..] == VacantBuckets(buckets.Length, cfg.slots)
      modifies buckets
      ensures buckets[..] == Split(cfg, hp - 1, oldBuckets[..])
    {
      ghost var v := oldBuckets[..];
      for i := 0 to oldBuckets.Length
        invariant SplitTo(cfg, hp - 1, v, buckets[..], i)
      {
        SplitStep(cfg, hp - 1, v, buckets[..], i);
        MoveBucket(i);
      }
      HalvedEnd(buckets[..], Split(cfg, hp - 1, v), VacantBucket(cfg.slots), |v|);
    }

    /** cuckoo_fast_double */
    method FastDouble(currentHp: nat) returns (r: Resize)
      requires Valid()
      modifies this, buckets
      ensures Valid() && Model() == old(Model())
      ensures r == if currentHp + 1 > cfg.maxHp then HashpowerExceeded
              else if old(hp) != currentHp then UnderExpansion else Resized
      ensures Same(State(), if r == Resized then Double(cfg, old(State())) else old(State()))
      ensures hp == if r == Resized then old(hp) + 1 else old(hp)
      ensures r == Resized || (buckets == old(buckets) && oldBuckets == old(oldBuckets))
      ensures r == Resized ==> fresh(buckets) && (oldBuckets == old(buckets) || fresh(oldBuckets))
    {
      if currentHp + 1 > cfg.maxHp {
        return HashpowerExceeded;
      }
      if hp != currentHp {
        return UnderExpansion;
      }
      DoubleKeeps(cfg, State());
      DoubleNow();
      return Resized;
    }

    method DoubleNow()
      requires Valid()
      modifies this, buckets
      ensures Same(State(), Double(cfg, old(State()))) && buckets != oldBuckets
      ensures fresh(buckets) && (oldBuckets == old(buckets) || fresh(oldBuckets))
    {
      ghost var t := State();
      SettledReady(cfg, t);
      Settle();
      GrowAll();
      Renew(t);
    }

    /** Swap and refill, with everything migrated and enough locks. */
    method Renew(ghost t: Table)
      requires Shape(cfg, t) && buckets != oldBuckets
      requires Same(State(), Settled(cfg, t).(mig := Flags(NumLocks(cfg, t.hp + 1), true),
                                              cnt := GrowCounters(t.cnt, NumLocks(cfg, t.hp + 1))))
      modifies this`hp, this`buckets, this`oldBuckets, this`remaining, this`migrated
      ensures Same(State(), Double(cfg, t)) && buckets != oldBuckets
      ensures fresh(buckets) && (oldBuckets == old(buckets) || fresh(oldBuckets))
    {
      SettledReady(cfg, t);
      SwapBuckets();
      Refill();
    }

    /** As many locks as the doubled table needs. */
    method GrowAll()
      requires |counters| == |migrated|
      modifies this`migrated, this`counters
      ensures State() == old(State()).(cnt := GrowCounters(old(counters), NumLocks(cfg, hp + 1)),
              mig := GrowFlags(old(migrated), NumLocks(cfg, hp + 1)))
    {
      GrowLocks(NumLocks(cfg, hp + 1));
      GrownIs(old(counters), counters, old(migrated), migrated, NumLocks(cfg, hp + 1));
    }

    /** The current container becomes the old one, and a vacant one of twice the size takes its place. */
    method SwapBuckets()
      modifies this`hp, this`buckets, this`oldBuckets
      ensures State() == old(State()).(hp := old(hp) + 1, cur := VacantBuckets(Pow2(hp), cfg.slots),
              prev := old(buckets[..]))
      ensures oldBuckets == old(buckets) && fresh(buckets)
    {
      var b := NewBuckets(Pow2(hp + 1), cfg.slots);
      oldBuckets, buckets := buckets, b;
      hp := hp + 1;
    }

    /** The new container is filled at once if there are fewer old buckets than locks, and lazily
        otherwise. */
    method Refill()
      requires hp >= 1 && buckets != oldBuckets && buckets.Length == 2 * oldBuckets.Length
      requires forall b :: 0 <= b < oldBuckets.Length ==> |oldBuckets[b]| == cfg.slots
      requires buckets[..] == VacantBuckets(buckets.Length, cfg.slots)
      modifies this`remaining, this`oldBuckets, this`migrated, buckets
      ensures oldBuckets == old(oldBuckets) || fresh(oldBuckets)
      ensures if old(oldBuckets.Length) < MaxLocks(cfg)
              then State() == old(State()).(cur := Split(cfg, hp - 1, old(oldBuckets[..])), prev := [], rem := 0)
              else State() == old(State()).(mig := Flags(|old(migrated)|, false), rem := |old(migrated)|)
    {
      if oldBuckets.Length < MaxLocks(cfg) {
        SplitAll();
        remaining := 0;
        oldBuckets := new Bucket[0];
      } else {
        migrated := Flags(|migrated|, false);
        remaining := |migrated|;
      }
    }

    // ---------- insertion ----------

    /** run_cuckoo: free a slot in one of the two buckets, or establish that none can be freed. */
    method RunCuckoo(i1: nat, i2: nat) returns (ok: bool, b: nat, s: nat)
      requires Valid() && i1 < buckets.Length && i2 < buckets.Length
      modifies this`remaining, this`oldBuckets, this`migrated, buckets
      ensures Valid() && Same(Model(), old(Model()))
      ensures oldBuckets == old(oldBuckets) || fresh(oldBuckets)
      ensures ok ==> (b == i1 || b == i2) && s < cfg.slots && buckets[b][s] == Vacant
      ensures ok ==> !Pending(cfg, State(), i1) && !Pending(cfg, State(), i2)
      ensures !ok ==> NoPath(cfg, hp, View(cfg, State()), i1, i2)
    {
      ok, b, s := false, 0, 0;
      while !ok
        invariant Valid() && Same(Model(), old(Model())) && (oldBuckets == old(oldBuckets) || fresh(oldBuckets))
        invariant ok ==> (b == i1 || b == i2) && s < cfg.slots && buckets[b][s] == Vacant
        invariant ok ==> !Pending(cfg, State(), i1) && !Pending(cfg, State(), i2)
        decreases !ok
      {
        var depth, recs;
        ghost var x, p;
        depth, recs, x, p := PathSearch(i1, i2);
        if depth == -1 {
          break;
        }
        ok := PathMove(recs, depth, i1, i2, x, p);
        b, s := recs[0].bucket, recs[0].slot;
      }
    }

    /** try_find_insert_bucket */
    method TryFindInsert(bkt: Bucket, k: Key) returns (free: bool, slot: int)
      ensures free <==> SlotOf(cfg, bkt, Tag(cfg, k), k, 0) == -1
      ensures slot == if free then LastVacant(bkt, |bkt|) else SlotOf(cfg, bkt, Tag(cfg, k), k, 0)
    {
      slot := -1;
      for i := 0 to |bkt|
        invariant SlotOf(cfg, bkt, Tag(cfg, k), k, 0) == SlotOf(cfg, bkt, Tag(cfg, k), k, i)
        invariant slot == LastVacant(bkt, i)
      {
        if bkt[i].Full? {
          if (cfg.simple || bkt[i].e.partial == Tag(cfg, k)) && bkt[i].e.key == k {
            return false, i;
          }
        } else {
          slot := i;
        }
      }
      free := true;
    }

    /** cuckoo_insert: where to put a new entry for `k`, or why it cannot be put anywhere. */
    method CuckooInsert(k: Key) returns (st: Status, b: nat, s: nat)
      requires Valid() && !Pending(cfg, State(), Home(cfg, hp, k)) && !Pending(cfg, State(), Other(cfg, hp, k))
      modifies this`remaining, this`oldBuckets, this`migrated, buckets
      ensures Valid() && Same(Model(), old(Model()))
      ensures oldBuckets == old(oldBuckets) || fresh(oldBuckets)
      ensures st == Duplicated <==> k in Model()
      ensures st == Ok ==> Free(cfg, State(), k, b, s)
      ensures st == TableFull ==> NoPath(cfg, hp, View(cfg, State()), Home(cfg, hp, k), Other(cfg, hp, k))
    {
      var i1, i2 := Home(cfg, hp, k), Other(cfg, hp, k);
      assert InRange(cfg, hp, k);
      LookupCorrect(cfg, State(), k);
      var free1, s1 := TryFindInsert(buckets[i1], k);
      if !free1 {
        return Duplicated, i1, s1;
      }
      var free2, s2 := TryFindInsert(buckets[i2], k);
      if !free2 {
        return Duplicated, i2, s2;
      }
      if s1 != -1 {
        return Ok, i1, s1;
      }
      if s2 != -1 {
        return Ok, i2, s2;
      }
      st, b, s := MakeRoom(k, i1, i2);
    }

    /** The second half of cuckoo_insert: displace entries, then look for the key again. */
    method MakeRoom(k: Key, i1: nat, i2: nat) returns (st: Status, b: nat, s: nat)
      requires Valid() && i1 == Home(cfg, hp, k) && i2 == Other(cfg, hp, k) && k !in Model()
      modifies this`remaining, this`oldBuckets, this`migrated, buckets
      ensures Valid() && Same(Model(), old(Model()))
      ensures oldBuckets == old(oldBuckets) || fresh(oldBuckets)
      ensures st != Duplicated
      ensures st == Ok ==> Free(cfg, State(), k, b, s)
      ensures st == TableFull ==> NoPath(cfg, hp, View(cfg, State()), i1, i2)
    {
      assert InRange(cfg, hp, k);
      var ok;
      ok, b, s := RunCuckoo(i1, i2);
      if !ok {
        return TableFull, 0, 0;
      }
      var p := CuckooFind(k, i1, i2);
      LookupCorrect(cfg, State(), k);
      st := if p.At? then Duplicated else Ok;
    }

    /** One attempt of cuckoo_insert_loop: lock both buckets, then insert if there is or can be room. */
    method TryInsert(k: Key, v: Val) returns (st: Status)
      requires Valid()
      modifies this`remaining, this`oldBuckets, this`migrated, this`counters, buckets
      ensures Valid() && (oldBuckets == old(oldBuckets) || fresh(oldBuckets))
      ensures st == Duplicated <==> k in old(Model())
      ensures Same(Model(), if st == Ok then old(Model())[k := v] else old(Model()))
      ensures st == TableFull ==> NoPath(cfg, hp, View(cfg, State()), Home(cfg, hp, k), Other(cfg, hp, k))
    {
      assert InRange(cfg, hp, k);
      LockTwo(Home(cfg, hp, k), Other(cfg, hp, k));
      var b, s;
      st, b, s := CuckooInsert(k);
      if st == Ok {
        AddKeeps(cfg, State(), b, s, Entry(Tag(cfg, k), k, v));
        AddToBucket(b, s, Entry(Tag(cfg, k), k, v));
      }
    }

    /** cuckoo_insert_loop: try, and double the table when it is full. */
    method InsertLoop(k: Key, v: Val) returns (r: InsertResult)
      requires Valid()
      modifies this, buckets
      ensures Valid() && (buckets == old(buckets) || fresh(buckets))
      ensures r == AlreadyThere <==> k in old(Model())
      ensures Same(Model(), if r == Inserted then old(Model())[k := v] else old(Model()))
      ensures r == LimitReached
              ==> hp >= cfg.maxHp && NoPath(cfg, hp, View(cfg, State()), Home(cfg, hp, k), Other(cfg, hp, k))
    {
      while true
        invariant Valid() && Same(Model(), old(Model())) && (buckets == old(buckets) || fresh(buckets))
        decreases cfg.maxHp - hp
      {
        var st := TryInsert(k, v);
        match st
        case Ok => return Inserted;
        case Duplicated => return AlreadyThere;
        case TableFull =>
          var z := FastDouble(hp);
          if z == HashpowerExceeded {
            return LimitReached;
          }
      }
    }

    /** insert: a key that is present is never overwritten; an absent key is added unless the table may
        not grow any further and no displacement within reach can make room. */
    method Insert(k: Key, v: Val) returns (r: InsertResult)
      requires Valid()
      modifies this, buckets
      ensures Valid() && (buckets == old(buckets) || fresh(buckets))
      ensures r == AlreadyThere <==> k in old(Model())
      ensures Model() == if r == Inserted then old(Model())[k := v] else old(Model())
      ensures r == LimitReached
              ==> hp >= cfg.maxHp && NoPath(cfg, hp, View(cfg, State()), Home(cfg, hp, k), Other(cfg, hp, k))
    {
      r := InsertLoop(k, v);
    }

    // ---------- construction and clearing ----------

    constructor (cfg: Config, hp: nat)
      requires Laws(cfg) && Fits(cfg)
      ensures Valid() && fresh(buckets) && fresh(oldBuckets) && Model() == map[] && this.cfg == cfg && this.hp == hp
    {
      this.cfg, this.hp := cfg, hp;
      var b := NewBuckets(Pow2(hp), cfg.slots);
      var o := NewBuckets(1, cfg.slots);
      buckets, oldBuckets := b, o;
      migrated, counters := Flags(NumLocks(cfg, hp), true), Zeros(NumLocks(cfg, hp));
      remaining := 0;
      new;
      EmptyHolds(cfg, hp);
      assert State() == Empty(cfg, hp);
    }

    /** cuckoo_clear */
    method ClearAll()
      requires Valid()
      modifies this`remaining, this`oldBuckets, this`migrated, this`counters, buckets
      ensures Valid() && Model() == map[] && fresh(oldBuckets)
    {
      ClearKeeps(cfg, State());
      ghost var t := State();
      ClearBuckets();
      remaining := 0;
      oldBuckets := new Bucket[0];
      counters, migrated := Zeros(|counters|), Flags(|migrated|, true);
      assert State() == Clear(cfg, t);
    }

    method ClearBuckets()
      modifies buckets
      ensures buckets[..] == VacantBuckets(buckets.Length, cfg.slots)
    {
      for i := 0 to buckets.Length
        invariant forall k :: 0 <= k < i ==> Same(buckets[k], VacantBucket(cfg.slots))
      {
        buckets[i] := VacantBucket(cfg.slots);
      }
    }
  }

  datatype InsertResult = Inserted | AlreadyThere | LimitReached

  datatype Status = Ok | Duplicated | TableFull

  datatype Resize = Resized | UnderExpansion | HashpowerExceeded

  /** Freshly allocated, vacant buckets. */
  method NewBuckets(n: nat, slots: nat) returns (a: array<Bucket>)
    ensures fresh(a) && a[..] == VacantBuckets(n, slots)
  {
    a := new Bucket[n](i => []);
    for i := 0 to n
      invariant forall k :: 0 <= k < i ==> Same(a[k], VacantBucket(slots))
    {
      a[i] := VacantBucket(slots);
    }
  }
}
