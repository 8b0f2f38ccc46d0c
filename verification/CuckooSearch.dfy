/** The breadth-first search for a displacement path: base-S path codes, the layout of the search
    queue, and what the first path found is worth. */
module CuckooSearch {
  import B = Bits
  import opened CuckooIndex
  import opened CuckooBuckets

  // ---------- path codes ----------

  function Pow(a: nat, n: nat): (p: nat) {
    if n == 0 then 1 else a * Pow(a, n - 1)
  }

  lemma {:induction false} PowPositive(a: nat, n: nat)
    requires a >= 1
    ensures Pow(a, n) >= 1
  {
    if n != 0 {
      PowPositive(a, n - 1);
      assert a * Pow(a, n - 1) >= a * 1;
    }
  }

  /** A path: which of the two start buckets, then the slot taken in each bucket on the way. */
  datatype Path = Path(second: bool, slots: seq<nat>)

  function Front(p: Path): (q: Path)
    requires p.slots != []
  {
    Path(p.second, p.slots[..|p.slots| - 1])
  }

  function Extend(p: Path, s: nat): (q: Path)
    ensures |q.slots| == |p.slots| + 1 && q.slots[|p.slots|] == s && Front(q) == p
  {
    Path(p.second, p.slots + [s])
  }

  ghost predicate Digits(S: nat, p: Path) {
    forall i :: 0 <= i < |p.slots| ==> p.slots[i] < S
  }

  /** The code of a path after one more slot. */
  function NextCode(S: nat, c: nat, s: nat): (n: nat) {
    c * S + s
  }

  /** The path as a number in base `S`, the start bucket being the leading digit. */
  ghost function Code(S: nat, p: Path): (c: nat)
    decreases |p.slots|
  {
    if p.slots == [] then (if p.second then 1 else 0)
    else NextCode(S, Code(S, Front(p)), p.slots[|p.slots| - 1])
  }

  lemma {:induction false} CodeBound(S: nat, p: Path)
    requires S >= 1 && Digits(S, p)
    ensures Code(S, p) < 2 * Pow(S, |p.slots|)
    decreases |p.slots|
  {
    if p.slots != [] {
      CodeBound(S, Front(p));
      DigitBound(S, Code(S, Front(p)), Pow(S, |p.slots| - 1), p.slots[|p.slots| - 1]);
    }
  }

  lemma DigitBound(S: nat, c: nat, m: nat, d: nat)
    requires c < 2 * m && d < S
    ensures c * S + d < 2 * (S * m)
  {
    MulMono(c + 1, 2 * m, S);
  }

  lemma MulMono(a: nat, b: nat, S: nat)
    requires a <= b
    ensures a * S <= b * S
  {
  }

  /** Division by the base undoes one step of the encoding. */
  lemma DecodeDigit(S: nat, c: nat, d: nat)
    requires d < S
    ensures (c * S + d) % S == d && (c * S + d) / S == c
  {
    var n := c * S + d;
    var q, r := n / S, n % S;
    assert n == q * S + r;
    if q < c {
      MulMono(q + 1, c, S);
    } else if q > c {
      MulMono(c + 1, q, S);
    }
  }

  lemma {:induction false} PowMonotone(S: nat, n: nat, m: nat)
    requires S >= 1 && n <= m
    ensures Pow(S, n) <= Pow(S, m)
    decreases m
  {
    if n < m {
      PowMonotone(S, n, m - 1);
      MulMono(1, S, Pow(S, m - 1));
    }
  }

  /** The largest path: second start bucket, last slot every time. */
  ghost function Largest(S: nat, n: nat): (p: Path)
    requires S >= 1
    ensures |p.slots| == n && Digits(S, p)
  {
    Path(true, seq(n, i => S - 1))
  }

  lemma {:induction false} LargestCode(S: nat, n: nat)
    requires S >= 1
    ensures Code(S, Largest(S, n)) == 2 * Pow(S, n) - 1
  {
    if n != 0 {
      LargestCode(S, n - 1);
      assert Front(Largest(S, n)) == Largest(S, n - 1);
      assert (2 * Pow(S, n - 1) - 1) * S + S - 1 == 2 * (S * Pow(S, n - 1)) - 1;
    }
  }

  /** Path codes of up to `n` slots fit sixteen bits exactly when 2 * S^n does. */
  lemma CodesFit(S: nat, n: nat)
    requires S >= 1
    ensures (forall p: Path :: |p.slots| <= n && Digits(S, p) ==> Code(S, p) < 65536) <==> 2 * Pow(S, n) <= 65536
  {
    LargestCode(S, n);
    if 2 * Pow(S, n) <= 65536 {
      forall p: Path | |p.slots| <= n && Digits(S, p) ensures Code(S, p) < 65536 {
        CodeBound(S, p);
        PowMonotone(S, |p.slots|, n);
      }
    } else {
      assert |Largest(S, n).slots| <= n && Digits(S, Largest(S, n));
    }
  }

  /** The compile-time check S^n < 65535 is not enough: nine slots and five levels pass it, yet a path
      code overflows. */
  lemma CheckIsTooWeak()
    ensures Pow(9, 5) < 65535 && Code(9, Largest(9, 5)) >= 65536
  {
    LargestCode(9, 5);
    assert Pow(9, 2) == 81;
    assert Pow(9, 4) == 6561;
    assert Pow(9, 5) == 59049;
  }

  // ---------- walking along a path ----------

  /** A container of `Pow2(hp)` buckets of `slots` slots, whose stored partials are right. */
  ghost predicate Grid(cfg: Config, hp: nat, v: seq<Bucket>) {
    && Laws(cfg)
    && |v| == B.Pow2(hp)
    && (forall b :: 0 <= b < |v| ==> |v[b]| == cfg.slots)
    && (forall b, s :: 0 <= b < |v| && 0 <= s < |v[b]| && v[b][s].Full? ==>
        v[b][s].e.partial == Tag(cfg, v[b][s].e.key))
  }

  ghost predicate FullBucket(bkt: Bucket) {
    forall s :: 0 <= s < |bkt| ==> bkt[s].Full?
  }

  /** The bucket that an entry displaced from slot `s` of bucket `b` goes to. */
  ghost function Hop(cfg: Config, hp: nat, v: seq<Bucket>, b: nat, s: nat): (b': nat) {
    if b < |v| && s < |v[b]| && v[b][s].Full? then cfg.alt(hp, v[b][s].e.partial, b) else b
  }

  ghost function Reach(cfg: Config, hp: nat, v: seq<Bucket>, b: nat, slots: seq<nat>): (r: nat)
    decreases |slots|
  {
    if slots == [] then b
    else Hop(cfg, hp, v, Reach(cfg, hp, v, b, slots[..|slots| - 1]), slots[|slots| - 1])
  }

  /** Every slot on the way is occupied. */
  ghost predicate Walkable(cfg: Config, hp: nat, v: seq<Bucket>, b: nat, slots: seq<nat>)
    decreases |slots|
  {
    slots == [] ||
    var front, last := slots[..|slots| - 1], slots[|slots| - 1];
    && Walkable(cfg, hp, v, b, front)
    && var r := Reach(cfg, hp, v, b, front);
       r < |v| && last < |v[r]| && v[r][last].Full?
  }

  lemma {:induction false} ReachInRange(cfg: Config, hp: nat, v: seq<Bucket>, b: nat, slots: seq<nat>)
    requires Grid(cfg, hp, v) && b < |v|
    ensures Reach(cfg, hp, v, b, slots) < |v|
    decreases |slots|
  {
    if slots != [] {
      var front, last := slots[..|slots| - 1], slots[|slots| - 1];
      ReachInRange(cfg, hp, v, b, front);
      var r := Reach(cfg, hp, v, b, front);
      if last < |v[r]| && v[r][last].Full? {
        assert AltInRange(cfg, hp, v[r][last].e.partial, r);
      }
    }
  }

  lemma {:induction false} ReachConcat(cfg: Config, hp: nat, v: seq<Bucket>, b: nat, s: seq<nat>, t: seq<nat>)
    ensures Reach(cfg, hp, v, b, s + t) == Reach(cfg, hp, v, Reach(cfg, hp, v, b, s), t)
    ensures Walkable(cfg, hp, v, b, s + t) <==>
              Walkable(cfg, hp, v, b, s) && Walkable(cfg, hp, v, Reach(cfg, hp, v, b, s), t)
    decreases |t|
  {
    if t == [] {
      assert s + t == s;
    } else {
      ReachConcat(cfg, hp, v, b, s, t[..|t| - 1]);
      assert (s + t)[..|s + t| - 1] == s + t[..|t| - 1];
    }
  }

  ghost function StartOf(i1: nat, i2: nat, p: Path): (b: nat) {
    if p.second then i2 else i1
  }

  /** A bucket with a vacant slot reached by a walkable path; every shorter path ends at a full bucket. */
  ghost predicate Shortest(cfg: Config, hp: nat, v: seq<Bucket>, i1: nat, i2: nat, p: Path) {
    && Walkable(cfg, hp, v, StartOf(i1, i2, p), p.slots)
    && (forall q: Path :: |q.slots| < |p.slots| && Digits(cfg.slots, q) ==> EndsFull(cfg, hp, v, i1, i2, q))
    && Digits(cfg.slots, p)
    && var r := Reach(cfg, hp, v, StartOf(i1, i2, p), p.slots);
       r < |v| && !FullBucket(v[r])
  }

  ghost predicate EndsFull(cfg: Config, hp: nat, v: seq<Bucket>, i1: nat, i2: nat, q: Path) {
    var b := StartOf(i1, i2, q);
    Walkable(cfg, hp, v, b, q.slots) ==>
      Reach(cfg, hp, v, b, q.slots) < |v| && FullBucket(v[Reach(cfg, hp, v, b, q.slots)])
  }

  /** Cutting a loop out of a path changes neither its end nor whether it can be walked. */
  lemma CutLoop(cfg: Config, hp: nat, v: seq<Bucket>, b: nat, slots: seq<nat>, i: nat, j: nat)
    requires i <= j <= |slots| && Walkable(cfg, hp, v, b, slots)
    requires Reach(cfg, hp, v, b, slots[..i]) == Reach(cfg, hp, v, b, slots[..j])
    ensures Walkable(cfg, hp, v, b, slots[..i] + slots[j..])
    ensures Reach(cfg, hp, v, b, slots[..i] + slots[j..]) == Reach(cfg, hp, v, b, slots)
  {
    ReachConcat(cfg, hp, v, b, slots[..j], slots[j..]);
    assert slots[..j] + slots[j..] == slots;
    ReachConcat(cfg, hp, v, b, slots[..i], slots[i..]);
    assert slots[..i] + slots[i..] == slots;
    ReachConcat(cfg, hp, v, b, slots[..i], slots[j..]);
  }

  /** A shortest path never visits a bucket twice. */
  lemma ShortestIsSimple(cfg: Config, hp: nat, v: seq<Bucket>, i1: nat, i2: nat, p: Path, i: nat, j: nat)
    requires Shortest(cfg, hp, v, i1, i2, p) && i < j <= |p.slots|
    ensures Reach(cfg, hp, v, StartOf(i1, i2, p), p.slots[..i]) != Reach(cfg, hp, v, StartOf(i1, i2, p), p.slots[..j])
  {
    var b := StartOf(i1, i2, p);
    if Reach(cfg, hp, v, b, p.slots[..i]) == Reach(cfg, hp, v, b, p.slots[..j]) {
      CutLoop(cfg, hp, v, b, p.slots, i, j);
      var q := Path(p.second, p.slots[..i] + p.slots[j..]);
      ShorterIsFull(cfg, hp, v, i1, i2, p, q);
    }
  }

  lemma ShorterIsFull(cfg: Config, hp: nat, v: seq<Bucket>, i1: nat, i2: nat, p: Path, q: Path)
    requires Shortest(cfg, hp, v, i1, i2, p) && |q.slots| < |p.slots| && Digits(cfg.slots, q)
    ensures EndsFull(cfg, hp, v, i1, i2, q)
  {
  }

  // ---------- the search queue ----------

  datatype Item = Item(bucket: nat, code: nat, depth: nat)

  /** Index in the queue of the first child of item `j`: the two start buckets come first, then `S`
      children for each item. */
  ghost function Kids(S: nat, j: nat): (n: nat) {
    if j == 0 then 2 else S + Kids(S, j - 1)
  }

  lemma {:induction false} KidsClosedForm(S: nat, j: nat)
    ensures Kids(S, j) == 2 + S * j
  {
    if j != 0 {
      KidsClosedForm(S, j - 1);
      assert S * j == S * (j - 1) + S;
    }
  }

  lemma {:induction false} KidsApart(S: nat, i: nat, j: nat)
    requires i < j
    ensures Kids(S, i) + S <= Kids(S, j)
  {
    if i < j - 1 {
      KidsApart(S, i, j - 1);
    }
  }

  lemma {:induction false} KidsAhead(S: nat, j: nat)
    requires S >= 1
    ensures j + 2 <= Kids(S, j)
  {
    if j != 0 {
      KidsAhead(S, j - 1);
    }
  }

  /** Index in the queue of the first item of depth `d`: 2 + 2S + 2S^2 + ... */
  ghost function Start(S: nat, d: nat): (n: nat) {
    if d == 0 then 0 else Kids(S, Start(S, d - 1))
  }

  lemma {:induction false} StartGrows(S: nat, d: nat)
    requires S >= 1
    ensures Start(S, d) < Start(S, d + 1)
  {
    if d != 0 {
      StartGrows(S, d - 1);
      KidsApart(S, Start(S, d - 1), Start(S, d));
    }
  }

  lemma {:induction false} StartMonotone(S: nat, d: nat, e: nat)
    requires S >= 1 && d <= e
    ensures Start(S, d) <= Start(S, e)
    decreases e
  {
    if d < e {
      StartMonotone(S, d, e - 1);
      StartGrows(S, e - 1);
    }
  }

  /** The capacity of the queue in closed form, as the source computes it. */
  lemma {:induction false} CapacityClosedForm(S: nat, n: nat)
    requires S >= 1
    ensures S == 1 ==> Start(S, n) == 2 * n
    ensures (S - 1) * Start(S, n) == 2 * (Pow(S, n) - 1)
  {
    if n != 0 {
      CapacityClosedForm(S, n - 1);
      KidsClosedForm(S, Start(S, n - 1));
      GeometricStep(S, Start(S, n - 1), Pow(S, n - 1));
    }
  }

  lemma GeometricStep(S: int, x: int, p: int)
    requires (S - 1) * x == 2 * (p - 1)
    ensures (S - 1) * (2 + S * x) == 2 * (S * p - 1)
  {
    calc {
      (S - 1) * (2 + S * x);
      2 * (S - 1) + S * ((S - 1) * x);
      2 * (S - 1) + S * (2 * (p - 1));
      2 * (S * p - 1);
    }
  }

  lemma {:induction false} LevelUnique(S: nat, d: nat, e: nat, j: nat)
    requires S >= 1 && Start(S, d) <= j < Start(S, d + 1) && Start(S, e) <= j < Start(S, e + 1)
    ensures d == e
  {
    if d < e {
      StartMonotone(S, d + 1, e);
    } else if e < d {
      StartMonotone(S, e + 1, d);
    }
  }

  /** A child of an item of depth `d` is an item of depth `d + 1`. */
  lemma ChildLevel(S: nat, d: nat, j: nat, i: nat)
    requires S >= 1 && Start(S, d) <= j < Start(S, d + 1) && i < S
    ensures Start(S, d + 1) <= Kids(S, j) + i < Start(S, d + 2)
  {
    if Start(S, d) < j {
      KidsApart(S, Start(S, d), j);
    }
    KidsApart(S, j, Start(S, d + 1));
  }

  /** The slot a bucket's expansion starts from: `code % S`, by repeated subtraction. */
  function FirstSlot(S: nat, code: nat): (s: nat)
    requires S >= 1
    ensures s < S
  {
    if code < S then code else FirstSlot(S, code - S)
  }

  /** The slot looked at in iteration `i` when starting from slot `from`, wrapping around. */
  function Around(S: nat, from: nat, i: nat): (s: nat)
    requires from < S && i < S
    ensures s < S
  {
    if from + i < S then from + i else from + i - S
  }

  /** The two as the source writes them. */
  lemma {:induction false} SlotsAreRemainders(S: nat, code: nat, i: nat)
    requires i < S
    ensures FirstSlot(S, code) == code % S
    ensures Around(S, FirstSlot(S, code), i) == (code % S + i) % S
  {
    if code < S {
      DecodeDigit(S, 0, code);
    } else {
      SlotsAreRemainders(S, code - S, i);
      ModStep(S, code);
    }
    var from := FirstSlot(S, code);
    if from + i < S {
      DecodeDigit(S, 0, from + i);
    } else {
      DecodeDigit(S, 1, from + i - S);
    }
  }

  lemma ModStep(S: nat, n: nat)
    requires S >= 1 && n >= S
    ensures n % S == (n - S) % S
  {
    var q, r := (n - S) / S, (n - S) % S;
    assert n == (q + 1) * S + r;
    DecodeDigit(S, q + 1, r);
  }

  /** Every slot is looked at. */
  lemma AroundHits(S: nat, from: nat, s: nat) returns (i: nat)
    requires from < S && s < S
    ensures i < S && Around(S, from, i) == s
  {
    if from <= s {
      i := s - from;
    } else {
      i := S - from + s;
    }
  }

  ghost predicate ItemOk(cfg: Config, hp: nat, v: seq<Bucket>, i1: nat, i2: nat, x: Item, p: Path) {
    && Digits(cfg.slots, p)
    && Walkable(cfg, hp, v, StartOf(i1, i2, p), p.slots)
    && x.bucket == Reach(cfg, hp, v, StartOf(i1, i2, p), p.slots) && x.bucket < |v|
    && x.code == Code(cfg.slots, p)
    && x.depth == |p.slots|
  }

  /** Items are the paths they stand for, laid out level by level. */
  ghost predicate QueueOk(cfg: Config, hp: nat, v: seq<Bucket>, i1: nat, i2: nat, items: seq<Item>, paths: seq<Path>) {
    && |items| == |paths| >= 2
    && paths[0] == Path(false, []) && paths[1] == Path(true, [])
    && (forall j :: 0 <= j < |items| ==> ItemOk(cfg, hp, v, i1, i2, items[j], paths[j]))
    && (forall j :: 0 <= j < |items| ==> Start(cfg.slots, items[j].depth) <= j < Start(cfg.slots, items[j].depth + 1))
    && (forall j :: 0 <= j < |items| ==> items[j].depth < cfg.pathLen)
  }

  /** The first `i` children of item `j` are in the queue. */
  ghost predicate Children(cfg: Config, items: seq<Item>, paths: seq<Path>, j: nat, i: nat) {
    && j < |items| == |paths| && i <= cfg.slots && cfg.slots >= 1
    && (items[j].depth + 1 < cfg.pathLen ==>
          && Kids(cfg.slots, j) + i <= |items|
          && forall k :: 0 <= k < i ==>
               paths[Kids(cfg.slots, j) + k]
                 == Extend(paths[j], Around(cfg.slots, FirstSlot(cfg.slots, items[j].code), k)))
  }

  /** The first `n` items have been expanded: their buckets are full and their children are queued. */
  ghost predicate Expanded(cfg: Config, v: seq<Bucket>, items: seq<Item>, paths: seq<Path>, n: nat) {
    && n <= |items| == |paths|
    && forall j :: 0 <= j < n ==>
         items[j].bucket < |v| && FullBucket(v[items[j].bucket]) && Children(cfg, items, paths, j, cfg.slots)
  }

  lemma ChildIsQueued(cfg: Config, items: seq<Item>, paths: seq<Path>, parent: nat, s: nat) returns (j: nat)
    requires Children(cfg, items, paths, parent, cfg.slots) && items[parent].depth + 1 < cfg.pathLen && s < cfg.slots
    requires Start(cfg.slots, items[parent].depth) <= parent < Start(cfg.slots, items[parent].depth + 1)
    ensures j < |items| == |paths| && paths[j] == Extend(paths[parent], s)
    ensures Start(cfg.slots, items[parent].depth + 1) <= j < Start(cfg.slots, items[parent].depth + 2)
  {
    var i := AroundHits(cfg.slots, FirstSlot(cfg.slots, items[parent].code), s);
    ChildLevel(cfg.slots, items[parent].depth, parent, i);
    j := Kids(cfg.slots, parent) + i;
  }

  /** Every path whose proper prefixes have all been expanded is in the queue. */
  lemma {:induction false} PathIsQueued(cfg: Config, hp: nat, v: seq<Bucket>, i1: nat, i2: nat,
                                        items: seq<Item>, paths: seq<Path>, n: nat, q: Path) returns (j: nat)
    requires QueueOk(cfg, hp, v, i1, i2, items, paths) && Expanded(cfg, v, items, paths, n) && cfg.slots >= 1
    requires |q.slots| < cfg.pathLen && Start(cfg.slots, |q.slots|) <= n && Digits(cfg.slots, q)
    ensures j < |items| && paths[j] == q && Start(cfg.slots, |q.slots|) <= j < Start(cfg.slots, |q.slots| + 1)
    decreases |q.slots|
  {
    var S := cfg.slots;
    if q.slots == [] {
      j := if q.second then 1 else 0;
    } else {
      var d := |q.slots| - 1;
      StartGrows(S, d);
      var parent := PathIsQueued(cfg, hp, v, i1, i2, items, paths, n, Front(q));
      LevelUnique(S, d, items[parent].depth, parent);
      j := ChildIsQueued(cfg, items, paths, parent, q.slots[d]);
      assert Extend(Front(q), q.slots[d]) == q;
    }
  }

  /** All paths shorter than the item being looked at end at full buckets. */
  lemma ShorterEndFull(cfg: Config, hp: nat, v: seq<Bucket>, i1: nat, i2: nat,
                       items: seq<Item>, paths: seq<Path>, n: nat, q: Path)
    requires QueueOk(cfg, hp, v, i1, i2, items, paths) && Expanded(cfg, v, items, paths, n) && cfg.slots >= 1
    requires |q.slots| < cfg.pathLen && Start(cfg.slots, |q.slots| + 1) <= n && Digits(cfg.slots, q)
    ensures EndsFull(cfg, hp, v, i1, i2, q)
  {
    StartGrows(cfg.slots, |q.slots|);
    var j := PathIsQueued(cfg, hp, v, i1, i2, items, paths, n, q);
    assert ItemOk(cfg, hp, v, i1, i2, items[j], paths[j]);
  }

  // ---------- filling the queue ----------

  /** Queue length once `n` items have been expanded. */
  ghost function Filled(cfg: Config, n: nat): (m: nat)
    requires cfg.pathLen >= 1
  {
    if n < Start(cfg.slots, cfg.pathLen - 1) then Kids(cfg.slots, n) else Start(cfg.slots, cfg.pathLen)
  }

  /** The queue never outgrows its fixed capacity, and is never exhausted early. */
  lemma FilledBound(cfg: Config, n: nat)
    requires cfg.slots >= 1 && cfg.pathLen >= 1
    ensures n < Start(cfg.slots, cfg.pathLen - 1) ==>
              n + cfg.slots + 1 <= Kids(cfg.slots, n) + cfg.slots <= Start(cfg.slots, cfg.pathLen)
    ensures n <= Filled(cfg, n) ==> Filled(cfg, n) <= Start(cfg.slots, cfg.pathLen)
    ensures n == Filled(cfg, n) ==> n == Start(cfg.slots, cfg.pathLen)
  {
    var S := cfg.slots;
    if n < Start(S, cfg.pathLen - 1) {
      KidsApart(S, n, Start(S, cfg.pathLen - 1));
      KidsAhead(S, n);
    }
  }

  lemma FilledNext(cfg: Config, n: nat)
    requires cfg.slots >= 1 && cfg.pathLen >= 1
    ensures Filled(cfg, n + 1) == if n < Start(cfg.slots, cfg.pathLen - 1) then Filled(cfg, n) + cfg.slots
            else Filled(cfg, n)
  {
    if n + 1 == Start(cfg.slots, cfg.pathLen - 1) {
      assert Start(cfg.slots, cfg.pathLen) == Kids(cfg.slots, n + 1);
    }
  }

  /** Whether an item may have children is decided by its index. */
  lemma ShallowItem(cfg: Config, d: nat, j: nat)
    requires cfg.slots >= 1 && d < cfg.pathLen && Start(cfg.slots, d) <= j < Start(cfg.slots, d + 1)
    ensures d + 1 < cfg.pathLen <==> j < Start(cfg.slots, cfg.pathLen - 1)
  {
    if d + 1 < cfg.pathLen {
      StartMonotone(cfg.slots, d + 1, cfg.pathLen - 1);
    }
  }

  ghost function Child(cfg: Config, hp: nat, v: seq<Bucket>, x: Item, s: nat): (y: Item) {
    Item(Hop(cfg, hp, v, x.bucket, s), NextCode(cfg.slots, x.code, s), x.depth + 1)
  }

  lemma ChildOk(cfg: Config, hp: nat, v: seq<Bucket>, i1: nat, i2: nat, x: Item, p: Path, s: nat)
    requires Grid(cfg, hp, v) && ItemOk(cfg, hp, v, i1, i2, x, p) && s < cfg.slots && v[x.bucket][s].Full?
    ensures ItemOk(cfg, hp, v, i1, i2, Child(cfg, hp, v, x, s), Extend(p, s))
  {
    var q := Extend(p, s);
    assert q.slots[..|q.slots| - 1] == p.slots;
    assert AltInRange(cfg, hp, v[x.bucket][s].e.partial, x.bucket);
  }

  lemma QueueGrows(cfg: Config, hp: nat, v: seq<Bucket>, i1: nat, i2: nat, items: seq<Item>, paths: seq<Path>,
                   y: Item, q: Path)
    requires QueueOk(cfg, hp, v, i1, i2, items, paths) && ItemOk(cfg, hp, v, i1, i2, y, q)
    requires Start(cfg.slots, y.depth) <= |items| < Start(cfg.slots, y.depth + 1) && y.depth < cfg.pathLen
    ensures QueueOk(cfg, hp, v, i1, i2, items + [y], paths + [q])
  {
    var items', paths' := items + [y], paths + [q];
    forall j | 0 <= j < |items'| ensures ItemOk(cfg, hp, v, i1, i2, items'[j], paths'[j]) {
      assert j < |items| ==> ItemOk(cfg, hp, v, i1, i2, items[j], paths[j]);
    }
    forall j | 0 <= j < |items'|
      ensures Start(cfg.slots, items'[j].depth) <= j < Start(cfg.slots, items'[j].depth + 1) {
      assert items'[j] == if j < |items| then items[j] else y;
    }
  }

  /** Queueing the next child of the item being expanded. */
  lemma Enqueue(cfg: Config, hp: nat, v: seq<Bucket>, i1: nat, i2: nat, items: seq<Item>, paths: seq<Path>, j: nat,
                i: nat)
    requires Grid(cfg, hp, v) && QueueOk(cfg, hp, v, i1, i2, items, paths)
    requires j < |items| && i < cfg.slots && items[j].depth + 1 < cfg.pathLen && |items| == Kids(cfg.slots, j) + i
    requires var s := Around(cfg.slots, FirstSlot(cfg.slots, items[j].code), i);
             items[j].bucket < |v| && v[items[j].bucket][s].Full?
    ensures var s := Around(cfg.slots, FirstSlot(cfg.slots, items[j].code), i);
            QueueOk(cfg, hp, v, i1, i2, items + [Child(cfg, hp, v, items[j], s)], paths + [Extend(paths[j], s)])
  {
    var s := Around(cfg.slots, FirstSlot(cfg.slots, items[j].code), i);
    assert ItemOk(cfg, hp, v, i1, i2, items[j], paths[j]);
    ChildOk(cfg, hp, v, i1, i2, items[j], paths[j], s);
    ChildLevel(cfg.slots, items[j].depth, j, i);
    QueueGrows(cfg, hp, v, i1, i2, items, paths, Child(cfg, hp, v, items[j], s), Extend(paths[j], s));
  }

  lemma ExpandedGrows(cfg: Config, v: seq<Bucket>, items: seq<Item>, paths: seq<Path>, n: nat, y: Item, q: Path)
    requires Expanded(cfg, v, items, paths, n)
    ensures Expanded(cfg, v, items + [y], paths + [q], n)
  {
    forall j | 0 <= j < n ensures Children(cfg, items + [y], paths + [q], j, cfg.slots) {
      assert Children(cfg, items, paths, j, cfg.slots);
    }
  }

  /** The first vacant slot found lies at the end of a shortest path. */
  lemma FoundIsShortest(cfg: Config, hp: nat, v: seq<Bucket>, i1: nat, i2: nat,
                        items: seq<Item>, paths: seq<Path>, j: nat, s: nat)
    requires cfg.slots >= 1 && QueueOk(cfg, hp, v, i1, i2, items, paths) && j < |items|
             && Expanded(cfg, v, items, paths, j)
    requires items[j].bucket < |v| && s < |v[items[j].bucket]| && v[items[j].bucket][s] == Vacant
    ensures Shortest(cfg, hp, v, i1, i2, paths[j])
  {
    var p := paths[j];
    assert ItemOk(cfg, hp, v, i1, i2, items[j], p);
    forall q: Path | |q.slots| < |p.slots| && Digits(cfg.slots, q) ensures EndsFull(cfg, hp, v, i1, i2, q) {
      StartMonotone(cfg.slots, |q.slots| + 1, |p.slots|);
      ShorterEndFull(cfg, hp, v, i1, i2, items, paths, j, q);
    }
  }

  /** A search that runs out has seen every bucket within reach, and all are full. */
  lemma FailureIsFull(cfg: Config, hp: nat, v: seq<Bucket>, i1: nat, i2: nat, items: seq<Item>, paths: seq<Path>,
                      q: Path)
    requires cfg.slots >= 1 && cfg.pathLen >= 1 && QueueOk(cfg, hp, v, i1, i2, items, paths)
    requires |items| == Start(cfg.slots, cfg.pathLen) && Expanded(cfg, v, items, paths, |items|)
    requires |q.slots| < cfg.pathLen && Digits(cfg.slots, q)
    ensures EndsFull(cfg, hp, v, i1, i2, q)
  {
    StartMonotone(cfg.slots, |q.slots| + 1, cfg.pathLen);
    ShorterEndFull(cfg, hp, v, i1, i2, items, paths, |items|, q);
  }

  // ---------- the loop of the search ----------

  /** What the template parameters must satisfy: path codes fit in 16 bits, depths in 8. */
  ghost predicate Fits(cfg: Config) {
    cfg.slots >= 1 && 1 <= cfg.pathLen <= 128 && 2 * Pow(cfg.slots, cfg.pathLen) <= 65536
  }

  /** The search after `n` items have been expanded. */
  ghost predicate Searching(cfg: Config, hp: nat, v: seq<Bucket>, i1: nat, i2: nat, items: seq<Item>,
                            paths: seq<Path>, n: nat) {
    && Fits(cfg) && Grid(cfg, hp, v) && QueueOk(cfg, hp, v, i1, i2, items, paths)
    && Expanded(cfg, v, items, paths, n) && |items| == Filled(cfg, n)
  }

  /** The search while item `j` is being expanded: its first `i` slots are occupied. */
  ghost predicate Expanding(cfg: Config, hp: nat, v: seq<Bucket>, i1: nat, i2: nat, items: seq<Item>,
                            paths: seq<Path>, j: nat, i: nat) {
    && Fits(cfg) && Grid(cfg, hp, v) && QueueOk(cfg, hp, v, i1, i2, items, paths)
    && j < |items| && items[j].bucket < |v| && Expanded(cfg, v, items, paths, j) && Children(cfg, items, paths, j, i)
    && (forall k :: 0 <= k < i ==> v[items[j].bucket][Around(cfg.slots, FirstSlot(cfg.slots, items[j].code), k)].Full?)
    && |items| == Filled(cfg, j) + if items[j].depth + 1 < cfg.pathLen then i else 0
  }

  lemma SearchStart(cfg: Config, hp: nat, v: seq<Bucket>, i1: nat, i2: nat)
    requires Fits(cfg) && Grid(cfg, hp, v) && i1 < |v| && i2 < |v|
    ensures Start(cfg.slots, cfg.pathLen) >= 2
    ensures Searching(cfg, hp, v, i1, i2, [Item(i1, 0, 0), Item(i2, 1, 0)], [Path(false, []), Path(true, [])], 0)
  {
    StartMonotone(cfg.slots, 1, cfg.pathLen);
    assert Start(cfg.slots, 1) == 2;
    if cfg.pathLen > 1 {
      StartMonotone(cfg.slots, 1, cfg.pathLen - 1);
    }
  }

  lemma ExpandStart(cfg: Config, hp: nat, v: seq<Bucket>, i1: nat, i2: nat, items: seq<Item>, paths: seq<Path>, j: nat)
    requires Searching(cfg, hp, v, i1, i2, items, paths, j) && j < |items|
    ensures Expanding(cfg, hp, v, i1, i2, items, paths, j, 0)
  {
    assert ItemOk(cfg, hp, v, i1, i2, items[j], paths[j]);
    ShallowItem(cfg, items[j].depth, j);
  }

  /** While a bucket is being expanded there is room for its children, and their codes do not overflow. */
  lemma ExpandRoom(cfg: Config, hp: nat, v: seq<Bucket>, i1: nat, i2: nat, items: seq<Item>, paths: seq<Path>,
                   j: nat, i: nat)
    requires Expanding(cfg, hp, v, i1, i2, items, paths, j, i) && i < cfg.slots
    ensures items[j].depth + 1 < cfg.pathLen ==> |items| < Start(cfg.slots, cfg.pathLen)
    ensures NextCode(cfg.slots, items[j].code, Around(cfg.slots, FirstSlot(cfg.slots, items[j].code), i)) < 65536
  {
    assert ItemOk(cfg, hp, v, i1, i2, items[j], paths[j]);
    ShallowItem(cfg, items[j].depth, j);
    FilledBound(cfg, j);
    var q := Extend(paths[j], Around(cfg.slots, FirstSlot(cfg.slots, items[j].code), i));
    CodeBound(cfg.slots, q);
    PowMonotone(cfg.slots, |q.slots|, cfg.pathLen);
  }

  lemma ChildrenGrow(cfg: Config, items: seq<Item>, paths: seq<Path>, j: nat, i: nat, y: Item)
    requires Children(cfg, items, paths, j, i) && i < cfg.slots && items[j].depth + 1 < cfg.pathLen
    requires |items| == Kids(cfg.slots, j) + i
    ensures Children(cfg, items + [y],
                     paths + [Extend(paths[j], Around(cfg.slots, FirstSlot(cfg.slots, items[j].code), i))], j, i + 1)
  {
  }

  /** The slot looked at next is occupied: its child is queued, or the path is as long as allowed. */
  lemma ExpandNext(cfg: Config, hp: nat, v: seq<Bucket>, i1: nat, i2: nat, items: seq<Item>, paths: seq<Path>,
                   j: nat, i: nat)
    requires Expanding(cfg, hp, v, i1, i2, items, paths, j, i) && i < cfg.slots && items[j].depth + 1 < cfg.pathLen
    requires v[items[j].bucket][Around(cfg.slots, FirstSlot(cfg.slots, items[j].code), i)].Full?
    ensures var s := Around(cfg.slots, FirstSlot(cfg.slots, items[j].code), i);
            Expanding(cfg, hp, v, i1, i2, items + [Child(cfg, hp, v, items[j], s)],
                      paths + [Extend(paths[j], s)], j, i + 1)
  {
    var s := Around(cfg.slots, FirstSlot(cfg.slots, items[j].code), i);
    var y, q := Child(cfg, hp, v, items[j], s), Extend(paths[j], s);
    ShallowItem(cfg, items[j].depth, j);
    Enqueue(cfg, hp, v, i1, i2, items, paths, j, i);
    ExpandedGrows(cfg, v, items, paths, j, y, q);
    ChildrenGrow(cfg, items, paths, j, i, y);
    assert (items + [y])[j] == items[j];
  }

  /** Conversion to an unsigned 16-bit integer. */
  function Cut16(n: nat): (r: nat)
    ensures r < 65536
  {
    if n < 65536 then n else Cut16(n - 65536)
  }

  /** The item the search queues for slot `s`, its code cut to 16 bits. */
  function NextItem(cfg: Config, hp: nat, x: Item, bkt: Bucket, s: nat): (y: Item)
    requires s < |bkt| && bkt[s].Full?
  {
    Item(cfg.alt(hp, bkt[s].e.partial, x.bucket), Cut16(NextCode(cfg.slots, x.code, s)), x.depth + 1)
  }

  lemma ExpandStep(cfg: Config, hp: nat, v: seq<Bucket>, i1: nat, i2: nat, items: seq<Item>, paths: seq<Path>,
                   j: nat, i: nat)
    requires Expanding(cfg, hp, v, i1, i2, items, paths, j, i) && i < cfg.slots && items[j].depth + 1 < cfg.pathLen
    requires v[items[j].bucket][Around(cfg.slots, FirstSlot(cfg.slots, items[j].code), i)].Full?
    ensures |items| < Start(cfg.slots, cfg.pathLen)
    ensures var s := Around(cfg.slots, FirstSlot(cfg.slots, items[j].code), i);
            Expanding(cfg, hp, v, i1, i2, items + [NextItem(cfg, hp, items[j], v[items[j].bucket], s)],
                      paths + [Extend(paths[j], s)], j, i + 1)
  {
    ExpandRoom(cfg, hp, v, i1, i2, items, paths, j, i);
    ExpandNext(cfg, hp, v, i1, i2, items, paths, j, i);
  }

  lemma ExpandDeep(cfg: Config, hp: nat, v: seq<Bucket>, i1: nat, i2: nat, items: seq<Item>, paths: seq<Path>,
                   j: nat, i: nat)
    requires Expanding(cfg, hp, v, i1, i2, items, paths, j, i) && i < cfg.slots && items[j].depth + 1 >= cfg.pathLen
    requires v[items[j].bucket][Around(cfg.slots, FirstSlot(cfg.slots, items[j].code), i)].Full?
    ensures Expanding(cfg, hp, v, i1, i2, items, paths, j, i + 1)
  {
  }

  lemma ExpandDone(cfg: Config, hp: nat, v: seq<Bucket>, i1: nat, i2: nat, items: seq<Item>, paths: seq<Path>, j: nat)
    requires Expanding(cfg, hp, v, i1, i2, items, paths, j, cfg.slots)
    ensures Searching(cfg, hp, v, i1, i2, items, paths, j + 1)
  {
    var bkt := v[items[j].bucket];
    forall s | 0 <= s < |bkt| ensures bkt[s].Full? {
      var k := AroundHits(cfg.slots, FirstSlot(cfg.slots, items[j].code), s);
    }
    ShallowItem(cfg, items[j].depth, j);
    FilledNext(cfg, j);
  }

  /** The capacity of the queue as the source computes it. */
  function QueueCapacity(S: nat, L: nat): (n: nat)
    requires S >= 1
  {
    PowPositive(S, L);
    2 * if S == 1 then L else (Pow(S, L) - 1) / (S - 1)
  }

  lemma {:induction false} StartEven(S: nat, n: nat) returns (h: nat)
    ensures Start(S, n) == 2 * h
  {
    if n == 0 {
      h := 0;
    } else {
      var g := StartEven(S, n - 1);
      h := 1 + S * g;
      KidsClosedForm(S, 2 * g);
      assert S * (2 * g) == 2 * (S * g);
    }
  }

  /** The capacity is exactly the number of items of a complete search. */
  lemma CapacityIsStart(S: nat, L: nat)
    requires S >= 1
    ensures QueueCapacity(S, L) == Start(S, L)
  {
    CapacityClosedForm(S, L);
    if S > 1 {
      var h := StartEven(S, L);
      Quotient(S - 1, h, Pow(S, L) - 1);
    }
  }

  lemma Quotient(d: nat, h: nat, n: int)
    requires d >= 1 && d * (2 * h) == 2 * n
    ensures n / d == h
  {
    assert d * (2 * h) == 2 * (h * d);
    DecodeDigit(d, h, 0);
  }

  /** What a successful search returns: `x` encodes path `p`, which ends at a vacant slot and is a
      shortest one. */
  ghost predicate FoundPath(cfg: Config, hp: nat, v: seq<Bucket>, i1: nat, i2: nat, x: Item, p: Path) {
    && p.slots != [] && |p.slots| == x.depth + 1 <= cfg.pathLen && Digits(cfg.slots, p)
    && x.code == Code(cfg.slots, p)
    && Shortest(cfg, hp, v, i1, i2, Front(p))
    && var r := Reach(cfg, hp, v, StartOf(i1, i2, p), Front(p).slots);
       r < |v| && p.slots[x.depth] < |v[r]| && v[r][p.slots[x.depth]] == Vacant
  }

  /** A vacant slot: the search ends with a code that fits in 16 bits. */
  lemma ExpandHit(cfg: Config, hp: nat, v: seq<Bucket>, i1: nat, i2: nat, items: seq<Item>, paths: seq<Path>, j: nat,
                  i: nat)
    requires Expanding(cfg, hp, v, i1, i2, items, paths, j, i) && i < cfg.slots
    requires v[items[j].bucket][Around(cfg.slots, FirstSlot(cfg.slots, items[j].code), i)] == Vacant
    ensures var x, s := items[j], Around(cfg.slots, FirstSlot(cfg.slots, items[j].code), i);
            && NextCode(cfg.slots, x.code, s) < 65536
            && FoundPath(cfg, hp, v, i1, i2, Item(x.bucket, NextCode(cfg.slots, x.code, s), x.depth),
               Extend(paths[j], s))
  {
    ExpandRoom(cfg, hp, v, i1, i2, items, paths, j, i);
    ExpandFound(cfg, hp, v, i1, i2, items, paths, j, i);
  }

  lemma ExpandFound(cfg: Config, hp: nat, v: seq<Bucket>, i1: nat, i2: nat, items: seq<Item>, paths: seq<Path>,
                    j: nat, i: nat)
    requires Expanding(cfg, hp, v, i1, i2, items, paths, j, i) && i < cfg.slots
    requires v[items[j].bucket][Around(cfg.slots, FirstSlot(cfg.slots, items[j].code), i)] == Vacant
    ensures var s := Around(cfg.slots, FirstSlot(cfg.slots, items[j].code), i);
            FoundPath(cfg, hp, v, i1, i2, items[j].(code := NextCode(cfg.slots, items[j].code, s)), Extend(paths[j], s))
  {
    var s := Around(cfg.slots, FirstSlot(cfg.slots, items[j].code), i);
    assert ItemOk(cfg, hp, v, i1, i2, items[j], paths[j]);
    FoundIsShortest(cfg, hp, v, i1, i2, items, paths, j, s);
  }

  /** What a failed search means: every bucket within reach is full. */
  ghost predicate NoPath(cfg: Config, hp: nat, v: seq<Bucket>, i1: nat, i2: nat) {
    forall q: Path :: |q.slots| < cfg.pathLen && Digits(cfg.slots, q) ==> EndsFull(cfg, hp, v, i1, i2, q)
  }

  lemma SearchFailed(cfg: Config, hp: nat, v: seq<Bucket>, i1: nat, i2: nat, items: seq<Item>, paths: seq<Path>)
    requires Searching(cfg, hp, v, i1, i2, items, paths, |items|)
    ensures NoPath(cfg, hp, v, i1, i2)
  {
    FilledBound(cfg, |items|);
    forall q: Path | |q.slots| < cfg.pathLen && Digits(cfg.slots, q) ensures EndsFull(cfg, hp, v, i1, i2, q) {
      FailureIsFull(cfg, hp, v, i1, i2, items, paths, q);
    }
  }
}
