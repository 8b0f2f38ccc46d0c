/** Displacement paths written out as records, and moving entries along them. */
module CuckooPath {
  import opened Bits
  import opened CuckooIndex
  import opened CuckooBuckets
  import opened CuckooTable
  import opened CuckooSearch

  /** CuckooRecord: one position on a path and the hash of the key seen there. */
  datatype Record = Record(bucket: nat, slot: nat, hash: U64)

  datatype Maybe<T> = Nothing | Just(val: T)

  // ---------- from path code to records ----------

  lemma DecodeStep(S: nat, p: Path, n: nat)
    requires S >= 1 && Digits(S, p) && n < |p.slots|
    ensures Code(S, Path(p.second, p.slots[..n + 1])) % S == p.slots[n]
    ensures Code(S, Path(p.second, p.slots[..n + 1])) / S == Code(S, Path(p.second, p.slots[..n]))
  {
    var q := Path(p.second, p.slots[..n + 1]);
    assert Front(q) == Path(p.second, p.slots[..n]);
    DecodeDigit(S, Code(S, Front(q)), p.slots[n]);
  }

  /** The slots and the start bucket recovered from the code of a path are the ones it was made of. */
  method Decode(S: nat, x: Item, ghost p: Path) returns (code: nat, slots: seq<nat>)
    requires S >= 1 && Digits(S, p) && |p.slots| == x.depth + 1 && x.code == Code(S, p)
    ensures slots == p.slots && code == if p.second then 1 else 0
  {
    code, slots := x.code, [];
    assert p.slots[..x.depth + 1] == p.slots;
    for i := x.depth + 1 downto 0
      invariant slots == p.slots[i..] && code == Code(S, Path(p.second, p.slots[..i]))
    {
      DecodeStep(S, p, i);
      slots := [code % S] + slots;
      code := code / S;
    }
  }

  // ---------- records of a path ----------

  ghost predicate RecordOk(cfg: Config, hp: nat, v: seq<Bucket>, b: nat, slots: seq<nat>, r: Record, i: nat)
    requires i < |slots|
  {
    && r.slot == slots[i] < cfg.slots
    && r.bucket == Reach(cfg, hp, v, b, slots[..i]) < |v|
    && (i + 1 < |slots| ==>
          && |v[r.bucket]| == cfg.slots && v[r.bucket][r.slot].Full?
          && r.hash == cfg.hash(v[r.bucket][r.slot].e.key))
  }

  /** The first `n` records describe the path as it stands in `v`. */
  ghost predicate Recorded(cfg: Config, hp: nat, v: seq<Bucket>, b: nat, slots: seq<nat>, recs: seq<Record>, n: nat) {
    n <= |slots| && n <= |recs| && forall i :: 0 <= i < n ==> RecordOk(cfg, hp, v, b, slots, recs[i], i)
  }

  lemma {:induction false} WalkableAt(cfg: Config, hp: nat, v: seq<Bucket>, b: nat, slots: seq<nat>, i: nat)
    requires Walkable(cfg, hp, v, b, slots) && i < |slots|
    ensures var r := Reach(cfg, hp, v, b, slots[..i]); r < |v| && slots[i] < |v[r]| && v[r][slots[i]].Full?
    decreases |slots|
  {
    if i + 1 < |slots| {
      WalkableAt(cfg, hp, v, b, slots[..|slots| - 1], i);
      assert slots[..|slots| - 1][..i] == slots[..i];
    }
  }

  /** Walking one step along a path that was found: every bucket before the last has the entry the
      path displaces, and the last has a vacant slot. */
  lemma FoundAt(cfg: Config, hp: nat, v: seq<Bucket>, i1: nat, i2: nat, x: Item, p: Path, i: nat)
    requires Grid(cfg, hp, v) && FoundPath(cfg, hp, v, i1, i2, x, p) && i < |p.slots|
    ensures var r := Reach(cfg, hp, v, StartOf(i1, i2, p), p.slots[..i]);
            && r < |v| && |v[r]| == cfg.slots && p.slots[i] < cfg.slots
            && (i < x.depth <==> v[r][p.slots[i]].Full?)
            && (i < x.depth ==> Reach(cfg, hp, v, StartOf(i1, i2, p), p.slots[..i + 1])
                                == cfg.alt(hp, Tag(cfg, v[r][p.slots[i]].e.key), r))
  {
    var front := Front(p).slots;
    if i < x.depth {
      WalkableAt(cfg, hp, v, StartOf(i1, i2, p), front, i);
      assert front[..i] == p.slots[..i];
      assert p.slots[..i + 1][..i] == p.slots[..i];
    } else {
      assert p.slots[..i] == front;
    }
  }

  lemma RecordNext(cfg: Config, hp: nat, v: seq<Bucket>, i1: nat, i2: nat, x: Item, p: Path, recs: seq<Record>)
    requires Grid(cfg, hp, v) && FoundPath(cfg, hp, v, i1, i2, x, p) && |recs| < |p.slots|
    requires Recorded(cfg, hp, v, StartOf(i1, i2, p), p.slots, recs, |recs|)
    ensures forall r: Record {:trigger recs + [r]} :: RecordOk(cfg, hp, v, StartOf(i1, i2, p), p.slots, r, |recs|) ==>
              Recorded(cfg, hp, v, StartOf(i1, i2, p), p.slots, recs + [r], |recs| + 1)
  {
    forall r: Record, i | RecordOk(cfg, hp, v, StartOf(i1, i2, p), p.slots, r, |recs|) && 0 <= i < |recs| + 1
      ensures RecordOk(cfg, hp, v, StartOf(i1, i2, p), p.slots, (recs + [r])[i], i)
    {
      if i < |recs| {
        assert RecordOk(cfg, hp, v, StartOf(i1, i2, p), p.slots, recs[i], i);
      }
    }
  }

  /** The walk along a path that was found has come to bucket `b`, with all before it recorded. */
  ghost predicate Walking(cfg: Config, hp: nat, v: seq<Bucket>, i1: nat, i2: nat, x: Item, p: Path, recs: seq<Record>,
                          b: nat) {
    true == (
      && Grid(cfg, hp, v) && FoundPath(cfg, hp, v, i1, i2, x, p) && |recs| < |p.slots|
      && b == Reach(cfg, hp, v, StartOf(i1, i2, p), p.slots[..|recs|])
      && Recorded(cfg, hp, v, StartOf(i1, i2, p), p.slots, recs, |recs|)
    )
  }

  /** What the walk notes about slot `s` of bucket `b`. */
  function Noted(cfg: Config, b: nat, s: nat, y: Slot): (r: Record) {
    if y.Vacant? then Record(b, s, 0) else Record(b, s, cfg.hash(y.e.key))
  }

  /** One more record; the vacant slot is the last one, and before it the entry's other bucket comes next. */
  lemma WalksOn(cfg: Config, hp: nat, v: seq<Bucket>, i1: nat, i2: nat, x: Item, p: Path, recs: seq<Record>, b: nat)
    requires Walking(cfg, hp, v, i1, i2, x, p, recs, b)
    ensures |recs| < |p.slots| && b < |v| && p.slots[|recs|] < |v[b]|
    ensures var s := p.slots[|recs|];
            && Recorded(cfg, hp, v, StartOf(i1, i2, p), p.slots, recs + [Noted(cfg, b, s, v[b][s])], |recs| + 1)
            && (v[b][s].Vacant? <==> |recs| == x.depth)
            && (v[b][s].Full? ==> cfg.alt(hp, Tag(cfg, v[b][s].e.key), b)
                                  == Reach(cfg, hp, v, StartOf(i1, i2, p), p.slots[..|recs| + 1]))
  {
    FoundAt(cfg, hp, v, i1, i2, x, p, |recs|);
    RecordNext(cfg, hp, v, i1, i2, x, p, recs);
  }

  lemma RecordedStart(cfg: Config, hp: nat, v: seq<Bucket>, i1: nat, i2: nat, p: Path, recs: seq<Record>)
    requires p.slots != [] && Recorded(cfg, hp, v, StartOf(i1, i2, p), p.slots, recs, |p.slots|)
    ensures recs[0].bucket == StartOf(i1, i2, p)
  {
    assert RecordOk(cfg, hp, v, StartOf(i1, i2, p), p.slots, recs[0], 0);
  }

  // ---------- moving along the records ----------

  /** The bucket of record `r` is the same in views `w` and `v`. */
  ghost predicate Kept(cfg: Config, w: seq<Bucket>, v: seq<Bucket>, r: Record) {
    r.bucket < |v| == |w| && r.slot < cfg.slots && Same(w[r.bucket], v[r.bucket])
  }

  ghost predicate Open(cfg: Config, w: seq<Bucket>, r: Record) {
    r.bucket < |w| && r.slot < |w[r.bucket]| && r.slot < cfg.slots && w[r.bucket][r.slot] == Vacant
  }

  /** Part-way through the moves, from view `v` to view `w`: position `d` is vacant and buckets before it
      are untouched. */
  ghost predicate Moving(cfg: Config, w: seq<Bucket>, v: seq<Bucket>, recs: seq<Record>, d: nat) {
    && d < |recs| && Open(cfg, w, recs[d])
    && forall i {:trigger Kept(cfg, w, v, recs[i])} :: 0 <= i < d ==> Kept(cfg, w, v, recs[i])
  }

  /** The buckets of the records are pairwise different. */
  ghost predicate Apart(recs: seq<Record>, n: nat) {
    n <= |recs| && forall i, j :: 0 <= i < j < n ==> recs[i].bucket != recs[j].bucket
  }

  lemma FoundApart(cfg: Config, hp: nat, v: seq<Bucket>, i1: nat, i2: nat, x: Item, p: Path, recs: seq<Record>)
    requires FoundPath(cfg, hp, v, i1, i2, x, p) && Recorded(cfg, hp, v, StartOf(i1, i2, p), p.slots, recs, |p.slots|)
    ensures Apart(recs, |p.slots|)
  {
    forall i, j | 0 <= i < j < |p.slots| ensures recs[i].bucket != recs[j].bucket {
      var q := Front(p);
      ShortestIsSimple(cfg, hp, v, i1, i2, q, i, j);
      assert q.slots[..i] == p.slots[..i] && q.slots[..j] == p.slots[..j];
      assert RecordOk(cfg, hp, v, StartOf(i1, i2, p), p.slots, recs[i], i);
      assert RecordOk(cfg, hp, v, StartOf(i1, i2, p), p.slots, recs[j], j);
    }
  }

  /** Record `i` names an occupied slot whose entry may move to the bucket of record `i + 1`. */
  ghost predicate Linked(cfg: Config, hp: nat, v: seq<Bucket>, recs: seq<Record>, i: nat) {
    && i + 1 < |recs| && recs[i].bucket < |v| && recs[i].slot < |v[recs[i].bucket]|
    && var x := v[recs[i].bucket][recs[i].slot];
       x.Full? && recs[i].hash == cfg.hash(x.e.key)
       && recs[i + 1].bucket == cfg.alt(hp, Tag(cfg, x.e.key), recs[i].bucket)
  }

  lemma FoundLinked(cfg: Config, hp: nat, v: seq<Bucket>, i1: nat, i2: nat, x: Item, p: Path, recs: seq<Record>, i: nat)
    requires Grid(cfg, hp, v) && FoundPath(cfg, hp, v, i1, i2, x, p) && i < x.depth
    requires Recorded(cfg, hp, v, StartOf(i1, i2, p), p.slots, recs, |p.slots|)
    ensures Linked(cfg, hp, v, recs, i)
  {
    FoundAt(cfg, hp, v, i1, i2, x, p, i);
    assert RecordOk(cfg, hp, v, StartOf(i1, i2, p), p.slots, recs[i], i);
    assert RecordOk(cfg, hp, v, StartOf(i1, i2, p), p.slots, recs[i + 1], i + 1);
  }

  lemma DisplaceView(cfg: Config, t: Table, b: nat, s: nat, b': nat, s': nat)
    requires b < |t.cur| && s < |t.cur[b]| && b' < |t.cur| && s' < |t.cur[b']| && b != b'
    requires !Pending(cfg, t, b) && !Pending(cfg, t, b')
    ensures var v := View(cfg, t);
            && v[b] == t.cur[b] && v[b'] == t.cur[b']
            && View(cfg, Displace(t, b, s, b', s')) == v[b' := v[b'][s' := t.cur[b][s]]][b := v[b][s := Vacant]]
  {
    var t1 := Write(t, b', s', t.cur[b][s]);
    WriteView(cfg, t, b', s', t.cur[b][s]);
    ViewAt(cfg, t, b);
    WriteView(cfg, t1, b, s, Vacant);
  }

  lemma MoveChecks(cfg: Config, t: Table, v: seq<Bucket>, recs: seq<Record>, d: nat)
    requires Inv(cfg, t) && 1 <= d < |recs| && Moving(cfg, View(cfg, t), v, recs, d)
             && Linked(cfg, t.hp, v, recs, d - 1)
    requires !Pending(cfg, t, recs[d - 1].bucket) && !Pending(cfg, t, recs[d].bucket)
    ensures var f, g := recs[d - 1], recs[d];
            && CanDisplace(cfg, t, f.bucket, f.slot, g.bucket, g.slot)
            && f.hash == cfg.hash(t.cur[f.bucket][f.slot].e.key)
  {
    assert Kept(cfg, View(cfg, t), v, recs[d - 1]);
    ViewAt(cfg, t, recs[d - 1].bucket);
    ViewAt(cfg, t, recs[d].bucket);
  }

  /** One displacement along the path: the checks pass, no key is lost, and the vacancy moves one
      record towards the start. */
  lemma MoveStep(cfg: Config, t: Table, v: seq<Bucket>, recs: seq<Record>, d: nat)
    requires Inv(cfg, t) && 1 <= d < |recs| && Moving(cfg, View(cfg, t), v, recs, d)
             && Linked(cfg, t.hp, v, recs, d - 1) && Apart(recs, d + 1)
    requires !Pending(cfg, t, recs[d - 1].bucket) && !Pending(cfg, t, recs[d].bucket)
    ensures var f, g := recs[d - 1], recs[d];
            && CanDisplace(cfg, t, f.bucket, f.slot, g.bucket, g.slot)
            && f.hash == cfg.hash(t.cur[f.bucket][f.slot].e.key)
            && Inv(cfg, Displace(t, f.bucket, f.slot, g.bucket, g.slot))
            && Moving(cfg, View(cfg, Displace(t, f.bucket, f.slot, g.bucket, g.slot)), v, recs, d - 1)
            && Same(Abs(cfg, Displace(t, f.bucket, f.slot, g.bucket, g.slot)), Abs(cfg, t))
  {
    var f, g := recs[d - 1], recs[d];
    MoveChecks(cfg, t, v, recs, d);
    DisplaceKeeps(cfg, t, f.bucket, f.slot, g.bucket, g.slot);
    DisplaceView(cfg, t, f.bucket, f.slot, g.bucket, g.slot);
    var t' := Displace(t, f.bucket, f.slot, g.bucket, g.slot);
    assert Kept(cfg, View(cfg, t), v, f);
    forall i | 0 <= i < d - 1 ensures Kept(cfg, View(cfg, t'), v, recs[i]) {
      assert Kept(cfg, View(cfg, t), v, recs[i]);
    }
  }

  /** A path just found is ready to be moved along. */
  lemma MoveStart(cfg: Config, t: Table, i1: nat, i2: nat, x: Item, p: Path, recs: seq<Record>)
    requires Inv(cfg, t) && Grid(cfg, t.hp, View(cfg, t)) && FoundPath(cfg, t.hp, View(cfg, t), i1, i2, x, p)
    requires Recorded(cfg, t.hp, View(cfg, t), StartOf(i1, i2, p), p.slots, recs, |p.slots|)
    ensures Moving(cfg, View(cfg, t), View(cfg, t), recs, x.depth)
  {
    var v, b := View(cfg, t), StartOf(i1, i2, p);
    FoundAt(cfg, t.hp, v, i1, i2, x, p, x.depth);
    forall i | 0 <= i < x.depth ensures Kept(cfg, View(cfg, t), v, recs[i]) {
      assert RecordOk(cfg, t.hp, v, b, p.slots, recs[i], i);
    }
    assert RecordOk(cfg, t.hp, v, b, p.slots, recs[x.depth], x.depth);
  }

  /** Records that can be moved along with exclusive access. */
  ghost predicate Route(cfg: Config, hp: nat, v: seq<Bucket>, i1: nat, i2: nat, recs: seq<Record>, d: nat) {
    && d < |recs| && Apart(recs, d + 1)
    && (forall i {:trigger Linked(cfg, hp, v, recs, i)} :: 0 <= i < d ==> Linked(cfg, hp, v, recs, i))
    && (recs[0].bucket == i1 || recs[0].bucket == i2)
  }

  lemma FoundRoute(cfg: Config, t: Table, i1: nat, i2: nat, x: Item, p: Path, recs: seq<Record>)
    requires Inv(cfg, t) && FoundPath(cfg, t.hp, View(cfg, t), i1, i2, x, p)
    requires Recorded(cfg, t.hp, View(cfg, t), StartOf(i1, i2, p), p.slots, recs, |p.slots|)
    ensures Moving(cfg, View(cfg, t), View(cfg, t), recs, x.depth)
            && Route(cfg, t.hp, View(cfg, t), i1, i2, recs, x.depth)
    ensures recs[0].bucket == StartOf(i1, i2, p)
  {
    ViewGrid(cfg, t);
    MoveStart(cfg, t, i1, i2, x, p, recs);
    FoundApart(cfg, t.hp, View(cfg, t), i1, i2, x, p, recs);
    RecordedStart(cfg, t.hp, View(cfg, t), i1, i2, p, recs);
    forall i: nat | i < x.depth ensures Linked(cfg, t.hp, View(cfg, t), recs, i) {
      FoundLinked(cfg, t.hp, View(cfg, t), i1, i2, x, p, recs, i);
    }
  }

  lemma ViewGrid(cfg: Config, t: Table)
    requires Shape(cfg, t)
    ensures Grid(cfg, t.hp, View(cfg, t))
  {
    var v := View(cfg, t);
    forall b | 0 <= b < |v| ensures BucketOk(cfg, t.hp, b, v[b]) {
      ViewOk(cfg, t, b);
    }
    forall b, s | 0 <= b < |v| && 0 <= s < |v[b]| && v[b][s].Full?
      ensures v[b][s].e.partial == Tag(cfg, v[b][s].e.key)
    {
      assert SlotOk(cfg, t.hp, b, v[b][s]);
    }
  }
}
