/** Buckets of slots, the entries they hold, and the key-value map those entries stand for. */
module CuckooBuckets {
  import opened Bits
  import opened CuckooIndex

  datatype Entry = Entry(partial: nat, key: Key, val: Val)
  datatype Slot = Vacant | Full(e: Entry)

  type Bucket = seq<Slot>

  function VacantBucket(n: nat): (b: Bucket)
    ensures |b| == n && forall i :: 0 <= i < n ==> b[i] == Vacant
  {
    if n == 0 then [] else VacantBucket(n - 1) + [Vacant]
  }

  /** Equality of two values taken whole, without looking inside them. */
  ghost predicate Same<T>(x: T, y: T) {
    x == y
  }

  // ---------- entries of a bucket, entries of a container ----------

  ghost function One(x: Slot): (m: multiset<Entry>) {
    if x.Full? then multiset{x.e} else multiset{}
  }

  ghost function Entries(b: Bucket): (m: multiset<Entry>) {
    if b == [] then multiset{} else One(b[0]) + Entries(b[1..])
  }

  lemma SwapAfter(a: multiset<Entry>, m: multiset<Entry>, o: multiset<Entry>, x: multiset<Entry>)
    requires o <= m
    ensures o <= a + m && a + (m - o + x) == (a + m) - o + x
  {
  }

  lemma SwapBefore(m: multiset<Entry>, o: multiset<Entry>, x: multiset<Entry>)
    ensures o <= o + m && x + m == (o + m) - o + x
  {
  }

  lemma {:induction false} EntriesUpdate(b: Bucket, s: nat, x: Slot)
    requires s < |b|
    ensures One(b[s]) <= Entries(b)
    ensures Entries(b[s := x]) == Entries(b) - One(b[s]) + One(x)
  {
    if s == 0 {
      assert b[s := x][1..] == b[1..];
      SwapBefore(Entries(b[1..]), One(b[0]), One(x));
    } else {
      assert b[s := x][1..] == b[1..][s - 1 := x];
      EntriesUpdate(b[1..], s - 1, x);
      SwapAfter(One(b[0]), Entries(b[1..]), One(b[s]), One(x));
    }
  }

  lemma {:induction false} EntriesVacant(n: nat)
    ensures Entries(VacantBucket(n)) == multiset{}
  {
    if n != 0 {
      assert VacantBucket(n)[1..] == VacantBucket(n - 1);
      EntriesVacant(n - 1);
    }
  }

  lemma {:induction false} EntriesConcat(a: Bucket, b: Bucket)
    ensures Entries(a + b) == Entries(a) + Entries(b)
  {
    if a == [] {
      assert a + b == b;
    } else {
      assert (a + b)[1..] == a[1..] + b;
      EntriesConcat(a[1..], b);
    }
  }

  lemma {:induction false} FindEntry(b: Bucket, e: Entry) returns (s: nat)
    requires e in Entries(b)
    ensures s < |b| && b[s] == Full(e)
  {
    if e in One(b[0]) {
      s := 0;
    } else {
      var s' := FindEntry(b[1..], e);
      s := s' + 1;
    }
  }

  ghost function Total(v: seq<Bucket>): (m: multiset<Entry>) {
    if v == [] then multiset{} else Entries(v[0]) + Total(v[1..])
  }

  lemma {:induction false} TotalUpdate(v: seq<Bucket>, b: nat, x: Bucket)
    requires b < |v|
    ensures Entries(v[b]) <= Total(v)
    ensures Total(v[b := x]) == Total(v) - Entries(v[b]) + Entries(x)
  {
    if b == 0 {
      assert v[b := x][1..] == v[1..];
      SwapBefore(Total(v[1..]), Entries(v[0]), Entries(x));
    } else {
      assert v[b := x][1..] == v[1..][b - 1 := x];
      TotalUpdate(v[1..], b - 1, x);
      SwapAfter(Entries(v[0]), Total(v[1..]), Entries(v[b]), Entries(x));
    }
  }

  /** Writing one slot replaces one entry. */
  lemma TotalWrite(v: seq<Bucket>, b: nat, s: nat, x: Slot)
    requires b < |v| && s < |v[b]|
    ensures One(v[b][s]) <= Total(v)
    ensures Total(v[b := v[b][s := x]]) == Total(v) - One(v[b][s]) + One(x)
  {
    EntriesUpdate(v[b], s, x);
    TotalUpdate(v, b, v[b][s := x]);
  }

  lemma {:induction false} TotalConcat(v: seq<Bucket>, w: seq<Bucket>)
    ensures Total(v + w) == Total(v) + Total(w)
  {
    if v == [] {
      assert v + w == w;
    } else {
      assert (v + w)[1..] == v[1..] + w;
      TotalConcat(v[1..], w);
    }
  }

  lemma {:induction false} TotalVacant(v: seq<Bucket>)
    requires forall b :: 0 <= b < |v| ==> Entries(v[b]) == multiset{}
    ensures Total(v) == multiset{}
  {
    if v != [] {
      TotalVacant(v[1..]);
    }
  }

  lemma {:induction false} Find(v: seq<Bucket>, e: Entry) returns (b: nat, s: nat)
    requires e in Total(v)
    ensures b < |v| && s < |v[b]| && v[b][s] == Full(e)
  {
    if e in Entries(v[0]) {
      b := 0;
      s := FindEntry(v[0], e);
    } else {
      var b';
      b', s := Find(v[1..], e);
      b := b' + 1;
    }
  }

  lemma InTotal(v: seq<Bucket>, b: nat, s: nat)
    requires b < |v| && s < |v[b]| && v[b][s].Full?
    ensures v[b][s].e in Total(v)
  {
    TotalWrite(v, b, s, Vacant);
    assert v[b][s].e in One(v[b][s]);
  }

  // ---------- from entries to a key-value map ----------

  /** No key occurs twice. */
  ghost predicate NoDup(m: multiset<Entry>) {
    && (forall e :: m[e] <= 1)
    && (forall e, e' :: e in m && e' in m && e.key == e'.key ==> e == e')
  }

  ghost predicate Has(m: multiset<Entry>, k: Key) {
    exists e :: e in m && e.key == k
  }

  ghost function EntryOf(m: multiset<Entry>, k: Key): (e: Entry)
    requires Has(m, k)
    ensures e in m && e.key == k
  {
    var e :| e in m && e.key == k;
    e
  }

  ghost function Keys(m: multiset<Entry>): (ks: set<Key>)
    ensures forall k :: k in ks <==> Has(m, k)
  {
    set e | e in m :: e.key
  }

  /** The key-value map that the entries stand for. */
  ghost function Contents(m: multiset<Entry>): (r: map<Key, Val>)
    ensures forall k :: k in r <==> Has(m, k)
    ensures forall k :: k in r ==> r[k] == EntryOf(m, k).val
  {
    map k | k in Keys(m) :: EntryOf(m, k).val
  }

  lemma ContentsAt(m: multiset<Entry>, e: Entry)
    requires NoDup(m) && e in m
    ensures Has(m, e.key) && EntryOf(m, e.key) == e
    ensures e.key in Contents(m) && Contents(m)[e.key] == e.val
  {
    assert Has(m, e.key);
  }

  /** Characterises `Contents` without `EntryOf`. */
  lemma ContentsUnique(m: multiset<Entry>, r: map<Key, Val>)
    requires NoDup(m)
    requires forall e :: e in m ==> e.key in r && r[e.key] == e.val
    requires forall k :: k in r ==> Has(m, k)
    ensures r == Contents(m)
  {
    forall k | k in r ensures k in Contents(m) && Contents(m)[k] == r[k] {
      ContentsAt(m, EntryOf(m, k));
    }
  }

  lemma AddKeepsNoDup(m: multiset<Entry>, e: Entry)
    requires NoDup(m) && !Has(m, e.key)
    ensures NoDup(m + multiset{e})
    ensures forall x :: x in m + multiset{e} <==> x in m || x == e
  {
    var m' := m + multiset{e};
    assert forall x :: x in m && x.key == e.key ==> Has(m, e.key);
    assert e !in m;
    forall x ensures m'[x] <= 1 {
      assert m'[x] == m[x] + if x == e then 1 else 0;
    }
  }

  lemma AddEntry(m: multiset<Entry>, e: Entry)
    requires NoDup(m) && !Has(m, e.key)
    ensures NoDup(m + multiset{e}) && Contents(m + multiset{e}) == Contents(m)[e.key := e.val]
  {
    AddKeepsNoDup(m, e);
    var m' := m + multiset{e};
    var r := Contents(m)[e.key := e.val];
    forall x | x in m' ensures x.key in r && r[x.key] == x.val {
      if x != e {
        ContentsAt(m, x);
      }
    }
    forall k | k in r ensures Has(m', k) {
      if k == e.key {
        assert e in m';
      } else {
        assert EntryOf(m, k) in m';
      }
    }
    ContentsUnique(m', r);
  }

  lemma DropEntry(m: multiset<Entry>, e: Entry)
    requires NoDup(m) && e in m
    ensures NoDup(m - multiset{e}) && Contents(m - multiset{e}) == Contents(m) - {e.key}
    ensures !Has(m - multiset{e}, e.key)
  {
    var m' := m - multiset{e};
    assert m[e] == 1;
    assert forall x :: x in m' <==> x in m && x != e;
    var r := Contents(m) - {e.key};
    forall x | x in m' ensures x.key in r && r[x.key] == x.val {
      ContentsAt(m, x);
    }
    forall k | k in r ensures Has(m', k) {
      assert EntryOf(m, k) in m';
    }
    ContentsUnique(m', r);
  }

  lemma Reassign(r: map<Key, Val>, k: Key, v: Val)
    ensures (r - {k})[k := v] == r[k := v]
  {
  }

  lemma SizeWithout(r: map<Key, Val>, k: Key)
    requires k in r
    ensures |r - {k}| == |r| - 1
  {
    assert (r - {k}).Keys == r.Keys - {k};
  }

  lemma ReplaceEntry(m: multiset<Entry>, e: Entry, v: Val)
    requires NoDup(m) && e in m
    ensures NoDup(m - multiset{e} + multiset{e.(val := v)})
    ensures Contents(m - multiset{e} + multiset{e.(val := v)}) == Contents(m)[e.key := v]
  {
    DropEntry(m, e);
    AddEntry(m - multiset{e}, e.(val := v));
    Reassign(Contents(m), e.key, v);
  }

  /** As many keys as entries. */
  lemma {:induction false} ContentsSize(m: multiset<Entry>)
    requires NoDup(m)
    ensures |Contents(m)| == |m|
    decreases |m|
  {
    if m == multiset{} {
      assert Contents(m) == map[];
    } else {
      var e :| e in m;
      DropEntry(m, e);
      ContentsAt(m, e);
      ContentsSize(m - multiset{e});
      SizeWithout(Contents(m), e.key);
    }
  }

  // ---------- splitting a bucket when the table doubles ----------

  function Leaves(cfg: Config, hp: nat, b: nat, x: Slot): (r: bool) {
    x.Full? && GoesUp(cfg, hp, x.e.key, b)
  }

  /** What remains of bucket `b`: entries that stay keep their slot. */
  function Stay(cfg: Config, hp: nat, b: nat, bkt: Bucket): (r: Bucket)
    ensures |r| == |bkt|
  {
    if bkt == [] then []
    else [if Leaves(cfg, hp, b, bkt[0]) then Vacant else bkt[0]] + Stay(cfg, hp, b, bkt[1..])
  }

  lemma {:induction false} StayAt(cfg: Config, hp: nat, b: nat, bkt: Bucket, s: nat)
    requires s < |bkt|
    ensures Stay(cfg, hp, b, bkt)[s] == if Leaves(cfg, hp, b, bkt[s]) then Vacant else bkt[s]
    decreases s
  {
    if s != 0 {
      StayAt(cfg, hp, b, bkt[1..], s - 1);
    }
  }

  /** The slots of bucket `b` that leave for the upper half, in slot order. */
  function Climbers(cfg: Config, hp: nat, b: nat, bkt: Bucket): (r: seq<Slot>)
    ensures |r| <= |bkt|
  {
    if bkt == [] then []
    else (if Leaves(cfg, hp, b, bkt[0]) then [bkt[0]] else []) + Climbers(cfg, hp, b, bkt[1..])
  }

  /** Every climber comes from some slot of the bucket and leaves it. */
  lemma {:induction false} ClimberOf(cfg: Config, hp: nat, b: nat, bkt: Bucket, i: nat) returns (s: nat)
    requires i < |Climbers(cfg, hp, b, bkt)|
    ensures s < |bkt| && bkt[s] == Climbers(cfg, hp, b, bkt)[i] && Leaves(cfg, hp, b, bkt[s])
    decreases |bkt|
  {
    if Leaves(cfg, hp, b, bkt[0]) && i == 0 {
      s := 0;
    } else {
      s := ClimberOf(cfg, hp, b, bkt[1..], if Leaves(cfg, hp, b, bkt[0]) then i - 1 else i);
      s := s + 1;
    }
  }

  /** The new upper bucket: leaving entries packed from slot 0. */
  function Rise(cfg: Config, hp: nat, b: nat, bkt: Bucket): (r: Bucket)
    ensures |r| == |bkt|
  {
    var c := Climbers(cfg, hp, b, bkt);
    c + VacantBucket(|bkt| - |c|)
  }

  /** A split neither loses nor repeats an entry. */
  lemma SplitEntries(cfg: Config, hp: nat, b: nat, bkt: Bucket)
    ensures Entries(Stay(cfg, hp, b, bkt)) + Entries(Rise(cfg, hp, b, bkt)) == Entries(bkt)
  {
    var c := Climbers(cfg, hp, b, bkt);
    EntriesConcat(c, VacantBucket(|bkt| - |c|));
    EntriesVacant(|bkt| - |c|);
    StayAndClimb(cfg, hp, b, bkt);
  }

  lemma Regroup(a: multiset<Entry>, b: multiset<Entry>, c: multiset<Entry>, d: multiset<Entry>)
    ensures (a + b) + (c + d) == (a + c) + (b + d)
  {
  }

  /** The first slot of a bucket, split. */
  lemma SplitFirst(cfg: Config, hp: nat, b: nat, bkt: Bucket)
    requires bkt != []
    ensures Entries(Stay(cfg, hp, b, bkt))
         == One(if Leaves(cfg, hp, b, bkt[0]) then Vacant else bkt[0]) + Entries(Stay(cfg, hp, b, bkt[1..]))
    ensures Entries(Climbers(cfg, hp, b, bkt))
         == (if Leaves(cfg, hp, b, bkt[0]) then One(bkt[0]) else multiset{}) + Entries(Climbers(cfg, hp, b, bkt[1..]))
  {
    assert Stay(cfg, hp, b, bkt)[1..] == Stay(cfg, hp, b, bkt[1..]);
    var c := Climbers(cfg, hp, b, bkt[1..]);
    assert ([bkt[0]] + c)[1..] == c && [] + c == c;
  }

  lemma {:induction false} StayAndClimb(cfg: Config, hp: nat, b: nat, bkt: Bucket)
    ensures Entries(Stay(cfg, hp, b, bkt)) + Entries(Climbers(cfg, hp, b, bkt)) == Entries(bkt)
    decreases |bkt|
  {
    if bkt != [] {
      var rest := bkt[1..];
      StayAndClimb(cfg, hp, b, rest);
      SplitFirst(cfg, hp, b, bkt);
      var stay, climb := Entries(Stay(cfg, hp, b, rest)), Entries(Climbers(cfg, hp, b, rest));
      if Leaves(cfg, hp, b, bkt[0]) {
        Regroup(multiset{}, stay, One(bkt[0]), climb);
      } else {
        Regroup(One(bkt[0]), stay, multiset{}, climb);
      }
    }
  }

  lemma {:induction false} ClimbersSnoc(cfg: Config, hp: nat, b: nat, bkt: Bucket, x: Slot)
    ensures Climbers(cfg, hp, b, bkt + [x]) == Climbers(cfg, hp, b, bkt) + if Leaves(cfg, hp, b, x) then [x] else []
    decreases |bkt|
  {
    if bkt != [] {
      assert (bkt + [x])[1..] == bkt[1..] + [x];
      ClimbersSnoc(cfg, hp, b, bkt[1..], x);
    }
  }

  /** The lower bucket after the first `s` slots have been moved. */
  function PartLow(cfg: Config, hp: nat, b: nat, bkt: Bucket, s: nat): (r: Bucket)
    requires s <= |bkt|
    ensures |r| == |bkt|
  {
    Stay(cfg, hp, b, bkt[..s]) + VacantBucket(|bkt| - s)
  }

  /** The upper bucket after the first `s` slots have been moved. */
  function PartHigh(cfg: Config, hp: nat, b: nat, bkt: Bucket, s: nat): (r: Bucket)
    requires s <= |bkt|
    ensures |r| == |bkt|
  {
    var c := Climbers(cfg, hp, b, bkt[..s]);
    c + VacantBucket(|bkt| - |c|)
  }

  lemma PartLowStep(cfg: Config, hp: nat, b: nat, bkt: Bucket, s: nat)
    requires s < |bkt|
    ensures PartLow(cfg, hp, b, bkt, s)[s] == Vacant
    ensures PartLow(cfg, hp, b, bkt, s + 1)
         == PartLow(cfg, hp, b, bkt, s)[s := if Leaves(cfg, hp, b, bkt[s]) then Vacant else bkt[s]]
  {
    var x, y := PartLow(cfg, hp, b, bkt, s), PartLow(cfg, hp, b, bkt, s + 1);
    forall i | 0 <= i < |bkt| ensures y[i] == x[s := if Leaves(cfg, hp, b, bkt[s]) then Vacant else bkt[s]][i] {
      if i <= s {
        StayAt(cfg, hp, b, bkt[..s + 1], i);
      }
      if i < s {
        StayAt(cfg, hp, b, bkt[..s], i);
      }
    }
  }

  lemma PartHighStep(cfg: Config, hp: nat, b: nat, bkt: Bucket, s: nat)
    requires s < |bkt|
    ensures var n := |Climbers(cfg, hp, b, bkt[..s])|;
            && n < |bkt| && PartHigh(cfg, hp, b, bkt, s)[n] == Vacant
            && |Climbers(cfg, hp, b, bkt[..s + 1])| == (if Leaves(cfg, hp, b, bkt[s]) then n + 1 else n)
            && PartHigh(cfg, hp, b, bkt, s + 1)
            == if Leaves(cfg, hp, b, bkt[s]) then PartHigh(cfg, hp, b, bkt, s)[n := bkt[s]]
              else PartHigh(cfg, hp, b, bkt, s)
  {
    assert bkt[..s + 1] == bkt[..s] + [bkt[s]];
    ClimbersSnoc(cfg, hp, b, bkt[..s], bkt[s]);
    var c := Climbers(cfg, hp, b, bkt[..s]);
    if Leaves(cfg, hp, b, bkt[s]) {
      assert (c + VacantBucket(|bkt| - |c|))[|c| := bkt[s]] == (c + [bkt[s]]) + VacantBucket(|bkt| - |c| - 1);
    }
  }

  /** The states of a bucket split before and after slot `s`: lower bucket, upper bucket, next upper slot. */
  ghost predicate PartStep(cfg: Config, hp: nat, b: nat, bkt: Bucket, lows: seq<Bucket>, highs: seq<Bucket>,
                           next: seq<nat>, s: nat) {
    && s < |bkt| && |lows| == |highs| == |next| == |bkt| + 1
    && |lows[s]| == |highs[s]| == |bkt| && next[s] < |bkt|
    && lows[s][s] == Vacant && highs[s][next[s]] == Vacant
    && lows[s + 1] == lows[s][s := if Leaves(cfg, hp, b, bkt[s]) then Vacant else bkt[s]]
    && highs[s + 1] == (if Leaves(cfg, hp, b, bkt[s]) then highs[s][next[s] := bkt[s]] else highs[s])
    && next[s + 1] == if Leaves(cfg, hp, b, bkt[s]) then next[s] + 1 else next[s]
  }

  lemma PartsEnds(cfg: Config, hp: nat, b: nat, bkt: Bucket)
    ensures PartLow(cfg, hp, b, bkt, 0) == VacantBucket(|bkt|) == PartHigh(cfg, hp, b, bkt, 0)
    ensures PartLow(cfg, hp, b, bkt, |bkt|) == Stay(cfg, hp, b, bkt)
    ensures PartHigh(cfg, hp, b, bkt, |bkt|) == Rise(cfg, hp, b, bkt)
    ensures |Climbers(cfg, hp, b, bkt[..0])| == 0
  {
    assert bkt[..|bkt|] == bkt && bkt[..0] == [];
  }

  ghost function Lows(cfg: Config, hp: nat, b: nat, bkt: Bucket, n: nat): (r: seq<Bucket>)
    requires n <= |bkt|
    ensures |r| == n + 1 && forall s :: 0 <= s <= n ==> r[s] == PartLow(cfg, hp, b, bkt, s)
  {
    (if n == 0 then [] else Lows(cfg, hp, b, bkt, n - 1)) + [PartLow(cfg, hp, b, bkt, n)]
  }

  ghost function Highs(cfg: Config, hp: nat, b: nat, bkt: Bucket, n: nat): (r: seq<Bucket>)
    requires n <= |bkt|
    ensures |r| == n + 1 && forall s :: 0 <= s <= n ==> r[s] == PartHigh(cfg, hp, b, bkt, s)
  {
    (if n == 0 then [] else Highs(cfg, hp, b, bkt, n - 1)) + [PartHigh(cfg, hp, b, bkt, n)]
  }

  ghost function Nexts(cfg: Config, hp: nat, b: nat, bkt: Bucket, n: nat): (r: seq<nat>)
    requires n <= |bkt|
    ensures |r| == n + 1 && forall s :: 0 <= s <= n ==> r[s] == |Climbers(cfg, hp, b, bkt[..s])|
  {
    (if n == 0 then [] else Nexts(cfg, hp, b, bkt, n - 1)) + [|Climbers(cfg, hp, b, bkt[..n])|]
  }

  lemma PartAt(cfg: Config, hp: nat, b: nat, bkt: Bucket, lows: seq<Bucket>, highs: seq<Bucket>, next: seq<nat>, s: nat)
    requires s < |bkt| && |lows| == |highs| == |next| == |bkt| + 1
    requires lows[s] == PartLow(cfg, hp, b, bkt, s) && lows[s + 1] == PartLow(cfg, hp, b, bkt, s + 1)
    requires highs[s] == PartHigh(cfg, hp, b, bkt, s) && highs[s + 1] == PartHigh(cfg, hp, b, bkt, s + 1)
    requires next[s] == |Climbers(cfg, hp, b, bkt[..s])| && next[s + 1] == |Climbers(cfg, hp, b, bkt[..s + 1])|
    ensures PartStep(cfg, hp, b, bkt, lows, highs, next, s)
  {
    PartLowStep(cfg, hp, b, bkt, s);
    PartHighStep(cfg, hp, b, bkt, s);
  }

  lemma Parts(cfg: Config, hp: nat, b: nat, bkt: Bucket) returns (lows: seq<Bucket>, highs: seq<Bucket>, next: seq<nat>)
    ensures |lows| == |highs| == |next| == |bkt| + 1
    ensures lows[0] == highs[0] == VacantBucket(|bkt|) && next[0] == 0
    ensures lows[|bkt|] == Stay(cfg, hp, b, bkt) && highs[|bkt|] == Rise(cfg, hp, b, bkt)
    ensures forall s :: 0 <= s < |bkt| ==> PartStep(cfg, hp, b, bkt, lows, highs, next, s)
  {
    var n := |bkt|;
    lows, highs, next := Lows(cfg, hp, b, bkt, n), Highs(cfg, hp, b, bkt, n), Nexts(cfg, hp, b, bkt, n);
    PartsEnds(cfg, hp, b, bkt);
    forall s | 0 <= s < |bkt| ensures PartStep(cfg, hp, b, bkt, lows, highs, next, s) {
      PartAt(cfg, hp, b, bkt, lows, highs, next, s);
    }
  }
}
