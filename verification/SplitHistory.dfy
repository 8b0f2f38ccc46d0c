/** The split-ordered table as a map: every run of any number of threads has the results of some
    sequential run of the same operations, in an order that respects real time. */
module SplitHistory {
  import opened SplitOrder
  import opened SplitList
  import opened SplitThreads

  // ---------- the sequential map ----------

  /** The result is the one the operation has on map `m`. */
  ghost predicate Right(m: map<int, int>, d: Done) {
    match d.op
    case Insert(k, _) => d.res == (k !in m)
    case Delete(k) => d.res == (k in m)
    case Find(k) => d.res == (k in m) && (d.res ==> d.val == m[k])
  }

  ghost function After(m: map<int, int>, op: Op): (m': map<int, int>) {
    match op
    case Insert(k, v) => m[k := v]
    case Delete(k) => m - {k}
    case Find(_) => m
  }

  ghost function Front(ds: seq<Done>): (r: seq<Done>)
    requires ds != []
  {
    ds[..|ds| - 1]
  }

  ghost function Final(ds: seq<Done>): (d: Done)
    requires ds != []
  {
    ds[|ds| - 1]
  }

  ghost function Replay(m: map<int, int>, ds: seq<Done>): (m': map<int, int>)
    decreases |ds|
  {
    if ds == [] then m else After(Replay(m, Front(ds)), Final(ds).op)
  }

  /** Done one after the other from map `m`, the operations have these results. */
  ghost predicate Legal(m: map<int, int>, ds: seq<Done>)
    decreases |ds|
  {
    ds == [] || (Legal(m, Front(ds)) && Right(Replay(m, Front(ds)), Final(ds)))
  }

  lemma Append(m: map<int, int>, ds: seq<Done>, d: Done)
    requires Legal(m, ds) && Right(Replay(m, ds), d)
    ensures Legal(m, ds + [d]) && Replay(m, ds + [d]) == After(Replay(m, ds), d.op)
  {
    assert Front(ds + [d]) == ds;
  }

  lemma {:induction false} LegalConcat(m: map<int, int>, a: seq<Done>, b: seq<Done>)
    requires Legal(m, a) && Legal(Replay(m, a), b)
    ensures Legal(m, a + b) && Replay(m, a + b) == Replay(Replay(m, a), b)
    decreases |b|
  {
    if b == [] {
      assert a + b == a;
    } else {
      LegalConcat(m, a, Front(b));
      assert a + b == a + Front(b) + [Final(b)];
      Append(m, a + Front(b), Final(b));
    }
  }

  // ---------- operations by the moment they took effect ----------

  /** The operation without the moment of its return. */
  ghost function Core(d: Done): (c: Done) {
    d.(until := 0)
  }

  ghost function One(d: Done, m: nat): (c: multiset<Done>) {
    if !d.late && d.at == m then multiset{Core(d)} else multiset{}
  }

  /** The operations that took effect in their own step `m`. */
  ghost function Own(ds: seq<Done>, m: nat): (c: multiset<Done>)
    decreases |ds|
  {
    if ds == [] then multiset{} else Own(Front(ds), m) + One(Final(ds), m)
  }

  ghost function OwnOf(ds: seq<Done>, m: nat): (r: seq<Done>)
    decreases |ds|
  {
    if ds == [] then []
    else OwnOf(Front(ds), m) + if !Final(ds).late && Final(ds).at == m then [Final(ds)] else []
  }

  /** The operations that count as done just before step `m`, which deleted their node. */
  ghost function LateOf(ds: seq<Done>, m: nat): (r: seq<Done>)
    decreases |ds|
  {
    if ds == [] then []
    else LateOf(Front(ds), m) + if Final(ds).late && Final(ds).at == m then [Final(ds)] else []
  }

  lemma Associates<T>(a: multiset<T>, b: multiset<T>, c: multiset<T>)
    ensures a + b + c == a + (b + c)
  {
  }

  lemma {:induction false} OwnConcat(a: seq<Done>, b: seq<Done>, m: nat)
    ensures Own(a + b, m) == Own(a, m) + Own(b, m)
    decreases |b|
  {
    if b == [] {
      assert a + b == a;
    } else {
      OwnConcat(a, Front(b), m);
      assert Front(a + b) == a + Front(b);
      Associates(Own(a, m), Own(Front(b), m), One(Final(b), m));
    }
  }

  lemma {:induction false} LateConcat(a: seq<Done>, b: seq<Done>, m: nat)
    ensures LateOf(a + b, m) == LateOf(a, m) + LateOf(b, m)
    decreases |b|
  {
    if b == [] {
      assert a + b == a;
    } else {
      LateConcat(a, Front(b), m);
      assert Front(a + b) == a + Front(b);
    }
  }

  lemma OwnOne(d: Done, m: nat)
    ensures Own([d], m) == One(d, m)
  {
    assert Front([d]) == [];
  }

  lemma LateOne(d: Done, m: nat)
    ensures LateOf([d], m) == if d.late && d.at == m then [d] else []
  {
    assert Front([d]) == [];
  }

  lemma {:induction false} OwnNone(ds: seq<Done>, m: nat)
    requires forall i :: 0 <= i < |ds| ==> ds[i].late || ds[i].at != m
    ensures Own(ds, m) == multiset{}
    decreases |ds|
  {
    if ds != [] {
      OwnNone(Front(ds), m);
    }
  }

  lemma {:induction false} LateNone(ds: seq<Done>, m: nat)
    requires forall i :: 0 <= i < |ds| ==> !ds[i].late || ds[i].at != m
    ensures LateOf(ds, m) == []
    decreases |ds|
  {
    if ds != [] {
      LateNone(Front(ds), m);
    }
  }

  // ---------- operations that have taken effect but not returned ----------

  ghost function Effect(op: Op, since: nat, at: nat): (d: Done) {
    Done(op, since, at, at, false, true, 0)
  }

  ghost function Claim(t: Thread): (ds: seq<Done>) {
    match t
    case Plus(op, since, at) => [Effect(op, since, at)]
    case Bump(op, since, at) => [Effect(op, since, at)]
    case Cutting(op, since, at, _, _, _, _) => [Effect(op, since, at)]
    case Last(op, since, at) => [Effect(op, since, at)]
    case Search(op, since, task, _, _, _, _) => if task.Clean? then [Effect(op, since, task.at)] else []
    case _ => []
  }

  ghost function Claims(ts: seq<Thread>): (ds: seq<Done>) {
    if ts == [] then [] else Claim(ts[0]) + Claims(ts[1..])
  }

  /** All operations that have taken effect. */
  ghost function All(s: Sys): (ds: seq<Done>) {
    s.done + Claims(s.threads)
  }

  lemma {:induction false} ClaimsUpdate(ts: seq<Thread>, i: nat, t: Thread, m: nat)
    requires i < |ts|
    ensures Own(Claims(ts[i := t]), m) + Own(Claim(ts[i]), m) == Own(Claims(ts), m) + Own(Claim(t), m)
  {
    var ts' := ts[i := t];
    OwnConcat(Claim(ts'[0]), Claims(ts'[1..]), m);
    OwnConcat(Claim(ts[0]), Claims(ts[1..]), m);
    if i == 0 {
      assert ts'[1..] == ts[1..];
      Outer(Own(Claim(t), m), Own(Claims(ts[1..]), m), Own(Claim(ts[0]), m));
    } else {
      assert ts'[1..] == ts[1..][i - 1 := t];
      ClaimsUpdate(ts[1..], i - 1, t, m);
      Under(Own(Claim(ts[0]), m), Own(Claims(ts'[1..]), m), Own(Claim(ts[i]), m), Own(Claims(ts[1..]), m),
        Own(Claim(t), m));
    }
  }

  lemma Outer<T>(a: multiset<T>, b: multiset<T>, c: multiset<T>)
    ensures a + b + c == c + b + a
  {
  }

  lemma Under<T>(a: multiset<T>, b: multiset<T>, c: multiset<T>, d: multiset<T>, e: multiset<T>)
    requires b + c == d + e
    ensures a + b + c == a + d + e
  {
    Associates(a, b, c);
    Associates(a, d, e);
  }

  /** Against the operations that have taken effect, a step adds `e`. */
  ghost predicate Adds(t: Thread, o: Out, e: seq<Done>, m: nat) {
    Own(o.done, m) + Own(Claim(o.thread), m) == Own(Claim(t), m) + Own(e, m)
  }

  lemma OwnStep(s: Sys, tid: nat, o: Out, e: seq<Done>, m: nat)
    requires tid < |s.threads| && Adds(s.threads[tid], o, e, m)
    ensures Own(All(Apply(s, tid, o)), m) == Own(All(s), m) + Own(e, m)
  {
    var s', t := Apply(s, tid, o), s.threads[tid];
    OwnConcat(s.done + o.done, Claims(s'.threads), m);
    OwnConcat(s.done, o.done, m);
    OwnConcat(s.done, Claims(s.threads), m);
    ClaimsUpdate(s.threads, tid, o.thread, m);
    Rearrange(Own(s.done, m), Own(o.done, m), Own(Claims(s'.threads), m), Own(Claim(t), m), Own(Claims(s.threads), m),
              Own(Claim(o.thread), m), Own(e, m));
  }

  lemma Rearrange<T>(done: multiset<T>, more: multiset<T>, claims': multiset<T>, claim: multiset<T>,
                     claims: multiset<T>, claim': multiset<T>, e: multiset<T>)
    requires claims' + claim == claims + claim' && more + claim' == claim + e
    ensures done + more + claims' == done + claims + e
  {
    forall x ensures (done + more + claims')[x] == (done + claims + e)[x] {
      assert (claims' + claim)[x] == (claims + claim')[x];
      assert (more + claim')[x] == (claim + e)[x];
    }
  }

  // ---------- invariant ----------

  ghost predicate Dead(h: Heap, n: nat) {
    n < |h.nodes| && h.nodes[n].marked
  }

  /** The one step of moment `m`, if an operation took effect in it, leads from map `m` to the next. */
  ghost predicate MomentOk(past: seq<map<int, int>>, own: multiset<Done>, m: nat)
    requires m + 1 < |past|
  {
    || (own == multiset{} && past[m + 1] == past[m])
    || (exists d :: own == multiset{d} && Right(past[m], d) && After(past[m], d.op) == past[m + 1])
  }

  /** The step was the deletion of key `k`. */
  ghost predicate Deleted(own: multiset<Done>, k: int) {
    exists d :: own == multiset{d} && d.op == Delete(k) && d.res
  }

  /** What was done to a deleted node afterwards counts as done just before its deletion: there, its value
      was the one it has now. */
  ghost predicate DeadOk(past: seq<map<int, int>>, done: seq<Done>, own: multiset<Done>, x: Node) {
    && x.tag.Item? && x.died + 1 < |past| && Deleted(own, x.tag.key)
    && Legal(past[x.died], LateOf(done, x.died))
    && Replay(past[x.died], LateOf(done, x.died)) == past[x.died][x.tag.key := x.val]
  }

  /** The operation took effect between its beginning and its end. */
  ghost predicate Timely(h: Heap, n: nat, d: Done) {
    && d.since <= d.at <= d.until && d.until + 1 < n
    && (d.late ==> exists x: nat :: DiedAt(h, x, d.at))
  }

  ghost predicate DiedAt(h: Heap, n: nat, at: nat) {
    Dead(h, n) && h.nodes[n].died == at
  }

  ghost predicate ClaimOk(t: Thread, n: nat) {
    forall i :: 0 <= i < |Claim(t)| ==> Claim(t)[i].since <= Claim(t)[i].at && Claim(t)[i].at + 1 < n
  }

  /** Two deleted nodes were deleted at different moments. */
  ghost predicate DiedApart(h: Heap) {
    forall x: nat, y: nat {:trigger Dead(h, x), Dead(h, y)} ::
      Dead(h, x) && Dead(h, y) && x != y ==> h.nodes[x].died != h.nodes[y].died
  }

  ghost predicate History(s: Sys) {
    true == (
      && s.past != [] && s.past[0] == map[] && s.past[|s.past| - 1] == Contents(s.h)
      && (forall m: nat {:trigger MomentOk(s.past, Own(All(s), m), m)} ::
            m + 1 < |s.past| ==> MomentOk(s.past, Own(All(s), m), m))
      && (forall n: nat {:trigger Dead(s.h, n)} ::
            Dead(s.h, n) ==> DeadOk(s.past, s.done, Own(All(s), s.h.nodes[n].died), s.h.nodes[n]))
      && DiedApart(s.h)
      && (forall i :: 0 <= i < |s.done| ==> Timely(s.h, |s.past|, s.done[i]))
      && (forall i :: 0 <= i < |s.threads| ==> ClaimOk(s.threads[i], |s.past|))
    )
  }

  lemma {:induction false} ClaimsIn(ts: seq<Thread>, n: nat)
    requires forall i :: 0 <= i < |ts| ==> ClaimOk(ts[i], n)
    ensures forall i :: 0 <= i < |Claims(ts)| ==>
              !Claims(ts)[i].late && Claims(ts)[i].since <= Claims(ts)[i].at && Claims(ts)[i].at + 1 < n
  {
    if ts != [] {
      ClaimsIn(ts[1..], n);
      assert ClaimOk(ts[0], n);
    }
  }

  /** Nothing has taken effect yet in the present moment. */
  lemma NothingNow(s: Sys)
    requires History(s)
    ensures Own(All(s), Now(s)) == multiset{}
  {
    ClaimsIn(s.threads, |s.past|);
    OwnNone(All(s), Now(s));
  }

  /** Apart from node `x`, the same nodes are dead, with the same values. */
  ghost predicate DeadSame(h: Heap, h': Heap, x: int) {
    true == (
      && (forall n: nat {:trigger Dead(h', n)} {:trigger Dead(h, n)} :: n != x ==> (Dead(h', n) <==> Dead(h, n)))
      && (forall n: nat {:trigger Dead(h', n)} :: n != x && Dead(h, n) && Dead(h', n) ==>
            h'.nodes[n].tag == h.nodes[n].tag && h'.nodes[n].died == h.nodes[n].died
              && h'.nodes[n].val == h.nodes[n].val)
    )
  }

  /** What step `o` adds to the history: `e`, taking effect now. */
  ghost predicate Effects(s: Sys, o: Out, e: seq<Done>) {
    true == (
      if e == [] then Contents(o.h) == Contents(s.h)
      else |e| == 1 && !e[0].late && e[0].at == Now(s) && Right(Contents(s.h), e[0])
           && After(Contents(s.h), e[0].op) == Contents(o.h)
    )
  }

  lemma EffectOwn(s: Sys, o: Out, e: seq<Done>, m: nat)
    requires Effects(s, o, e)
    ensures Own(e, m) == if e != [] && m == Now(s) then multiset{Core(e[0])} else multiset{}
  {
    if e != [] {
      assert e == [e[0]];
      OwnOne(e[0], m);
    }
  }

  lemma MomentStays(past: seq<map<int, int>>, x: map<int, int>, own: multiset<Done>, m: nat)
    requires m + 1 < |past| && MomentOk(past, own, m)
    ensures MomentOk(past + [x], own, m)
  {
    if own != multiset{} || past[m + 1] != past[m] {
      var d :| own == multiset{d} && Right(past[m], d) && After(past[m], d.op) == past[m + 1];
    }
  }

  lemma MomentNew(past: seq<map<int, int>>, x: map<int, int>, d: Done)
    requires past != [] && Right(past[|past| - 1], d) && After(past[|past| - 1], d.op) == x
    ensures MomentOk(past + [x], multiset{Core(d)}, |past| - 1)
  {
    var m := |past| - 1;
    assert (past + [x])[m] == past[m];
    assert Right((past + [x])[m], Core(d));
  }

  lemma OwnKept(s: Sys, tid: nat, o: Out, e: seq<Done>, m: nat)
    requires History(s) && tid < |s.threads| && Effects(s, o, e) && Adds(s.threads[tid], o, e, m)
    ensures Own(All(Apply(s, tid, o)), m)
         == if m != Now(s) then Own(All(s), m) else if e == [] then multiset{} else multiset{Core(e[0])}
  {
    OwnStep(s, tid, o, e, m);
    EffectOwn(s, o, e, m);
    NothingNow(s);
  }

  lemma MomentsKept(s: Sys, tid: nat, o: Out, e: seq<Done>, m: nat)
    requires History(s) && tid < |s.threads| && Effects(s, o, e) && m < |s.past|
    requires Adds(s.threads[tid], o, e, m)
    ensures MomentOk(s.past + [Contents(o.h)], Own(All(Apply(s, tid, o)), m), m)
  {
    OwnKept(s, tid, o, e, m);
    if m < Now(s) {
      MomentStays(s.past, Contents(o.h), Own(All(s), m), m);
    } else if e != [] {
      MomentNew(s.past, Contents(o.h), e[0]);
    }
  }

  // ---------- dead nodes ----------

  lemma DeadStays(past: seq<map<int, int>>, x: map<int, int>, done: seq<Done>, done': seq<Done>, own: multiset<Done>,
                  n: Node)
    requires DeadOk(past, done, own, n) && LateOf(done', n.died) == LateOf(done, n.died)
    ensures DeadOk(past + [x], done', own, n)
  {
    assert (past + [x])[n.died] == past[n.died];
  }

  /** A node deleted just now: nothing has been done to it since. */
  lemma DeadNew(past: seq<map<int, int>>, x: map<int, int>, done: seq<Done>, d: Done, n: Node)
    requires past != [] && n.died == |past| - 1 && n.tag.Item? && LateOf(done, n.died) == []
    requires d.op == Delete(n.tag.key) && d.res
    requires n.tag.key in past[n.died] && past[n.died][n.tag.key] == n.val
    ensures DeadOk(past + [x], done, multiset{Core(d)}, n)
  {
    var m := (past + [x])[n.died];
    assert m == past[n.died] == m[n.tag.key := n.val];
    assert Core(d).op == Delete(n.tag.key) && Core(d).res;
  }

  /** One more access to a deleted node. */
  lemma DeadAccessed(past: seq<map<int, int>>, x: map<int, int>, done: seq<Done>, own: multiset<Done>, n: Node,
                     d: Done, v: int)
    requires DeadOk(past, done, own, n) && d.late && d.at == n.died
    requires (d.op == Find(n.tag.key) && d.res && d.val == n.val && v == n.val)
             || (d.op == Insert(n.tag.key, v) && !d.res)
    ensures DeadOk(past + [x], done + [d], own, n.(val := v))
  {
    var a, m := n.died, past[n.died];
    assert (past + [x])[a] == m;
    LateConcat(done, [d], a);
    LateOne(d, a);
    LateAccess(m, LateOf(done, a), d, n.tag.key, n.val, v);
  }

  lemma LateAccess(m: map<int, int>, late: seq<Done>, d: Done, k: int, val: int, v: int)
    requires Legal(m, late) && Replay(m, late) == m[k := val]
    requires (d.op == Find(k) && d.res && d.val == val == v) || (d.op == Insert(k, v) && !d.res)
    ensures Legal(m, late + [d]) && Replay(m, late + [d]) == m[k := v]
  {
    Append(m, late, d);
    assert m[k := val][k := v] == m[k := v];
  }

  // ---------- steps ----------

  lemma LateElsewhere(done: seq<Done>, more: seq<Done>, m: nat)
    requires forall i :: 0 <= i < |more| ==> !more[i].late || more[i].at != m
    ensures LateOf(done + more, m) == LateOf(done, m)
  {
    LateConcat(done, more, m);
    LateNone(more, m);
  }

  /** What every step keeps, whatever it does to one dead node `x`. */
  lemma TimesKept(s: Sys, tid: nat, o: Out, x: int)
    requires History(s) && tid < |s.threads| && DeadSame(s.h, o.h, x)
    requires forall n: nat {:trigger Dead(s.h, n)} :: Dead(s.h, n) && n == x ==> DiedAt(o.h, n, s.h.nodes[n].died)
    requires forall i :: 0 <= i < |o.done| ==> Timely(o.h, |s.past| + 1, o.done[i])
    requires ClaimOk(o.thread, |s.past| + 1)
    ensures var s' := Apply(s, tid, o);
            && (forall i :: 0 <= i < |s'.done| ==> Timely(s'.h, |s'.past|, s'.done[i]))
            && (forall i :: 0 <= i < |s'.threads| ==> ClaimOk(s'.threads[i], |s'.past|))
  {
    var s' := Apply(s, tid, o);
    forall i | 0 <= i < |s'.done| ensures Timely(s'.h, |s'.past|, s'.done[i]) {
      if i < |s.done| {
        assert Timely(s.h, |s.past|, s.done[i]);
        if s.done[i].late {
          var n: nat :| DiedAt(s.h, n, s.done[i].at);
          assert DiedAt(o.h, n, s.done[i].at);
        }
      }
    }
    forall i | 0 <= i < |s'.threads| ensures ClaimOk(s'.threads[i], |s'.past|) {
      assert ClaimOk(s.threads[i], |s.past|);
    }
  }

  /** A step that deletes no node. */
  lemma PlainStep(s: Sys, tid: nat, o: Out, e: seq<Done>)
    requires History(s) && tid < |s.threads| && Effects(s, o, e) && DeadSame(s.h, o.h, -1)
    requires forall m: nat :: Adds(s.threads[tid], o, e, m)
    requires forall i :: 0 <= i < |o.done| ==> !o.done[i].late && Timely(o.h, |s.past| + 1, o.done[i])
    requires ClaimOk(o.thread, |s.past| + 1)
    ensures History(Apply(s, tid, o))
  {
    var s' := Apply(s, tid, o);
    TimesKept(s, tid, o, -1);
    forall m: nat | m + 1 < |s'.past| ensures MomentOk(s'.past, Own(All(s'), m), m) {
      assert Adds(s.threads[tid], o, e, m);
      MomentsKept(s, tid, o, e, m);
    }
    forall n: nat | Dead(s'.h, n) ensures DeadOk(s'.past, s'.done, Own(All(s'), s'.h.nodes[n].died), s'.h.nodes[n]) {
      DeadKept(s, tid, o, e, n);
    }
  }

  /** A node deleted earlier and not touched in this step. */
  lemma DeadKept(s: Sys, tid: nat, o: Out, e: seq<Done>, n: nat)
    requires History(s) && tid < |s.threads| && Effects(s, o, e) && Dead(s.h, n) && Dead(o.h, n)
    requires var a, b := s.h.nodes[n], o.h.nodes[n]; b.tag == a.tag && b.died == a.died && b.val == a.val
    requires forall m: nat :: Adds(s.threads[tid], o, e, m)
    requires forall i :: 0 <= i < |o.done| ==> !o.done[i].late || o.done[i].at != s.h.nodes[n].died
    ensures var s', x := Apply(s, tid, o), o.h.nodes[n]; DeadOk(s'.past, s'.done, Own(All(s'), x.died), x)
  {
    var x, a := o.h.nodes[n], s.h.nodes[n];
    assert DeadOk(s.past, s.done, Own(All(s), a.died), a);
    assert Adds(s.threads[tid], o, e, a.died);
    OwnKept(s, tid, o, e, a.died);
    LateElsewhere(s.done, o.done, a.died);
    DeadSameNode(s.past, s.done, Own(All(s), a.died), a, x);
    DeadStays(s.past, Contents(o.h), s.done, s.done + o.done, Own(All(s), a.died), x);
  }

  lemma DeadSameNode(past: seq<map<int, int>>, done: seq<Done>, own: multiset<Done>, a: Node, b: Node)
    requires DeadOk(past, done, own, a) && b.tag == a.tag && b.died == a.died && b.val == a.val
    ensures DeadOk(past, done, own, b)
  {
  }

  /** The step that deletes node `x`. */
  lemma DeathStep(s: Sys, tid: nat, o: Out, d: Done, x: nat)
    requires History(s) && tid < |s.threads| && Effects(s, o, [d]) && DeadSame(s.h, o.h, x) && !Dead(s.h, x)
    requires forall m: nat :: Adds(s.threads[tid], o, [d], m)
    requires o.done == [] && ClaimOk(o.thread, |s.past| + 1) && DiedAt(o.h, x, Now(s))
    requires var n := o.h.nodes[x];
             && n.tag.Item? && d.op == Delete(n.tag.key) && d.res
             && n.tag.key in Contents(s.h) && Contents(s.h)[n.tag.key] == n.val
    ensures History(Apply(s, tid, o))
  {
    var s' := Apply(s, tid, o);
    TimesKept(s, tid, o, x);
    forall m: nat | m + 1 < |s'.past| ensures MomentOk(s'.past, Own(All(s'), m), m) {
      assert Adds(s.threads[tid], o, [d], m);
      MomentsKept(s, tid, o, [d], m);
    }
    forall n: nat | Dead(s'.h, n) ensures DeadOk(s'.past, s'.done, Own(All(s'), s'.h.nodes[n].died), s'.h.nodes[n]) {
      if n == x {
        NewlyDead(s, tid, o, d, x);
      } else {
        DeadKept(s, tid, o, [d], n);
      }
    }
    forall a: nat, b: nat | Dead(s'.h, a) && Dead(s'.h, b) && a != b ensures s'.h.nodes[a].died != s'.h.nodes[b].died {
      DiedEarlier(s, o, x, a);
      DiedEarlier(s, o, x, b);
    }
  }

  lemma DiedEarlier(s: Sys, o: Out, x: nat, n: nat)
    requires History(s) && DeadSame(s.h, o.h, x) && Dead(o.h, n)
    ensures n != x ==> Dead(s.h, n) && o.h.nodes[n].died == s.h.nodes[n].died < Now(s)
  {
    if n != x {
      assert DeadOk(s.past, s.done, Own(All(s), s.h.nodes[n].died), s.h.nodes[n]);
    }
  }

  lemma NewlyDead(s: Sys, tid: nat, o: Out, d: Done, x: nat)
    requires History(s) && tid < |s.threads| && Effects(s, o, [d]) && Adds(s.threads[tid], o, [d], Now(s))
    requires o.done == [] && DiedAt(o.h, x, Now(s))
    requires var n := o.h.nodes[x];
             && n.tag.Item? && d.op == Delete(n.tag.key) && d.res
             && n.tag.key in Contents(s.h) && Contents(s.h)[n.tag.key] == n.val
    ensures var s', n := Apply(s, tid, o), o.h.nodes[x]; DeadOk(s'.past, s'.done, Own(All(s'), n.died), n)
  {
    OwnKept(s, tid, o, [d], Now(s));
    LateNone(s.done, Now(s));
    assert s.done + [] == s.done;
    DeadNew(s.past, Contents(o.h), s.done, d, o.h.nodes[x]);
  }

  /** An access to the value of a deleted node. */
  lemma LateStep(s: Sys, tid: nat, o: Out, d: Done, x: nat, v: int)
    requires History(s) && tid < |s.threads| && Effects(s, o, []) && Dead(s.h, x) && DeadSame(s.h, o.h, x)
    requires forall m: nat :: Adds(s.threads[tid], o, [], m)
    requires o.done == [d] && d.late && d.at == s.h.nodes[x].died && Timely(o.h, |s.past| + 1, d)
    requires ClaimOk(o.thread, |s.past| + 1) && Dead(o.h, x) && o.h.nodes[x] == s.h.nodes[x].(val := v)
    requires var n := s.h.nodes[x];
             n.tag.Item? && ((d.op == Find(n.tag.key) && d.res && d.val == n.val == v)
               || (d.op == Insert(n.tag.key, v) && !d.res))
    ensures History(Apply(s, tid, o))
  {
    var s' := Apply(s, tid, o);
    TimesKept(s, tid, o, x);
    forall m: nat | m + 1 < |s'.past| ensures MomentOk(s'.past, Own(All(s'), m), m) {
      assert Adds(s.threads[tid], o, [], m);
      MomentsKept(s, tid, o, [], m);
    }
    forall n: nat | Dead(s'.h, n) ensures DeadOk(s'.past, s'.done, Own(All(s'), s'.h.nodes[n].died), s'.h.nodes[n]) {
      if n == x {
        LateDead(s, tid, o, d, x, v);
      } else {
        LateElse(s, tid, o, d, x, n);
      }
    }
    ApartKept(s.h, o.h, x);
  }

  lemma ApartKept(h: Heap, h': Heap, x: nat)
    requires DiedApart(h) && DeadSame(h, h', x) && Dead(h, x) && Dead(h', x) && h'.nodes[x].died == h.nodes[x].died
    ensures DiedApart(h')
  {
    forall a: nat, b: nat | Dead(h', a) && Dead(h', b) && a != b ensures h'.nodes[a].died != h'.nodes[b].died {
      assert Dead(h, a) && Dead(h, b);
    }
  }

  lemma LateElse(s: Sys, tid: nat, o: Out, d: Done, x: nat, n: nat)
    requires History(s) && tid < |s.threads| && Effects(s, o, []) && Dead(s.h, x) && DeadSame(s.h, o.h, x)
    requires forall m: nat :: Adds(s.threads[tid], o, [], m)
    requires o.done == [d] && d.at == s.h.nodes[x].died && Dead(o.h, n) && n != x
    ensures var s', y := Apply(s, tid, o), o.h.nodes[n]; DeadOk(s'.past, s'.done, Own(All(s'), y.died), y)
  {
    assert Dead(s.h, n) && Dead(s.h, x);
    DeadKept(s, tid, o, [], n);
  }

  lemma LateDead(s: Sys, tid: nat, o: Out, d: Done, x: nat, v: int)
    requires History(s) && tid < |s.threads| && Effects(s, o, []) && Dead(s.h, x) && Dead(o.h, x)
    requires Adds(s.threads[tid], o, [], s.h.nodes[x].died) && o.h.nodes[x] == s.h.nodes[x].(val := v)
    requires o.done == [d] && d.late && d.at == s.h.nodes[x].died
    requires var n := s.h.nodes[x];
             n.tag.Item? && ((d.op == Find(n.tag.key) && d.res && d.val == n.val == v)
               || (d.op == Insert(n.tag.key, v) && !d.res))
    ensures var s', n := Apply(s, tid, o), o.h.nodes[x]; DeadOk(s'.past, s'.done, Own(All(s'), n.died), n)
  {
    var n := s.h.nodes[x];
    assert DeadOk(s.past, s.done, Own(All(s), n.died), n);
    OwnKept(s, tid, o, [], n.died);
    DeadAccessed(s.past, Contents(o.h), s.done, Own(All(s), n.died), n, d, v);
  }

  // ---------- what a step adds ----------

  lemma AddsNothing(t: Thread, o: Out, m: nat)
    requires o.done == [] && Claim(o.thread) == Claim(t)
    ensures Adds(t, o, [], m)
  {
  }

  lemma AddsReturn(t: Thread, o: Out, c: Done, d: Done, m: nat)
    requires Claim(t) == [c] && o.done == [d] && Claim(o.thread) == [] && Core(c) == Core(d)
    ensures Adds(t, o, [], m)
  {
    OwnOne(c, m);
    OwnOne(d, m);
    assert c.late == Core(c).late && c.at == Core(c).at && d.late == Core(d).late && d.at == Core(d).at;
  }

  lemma AddsTold(t: Thread, o: Out, d: Done, m: nat)
    requires Claim(t) == [] && o.done == [d] && Claim(o.thread) == []
    ensures Adds(t, o, [d], m)
  {
  }

  lemma AddsClaim(t: Thread, o: Out, d: Done, m: nat)
    requires Claim(t) == [] && o.done == [] && Claim(o.thread) == [d]
    ensures Adds(t, o, [d], m)
  {
  }

  lemma AddsLate(t: Thread, o: Out, d: Done, m: nat)
    requires Claim(t) == [] && o.done == [d] && d.late && Claim(o.thread) == []
    ensures Adds(t, o, [], m)
  {
    OwnOne(d, m);
  }

  /** Nothing takes effect. */
  lemma QuietStep(s: Sys, tid: nat, o: Out)
    requires History(s) && tid < |s.threads| && o.done == [] && Claim(o.thread) == Claim(s.threads[tid])
    requires Contents(o.h) == Contents(s.h) && DeadSame(s.h, o.h, -1)
    ensures History(Apply(s, tid, o))
  {
    forall m: nat ensures Adds(s.threads[tid], o, [], m) {
      AddsNothing(s.threads[tid], o, m);
    }
    assert ClaimOk(s.threads[tid], |s.past|);
    PlainStep(s, tid, o, []);
  }

  /** An operation that has taken effect before returns. */
  lemma ReturnStep(s: Sys, tid: nat, o: Out, op: Op, since: nat, at: nat)
    requires History(s) && tid < |s.threads| && Claim(s.threads[tid]) == [Effect(op, since, at)]
    requires o.h == s.h && o.done == [Finished(s, op, since, at)] && o.thread == Idle
    ensures History(Apply(s, tid, o))
  {
    forall m: nat ensures Adds(s.threads[tid], o, [], m) {
      AddsReturn(s.threads[tid], o, Effect(op, since, at), Finished(s, op, since, at), m);
    }
    var t := s.threads[tid];
    assert ClaimOk(t, |s.past|);
    assert Claim(t)[0].since <= Claim(t)[0].at && Claim(t)[0].at + 1 < |s.past|;
    PlainStep(s, tid, o, []);
  }

  /** An operation takes effect and returns. */
  lemma ToldStep(s: Sys, tid: nat, o: Out, d: Done)
    requires History(s) && tid < |s.threads| && Claim(s.threads[tid]) == [] && o.thread == Idle && o.done == [d]
    requires !d.late && d.at == d.until == Now(s) && d.since <= Now(s) && Right(Contents(s.h), d)
    requires After(Contents(s.h), d.op) == Contents(o.h) && DeadSame(s.h, o.h, -1)
    ensures History(Apply(s, tid, o))
  {
    forall m: nat ensures Adds(s.threads[tid], o, [d], m) {
      AddsTold(s.threads[tid], o, d, m);
    }
    PlainStep(s, tid, o, [d]);
  }

  /** An operation takes effect, deletes no node, and goes on. */
  lemma ClaimStep(s: Sys, tid: nat, o: Out, op: Op, since: nat)
    requires History(s) && tid < |s.threads| && Claim(s.threads[tid]) == [] && o.done == []
    requires Claim(o.thread) == [Effect(op, since, Now(s))] && since <= Now(s)
    requires Effects(s, o, [Effect(op, since, Now(s))]) && DeadSame(s.h, o.h, -1)
    ensures History(Apply(s, tid, o))
  {
    forall m: nat ensures Adds(s.threads[tid], o, [Effect(op, since, Now(s))], m) {
      AddsClaim(s.threads[tid], o, Effect(op, since, Now(s)), m);
    }
    PlainStep(s, tid, o, [Effect(op, since, Now(s))]);
  }

  // ---------- every step of every thread ----------

  lemma LinkDead(h: Heap, prev: nat, cur: int, tag: Label, val: int)
    requires prev < |h.nodes|
    ensures DeadSame(h, Link(h, prev, cur, tag, val), -1)
  {
    var h' := Link(h, prev, cur, tag, val);
    forall n: nat ensures Dead(h', n) <==> Dead(h, n) {
    }
  }

  lemma MarkDead(h: Heap, cur: nat, now: nat)
    requires cur < |h.nodes|
    ensures DeadSame(h, Mark(h, cur, now), cur) && DiedAt(Mark(h, cur, now), cur, now)
  {
  }

  lemma PutDead(h: Heap, n: nat, val: int)
    requires n < |h.nodes|
    ensures DeadSame(h, Put(h, n, val), if h.nodes[n].marked then n else -1)
  {
  }

  lemma UnlinkHistory(ord: Order, s: Sys, tid: nat, o: Out, prev: nat, cur: nat, next: int)
    requires Inv(ord, s) && History(s) && tid < |s.threads| && Sees(s.h, prev, cur) && cur < |s.h.nodes|
    requires s.h.nodes[cur].marked && s.h.nodes[cur].next == next && o.h == Unlink(s.h, prev, cur, next)
    requires o.done == [] && Claim(o.thread) == Claim(s.threads[tid])
    ensures History(Apply(s, tid, o))
  {
    UnlinkSameContents(ord.item, s.h, prev, cur, next);
    QuietStep(s, tid, o);
  }

  /** SearchNode returns: a key that was not found is absent now. */
  lemma EndHistory(ord: Order, s: Sys, tid: nat, found: bool)
    requires Inv(ord, s) && History(s) && tid < |s.threads| && EndsWell(ord, s, s.threads[tid], found)
    ensures History(Apply(s, tid, SearchEnd(s, s.threads[tid], found)))
  {
    var t := s.threads[tid];
    var o := SearchEnd(s, t, found);
    match t.task
    case MakeDummy(_, _) => QuietStep(s, tid, o);
    case Clean(_, at) => ReturnStep(s, tid, o, t.op, t.since, at);
    case Run =>
      if found || t.op.Insert? {
        assert o.h == s.h && o.done == [] && Claim(o.thread) == [];
        QuietStep(s, tid, o);
      } else {
        MissHistory(ord, s, tid);
      }
  }

  lemma MissHistory(ord: Order, s: Sys, tid: nat)
    requires Inv(ord, s) && History(s) && tid < |s.threads| && EndsWell(ord, s, s.threads[tid], false)
    requires s.threads[tid].task.Run? && !s.threads[tid].op.Insert?
    ensures History(Apply(s, tid, SearchEnd(s, s.threads[tid], false)))
  {
    var t := s.threads[tid];
    AbsentNow(ord, s, t);
    var o, d := SearchEnd(s, t, false), Told(s, t.op, t.since, false);
    assert ThreadOk(ord, s.h, Now(s), t);
    assert o == Return(s, d);
    ToldStep(s, tid, o, d);
  }

  lemma SearchHistory(ord: Order, s: Sys, tid: nat)
    requires Inv(ord, s) && History(s) && tid < |s.threads| && s.threads[tid].Search? && Ready(s.h, s.threads[tid])
    ensures History(Apply(s, tid, SearchStep(ord, s, s.threads[tid])))
  {
    var t := s.threads[tid];
    var o := SearchStep(ord, s, t);
    assert ThreadOk(ord, s.h, Now(s), t);
    if t.phase.Help? && Sees(s.h, t.prev, t.cur) {
      UnlinkHistory(ord, s, tid, o, t.prev, t.cur, t.phase.next);
    } else if t.phase.Check? && Sees(s.h, t.prev, t.cur) && t.cur < 0 {
      EndHistory(ord, s, tid, false);
    } else if t.phase.Settle? && Sees(s.h, t.prev, t.cur) && !Less(s.h.nodes[t.cur].tag, Goal(ord, t.op, t.task)) {
      SettleEnds(ord, s, t);
      EndHistory(ord, s, tid, !Less(Goal(ord, t.op, t.task), s.h.nodes[t.cur].tag));
    } else {
      QuietStep(s, tid, o);
    }
  }

  lemma LinkHistory(ord: Order, s: Sys, tid: nat, c: Choice)
    requires Inv(ord, s) && History(s) && tid < |s.threads| && s.threads[tid].Linking? && Ready(s.h, s.threads[tid])
    ensures History(Apply(s, tid, LinkStep(ord, s, s.threads[tid], c)))
  {
    var t := s.threads[tid];
    var o := LinkStep(ord, s, t, c);
    if c.spurious || !Sees(s.h, t.prev, t.cur) {
      assert o.h == s.h && o.done == [] && Claim(o.thread) == [];
      QuietStep(s, tid, o);
    } else {
      LinkedHistory(ord, s, tid, o);
    }
  }

  lemma LinkedHistory(ord: Order, s: Sys, tid: nat, o: Out)
    requires Inv(ord, s) && History(s) && tid < |s.threads| && s.threads[tid].Linking?
    requires var t := s.threads[tid];
             && Sees(s.h, t.prev, t.cur) && o.done == []
             && o.h == Link(s.h, t.prev, t.cur, Goal(ord, t.op, t.task), NewVal(t.op, t.task))
             && Claim(o.thread) == if t.task.MakeDummy? then [] else [Effect(t.op, t.since, Now(s))]
    ensures History(Apply(s, tid, o))
  {
    var t := s.threads[tid];
    assert ThreadOk(ord, s.h, Now(s), t);
    LinkFacts(ord, s, t);
    LinkDead(s.h, t.prev, t.cur, Goal(ord, t.op, t.task), NewVal(t.op, t.task));
    if t.task.MakeDummy? {
      QuietStep(s, tid, o);
    } else {
      ClaimStep(s, tid, o, t.op, t.since);
    }
  }

  lemma LinkFacts(ord: Order, s: Sys, t: Thread)
    requires Inv(ord, s) && ThreadOk(ord, s.h, Now(s), t) && t.Linking? && Sees(s.h, t.prev, t.cur)
    ensures t.since <= Now(s) && (t.task.MakeDummy? || t.op.Insert?)
    ensures var m' := Contents(Link(s.h, t.prev, t.cur, Goal(ord, t.op, t.task), NewVal(t.op, t.task)));
            if t.task.MakeDummy? then m' == Contents(s.h)
            else t.op.key !in Contents(s.h) && m' == Contents(s.h)[t.op.key := t.op.val]
  {
    LinkFits(ord, s.h, Now(s), t);
    LinkNewContents(ord.item, s.h, t.prev, t.cur, Goal(ord, t.op, t.task), NewVal(t.op, t.task));
    if !t.task.MakeDummy? {
      AbsentNow(ord, s, Search(t.op, t.since, t.task, t.head, t.prev, t.cur, Check));
      assert ItemLaw(ord, t.op.key);
    }
  }

  lemma MarkHistory(ord: Order, s: Sys, tid: nat, c: Choice)
    requires Inv(ord, s) && History(s) && tid < |s.threads| && s.threads[tid].Marking? && Ready(s.h, s.threads[tid])
    ensures History(Apply(s, tid, MarkStep(s, s.threads[tid], c)))
  {
    var t := s.threads[tid];
    var o, d := MarkStep(s, t, c), Effect(t.op, t.since, Now(s));
    assert ThreadOk(ord, s.h, Now(s), t);
    if c.spurious || !Sees(s.h, t.node, t.next) {
      QuietStep(s, tid, o);
    } else {
      MarkedHistory(ord, s, tid, o);
    }
  }

  lemma MarkedHistory(ord: Order, s: Sys, tid: nat, o: Out)
    requires Inv(ord, s) && History(s) && tid < |s.threads| && s.threads[tid].Marking?
    requires var t := s.threads[tid];
             && t.node < |s.h.nodes| && !s.h.nodes[t.node].marked && o.h == Mark(s.h, t.node, Now(s)) && o.done == []
             && Claim(o.thread) == [Effect(t.op, t.since, Now(s))]
    ensures History(Apply(s, tid, o))
  {
    var t := s.threads[tid];
    MarkFacts(ord, s, t);
    MarkDead(s.h, t.node, Now(s));
    Dies(s, tid, o, Effect(t.op, t.since, Now(s)), t.node);
  }

  lemma MarkFacts(ord: Order, s: Sys, t: Thread)
    requires Inv(ord, s) && ThreadOk(ord, s.h, Now(s), t) && t.Marking? && !s.h.nodes[t.node].marked
    ensures t.op == Delete(t.op.key) && t.since <= Now(s)
    ensures t.op.key in Contents(s.h) && Contents(s.h)[t.op.key] == s.h.nodes[t.node].val
    ensures Contents(Mark(s.h, t.node, Now(s))) == Contents(s.h) - {t.op.key}
    ensures s.h.nodes[t.node].tag.Item? && s.h.nodes[t.node].tag.key == t.op.key
  {
    assert ItemLaw(ord, t.op.key);
    ContentsShown(ord.item, s.h);
    assert LiveKey(s.h, t.node, t.op.key);
    MarkContents(ord.item, s.h, t.node, t.op.key, Now(s));
  }

  lemma Dies(s: Sys, tid: nat, o: Out, d: Done, x: nat)
    requires History(s) && tid < |s.threads| && Claim(s.threads[tid]) == [] && o.done == [] && Claim(o.thread) == [d]
    requires d.since <= d.at == Now(s) && !d.late && d.res && d.op.Delete?
    requires x < |s.h.nodes| && !s.h.nodes[x].marked && s.h.nodes[x].tag.Item? && s.h.nodes[x].tag.key == d.op.key
    requires o.h == Mark(s.h, x, Now(s)) && DeadSame(s.h, o.h, x) && Contents(o.h) == Contents(s.h) - {d.op.key}
    requires d.op.key in Contents(s.h) && Contents(s.h)[d.op.key] == s.h.nodes[x].val
    ensures History(Apply(s, tid, o))
  {
    forall m: nat ensures Adds(s.threads[tid], o, [d], m) {
      AddsClaim(s.threads[tid], o, d, m);
    }
    DeathStep(s, tid, o, d, x);
  }

  /** Reading or exchanging the value of a node that may have been deleted in the meantime. */
  lemma ValueHistory(ord: Order, s: Sys, tid: nat)
    requires Inv(ord, s) && History(s) && tid < |s.threads| && Ready(s.h, s.threads[tid])
    requires s.threads[tid].Swap? || s.threads[tid].Load? || s.threads[tid].Reread?
    ensures History(Apply(s, tid, ValueStep(s, s.threads[tid])))
  {
    var t := s.threads[tid];
    var o, n := ValueStep(s, t), s.h.nodes[t.node];
    assert ThreadOk(ord, s.h, Now(s), t);
    if t.Load? || (t.Reread? && n.val != t.val) {
      QuietStep(s, tid, o);
    } else if n.marked {
      LateHistory(ord, s, tid);
    } else {
      LiveHistory(ord, s, tid);
    }
  }

  lemma LateHistory(ord: Order, s: Sys, tid: nat)
    requires Inv(ord, s) && History(s) && tid < |s.threads| && Ready(s.h, s.threads[tid])
    requires var t := s.threads[tid]; t.Swap? || (t.Reread? && s.h.nodes[t.node].val == t.val)
    requires s.h.nodes[s.threads[tid].node].marked
    ensures History(Apply(s, tid, ValueStep(s, s.threads[tid])))
  {
    var t := s.threads[tid];
    var o, n := ValueStep(s, t), s.h.nodes[t.node];
    assert ThreadOk(ord, s.h, Now(s), t) && ItemLaw(ord, t.op.key);
    assert Dead(s.h, t.node) && DeadOk(s.past, s.done, Own(All(s), n.died), n);
    var d, v := o.done[0], if t.Swap? then t.op.val else n.val;
    if t.Swap? {
      PutContents(ord.item, s.h, t.node, t.op.val);
      PutDead(s.h, t.node, t.op.val);
    }
    assert DiedAt(o.h, t.node, n.died);
    forall m: nat ensures Adds(t, o, [], m) {
      AddsLate(t, o, d, m);
    }
    LateStep(s, tid, o, d, t.node, v);
  }

  lemma LiveHistory(ord: Order, s: Sys, tid: nat)
    requires Inv(ord, s) && History(s) && tid < |s.threads| && Ready(s.h, s.threads[tid])
    requires var t := s.threads[tid]; t.Swap? || (t.Reread? && s.h.nodes[t.node].val == t.val)
    requires !s.h.nodes[s.threads[tid].node].marked
    ensures History(Apply(s, tid, ValueStep(s, s.threads[tid])))
  {
    var t := s.threads[tid];
    var n := s.h.nodes[t.node];
    LiveNow(ord, s, t);
    if t.Swap? {
      PutContents(ord.item, s.h, t.node, t.op.val);
      PutDead(s.h, t.node, t.op.val);
      ToldStep(s, tid, ValueStep(s, t), Accessed(s, t.op, t.since, n, false, 0));
    } else {
      ToldStep(s, tid, ValueStep(s, t), Accessed(s, t.op, t.since, n, true, n.val));
    }
  }

  lemma LiveNow(ord: Order, s: Sys, t: Thread)
    requires Inv(ord, s) && ThreadOk(ord, s.h, Now(s), t) && (t.Swap? || t.Reread?) && !s.h.nodes[t.node].marked
    ensures t.op.key in Contents(s.h) && Contents(s.h)[t.op.key] == s.h.nodes[t.node].val
    ensures Live(s.h, t.node) && s.h.nodes[t.node].tag.key == t.op.key
  {
    assert ItemLaw(ord, t.op.key);
    ContentsShown(ord.item, s.h);
    assert LiveKey(s.h, t.node, t.op.key);
  }

  lemma CutHistory(ord: Order, s: Sys, tid: nat)
    requires Inv(ord, s) && History(s) && tid < |s.threads| && s.threads[tid].Cutting? && Ready(s.h, s.threads[tid])
    ensures History(Apply(s, tid, CutStep(s, s.threads[tid])))
  {
    var t := s.threads[tid];
    assert ThreadOk(ord, s.h, Now(s), t);
    var o := CutStep(s, t);
    assert o.done == [] && Claim(o.thread) == Claim(t);
    if Sees(s.h, t.prev, t.node) {
      UnlinkHistory(ord, s, tid, o, t.prev, t.node, t.next);
    } else {
      QuietStep(s, tid, o);
    }
  }

  lemma OtherHistory(ord: Order, s: Sys, tid: nat, c: Choice)
    requires History(s) && tid < |s.threads| && Ready(s.h, s.threads[tid])
    requires var t := s.threads[tid]; t.Idle? || t.Seek? || t.Reload? || t.Plus? || t.Publish? || t.Peek?
    ensures History(Apply(s, tid, Act(ord, s, s.threads[tid], c)))
  {
    QuietStep(s, tid, Act(ord, s, s.threads[tid], c));
  }

  lemma ActHistory(ord: Order, s: Sys, tid: nat, c: Choice)
    requires Inv(ord, s) && History(s) && tid < |s.threads| && Ready(s.h, s.threads[tid])
    ensures History(Apply(s, tid, Act(ord, s, s.threads[tid], c)))
  {
    match s.threads[tid]
    case Search(_, _, _, _, _, _, _) => SearchHistory(ord, s, tid);
    case Linking(_, _, _, _, _, _) => LinkHistory(ord, s, tid, c);
    case Swap(_, _, _) => ValueHistory(ord, s, tid);
    case Load(_, _, _) => ValueHistory(ord, s, tid);
    case Reread(_, _, _, _) => ValueHistory(ord, s, tid);
    case Marking(_, _, _, _, _, _) => MarkHistory(ord, s, tid, c);
    case Bump(op, since, at) => ReturnStep(s, tid, Act(ord, s, s.threads[tid], c), op, since, at);
    case Last(op, since, at) => ReturnStep(s, tid, Act(ord, s, s.threads[tid], c), op, since, at);
    case Cutting(_, _, _, _, _, _, _) => CutHistory(ord, s, tid);
    case _ => OtherHistory(ord, s, tid, c);
  }

  lemma StepHistory(ord: Order, s: Sys, tid: nat, c: Choice)
    requires Inv(ord, s) && History(s)
    ensures History(Step(ord, s, tid, c))
  {
    if tid < |s.threads| && Ready(s.h, s.threads[tid]) {
      ActHistory(ord, s, tid, c);
    }
  }

  lemma InitHistory(ord: Order, n: nat)
    requires Laws(ord)
    ensures History(Init(ord, n))
  {
    var s := Init(ord, n);
    InitInv(ord, n);
    assert DummyLaw(ord, 0);
    assert Contents(s.h) == map[];
  }

  lemma {:induction false} RunHistory(ord: Order, s: Sys, schedule: seq<(nat, Choice)>)
    requires Inv(ord, s) && History(s)
    ensures History(RunOf(ord, s, schedule))
    decreases |schedule|
  {
    if schedule != [] {
      RunHistory(ord, s, schedule[..|schedule| - 1]);
      RunInv(ord, s, schedule[..|schedule| - 1]);
      var prev := RunOf(ord, s, schedule[..|schedule| - 1]);
      StepHistory(ord, prev, schedule[|schedule| - 1].0, schedule[|schedule| - 1].1);
    }
  }

  // ---------- the sequential order ----------

  /** The operations in the order of the moments at which they took effect; those that count as done
      just before a deletion come before it. */
  ghost function InTurn(ds: seq<Done>, n: nat): (r: seq<Done>) {
    if n == 0 then [] else InTurn(ds, n - 1) + Turn(ds, n - 1)
  }

  ghost function Turn(ds: seq<Done>, m: nat): (r: seq<Done>) {
    LateOf(ds, m) + OwnOf(ds, m)
  }

  lemma {:induction false} OwnSize(ds: seq<Done>, m: nat)
    ensures |Own(ds, m)| == |OwnOf(ds, m)|
    ensures forall i :: 0 <= i < |OwnOf(ds, m)| ==> Core(OwnOf(ds, m)[i]) in Own(ds, m)
    decreases |ds|
  {
    if ds != [] {
      OwnSize(Front(ds), m);
    }
  }

  lemma OwnSingle(ds: seq<Done>, m: nat, d: Done)
    requires Own(ds, m) == multiset{d}
    ensures |OwnOf(ds, m)| == 1 && Core(OwnOf(ds, m)[0]) == d
  {
    OwnSize(ds, m);
  }

  lemma OwnEmpty(ds: seq<Done>, m: nat)
    requires Own(ds, m) == multiset{}
    ensures OwnOf(ds, m) == []
  {
    OwnSize(ds, m);
  }

  /** One moment: the late accesses, if any, and the operation that took effect. */
  lemma MomentLegal(s: Sys, m: nat)
    requires History(s) && m + 1 < |s.past|
    ensures var late, own := LateOf(s.done, m), OwnOf(All(s), m);
            Legal(s.past[m], late + own) && Replay(s.past[m], late + own) == s.past[m + 1]
  {
    var late, own := LateOf(s.done, m), OwnOf(All(s), m);
    assert MomentOk(s.past, Own(All(s), m), m);
    if late == [] {
      assert late + own == own;
      OwnLegal(s.past, All(s), m);
    } else {
      var n := DeathOf(s, m);
      assert DeadOk(s.past, s.done, Own(All(s), m), s.h.nodes[n]);
      DeathLegal(s.past, All(s), late, m, s.h.nodes[n]);
    }
  }

  lemma OwnLegal(past: seq<map<int, int>>, ds: seq<Done>, m: nat)
    requires m + 1 < |past| && MomentOk(past, Own(ds, m), m)
    ensures Legal(past[m], OwnOf(ds, m)) && Replay(past[m], OwnOf(ds, m)) == past[m + 1]
  {
    if Own(ds, m) == multiset{} {
      OwnEmpty(ds, m);
    } else {
      var d :| Own(ds, m) == multiset{d} && Right(past[m], d) && After(past[m], d.op) == past[m + 1];
      OwnSingle(ds, m, d);
      var x := OwnOf(ds, m)[0];
      assert OwnOf(ds, m) == [] + [x] && Core(x).op == x.op && Core(x).res == x.res && Core(x).val == x.val;
      Append(past[m], [], x);
    }
  }

  lemma DeathLegal(past: seq<map<int, int>>, ds: seq<Done>, late: seq<Done>, m: nat, x: Node)
    requires m + 1 < |past| && MomentOk(past, Own(ds, m), m) && x.tag.Item? && Deleted(Own(ds, m), x.tag.key)
    requires Legal(past[m], late) && Replay(past[m], late) == past[m][x.tag.key := x.val]
    ensures Legal(past[m], late + OwnOf(ds, m)) && Replay(past[m], late + OwnOf(ds, m)) == past[m + 1]
  {
    var k := x.tag.key;
    var e :| Own(ds, m) == multiset{e} && e.op == Delete(k) && e.res;
    var d :| Own(ds, m) == multiset{d} && Right(past[m], d) && After(past[m], d.op) == past[m + 1];
    assert e in multiset{d};
    OwnSingle(ds, m, d);
    var y := OwnOf(ds, m)[0];
    assert OwnOf(ds, m) == [y] && Core(y).op == y.op && Core(y).res == y.res;
    assert past[m][k := x.val] - {k} == past[m] - {k};
    Append(past[m], late, y);
  }

  lemma DeathOf(s: Sys, m: nat) returns (n: nat)
    requires History(s) && LateOf(s.done, m) != []
    ensures DiedAt(s.h, n, m)
  {
    var i := LateIn(s.done, m);
    assert Timely(s.h, |s.past|, s.done[i]);
    n :| DiedAt(s.h, n, m);
  }

  lemma {:induction false} LateIn(ds: seq<Done>, m: nat) returns (i: nat)
    requires LateOf(ds, m) != []
    ensures i < |ds| && ds[i].late && ds[i].at == m
    decreases |ds|
  {
    if Final(ds).late && Final(ds).at == m {
      i := |ds| - 1;
    } else {
      i := LateIn(Front(ds), m);
    }
  }

  lemma LateInDone(s: Sys, m: nat)
    requires History(s)
    ensures LateOf(All(s), m) == LateOf(s.done, m)
  {
    ClaimsIn(s.threads, |s.past|);
    LateElsewhere(s.done, Claims(s.threads), m);
  }

  /** The operations of moment `m`, one after the other, lead from map `m` to the next. */
  ghost predicate TurnOk(past: seq<map<int, int>>, ds: seq<Done>, m: nat) {
    m + 1 < |past| && Legal(past[m], Turn(ds, m)) && Replay(past[m], Turn(ds, m)) == past[m + 1]
  }

  lemma TurnLegal(s: Sys, m: nat)
    requires History(s) && m + 1 < |s.past|
    ensures TurnOk(s.past, All(s), m)
  {
    LateInDone(s, m);
    MomentLegal(s, m);
  }

  lemma {:induction false} OrderLegal(past: seq<map<int, int>>, ds: seq<Done>, n: nat)
    requires n < |past| && past[0] == map[]
    requires forall m: nat {:trigger TurnOk(past, ds, m)} :: m + 1 < |past| ==> TurnOk(past, ds, m)
    ensures Legal(map[], InTurn(ds, n)) && Replay(map[], InTurn(ds, n)) == past[n]
  {
    if n != 0 {
      OrderLegal(past, ds, n - 1);
      assert TurnOk(past, ds, n - 1);
      LegalConcat(map[], InTurn(ds, n - 1), Turn(ds, n - 1));
    }
  }

  // ---------- nothing lost, nothing added, in order ----------

  ghost function Times(ds: seq<Done>, d: Done): (c: nat)
    decreases |ds|
  {
    if ds == [] then 0 else Times(Front(ds), d) + if Final(ds) == d then 1 else 0
  }

  lemma {:induction false} TimesIs(ds: seq<Done>, d: Done)
    ensures Times(ds, d) == multiset(ds)[d]
    decreases |ds|
  {
    if ds != [] {
      TimesIs(Front(ds), d);
      assert ds == Front(ds) + [Final(ds)];
    }
  }

  lemma {:induction false} TimesConcat(a: seq<Done>, b: seq<Done>, d: Done)
    ensures Times(a + b, d) == Times(a, d) + Times(b, d)
    decreases |b|
  {
    if b == [] {
      assert a + b == a;
    } else {
      TimesConcat(a, Front(b), d);
      assert Front(a + b) == a + Front(b);
    }
  }

  lemma {:induction false} TurnTimes(ds: seq<Done>, m: nat, d: Done)
    ensures Times(LateOf(ds, m), d) + Times(OwnOf(ds, m), d) == if d.at == m then Times(ds, d) else 0
    decreases |ds|
  {
    if ds != [] {
      TurnTimes(Front(ds), m, d);
      TimesConcat(LateOf(Front(ds), m), [Final(ds)], d);
      TimesConcat(OwnOf(Front(ds), m), [Final(ds)], d);
      assert Front([Final(ds)]) == [];
      assert LateOf(Front(ds), m) + [] == LateOf(Front(ds), m) && OwnOf(Front(ds), m) + [] == OwnOf(Front(ds), m);
    }
  }

  lemma {:induction false} OrderHas(ds: seq<Done>, n: nat, d: Done)
    ensures Times(InTurn(ds, n), d) == if d.at < n then Times(ds, d) else 0
  {
    if n != 0 {
      OrderHas(ds, n - 1, d);
      TurnTimes(ds, n - 1, d);
      TimesConcat(InTurn(ds, n - 1), Turn(ds, n - 1), d);
      TimesConcat(LateOf(ds, n - 1), OwnOf(ds, n - 1), d);
    }
  }

  lemma OrderAll(ds: seq<Done>, n: nat)
    requires forall i :: 0 <= i < |ds| ==> ds[i].at < n
    ensures multiset(InTurn(ds, n)) == multiset(ds)
  {
    forall d: Done ensures multiset(InTurn(ds, n))[d] == multiset(ds)[d] {
      OrderHas(ds, n, d);
      TimesIs(InTurn(ds, n), d);
      TimesIs(ds, d);
      assert d in multiset(ds) ==> d in ds;
    }
  }

  lemma {:induction false} LateTimes(ds: seq<Done>, m: nat)
    ensures forall i :: 0 <= i < |LateOf(ds, m)| ==> LateOf(ds, m)[i].at == m
    ensures forall i :: 0 <= i < |OwnOf(ds, m)| ==> OwnOf(ds, m)[i].at == m
    decreases |ds|
  {
    if ds != [] {
      LateTimes(Front(ds), m);
    }
  }

  lemma {:induction false} OrderSorted(ds: seq<Done>, n: nat)
    ensures forall i :: 0 <= i < |InTurn(ds, n)| ==> InTurn(ds, n)[i].at < n
    ensures forall i, j :: 0 <= i < j < |InTurn(ds, n)| ==> InTurn(ds, n)[i].at <= InTurn(ds, n)[j].at
  {
    if n != 0 {
      OrderSorted(ds, n - 1);
      LateTimes(ds, n - 1);
    }
  }

  // ---------- what every run guarantees ----------

  /** `lin` puts `ds` in an order: it has the same operations, it is what they would do one after the other
      on an empty map, leaving `m`, and no operation comes before one that returned before it began. */
  ghost predicate Linearizes(ds: seq<Done>, lin: seq<Done>, m: map<int, int>) {
    && multiset(lin) == multiset(ds)
    && Legal(map[], lin) && Replay(map[], lin) == m
    && forall i, j :: 0 <= i < j < |lin| ==> lin[j].until >= lin[i].since
  }

  lemma OrderLinearizes(s: Sys)
    requires History(s)
    ensures Linearizes(All(s), InTurn(All(s), Now(s)), Contents(s.h))
  {
    forall m: nat | m + 1 < |s.past| ensures TurnOk(s.past, All(s), m) {
      TurnLegal(s, m);
    }
    OrderLegal(s.past, All(s), Now(s));
    AllTimely(s);
    OrderTimes(All(s), Now(s));
  }

  /** The order has all operations and respects real time. */
  lemma OrderTimes(ds: seq<Done>, n: nat)
    requires forall i :: 0 <= i < |ds| ==> ds[i].since <= ds[i].at <= ds[i].until && ds[i].at < n
    ensures multiset(InTurn(ds, n)) == multiset(ds)
    ensures forall i, j :: 0 <= i < j < |InTurn(ds, n)| ==> InTurn(ds, n)[j].until >= InTurn(ds, n)[i].since
  {
    var lin := InTurn(ds, n);
    OrderAll(ds, n);
    OrderSorted(ds, n);
    forall i | 0 <= i < |lin| ensures lin[i].since <= lin[i].at <= lin[i].until {
      SameElement(lin, ds, i);
    }
  }

  lemma SameElement<T>(a: seq<T>, b: seq<T>, i: nat)
    requires multiset(a) == multiset(b) && i < |a|
    ensures a[i] in b
  {
    assert a[i] in multiset(a);
  }

  lemma AllTimely(s: Sys)
    requires History(s)
    ensures forall i :: 0 <= i < |All(s)| ==>
              All(s)[i].since <= All(s)[i].at <= All(s)[i].until && All(s)[i].at < Now(s)
  {
    ClaimsIn(s.threads, |s.past|);
    ClaimsUntil(s.threads);
    forall i | 0 <= i < |All(s)|
      ensures All(s)[i].since <= All(s)[i].at <= All(s)[i].until && All(s)[i].at < Now(s) {
      if i < |s.done| {
        assert Timely(s.h, |s.past|, s.done[i]);
      }
    }
  }

  lemma {:induction false} ClaimsUntil(ts: seq<Thread>)
    ensures forall i :: 0 <= i < |Claims(ts)| ==> Claims(ts)[i].until == Claims(ts)[i].at
  {
    if ts != [] {
      ClaimsUntil(ts[1..]);
    }
  }

  /** Every run of the source's table is linearizable as a key-value map: the operations that have
      returned, together with those that have taken effect, can be put in a sequential order. */
  lemma Linearizable(hash: int -> Word, n: nat, schedule: seq<(nat, Choice)>)
    ensures var s := RunOf(Source(hash), Init(Source(hash), n), schedule);
            Linearizes(All(s), InTurn(All(s), Now(s)), Contents(s.h))
  {
    var ord := Source(hash);
    SourceLaws(hash);
    InitInv(ord, n);
    InitHistory(ord, n);
    RunHistory(ord, Init(ord, n), schedule);
    OrderLinearizes(RunOf(ord, Init(ord, n), schedule));
  }
}
