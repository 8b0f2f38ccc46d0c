/** The linked list of the split-ordered table as a heap of nodes: linking, marking and unlinking one
    node, each a single compare-and-swap.  Nodes are never reused. */
module SplitList {
  import opened SplitOrder

  /** `next` is a node or -1; `marked` is the low bit of the same word: logically deleted.  `val` stands
      for the value object of an item.  `died` is auxiliary: the moment a marked node was marked. */
  datatype Node = Node(tag: Label, next: int, marked: bool, val: int, died: nat)

  /** All nodes ever linked, and, as auxiliary state, the ones reachable from the first, in order. */
  datatype Heap = Heap(nodes: seq<Node>, list: seq<nat>)

  ghost function Succ(list: seq<nat>, i: nat): (n: int) {
    if i + 1 < |list| then list[i + 1] else -1
  }

  /** The `next` field of position `i` leads to position `i + 1`. */
  ghost predicate Chained(h: Heap, i: nat) {
    i < |h.list| && h.list[i] < |h.nodes| && h.nodes[h.list[i]].next == Succ(h.list, i)
  }

  ghost predicate Ok(h: Heap) {
    && |h.list| >= 1 && h.list[0] == 0
    && (forall i :: 0 <= i < |h.list| ==> h.list[i] < |h.nodes|)
    && (forall i {:trigger Chained(h, i)} :: 0 <= i < |h.list| ==> Chained(h, i))
    && (forall i, j :: 0 <= i < j < |h.list| ==> Less(h.nodes[h.list[i]].tag, h.nodes[h.list[j]].tag))
    && (forall n :: 0 <= n < |h.nodes| ==> Proper(h.nodes[n].tag))
    && (forall n :: 0 <= n < |h.nodes| ==> -1 <= h.nodes[n].next < |h.nodes|)
    && (forall n :: 0 <= n < |h.nodes| && !h.nodes[n].marked ==> n in h.list)
    && (forall n :: 0 <= n < |h.nodes| && h.nodes[n].marked ==> h.nodes[n].tag.Item?)
  }

  /** A marked node stays marked and keeps its successor. */
  ghost predicate StaysDead(x: Node, x': Node) {
    x.marked ==> x'.marked && x'.next == x.next && x'.died == x.died
  }

  /** What may happen to the heap in the step at moment `now`, as seen by everyone else: labels stay,
      marks stay, and the successor of a marked node never changes. */
  ghost predicate Grows(h: Heap, h': Heap, now: nat) {
    && |h.nodes| <= |h'.nodes|
    && (forall n :: 0 <= n < |h.nodes| ==> h'.nodes[n].tag == h.nodes[n].tag)
    && (forall n :: 0 <= n < |h.nodes| ==> StaysDead(h.nodes[n], h'.nodes[n]))
    && (forall n :: 0 <= n < |h.nodes| && h'.nodes[n].marked ==> h.nodes[n].marked || h'.nodes[n].died == now)
  }

  /** A node that has left the list never comes back. */
  ghost predicate NoReturn(h: Heap, h': Heap) {
    forall n :: 0 <= n < |h.nodes| && n !in h.list ==> n !in h'.list
  }

  lemma Position(h: Heap, n: nat) returns (i: nat)
    requires Ok(h) && n < |h.nodes| && !h.nodes[n].marked
    ensures i < |h.list| && h.list[i] == n && h.nodes[n].next == Succ(h.list, i)
  {
    i :| 0 <= i < |h.list| && h.list[i] == n;
    assert Chained(h, i);
  }

  // ---------- the three changes ----------

  /** The list with `n` behind `prev`. */
  ghost function InsertAfter(list: seq<nat>, prev: nat, n: nat): (r: seq<nat>) {
    if list == [] then []
    else if list[0] == prev then [prev, n] + list[1..]
    else [list[0]] + InsertAfter(list[1..], prev, n)
  }

  /** The list without `n`. */
  ghost function Without(list: seq<nat>, n: nat): (r: seq<nat>) {
    if list == [] then []
    else if list[0] == n then list[1..]
    else [list[0]] + Without(list[1..], n)
  }

  lemma {:induction false} InsertAfterIs(list: seq<nat>, k: nat, n: nat)
    requires k < |list| && forall i :: 0 <= i < k ==> list[i] != list[k]
    ensures InsertAfter(list, list[k], n) == list[..k + 1] + [n] + list[k + 1..]
  {
    if k == 0 {
      assert list[..1] == [list[0]];
    } else {
      InsertAfterIs(list[1..], k - 1, n);
      assert list[..k + 1] == [list[0]] + list[1..][..k] && list[1..][k..] == list[k + 1..];
    }
  }

  lemma {:induction false} WithoutIs(list: seq<nat>, k: nat)
    requires k < |list| && forall i :: 0 <= i < k ==> list[i] != list[k]
    ensures Without(list, list[k]) == list[..k] + list[k + 1..]
  {
    if k == 0 {
      assert list[..0] == [];
    } else {
      WithoutIs(list[1..], k - 1);
      assert list[..k] == [list[0]] + list[1..][..k - 1] && list[1..][k..] == list[k + 1..];
    }
  }

  /** A new node between `prev` and `cur`: prev->next changes from `cur` to it. */
  ghost function Link(h: Heap, prev: nat, cur: int, tag: Label, val: int): (h': Heap)
    requires prev < |h.nodes|
  {
    Heap(h.nodes[prev := h.nodes[prev].(next := |h.nodes|)] + [Node(tag, cur, false, val, 0)],
      InsertAfter(h.list, prev, |h.nodes|))
  }

  /** prev->next changes from `cur` to `next`. */
  ghost function Unlink(h: Heap, prev: nat, cur: nat, next: int): (h': Heap)
    requires prev < |h.nodes|
  {
    Heap(h.nodes[prev := h.nodes[prev].(next := next)], Without(h.list, cur))
  }

  ghost function Mark(h: Heap, cur: nat, now: nat): (h': Heap)
    requires cur < |h.nodes|
  {
    h.(nodes := h.nodes[cur := h.nodes[cur].(marked := true, died := now)])
  }

  /** The value of node `n` is exchanged. */
  ghost function Put(h: Heap, n: nat, val: int): (h': Heap)
    requires n < |h.nodes|
  {
    h.(nodes := h.nodes[n := h.nodes[n].(val := val)])
  }

  /** The compare-and-swap on prev->next finds `cur`, unmarked. */
  ghost predicate Sees(h: Heap, prev: nat, cur: int) {
    prev < |h.nodes| && h.nodes[prev].next == cur && !h.nodes[prev].marked
  }

  lemma DistinctPlaces(h: Heap, i: nat, j: nat)
    requires Ok(h) && i < |h.list| && j < |h.list| && h.list[i] == h.list[j]
    ensures i == j
  {
    LessIsOrder(h.nodes[h.list[i]].tag, h.nodes[h.list[i]].tag, h.nodes[h.list[i]].tag);
  }

  /** Reading `cur` in an unmarked prev->next means that the two are neighbours in the list. */
  lemma Neighbours(h: Heap, prev: nat, cur: int) returns (i: nat)
    requires Ok(h) && Sees(h, prev, cur)
    ensures i < |h.list| && h.list[i] == prev && Succ(h.list, i) == cur
    ensures cur >= 0 ==> i + 1 < |h.list| && h.list[i + 1] == cur
    ensures cur < 0 ==> i + 1 == |h.list|
  {
    i := Position(h, prev);
  }

  lemma NoEarlier(h: Heap, k: nat)
    requires Ok(h) && k < |h.list|
    ensures forall i :: 0 <= i < k ==> h.list[i] != h.list[k]
  {
    forall i | 0 <= i < k ensures h.list[i] != h.list[k] {
      if h.list[i] == h.list[k] {
        DistinctPlaces(h, i, k);
      }
    }
  }

  /** `n` is new behind place `k`. */
  ghost predicate Inserted(list: seq<nat>, r: seq<nat>, k: nat, n: nat) {
    && k < |list| && |r| == |list| + 1 && r[k + 1] == n
    && (forall i :: 0 <= i <= k ==> r[i] == list[i])
    && (forall i :: k + 2 <= i < |r| ==> r[i] == list[i - 1])
  }

  lemma InsertedAt(list: seq<nat>, r: seq<nat>, k: nat, n: nat)
    requires k < |list| && r == list[..k + 1] + [n] + list[k + 1..]
    ensures Inserted(list, r, k, n)
  {
  }

  ghost predicate Linked(h: Heap, h': Heap, k: nat, cur: int, tag: Label, val: int) {
    && Inserted(h.list, h'.list, k, |h.nodes|) && h.list[k] < |h.nodes| && |h'.nodes| == |h.nodes| + 1
    && h'.nodes[|h.nodes|] == Node(tag, cur, false, val, 0)
    && (forall n :: 0 <= n < |h.nodes| ==> h'.nodes[n] == if n == h.list[k] then h.nodes[n].(next := |h.nodes|)
       else h.nodes[n])
  }

  lemma LinkList(h: Heap, k: nat, cur: int, tag: Label, val: int)
    requires Ok(h) && k < |h.list|
    ensures var r := Link(h, h.list[k], cur, tag, val).list;
            r == h.list[..k + 1] + [|h.nodes|] + h.list[k + 1..] && Inserted(h.list, r, k, |h.nodes|)
  {
    NoEarlier(h, k);
    InsertAfterIs(h.list, k, |h.nodes|);
    InsertedAt(h.list, InsertAfter(h.list, h.list[k], |h.nodes|), k, |h.nodes|);
  }

  lemma LinkIs(h: Heap, prev: nat, cur: int, tag: Label, val: int) returns (k: nat)
    requires Ok(h) && Sees(h, prev, cur)
    ensures k < |h.list| && h.list[k] == prev && Succ(h.list, k) == cur
    ensures Linked(h, Link(h, prev, cur, tag, val), k, cur, tag, val)
    ensures Link(h, prev, cur, tag, val).list == h.list[..k + 1] + [|h.nodes|] + h.list[k + 1..]
  {
    k := Neighbours(h, prev, cur);
    LinkList(h, k, cur, tag, val);
  }

  /** Place `k + 1` is gone. */
  ghost predicate Removed(list: seq<nat>, r: seq<nat>, k: nat) {
    && k + 1 < |list| && |r| == |list| - 1
    && (forall i :: 0 <= i <= k ==> r[i] == list[i])
    && (forall i :: k + 1 <= i < |r| ==> r[i] == list[i + 1])
  }

  lemma RemovedAt(list: seq<nat>, r: seq<nat>, k: nat)
    requires k + 1 < |list| && r == list[..k + 1] + list[k + 2..]
    ensures Removed(list, r, k)
  {
  }

  ghost predicate Unlinked(h: Heap, h': Heap, k: nat, next: int) {
    && Removed(h.list, h'.list, k) && h.list[k] < |h.nodes| && |h'.nodes| == |h.nodes|
    && (forall n :: 0 <= n < |h.nodes| ==> h'.nodes[n] == if n == h.list[k] then h.nodes[n].(next := next)
       else h.nodes[n])
  }

  lemma UnlinkList(h: Heap, k: nat)
    requires Ok(h) && k + 1 < |h.list|
    ensures var r := Without(h.list, h.list[k + 1]);
            r == h.list[..k + 1] + h.list[k + 2..] && Removed(h.list, r, k)
  {
    NoEarlier(h, k + 1);
    WithoutIs(h.list, k + 1);
    RemovedAt(h.list, Without(h.list, h.list[k + 1]), k);
  }

  lemma UnlinkIs(h: Heap, prev: nat, cur: nat, next: int) returns (k: nat)
    requires Ok(h) && Sees(h, prev, cur) && cur < |h.nodes|
    ensures k + 1 < |h.list| && h.list[k] == prev && h.list[k + 1] == cur
    ensures Unlinked(h, Unlink(h, prev, cur, next), k, next)
    ensures Unlink(h, prev, cur, next).list == h.list[..k + 1] + h.list[k + 2..]
  {
    k := Neighbours(h, prev, cur);
    UnlinkList(h, k);
  }

  lemma MarkKeeps(h: Heap, cur: nat, now: nat)
    requires Ok(h) && Live(h, cur)
    ensures Ok(Mark(h, cur, now)) && Grows(h, Mark(h, cur, now), now) && NoReturn(h, Mark(h, cur, now))
  {
    var h' := Mark(h, cur, now);
    forall i | 0 <= i < |h'.list| ensures Chained(h', i) {
      assert Chained(h, i);
    }
  }

  lemma PutKeeps(h: Heap, n: nat, val: int, now: nat)
    requires Ok(h) && n < |h.nodes|
    ensures Ok(Put(h, n, val)) && Grows(h, Put(h, n, val), now) && NoReturn(h, Put(h, n, val))
  {
    var h' := Put(h, n, val);
    forall i | 0 <= i < |h'.list| ensures Chained(h', i) {
      assert Chained(h, i);
    }
  }

  // ---------- taking a node out ----------

  lemma UnlinkedChain(h: Heap, h': Heap, k: nat, next: int, i: nat)
    requires Ok(h) && Unlinked(h, h', k, next) && next == Succ(h.list, k + 1) && i < |h'.list|
    ensures Chained(h', i)
  {
    var j := if i <= k then i else i + 1;
    assert Chained(h, j);
    if j != k && h.list[j] == h.list[k] {
      DistinctPlaces(h, j, k);
    }
  }

  lemma UnlinkedSorted(h: Heap, h': Heap, k: nat, next: int, i: nat, j: nat)
    requires Ok(h) && Unlinked(h, h', k, next) && i < j < |h'.list|
    ensures h'.list[i] < |h'.nodes| && h'.list[j] < |h'.nodes|
            && Less(h'.nodes[h'.list[i]].tag, h'.nodes[h'.list[j]].tag)
  {
    var a, b := if i <= k then i else i + 1, if j <= k then j else j + 1;
    assert Less(h.nodes[h.list[a]].tag, h.nodes[h.list[b]].tag);
  }

  lemma UnlinkedContents(h: Heap, h': Heap, k: nat, next: int, n: nat)
    requires Ok(h) && Unlinked(h, h', k, next)
    ensures n in h'.list <==> n in h.list && n != h.list[k + 1]
  {
    if n in h'.list {
      var i :| 0 <= i < |h'.list| && h'.list[i] == n;
      var j := if i <= k then i else i + 1;
      if n == h.list[k + 1] {
        DistinctPlaces(h, j, k + 1);
      }
    }
    if n in h.list && n != h.list[k + 1] {
      var j :| 0 <= j < |h.list| && h.list[j] == n;
      assert h'.list[if j <= k then j else j - 1] == n;
    }
  }

  lemma UnlinkedOk(h: Heap, h': Heap, k: nat, next: int)
    requires Ok(h) && Unlinked(h, h', k, next) && next == Succ(h.list, k + 1) && h.nodes[h.list[k + 1]].marked
    ensures Ok(h')
  {
    assert Chained(h, k + 1);
    forall i | 0 <= i < |h'.list| ensures Chained(h', i) {
      UnlinkedChain(h, h', k, next, i);
    }
    forall i, j | 0 <= i < j < |h'.list| ensures Less(h'.nodes[h'.list[i]].tag, h'.nodes[h'.list[j]].tag) {
      UnlinkedSorted(h, h', k, next, i, j);
    }
    forall n | 0 <= n < |h'.nodes| && !h'.nodes[n].marked ensures n in h'.list {
      UnlinkedContents(h, h', k, next, n);
    }
  }

  lemma UnlinkContents(h: Heap, prev: nat, cur: nat, next: int)
    requires Ok(h) && Sees(h, prev, cur) && cur < |h.nodes|
    ensures forall n :: n in Unlink(h, prev, cur, next).list <==> n in h.list && n != cur
  {
    var k := UnlinkIs(h, prev, cur, next);
    forall n: nat ensures n in Unlink(h, prev, cur, next).list <==> n in h.list && n != cur {
      UnlinkedContents(h, Unlink(h, prev, cur, next), k, next, n);
    }
  }

  lemma UnlinkKeeps(h: Heap, prev: nat, cur: nat, next: int, now: nat)
    requires Ok(h) && Sees(h, prev, cur) && cur < |h.nodes| && h.nodes[cur].marked && h.nodes[cur].next == next
    ensures Ok(Unlink(h, prev, cur, next)) && Grows(h, Unlink(h, prev, cur, next), now)
            && NoReturn(h, Unlink(h, prev, cur, next))
  {
    var k := UnlinkIs(h, prev, cur, next);
    assert Chained(h, k + 1);
    UnlinkedOk(h, Unlink(h, prev, cur, next), k, next);
    UnlinkContents(h, prev, cur, next);
  }

  // ---------- putting a node in ----------

  lemma LinkedChain(h: Heap, h': Heap, k: nat, cur: int, tag: Label, val: int, i: nat)
    requires Ok(h) && Linked(h, h', k, cur, tag, val) && cur == Succ(h.list, k) && i < |h'.list|
    ensures Chained(h', i)
  {
    if i != k + 1 {
      var j := if i <= k then i else i - 1;
      assert Chained(h, j);
      if j != k && h.list[j] == h.list[k] {
        DistinctPlaces(h, j, k);
      }
    }
  }

  ghost function TagAt(h: Heap, i: nat): (a: Label)
    requires i < |h.list| && h.list[i] < |h.nodes|
  {
    h.nodes[h.list[i]].tag
  }

  /** The new node is greater than everything before it and less than everything behind it. */
  lemma LinkOrder(h: Heap, k: nat, tag: Label, i: nat)
    requires Ok(h) && k < |h.list| && i < |h.list| && Proper(tag) && Less(TagAt(h, k), tag)
    requires k + 1 < |h.list| ==> Less(tag, TagAt(h, k + 1))
    ensures if i <= k then Less(TagAt(h, i), tag) else Less(tag, TagAt(h, i))
  {
    if i < k {
      assert Less(h.nodes[h.list[i]].tag, h.nodes[h.list[k]].tag);
      LessIsOrder(TagAt(h, i), TagAt(h, k), tag);
    } else if i > k + 1 {
      assert Less(h.nodes[h.list[k + 1]].tag, h.nodes[h.list[i]].tag);
      LessIsOrder(tag, TagAt(h, k + 1), TagAt(h, i));
    }
  }

  lemma LinkedSorted(h: Heap, h': Heap, k: nat, cur: int, tag: Label, val: int, i: nat, j: nat)
    requires Ok(h) && Linked(h, h', k, cur, tag, val) && Proper(tag) && i < j < |h'.list|
    requires Less(TagAt(h, k), tag) && (k + 1 < |h.list| ==> Less(tag, TagAt(h, k + 1)))
    ensures h'.list[i] < |h'.nodes| && h'.list[j] < |h'.nodes|
            && Less(h'.nodes[h'.list[i]].tag, h'.nodes[h'.list[j]].tag)
  {
    var a, b := if i <= k then i else i - 1, if j <= k then j else j - 1;
    if i == k + 1 {
      LinkOrder(h, k, tag, b);
    } else if j == k + 1 {
      LinkOrder(h, k, tag, a);
    } else {
      assert Less(h.nodes[h.list[a]].tag, h.nodes[h.list[b]].tag);
    }
  }

  lemma LinkedContents(h: Heap, h': Heap, k: nat, cur: int, tag: Label, val: int, n: nat)
    requires Ok(h) && Linked(h, h', k, cur, tag, val)
    ensures n in h'.list <==> n in h.list || n == |h.nodes|
  {
    if n in h'.list {
      var i :| 0 <= i < |h'.list| && h'.list[i] == n;
      assert i == k + 1 || h.list[if i <= k then i else i - 1] == n;
    }
    if n in h.list {
      var j :| 0 <= j < |h.list| && h.list[j] == n;
      assert h'.list[if j <= k then j else j + 1] == n;
    }
    assert h'.list[k + 1] == |h.nodes|;
  }

  lemma LinkedOk(h: Heap, h': Heap, k: nat, cur: int, tag: Label, val: int)
    requires Ok(h) && Linked(h, h', k, cur, tag, val) && Proper(tag) && cur == Succ(h.list, k)
    requires Less(TagAt(h, k), tag) && (k + 1 < |h.list| ==> Less(tag, TagAt(h, k + 1)))
    ensures Ok(h')
  {
    forall i | 0 <= i < |h'.list| ensures Chained(h', i) {
      LinkedChain(h, h', k, cur, tag, val, i);
    }
    forall i, j | 0 <= i < j < |h'.list| ensures Less(h'.nodes[h'.list[i]].tag, h'.nodes[h'.list[j]].tag) {
      LinkedSorted(h, h', k, cur, tag, val, i, j);
    }
    forall n | 0 <= n < |h'.nodes| && !h'.nodes[n].marked ensures n in h'.list {
      LinkedContents(h, h', k, cur, tag, val, n);
    }
  }

  lemma LinkContents(h: Heap, prev: nat, cur: int, tag: Label, val: int)
    requires Ok(h) && Sees(h, prev, cur)
    ensures forall n :: n in Link(h, prev, cur, tag, val).list <==> n in h.list || n == |h.nodes|
  {
    var k := LinkIs(h, prev, cur, tag, val);
    forall n: nat ensures n in Link(h, prev, cur, tag, val).list <==> n in h.list || n == |h.nodes| {
      LinkedContents(h, Link(h, prev, cur, tag, val), k, cur, tag, val, n);
    }
  }

  lemma LinkKeeps(h: Heap, prev: nat, cur: int, tag: Label, val: int, now: nat)
    requires Ok(h) && Sees(h, prev, cur) && Proper(tag) && Less(h.nodes[prev].tag, tag)
    requires cur >= 0 ==> Less(tag, h.nodes[cur].tag)
    ensures Ok(Link(h, prev, cur, tag, val)) && Grows(h, Link(h, prev, cur, tag, val), now)
            && NoReturn(h, Link(h, prev, cur, tag, val))
  {
    var k := LinkIs(h, prev, cur, tag, val);
    LinkedOk(h, Link(h, prev, cur, tag, val), k, cur, tag, val);
    LinkContents(h, prev, cur, tag, val);
  }

  // ---------- contents ----------

  ghost predicate Live(h: Heap, n: nat) {
    n < |h.nodes| && !h.nodes[n].marked && h.nodes[n].tag.Item?
  }

  ghost predicate LiveKey(h: Heap, n: nat, k: int) {
    Live(h, n) && h.nodes[n].tag.key == k
  }

  /** The keys of the reachable items that are not marked. */
  ghost function Members(h: Heap): (m: set<int>) {
    set i | 0 <= i < |h.list| && Live(h, h.list[i]) :: h.nodes[h.list[i]].tag.key
  }

  /** Every item carries the label its key determines. */
  ghost predicate Keyed(item: int -> Label, h: Heap) {
    forall n :: 0 <= n < |h.nodes| && h.nodes[n].tag.Item? ==> h.nodes[n].tag == item(h.nodes[n].tag.key)
  }

  lemma LiveIsMember(h: Heap, n: nat)
    requires Ok(h) && Live(h, n)
    ensures h.nodes[n].tag.key in Members(h)
  {
    var i :| 0 <= i < |h.list| && h.list[i] == n;
    assert Live(h, h.list[i]);
  }

  lemma MemberIsLive(h: Heap, k: int) returns (n: nat)
    requires k in Members(h)
    ensures LiveKey(h, n, k) && n in h.list
  {
    var i :| 0 <= i < |h.list| && Live(h, h.list[i]) && h.nodes[h.list[i]].tag.key == k;
    n := h.list[i];
  }

  lemma MemberExists(h: Heap, k: int)
    requires k in Members(h)
    ensures exists n: nat :: LiveKey(h, n, k)
  {
    var n := MemberIsLive(h, k);
  }

  /** Two reachable nodes with the same label are one node. */
  lemma SameLabelSameNode(h: Heap, n: nat, m: nat)
    requires Ok(h) && n in h.list && m in h.list && h.nodes[n].tag == h.nodes[m].tag
    ensures n == m
  {
    var i :| 0 <= i < |h.list| && h.list[i] == n;
    var j :| 0 <= j < |h.list| && h.list[j] == m;
    LessIsOrder(h.nodes[n].tag, h.nodes[n].tag, h.nodes[n].tag);
  }

  lemma OneLiveNode(item: int -> Label, h: Heap, n: nat, m: nat, k: int)
    requires Ok(h) && Keyed(item, h) && LiveKey(h, n, k) && LiveKey(h, m, k)
    ensures n == m
  {
    SameLabelSameNode(h, n, m);
  }

  ghost function ValueOf(h: Heap, k: int): (v: int)
    requires k in Members(h)
  {
    MemberExists(h, k);
    var n: nat :| LiveKey(h, n, k);
    h.nodes[n].val
  }

  /** The key-value map the table stands for. */
  ghost function Contents(h: Heap): (m: map<int, int>) {
    map k | k in Members(h) :: ValueOf(h, k)
  }

  /** What it means for `m` to be the contents. */
  ghost predicate Shows(h: Heap, m: map<int, int>) {
    && (forall n: nat, k {:trigger LiveKey(h, n, k)} :: LiveKey(h, n, k) ==> k in m && m[k] == h.nodes[n].val)
    && (forall k :: k in m ==> exists n: nat :: LiveKey(h, n, k))
  }

  lemma ContentsShown(item: int -> Label, h: Heap)
    requires Ok(h) && Keyed(item, h)
    ensures Shows(h, Contents(h))
  {
    var m := Contents(h);
    forall n: nat, k | LiveKey(h, n, k) ensures k in m && m[k] == h.nodes[n].val {
      LiveIsMember(h, n);
      var n': nat :| LiveKey(h, n', k) && ValueOf(h, k) == h.nodes[n'].val;
      OneLiveNode(item, h, n, n', k);
    }
    forall k | k in m ensures exists n: nat :: LiveKey(h, n, k) {
      var n := MemberIsLive(h, k);
    }
  }

  lemma ShownIs(item: int -> Label, h: Heap, m: map<int, int>)
    requires Ok(h) && Keyed(item, h) && Shows(h, m)
    ensures m == Contents(h)
  {
    ContentsShown(item, h);
    ShownOnce(h, m, Contents(h));
  }

  lemma ShownOnce(h: Heap, m: map<int, int>, m': map<int, int>)
    requires Shows(h, m) && Shows(h, m')
    ensures m == m'
  {
    forall k ensures k in m <==> k in m' {
    }
    forall k | k in m ensures m[k] == m'[k] {
      var n: nat :| LiveKey(h, n, k);
    }
  }

  /** Steps that neither make nor unmake a live node, nor change its value. */
  lemma SameContents(item: int -> Label, h: Heap, h': Heap)
    requires Ok(h) && Keyed(item, h) && Ok(h') && Keyed(item, h')
    requires forall n: nat, k {:trigger LiveKey(h', n, k)} {:trigger LiveKey(h, n, k)} ::
               LiveKey(h', n, k) <==> LiveKey(h, n, k)
    requires forall n: nat, k {:trigger LiveKey(h', n, k)} ::
               LiveKey(h', n, k) && LiveKey(h, n, k) ==> h'.nodes[n].val == h.nodes[n].val
    ensures Contents(h') == Contents(h)
  {
    ContentsShown(item, h);
    forall k | k in Contents(h) ensures exists n: nat :: LiveKey(h', n, k) {
      var n: nat :| LiveKey(h, n, k);
      assert LiveKey(h', n, k);
    }
    ShownIs(item, h', Contents(h));
  }

  /** Node `n` is now the live node of key `k`, with value `v`; all other live nodes are as before. */
  lemma NewContents(item: int -> Label, h: Heap, h': Heap, n: nat, k: int, v: int)
    requires Ok(h) && Keyed(item, h) && Ok(h') && Keyed(item, h') && LiveKey(h', n, k) && h'.nodes[n].val == v
    requires forall n': nat, k' {:trigger LiveKey(h', n', k')} {:trigger LiveKey(h, n', k')} ::
               n' != n ==> (LiveKey(h', n', k') <==> LiveKey(h, n', k'))
    requires forall n': nat, k' {:trigger LiveKey(h', n', k')} ::
               n' != n && LiveKey(h', n', k') && LiveKey(h, n', k') ==> h'.nodes[n'].val == h.nodes[n'].val
    requires forall k' {:trigger LiveKey(h, n, k')} :: LiveKey(h, n, k') ==> k' == k
    ensures Contents(h') == Contents(h)[k := v]
  {
    ContentsShown(item, h);
    NewShows(item, h, h', n, k, v, Contents(h));
    ShownIs(item, h', Contents(h)[k := v]);
  }

  lemma NewShows(item: int -> Label, h: Heap, h': Heap, n: nat, k: int, v: int, m: map<int, int>)
    requires Ok(h') && Keyed(item, h') && LiveKey(h', n, k) && h'.nodes[n].val == v && Shows(h, m)
    requires forall n': nat, k' {:trigger LiveKey(h', n', k')} {:trigger LiveKey(h, n', k')} ::
               n' != n ==> (LiveKey(h', n', k') <==> LiveKey(h, n', k'))
    requires forall n': nat, k' {:trigger LiveKey(h', n', k')} ::
               n' != n && LiveKey(h', n', k') && LiveKey(h, n', k') ==> h'.nodes[n'].val == h.nodes[n'].val
    requires forall k' {:trigger LiveKey(h, n, k')} :: LiveKey(h, n, k') ==> k' == k
    ensures Shows(h', m[k := v])
  {
    var m' := m[k := v];
    forall n': nat, k' | LiveKey(h', n', k') ensures k' in m' && m'[k'] == h'.nodes[n'].val {
      if n' != n && k' == k {
        OneLiveNode(item, h', n, n', k);
      }
    }
    forall k' | k' in m' ensures exists n': nat :: LiveKey(h', n', k') {
      if k' != k {
        var n': nat :| LiveKey(h, n', k');
        assert LiveKey(h', n', k');
      }
    }
  }

  /** Marking a node removes exactly its key. */
  lemma MarkContents(item: int -> Label, h: Heap, cur: nat, k: int, now: nat)
    requires Ok(h) && Keyed(item, h) && LiveKey(h, cur, k)
    ensures k in Contents(h) && Contents(Mark(h, cur, now)) == Contents(h) - {k}
  {
    MarkKeeps(h, cur, now);
    ContentsShown(item, h);
    assert LiveKey(h, cur, k);
    MarkShows(item, h, cur, k, now, Contents(h));
    ShownIs(item, Mark(h, cur, now), Contents(h) - {k});
  }

  lemma MarkShows(item: int -> Label, h: Heap, cur: nat, k: int, now: nat, m: map<int, int>)
    requires Ok(h) && Keyed(item, h) && LiveKey(h, cur, k) && Shows(h, m)
    ensures Shows(Mark(h, cur, now), m - {k})
  {
    var h', m' := Mark(h, cur, now), m - {k};
    forall n: nat, k' | LiveKey(h', n, k') ensures k' in m' && m'[k'] == h'.nodes[n].val {
      assert LiveKey(h, n, k');
      if k' == k {
        OneLiveNode(item, h, n, cur, k);
      }
    }
    forall k' | k' in m' ensures exists n: nat :: LiveKey(h', n, k') {
      var n: nat :| LiveKey(h, n, k');
      assert LiveKey(h', n, k');
    }
  }

  /** Unlinking a marked node changes no contents. */
  lemma UnlinkSameContents(item: int -> Label, h: Heap, prev: nat, cur: nat, next: int)
    requires Ok(h) && Keyed(item, h) && Sees(h, prev, cur) && cur < |h.nodes|
    requires h.nodes[cur].marked && h.nodes[cur].next == next
    ensures Contents(Unlink(h, prev, cur, next)) == Contents(h)
  {
    UnlinkKeeps(h, prev, cur, next, 0);
    SameContents(item, h, Unlink(h, prev, cur, next));
  }

  /** Linking an item adds exactly its key; linking a dummy adds nothing. */
  lemma LinkNewContents(item: int -> Label, h: Heap, prev: nat, cur: int, tag: Label, val: int)
    requires Ok(h) && Keyed(item, h) && Sees(h, prev, cur) && Proper(tag) && Less(h.nodes[prev].tag, tag)
    requires cur >= 0 ==> Less(tag, h.nodes[cur].tag)
    requires tag.Item? ==> tag == item(tag.key)
    ensures Contents(Link(h, prev, cur, tag, val)) == if tag.Item? then Contents(h)[tag.key := val] else Contents(h)
  {
    var h' := Link(h, prev, cur, tag, val);
    LinkKeeps(h, prev, cur, tag, val, 0);
    if tag.Item? {
      assert LiveKey(h', |h.nodes|, tag.key);
      NewContents(item, h, h', |h.nodes|, tag.key, val);
    } else {
      SameContents(item, h, h');
    }
  }

  /** An exchange shows if the node is live, and only then. */
  lemma PutContents(item: int -> Label, h: Heap, n: nat, val: int)
    requires Ok(h) && Keyed(item, h) && n < |h.nodes| && h.nodes[n].tag.Item?
    ensures Contents(Put(h, n, val)) == if Live(h, n) then Contents(h)[h.nodes[n].tag.key := val] else Contents(h)
  {
    var h' := Put(h, n, val);
    PutKeeps(h, n, val, 0);
    if Live(h, n) {
      assert LiveKey(h', n, h.nodes[n].tag.key);
      NewContents(item, h, h', n, h.nodes[n].tag.key, val);
    } else {
      SameContents(item, h, h');
    }
  }

  /** A label strictly between two neighbours is not in the list. */
  lemma BetweenNeighbours(h: Heap, prev: nat, cur: int, tag: Label, n: nat)
    requires Ok(h) && Sees(h, prev, cur) && Proper(tag) && Less(h.nodes[prev].tag, tag)
    requires cur >= 0 ==> cur < |h.nodes| && !Less(h.nodes[cur].tag, tag)
    requires n in h.list && h.nodes[n].tag == tag
    ensures n == cur
  {
    var k := Neighbours(h, prev, cur);
    var j :| 0 <= j < |h.list| && h.list[j] == n;
    LessIsOrder(h.nodes[prev].tag, tag, h.nodes[prev].tag);
    LessIsOrder(tag, tag, tag);
    InOrder(h, j, k);
    InOrder(h, k + 1, j);
  }

  lemma InOrder(h: Heap, i: nat, j: nat)
    requires Ok(h)
    ensures i < j < |h.list| ==> Less(h.nodes[h.list[i]].tag, h.nodes[h.list[j]].tag)
  {
  }

  // ---------- counting ----------

  /** How many items are in a piece of the list, marked or not. */
  ghost function Items(h: Heap, list: seq<nat>): (c: nat) {
    if list == [] then 0
    else (if list[0] < |h.nodes| && h.nodes[list[0]].tag.Item? then 1 else 0) + Items(h, list[1..])
  }

  lemma {:induction false} ItemsConcat(h: Heap, a: seq<nat>, b: seq<nat>)
    ensures Items(h, a + b) == Items(h, a) + Items(h, b)
  {
    if a == [] {
      assert a + b == b;
    } else {
      assert (a + b)[1..] == a[1..] + b;
      ItemsConcat(h, a[1..], b);
    }
  }

  ghost predicate SameTags(h: Heap, h': Heap) {
    |h.nodes| <= |h'.nodes| && forall n :: 0 <= n < |h.nodes| ==> h'.nodes[n].tag == h.nodes[n].tag
  }

  lemma {:induction false} ItemsGrow(h: Heap, h': Heap, list: seq<nat>)
    requires SameTags(h, h') && forall i :: 0 <= i < |list| ==> list[i] < |h.nodes|
    ensures Items(h', list) == Items(h, list)
  {
    if list != [] {
      ItemsGrow(h, h', list[1..]);
    }
  }

  lemma ItemsAround(h: Heap, a: seq<nat>, n: nat, b: seq<nat>)
    requires n < |h.nodes|
    ensures Items(h, a + [n] + b) == Items(h, a) + (if h.nodes[n].tag.Item? then 1 else 0) + Items(h, b)
  {
    ItemsConcat(h, a + [n], b);
    ItemsConcat(h, a, [n]);
    assert [n][1..] == [];
  }

  lemma LinkItems(h: Heap, prev: nat, cur: int, tag: Label, val: int)
    requires Ok(h) && Sees(h, prev, cur)
    ensures var h' := Link(h, prev, cur, tag, val); Items(h', h'.list) == Items(h, h.list) + if tag.Item? then 1 else 0
  {
    var h' := Link(h, prev, cur, tag, val);
    var k := LinkIs(h, prev, cur, tag, val);
    var a, b, n := h.list[..k + 1], h.list[k + 1..], |h.nodes|;
    assert h.list == a + [] + b && a + [] == a;
    InHeap(h, a, [], b);
    ItemsGrow(h, h', a);
    ItemsGrow(h, h', b);
    ItemsConcat(h, a, b);
    ItemsAround(h', a, n, b);
  }

  lemma UnlinkSplit(h: Heap, prev: nat, cur: nat, next: int) returns (a: seq<nat>, b: seq<nat>)
    requires Ok(h) && Sees(h, prev, cur) && cur < |h.nodes|
    ensures h.list == a + [cur] + b && Unlink(h, prev, cur, next).list == a + b
  {
    var k := UnlinkIs(h, prev, cur, next);
    a, b := h.list[..k + 1], h.list[k + 2..];
  }

  lemma InHeap(h: Heap, a: seq<nat>, b: seq<nat>, c: seq<nat>)
    requires h.list == a + b + c && forall i :: 0 <= i < |h.list| ==> h.list[i] < |h.nodes|
    ensures forall i :: 0 <= i < |a| ==> a[i] < |h.nodes|
    ensures forall i :: 0 <= i < |c| ==> c[i] < |h.nodes|
  {
    assert forall i :: 0 <= i < |a| ==> a[i] == h.list[i];
    assert forall i :: 0 <= i < |c| ==> c[i] == h.list[|a| + |b| + i];
  }

  lemma UnlinkItems(h: Heap, prev: nat, cur: nat, next: int)
    requires Ok(h) && Sees(h, prev, cur) && cur < |h.nodes| && h.nodes[cur].tag.Item?
    ensures var h' := Unlink(h, prev, cur, next); Items(h', h'.list) == Items(h, h.list) - 1
  {
    var h' := Unlink(h, prev, cur, next);
    var a, b := UnlinkSplit(h, prev, cur, next);
    InHeap(h, a, [cur], b);
    ItemsGrow(h, h', a);
    ItemsGrow(h, h', b);
    ItemsConcat(h', a, b);
    ItemsAround(h, a, cur, b);
  }

  lemma MarkItems(h: Heap, cur: nat, now: nat)
    requires Ok(h) && cur < |h.nodes|
    ensures Items(Mark(h, cur, now), h.list) == Items(h, h.list)
  {
    ItemsGrow(h, Mark(h, cur, now), h.list);
  }

  lemma PutItems(h: Heap, n: nat, val: int)
    requires Ok(h) && n < |h.nodes|
    ensures Items(Put(h, n, val), h.list) == Items(h, h.list)
  {
    ItemsGrow(h, Put(h, n, val), h.list);
  }

  /** The keys of the first `n` places. */
  ghost function KeysTo(h: Heap, n: nat): (m: set<int>)
    requires n <= |h.list| && forall i :: 0 <= i < n ==> h.list[i] < |h.nodes|
  {
    if n == 0 then {}
    else KeysTo(h, n - 1) + (if h.nodes[h.list[n - 1]].tag.Item? then {h.nodes[h.list[n - 1]].tag.key} else {})
  }

  ghost predicate KeyAt(h: Heap, i: nat, k: int) {
    i < |h.list| && h.list[i] < |h.nodes| && h.nodes[h.list[i]].tag.Item? && h.nodes[h.list[i]].tag.key == k
  }

  lemma {:induction false} KeysToIs(h: Heap, n: nat, k: int)
    requires n <= |h.list| && forall i :: 0 <= i < n ==> h.list[i] < |h.nodes|
    ensures k in KeysTo(h, n) <==> exists i :: 0 <= i < n && KeyAt(h, i, k)
  {
    if n > 0 {
      KeysToIs(h, n - 1, k);
      assert KeyAt(h, n - 1, k) <==> h.nodes[h.list[n - 1]].tag.Item? && h.nodes[h.list[n - 1]].tag.key == k;
    }
  }

  lemma NewKey(item: int -> Label, h: Heap, n: nat)
    requires Ok(h) && Keyed(item, h) && n < |h.list| && h.nodes[h.list[n]].tag.Item?
    ensures h.nodes[h.list[n]].tag.key !in KeysTo(h, n)
  {
    var x := h.list[n];
    KeysToIs(h, n, h.nodes[x].tag.key);
    if h.nodes[x].tag.key in KeysTo(h, n) {
      var i :| 0 <= i < n && KeyAt(h, i, h.nodes[x].tag.key);
      SameLabelSameNode(h, h.list[i], x);
      DistinctPlaces(h, i, n);
    }
  }

  lemma ItemsSnoc(h: Heap, n: nat)
    requires n < |h.list| && h.list[n] < |h.nodes|
    ensures Items(h, h.list[..n + 1]) == Items(h, h.list[..n]) + if h.nodes[h.list[n]].tag.Item? then 1 else 0
  {
    var a, x := h.list[..n], h.list[n];
    assert h.list[..n + 1] == a + [x] + [];
    ItemsAround(h, a, x, []);
  }

  lemma {:induction false} CountKeys(item: int -> Label, h: Heap, n: nat)
    requires Ok(h) && Keyed(item, h) && n <= |h.list|
    ensures |KeysTo(h, n)| == Items(h, h.list[..n])
  {
    if n > 0 {
      CountKeys(item, h, n - 1);
      ItemsSnoc(h, n - 1);
      if h.nodes[h.list[n - 1]].tag.Item? {
        NewKey(item, h, n - 1);
      }
    }
  }

  lemma KeysAreMembers(h: Heap, k: int)
    requires Ok(h) && forall i :: 0 <= i < |h.list| ==> !h.nodes[h.list[i]].marked
    ensures k in KeysTo(h, |h.list|) <==> k in Members(h)
  {
    KeysToIs(h, |h.list|, k);
    if k in KeysTo(h, |h.list|) {
      var i :| 0 <= i < |h.list| && KeyAt(h, i, k);
      assert k in Members(h);
    }
    if k in Members(h) {
      var n :| 0 <= n < |h.nodes| && !h.nodes[n].marked && h.nodes[n].tag.Item? && h.nodes[n].tag.key == k;
      var i := Position(h, n);
      assert KeyAt(h, i, k);
    }
  }

  /** When no reachable node is marked, the number of items is the number of keys. */
  lemma ItemsAreMembers(item: int -> Label, h: Heap)
    requires Ok(h) && Keyed(item, h) && forall i :: 0 <= i < |h.list| ==> !h.nodes[h.list[i]].marked
    ensures Items(h, h.list) == |Members(h)|
  {
    CountKeys(item, h, |h.list|);
    assert h.list[..|h.list|] == h.list;
    KeysAre(h);
  }

  lemma KeysAre(h: Heap)
    requires Ok(h) && forall i :: 0 <= i < |h.list| ==> !h.nodes[h.list[i]].marked
    ensures KeysTo(h, |h.list|) == Members(h)
  {
    forall k ensures k in KeysTo(h, |h.list|) <==> k in Members(h) {
      KeysAreMembers(h, k);
    }
  }
}
