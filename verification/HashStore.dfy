/** The chained hash store: buckets of fixed-size nodes linked through `next`.  Every operation is described on the
    slots of the chains; as long as every key has one slot, in the chain of its hash, the chains stand for a
    finite map. */
module HashStore {

  datatype Item = Item(valid: bool, key: int, data: int)

  /** The slots of the nodes of one chain, and of all chains. */
  type Chain = seq<seq<Item>>
  type Chains = seq<Chain>

  const BLANK: Item := Item(false, 0, 0)

  // ---------- what the chains stand for ----------

  /** Slot `j` of node `i` of chain `b` is in use. */
  ghost predicate Used(c: Chains, b: nat, i: nat, j: nat) {
    b < |c| && i < |c[b]| && j < |c[b][i]| && c[b][i][j].valid
  }

  ghost function At(c: Chains, b: nat, i: nat, j: nat): (x: Item) {
    if b < |c| && i < |c[b]| && j < |c[b][i]| then c[b][i][j] else BLANK
  }

  ghost predicate Has(c: Chains, b: nat, k: int) {
    exists i: nat, j: nat :: Used(c, b, i, j) && At(c, b, i, j).key == k
  }

  /** Chains `c` stand for map `m`: every slot in use holds an entry of the map in the chain of its hash, and
      every entry has exactly one slot. */
  ghost predicate Rep(hash: int -> nat, c: Chains, m: map<int, Item>) {
    && (forall b: nat, i: nat, j: nat {:trigger Used(c, b, i, j)} :: Used(c, b, i, j) ==>
          hash(At(c, b, i, j).key) == b && At(c, b, i, j).key in m && m[At(c, b, i, j).key] == At(c, b, i, j))
    && (forall k {:trigger k in m} :: k in m ==> Has(c, hash(k), k))
    && (forall b: nat, i: nat, j: nat, i': nat, j': nat {:trigger Used(c, b, i, j), Used(c, b, i', j')} ::
          Used(c, b, i, j) && Used(c, b, i', j') && At(c, b, i, j).key == At(c, b, i', j').key ==> i == i' && j == j')
  }

  ghost function Set(c: Chains, b: nat, i: nat, j: nat, x: Item): (c': Chains)
    requires b < |c| && i < |c[b]| && j < |c[b][i]|
    ensures |c'| == |c|
    ensures forall b': nat, i': nat, j': nat {:trigger At(c', b', i', j')} ::
              At(c', b', i', j') == if b' == b && i' == i && j' == j then x else At(c, b', i', j')
    ensures forall b': nat, i': nat, j': nat {:trigger Used(c', b', i', j')} ::
              Used(c', b', i', j') == if b' == b && i' == i && j' == j then x.valid else Used(c, b', i', j')
  {
    c[b := c[b][i := c[b][i][j := x]]]
  }

  ghost function Grow(c: Chains, b: nat, node: seq<Item>): (c': Chains)
    requires b < |c|
    ensures |c'| == |c|
    ensures forall b': nat, i': nat, j': nat {:trigger Used(c', b', i', j')} ::
              Used(c', b', i', j') == if b' == b && i' == |c[b]| then j' < |node| && node[j'].valid
                                      else Used(c, b', i', j')
    ensures forall b': nat, i': nat, j': nat {:trigger At(c', b', i', j')} :: (b' != b || i' < |c[b]|) ==>
              At(c', b', i', j') == At(c, b', i', j')
    ensures forall j': nat {:trigger At(c', b, |c[b]|, j')} :: At(c', b, |c[b]|, j') == if j' < |node| then node[j']
            else BLANK
  {
    c[b := c[b] + [node]]
  }

  lemma HasStays(c: Chains, c': Chains, b: nat, k: int)
    requires Has(c, b, k)
    requires forall i: nat, j: nat :: Used(c, b, i, j) && At(c, b, i, j).key == k ==>
               Used(c', b, i, j) && At(c', b, i, j).key == k
    ensures Has(c', b, k)
  {
    var i: nat, j: nat :| Used(c, b, i, j) && At(c, b, i, j).key == k;
    assert Used(c', b, i, j) && At(c', b, i, j).key == k;
  }

  /** Overwriting the slot of a key. */
  lemma PutKeeps(hash: int -> nat, c: Chains, m: map<int, Item>, b: nat, i: nat, j: nat, x: Item)
    requires Rep(hash, c, m) && Used(c, b, i, j) && At(c, b, i, j).key == x.key && x.valid
    ensures Rep(hash, Set(c, b, i, j, x), m[x.key := x])
  {
    var c', m' := Set(c, b, i, j, x), m[x.key := x];
    forall k | k in m' ensures Has(c', hash(k), k) {
      if k == x.key {
        assert Used(c', b, i, j) && At(c', b, i, j).key == k;
      } else {
        HasStays(c, c', hash(k), k);
      }
    }
  }

  /** Filling a free slot with a new key. */
  lemma FillKeeps(hash: int -> nat, c: Chains, m: map<int, Item>, b: nat, i: nat, j: nat, x: Item)
    requires Rep(hash, c, m) && b < |c| && i < |c[b]| && j < |c[b][i]| && !c[b][i][j].valid
    requires x.valid && x.key !in m && hash(x.key) == b
    ensures Rep(hash, Set(c, b, i, j, x), m[x.key := x])
  {
    var c', m' := Set(c, b, i, j, x), m[x.key := x];
    forall k | k in m' ensures Has(c', hash(k), k) {
      if k == x.key {
        assert Used(c', b, i, j) && At(c', b, i, j).key == k;
      } else {
        HasStays(c, c', hash(k), k);
      }
    }
  }

  /** Adding a node whose first slot holds a new key. */
  lemma GrowKeeps(hash: int -> nat, c: Chains, m: map<int, Item>, b: nat, node: seq<Item>, x: Item)
    requires Rep(hash, c, m) && b < |c| && node != [] && node[0] == x && x.valid && x.key !in m && hash(x.key) == b
    requires forall j :: 0 < j < |node| ==> node[j] == BLANK
    ensures Rep(hash, Grow(c, b, node), m[x.key := x])
  {
    var c', m' := Grow(c, b, node), m[x.key := x];
    forall k | k in m' ensures Has(c', hash(k), k) {
      if k == x.key {
        assert Used(c', b, |c[b]|, 0) && At(c', b, |c[b]|, 0).key == k;
      } else {
        HasStays(c, c', hash(k), k);
      }
    }
  }

  /** Freeing the slot of a key. */
  lemma FreeKeeps(hash: int -> nat, c: Chains, m: map<int, Item>, b: nat, i: nat, j: nat, y: Item)
    requires Rep(hash, c, m) && Used(c, b, i, j) && !y.valid
    ensures Rep(hash, Set(c, b, i, j, y), m - {At(c, b, i, j).key})
  {
    var x := At(c, b, i, j);
    var c', m' := Set(c, b, i, j, y), m - {x.key};
    forall k | k in m' ensures Has(c', hash(k), k) {
      HasStays(c, c', hash(k), k);
    }
  }

  // ---------- searching a node ----------

  /** The first slot from `j` on that is in use by key `k`, or -1. */
  function SlotOf(items: seq<Item>, k: int, j: nat): (r: int)
    requires j <= |items|
    ensures -1 <= r < |items|
    ensures r >= 0 ==> items[r].valid && items[r].key == k
    ensures r < 0 ==> forall i :: j <= i < |items| ==> !(items[i].valid && items[i].key == k)
    decreases |items| - j
  {
    if j == |items| then -1 else if items[j].valid && items[j].key == k then j else SlotOf(items, k, j + 1)
  }

  function FreeSlot(items: seq<Item>, j: nat): (r: int)
    requires j <= |items|
    ensures -1 <= r < |items|
    ensures r >= 0 ==> !items[r].valid && forall i :: j <= i < r ==> items[i].valid
    ensures r < 0 ==> forall i :: j <= i < |items| ==> items[i].valid
    decreases |items| - j
  {
    if j == |items| then -1 else if !items[j].valid then j else FreeSlot(items, j + 1)
  }

  // ---------- the operations on the slots ----------

  datatype Spot = Nowhere | Here(i: nat, j: nat)

  /** The first slot in use by key `k`, from node `i` on. */
  function First(ch: Chain, k: int, i: nat): (r: Spot)
    requires i <= |ch|
    ensures r.Here? ==> i <= r.i < |ch| && r.j < |ch[r.i]| && ch[r.i][r.j].valid && ch[r.i][r.j].key == k
    ensures r.Nowhere? ==> forall i', j :: i <= i' < |ch| && 0 <= j < |ch[i']| ==>
              !(ch[i'][j].valid && ch[i'][j].key == k)
    decreases |ch| - i
  {
    if i == |ch| then Nowhere
    else
      var j := SlotOf(ch[i], k, 0);
      if j >= 0 then Here(i, j) else First(ch, k, i + 1)
  }

  /** The first free slot, from node `i` on. */
  function Room(ch: Chain, i: nat): (r: Spot)
    requires i <= |ch|
    ensures r.Here? ==> i <= r.i < |ch| && r.j < |ch[r.i]| && !ch[r.i][r.j].valid
    ensures r.Nowhere? ==> forall i', j :: i <= i' < |ch| && 0 <= j < |ch[i']| ==> ch[i'][j].valid
    decreases |ch| - i
  {
    if i == |ch| then Nowhere
    else
      var j := FreeSlot(ch[i], 0);
      if j >= 0 then Here(i, j) else Room(ch, i + 1)
  }

  /** An item goes to the first free slot of chain `b`, or to a new node. */
  ghost function Inserted(c: Chains, b: nat, x: Item, slots: nat): (c': Chains)
    requires b < |c| && slots >= 1
  {
    match Room(c[b], 0)
    case Here(i, j) => Set(c, b, i, j, x)
    case Nowhere => Grow(c, b, Blanks(slots)[0 := x])
  }

  /** The first slot of a key is freed. */
  ghost function Deleted(c: Chains, b: nat, k: int): (c': Chains)
    requires b < |c|
  {
    match First(c[b], k, 0)
    case Here(i, j) => Set(c, b, i, j, c[b][i][j].(valid := false))
    case Nowhere => c
  }

  /** The first slot of a key is overwritten, or the item is inserted. */
  ghost function Put(c: Chains, b: nat, k: int, x: Item, slots: nat): (c': Chains)
    requires b < |c| && slots >= 1
  {
    match First(c[b], k, 0)
    case Here(i, j) => Set(c, b, i, j, x)
    case Nowhere => Inserted(c, b, x.(valid := true), slots)
  }

  // ---------- what the operations do to the map ----------

  /** A search finds a key exactly when it is in the map, and then its item. */
  lemma FirstFinds(hash: int -> nat, c: Chains, m: map<int, Item>, k: int)
    requires Rep(hash, c, m) && hash(k) < |c|
    ensures var r := First(c[hash(k)], k, 0);
            && (r.Here? <==> k in m) && (r.Here? ==> Used(c, hash(k), r.i, r.j) && c[hash(k)][r.i][r.j] == m[k])
  {
    var b := hash(k);
    var r := First(c[b], k, 0);
    if r.Here? {
      assert Used(c, b, r.i, r.j);
    }
    if k in m {
      assert Has(c, b, k);
      var i: nat, j: nat :| Used(c, b, i, j) && At(c, b, i, j).key == k;
      assert c[b][i][j].valid && c[b][i][j].key == k;
    }
  }

  /** Inserting an item whose key belongs to the chain and is not in the map adds exactly that key. */
  lemma InsertKeeps(hash: int -> nat, c: Chains, m: map<int, Item>, b: nat, x: Item, slots: nat)
    requires Rep(hash, c, m) && b < |c| && slots >= 1 && x.valid && hash(x.key) == b && x.key !in m
    ensures Rep(hash, Inserted(c, b, x, slots), m[x.key := x])
  {
    var r := Room(c[b], 0);
    if r.Here? {
      FillKeeps(hash, c, m, b, r.i, r.j, x);
    } else {
      GrowKeeps(hash, c, m, b, Blanks(slots)[0 := x], x);
    }
  }

  /** The slot that an insertion fills. */
  ghost function Filled(c: Chains, b: nat): (r: Spot)
    requires b < |c|
    ensures r.Here?
  {
    if Room(c[b], 0).Here? then Room(c[b], 0) else Here(|c[b]|, 0)
  }

  lemma FilledIs(c: Chains, b: nat, x: Item, slots: nat)
    requires b < |c| && slots >= 1 && x.valid
    ensures var c', r := Inserted(c, b, x, slots), Filled(c, b);
            && Used(c', b, r.i, r.j) && At(c', b, r.i, r.j) == x && !Used(c, b, r.i, r.j)
            && forall b': nat, i: nat, j: nat :: Used(c, b', i, j) ==>
                 Used(c', b', i, j) && At(c', b', i, j) == At(c, b', i, j)
  {
  }

  /** The exact condition of an insertion: afterwards the chains still stand for a map if and only if the item's
      key belongs to the chain it went to and was not in the map. */
  lemma InsertExactly(hash: int -> nat, c: Chains, m: map<int, Item>, b: nat, x: Item, slots: nat)
    requires Rep(hash, c, m) && b < |c| && slots >= 1 && x.valid
    ensures (exists m' :: Rep(hash, Inserted(c, b, x, slots), m')) <==> hash(x.key) == b && x.key !in m
  {
    if hash(x.key) == b && x.key !in m {
      InsertKeeps(hash, c, m, b, x, slots);
    }
    if m' :| Rep(hash, Inserted(c, b, x, slots), m') {
      OnlyCopy(hash, c, m, b, x, slots, m');
    }
  }

  lemma OnlyCopy(hash: int -> nat, c: Chains, m: map<int, Item>, b: nat, x: Item, slots: nat, m': map<int, Item>)
    requires Rep(hash, c, m) && b < |c| && slots >= 1 && x.valid && Rep(hash, Inserted(c, b, x, slots), m')
    ensures hash(x.key) == b && x.key !in m
  {
    var c', r := Inserted(c, b, x, slots), Filled(c, b);
    FilledIs(c, b, x, slots);
    assert Used(c', b, r.i, r.j);
    forall i: nat, j: nat | Used(c, b, i, j) ensures At(c, b, i, j).key != x.key {
      assert Used(c', b, i, j);
    }
    assert !Has(c, b, x.key);
  }

  /** A key inserted twice survives its deletion. */
  lemma SecondCopy(hash: int -> nat, c: Chains, m: map<int, Item>, x: Item, slots: nat)
    requires Rep(hash, c, m) && hash(x.key) < |c| && slots >= 1 && x.valid && x.key in m
    ensures var b := hash(x.key); First(Deleted(Inserted(c, b, x, slots), b, x.key)[b], x.key, 0).Here?
  {
    var b, c1 := hash(x.key), Inserted(c, hash(x.key), x, slots);
    var r := Filled(c, b);
    FilledIs(c, b, x, slots);
    FirstFinds(hash, c, m, x.key);
    var f := First(c[b], x.key, 0);
    var g := First(c1[b], x.key, 0);
    assert Used(c1, b, f.i, f.j) && Used(c1, b, r.i, r.j);
    var c2 := Deleted(c1, b, x.key);
    assert g.Here? && (g != f || g != r);
    var o := if g != f then f else r;
    assert Used(c2, b, o.i, o.j) && At(c2, b, o.i, o.j).key == x.key;
  }

  /** Deleting removes exactly the key. */
  lemma DeleteKeeps(hash: int -> nat, c: Chains, m: map<int, Item>, k: int)
    requires Rep(hash, c, m) && hash(k) < |c|
    ensures Rep(hash, Deleted(c, hash(k), k), m - {k})
  {
    var b := hash(k);
    FirstFinds(hash, c, m, k);
    var r := First(c[b], k, 0);
    if r.Here? {
      FreeKeeps(hash, c, m, b, r.i, r.j, c[b][r.i][r.j].(valid := false));
    } else {
      assert m - {k} == m;
    }
  }

  /** Putting an item under its own key updates the map at that key; an item that is not valid removes the key if
      it is present, and adds it if it is absent. */
  lemma PutUpdates(hash: int -> nat, c: Chains, m: map<int, Item>, x: Item, slots: nat)
    requires Rep(hash, c, m) && hash(x.key) < |c| && slots >= 1
    ensures Rep(hash, Put(c, hash(x.key), x.key, x, slots),
              if !x.valid && x.key in m then m - {x.key} else m[x.key := x.(valid := true)])
  {
    var b := hash(x.key);
    FirstFinds(hash, c, m, x.key);
    var r := First(c[b], x.key, 0);
    if r.Nowhere? {
      InsertKeeps(hash, c, m, b, x.(valid := true), slots);
    } else if x.valid {
      PutKeeps(hash, c, m, b, r.i, r.j, x);
    } else {
      FreeKeeps(hash, c, m, b, r.i, r.j, x);
    }
  }

  method FindSlot(items: seq<Item>, k: int) returns (r: int)
    ensures r == SlotOf(items, k, 0)
  {
    for j := 0 to |items|
      invariant SlotOf(items, k, 0) == SlotOf(items, k, j)
    {
      if items[j].valid && items[j].key == k {
        return j;
      }
    }
    r := -1;
  }

  method FindFree(items: seq<Item>) returns (r: int)
    ensures r == FreeSlot(items, 0)
  {
    for j := 0 to |items|
      invariant FreeSlot(items, 0) == FreeSlot(items, j)
    {
      if !items[j].valid {
        return j;
      }
    }
    r := -1;
  }

  // ---------- the store ----------

  class Node {
    var items: seq<Item>
    var next: Node?

    constructor (items: seq<Item>)
      ensures this.items == items && next == null
    {
      this.items, next := items, null;
    }
  }

  function Blanks(n: nat): (s: seq<Item>)
    ensures |s| == n && forall i :: 0 <= i < n ==> s[i] == BLANK
  {
    if n == 0 then [] else Blanks(n - 1) + [BLANK]
  }

  /** No node occurs twice, and all belong to `nodes`. */
  ghost predicate Apart(chains: seq<seq<Node>>, nodes: set<Node>) {
    && (forall b, i :: 0 <= b < |chains| && 0 <= i < |chains[b]| ==> chains[b][i] in nodes)
    && (forall b, i, b', i' ::
          (0 <= b < |chains| && 0 <= i < |chains[b]| && 0 <= b' < |chains| && 0 <= i' < |chains[b']|
            && chains[b][i] == chains[b'][i'])
          ==> b == b' && i == i')
  }

  ghost function Singles(h: seq<Node>): (c: seq<seq<Node>>)
    ensures |c| == |h| && forall b :: 0 <= b < |h| ==> c[b] == [h[b]]
  {
    if h == [] then [] else Singles(h[..|h| - 1]) + [[h[|h| - 1]]]
  }

  lemma ApartGrows(chains: seq<seq<Node>>, nodes: set<Node>, b: nat, node: Node)
    requires Apart(chains, nodes) && b < |chains| && node !in nodes
    ensures Apart(chains[b := chains[b] + [node]], nodes + {node})
  {
    var c' := chains[b := chains[b] + [node]];
    assert forall b', i' :: 0 <= b' < |c'| && 0 <= i' < |c'[b']| ==>
      if b' == b && i' == |chains[b]| then c'[b'][i'] == node else i' < |chains[b']| && c'[b'][i'] == chains[b'][i'];
  }

  class Store {
    const hash: int -> nat
    const slots: nat
    const heads: seq<Node>               // the bucket array
    ghost var chains: seq<seq<Node>>
    ghost var nodes: set<Node>

    constructor (hash: int -> nat, slots: nat, n: nat)
      requires slots >= 1 && n >= 1 && forall k :: hash(k) < n
      ensures Valid() && fresh(nodes) && Rep(this.hash, Items(), map[])
    {
      var h := NewHeads(n, slots);
      this.hash, this.slots, this.heads := hash, slots, h;
      this.chains, this.nodes := Singles(h), set x | x in h;
      new;
      forall b: nat, i: nat ensures NodeOk(b, i) {
      }
    }

    ghost function ChainItems(chain: seq<Node>, n: nat): (c: Chain)
      requires n <= |chain| && forall i :: 0 <= i < |chain| ==> chain[i] in nodes
      reads this`chains, this`nodes, nodes
      ensures |c| == n && forall i :: 0 <= i < n ==> c[i] == chain[i].items
    {
      if n == 0 then [] else ChainItems(chain, n - 1) + [chain[n - 1].items]
    }

    ghost function ItemsTo(n: nat): (c: Chains)
      requires n <= |chains| && Apart(chains, nodes)
      reads this`chains, this`nodes, nodes
      ensures |c| == n
      ensures forall b :: 0 <= b < n ==> |c[b]| == |chains[b]| && forall i :: 0 <= i < |c[b]| ==>
                c[b][i] == chains[b][i].items
    {
      if n == 0 then [] else ItemsTo(n - 1) + [ChainItems(chains[n - 1], |chains[n - 1]|)]
    }

    /** The slots of all chains. */
    ghost function Items(): (c: Chains)
      requires Apart(chains, nodes)
      reads this`chains, this`nodes, nodes
      ensures |c| == |chains|
      ensures forall b :: 0 <= b < |c| ==> |c[b]| == |chains[b]| && forall i :: 0 <= i < |c[b]| ==>
                c[b][i] == chains[b][i].items
    {
      ItemsTo(|chains|)
    }

    /** Node `i` of chain `b` is well formed and leads to the next one. */
    ghost predicate NodeOk(b: nat, i: nat)
      requires Apart(chains, nodes)
      reads this`chains, this`nodes, nodes
    {
      b < |chains| && i < |chains[b]| ==>
        && |chains[b][i].items| == slots
        && chains[b][i].next == if i + 1 < |chains[b]| then chains[b][i + 1] else null
    }

    /** Chains begin at their heads, are linked, and share no node: so they have no cycles either. */
    ghost predicate Valid()
      reads this`chains, this`nodes, nodes
    {
      && slots >= 1 && |chains| == |heads| >= 1 && Apart(chains, nodes)
      && (forall k :: hash(k) < |heads|)
      && (forall b :: 0 <= b < |chains| ==> chains[b] != [] && chains[b][0] == heads[b])
      && (forall b: nat, i: nat {:trigger NodeOk(b, i)} :: NodeOk(b, i))
    }

    /** LocalGet: the first slot of the key in the chain of its hash. */
    method LocalGet(key: int) returns (node: Node?, slot: nat, ghost i: nat)
      requires Valid()
      ensures match First(Items()[hash(key)], key, 0)
              case Nowhere => node == null
              case Here(i', j') => i == i' < |chains[hash(key)]| && node == chains[hash(key)][i] && slot == j'
      ensures forall m {:trigger Rep(hash, Items(), m)} :: Rep(hash, Items(), m) ==>
                (node != null <==> key in m) && (node != null ==> slot < |node.items| && node.items[slot] == m[key])
    {
      node, slot, i := Search(key);
      forall m | Rep(hash, Items(), m)
        ensures (node != null <==> key in m)
                && (node != null ==> slot < |node.items| && node.items[slot] == m[key]) {
        FirstFinds(hash, Items(), m, key);
      }
    }

    method Search(key: int) returns (node: Node?, slot: nat, ghost i: nat)
      requires Valid()
      ensures match First(Items()[hash(key)], key, 0)
              case Nowhere => node == null
              case Here(i', j') => i == i' < |chains[hash(key)]| && node == chains[hash(key)][i] && slot == j'
    {
      var b := hash(key);
      ghost var c := Items();
      node, slot, i := heads[b], 0, 0;
      while node != null
        invariant i <= |chains[b]| && node == if i < |chains[b]| then chains[b][i] else null
        invariant Valid() && First(c[b], key, 0) == First(c[b], key, i)
        decreases |chains[b]| - i
      {
        assert NodeOk(b, i);
        var j := FindSlot(node.items, key);
        if j >= 0 {
          slot := j;
          return;
        }
        node, i := node.next, i + 1;
      }
    }

    /** Write one slot. */
    method WriteSlot(node: Node, slot: nat, x: Item, ghost b: nat, ghost i: nat)
      requires Valid() && b < |chains| && i < |chains[b]| && chains[b][i] == node && slot < |node.items|
      modifies node
      ensures Valid() && Items() == Set(old(Items()), b, i, slot, x)
    {
      ghost var c := Items();
      assert NodeOk(b, i);
      node.items := node.items[slot := x];
      forall b': nat, i': nat ensures NodeOk(b', i') {
        assert old(NodeOk(b', i'));
      }
      ghost var c' := Set(c, b, i, slot, x);
      forall b' | 0 <= b' < |chains| ensures Items()[b'] == c'[b'] {
        forall i' | 0 <= i' < |chains[b']| ensures Items()[b'][i'] == c'[b'][i'] {
        }
      }
    }

    /** LocalDelete */
    method LocalDelete(key: int) returns (found: bool)
      requires Valid()
      modifies nodes
      ensures Valid() && Items() == Deleted(old(Items()), hash(key), key)
      ensures found <==> First(old(Items())[hash(key)], key, 0).Here?
      ensures forall m {:trigger Rep(hash, old(Items()), m)} :: Rep(hash, old(Items()), m) ==>
                Rep(hash, Items(), m - {key}) && (found <==> key in m)
    {
      ghost var c := Items();
      forall m | Rep(hash, c, m) ensures Rep(hash, Deleted(c, hash(key), key), m - {key}) {
        DeleteKeeps(hash, c, m, key);
      }
      var node, slot;
      ghost var i;
      node, slot, i := LocalGet(key);
      found := node != null;
      if found {
        WriteSlot(node, slot, node.items[slot].(valid := false), hash(key), i);
      }
    }

    /** A node is linked behind the last node of chain `b`. */
    method Attach(last: Node, node: Node, ghost b: nat)
      requires Valid() && b < |chains| && last == chains[b][|chains[b]| - 1]
      requires node !in nodes && node.next == null && |node.items| == slots
      modifies this`chains, this`nodes, last
      ensures Valid() && Items() == Grow(old(Items()), b, node.items) && node.items == old(node.items)
      ensures nodes == old(nodes) + {node} && |chains[b]| == |old(chains[b])| + 1 && |chains| == |old(chains)|
    {
      ghost var c, k := Items(), |chains[b]|;
      ApartGrows(chains, nodes, b, node);
      assert NodeOk(b, k - 1);
      last.next := node;
      chains := chains[b := chains[b] + [node]];
      nodes := nodes + {node};
      forall b': nat, i': nat ensures NodeOk(b', i') {
        assert old(NodeOk(b', i'));
      }
      ghost var c' := Grow(c, b, node.items);
      forall b' | 0 <= b' < |chains| ensures Items()[b'] == c'[b'] {
        forall i' | 0 <= i' < |chains[b']| ensures Items()[b'][i'] == c'[b'][i'] {
        }
      }
    }

    /** The first node of a chain with a free slot, or the last node if there is none. */
    method FindRoom(b: nat) returns (node: Node, slot: int, ghost i: nat)
      requires Valid() && b < |heads|
      ensures i < |chains[b]| && node == chains[b][i]
      ensures match Room(Items()[b], 0)
              case Nowhere => slot == -1 && i == |chains[b]| - 1
              case Here(i', j') => i == i' && slot == j'
    {
      ghost var c := Items();
      i, node, slot := 0, heads[b], -1;
      while true
        invariant Valid() && c == Items() && i < |chains[b]| && node == chains[b][i] && Room(c[b], 0) == Room(c[b], i)
        decreases |chains[b]| - i
      {
        assert NodeOk(b, i);
        slot := FindFree(node.items);
        if slot >= 0 || node.next == null {
          return;
        }
        node, i := node.next, i + 1;
      }
    }

    /** The last node of a chain gets a successor that holds the item. */
    method Extend(last: Node, x: Item, ghost b: nat)
      requires Valid() && b < |chains| && last == chains[b][|chains[b]| - 1]
      modifies this`chains, this`nodes, last
      ensures Valid() && Items() == Grow(old(Items()), b, Blanks(slots)[0 := x])
      ensures fresh(nodes - old(nodes)) && nodes >= old(nodes)
    {
      var node := new Node(Blanks(slots)[0 := x]);
      Attach(last, node, b);
    }

    /** LocalInsert: the item goes, as valid, to the first free slot of the chain of `key`, or to a new node when
        every slot of the chain is in use.  Whether the key is there already is not looked at. */
    method LocalInsert(key: int, x: Item)
      requires Valid()
      modifies this`chains, this`nodes, nodes
      ensures Valid() && fresh(nodes - old(nodes))
      ensures Items() == Inserted(old(Items()), hash(key), x.(valid := true), slots)
      ensures forall m {:trigger Rep(hash, old(Items()), m)} ::
                Rep(hash, old(Items()), m) && x.key == key && key !in m ==>
                  Rep(hash, Items(), m[key := x.(valid := true)])
    {
      ghost var c, b := Items(), hash(key);
      forall m | Rep(hash, c, m) && x.key == key && key !in m
        ensures Rep(hash, Inserted(c, b, x.(valid := true), slots), m[key := x.(valid := true)]) {
        InsertKeeps(hash, c, m, b, x.(valid := true), slots);
      }
      var node, slot;
      ghost var i;
      node, slot, i := FindRoom(hash(key));
      if slot >= 0 {
        WriteSlot(node, slot, x.(valid := true), b, i);
      } else {
        Extend(node, x.(valid := true), b);
      }
    }

    /** LocalPut: the first slot of the key is overwritten with the item as it is, or the item is inserted. */
    method LocalPut(key: int, x: Item)
      requires Valid()
      modifies this`chains, this`nodes, nodes
      ensures Valid() && fresh(nodes - old(nodes)) && Items() == Put(old(Items()), hash(key), key, x, slots)
      ensures forall m {:trigger Rep(hash, old(Items()), m)} :: Rep(hash, old(Items()), m) && x.key == key ==>
                Rep(hash, Items(), if !x.valid && key in m then m - {key} else m[key := x.(valid := true)])
    {
      ghost var c := Items();
      forall m | Rep(hash, c, m) && x.key == key
        ensures Rep(hash, Put(c, hash(key), key, x, slots),
                  if !x.valid && key in m then m - {key} else m[key := x.(valid := true)]) {
        PutUpdates(hash, c, m, x, slots);
      }
      var node, slot;
      ghost var i;
      node, slot, i := LocalGet(key);
      if node != null {
        WriteSlot(node, slot, x, hash(key), i);
      } else {
        LocalInsert(key, x);
      }
    }
  }

  /** Blank nodes, all different. */
  method NewHeads(n: nat, slots: nat) returns (h: seq<Node>)
    ensures |h| == n && forall i :: 0 <= i < n ==> fresh(h[i]) && h[i].items == Blanks(slots) && h[i].next == null
    ensures forall i, j :: 0 <= i < j < n ==> h[i] != h[j]
  {
    h := [];
    for k := 0 to n
      invariant |h| == k && forall i :: 0 <= i < k ==> fresh(h[i]) && h[i].items == Blanks(slots) && h[i].next == null
      invariant forall i, j :: 0 <= i < j < k ==> h[i] != h[j]
    {
      var node := new Node(Blanks(slots));
      h := h + [node];
    }
  }
}
