/** The fixed-size queue of the breadth-first search, and the loop that expands one item of it. */
module CuckooQueue {
  import opened CuckooIndex
  import opened CuckooBuckets
  import opened CuckooSearch

  class PathQueue {
    const items: array<Item>
    var first: nat
    var last: nat

    ghost predicate Valid()
      reads this
    {
      first <= last <= items.Length
    }

    /** Everything ever enqueued. */
    ghost function All(): (s: seq<Item>)
      requires Valid()
      reads this, items
    {
      items[..last]
    }

    constructor (capacity: nat)
      ensures Valid() && fresh(items) && items.Length == capacity && first == 0 && All() == []
    {
      items := new Item[capacity](i => Item(0, 0, 0));
      first, last := 0, 0;
    }

    /** The queue is never full here: the callers are proved never to exceed its capacity. */
    method Enqueue(x: Item)
      requires Valid() && last < items.Length
      modifies this`last, items
      ensures Valid() && All() == old(All()) + [x]
    {
      items[last] := x;
      last := last + 1;
    }

    method Dequeue() returns (x: Item)
      requires Valid() && first < last
      modifies this`first
      ensures Valid() && x == All()[old(first)] && first == old(first) + 1 && All() == old(All())
    {
      x := items[first];
      first := first + 1;
    }

    /** Item `x`, the last one dequeued, is being expanded: its first `i` slots are occupied and done. */
    ghost predicate Expands(cfg: Config, hp: nat, x: Item, v: seq<Bucket>, i1: nat, i2: nat, paths: seq<Path>, i: nat)
      reads this, items
    {
      true == (
        && Valid() && items.Length == Start(cfg.slots, cfg.pathLen) && 1 <= first && x == All()[first - 1]
        && Expanding(cfg, hp, v, i1, i2, All(), paths, first - 1, i)
      )
    }

    /** Look at one slot of the bucket of item `x`. */
    method Visit(cfg: Config, hp: nat, x: Item, bkt: Bucket, s: nat,
                 ghost i: nat, ghost v: seq<Bucket>, ghost i1: nat, ghost i2: nat, ghost paths: seq<Path>)
      returns (ghost paths': seq<Path>)
      requires Expands(cfg, hp, x, v, i1, i2, paths, i) && i < cfg.slots
      requires bkt == v[x.bucket] && s == Around(cfg.slots, FirstSlot(cfg.slots, x.code), i) && bkt[s].Full?
      modifies this`last, items
      ensures Expands(cfg, hp, x, v, i1, i2, paths', i + 1)
    {
      ghost var all := All();
      if x.depth + 1 >= cfg.pathLen {
        ExpandDeep(cfg, hp, v, i1, i2, all, paths, first - 1, i);
        return paths;
      }
      ExpandStep(cfg, hp, v, i1, i2, all, paths, first - 1, i);
      var y := NextItem(cfg, hp, x, bkt, s);
      Enqueue(y);
      paths' := paths + [Extend(paths[first - 1], s)];
      assert All() == all + [y];
    }

    /** Look at every slot of the bucket of item `x`, the last one dequeued: stop at a vacant slot,
        queue the alternate bucket of an occupied one. */
    method Expand(cfg: Config, hp: nat, x: Item, bkt: Bucket,
                  ghost v: seq<Bucket>, ghost i1: nat, ghost i2: nat, ghost paths: seq<Path>)
      returns (slot: int, ghost paths': seq<Path>, ghost p: Path)
      requires Expands(cfg, hp, x, v, i1, i2, paths, 0) && bkt == v[x.bucket]
      modifies this`last, items
      ensures Valid() && -1 <= slot < cfg.slots
      ensures slot == -1 ==> Searching(cfg, hp, v, i1, i2, All(), paths', first)
      ensures slot >= 0 ==> NextCode(cfg.slots, x.code, slot) < 65536
      ensures slot >= 0 ==> FoundPath(cfg, hp, v, i1, i2, Item(x.bucket, NextCode(cfg.slots, x.code, slot), x.depth), p)
    {
      paths', p := paths, Path(false, []);
      for i := 0 to cfg.slots
        invariant Expands(cfg, hp, x, v, i1, i2, paths', i)
      {
        var s := Around(cfg.slots, FirstSlot(cfg.slots, x.code), i);
        if bkt[s] == Vacant {
          ExpandHit(cfg, hp, v, i1, i2, All(), paths', first - 1, i);
          return s, paths', Extend(paths'[first - 1], s);
        }
        paths' := Visit(cfg, hp, x, bkt, s, i, v, i1, i2, paths');
      }
      ExpandDone(cfg, hp, v, i1, i2, All(), paths', first - 1);
      slot := -1;
    }
  }
}
