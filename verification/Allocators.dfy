/** Allocators that wrap around: RDMA buffers of one thread, and log space of many threads on a memory
    node.  Nothing is ever freed; what matters is how long a buffer stays untouched. */
module Allocators {

  /** Where a request of `size` bytes goes in a region of `limit` bytes, `cur` being the bump pointer. */
  function Place(limit: nat, cur: nat, size: nat): (at: nat) {
    if cur + size > limit then 0 else cur
  }

  /** The places of a series of requests. */
  function Places(limit: nat, cur: nat, sizes: seq<nat>): (at: seq<nat>)
    ensures |at| == |sizes|
    decreases |sizes|
  {
    if sizes == [] then []
    else
      var p := Place(limit, cur, sizes[0]);
      [p] + Places(limit, p + sizes[0], sizes[1..])
  }

  function Sum(sizes: seq<nat>): (n: nat) {
    if sizes == [] then 0 else sizes[0] + Sum(sizes[1..])
  }

  /** Buffers `a .. a+s` and `b .. b+t` have no byte in common. */
  predicate Clear(a: nat, s: nat, b: nat, t: nat) {
    a + s <= b || b + t <= a
  }

  /** In any series of requests, one lies inside the region exactly if it is no larger. */
  lemma {:induction false} InsideRegion(limit: nat, cur: nat, sizes: seq<nat>, k: nat)
    requires k < |sizes|
    ensures Places(limit, cur, sizes)[k] + sizes[k] <= limit <==> sizes[k] <= limit
    decreases |sizes|
  {
    if k > 0 {
      InsideRegion(limit, Place(limit, cur, sizes[0]) + sizes[0], sizes[1..], k - 1);
    }
  }

  /** After wrapping around, everything placed so far lies below `a`. */
  lemma {:induction false} BelowBuffer(limit: nat, cur: nat, sizes: seq<nat>, a: nat, s: nat, k: nat)
    requires a + s <= limit && cur + Sum(sizes) <= a && k < |sizes|
    ensures Clear(a, s, Places(limit, cur, sizes)[k], sizes[k])
    decreases |sizes|
  {
    if k > 0 {
      BelowBuffer(limit, cur + sizes[0], sizes[1..], a, s, k - 1);
    }
  }

  /** Before wrapping around, everything is placed above the buffer; the wrap comes late enough. */
  lemma {:induction false} AboveBuffer(limit: nat, most: nat, cur: nat, sizes: seq<nat>, a: nat, s: nat, k: nat)
    requires a + s <= cur <= limit && most <= limit
    requires cur - a - s + Sum(sizes) < ReuseLimit(limit, most, s)
    requires forall i :: 0 <= i < |sizes| ==> sizes[i] <= most
    requires k < |sizes|
    ensures Clear(a, s, Places(limit, cur, sizes)[k], sizes[k])
    decreases |sizes|
  {
    if cur + sizes[0] > limit {
      BelowBuffer(limit, 0, sizes, a, s, k);
      assert Places(limit, cur, sizes) == Places(limit, 0, sizes);
    } else if k > 0 {
      AboveBuffer(limit, most, cur + sizes[0], sizes[1..], a, s, k - 1);
    }
  }

  /** The least number of bytes whose allocation may overwrite a buffer of `s` bytes, in a region of `limit` bytes
      with requests of at most `most` bytes. */
  function ReuseLimit(limit: nat, most: nat, s: nat): (n: int)
    requires s <= limit
  {
    if limit + 2 >= 2 * most + s then limit + 2 - most - s else (limit - s + 3) / 2
  }

  /** A buffer of `s` bytes is not overlapped while later requests total less than the limit of reuse. */
  lemma ReuseBound(limit: nat, most: nat, cur: nat, s: nat, later: seq<nat>, k: nat)
    requires s <= most <= limit && Sum(later) < ReuseLimit(limit, most, s)
    requires forall i :: 0 <= i < |later| ==> later[i] <= most
    requires k < |later|
    ensures var a := Place(limit, cur, s); a + s <= limit && Clear(a, s, Places(limit, a + s, later)[k], later[k])
  {
    var a := Place(limit, cur, s);
    AboveBuffer(limit, most, a + s, later, a, s, k);
  }

  function Ones(n: nat): (r: seq<nat>)
    ensures |r| == n && forall i :: 0 <= i < n ==> r[i] == 1
  {
    if n == 0 then [] else [1] + Ones(n - 1)
  }

  /** One-byte requests up to where the last request no longer fits. */
  lemma {:induction false} OnesThen(limit: nat, cur: nat, n: nat, last: nat)
    requires cur + n <= limit < cur + n + last
    ensures Sum(Ones(n) + [last]) == n + last && Places(limit, cur, Ones(n) + [last])[n] == 0
    decreases n
  {
    if n == 0 {
      assert Ones(0) + [last] == [last];
    } else {
      OnesThen(limit, cur + 1, n - 1, last);
      assert (Ones(n) + [last])[1..] == Ones(n - 1) + [last];
    }
  }

  /** At the limit of reuse a buffer may be overwritten, for every size of region, buffer and request. */
  lemma ReuseBoundIsTight(limit: nat, most: nat, s: nat) returns (cur: nat, later: seq<nat>, k: nat)
    requires 1 <= s <= most <= limit
    ensures k < |later| && (forall i :: 0 <= i < |later| ==> later[i] <= most)
    ensures Sum(later) == ReuseLimit(limit, most, s)
    ensures var a := Place(limit, cur, s); !Clear(a, s, Places(limit, a + s, later)[k], later[k])
  {
    var last := if limit + 2 >= 2 * most + s then most else ReuseLimit(limit, most, s);
    cur := last - 1;
    k := ReuseLimit(limit, most, s) - last;
    later := Ones(k) + [last];
    OnesThen(limit, cur + s, k, last);
  }

  /** In this series of requests, if it has this total, request `k` does not overlap the buffer. */
  ghost predicate Spares(limit: nat, most: nat, s: nat, total: nat, cur: nat, later: seq<nat>, k: nat) {
    k < |later| && (forall i :: 0 <= i < |later| ==> later[i] <= most) && Sum(later) <= total ==>
      Clear(Place(limit, cur, s), s, Places(limit, Place(limit, cur, s) + s, later)[k], later[k])
  }

  /** The exact condition of reuse: no series of requests of this total overwrites a buffer if and only if the
      total is below the limit. */
  lemma ReuseExactly(limit: nat, most: nat, s: nat, total: nat)
    requires 1 <= s <= most <= limit
    ensures (forall cur: nat, later: seq<nat>, k: nat :: Spares(limit, most, s, total, cur, later, k))
            <==> total < ReuseLimit(limit, most, s)
  {
    if total < ReuseLimit(limit, most, s) {
      forall cur: nat, later: seq<nat>, k: nat ensures Spares(limit, most, s, total, cur, later, k) {
        SparesBelow(limit, most, s, total, cur, later, k);
      }
    } else {
      var cur, later, k := ReuseBoundIsTight(limit, most, s);
      assert !Spares(limit, most, s, total, cur, later, k);
    }
  }

  lemma SparesBelow(limit: nat, most: nat, s: nat, total: nat, cur: nat, later: seq<nat>, k: nat)
    requires s <= most <= limit && total < ReuseLimit(limit, most, s)
    ensures Spares(limit, most, s, total, cur, later, k)
  {
    if k < |later| && (forall i :: 0 <= i < |later| ==> later[i] <= most) && Sum(later) <= total {
      ReuseBound(limit, most, cur, s, later, k);
    }
  }

  /** RDMABufferAllocator: addresses are relative to the start of the thread's region. */
  class BufferAllocator {
    const limit: nat
    var cur: nat

    constructor (limit: nat)
      ensures this.limit == limit && cur == 0
    {
      this.limit, cur := limit, 0;
    }

    method Alloc(size: nat) returns (at: nat)
      modifies this
      ensures at == Place(limit, old(cur), size) && cur == at + size
      ensures at + size <= limit <==> size <= limit
    {
      if cur + size > limit {
        cur := 0;
      }
      at := cur;
      cur := cur + size;
    }
  }

  // ---------- log space ----------

  const LOG_BUFFER_SIZE: nat := 1024 * 1024 * 1024

  /** Log space of one thread. */
  function Share(threads: nat): (n: nat)
    requires threads >= 1
  {
    LOG_BUFFER_SIZE / threads
  }

  lemma Scale(a: nat, b: nat, x: nat)
    requires a <= b
    ensures a * x <= b * x
  {
  }

  /** Shares of different threads do not meet, and all lie inside the log buffer. */
  lemma SharesApart(threads: nat, t: nat, u: nat)
    requires t < u < threads
    ensures (t + 1) * Share(threads) <= u * Share(threads) && (u + 1) * Share(threads) <= LOG_BUFFER_SIZE
  {
    Scale(t + 1, u, Share(threads));
    Scale(u + 1, threads, Share(threads));
    assert threads * Share(threads) <= LOG_BUFFER_SIZE;
  }

  /** LogOffsetAllocator: one bump pointer per memory node, all nodes laid out alike. */
  class LogAllocator {
    const tid: nat
    const threads: nat
    const starts: array<nat>
    const ends: array<nat>
    const current: array<nat>

    ghost predicate Valid()
      reads this, starts, ends
    {
      && tid < threads && starts.Length == ends.Length == current.Length
      && starts != ends && starts != current && ends != current
      && forall i :: 0 <= i < starts.Length ==>
           starts[i] == tid * Share(threads) && ends[i] == (tid + 1) * Share(threads)
    }

    constructor (tid: nat, threads: nat, nodes: nat)
      requires tid < threads
      ensures Valid() && this.tid == tid && this.threads == threads && starts.Length == nodes
      ensures fresh(starts) && fresh(ends) && fresh(current) && forall i :: 0 <= i < nodes ==> current[i] == 0
    {
      this.tid, this.threads := tid, threads;
      starts, ends, current := new nat[nodes](i => 0), new nat[nodes](i => 0), new nat[nodes](i => 0);
      new;
      var per := LOG_BUFFER_SIZE / threads;
      for i := 0 to nodes
        invariant forall k :: 0 <= k < i ==> starts[k] == tid * per && ends[k] == (tid + 1) * per && current[k] == 0
      {
        starts[i] := tid * per;
        ends[i] := (tid + 1) * per;
        current[i] := 0;
      }
    }

    /** GetNextLogOffset: an entry stays inside the share of the thread exactly if it is no larger. */
    method Next(node: nat, size: nat) returns (offset: nat)
      requires Valid() && node < starts.Length
      modifies current
      ensures Valid()
      ensures offset == tid * Share(threads) + Place(Share(threads), old(current[node]), size)
      ensures current[..] == old(current[..])[node := Place(Share(threads), old(current[node]), size) + size]
      ensures tid * Share(threads) <= offset
      ensures offset + size <= (tid + 1) * Share(threads) <==> size <= Share(threads)
    {
      assert (tid + 1) * Share(threads) == tid * Share(threads) + Share(threads);
      if starts[node] + current[node] + size > ends[node] {
        current[node] := 0;
      }
      offset := starts[node] + current[node];
      current[node] := current[node] + size;
    }
  }

  /** Log entries of different threads never overlap on any memory node. */
  lemma LogsNeverOverlap(threads: nat, t: nat, u: nat, a: nat, s: nat, b: nat, r: nat)
    requires t < threads && u < threads && t != u
    requires t * Share(threads) <= a && a + s <= (t + 1) * Share(threads)
    requires u * Share(threads) <= b && b + r <= (u + 1) * Share(threads)
    ensures Clear(a, s, b, r) && a + s <= LOG_BUFFER_SIZE
  {
    if t < u {
      SharesApart(threads, t, u);
    } else {
      SharesApart(threads, u, t);
    }
  }
}
