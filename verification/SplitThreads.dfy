/** Any number of threads working on the split-ordered table.  Every step is one atomic access of the
    source: a load, a store, a compare-and-swap or a counter update. */
module SplitThreads {
  import opened SplitOrder
  import opened SplitList

  // ---------- the order the table relies on ----------

  /** Labels of items and of bucket heads, and the bucket of a key in a table of 2^power buckets. */
  datatype Order = Order(item: int -> Label, dummy: nat -> Label, bucket: (int, nat) -> nat)

  ghost predicate ItemLaw(ord: Order, k: int) {
    ord.item(k).Item? && ord.item(k).key == k && Proper(ord.item(k))
  }

  ghost predicate DummyLaw(ord: Order, b: nat) {
    b < TopBit() ==> ord.dummy(b).Dummy? && Proper(ord.dummy(b))
  }

  ghost predicate StartLaw(ord: Order, k: int, power: nat) {
    power <= LowerBits() ==> ord.bucket(k, power) < TopBit() && Less(ord.dummy(ord.bucket(k, power)), ord.item(k))
  }

  ghost predicate ParentLaw(ord: Order, b: nat) {
    1 <= b < TopBit() ==> Less(ord.dummy(Parent(b)), ord.dummy(b))
  }

  ghost predicate Laws(ord: Order) {
    && (forall k {:trigger ItemLaw(ord, k)} :: ItemLaw(ord, k))
    && (forall b {:trigger DummyLaw(ord, b)} :: DummyLaw(ord, b))
    && (forall k, p {:trigger StartLaw(ord, k, p)} :: StartLaw(ord, k, p))
    && (forall b {:trigger ParentLaw(ord, b)} :: ParentLaw(ord, b))
  }

  function Source(hash: int -> Word): (ord: Order) {
    Order(k => ItemLabel(hash, k), (b: nat) => if b < TopBit() then DummyLabel(b) else Dummy(0),
          (k, p) => BucketOf(hash(k), p))
  }

  /** The reversed hashes of the source obey the laws. */
  lemma SourceLaws(hash: int -> Word)
    ensures Laws(Source(hash))
  {
    var ord := Source(hash);
    forall k ensures ItemLaw(ord, k) {
      LabelsProper(hash, k, 0);
    }
    forall b: nat ensures DummyLaw(ord, b) {
      if b < TopBit() {
        LabelsProper(hash, 0, b);
      }
    }
    forall k, p: nat ensures StartLaw(ord, k, p) {
      if p <= LowerBits() {
        DummyBeforeItem(hash(k), p);
      }
    }
    forall b: nat ensures ParentLaw(ord, b) {
      if 1 <= b < TopBit() {
        ParentBeforeChild(b);
      }
    }
  }

  // ---------- threads ----------

  datatype Op = Insert(key: int, val: int) | Delete(key: int) | Find(key: int)

  /** What a list search is for: the dummy of bucket `b`, after which the dummies of `path` follow; the
      operation itself; or unlinking node `victim`, which this thread has marked. */
  datatype Task = MakeDummy(b: nat, path: seq<nat>) | Run | Clean(victim: nat, at: nat)

  /** Where in SearchNode a thread is; the comment names the next access. */
  datatype Phase =
    | Restart                          // load head->next
    | Check                            // load prev->next, still cur?
    | Read                             // load cur->next
    | Help(next: int)                  // cur is marked: swap prev->next from cur to next
    | Minus(next: int)                 // decrement the size
    | Settle(next: int)                // load prev->next, still cur?

  datatype Thread =
    | Idle
    | Seek(op: Op, since: nat, path: seq<nat>)                     // load the cell of the last bucket of path
    | Reload(op: Op, since: nat, path: seq<nat>, head: nat)        // the same, its parent's head known
    | Search(op: Op, since: nat, task: Task, head: nat, prev: nat, cur: int, phase: Phase)
    | Linking(op: Op, since: nat, task: Task, head: nat, prev: nat, cur: int) // swap prev->next to the new node
    | Swap(op: Op, since: nat, node: nat)                          // exchange node->value
    | Load(op: Op, since: nat, node: nat)                          // load node->value
    | Reread(op: Op, since: nat, node: nat, val: int)              // load node->value, still val?
    | Plus(op: Op, since: nat, at: nat)                            // increment the size
    | Bump(op: Op, since: nat, at: nat)                            // perhaps double the number of buckets
    | Publish(op: Op, since: nat, b: nat, path: seq<nat>, head: nat)   // store the new head in its cell
    | Peek(op: Op, since: nat, head: nat, prev: nat, node: nat)     // load node->next
    | Marking(op: Op, since: nat, head: nat, prev: nat, node: nat, next: int)    // swap node->next to marked
    | Cutting(op: Op, since: nat, at: nat, head: nat, prev: nat, node: nat, next: int)  // swap prev->next to next
    | Last(op: Op, since: nat, at: nat)                            // decrement the size, then return

  /** A finished operation, begun at moment `since` and ended at `until`.  It took effect at `at`; `late`
      says that this was not its own step but the one that deleted the node it worked on. */
  datatype Done = Done(op: Op, since: nat, at: nat, until: nat, late: bool, res: bool, val: int)

  /** `past[i]` is the key-value map before step `i`; the last entry is the present one. */
  datatype Sys = Sys(h: Heap, table: map<nat, nat>, power: nat, size: int, threads: seq<Thread>,
                     past: seq<map<int, int>>, done: seq<Done>)

  /** What the scheduler decides: which operation to begin, whether a weak swap fails for no reason,
      whether an insertion finds the table too full. */
  datatype Choice = Choice(op: Op, spurious: bool, grow: bool)

  /** The effect of one step of one thread. */
  datatype Out = Out(h: Heap, table: map<nat, nat>, power: nat, size: int, thread: Thread, done: seq<Done>)

  // ---------- steps ----------

  ghost function Now(s: Sys): (n: nat) {
    if s.past == [] then 0 else |s.past| - 1
  }

  ghost function Quiet(s: Sys, t: Thread): (o: Out) {
    Out(s.h, s.table, s.power, s.size, t, [])
  }

  ghost function Return(s: Sys, d: Done): (o: Out) {
    Out(s.h, s.table, s.power, s.size, Idle, [d])
  }

  /** The result of an operation that takes effect in this step. */
  ghost function Told(s: Sys, op: Op, since: nat, res: bool): (d: Done) {
    Done(op, since, Now(s), Now(s), false, res, 0)
  }

  /** The result of an operation that took effect in an earlier step of its own. */
  ghost function Finished(s: Sys, op: Op, since: nat, at: nat): (d: Done) {
    Done(op, since, at, Now(s), false, true, 0)
  }

  /** The result of an access to the value of `node`: if the node has been deleted in the meantime, the
      access counts as made just before that. */
  ghost function Accessed(s: Sys, op: Op, since: nat, node: Node, res: bool, val: int): (d: Done) {
    Done(op, since, if node.marked then node.died else Now(s), Now(s), node.marked, res, val)
  }

  ghost function LastOf(path: seq<nat>): (b: nat)
    requires path != []
  {
    path[|path| - 1]
  }

  ghost function Front(path: seq<nat>): (p: seq<nat>)
    requires path != []
  {
    path[..|path| - 1]
  }

  /** The head of the previous bucket is known: go on with the next bucket, or with the operation. */
  ghost function Arrive(op: Op, since: nat, path: seq<nat>, head: nat): (t: Thread) {
    if path == [] then Search(op, since, Run, head, head, -1, Restart) else Reload(op, since, path, head)
  }

  ghost function Goal(ord: Order, op: Op, task: Task): (a: Label) {
    if task.MakeDummy? then ord.dummy(task.b) else ord.item(op.key)
  }

  ghost function Again(t: Thread, task: Task): (t': Thread)
    requires t.Search? || t.Linking? || t.Peek? || t.Marking? || t.Cutting?
  {
    Search(t.op, t.since, task, t.head, t.head, -1, Restart)
  }

  ghost function SeekStep(s: Sys, t: Thread): (o: Out)
    requires t.Seek? && t.path != []
  {
    var b := LastOf(t.path);
    if b in s.table then Quiet(s, Arrive(t.op, t.since, Front(t.path), s.table[b]))
    else if b == 0 then Quiet(s, t)
    else Quiet(s, Seek(t.op, t.since, t.path + [Parent(b)]))
  }

  ghost function ReloadStep(s: Sys, t: Thread): (o: Out)
    requires t.Reload? && t.path != []
  {
    var b := LastOf(t.path);
    if b in s.table then Quiet(s, Arrive(t.op, t.since, Front(t.path), s.table[b]))
    else Quiet(s, Search(t.op, t.since, MakeDummy(b, Front(t.path)), t.head, t.head, -1, Restart))
  }

  /** SearchNode returns. */
  ghost function SearchEnd(s: Sys, t: Thread, found: bool): (o: Out)
    requires t.Search?
  {
    match t.task
    case MakeDummy(b, path) =>
      if found && t.cur >= 0 then Quiet(s, Arrive(t.op, t.since, path, t.cur))
      else Quiet(s, Linking(t.op, t.since, t.task, t.head, t.prev, t.cur))
    case Clean(victim, at) => Return(s, Finished(s, t.op, t.since, at))
    case Run =>
      if found && t.cur >= 0 then Quiet(s, SearchFound(t)) else SearchMissed(s, t)
  }

  ghost function SearchFound(t: Thread): (t': Thread)
    requires t.Search? && t.cur >= 0
  {
    match t.op
    case Insert(_, _) => Swap(t.op, t.since, t.cur)
    case Delete(_) => Peek(t.op, t.since, t.head, t.prev, t.cur)
    case Find(_) => Load(t.op, t.since, t.cur)
  }

  ghost function SearchMissed(s: Sys, t: Thread): (o: Out)
    requires t.Search?
  {
    if t.op.Insert? then Quiet(s, Linking(t.op, t.since, t.task, t.head, t.prev, t.cur))
    else Return(s, Told(s, t.op, t.since, false))
  }

  ghost function SearchStep(ord: Order, s: Sys, t: Thread): (o: Out)
    requires t.Search? && t.head < |s.h.nodes| && t.prev < |s.h.nodes| && t.cur < |s.h.nodes|
    requires t.phase.Check? || t.phase.Restart? || t.cur >= 0
  {
    match t.phase
    case Restart => Quiet(s, t.(prev := t.head, cur := s.h.nodes[t.head].next, phase := Check))
    case Check =>
      if !Sees(s.h, t.prev, t.cur) then Quiet(s, t.(phase := Restart))
      else if t.cur < 0 then SearchEnd(s, t, false)
      else Quiet(s, t.(phase := Read))
    case Read =>
      var n := s.h.nodes[t.cur];
      Quiet(s, t.(phase := if n.marked then Help(n.next) else Settle(n.next)))
    case Help(next) =>
      if !Sees(s.h, t.prev, t.cur) then Quiet(s, t.(phase := Restart))
      else Quiet(s, t.(phase := Minus(next))).(h := Unlink(s.h, t.prev, t.cur, next))
    case Minus(next) => Quiet(s, t.(cur := next, phase := Check)).(size := s.size - 1)
    case Settle(next) =>
      var goal, a := Goal(ord, t.op, t.task), s.h.nodes[t.cur].tag;
      if !Sees(s.h, t.prev, t.cur) then Quiet(s, t.(phase := Restart))
      else if Less(a, goal) then Quiet(s, t.(prev := t.cur, cur := next, phase := Check))
      else SearchEnd(s, t, !Less(goal, a))
  }

  /** The value of the node about to be linked; a dummy has none. */
  ghost function NewVal(op: Op, task: Task): (v: int) {
    if op.Insert? && !task.MakeDummy? then op.val else 0
  }

  ghost function LinkStep(ord: Order, s: Sys, t: Thread, c: Choice): (o: Out)
    requires t.Linking? && t.prev < |s.h.nodes|
  {
    if c.spurious || !Sees(s.h, t.prev, t.cur) then Quiet(s, Again(t, t.task))
    else
      var t' := if t.task.MakeDummy? then Publish(t.op, t.since, t.task.b, t.task.path, |s.h.nodes|)
        else Plus(t.op, t.since, Now(s));
      Quiet(s, t').(h := Link(s.h, t.prev, t.cur, Goal(ord, t.op, t.task), NewVal(t.op, t.task)))
  }

  ghost function MarkStep(s: Sys, t: Thread, c: Choice): (o: Out)
    requires t.Marking? && t.node < |s.h.nodes|
  {
    if c.spurious || !Sees(s.h, t.node, t.next) then Quiet(s, Again(t, Run))
    else Quiet(s, Cutting(t.op, t.since, Now(s), t.head, t.prev, t.node, t.next)).(h := Mark(s.h, t.node, Now(s)))
  }

  ghost function CutStep(s: Sys, t: Thread): (o: Out)
    requires t.Cutting? && t.prev < |s.h.nodes|
  {
    if !Sees(s.h, t.prev, t.node) then Quiet(s, Again(t, Clean(t.node, t.at)))
    else Quiet(s, Last(t.op, t.since, t.at)).(h := Unlink(s.h, t.prev, t.node, t.next))
  }

  ghost function ValueStep(s: Sys, t: Thread): (o: Out)
    requires (t.Swap? && t.op.Insert?) || t.Load? || t.Reread?
    requires t.node < |s.h.nodes|
  {
    var n := s.h.nodes[t.node];
    if t.Swap? then Return(s, Accessed(s, t.op, t.since, n, false, 0)).(h := Put(s.h, t.node, t.op.val))
    else if t.Load? then Quiet(s, Reread(t.op, t.since, t.node, n.val))
    else if n.val != t.val then Quiet(s, Load(t.op, t.since, t.node))
    else Return(s, Accessed(s, t.op, t.since, n, true, n.val))
  }

  ghost function Act(ord: Order, s: Sys, t: Thread, c: Choice): (o: Out)
    requires Ready(s.h, t)
  {
    match t
    case Idle => Quiet(s, Seek(c.op, Now(s), [ord.bucket(c.op.key, s.power)]))
    case Seek(_, _, _) => SeekStep(s, t)
    case Reload(_, _, _, _) => ReloadStep(s, t)
    case Search(_, _, _, _, _, _, _) => SearchStep(ord, s, t)
    case Linking(_, _, _, _, _, _) => LinkStep(ord, s, t, c)
    case Swap(_, _, _) => ValueStep(s, t)
    case Load(_, _, _) => ValueStep(s, t)
    case Reread(_, _, _, _) => ValueStep(s, t)
    case Plus(op, since, at) => Quiet(s, Bump(op, since, at)).(size := s.size + 1)
    case Bump(op, since, at) =>
      Return(s, Finished(s, op, since, at))
        .(power := if c.grow && s.power < LowerBits() then s.power + 1 else s.power)
    case Publish(op, since, b, path, head) => Quiet(s, Arrive(op, since, path, head)).(table := s.table[b := head])
    case Peek(op, since, head, prev, cur) =>
      var n := s.h.nodes[cur];
      if n.marked then Quiet(s, Again(t, Run)) else Quiet(s, Marking(op, since, head, prev, cur, n.next))
    case Marking(_, _, _, _, _, _) => MarkStep(s, t, c)
    case Cutting(_, _, _, _, _, _, _) => CutStep(s, t)
    case Last(op, since, at) => Return(s, Finished(s, op, since, at)).(size := s.size - 1)
  }

  /** The registers of a thread refer to existing nodes. */
  ghost predicate Ready(h: Heap, t: Thread) {
    match t
    case Idle => true
    case Seek(_, _, path) => path != []
    case Reload(_, _, path, _) => path != []
    case Search(_, _, _, head, prev, cur, phase) =>
      head < |h.nodes| && prev < |h.nodes| && cur < |h.nodes| && (phase.Check? || phase.Restart? || cur >= 0)
    case Linking(_, _, _, head, prev, cur) => head < |h.nodes| && prev < |h.nodes| && cur < |h.nodes|
    case Swap(op, _, node) => op.Insert? && node < |h.nodes|
    case Load(_, _, node) => node < |h.nodes|
    case Reread(_, _, node, _) => node < |h.nodes|
    case Plus(_, _, _) => true
    case Bump(_, _, _) => true
    case Publish(_, _, _, _, _) => true
    case Peek(_, _, head, prev, cur) => head < |h.nodes| && prev < |h.nodes| && cur < |h.nodes|
    case Marking(_, _, head, prev, cur, _) => head < |h.nodes| && prev < |h.nodes| && cur < |h.nodes|
    case Cutting(_, _, _, head, prev, cur, _) => head < |h.nodes| && prev < |h.nodes| && cur < |h.nodes|
    case Last(_, _, _) => true
  }

  ghost function Apply(s: Sys, tid: nat, o: Out): (s': Sys)
    requires tid < |s.threads|
  {
    Sys(o.h, o.table, o.power, o.size, s.threads[tid := o.thread], s.past + [Contents(o.h)], s.done + o.done)
  }

  /** One step of thread `tid`. */
  ghost function Step(ord: Order, s: Sys, tid: nat, c: Choice): (s': Sys) {
    if tid < |s.threads| && Ready(s.h, s.threads[tid]) then Apply(s, tid, Act(ord, s, s.threads[tid], c)) else s
  }

  // ---------- invariant ----------

  /** Bucket `i + 1` of the path is the parent of bucket `i`. */
  ghost predicate Descends(path: seq<nat>, i: nat) {
    i + 1 < |path| ==> path[i] >= 1 && path[i + 1] == Parent(path[i])
  }

  /** A chain of parents that begins at a bucket from which key `k` can be reached. */
  ghost predicate PathOk(ord: Order, k: int, path: seq<nat>) {
    && (path != [] ==> path[0] < TopBit() && Less(ord.dummy(path[0]), ord.item(k)))
    && (forall i :: 0 <= i < |path| ==> path[i] < TopBit())
    && (forall i {:trigger Descends(path, i)} :: 0 <= i < |path| ==> Descends(path, i))
  }

  /** What the next search looks for. */
  ghost function Ahead(ord: Order, k: int, path: seq<nat>): (a: Label) {
    if path == [] then ord.item(k) else ord.dummy(LastOf(path))
  }

  ghost predicate HeadOk(h: Heap, head: nat, goal: Label) {
    head < |h.nodes| && h.nodes[head].tag.Dummy? && Less(h.nodes[head].tag, goal)
  }

  /** Node `n` was not deleted before moment `since`. */
  ghost predicate AliveSince(h: Heap, n: nat, since: nat) {
    n < |h.nodes| && (h.nodes[n].marked ==> h.nodes[n].died >= since)
  }

  /** A node of the goal's label that the operation has seen unmarked. */
  ghost predicate Met(h: Heap, n: nat, goal: Label, since: nat) {
    AliveSince(h, n, since) && h.nodes[n].tag == goal
  }

  ghost predicate Marked(h: Heap, n: nat, goal: Label) {
    n < |h.nodes| && h.nodes[n].marked && h.nodes[n].tag == goal
  }

  ghost predicate TaskOk(ord: Order, h: Heap, op: Op, task: Task) {
    match task
    case MakeDummy(b, path) => b < TopBit() && PathOk(ord, op.key, path) && Less(ord.dummy(b), Ahead(ord, op.key, path))
    case Run => true
    case Clean(victim, at) => op.Delete? && Marked(h, victim, ord.item(op.key))
  }

  ghost predicate PhaseOk(h: Heap, since: nat, task: Task, cur: int, phase: Phase) {
    match phase
    case Restart => true
    case Check => true
    case Read => cur >= 0
    case Help(next) => cur >= 0 && cur < |h.nodes| && h.nodes[cur].marked && h.nodes[cur].next == next
    case Minus(next) => cur >= 0 && -1 <= next < |h.nodes|
    case Settle(next) =>
      cur >= 0 && -1 <= next < |h.nodes| && AliveSince(h, cur, since) && (task.Clean? ==> cur != task.victim)
  }

  ghost predicate ThreadOk(ord: Order, h: Heap, now: nat, t: Thread) {
    true == match t
    case Idle => true
    case Seek(op, since, path) => since <= now && path != [] && PathOk(ord, op.key, path)
    case Reload(op, since, path, head) =>
      since <= now && path != [] && PathOk(ord, op.key, path) && HeadOk(h, head, ord.dummy(LastOf(path)))
    case Search(op, since, task, head, prev, cur, phase) =>
      && since <= now && HeadOk(h, head, Goal(ord, op, task)) && TaskOk(ord, h, op, task)
      && prev < |h.nodes| && Less(h.nodes[prev].tag, Goal(ord, op, task)) && -1 <= cur < |h.nodes|
      && PhaseOk(h, since, task, cur, phase)
    case Linking(op, since, task, head, prev, cur) =>
      && since <= now && HeadOk(h, head, Goal(ord, op, task)) && TaskOk(ord, h, op, task)
      && !task.Clean? && (task.Run? ==> op.Insert?)
      && prev < |h.nodes| && Less(h.nodes[prev].tag, Goal(ord, op, task))
      && -1 <= cur < |h.nodes| && (cur >= 0 ==> Less(Goal(ord, op, task), h.nodes[cur].tag))
    case Swap(op, since, node) => op.Insert? && since <= now && Met(h, node, ord.item(op.key), since)
    case Load(op, since, node) => op.Find? && since <= now && Met(h, node, ord.item(op.key), since)
    case Reread(op, since, node, _) => op.Find? && since <= now && Met(h, node, ord.item(op.key), since)
    case Plus(op, since, at) => op.Insert? && since <= at
    case Bump(op, since, at) => op.Insert? && since <= at
    case Publish(op, since, b, path, head) =>
      && since <= now && b < TopBit() && PathOk(ord, op.key, path)
      && HeadOk(h, head, Ahead(ord, op.key, path)) && h.nodes[head].tag == ord.dummy(b)
    case Peek(op, since, head, prev, node) =>
      && op.Delete? && since <= now && HeadOk(h, head, ord.item(op.key))
      && prev < |h.nodes| && Less(h.nodes[prev].tag, ord.item(op.key))
      && node < |h.nodes| && h.nodes[node].tag == ord.item(op.key)
    case Marking(op, since, head, prev, node, next) =>
      && op.Delete? && since <= now && HeadOk(h, head, ord.item(op.key)) && -1 <= next < |h.nodes|
      && prev < |h.nodes| && Less(h.nodes[prev].tag, ord.item(op.key))
      && node < |h.nodes| && h.nodes[node].tag == ord.item(op.key)
    case Cutting(op, since, at, head, prev, node, next) =>
      && op.Delete? && since <= now && HeadOk(h, head, ord.item(op.key))
      && prev < |h.nodes| && Less(h.nodes[prev].tag, ord.item(op.key))
      && Marked(h, node, ord.item(op.key)) && h.nodes[node].next == next
    case Last(op, since, at) => op.Delete?
  }

  /** Links and unlinks that the size does not show yet. */
  ghost function Debt(t: Thread): (d: int) {
    if t.Plus? then 1 else if t.Last? || (t.Search? && t.phase.Minus?) then -1 else 0
  }

  ghost function Debts(ts: seq<Thread>): (d: int) {
    if ts == [] then 0 else Debt(ts[0]) + Debts(ts[1..])
  }

  /** The thread is bound to get node `n` out of the list before it returns. */
  ghost predicate Owns(t: Thread, n: nat) {
    (t.Cutting? && t.node == n) || (t.Search? && t.task.Clean? && t.task.victim == n)
  }

  ghost predicate Owned(ts: seq<Thread>, n: nat) {
    exists i :: 0 <= i < |ts| && Owns(ts[i], n)
  }

  ghost predicate TableOk(ord: Order, h: Heap, table: map<nat, nat>) {
    && 0 in table
    && forall b :: b in table ==> b < TopBit() && table[b] < |h.nodes| && h.nodes[table[b]].tag == ord.dummy(b)
  }

  ghost predicate Inv(ord: Order, s: Sys) {
    && Laws(ord) && Ok(s.h) && Keyed(ord.item, s.h) && TableOk(ord, s.h, s.table) && s.power <= LowerBits()
    && s.past != []
    && (forall i :: 0 <= i < |s.threads| ==> ThreadOk(ord, s.h, Now(s), s.threads[i]))
    && s.size + Debts(s.threads) == Items(s.h, s.h.list)
    && (forall n :: n in s.h.list && s.h.nodes[n].marked ==> Owned(s.threads, n))
  }

  // ---------- what one step owes the rest ----------

  /** What a step owes the shared state and the other threads. */
  ghost predicate SharedOk(ord: Order, s: Sys, t: Thread, o: Out) {
    true == (
      && Ok(o.h) && Keyed(ord.item, o.h) && Grows(s.h, o.h, Now(s)) && NoReturn(s.h, o.h)
      && TableOk(ord, o.h, o.table) && o.power <= LowerBits()
      && o.size + Debt(o.thread) - Items(o.h, o.h.list) == s.size + Debt(t) - Items(s.h, s.h.list)
      && (forall n :: n in o.h.list && o.h.nodes[n].marked ==>
            Owns(o.thread, n) || (n in s.h.list && n < |s.h.nodes| && s.h.nodes[n].marked && !Owns(t, n)))
    )
  }

  ghost predicate OutOk(ord: Order, s: Sys, t: Thread, o: Out) {
    true == (
      SharedOk(ord, s, t, o) && ThreadOk(ord, o.h, Now(s) + 1, o.thread)
    )
  }

  lemma PathStays(ord: Order, h: Heap, h': Heap, now: nat, t: Thread)
    requires Grows(h, h', now) && ThreadOk(ord, h, now, t)
    ensures ThreadOk(ord, h', now + 1, t)
  {
    match t
    case Search(op, since, task, _, _, cur, phase) =>
      TaskStays(ord, h, h', now, op, task);
      PhaseStays(h, h', now, since, task, cur, phase);
    case Linking(op, _, task, _, _, _) => TaskStays(ord, h, h', now, op, task);
    case _ =>
  }

  lemma TaskStays(ord: Order, h: Heap, h': Heap, now: nat, op: Op, task: Task)
    requires Grows(h, h', now) && TaskOk(ord, h, op, task)
    ensures TaskOk(ord, h', op, task)
  {
  }

  lemma PhaseStays(h: Heap, h': Heap, now: nat, since: nat, task: Task, cur: int, phase: Phase)
    requires Grows(h, h', now) && since <= now && PhaseOk(h, since, task, cur, phase)
    ensures PhaseOk(h', since, task, cur, phase)
  {
  }

  lemma {:induction false} DebtsUpdate(ts: seq<Thread>, i: nat, t: Thread)
    requires i < |ts|
    ensures Debts(ts[i := t]) == Debts(ts) - Debt(ts[i]) + Debt(t)
  {
    if i == 0 {
      assert ts[i := t][1..] == ts[1..];
    } else {
      assert ts[i := t][1..] == ts[1..][i - 1 := t];
      DebtsUpdate(ts[1..], i - 1, t);
    }
  }

  lemma OwnedStays(ord: Order, s: Sys, tid: nat, o: Out, n: nat)
    requires Inv(ord, s) && tid < |s.threads| && OutOk(ord, s, s.threads[tid], o)
    requires n in o.h.list && o.h.nodes[n].marked
    ensures Owned(s.threads[tid := o.thread], n)
  {
    var ts := s.threads[tid := o.thread];
    if Owns(o.thread, n) {
      assert Owns(ts[tid], n);
    } else {
      var i :| 0 <= i < |s.threads| && Owns(s.threads[i], n);
      assert Owns(ts[i], n);
    }
  }

  lemma ApplyInv(ord: Order, s: Sys, tid: nat, o: Out)
    requires Inv(ord, s) && tid < |s.threads| && OutOk(ord, s, s.threads[tid], o)
    ensures Inv(ord, Apply(s, tid, o))
  {
    var s' := Apply(s, tid, o);
    forall i | 0 <= i < |s'.threads| ensures ThreadOk(ord, s'.h, Now(s'), s'.threads[i]) {
      if i != tid {
        PathStays(ord, s.h, o.h, Now(s), s.threads[i]);
      }
    }
    DebtsUpdate(s.threads, tid, o.thread);
    forall n | n in s'.h.list && s'.h.nodes[n].marked ensures Owned(s'.threads, n) {
      OwnedStays(ord, s, tid, o, n);
    }
  }

  // ---------- steps that leave the list alone ----------

  lemma GrowsNot(h: Heap, now: nat)
    ensures Grows(h, h, now) && NoReturn(h, h)
  {
  }

  /** A step that changes neither list nor table. */
  lemma StillOk(ord: Order, s: Sys, t: Thread, o: Out)
    requires Inv(ord, s) && ThreadOk(ord, s.h, Now(s), t) && o.h == s.h && o.table == s.table && o.power <= LowerBits()
    requires ThreadOk(ord, s.h, Now(s), o.thread) && o.size + Debt(o.thread) == s.size + Debt(t)
    requires forall n :: n in s.h.list && Owns(t, n) ==> Owns(o.thread, n)
    ensures OutOk(ord, s, t, o)
  {
    GrowsNot(s.h, Now(s));
    PathStays(ord, s.h, s.h, Now(s), o.thread);
  }

  lemma FrontOk(ord: Order, k: int, path: seq<nat>)
    requires Laws(ord) && path != [] && PathOk(ord, k, path)
    ensures PathOk(ord, k, Front(path)) && Less(ord.dummy(LastOf(path)), Ahead(ord, k, Front(path)))
  {
    var p := Front(path);
    forall i | 0 <= i < |p| ensures Descends(p, i) {
      assert Descends(path, i);
    }
    if p != [] {
      assert Descends(path, |p| - 1);
      assert ParentLaw(ord, LastOf(p));
    }
  }

  /** Bucket initialisation ends: the indices it goes through strictly decrease. */
  lemma {:induction false} PathBounded(ord: Order, k: int, path: seq<nat>)
    requires path != [] && PathOk(ord, k, path)
    ensures LastOf(path) + |path| <= path[0] + 1
    decreases |path|
  {
    var p := Front(path);
    if p != [] {
      forall i | 0 <= i < |p| ensures Descends(p, i) {
        assert Descends(path, i);
      }
      PathBounded(ord, k, p);
      assert Descends(path, |p| - 1);
    }
  }

  lemma ArriveOk(ord: Order, s: Sys, op: Op, since: nat, path: seq<nat>, head: nat)
    requires since <= Now(s) && PathOk(ord, op.key, path) && HeadOk(s.h, head, Ahead(ord, op.key, path))
    ensures ThreadOk(ord, s.h, Now(s), Arrive(op, since, path, head))
  {
  }

  /** The cell of the last bucket of the path is filled. */
  lemma FromTable(ord: Order, s: Sys, op: Op, since: nat, path: seq<nat>)
    requires Inv(ord, s) && since <= Now(s) && path != [] && PathOk(ord, op.key, path) && LastOf(path) in s.table
    ensures ThreadOk(ord, s.h, Now(s), Arrive(op, since, Front(path), s.table[LastOf(path)]))
  {
    FrontOk(ord, op.key, path);
    assert DummyLaw(ord, LastOf(path));
    ArriveOk(ord, s, op, since, Front(path), s.table[LastOf(path)]);
  }

  lemma BeginOk(ord: Order, s: Sys, op: Op)
    requires Inv(ord, s)
    ensures OutOk(ord, s, Idle, Quiet(s, Seek(op, Now(s), [ord.bucket(op.key, s.power)])))
  {
    var path := [ord.bucket(op.key, s.power)];
    assert StartLaw(ord, op.key, s.power);
    assert Descends(path, 0);
    StillOk(ord, s, Idle, Quiet(s, Seek(op, Now(s), path)));
  }

  lemma SeekOk(ord: Order, s: Sys, t: Thread)
    requires Inv(ord, s) && t.Seek? && ThreadOk(ord, s.h, Now(s), t)
    ensures OutOk(ord, s, t, SeekStep(s, t))
  {
    var b := LastOf(t.path);
    if b in s.table {
      FromTable(ord, s, t.op, t.since, t.path);
    } else if b != 0 {
      PathGrows(ord, t.op.key, t.path);
    }
    StillOk(ord, s, t, SeekStep(s, t));
  }

  lemma PathGrows(ord: Order, k: int, path: seq<nat>)
    requires path != [] && PathOk(ord, k, path) && LastOf(path) != 0
    ensures PathOk(ord, k, path + [Parent(LastOf(path))])
  {
    var path' := path + [Parent(LastOf(path))];
    forall i | 0 <= i < |path'| ensures Descends(path', i) {
      assert i < |path| ==> Descends(path, i);
    }
  }

  lemma ReloadOk(ord: Order, s: Sys, t: Thread)
    requires Inv(ord, s) && t.Reload? && ThreadOk(ord, s.h, Now(s), t)
    ensures OutOk(ord, s, t, ReloadStep(s, t))
  {
    FrontOk(ord, t.op.key, t.path);
    if LastOf(t.path) in s.table {
      FromTable(ord, s, t.op, t.since, t.path);
    }
    StillOk(ord, s, t, ReloadStep(s, t));
  }

  lemma PublishOk(ord: Order, s: Sys, t: Thread)
    requires Inv(ord, s) && t.Publish? && ThreadOk(ord, s.h, Now(s), t)
    ensures OutOk(ord, s, t, Quiet(s, Arrive(t.op, t.since, t.path, t.head)).(table := s.table[t.b := t.head]))
  {
    var o := Quiet(s, Arrive(t.op, t.since, t.path, t.head));
    ArriveOk(ord, s, t.op, t.since, t.path, t.head);
    StillOk(ord, s, t, o);
    Published(ord, s, t, o, s.table[t.b := t.head]);
  }

  lemma Published(ord: Order, s: Sys, t: Thread, o: Out, table: map<nat, nat>)
    requires OutOk(ord, s, t, o) && TableOk(ord, o.h, table)
    ensures OutOk(ord, s, t, o.(table := table))
  {
  }

  // ---------- searching ----------

  /** With `cur` right behind `prev` and not before the goal, nothing else in the list has the goal's
      label. */
  lemma OnlyHere(ord: Order, s: Sys, t: Thread, n: nat)
    requires Inv(ord, s) && t.Search? && ThreadOk(ord, s.h, Now(s), t) && Sees(s.h, t.prev, t.cur)
    requires t.cur >= 0 ==> !Less(s.h.nodes[t.cur].tag, Goal(ord, t.op, t.task))
    requires n in s.h.list && s.h.nodes[n].tag == Goal(ord, t.op, t.task)
    ensures n == t.cur
  {
    assert ItemLaw(ord, t.op.key);
    if t.task.MakeDummy? {
      assert DummyLaw(ord, t.task.b);
    }
    BetweenNeighbours(s.h, t.prev, t.cur, Goal(ord, t.op, t.task), n);
  }

  /** Not found: at this moment the key is not a member. */
  lemma AbsentNow(ord: Order, s: Sys, t: Thread)
    requires Inv(ord, s) && t.Search? && ThreadOk(ord, s.h, Now(s), t) && Sees(s.h, t.prev, t.cur) && !t.task.MakeDummy?
    requires t.cur >= 0 ==> Less(ord.item(t.op.key), s.h.nodes[t.cur].tag)
    ensures t.op.key !in Contents(s.h)
  {
    if t.op.key in Members(s.h) {
      var n := MemberIsLive(s.h, t.op.key);
      assert ItemLaw(ord, t.op.key);
      if t.cur >= 0 {
        LessIsOrder(ord.item(t.op.key), s.h.nodes[t.cur].tag, ord.item(t.op.key));
      }
      OnlyHere(ord, s, t, n);
      assert false;
    }
  }

  /** The clean-up search ends: the marked node is no longer in the list. */
  lemma VictimGone(ord: Order, s: Sys, t: Thread)
    requires Inv(ord, s) && t.Search? && t.task.Clean? && ThreadOk(ord, s.h, Now(s), t) && Sees(s.h, t.prev, t.cur)
    requires t.cur >= 0 ==> !Less(s.h.nodes[t.cur].tag, ord.item(t.op.key)) && t.cur != t.task.victim
    ensures t.task.victim !in s.h.list
  {
    if t.task.victim in s.h.list {
      OnlyHere(ord, s, t, t.task.victim);
      assert false;
    }
  }

  ghost predicate EndsWell(ord: Order, s: Sys, t: Thread, found: bool) {
    true == (
      && t.Search? && (t.phase.Check? || t.phase.Settle?) && ThreadOk(ord, s.h, Now(s), t) && Sees(s.h, t.prev, t.cur)
      && if t.cur < 0 then !found
         else
           && !Less(s.h.nodes[t.cur].tag, Goal(ord, t.op, t.task))
           && (found <==> s.h.nodes[t.cur].tag == Goal(ord, t.op, t.task))
           && (!found ==> Less(Goal(ord, t.op, t.task), s.h.nodes[t.cur].tag))
           && (found ==> AliveSince(s.h, t.cur, t.since))
           && (t.task.Clean? ==> t.cur != t.task.victim)
    )
  }

  lemma SearchEndDummy(ord: Order, s: Sys, t: Thread, found: bool)
    requires Inv(ord, s) && EndsWell(ord, s, t, found) && t.task.MakeDummy?
    ensures OutOk(ord, s, t, SearchEnd(s, t, found))
  {
    assert DummyLaw(ord, t.task.b);
    if found {
      ArriveOk(ord, s, t.op, t.since, t.task.path, t.cur);
    }
    StillOk(ord, s, t, SearchEnd(s, t, found));
  }

  lemma SearchEndClean(ord: Order, s: Sys, t: Thread, found: bool)
    requires Inv(ord, s) && EndsWell(ord, s, t, found) && t.task.Clean?
    ensures OutOk(ord, s, t, SearchEnd(s, t, found))
  {
    VictimGone(ord, s, t);
    StillOk(ord, s, t, SearchEnd(s, t, found));
  }

  lemma SearchEndRun(ord: Order, s: Sys, t: Thread, found: bool)
    requires Inv(ord, s) && EndsWell(ord, s, t, found) && t.task.Run?
    ensures OutOk(ord, s, t, SearchEnd(s, t, found))
  {
    StillOk(ord, s, t, SearchEnd(s, t, found));
  }

  lemma SearchEndOk(ord: Order, s: Sys, t: Thread, found: bool)
    requires Inv(ord, s) && EndsWell(ord, s, t, found)
    ensures OutOk(ord, s, t, SearchEnd(s, t, found))
  {
    match t.task
    case MakeDummy(_, _) => SearchEndDummy(ord, s, t, found);
    case Run => SearchEndRun(ord, s, t, found);
    case Clean(_, _) => SearchEndClean(ord, s, t, found);
  }

  lemma SettleEnds(ord: Order, s: Sys, t: Thread)
    requires Inv(ord, s) && t.Search? && t.phase.Settle? && ThreadOk(ord, s.h, Now(s), t) && Sees(s.h, t.prev, t.cur)
    requires !Less(s.h.nodes[t.cur].tag, Goal(ord, t.op, t.task))
    ensures EndsWell(ord, s, t, !Less(Goal(ord, t.op, t.task), s.h.nodes[t.cur].tag))
  {
    assert ItemLaw(ord, t.op.key);
    if t.task.MakeDummy? {
      assert DummyLaw(ord, t.task.b);
    }
    LessIsOrder(Goal(ord, t.op, t.task), s.h.nodes[t.cur].tag, Goal(ord, t.op, t.task));
  }

  lemma ReadOk(ord: Order, s: Sys, t: Thread)
    requires Inv(ord, s) && t.Search? && t.phase.Read? && ThreadOk(ord, s.h, Now(s), t)
    ensures OutOk(ord, s, t, SearchStep(ord, s, t))
  {
    StillOk(ord, s, t, SearchStep(ord, s, t));
  }

  lemma HelpOk(ord: Order, s: Sys, t: Thread)
    requires Inv(ord, s) && t.Search? && t.phase.Help? && ThreadOk(ord, s.h, Now(s), t)
    ensures OutOk(ord, s, t, SearchStep(ord, s, t))
  {
    if Sees(s.h, t.prev, t.cur) {
      UnlinkOk(ord, s, t, t.prev, t.cur, t.phase.next, t.(phase := Minus(t.phase.next)));
    } else {
      StillOk(ord, s, t, SearchStep(ord, s, t));
    }
  }

  /** A marked node is taken out of the list. */
  lemma UnlinkOk(ord: Order, s: Sys, t: Thread, prev: nat, cur: nat, next: int, t': Thread)
    requires Ok(s.h) && Keyed(ord.item, s.h) && TableOk(ord, s.h, s.table) && s.power <= LowerBits()
    requires Sees(s.h, prev, cur) && cur < |s.h.nodes| && s.h.nodes[cur].marked && s.h.nodes[cur].next == next
    requires ThreadOk(ord, s.h, Now(s), t') && Debt(t') == Debt(t) - 1
    requires forall n :: Owns(t, n) && n != cur ==> Owns(t', n)
    ensures OutOk(ord, s, t, Quiet(s, t').(h := Unlink(s.h, prev, cur, next)))
  {
    var h' := Unlink(s.h, prev, cur, next);
    UnlinkGrows(s.h, prev, cur, next, Now(s));
    UnlinkShared(ord, s, t, prev, cur, next, t');
    PathStays(ord, s.h, h', Now(s), t');
  }

  lemma UnlinkGrows(h: Heap, prev: nat, cur: nat, next: int, now: nat)
    requires Ok(h) && Sees(h, prev, cur) && cur < |h.nodes| && h.nodes[cur].marked && h.nodes[cur].next == next
    ensures Grows(h, Unlink(h, prev, cur, next), now)
  {
    UnlinkKeeps(h, prev, cur, next, now);
  }

  lemma UnlinkShared(ord: Order, s: Sys, t: Thread, prev: nat, cur: nat, next: int, t': Thread)
    requires Ok(s.h) && Keyed(ord.item, s.h) && TableOk(ord, s.h, s.table) && s.power <= LowerBits()
    requires Sees(s.h, prev, cur) && cur < |s.h.nodes| && s.h.nodes[cur].marked && s.h.nodes[cur].next == next
    requires Debt(t') == Debt(t) - 1 && forall n :: Owns(t, n) && n != cur ==> Owns(t', n)
    ensures SharedOk(ord, s, t, Quiet(s, t').(h := Unlink(s.h, prev, cur, next)))
  {
    UnlinkKeeps(s.h, prev, cur, next, Now(s));
    UnlinkContents(s.h, prev, cur, next);
    UnlinkItems(s.h, prev, cur, next);
  }

  lemma RestartOk(ord: Order, s: Sys, t: Thread)
    requires Inv(ord, s) && t.Search? && (t.phase.Restart? || t.phase.Minus?) && ThreadOk(ord, s.h, Now(s), t)
    ensures OutOk(ord, s, t, SearchStep(ord, s, t))
  {
    StillOk(ord, s, t, SearchStep(ord, s, t));
  }

  lemma CheckOk(ord: Order, s: Sys, t: Thread)
    requires Inv(ord, s) && t.Search? && t.phase.Check? && ThreadOk(ord, s.h, Now(s), t)
    ensures OutOk(ord, s, t, SearchStep(ord, s, t))
  {
    if Sees(s.h, t.prev, t.cur) && t.cur < 0 {
      SearchEndOk(ord, s, t, false);
    } else {
      StillOk(ord, s, t, SearchStep(ord, s, t));
    }
  }

  lemma SettleOk(ord: Order, s: Sys, t: Thread)
    requires Inv(ord, s) && t.Search? && t.phase.Settle? && ThreadOk(ord, s.h, Now(s), t)
    ensures OutOk(ord, s, t, SearchStep(ord, s, t))
  {
    if Sees(s.h, t.prev, t.cur) && !Less(s.h.nodes[t.cur].tag, Goal(ord, t.op, t.task)) {
      SettleEnds(ord, s, t);
      SearchEndOk(ord, s, t, !Less(Goal(ord, t.op, t.task), s.h.nodes[t.cur].tag));
    } else {
      SettleOn(ord, s, t);
    }
  }

  lemma SettleOn(ord: Order, s: Sys, t: Thread)
    requires Inv(ord, s) && t.Search? && t.phase.Settle? && ThreadOk(ord, s.h, Now(s), t)
    requires !Sees(s.h, t.prev, t.cur) || Less(s.h.nodes[t.cur].tag, Goal(ord, t.op, t.task))
    ensures OutOk(ord, s, t, SearchStep(ord, s, t))
  {
    StillOk(ord, s, t, SearchStep(ord, s, t));
  }

  lemma SearchOk(ord: Order, s: Sys, t: Thread)
    requires Inv(ord, s) && t.Search? && ThreadOk(ord, s.h, Now(s), t)
    ensures Ready(s.h, t) && OutOk(ord, s, t, SearchStep(ord, s, t))
  {
    match t.phase
    case Restart => RestartOk(ord, s, t);
    case Check => CheckOk(ord, s, t);
    case Read => ReadOk(ord, s, t);
    case Help(_) => HelpOk(ord, s, t);
    case Minus(_) => RestartOk(ord, s, t);
    case Settle(_) => SettleOk(ord, s, t);
  }

  // ---------- linking and deleting ----------

  /** A new node is linked: the list stays sorted and the key, if it is an item, was absent. */
  lemma LinkOk(ord: Order, s: Sys, t: Thread, c: Choice)
    requires Inv(ord, s) && t.Linking? && ThreadOk(ord, s.h, Now(s), t)
    ensures OutOk(ord, s, t, LinkStep(ord, s, t, c))
  {
    if c.spurious || !Sees(s.h, t.prev, t.cur) {
      StillOk(ord, s, t, LinkStep(ord, s, t, c));
    } else {
      LinkedOk(ord, s, t, c);
    }
  }

  lemma LinkedThread(ord: Order, s: Sys, t: Thread, c: Choice)
    requires Inv(ord, s) && t.Linking? && ThreadOk(ord, s.h, Now(s), t) && Sees(s.h, t.prev, t.cur) && !c.spurious
    requires Grows(s.h, LinkStep(ord, s, t, c).h, Now(s))
    ensures var o := LinkStep(ord, s, t, c); ThreadOk(ord, o.h, Now(s) + 1, o.thread)
  {
    var goal := Goal(ord, t.op, t.task);
    var h' := Link(s.h, t.prev, t.cur, goal, NewVal(t.op, t.task));
    assert ItemLaw(ord, t.op.key);
    if t.task.MakeDummy? {
      assert DummyLaw(ord, t.task.b);
      assert h'.nodes[|s.h.nodes|].tag == goal;
    }
  }

  /** A step of the heap that keeps its invariants and adds no marked node to the list. */
  ghost predicate HeapStep(ord: Order, h: Heap, table: map<nat, nat>, h': Heap, now: nat) {
    true == (
      && Ok(h') && Grows(h, h', now) && NoReturn(h, h') && Keyed(ord.item, h') && TableOk(ord, h', table)
      && (forall n :: n in h'.list && h'.nodes[n].marked ==> n in h.list && n < |h.nodes| && h.nodes[n].marked)
    )
  }

  /** What linking does to the heap alone. */
  lemma LinkedHeap(ord: Order, h: Heap, table: map<nat, nat>, prev: nat, cur: int, goal: Label, val: int, now: nat)
    requires Ok(h) && Keyed(ord.item, h) && TableOk(ord, h, table) && Sees(h, prev, cur)
    requires Proper(goal) && Less(h.nodes[prev].tag, goal) && (cur >= 0 ==> Less(goal, h.nodes[cur].tag))
    requires goal.Item? ==> goal == ord.item(goal.key)
    ensures var h' := Link(h, prev, cur, goal, val);
            HeapStep(ord, h, table, h', now) && Items(h', h'.list) == Items(h, h.list) + if goal.Item? then 1 else 0
  {
    LinkKeeps(h, prev, cur, goal, val, now);
    LinkItems(h, prev, cur, goal, val);
    var k := LinkIs(h, prev, cur, goal, val);
    LinkContents(h, prev, cur, goal, val);
    LinkedStep(ord, h, table, Link(h, prev, cur, goal, val), k, cur, goal, val, now);
  }

  lemma TableGrows(ord: Order, h: Heap, table: map<nat, nat>, h': Heap, now: nat)
    requires Grows(h, h', now) && TableOk(ord, h, table)
    ensures TableOk(ord, h', table)
  {
  }

  lemma LinkedKeyed(ord: Order, h: Heap, h': Heap, k: nat, cur: int, goal: Label, val: int)
    requires Keyed(ord.item, h) && Linked(h, h', k, cur, goal, val) && (goal.Item? ==> goal == ord.item(goal.key))
    ensures Keyed(ord.item, h')
  {
    forall n | 0 <= n < |h'.nodes| && h'.nodes[n].tag.Item? ensures h'.nodes[n].tag == ord.item(h'.nodes[n].tag.key) {
      assert n == |h.nodes| || h'.nodes[n].tag == h.nodes[n].tag;
    }
  }

  lemma LinkedMarks(h: Heap, h': Heap, k: nat, cur: int, goal: Label, val: int)
    requires Linked(h, h', k, cur, goal, val) && forall n :: n in h'.list <==> n in h.list || n == |h.nodes|
    requires forall i :: 0 <= i < |h.list| ==> h.list[i] < |h.nodes|
    requires forall i :: 0 <= i < |h'.list| ==> h'.list[i] < |h'.nodes|
    ensures forall n :: n in h'.list && h'.nodes[n].marked ==> n in h.list && n < |h.nodes| && h.nodes[n].marked
  {
  }

  lemma LinkedStep(ord: Order, h: Heap, table: map<nat, nat>, h': Heap, k: nat, cur: int, goal: Label, val: int,
                   now: nat)
    requires Ok(h) && Ok(h') && Grows(h, h', now) && NoReturn(h, h') && Keyed(ord.item, h) && TableOk(ord, h, table)
    requires Linked(h, h', k, cur, goal, val) && (goal.Item? ==> goal == ord.item(goal.key))
    requires forall n :: n in h'.list <==> n in h.list || n == |h.nodes|
    ensures HeapStep(ord, h, table, h', now)
  {
    TableGrows(ord, h, table, h', now);
    LinkedKeyed(ord, h, h', k, cur, goal, val);
    LinkedMarks(h, h', k, cur, goal, val);
  }

  ghost predicate HeapKept(ord: Order, h: Heap, table: map<nat, nat>, h': Heap, now: nat) {
    true == (Ok(h') && Grows(h, h', now) && NoReturn(h, h') && Keyed(ord.item, h') && TableOk(ord, h', table))
  }

  lemma MarkedHeap(ord: Order, h: Heap, table: map<nat, nat>, cur: nat, now: nat)
    requires Ok(h) && Keyed(ord.item, h) && TableOk(ord, h, table) && Live(h, cur)
    ensures HeapKept(ord, h, table, Mark(h, cur, now), now)
  {
    MarkKeeps(h, cur, now);
    TableGrows(ord, h, table, Mark(h, cur, now), now);
  }

  lemma PutHeap(ord: Order, h: Heap, table: map<nat, nat>, n: nat, val: int, now: nat)
    requires Ok(h) && Keyed(ord.item, h) && TableOk(ord, h, table) && n < |h.nodes|
    ensures HeapKept(ord, h, table, Put(h, n, val), now)
  {
    PutKeeps(h, n, val, now);
    TableGrows(ord, h, table, Put(h, n, val), now);
  }

  lemma MarkOwned(h: Heap, cur: nat, now: nat, t: Thread, t': Thread)
    requires cur < |h.nodes| && t.Marking? && t'.Cutting? && t'.node == cur
    ensures var h' := Mark(h, cur, now);
            forall n :: n in h'.list && n < |h'.nodes| && h'.nodes[n].marked ==>
              Owns(t', n) || (n in h.list && n < |h.nodes| && h.nodes[n].marked && !Owns(t, n))
  {
  }

  lemma SharedKept(ord: Order, s: Sys, t: Thread, h': Heap, t': Thread)
    requires s.power <= LowerBits() && HeapKept(ord, s.h, s.table, h', Now(s))
    requires Debt(t') - Items(h', h'.list) == Debt(t) - Items(s.h, s.h.list)
    requires forall n :: n in h'.list && n < |h'.nodes| && h'.nodes[n].marked ==>
               Owns(t', n) || (n in s.h.list && n < |s.h.nodes| && s.h.nodes[n].marked && !Owns(t, n))
    ensures SharedOk(ord, s, t, Quiet(s, t').(h := h'))
  {
  }

  lemma SharedFrom(ord: Order, s: Sys, t: Thread, h': Heap, t': Thread)
    requires s.power <= LowerBits() && HeapStep(ord, s.h, s.table, h', Now(s))
    requires Debt(t') - Items(h', h'.list) == Debt(t) - Items(s.h, s.h.list) && forall n :: !Owns(t, n)
    ensures SharedOk(ord, s, t, Quiet(s, t').(h := h'))
  {
  }

  /** The label fits between the two nodes. */
  lemma LinkFits(ord: Order, h: Heap, now: nat, t: Thread)
    requires Laws(ord) && t.Linking? && ThreadOk(ord, h, now, t)
    ensures var goal := Goal(ord, t.op, t.task);
            && Proper(goal) && Less(h.nodes[t.prev].tag, goal) && (t.cur >= 0 ==> Less(goal, h.nodes[t.cur].tag))
            && (goal.Item? <==> !t.task.MakeDummy?) && (goal.Item? ==> goal == ord.item(goal.key))
  {
    assert ItemLaw(ord, t.op.key);
    if t.task.MakeDummy? {
      assert DummyLaw(ord, t.task.b);
    }
  }

  lemma LinkDebt(ord: Order, s: Sys, t: Thread, c: Choice)
    requires t.Linking? && Sees(s.h, t.prev, t.cur) && !c.spurious
    ensures var o := LinkStep(ord, s, t, c);
            && o == Quiet(s, o.thread).(h := Link(s.h, t.prev, t.cur, Goal(ord, t.op, t.task), NewVal(t.op, t.task)))
            && Debt(t) == 0 && Debt(o.thread) == if t.task.MakeDummy? then 0 else 1
    ensures forall n :: !Owns(t, n)
  {
  }

  lemma LinkedShared(ord: Order, s: Sys, t: Thread, c: Choice)
    requires Laws(ord) && Ok(s.h) && Keyed(ord.item, s.h) && TableOk(ord, s.h, s.table) && s.power <= LowerBits()
    requires t.Linking? && ThreadOk(ord, s.h, Now(s), t) && Sees(s.h, t.prev, t.cur) && !c.spurious
    ensures SharedOk(ord, s, t, LinkStep(ord, s, t, c))
  {
    var goal, t' := Goal(ord, t.op, t.task), LinkStep(ord, s, t, c).thread;
    LinkFits(ord, s.h, Now(s), t);
    LinkedHeap(ord, s.h, s.table, t.prev, t.cur, goal, NewVal(t.op, t.task), Now(s));
    LinkDebt(ord, s, t, c);
    SharedFrom(ord, s, t, Link(s.h, t.prev, t.cur, goal, NewVal(t.op, t.task)), t');
  }

  lemma LinkedOk(ord: Order, s: Sys, t: Thread, c: Choice)
    requires Inv(ord, s) && t.Linking? && ThreadOk(ord, s.h, Now(s), t) && Sees(s.h, t.prev, t.cur) && !c.spurious
    ensures OutOk(ord, s, t, LinkStep(ord, s, t, c))
  {
    LinkedShared(ord, s, t, c);
    LinkedThread(ord, s, t, c);
  }

  lemma MarkedThread(ord: Order, s: Sys, t: Thread, c: Choice)
    requires Inv(ord, s) && t.Marking? && ThreadOk(ord, s.h, Now(s), t) && Sees(s.h, t.node, t.next) && !c.spurious
    requires Grows(s.h, MarkStep(s, t, c).h, Now(s))
    ensures var o := MarkStep(s, t, c); ThreadOk(ord, o.h, Now(s) + 1, o.thread)
  {
    assert ItemLaw(ord, t.op.key);
  }

  lemma MarkedShared(ord: Order, s: Sys, t: Thread, c: Choice)
    requires Laws(ord) && Ok(s.h) && Keyed(ord.item, s.h) && TableOk(ord, s.h, s.table) && s.power <= LowerBits()
    requires t.Marking? && ThreadOk(ord, s.h, Now(s), t) && Sees(s.h, t.node, t.next) && !c.spurious
    ensures SharedOk(ord, s, t, MarkStep(s, t, c))
  {
    assert ItemLaw(ord, t.op.key);
    MarkedHeap(ord, s.h, s.table, t.node, Now(s));
    MarkItems(s.h, t.node, Now(s));
    var t' := Cutting(t.op, t.since, Now(s), t.head, t.prev, t.node, t.next);
    MarkOwned(s.h, t.node, Now(s), t, t');
    SharedKept(ord, s, t, Mark(s.h, t.node, Now(s)), t');
  }

  lemma MarkOk(ord: Order, s: Sys, t: Thread, c: Choice)
    requires Inv(ord, s) && t.Marking? && ThreadOk(ord, s.h, Now(s), t)
    ensures OutOk(ord, s, t, MarkStep(s, t, c))
  {
    if c.spurious || !Sees(s.h, t.node, t.next) {
      StillOk(ord, s, t, MarkStep(s, t, c));
    } else {
      MarkedShared(ord, s, t, c);
      MarkedThread(ord, s, t, c);
    }
  }

  lemma SwapShared(ord: Order, s: Sys, t: Thread)
    requires Inv(ord, s) && t.Swap? && ThreadOk(ord, s.h, Now(s), t)
    ensures SharedOk(ord, s, t, ValueStep(s, t))
  {
    PutHeap(ord, s.h, s.table, t.node, t.op.val, Now(s));
    PutItems(s.h, t.node, t.op.val);
  }

  lemma SwapOk(ord: Order, s: Sys, t: Thread)
    requires Inv(ord, s) && t.Swap? && ThreadOk(ord, s.h, Now(s), t)
    ensures OutOk(ord, s, t, ValueStep(s, t))
  {
    SwapShared(ord, s, t);
  }

  lemma LoadOk(ord: Order, s: Sys, t: Thread)
    requires Inv(ord, s) && (t.Load? || t.Reread?) && ThreadOk(ord, s.h, Now(s), t)
    ensures OutOk(ord, s, t, ValueStep(s, t))
  {
    StillOk(ord, s, t, ValueStep(s, t));
  }

  lemma PeekOk(ord: Order, s: Sys, t: Thread, c: Choice)
    requires Inv(ord, s) && t.Peek? && ThreadOk(ord, s.h, Now(s), t)
    ensures OutOk(ord, s, t, Act(ord, s, t, c))
  {
    StillOk(ord, s, t, Act(ord, s, t, c));
  }

  lemma CutOk(ord: Order, s: Sys, t: Thread)
    requires Inv(ord, s) && t.Cutting? && ThreadOk(ord, s.h, Now(s), t)
    ensures OutOk(ord, s, t, CutStep(s, t))
  {
    if Sees(s.h, t.prev, t.node) {
      UnlinkOk(ord, s, t, t.prev, t.node, t.next, Last(t.op, t.since, t.at));
    } else {
      StillOk(ord, s, t, CutStep(s, t));
    }
  }

  lemma ReturnOk(ord: Order, s: Sys, t: Thread, c: Choice)
    requires Inv(ord, s) && (t.Plus? || t.Bump? || t.Last?) && ThreadOk(ord, s.h, Now(s), t)
    ensures OutOk(ord, s, t, Act(ord, s, t, c))
  {
    StillOk(ord, s, t, Act(ord, s, t, c));
  }

  // ---------- all steps, all runs ----------

  lemma ActOk(ord: Order, s: Sys, t: Thread, c: Choice)
    requires Inv(ord, s) && ThreadOk(ord, s.h, Now(s), t)
    ensures Ready(s.h, t) && OutOk(ord, s, t, Act(ord, s, t, c))
  {
    match t
    case Idle => BeginOk(ord, s, c.op);
    case Seek(_, _, _) => SeekOk(ord, s, t);
    case Reload(_, _, _, _) => ReloadOk(ord, s, t);
    case Search(_, _, _, _, _, _, _) => SearchOk(ord, s, t);
    case Linking(_, _, _, _, _, _) => LinkOk(ord, s, t, c);
    case Swap(_, _, _) => SwapOk(ord, s, t);
    case Load(_, _, _) => LoadOk(ord, s, t);
    case Reread(_, _, _, _) => LoadOk(ord, s, t);
    case Plus(_, _, _) => ReturnOk(ord, s, t, c);
    case Bump(_, _, _) => ReturnOk(ord, s, t, c);
    case Publish(_, _, _, _, _) => PublishOk(ord, s, t);
    case Peek(_, _, _, _, _) => PeekOk(ord, s, t, c);
    case Marking(_, _, _, _, _, _) => MarkOk(ord, s, t, c);
    case Cutting(_, _, _, _, _, _, _) => CutOk(ord, s, t);
    case Last(_, _, _) => ReturnOk(ord, s, t, c);
  }

  lemma StepInv(ord: Order, s: Sys, tid: nat, c: Choice)
    requires Inv(ord, s)
    ensures Inv(ord, Step(ord, s, tid, c))
  {
    if tid < |s.threads| {
      ActOk(ord, s, s.threads[tid], c);
      ApplyInv(ord, s, tid, Act(ord, s, s.threads[tid], c));
    }
  }

  ghost function Init(ord: Order, n: nat): (s: Sys) {
    Sys(Heap([Node(ord.dummy(0), -1, false, 0, 0)], [0]), map[0 := 0], 1, 0, IdleThreads(n), [map[]], [])
  }

  ghost function IdleThreads(n: nat): (ts: seq<Thread>)
    ensures |ts| == n && forall i :: 0 <= i < n ==> ts[i] == Idle
  {
    if n == 0 then [] else IdleThreads(n - 1) + [Idle]
  }

  lemma {:induction false} NoDebts(ts: seq<Thread>)
    requires forall i :: 0 <= i < |ts| ==> ts[i] == Idle
    ensures Debts(ts) == 0
  {
    if ts != [] {
      NoDebts(ts[1..]);
    }
  }

  lemma InitInv(ord: Order, n: nat)
    requires Laws(ord)
    ensures Inv(ord, Init(ord, n))
  {
    var s := Init(ord, n);
    assert DummyLaw(ord, 0);
    assert Chained(s.h, 0);
    NoDebts(s.threads);
    assert Items(s.h, [0]) == Items(s.h, [0][1..]);
  }

  /** A run: any schedule of threads and choices. */
  ghost function RunOf(ord: Order, s: Sys, schedule: seq<(nat, Choice)>): (s': Sys)
    decreases |schedule|
  {
    if schedule == [] then s
    else
      var prev := RunOf(ord, s, schedule[..|schedule| - 1]);
      Step(ord, prev, schedule[|schedule| - 1].0, schedule[|schedule| - 1].1)
  }

  lemma {:induction false} RunInv(ord: Order, s: Sys, schedule: seq<(nat, Choice)>)
    requires Inv(ord, s)
    ensures Inv(ord, RunOf(ord, s, schedule))
    decreases |schedule|
  {
    if schedule != [] {
      RunInv(ord, s, schedule[..|schedule| - 1]);
      var prev := RunOf(ord, s, schedule[..|schedule| - 1]);
      StepInv(ord, prev, schedule[|schedule| - 1].0, schedule[|schedule| - 1].1);
    }
  }

  // ---------- what a run guarantees ----------

  /** In every run the reachable list is strictly sorted and contains every node that was ever linked
      and is not marked. */
  lemma ListStaysSorted(hash: int -> Word, n: nat, schedule: seq<(nat, Choice)>)
    ensures var h := RunOf(Source(hash), Init(Source(hash), n), schedule).h;
            && (forall i :: 0 <= i < |h.list| ==> h.list[i] < |h.nodes|)
            && (forall i, j :: 0 <= i < j < |h.list| ==> Less(h.nodes[h.list[i]].tag, h.nodes[h.list[j]].tag))
            && (forall m :: 0 <= m < |h.nodes| && !h.nodes[m].marked ==> m in h.list)
            && (forall i {:trigger Chained(h, i)} :: 0 <= i < |h.list| ==> Chained(h, i))
  {
    var ord := Source(hash);
    SourceLaws(hash);
    InitInv(ord, n);
    RunInv(ord, Init(ord, n), schedule);
  }

  /** In every run, the filled cells of two buckets never hold the same node. */
  lemma {:induction false} CellsApart(hash: int -> Word, n: nat, schedule: seq<(nat, Choice)>, b: nat, c: nat)
    requires var s := RunOf(Source(hash), Init(Source(hash), n), schedule);
             b in s.table && c in s.table && s.table[b] == s.table[c]
    ensures b == c
  {
    var ord := Source(hash);
    SourceLaws(hash);
    InitInv(ord, n);
    RunInv(ord, Init(ord, n), schedule);
    SameCell(ord, RunOf(ord, Init(ord, n), schedule), b, c);
    DummiesDiffer(b, c);
  }

  lemma SameCell(ord: Order, s: Sys, b: nat, c: nat)
    requires Inv(ord, s) && b in s.table && c in s.table && s.table[b] == s.table[c]
    ensures b < TopBit() && c < TopBit() && ord.dummy(b) == ord.dummy(c)
  {
  }

  /** When no operation is in flight, the counter is the number of keys. */
  lemma QuietSize(ord: Order, s: Sys)
    requires Inv(ord, s) && forall i :: 0 <= i < |s.threads| ==> s.threads[i] == Idle
    ensures s.size == |Contents(s.h)|
  {
    NoDebts(s.threads);
    forall i | 0 <= i < |s.h.list| ensures !s.h.nodes[s.h.list[i]].marked {
      assert s.h.nodes[s.h.list[i]].marked ==> Owned(s.threads, s.h.list[i]);
    }
    ItemsAreMembers(ord.item, s.h);
    assert Contents(s.h).Keys == Members(s.h);
  }

  lemma QuietSizeOfRun(hash: int -> Word, n: nat, schedule: seq<(nat, Choice)>)
    ensures var s := RunOf(Source(hash), Init(Source(hash), n), schedule);
            (forall i :: 0 <= i < |s.threads| ==> s.threads[i] == Idle) ==> s.size == |Contents(s.h)|
  {
    var ord := Source(hash);
    SourceLaws(hash);
    InitInv(ord, n);
    RunInv(ord, Init(ord, n), schedule);
    var s := RunOf(ord, Init(ord, n), schedule);
    if forall i :: 0 <= i < |s.threads| ==> s.threads[i] == Idle {
      QuietSize(ord, s);
    }
  }

  /** One step never changes a marked node's successor, never unmarks a node, never brings back a node
      that has left the list. */
  lemma StepIsMonotone(ord: Order, s: Sys, tid: nat, c: Choice)
    requires Inv(ord, s)
    ensures Grows(s.h, Step(ord, s, tid, c).h, Now(s)) && NoReturn(s.h, Step(ord, s, tid, c).h)
  {
    if tid < |s.threads| {
      ActOk(ord, s, s.threads[tid], c);
    } else {
      GrowsNot(s.h, Now(s));
    }
  }

  // ---------- where a search may start ----------

  /** Scanning from place `i`: the first place whose label is not before the goal. */
  ghost function Scan(h: Heap, i: nat, goal: Label): (j: nat)
    requires i <= |h.list| && forall k :: 0 <= k < |h.list| ==> h.list[k] < |h.nodes|
    decreases |h.list| - i
  {
    if i == |h.list| || !Less(h.nodes[h.list[i]].tag, goal) then i else Scan(h, i + 1, goal)
  }

  lemma {:induction false} ScanSkips(h: Heap, i: nat, k: nat, goal: Label)
    requires i <= k <= |h.list| && forall j :: 0 <= j < |h.list| ==> h.list[j] < |h.nodes|
    requires forall j :: i <= j < k ==> Less(h.nodes[h.list[j]].tag, goal)
    ensures Scan(h, i, goal) == Scan(h, k, goal)
    decreases k - i
  {
    if i < k {
      ScanSkips(h, i + 1, k, goal);
    }
  }

  /** For every state of the list, every table size and every key, scanning from the head of the key's
      bucket ends where scanning from the head of the whole list ends. */
  lemma BucketHeadIsEnough(ord: Order, s: Sys, k: int, power: nat) returns (i: nat)
    requires Inv(ord, s) && power <= LowerBits() && ord.bucket(k, power) in s.table
    ensures i < |s.h.list| && s.h.list[i] == s.table[ord.bucket(k, power)]
    ensures Scan(s.h, i, ord.item(k)) == Scan(s.h, 0, ord.item(k))
  {
    var head, goal := s.table[ord.bucket(k, power)], ord.item(k);
    assert StartLaw(ord, k, power) && ItemLaw(ord, k) && DummyLaw(ord, ord.bucket(k, power));
    i := Position(s.h, head);
    forall j | 0 <= j < i ensures Less(s.h.nodes[s.h.list[j]].tag, goal) {
      LessIsOrder(s.h.nodes[s.h.list[j]].tag, s.h.nodes[head].tag, goal);
    }
    ScanSkips(s.h, 0, i, goal);
  }
}
