/** Trees of values, the events a traversal emits, the printer that turns events into text, and the
    document that rebuilds a tree from events. */
module JsonTree {
  import opened JsonGrammar

  /** A value whose numbers are whole. */
  datatype Tree =
    | JNull
    | JBool(b: bool)
    | JNumber(n: Num)
    | JString(s: Text)
    | JArray(elems: seq<Tree>)
    | JObject(members: seq<Member>)
  datatype Member = Member(name: Text, value: Tree)

  // ---------- traversal ----------

  /** GenericValue::Accept: the events of a tree. */
  function Events(t: Tree): (ev: seq<Event>) {
    match t
    case JNull => [Null]
    case JBool(b) => [Bool(b)]
    case JNumber(n) => [Number(n)]
    case JString(s) => [String(s)]
    case JArray(elems) => [StartArray] + ElemEvents(elems) + [EndArray(|elems|)]
    case JObject(members) => [StartObject] + MemberEvents(members) + [EndObject(|members|)]
  }

  function ElemEvents(elems: seq<Tree>): (ev: seq<Event>) {
    if elems == [] then [] else Events(elems[0]) + ElemEvents(elems[1..])
  }

  function MemberEvents(members: seq<Member>): (ev: seq<Event>) {
    if members == [] then [] else [Key(members[0].name)] + Events(members[0].value) + MemberEvents(members[1..])
  }

  // ---------- rebuilding ----------

  datatype Option<T> = None | Some(val: T)

  /** The last `2n` values of a stack as members; names must be strings. */
  function Pairs(vals: seq<Tree>): (r: Option<seq<Member>>) {
    if vals == [] then Some([])
    else if |vals| == 1 || !vals[0].JString? then None
    else
      match Pairs(vals[2..])
      case None => None
      case Some(ms) => Some([Member(vals[0].s, vals[1])] + ms)
  }

  /** The document as a handler: each event changes the stack of values. */
  function Handle(stack: seq<Tree>, e: Event): (r: Option<seq<Tree>>) {
    match e
    case Null => Some(stack + [JNull])
    case Bool(b) => Some(stack + [JBool(b)])
    case Number(n) =>
      if -0x8000_0000_0000_0000 <= n <= 0xFFFF_FFFF_FFFF_FFFF then Some(stack + [JNumber(n)]) else None
    case String(s) => Some(stack + [JString(s)])
    case Key(s) => Some(stack + [JString(s)])
    case StartArray => Some(stack + [JArray([])])
    case StartObject => Some(stack + [JObject([])])
    case EndArray(n) =>
      if |stack| < n + 1 then None
      else Some(stack[..|stack| - n - 1] + [JArray(stack[|stack| - n..])])
    case EndObject(n) =>
      if |stack| < 2 * n + 1 then None
      else
        match Pairs(stack[|stack| - 2 * n..])
        case None => None
        case Some(ms) => Some(stack[..|stack| - 2 * n - 1] + [JObject(ms)])
  }

  function Replay(stack: seq<Tree>, ev: seq<Event>): (r: Option<seq<Tree>>)
    decreases |ev|
  {
    if ev == [] then Some(stack)
    else
      match Handle(stack, ev[0])
      case None => None
      case Some(st) => Replay(st, ev[1..])
  }

  lemma {:induction false} ReplayConcat(stack: seq<Tree>, a: seq<Event>, b: seq<Event>)
    ensures Replay(stack, a + b) == match Replay(stack, a) case None => None case Some(st) => Replay(st, b)
    decreases |a|
  {
    if a == [] {
      assert a + b == b;
    } else {
      assert (a + b)[1..] == a[1..] + b;
      match Handle(stack, a[0])
      case None =>
      case Some(st) => ReplayConcat(st, a[1..], b);
    }
  }

  /** Names and values laid out one after the other. */
  function Flat(members: seq<Member>): (vals: seq<Tree>) {
    if members == [] then [] else [JString(members[0].name), members[0].value] + Flat(members[1..])
  }

  lemma {:induction false} FlatPairs(members: seq<Member>)
    ensures |Flat(members)| == 2 * |members| && Pairs(Flat(members)) == Some(members)
  {
    if members != [] {
      FlatPairs(members[1..]);
      assert Flat(members)[2..] == Flat(members[1..]);
      assert [Member(members[0].name, members[0].value)] + members[1..] == members;
    }
  }

  lemma ReplayOne(stack: seq<Tree>, e: Event)
    ensures Replay(stack, [e]) == Handle(stack, e)
  {
    assert [e][1..] == [];
  }

  /** Replaying the events of a tree pushes exactly that tree. */
  lemma {:induction false} ReplayTree(stack: seq<Tree>, t: Tree)
    ensures Replay(stack, Events(t)) == Some(stack + [t])
    decreases t
  {
    match t
    case JNull => ReplayOne(stack, Null);
    case JBool(b) => ReplayOne(stack, Bool(b));
    case JNumber(n) => ReplayOne(stack, Number(n));
    case JString(s) => ReplayOne(stack, String(s));
    case JArray(elems) =>
      ReplayElems(stack + [JArray([])], elems);
      ReplayBracketed(stack, StartArray, ElemEvents(elems), EndArray(|elems|), JArray([]), elems, t);
    case JObject(members) =>
      ReplayMembers(stack + [JObject([])], members);
      FlatPairs(members);
      ReplayBracketed(stack, StartObject, MemberEvents(members), EndObject(|members|), JObject([]), Flat(members), t);
  }

  lemma CloseStack(stack: seq<Tree>, v: Tree, vals: seq<Tree>)
    ensures var st := stack + [v] + vals; st[..|st| - |vals| - 1] == stack && st[|st| - |vals|..] == vals
  {
  }

  lemma ReplayBracketed(stack: seq<Tree>, open: Event, ev: seq<Event>, close: Event, v: Tree, vals: seq<Tree>, t: Tree)
    requires Handle(stack, open) == Some(stack + [v]) && Replay(stack + [v], ev) == Some(stack + [v] + vals)
    requires (close == EndArray(|vals|) && t == JArray(vals))
             || (close.EndObject? && |vals| == 2 * close.members && t.JObject? && Pairs(vals) == Some(t.members))
    ensures Replay(stack, [open] + ev + [close]) == Some(stack + [t])
  {
    ReplayOne(stack, open);
    ReplayConcat(stack, [open], ev);
    ReplayConcat(stack, [open] + ev, [close]);
    ReplayOne(stack + [v] + vals, close);
    CloseStack(stack, v, vals);
  }

  lemma {:induction false} ReplayElems(stack: seq<Tree>, elems: seq<Tree>)
    ensures Replay(stack, ElemEvents(elems)) == Some(stack + elems)
    decreases elems
  {
    if elems == [] {
      assert stack + elems == stack;
    } else {
      ReplayTree(stack, elems[0]);
      ReplayConcat(stack, Events(elems[0]), ElemEvents(elems[1..]));
      ReplayElems(stack + [elems[0]], elems[1..]);
      assert stack + [elems[0]] + elems[1..] == stack + elems;
    }
  }

  lemma {:induction false} ReplayMembers(stack: seq<Tree>, members: seq<Member>)
    ensures Replay(stack, MemberEvents(members)) == Some(stack + Flat(members))
    decreases members
  {
    if members == [] {
      assert stack + Flat(members) == stack;
    } else {
      var m, st := members[0], stack + [JString(members[0].name)];
      ReplayOne(stack, Key(m.name));
      ReplayTree(st, m.value);
      ReplayConcat(stack, [Key(m.name)], Events(m.value));
      ReplayConcat(stack, [Key(m.name)] + Events(m.value), MemberEvents(members[1..]));
      ReplayMembers(st + [m.value], members[1..]);
      assert st + [m.value] + Flat(members[1..]) == stack + Flat(members);
    }
  }

  /** Popping down to `k` values and overwriting the last of them. */
  lemma ReplaceTop(stack: seq<Tree>, k: nat, v: Tree)
    requires 1 <= k <= |stack|
    ensures stack[..k][k - 1 := v] == stack[..k - 1] + [v]
  {
  }

  /** GenericDocument as a handler: the stack of values that parsing builds the root on. */
  class TreeBuilder {
    var stack: seq<Tree>

    constructor ()
      ensures stack == []
    {
      stack := [];
    }

    method Push(v: Tree)
      modifies this
      ensures stack == old(stack) + [v]
    {
      stack := stack + [v];
    }

    method OnEndArray(n: nat)
      requires |stack| >= n + 1
      modifies this
      ensures Handle(old(stack), EndArray(n)) == Some(stack)
    {
      var k := |stack| - n;
      ReplaceTop(stack, k, JArray(stack[k..]));
      stack := stack[..k][k - 1 := JArray(stack[k..])];
    }

    method OnEndObject(n: nat)
      requires |stack| >= 2 * n + 1 && Pairs(stack[|stack| - 2 * n..]).Some?
      modifies this
      ensures Handle(old(stack), EndObject(n)) == Some(stack)
    {
      var k := |stack| - 2 * n;
      ReplaceTop(stack, k, JObject(Pairs(stack[k..]).val));
      stack := stack[..k][k - 1 := JObject(Pairs(stack[k..]).val)];
    }

    /** Feed one event. */
    method On(e: Event)
      requires Handle(stack, e).Some?
      modifies this
      ensures Handle(old(stack), e) == Some(stack)
    {
      match e
      case Null => Push(JNull);
      case Bool(b) => Push(JBool(b));
      case Number(n) => Push(JNumber(n));
      case String(s) => Push(JString(s));
      case Key(s) => Push(JString(s));
      case StartArray => Push(JArray([]));
      case StartObject => Push(JObject([]));
      case EndArray(n) => OnEndArray(n);
      case EndObject(n) => OnEndObject(n);
    }

    /** Feed the events of a whole tree: the stack ends up holding that tree. */
    method Load(t: Tree)
      modifies this
      ensures stack == old(stack) + [t]
    {
      var ev := Events(t);
      ReplayTree(stack, t);
      for i := 0 to |ev|
        invariant Replay(stack, ev[i..]) == Some(old(stack) + [t])
      {
        assert ev[i..][1..] == ev[i + 1..];
        On(ev[i]);
      }
    }
  }
}
