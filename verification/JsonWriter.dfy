/** The writer: events to compact JSON text. */
module JsonWriter {
  import opened JsonGrammar
  import opened JsonTree
  import opened JsonText
  import opened JsonNumber
  import opened JsonItoa

  // ---------- text of a string ----------

  function HexDigit(v: nat): (c: Byte)
    requires v < 16
    ensures HexValue(c) == v
  {
    if v < 10 then 0x30 + v else 0x41 + v - 10
  }

  /** The letter a byte is escaped with, or 0 if it is written as it is. */
  function Escape(c: Byte): (e: Byte) {
    if c == 0x08 then 0x62
    else if c == 0x09 then 0x74
    else if c == 0x0A then 0x6E
    else if c == 0x0C then 0x66
    else if c == 0x0D then 0x72
    else if c < 0x20 then LOWER_U
    else if c == QUOTE || c == BACKSLASH then c
    else 0
  }

  function EscapedByte(c: Byte): (t: Text) {
    if Escape(c) == 0 then [c]
    else if Escape(c) == LOWER_U then [BACKSLASH, LOWER_U, 0x30, 0x30, HexDigit(c / 16), HexDigit(c % 16)]
    else [BACKSLASH, Escape(c)]
  }

  function Escaped(s: Text): (t: Text) {
    if s == [] then [] else EscapedByte(s[0]) + Escaped(s[1..])
  }

  function Quoted(s: Text): (t: Text) {
    [QUOTE] + Escaped(s) + [QUOTE]
  }

  lemma EscapedNext(t: Text, s: Text, i: nat)
    requires i < |s|
    ensures t + Escaped(s[i..]) == t + EscapedByte(s[i]) + Escaped(s[i + 1..])
  {
    assert s[i..][1..] == s[i + 1..];
  }

  method WriteByte(c: Byte) returns (t: Text)
    ensures t == EscapedByte(c)
  {
    if Escape(c) != 0 {
      t := [BACKSLASH, Escape(c)];
      if Escape(c) == LOWER_U {
        t := t + [0x30, 0x30, HexDigit(c / 16), HexDigit(c % 16)];
      }
    } else {
      t := [c];
    }
  }

  /** WriteString */
  method WriteString(s: Text) returns (t: Text)
    ensures t == Quoted(s)
  {
    t := [QUOTE];
    for i := 0 to |s|
      invariant t + Escaped(s[i..]) == [QUOTE] + Escaped(s)
    {
      EscapedNext(t, s, i);
      var u := WriteByte(s[i]);
      t := t + u;
    }
    assert s[|s|..] == [];
    t := t + [QUOTE];
  }

  // ---------- text of a tree ----------

  const NULL_TEXT: Text := [0x6E, 0x75, 0x6C, 0x6C]
  const TRUE_TEXT: Text := [0x74, 0x72, 0x75, 0x65]
  const FALSE_TEXT: Text := [0x66, 0x61, 0x6C, 0x73, 0x65]

  function Print(t: Tree): (r: Text) {
    match t
    case JNull => NULL_TEXT
    case JBool(b) => if b then TRUE_TEXT else FALSE_TEXT
    case JNumber(n) => Decimal(n)
    case JString(s) => Quoted(s)
    case JArray(elems) => [LBRACKET] + PrintElems(elems, 0) + [RBRACKET]
    case JObject(members) => [LBRACE] + PrintMembers(members, 0) + [RBRACE]
  }

  /** Elements when `n` have been written before. */
  function PrintElems(elems: seq<Tree>, n: nat): (r: Text)
    decreases elems
  {
    if elems == [] then [] else (if n > 0 then [COMMA] else []) + Print(elems[0]) + PrintElems(elems[1..], n + 1)
  }

  function PrintMembers(members: seq<Member>, n: nat): (r: Text)
    decreases members
  {
    if members == [] then []
    else
      (if n > 0 then [COMMA] else []) + Quoted(members[0].name) + [COLON] + Print(members[0].value)
        + PrintMembers(members[1..], n + 1)
  }

  // ---------- the writer as a handler ----------

  datatype Level = Level(count: nat, inArray: bool)

  datatype Writing = Writing(out: Text, levels: seq<Level>, hasRoot: bool)

  /** What separates the next value from the one before. */
  function Separator(levels: seq<Level>): (t: Text) {
    if levels == [] then []
    else
      var l := levels[|levels| - 1];
      if l.count == 0 then []
      else if l.inArray || l.count % 2 == 0 then [COMMA]
      else [COLON]
  }

  /** Prefix: write the separator and count the value. */
  function Prefixed(w: Writing): (w': Writing) {
    if w.levels == [] then w.(hasRoot := true)
    else
      var i := |w.levels| - 1;
      w.(out := w.out + Separator(w.levels), levels := w.levels[i := w.levels[i].(count := w.levels[i].count + 1)])
  }

  function Put(w: Writing, t: Text): (w': Writing) {
    w.(out := w.out + t)
  }

  function Pop(w: Writing): (w': Writing) {
    if w.levels == [] then w else w.(levels := w.levels[..|w.levels| - 1])
  }

  function Write(w: Writing, e: Event): (w': Writing) {
    match e
    case Null => Put(Prefixed(w), NULL_TEXT)
    case Bool(b) => Put(Prefixed(w), if b then TRUE_TEXT else FALSE_TEXT)
    case Number(n) => Put(Prefixed(w), Decimal(n))
    case String(s) => Put(Prefixed(w), Quoted(s))
    case Key(s) => Put(Prefixed(w), Quoted(s))
    case StartArray =>
      var p := Prefixed(w);
      Put(p.(levels := p.levels + [Level(0, true)]), [LBRACKET])
    case StartObject =>
      var p := Prefixed(w);
      Put(p.(levels := p.levels + [Level(0, false)]), [LBRACE])
    case EndArray(_) => Put(Pop(w), [RBRACKET])
    case EndObject(_) => Put(Pop(w), [RBRACE])
  }

  function WriteAll(w: Writing, ev: seq<Event>): (w': Writing)
    decreases |ev|
  {
    if ev == [] then w else WriteAll(Write(w, ev[0]), ev[1..])
  }

  lemma {:induction false} WriteConcat(w: Writing, a: seq<Event>, b: seq<Event>)
    ensures WriteAll(w, a + b) == WriteAll(WriteAll(w, a), b)
    decreases |a|
  {
    if a == [] {
      assert a + b == b;
    } else {
      assert (a + b)[1..] == a[1..] + b;
      WriteConcat(Write(w, a[0]), a[1..], b);
    }
  }

  lemma WriteOne(w: Writing, e: Event)
    ensures WriteAll(w, [e]) == Write(w, e)
  {
    assert [e][1..] == [];
  }

  /** Writing the events of a tree appends a separator and the text of the tree. */
  lemma {:induction false} WriteTree(w: Writing, t: Tree)
    ensures WriteAll(w, Events(t)) == Put(Prefixed(w), Print(t))
    decreases t, 1
  {
    match t
    case JNull => WriteOne(w, Null);
    case JBool(b) => WriteOne(w, Bool(b));
    case JNumber(n) => WriteOne(w, Number(n));
    case JString(s) => WriteOne(w, String(s));
    case JArray(elems) =>
      WriteElems(Opened(w, true), elems);
      WriteBracketed(w, StartArray, ElemEvents(elems), EndArray(|elems|), PrintElems(elems, 0), |elems|);
    case JObject(members) =>
      WriteMembers(Opened(w, false), members, 0);
      WriteBracketed(w, StartObject, MemberEvents(members), EndObject(|members|), PrintMembers(members, 0),
        2 * |members|);
  }

  /** The writer after an opening bracket or brace. */
  function Opened(w: Writing, arr: bool): (w': Writing) {
    Put(Prefixed(w).(levels := Prefixed(w).levels + [Level(0, arr)]), [if arr then LBRACKET else LBRACE])
  }

  /** The same writer, `n` more values counted in the innermost level, `t` appended. */
  ghost function Counted(w: Writing, t: Text, n: nat): (w': Writing)
    requires w.levels != []
  {
    var i := |w.levels| - 1;
    Writing(w.out + t, w.levels[i := w.levels[i].(count := w.levels[i].count + n)], w.hasRoot)
  }

  function Left(arr: bool): (c: Byte) {
    if arr then LBRACKET else LBRACE
  }

  function Right(arr: bool): (c: Byte) {
    if arr then RBRACKET else RBRACE
  }

  lemma CloseText(w: Writing, arr: bool, t: Text, n: nat)
    ensures Put(Pop(Counted(Opened(w, arr), t, n)), [Right(arr)]) == Put(Prefixed(w), [Left(arr)] + t + [Right(arr)])
  {
    var p, a, b := Prefixed(w), [Left(arr)], [Right(arr)];
    var w2 := Counted(Opened(w, arr), t, n);
    assert w2.levels[..|w2.levels| - 1] == p.levels;
    assert p.out + a + t + b == p.out + (a + t + b);
  }

  lemma WriteBracketed(w: Writing, open: Event, ev: seq<Event>, close: Event, t: Text, n: nat)
    requires (open.StartArray? && close.EndArray?) || (open.StartObject? && close.EndObject?)
    requires WriteAll(Opened(w, open.StartArray?), ev) == Counted(Opened(w, open.StartArray?), t, n)
    ensures WriteAll(w, [open] + ev + [close])
            == Put(Prefixed(w), [Left(open.StartArray?)] + t + [Right(open.StartArray?)])
  {
    WriteOne(w, open);
    WriteConcat(w, [open], ev);
    WriteConcat(w, [open] + ev, [close]);
    WriteOne(Counted(Opened(w, open.StartArray?), t, n), close);
    CloseText(w, open.StartArray?, t, n);
  }

  lemma CountedTwice(w: Writing, t: Text, n: nat, u: Text, m: nat)
    requires w.levels != []
    ensures Counted(Counted(w, t, n), u, m) == Counted(w, t + u, n + m)
  {
    assert w.out + t + u == w.out + (t + u);
  }

  lemma PutCounted(w: Writing, t: Text)
    requires w.levels != []
    ensures Put(Prefixed(w), t) == Counted(w, Separator(w.levels) + t, 1)
  {
    assert w.out + Separator(w.levels) + t == w.out + (Separator(w.levels) + t);
  }

  lemma {:induction false} WriteElems(w: Writing, elems: seq<Tree>)
    requires w.levels != [] && w.levels[|w.levels| - 1].inArray
    ensures WriteAll(w, ElemEvents(elems)) == Counted(w, PrintElems(elems, w.levels[|w.levels| - 1].count), |elems|)
    decreases elems, 0
  {
    var n := w.levels[|w.levels| - 1].count;
    if elems == [] {
      assert w.levels[|w.levels| - 1 := w.levels[|w.levels| - 1].(count := n + 0)] == w.levels;
    } else {
      var t, rest := Separator(w.levels) + Print(elems[0]), elems[1..];
      WriteTree(w, elems[0]);
      WriteConcat(w, Events(elems[0]), ElemEvents(rest));
      PutCounted(w, Print(elems[0]));
      WriteElems(Counted(w, t, 1), rest);
      CountedTwice(w, t, 1, PrintElems(rest, n + 1), |rest|);
    }
  }

  lemma WriteMember(w: Writing, m: Member, k: nat)
    requires w.levels != [] && w.levels[|w.levels| - 1] == Level(2 * k, false)
    requires WriteAll(Counted(w, Separator(w.levels) + Quoted(m.name), 1), Events(m.value))
          == Put(Prefixed(Counted(w, Separator(w.levels) + Quoted(m.name), 1)), Print(m.value))
    ensures WriteAll(w, [Key(m.name)] + Events(m.value))
         == Counted(w, Separator(w.levels) + Quoted(m.name) + ([COLON] + Print(m.value)), 2)
  {
    var t := Separator(w.levels) + Quoted(m.name);
    WriteOne(w, Key(m.name));
    PutCounted(w, Quoted(m.name));
    WriteConcat(w, [Key(m.name)], Events(m.value));
    var w1 := Counted(w, t, 1);
    PutCounted(w1, Print(m.value));
    CountedTwice(w, t, 1, [COLON] + Print(m.value), 1);
  }

  lemma Regroup<T>(a: seq<T>, b: seq<T>, c: seq<T>, d: seq<T>)
    ensures a + (b + c) + d == a + b + c + d
  {
  }

  lemma MemberText(members: seq<Member>, k: nat, levels: seq<Level>)
    requires members != [] && levels != [] && levels[|levels| - 1] == Level(2 * k, false)
    ensures Separator(levels) + Quoted(members[0].name) + ([COLON] + Print(members[0].value))
            + PrintMembers(members[1..], k + 1)
         == PrintMembers(members, k)
  {
    Regroup(Separator(levels) + Quoted(members[0].name), [COLON], Print(members[0].value),
      PrintMembers(members[1..], k + 1));
  }

  lemma {:induction false} WriteMembers(w: Writing, members: seq<Member>, k: nat)
    requires w.levels != [] && w.levels[|w.levels| - 1] == Level(2 * k, false)
    ensures WriteAll(w, MemberEvents(members)) == Counted(w, PrintMembers(members, k), 2 * |members|)
    decreases members, 0
  {
    if members == [] {
      assert w.levels[|w.levels| - 1 := Level(2 * k + 0, false)] == w.levels;
    } else {
      var m, rest := members[0], members[1..];
      var t := Separator(w.levels) + Quoted(m.name) + ([COLON] + Print(m.value));
      WriteTree(Counted(w, Separator(w.levels) + Quoted(m.name), 1), m.value);
      WriteMember(w, m, k);
      WriteMembers(Counted(w, t, 2), rest, k + 1);
      MemberText(members, k, w.levels);
      JoinMembers(w, members, t, k);
    }
  }

  lemma JoinMembers(w: Writing, members: seq<Member>, t: Text, k: nat)
    requires members != [] && w.levels != []
    requires WriteAll(w, [Key(members[0].name)] + Events(members[0].value)) == Counted(w, t, 2)
    requires WriteAll(Counted(w, t, 2), MemberEvents(members[1..]))
             == Counted(Counted(w, t, 2), PrintMembers(members[1..], k + 1), 2 * |members[1..]|)
    requires t + PrintMembers(members[1..], k + 1) == PrintMembers(members, k)
    ensures WriteAll(w, MemberEvents(members)) == Counted(w, PrintMembers(members, k), 2 * |members|)
  {
    WriteConcat(w, [Key(members[0].name)] + Events(members[0].value), MemberEvents(members[1..]));
    CountedTwice(w, t, 2, PrintMembers(members[1..], k + 1), 2 * |members[1..]|);
  }

  /** The writer as an object. */
  class Writer {
    var out: Text
    var levels: seq<Level>
    var hasRoot: bool

    ghost function State(): (w: Writing)
      reads this
    {
      Writing(out, levels, hasRoot)
    }

    constructor ()
      ensures State() == Writing([], [], false)
    {
      out, levels, hasRoot := [], [], false;
    }

    /** There is room for one more value: a text has only one root. */
    ghost predicate Open()
      reads this
    {
      levels == [] ==> !hasRoot
    }

    method Prefix()
      requires Open()
      modifies this
      ensures State() == Prefixed(old(State()))
    {
      if levels != [] {
        var i := |levels| - 1;
        if levels[i].count > 0 {
          if levels[i].inArray {
            out := out + [COMMA];
          } else {
            out := out + [if levels[i].count % 2 == 0 then COMMA else COLON];
          }
        }
        levels := levels[i := levels[i].(count := levels[i].count + 1)];
      } else {
        hasRoot := true;
      }
    }

    method Scalar(e: Event)
      requires Open() && (e.Null? || e.Bool? || e.Number? || e.String? || e.Key?)
      requires e.Number? ==> -0x8000_0000_0000_0000 <= e.n <= 0xFFFF_FFFF_FFFF_FFFF
      modifies this
      ensures State() == Write(old(State()), e)
    {
      Prefix();
      match e
      case Null => out := out + NULL_TEXT;
      case Bool(b) => out := out + if b then TRUE_TEXT else FALSE_TEXT;
      case Number(n) =>
        var t := WriteDecimal(n);
        out := out + t;
      case String(s) =>
        var t := WriteString(s);
        out := out + t;
      case Key(s) =>
        var t := WriteString(s);
        out := out + t;
    }

    /** StartArray or StartObject */
    method Start(arr: bool)
      requires Open()
      modifies this
      ensures State() == Write(old(State()), if arr then StartArray else StartObject)
    {
      Prefix();
      levels := levels + [Level(0, arr)];
      out := out + [if arr then LBRACKET else LBRACE];
    }

    /** EndArray or EndObject */
    method End(arr: bool, n: nat)
      requires levels != [] && levels[|levels| - 1].inArray == arr
      modifies this
      ensures State() == Write(old(State()), if arr then EndArray(n) else EndObject(n))
    {
      levels := levels[..|levels| - 1];
      out := out + [if arr then RBRACKET else RBRACE];
    }

    /** GenericValue::Accept with the writer as handler: the text of the tree is appended, after a
        separator where one is due. */
    method Accept(t: Tree)
      requires Open()
      modifies this
      ensures State() == Put(Prefixed(old(State())), Print(t))
      decreases t, 1
    {
      WriteTree(State(), t);
      match t
      case JNull =>
        WriteOne(State(), Null);
        Scalar(Null);
      case JBool(b) =>
        WriteOne(State(), Bool(b));
        Scalar(Bool(b));
      case JNumber(n) =>
        WriteOne(State(), Number(n));
        Scalar(Number(n));
      case JString(s) =>
        WriteOne(State(), String(s));
        Scalar(String(s));
      case JArray(elems) =>
        AcceptArray(elems);
      case JObject(members) =>
        AcceptObject(members);
    }

    method AcceptArray(elems: seq<Tree>)
      requires Open()
      modifies this
      ensures State() == WriteAll(old(State()), Events(JArray(elems)))
      decreases elems, 0
    {
      ghost var end := [EndArray(|elems|)];
      WriteConcat(State(), [StartArray], ElemEvents(elems) + end);
      WriteOne(State(), StartArray);
      assert Events(JArray(elems)) == [StartArray] + (ElemEvents(elems) + end);
      Start(true);
      ghost var l := |levels|;
      for i := 0 to |elems|
        invariant |levels| == l && levels[l - 1].inArray
        invariant WriteAll(State(), ElemEvents(elems[i..]) + end) == WriteAll(old(State()), Events(JArray(elems)))
      {
        ElemFirst(State(), elems, i, end);
        WriteTree(State(), elems[i]);
        Accept(elems[i]);
      }
      assert elems[|elems|..] == [] && [] + end == end;
      WriteOne(State(), EndArray(|elems|));
      End(true, |elems|);
    }

    method AcceptObject(members: seq<Member>)
      requires Open()
      modifies this
      ensures State() == WriteAll(old(State()), Events(JObject(members)))
      decreases members, 0
    {
      ghost var end := [EndObject(|members|)];
      WriteConcat(State(), [StartObject], MemberEvents(members) + end);
      WriteOne(State(), StartObject);
      assert Events(JObject(members)) == [StartObject] + (MemberEvents(members) + end);
      Start(false);
      ghost var l := |levels|;
      for i := 0 to |members|
        invariant |levels| == l && !levels[l - 1].inArray
        invariant WriteAll(State(), MemberEvents(members[i..]) + end)
                  == WriteAll(old(State()), Events(JObject(members)))
      {
        MemberFirst(State(), members, i, end);
        Scalar(Key(members[i].name));
        WriteTree(State(), members[i].value);
        Accept(members[i].value);
      }
      assert members[|members|..] == [] && [] + end == end;
      WriteOne(State(), EndObject(|members|));
      End(false, |members|);
    }
  }

  /** Element `i` is written first. */
  lemma ElemFirst(w: Writing, elems: seq<Tree>, i: nat, end: seq<Event>)
    requires i < |elems|
    ensures WriteAll(w, ElemEvents(elems[i..]) + end)
            == WriteAll(WriteAll(w, Events(elems[i])), ElemEvents(elems[i + 1..]) + end)
  {
    var more := ElemEvents(elems[i + 1..]) + end;
    assert elems[i..][1..] == elems[i + 1..] && elems[i..][0] == elems[i];
    assert ElemEvents(elems[i..]) + end == Events(elems[i]) + more;
    WriteConcat(w, Events(elems[i]), more);
  }

  /** Member `i` is written first: its name, then its value. */
  lemma MemberFirst(w: Writing, members: seq<Member>, i: nat, end: seq<Event>)
    requires i < |members|
    ensures WriteAll(w, MemberEvents(members[i..]) + end)
         == WriteAll(WriteAll(Write(w, Key(members[i].name)), Events(members[i].value)),
           MemberEvents(members[i + 1..]) + end)
  {
    var m, more := members[i], MemberEvents(members[i + 1..]) + end;
    assert members[i..][1..] == members[i + 1..] && members[i..][0] == m;
    assert MemberEvents(members[i..]) + end == [Key(m.name)] + (Events(m.value) + more);
    WriteConcat(w, [Key(m.name)], Events(m.value) + more);
    WriteOne(w, Key(m.name));
    WriteConcat(Write(w, Key(m.name)), Events(m.value), more);
  }
}
