/** What the writer prints, the reader reads back: every tree of nulls, booleans, whole numbers, arbitrary
    byte strings, arrays and objects survives printing and parsing. */
module JsonRoundTrip {
  import opened JsonGrammar
  import opened JsonText
  import opened JsonTree
  import opened JsonWriter
  import opened JsonNumber

  /** Text `t` stands in `s` at position `p`. */
  ghost predicate At(s: Text, p: nat, t: Text) {
    p + |t| <= |s| && forall i :: 0 <= i < |t| ==> s[p + i] == t[i]
  }

  lemma AtParts(s: Text, p: nat, a: Text, b: Text)
    requires At(s, p, a + b)
    ensures At(s, p, a) && At(s, p + |a|, b)
  {
    assert forall i :: 0 <= i < |a| ==> (a + b)[i] == a[i];
    assert forall i :: 0 <= i < |b| ==> (a + b)[|a| + i] == b[i];
  }

  lemma Join<T>(a: seq<T>, b: seq<T>, c: seq<T>, d: seq<T>)
    ensures a + b + c + d == a + (b + c + d)
  {
  }

  // ---------- strings ----------

  lemma ReadHex(s: Text, p: nat, c: Byte)
    requires At(s, p, [0x30, 0x30, HexDigit(c / 16), HexDigit(c % 16)])
    ensures Hex(s, p, 4, 0) == c
  {
    var t := [0x30, 0x30, HexDigit(c / 16), HexDigit(c % 16)];
    assert s[p + 0] == t[0] && s[p + 1] == t[1] && s[p + 2] == t[2] && s[p + 3] == t[3];
    assert Hex(s, p, 4, 0) == Hex(s, p + 1, 3, 0);
    assert Hex(s, p + 1, 3, 0) == Hex(s, p + 2, 2, 0);
    assert Hex(s, p + 2, 2, 0) == Hex(s, p + 3, 1, c / 16);
    assert Hex(s, p + 3, 1, c / 16) == Hex(s, p + 4, 0, 16 * (c / 16) + c % 16);
  }

  /** Reading one written byte. */
  lemma ReadByte(s: Text, p: nat, c: Byte, acc: Text)
    requires At(s, p, EscapedByte(c))
    ensures Chars(s, p, acc) == Chars(s, p + |EscapedByte(c)|, acc + [c])
  {
    var t := EscapedByte(c);
    assert s[p] == t[0];
    if Escape(c) == LOWER_U {
      assert t == [BACKSLASH, LOWER_U] + [0x30, 0x30, HexDigit(c / 16), HexDigit(c % 16)];
      AtParts(s, p, [BACKSLASH, LOWER_U], [0x30, 0x30, HexDigit(c / 16), HexDigit(c % 16)]);
      ReadHex(s, p + 2, c);
      assert s[p + 1] == t[1];
    } else if Escape(c) != 0 {
      assert s[p + 1] == t[1];
    }
  }

  lemma EscapedFirst(str: Text)
    requires str != []
    ensures Escaped(str) + [QUOTE] == EscapedByte(str[0]) + (Escaped(str[1..]) + [QUOTE])
  {
    assert Escaped(str) == EscapedByte(str[0]) + Escaped(str[1..]);
  }

  lemma FirstAndRest(acc: Text, str: Text)
    requires str != []
    ensures acc + [str[0]] + str[1..] == acc + str
  {
  }

  lemma {:induction false} ReadChars(s: Text, p: nat, str: Text, acc: Text)
    requires At(s, p, Escaped(str) + [QUOTE])
    ensures Chars(s, p, acc) == Got(acc + str, p + |Escaped(str)| + 1)
    decreases |str|
  {
    if str == [] {
      assert Escaped(str) + [QUOTE] == [QUOTE];
      assert s[p + 0] == [QUOTE][0];
      assert acc + str == acc;
    } else {
      EscapedFirst(str);
      AtParts(s, p, EscapedByte(str[0]), Escaped(str[1..]) + [QUOTE]);
      ReadByte(s, p, str[0], acc);
      ReadChars(s, p + |EscapedByte(str[0])|, str[1..], acc + [str[0]]);
      FirstAndRest(acc, str);
    }
  }

  /** Every byte string is read back from its quoted form: NULs, quotes, backslashes, control
      characters and all. */
  lemma ReadQuoted(s: Text, p: nat, str: Text)
    requires At(s, p, Quoted(str))
    ensures ScanText(s, p) == Got(str, p + |Quoted(str)|)
  {
    assert Quoted(str) == [QUOTE] + (Escaped(str) + [QUOTE]);
    AtParts(s, p, [QUOTE], Escaped(str) + [QUOTE]);
    assert s[p] == [QUOTE][0];
    ReadChars(s, p + 1, str, []);
    assert [] + str == str;
  }

  // ---------- values ----------

  lemma NoSkip(s: Text, comments: bool, p: nat)
    requires !Space(Peek(s, p)) && Peek(s, p) != SLASH
    ensures Skip(s, comments, p) == p
  {
  }

  /** The scanner works on text `s`. */
  ghost predicate ReadsAt(lx: Lexer, s: Text, comments: bool, q: nat) {
    lx.peek(q) == Peek(s, q) && lx.skip(q) == Skip(s, comments, q) && lx.text(q) == ScanText(s, q)
  }

  ghost predicate Reads(lx: Lexer, s: Text, comments: bool) {
    Laws(lx) && forall q {:trigger ReadsAt(lx, s, comments, q)} :: ReadsAt(lx, s, comments, q)
  }

  /** Neither white space nor the beginning of a comment. */
  predicate Solid(c: Byte) {
    !Space(c) && c != SLASH
  }

  /** The first byte of a text that stands at `p`: it is the next byte, and nothing is skipped. */
  lemma NextByte(lx: Lexer, s: Text, comments: bool, p: nat, t: Text)
    requires Reads(lx, s, comments) && At(s, p, t) && t != [] && Solid(t[0])
    ensures lx.peek(p) == t[0] && lx.skip(p) == p
  {
    assert s[p + 0] == t[0];
    assert ReadsAt(lx, s, comments, p);
    NoSkip(s, comments, p);
  }

  predicate Begins(c: Byte) {
    || c == LOWER_N || c == LOWER_T || c == LOWER_F || c == QUOTE || c == LBRACKET || c == LBRACE
    || c == MINUS || Digit(c)
  }

  /** What stands behind a value in printed text. */
  predicate Ends(c: Byte) {
    c == 0 || c == COMMA || c == RBRACKET || c == RBRACE
  }

  /** The scanner reads the number back wherever its text stands in `s` as a value. */
  ghost predicate BackAt(lx: Lexer, s: Text, n: int, q: nat) {
    At(s, q, Decimal(n)) && Ends(Peek(s, q + |Decimal(n)|)) ==> lx.number(q) == Got(n, q + |Decimal(n)|)
  }

  /** ... and so for every number of a tree. */
  ghost predicate Back(lx: Lexer, s: Text, t: Tree) {
    match t
    case JNumber(n) => forall q {:trigger BackAt(lx, s, n, q)} :: BackAt(lx, s, n, q)
    case JArray(elems) => BackElems(lx, s, elems)
    case JObject(members) => BackMembers(lx, s, members)
    case _ => true
  }

  ghost predicate BackElems(lx: Lexer, s: Text, elems: seq<Tree>) {
    elems == [] || (Back(lx, s, elems[0]) && BackElems(lx, s, elems[1..]))
  }

  ghost predicate BackMembers(lx: Lexer, s: Text, members: seq<Member>) {
    members == [] || (Back(lx, s, members[0].value) && BackMembers(lx, s, members[1..]))
  }

  lemma FirstByte(t: Tree)
    ensures Print(t) != [] && Begins(Print(t)[0]) && Solid(Print(t)[0])
  {
  }

  // ---------- what the grammar does at one place ----------

  lemma EnterArray(lx: Lexer, ev: seq<Event>, p: nat)
    requires Laws(lx) && lx.peek(p) == LBRACKET && lx.skip(p + 1) == p + 1
    ensures Value(lx, ev, p) == ArrayBody(lx, ev + [StartArray], p + 1)
  {
    assert PeekLaw(lx, p);
  }

  lemma EnterObject(lx: Lexer, ev: seq<Event>, p: nat)
    requires Laws(lx) && lx.peek(p) == LBRACE && lx.skip(p + 1) == p + 1
    ensures Value(lx, ev, p) == ObjectBody(lx, ev + [StartObject], p + 1)
  {
    assert PeekLaw(lx, p);
  }

  lemma PassKey(lx: Lexer, ev: seq<Event>, p: nat, k: Text, q: nat, n: nat)
    requires Laws(lx) && lx.peek(p) == QUOTE && lx.text(p) == Got(k, q) && lx.skip(q) == q && lx.peek(q) == COLON
             && lx.skip(q + 1) == q + 1
    ensures Members(lx, ev, p, n) == MemberValue(lx, ev + [Key(k)], q + 1, n)
  {
    assert TextLaw(lx, p);
    assert Members(lx, ev, p, n) == AfterKey(lx, ev + [Key(k)], q, n);
  }

  // ---------- values ----------

  /** Printed text parses to the events of the tree, wherever it stands. */
  lemma {:induction false} ReadTree(lx: Lexer, s: Text, comments: bool, ev: seq<Event>, p: nat, t: Tree)
    requires Reads(lx, s, comments) && At(s, p, Print(t)) && Ends(Peek(s, p + |Print(t)|)) && Back(lx, s, t)
    ensures Value(lx, ev, p) == Go(ev + Events(t), p + |Print(t)|)
    decreases t, 1
  {
    match t
    case JArray(elems) => ReadArray(lx, s, comments, ev, p, elems);
    case JObject(members) => ReadObject(lx, s, comments, ev, p, members);
    case _ => ReadScalar(lx, s, comments, ev, p, t);
  }

  lemma ReadScalar(lx: Lexer, s: Text, comments: bool, ev: seq<Event>, p: nat, t: Tree)
    requires Reads(lx, s, comments) && At(s, p, Print(t)) && !t.JArray? && !t.JObject?
    requires Ends(Peek(s, p + |Print(t)|)) && Back(lx, s, t)
    ensures Value(lx, ev, p) == Go(ev + Events(t), p + |Print(t)|)
  {
    FirstByte(t);
    NextByte(lx, s, comments, p, Print(t));
    match t
    case JNull => ReadWord(lx, s, comments, p + 1, Tail(s, p, NULL_TEXT));
    case JBool(b) =>
      if b {
        ReadWord(lx, s, comments, p + 1, Tail(s, p, TRUE_TEXT));
      } else {
        ReadWord(lx, s, comments, p + 1, Tail(s, p, FALSE_TEXT));
      }
    case JNumber(n) =>
      assert BackAt(lx, s, n, p);
      assert NumberLaw(lx, p);
    case JString(str) =>
      ReadQuoted(s, p, str);
      assert ReadsAt(lx, s, comments, p);
  }

  ghost function Tail(s: Text, p: nat, word: Text): (rest: Text)
    requires word != [] && At(s, p, word)
    ensures rest == word[1..] && At(s, p + 1, rest)
  {
    AtParts(s, p, [word[0]], word[1..]);
    assert [word[0]] + word[1..] == word;
    word[1..]
  }

  lemma {:induction false} ReadWord(lx: Lexer, s: Text, comments: bool, p: nat, word: seq<Byte>)
    requires Reads(lx, s, comments) && At(s, p, word)
    ensures Matches(lx, p, word)
    decreases |word|
  {
    if word != [] {
      assert s[p + 0] == word[0];
      assert ReadsAt(lx, s, comments, p);
      ReadWord(lx, s, comments, p + 1, Tail(s, p, word));
    }
  }

  // ---------- arrays ----------

  /** The text of one or more elements up to the closing bracket, cut at its joints. */
  ghost function ElemsText(elems: seq<Tree>, n: nat): (t: Text)
    requires elems != []
  {
    Print(elems[0]) + (PrintElems(elems[1..], n + 1) + [RBRACKET])
  }

  lemma Fours<T>(a: seq<T>, b: seq<T>, c: seq<T>, d: seq<T>)
    ensures a + b + c + d == a + (b + (c + d))
  {
    Join(a, b, c, d);
  }

  lemma ElemsTextIs(elems: seq<Tree>, n: nat)
    requires elems != []
    ensures PrintElems(elems, n) + [RBRACKET] == (if n > 0 then [COMMA] else []) + ElemsText(elems, n)
    ensures ElemsText(elems, n) != [] && Solid(ElemsText(elems, n)[0]) && Begins(ElemsText(elems, n)[0])
  {
    Fours(if n > 0 then [COMMA] else [], Print(elems[0]), PrintElems(elems[1..], n + 1), [RBRACKET]);
    FirstByte(elems[0]);
  }

  lemma ArrayText(elems: seq<Tree>)
    requires elems != []
    ensures Print(JArray(elems)) == [LBRACKET] + ElemsText(elems, 0)
  {
    ElemsTextIs(elems, 0);
    var t := PrintElems(elems, 0);
    assert t + [RBRACKET] == [] + ElemsText(elems, 0) == ElemsText(elems, 0);
    assert [LBRACKET] + t + [RBRACKET] == [LBRACKET] + (t + [RBRACKET]);
  }

  lemma ReadEmptyArray(lx: Lexer, s: Text, comments: bool, ev: seq<Event>, p: nat)
    requires Reads(lx, s, comments) && At(s, p, [LBRACKET, RBRACKET])
    ensures Value(lx, ev, p) == Go(ev + [StartArray] + [EndArray(0)], p + 2)
  {
    assert [LBRACKET, RBRACKET] == [LBRACKET] + [RBRACKET];
    AtParts(s, p, [LBRACKET], [RBRACKET]);
    NextByte(lx, s, comments, p, [LBRACKET]);
    NextByte(lx, s, comments, p + 1, [RBRACKET]);
    EnterArray(lx, ev, p);
  }

  lemma {:induction false} ReadArray(lx: Lexer, s: Text, comments: bool, ev: seq<Event>, p: nat, elems: seq<Tree>)
    requires Reads(lx, s, comments) && At(s, p, Print(JArray(elems)))
    requires BackElems(lx, s, elems)
    ensures Value(lx, ev, p) == Go(ev + Events(JArray(elems)), p + |Print(JArray(elems))|)
    decreases elems, 3
  {
    if elems == [] {
      assert Print(JArray(elems)) == [LBRACKET, RBRACKET];
      ReadEmptyArray(lx, s, comments, ev, p);
      assert ev + [StartArray] + [EndArray(0)] == ev + Events(JArray(elems));
    } else {
      ArrayText(elems);
      AtParts(s, p, [LBRACKET], ElemsText(elems, 0));
      ReadFullArray(lx, s, comments, ev, p, elems);
      Join(ev, [StartArray], ElemEvents(elems), [EndArray(|elems|)]);
    }
  }

  lemma {:induction false} ReadFullArray(lx: Lexer, s: Text, comments: bool, ev: seq<Event>, p: nat, elems: seq<Tree>)
    requires Reads(lx, s, comments) && elems != [] && At(s, p, [LBRACKET]) && At(s, p + 1, ElemsText(elems, 0))
    requires BackElems(lx, s, elems)
    ensures Value(lx, ev, p)
            == Go(ev + [StartArray] + ElemEvents(elems) + [EndArray(|elems|)], p + 1 + |ElemsText(elems, 0)|)
    decreases elems, 2, 1
  {
    ElemsTextIs(elems, 0);
    NextByte(lx, s, comments, p, [LBRACKET]);
    NextByte(lx, s, comments, p + 1, ElemsText(elems, 0));
    EnterArray(lx, ev, p);
    ReadElems(lx, s, comments, ev + [StartArray], p + 1, elems, 0);
  }

  lemma {:induction false} ReadElems(lx: Lexer, s: Text, comments: bool, ev: seq<Event>, p: nat, elems: seq<Tree>,
                                     n: nat)
    requires Reads(lx, s, comments) && elems != [] && At(s, p, ElemsText(elems, n))
    requires BackElems(lx, s, elems)
    ensures Elements(lx, ev, p, n) == Go(ev + ElemEvents(elems) + [EndArray(n + |elems|)], p + |ElemsText(elems, n)|)
    decreases elems, 2, 0
  {
    FirstElem(lx, s, comments, p, elems, n);
    ReadTree(lx, s, comments, ev, p, elems[0]);
    ReadMoreElems(lx, s, comments, ev, p + |Print(elems[0])|, elems, n);
  }

  /** Everything of the first element but its value. */
  lemma FirstElem(lx: Lexer, s: Text, comments: bool, p: nat, elems: seq<Tree>, n: nat)
    requires Reads(lx, s, comments) && elems != [] && At(s, p, ElemsText(elems, n))
    ensures var q, tail := p + |Print(elems[0])|, PrintElems(elems[1..], n + 1) + [RBRACKET];
            && At(s, p, Print(elems[0])) && At(s, q, tail) && Ends(Peek(s, q)) && lx.skip(q) == q
            && q + |PrintElems(elems[1..], n + 1)| + 1 == p + |ElemsText(elems, n)|
  {
    var tail := PrintElems(elems[1..], n + 1) + [RBRACKET];
    AtParts(s, p, Print(elems[0]), tail);
    if elems[1..] != [] {
      ElemsTextIs(elems[1..], n + 1);
    }
    NextByte(lx, s, comments, p + |Print(elems[0])|, tail);
    assert ReadsAt(lx, s, comments, p + |Print(elems[0])|);
  }

  lemma ElemEventsFirst(ev: seq<Event>, elems: seq<Tree>)
    requires elems != []
    ensures ev + Events(elems[0]) + ElemEvents(elems[1..]) == ev + ElemEvents(elems)
  {
    assert ev + Events(elems[0]) + ElemEvents(elems[1..]) == ev + (Events(elems[0]) + ElemEvents(elems[1..]));
  }

  /** After one element: the closing bracket, or a comma and the other elements. */
  lemma {:induction false} ReadMoreElems(lx: Lexer, s: Text, comments: bool, ev: seq<Event>, q: nat,
                                         elems: seq<Tree>, n: nat)
    requires Reads(lx, s, comments) && elems != [] && At(s, q, PrintElems(elems[1..], n + 1) + [RBRACKET])
    requires BackElems(lx, s, elems)
    ensures AfterElement(lx, ev + Events(elems[0]), q, n)
         == Go(ev + ElemEvents(elems) + [EndArray(n + |elems|)], q + |PrintElems(elems[1..], n + 1)| + 1)
    decreases elems, 1
  {
    var ev1, rest := ev + Events(elems[0]), elems[1..];
    if rest == [] {
      assert PrintElems(rest, n + 1) + [RBRACKET] == [RBRACKET];
      NextByte(lx, s, comments, q, [RBRACKET]);
      assert ElemEvents(elems) == Events(elems[0]) + [];
      assert ev1 + [EndArray(n + 1)] == ev + ElemEvents(elems) + [EndArray(n + 1)];
    } else {
      ElemsTextIs(rest, n + 1);
      var more := ElemsText(rest, n + 1);
      AtParts(s, q, [COMMA], more);
      NextByte(lx, s, comments, q, [COMMA]);
      NextByte(lx, s, comments, q + 1, more);
      ReadElems(lx, s, comments, ev1, q + 1, rest, n + 1);
      ElemEventsFirst(ev, elems);
    }
  }

  // ---------- objects ----------

  /** The text of one or more members up to the closing brace, cut at its joints. */
  ghost function MembersText(members: seq<Member>, n: nat): (t: Text)
    requires members != []
  {
    Quoted(members[0].name) + ([COLON] + (Print(members[0].value) + (PrintMembers(members[1..], n + 1) + [RBRACE])))
  }

  lemma Nest<T>(a: seq<T>, b: seq<T>, c: seq<T>, d: seq<T>, e: seq<T>, f: seq<T>)
    ensures a + b + c + d + e + f == a + (b + (c + (d + (e + f))))
  {
    Join(a + b, c, d, e);
    Join(a, b, c + d + e, f);
    Join(c, d, e, f);
  }

  lemma MembersTextIs(members: seq<Member>, n: nat)
    requires members != []
    ensures PrintMembers(members, n) + [RBRACE] == (if n > 0 then [COMMA] else []) + MembersText(members, n)
    ensures MembersText(members, n) != [] && MembersText(members, n)[0] == QUOTE
    ensures |PrintMembers(members, n)| + 1 == |MembersText(members, n)| + if n > 0 then 1 else 0
  {
    Nest(if n > 0 then [COMMA] else [], Quoted(members[0].name), [COLON], Print(members[0].value),
      PrintMembers(members[1..], n + 1), [RBRACE]);
  }

  lemma ObjectText(members: seq<Member>)
    requires members != []
    ensures Print(JObject(members)) == [LBRACE] + MembersText(members, 0)
    ensures MembersText(members, 0) != [] && MembersText(members, 0)[0] == QUOTE
  {
    MembersTextIs(members, 0);
    var t := PrintMembers(members, 0);
    assert t + [RBRACE] == [] + MembersText(members, 0) == MembersText(members, 0);
    assert [LBRACE] + t + [RBRACE] == [LBRACE] + (t + [RBRACE]);
  }

  lemma ReadEmptyObject(lx: Lexer, s: Text, comments: bool, ev: seq<Event>, p: nat)
    requires Reads(lx, s, comments) && At(s, p, [LBRACE, RBRACE])
    ensures Value(lx, ev, p) == Go(ev + [StartObject] + [EndObject(0)], p + 2)
  {
    assert [LBRACE, RBRACE] == [LBRACE] + [RBRACE];
    AtParts(s, p, [LBRACE], [RBRACE]);
    NextByte(lx, s, comments, p, [LBRACE]);
    NextByte(lx, s, comments, p + 1, [RBRACE]);
    EnterObject(lx, ev, p);
  }

  lemma {:induction false} ReadObject(lx: Lexer, s: Text, comments: bool, ev: seq<Event>, p: nat, members: seq<Member>)
    requires Reads(lx, s, comments) && At(s, p, Print(JObject(members)))
    requires BackMembers(lx, s, members)
    ensures Value(lx, ev, p) == Go(ev + Events(JObject(members)), p + |Print(JObject(members))|)
    decreases members, 3
  {
    if members == [] {
      assert Print(JObject(members)) == [LBRACE, RBRACE];
      ReadEmptyObject(lx, s, comments, ev, p);
      assert ev + [StartObject] + [EndObject(0)] == ev + Events(JObject(members));
    } else {
      ObjectText(members);
      AtParts(s, p, [LBRACE], MembersText(members, 0));
      ReadFullObject(lx, s, comments, ev, p, members);
      Join(ev, [StartObject], MemberEvents(members), [EndObject(|members|)]);
    }
  }

  lemma {:induction false} ReadFullObject(lx: Lexer, s: Text, comments: bool, ev: seq<Event>, p: nat,
                                          members: seq<Member>)
    requires Reads(lx, s, comments) && members != [] && At(s, p, [LBRACE]) && At(s, p + 1, MembersText(members, 0))
    requires BackMembers(lx, s, members)
    requires MembersText(members, 0) != [] && MembersText(members, 0)[0] == QUOTE
    ensures Value(lx, ev, p)
            == Go(ev + [StartObject] + MemberEvents(members) + [EndObject(|members|)], p + 1
              + |MembersText(members, 0)|)
    decreases members, 2, 1
  {
    NextByte(lx, s, comments, p, [LBRACE]);
    NextByte(lx, s, comments, p + 1, MembersText(members, 0));
    EnterObject(lx, ev, p);
    OpenMembers(lx, ev + [StartObject], p + 1);
    ReadMembers(lx, s, comments, ev + [StartObject], p + 1, members, 0);
  }

  lemma OpenMembers(lx: Lexer, ev: seq<Event>, p: nat)
    requires Laws(lx) && lx.peek(p) == QUOTE
    ensures ObjectBody(lx, ev, p) == Members(lx, ev, p, 0)
  {
    assert PeekLaw(lx, p);
  }

  /** One member's name and colon. */
  lemma ReadName(lx: Lexer, s: Text, comments: bool, ev: seq<Event>, p: nat, name: Text, tail: Text, n: nat)
    requires Reads(lx, s, comments) && At(s, p, Quoted(name) + ([COLON] + tail)) && tail != [] && Solid(tail[0])
    ensures Members(lx, ev, p, n) == MemberValue(lx, ev + [Key(name)], p + |Quoted(name)| + 1, n)
    ensures At(s, p + |Quoted(name)| + 1, tail)
  {
    var q := p + |Quoted(name)|;
    AtParts(s, p, Quoted(name), [COLON] + tail);
    AtParts(s, q, [COLON], tail);
    ReadQuoted(s, p, name);
    NextByte(lx, s, comments, p, Quoted(name));
    NextByte(lx, s, comments, q, [COLON]);
    NextByte(lx, s, comments, q + 1, tail);
    assert ReadsAt(lx, s, comments, p);
    PassKey(lx, ev, p, name, q, n);
  }

  lemma MembersTextLength(members: seq<Member>, n: nat)
    requires members != []
    ensures |MembersText(members, n)| == |Quoted(members[0].name)| + 1 + |Print(members[0].value)|
            + |PrintMembers(members[1..], n + 1)| + 1
  {
  }

  lemma TailSolid(members: seq<Member>, n: nat)
    requires members != []
    ensures var tail := PrintMembers(members[1..], n + 1) + [RBRACE]; tail != [] && Solid(tail[0]) && Ends(tail[0])
  {
    if members[1..] != [] {
      MembersTextIs(members[1..], n + 1);
    }
  }

  /** The value of a member, up to the comma or brace behind it. */
  lemma PassValue(lx: Lexer, s: Text, comments: bool, ev: seq<Event>, q: nat, t: Tree, tail: Text, n: nat)
    requires Reads(lx, s, comments) && Value(lx, ev, q) == Go(ev + Events(t), q + |Print(t)|)
    requires At(s, q + |Print(t)|, tail) && tail != [] && Solid(tail[0])
    ensures MemberValue(lx, ev, q, n) == AfterMember(lx, ev + Events(t), q + |Print(t)|, n)
  {
    NextByte(lx, s, comments, q + |Print(t)|, tail);
  }

  lemma {:induction false} ReadMembers(lx: Lexer, s: Text, comments: bool, ev: seq<Event>, p: nat,
                                       members: seq<Member>, n: nat)
    requires Reads(lx, s, comments) && members != [] && At(s, p, MembersText(members, n))
    requires BackMembers(lx, s, members)
    ensures Members(lx, ev, p, n)
            == Go(ev + MemberEvents(members) + [EndObject(n + |members|)], p + |MembersText(members, n)|)
    decreases members, 2, 0
  {
    var q := ReadFirst(lx, s, comments, ev, p, members, n);
    ReadMember(lx, s, comments, ev, q, members, n);
  }

  /** The value of the first member, and the members behind it. */
  lemma {:induction false} ReadMember(lx: Lexer, s: Text, comments: bool, ev: seq<Event>, q: nat,
                                      members: seq<Member>, n: nat)
    requires Reads(lx, s, comments) && members != [] && BackMembers(lx, s, members)
    requires At(s, q, Print(members[0].value)) && Ends(Peek(s, q + |Print(members[0].value)|))
    requires var tail := PrintMembers(members[1..], n + 1) + [RBRACE];
             At(s, q + |Print(members[0].value)|, tail) && tail != [] && Solid(tail[0])
    ensures MemberValue(lx, ev + [Key(members[0].name)], q, n)
            == Go(ev + MemberEvents(members) + [EndObject(n + |members|)],
                 q + |Print(members[0].value)| + |PrintMembers(members[1..], n + 1)| + 1)
    decreases members, 1, 1
  {
    var m, tail := members[0], PrintMembers(members[1..], n + 1) + [RBRACE];
    ReadTree(lx, s, comments, ev + [Key(m.name)], q, m.value);
    PassValue(lx, s, comments, ev + [Key(m.name)], q, m.value, tail, n);
    ReadMoreMembers(lx, s, comments, ev, q + |Print(m.value)|, members, n);
  }

  /** Everything of the first member but its value. */
  lemma ReadFirst(lx: Lexer, s: Text, comments: bool, ev: seq<Event>, p: nat, members: seq<Member>, n: nat)
    returns (q: nat)
    requires Reads(lx, s, comments) && members != [] && At(s, p, MembersText(members, n))
    ensures var m, tail := members[0], PrintMembers(members[1..], n + 1) + [RBRACE];
            && Members(lx, ev, p, n) == MemberValue(lx, ev + [Key(m.name)], q, n)
            && At(s, q, Print(m.value)) && At(s, q + |Print(m.value)|, tail)
            && tail != [] && Solid(tail[0]) && Ends(Peek(s, q + |Print(m.value)|))
            && q + |Print(m.value)| + |PrintMembers(members[1..], n + 1)| + 1 == p + |MembersText(members, n)|
  {
    var m, tail := members[0], PrintMembers(members[1..], n + 1) + [RBRACE];
    q := p + |Quoted(m.name)| + 1;
    TailSolid(members, n);
    ReadHead(lx, s, comments, ev, p, m, tail, n);
    BehindEnds(lx, s, comments, q + |Print(m.value)|, tail);
    MembersTextLength(members, n);
  }

  lemma BehindEnds(lx: Lexer, s: Text, comments: bool, q: nat, tail: Text)
    requires Reads(lx, s, comments) && At(s, q, tail) && tail != [] && Solid(tail[0]) && Ends(tail[0])
    ensures Ends(Peek(s, q))
  {
    NextByte(lx, s, comments, q, tail);
    assert ReadsAt(lx, s, comments, q);
  }

  /** The name of a member and the colon, up to its value. */
  lemma ReadHead(lx: Lexer, s: Text, comments: bool, ev: seq<Event>, p: nat, m: Member, tail: Text, n: nat)
    requires Reads(lx, s, comments) && At(s, p, Quoted(m.name) + ([COLON] + (Print(m.value) + tail)))
    ensures var q := p + |Quoted(m.name)| + 1;
            && Members(lx, ev, p, n) == MemberValue(lx, ev + [Key(m.name)], q, n)
            && At(s, q, Print(m.value)) && At(s, q + |Print(m.value)|, tail)
  {
    FirstByte(m.value);
    ReadName(lx, s, comments, ev, p, m.name, Print(m.value) + tail, n);
    AtParts(s, p + |Quoted(m.name)| + 1, Print(m.value), tail);
  }

  /** After the last member: the closing brace. */
  lemma ReadLastMember(lx: Lexer, s: Text, comments: bool, ev: seq<Event>, q: nat, members: seq<Member>, n: nat)
    requires Reads(lx, s, comments) && |members| == 1 && At(s, q, PrintMembers(members[1..], n + 1) + [RBRACE])
    ensures AfterMember(lx, ev + [Key(members[0].name)] + Events(members[0].value), q, n)
         == Go(ev + MemberEvents(members) + [EndObject(n + |members|)], q + |PrintMembers(members[1..], n + 1)| + 1)
  {
    var ev1, rest := ev + [Key(members[0].name)] + Events(members[0].value), members[1..];
    assert PrintMembers(rest, n + 1) + [RBRACE] == [RBRACE];
    NextByte(lx, s, comments, q, [RBRACE]);
    MemberEventsFirst(ev, members);
    assert ev1 + MemberEvents(rest) == ev1;
  }

  /** After one member: the closing brace, or a comma and the other members. */
  lemma {:induction false} ReadMoreMembers(lx: Lexer, s: Text, comments: bool, ev: seq<Event>, q: nat,
                                           members: seq<Member>, n: nat)
    requires Reads(lx, s, comments) && members != [] && At(s, q, PrintMembers(members[1..], n + 1) + [RBRACE])
    requires BackMembers(lx, s, members)
    ensures AfterMember(lx, ev + [Key(members[0].name)] + Events(members[0].value), q, n)
         == Go(ev + MemberEvents(members) + [EndObject(n + |members|)], q + |PrintMembers(members[1..], n + 1)| + 1)
    decreases members, 1, 0
  {
    var ev1, rest := ev + [Key(members[0].name)] + Events(members[0].value), members[1..];
    if rest == [] {
      ReadLastMember(lx, s, comments, ev, q, members, n);
    } else {
      NextMember(lx, s, comments, ev1, q, rest, n);
      ReadMembers(lx, s, comments, ev1, q + 1, rest, n + 1);
      MemberEventsFirst(ev, members);
    }
  }

  lemma NextMember(lx: Lexer, s: Text, comments: bool, ev: seq<Event>, q: nat, rest: seq<Member>, n: nat)
    requires Reads(lx, s, comments) && rest != [] && At(s, q, PrintMembers(rest, n + 1) + [RBRACE])
    ensures AfterMember(lx, ev, q, n) == Members(lx, ev, q + 1, n + 1) && At(s, q + 1, MembersText(rest, n + 1))
    ensures q + 1 + |MembersText(rest, n + 1)| == q + |PrintMembers(rest, n + 1)| + 1
  {
    MembersTextIs(rest, n + 1);
    PassComma(lx, s, comments, ev, q, MembersText(rest, n + 1), n);
  }

  /** A comma behind a member, and the name of the next one. */
  lemma PassComma(lx: Lexer, s: Text, comments: bool, ev: seq<Event>, q: nat, more: Text, n: nat)
    requires Reads(lx, s, comments) && At(s, q, [COMMA] + more) && more != [] && more[0] == QUOTE
    ensures AfterMember(lx, ev, q, n) == Members(lx, ev, q + 1, n + 1) && At(s, q + 1, more)
  {
    AtParts(s, q, [COMMA], more);
    NextByte(lx, s, comments, q, [COMMA]);
    NextByte(lx, s, comments, q + 1, more);
  }

  lemma MemberEventsFirst(ev: seq<Event>, members: seq<Member>)
    requires members != []
    ensures ev + [Key(members[0].name)] + Events(members[0].value) + MemberEvents(members[1..])
            == ev + MemberEvents(members)
  {
    Join(ev, [Key(members[0].name)], Events(members[0].value), MemberEvents(members[1..]));
  }

  // ---------- the whole way ----------

  lemma RapidReads(s: Text, comments: bool, number: nat -> Scanned<int>)
    requires forall p {:trigger NumberLaw(Rapid(s, comments, number), p)} :: NumberLaw(Rapid(s, comments, number), p)
    ensures Reads(Rapid(s, comments, number), s, comments)
  {
    RapidLaws(s, comments, number);
    var lx := Rapid(s, comments, number);
    forall q: nat ensures ReadsAt(lx, s, comments, q) {
    }
  }

  lemma ReadDocument(lx: Lexer, comments: bool, t: Tree, stop: bool)
    requires Reads(lx, Print(t), comments) && Back(lx, Print(t), t)
    ensures Document(lx, stop) == Go(Events(t), |Print(t)|)
  {
    var s := Print(t);
    FirstByte(t);
    NextByte(lx, s, comments, 0, s);
    ReadTree(lx, s, comments, [], 0, t);
    assert [] + Events(t) == Events(t);
    assert ReadsAt(lx, s, comments, |s|);
    NoSkip(s, comments, |s|);
  }

  /** Printing a tree and parsing the text, with either parser, gives back the events of the tree, and
      the document rebuilds the same tree from them. */
  lemma RoundTrip(t: Tree, comments: bool, number: nat -> Scanned<int>, stop: bool)
    requires forall p {:trigger NumberLaw(Rapid(Print(t), comments, number), p)} ::
             NumberLaw(Rapid(Print(t), comments, number), p)
    requires Back(Rapid(Print(t), comments, number), Print(t), t)
    ensures WriteAll(Writing([], [], false), Events(t)).out == Print(t)
    ensures Laws(Rapid(Print(t), comments, number))
    ensures Document(Rapid(Print(t), comments, number), stop) == Go(Events(t), |Print(t)|)
    ensures Replay([], Events(t)) == Some([t])
  {
    RapidReads(Print(t), comments, number);
    ReadDocument(Rapid(Print(t), comments, number), comments, t, stop);
    PrintsAll(t);
  }

  /** The scanner of whole numbers reads back every number of every tree. */
  lemma {:induction false} WholeBack(s: Text, comments: bool, t: Tree)
    ensures Back(WholeLexer(s, comments), s, t)
    decreases t
  {
    match t
    case JNumber(n) =>
      forall q: nat ensures BackAt(WholeLexer(s, comments), s, n, q) {
        if At(s, q, Decimal(n)) && Ends(Peek(s, q + |Decimal(n)|)) {
          DecimalBack(s, q, n);
        }
      }
    case JArray(elems) => WholeBackElems(s, comments, elems);
    case JObject(members) => WholeBackMembers(s, comments, members);
    case _ =>
  }

  lemma {:induction false} WholeBackElems(s: Text, comments: bool, elems: seq<Tree>)
    ensures BackElems(WholeLexer(s, comments), s, elems)
    decreases elems
  {
    if elems != [] {
      WholeBack(s, comments, elems[0]);
      WholeBackElems(s, comments, elems[1..]);
    }
  }

  lemma {:induction false} WholeBackMembers(s: Text, comments: bool, members: seq<Member>)
    ensures BackMembers(WholeLexer(s, comments), s, members)
    decreases members
  {
    if members != [] {
      WholeBack(s, comments, members[0].value);
      WholeBackMembers(s, comments, members[1..]);
    }
  }

  /** The same with the scanner of whole numbers, for every tree and without assumptions. */
  lemma WholeRoundTrip(t: Tree, comments: bool, stop: bool)
    ensures var lx := WholeLexer(Print(t), comments); Laws(lx) && Document(lx, stop) == Go(Events(t), |Print(t)|)
  {
    var s := Print(t);
    var number := (q: nat) => ScanWhole(s, q);
    assert WholeLexer(s, comments) == Rapid(s, comments, number);
    forall p ensures NumberLaw(Rapid(s, comments, number), p) {
      WholeLaw(s, comments, p);
    }
    WholeBack(s, comments, t);
    RoundTrip(t, comments, number, stop);
  }

  lemma PrintsAll(t: Tree)
    ensures WriteAll(Writing([], [], false), Events(t)).out == Print(t) && Replay([], Events(t)) == Some([t])
  {
    WriteTree(Writing([], [], false), t);
    assert [] + Print(t) == Print(t);
    ReplayTree([], t);
    assert [] + [t] == [t];
  }
}
