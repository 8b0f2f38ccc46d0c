/** JSON by recursive descent over any scanner of white space, strings and numbers: the events a text
    stands for. */
module JsonGrammar {

  type Byte = x: int | 0 <= x < 256

  const QUOTE: Byte := 0x22
  const COMMA: Byte := 0x2C
  const COLON: Byte := 0x3A
  const LBRACKET: Byte := 0x5B
  const RBRACKET: Byte := 0x5D
  const LBRACE: Byte := 0x7B
  const RBRACE: Byte := 0x7D
  const LOWER_F: Byte := 0x66
  const LOWER_N: Byte := 0x6E
  const LOWER_T: Byte := 0x74

  type Text = seq<Byte>

  /** The whole numbers a value holds: 64 bits, signed or unsigned. */
  type Num = x: int | -0x8000_0000_0000_0000 <= x <= 0xFFFF_FFFF_FFFF_FFFF

  /** The calls a handler receives. */
  datatype Event =
    | Null
    | Bool(b: bool)
    | Number(n: int)
    | String(s: Text)
    | Key(s: Text)
    | StartObject
    | EndObject(members: nat)
    | StartArray
    | EndArray(elements: nat)

  datatype Scanned<T> = Bad | Got(val: T, end: nat)

  /** The lexical layer: `peek` is the next byte, 0 at the end; `skip` passes white space and comments and
      is -1 on a malformed comment; `text` and `number` scan a string and a number. */
  datatype Lexer = Lexer(size: nat, peek: nat -> Byte, skip: nat -> int, text: nat -> Scanned<Text>,
    number: nat -> Scanned<int>)

  ghost predicate PeekLaw(lx: Lexer, p: nat) {
    p >= lx.size ==> lx.peek(p) == 0
  }

  ghost predicate SkipLaw(lx: Lexer, p: nat) {
    lx.skip(p) == -1 || lx.skip(p) >= p
  }

  ghost predicate TextLaw(lx: Lexer, p: nat) {
    lx.text(p).Got? ==> p < lx.text(p).end
  }

  /** A number begins with a minus sign or a digit. */
  ghost predicate NumberLaw(lx: Lexer, p: nat) {
    lx.number(p).Got? ==> p < lx.number(p).end && (lx.peek(p) == 0x2D || 0x30 <= lx.peek(p) <= 0x39)
  }

  ghost predicate Laws(lx: Lexer) {
    && (forall p {:trigger PeekLaw(lx, p)} :: PeekLaw(lx, p))
    && (forall p {:trigger SkipLaw(lx, p)} :: SkipLaw(lx, p))
    && (forall p {:trigger TextLaw(lx, p)} :: TextLaw(lx, p))
    && (forall p {:trigger NumberLaw(lx, p)} :: NumberLaw(lx, p))
  }

  /** Bytes left. */
  ghost function Left(lx: Lexer, p: nat): (n: nat) {
    if p < lx.size then lx.size - p else 0
  }

  /** The events so far and the position reached, or a parse error. */
  datatype Parsed = Fail | Go(ev: seq<Event>, p: nat)

  /** The rest of a literal, byte by byte. */
  predicate Matches(lx: Lexer, p: nat, word: seq<Byte>)
    decreases |word|
  {
    word == [] || (lx.peek(p) == word[0] && Matches(lx, p + 1, word[1..]))
  }

  function Literal(lx: Lexer, ev: seq<Event>, p: nat, word: seq<Byte>, e: Event): (r: Parsed) {
    if Matches(lx, p + 1, word) then Go(ev + [e], p + 1 + |word|) else Fail
  }

  ghost function Value(lx: Lexer, ev: seq<Event>, p: nat): (r: Parsed)
    requires Laws(lx)
    ensures r.Go? ==> r.p > p && p < lx.size
    decreases Left(lx, p), 2
  {
    assert PeekLaw(lx, p) && TextLaw(lx, p) && NumberLaw(lx, p);
    var c := lx.peek(p);
    if c == LOWER_N then Literal(lx, ev, p, [0x75, 0x6C, 0x6C], Null)
    else if c == LOWER_T then Literal(lx, ev, p, [0x72, 0x75, 0x65], Bool(true))
    else if c == LOWER_F then Literal(lx, ev, p, [0x61, 0x6C, 0x73, 0x65], Bool(false))
    else if c == QUOTE then (if lx.text(p).Got? then Go(ev + [String(lx.text(p).val)], lx.text(p).end) else Fail)
    else if c == LBRACE then Object(lx, ev + [StartObject], p + 1)
    else if c == LBRACKET then Array(lx, ev + [StartArray], p + 1)
    else if lx.number(p).Got? then Go(ev + [Number(lx.number(p).val)], lx.number(p).end)
    else Fail
  }

  /** After the opening bracket. */
  ghost function Array(lx: Lexer, ev: seq<Event>, p: nat): (r: Parsed)
    requires Laws(lx)
    ensures r.Go? ==> r.p > p
    decreases Left(lx, p), 5
  {
    assert SkipLaw(lx, p);
    if lx.skip(p) == -1 then Fail else ArrayBody(lx, ev, lx.skip(p))
  }

  ghost function ArrayBody(lx: Lexer, ev: seq<Event>, p: nat): (r: Parsed)
    requires Laws(lx)
    ensures r.Go? ==> r.p > p
    decreases Left(lx, p), 4
  {
    if lx.peek(p) == RBRACKET then Go(ev + [EndArray(0)], p + 1) else Elements(lx, ev, p, 0)
  }

  /** A value expected in an array that already has `n` elements. */
  ghost function Elements(lx: Lexer, ev: seq<Event>, p: nat, n: nat): (r: Parsed)
    requires Laws(lx)
    ensures r.Go? ==> r.p > p
    decreases Left(lx, p), 3
  {
    match Value(lx, ev, p)
    case Fail => Fail
    case Go(ev', q) =>
      assert SkipLaw(lx, q);
      if lx.skip(q) == -1 then Fail else AfterElement(lx, ev', lx.skip(q), n)
  }

  /** A comma or the closing bracket expected after `n + 1` elements. */
  ghost function AfterElement(lx: Lexer, ev: seq<Event>, p: nat, n: nat): (r: Parsed)
    requires Laws(lx)
    ensures r.Go? ==> r.p > p
    decreases Left(lx, p), 4
  {
    assert PeekLaw(lx, p) && SkipLaw(lx, p + 1);
    if lx.peek(p) == COMMA then (if lx.skip(p + 1) == -1 then Fail else Elements(lx, ev, lx.skip(p + 1), n + 1))
    else if lx.peek(p) == RBRACKET then Go(ev + [EndArray(n + 1)], p + 1)
    else Fail
  }

  /** After the opening brace. */
  ghost function Object(lx: Lexer, ev: seq<Event>, p: nat): (r: Parsed)
    requires Laws(lx)
    ensures r.Go? ==> r.p > p
    decreases Left(lx, p), 7
  {
    assert SkipLaw(lx, p);
    if lx.skip(p) == -1 then Fail else ObjectBody(lx, ev, lx.skip(p))
  }

  ghost function ObjectBody(lx: Lexer, ev: seq<Event>, p: nat): (r: Parsed)
    requires Laws(lx)
    ensures r.Go? ==> r.p > p
    decreases Left(lx, p), 6
  {
    if lx.peek(p) == RBRACE then Go(ev + [EndObject(0)], p + 1) else Members(lx, ev, p, 0)
  }

  /** A member name expected in an object that already has `n` members. */
  ghost function Members(lx: Lexer, ev: seq<Event>, p: nat, n: nat): (r: Parsed)
    requires Laws(lx)
    ensures r.Go? ==> r.p > p
    decreases Left(lx, p), 5
  {
    assert PeekLaw(lx, p) && TextLaw(lx, p);
    if lx.peek(p) != QUOTE || lx.text(p).Bad? then Fail
    else
      var q := lx.text(p).end;
      assert SkipLaw(lx, q);
      if lx.skip(q) == -1 then Fail else AfterKey(lx, ev + [Key(lx.text(p).val)], lx.skip(q), n)
  }

  /** A colon expected. */
  ghost function AfterKey(lx: Lexer, ev: seq<Event>, p: nat, n: nat): (r: Parsed)
    requires Laws(lx)
    ensures r.Go? ==> r.p > p
    decreases Left(lx, p), 4
  {
    assert PeekLaw(lx, p) && SkipLaw(lx, p + 1);
    if lx.peek(p) != COLON || lx.skip(p + 1) == -1 then Fail else MemberValue(lx, ev, lx.skip(p + 1), n)
  }

  /** The value of a member expected. */
  ghost function MemberValue(lx: Lexer, ev: seq<Event>, p: nat, n: nat): (r: Parsed)
    requires Laws(lx)
    ensures r.Go? ==> r.p > p
    decreases Left(lx, p), 3
  {
    match Value(lx, ev, p)
    case Fail => Fail
    case Go(ev', q) =>
      assert SkipLaw(lx, q);
      if lx.skip(q) == -1 then Fail else AfterMember(lx, ev', lx.skip(q), n)
  }

  /** A comma or the closing brace expected after `n + 1` members. */
  ghost function AfterMember(lx: Lexer, ev: seq<Event>, p: nat, n: nat): (r: Parsed)
    requires Laws(lx)
    ensures r.Go? ==> r.p > p
    decreases Left(lx, p), 6
  {
    assert PeekLaw(lx, p) && SkipLaw(lx, p + 1);
    if lx.peek(p) == COMMA then (if lx.skip(p + 1) == -1 then Fail else Members(lx, ev, lx.skip(p + 1), n + 1))
    else if lx.peek(p) == RBRACE then Go(ev + [EndObject(n + 1)], p + 1)
    else Fail
  }

  /** Nothing may follow the root value, unless parsing stops there. */
  ghost function End(lx: Lexer, stop: bool, ev: seq<Event>, p: nat): (r: Parsed)
    requires Laws(lx)
  {
    assert SkipLaw(lx, p);
    if stop then Go(ev, p)
    else if lx.skip(p) == -1 then Fail
    else if lx.peek(lx.skip(p)) != 0 then Fail
    else Go(ev, lx.skip(p))
  }

  /** A whole document. */
  ghost function Document(lx: Lexer, stop: bool): (r: Parsed)
    requires Laws(lx)
  {
    assert SkipLaw(lx, 0);
    if lx.skip(0) == -1 then Fail else Root(lx, stop, [], lx.skip(0))
  }

  ghost function Root(lx: Lexer, stop: bool, ev: seq<Event>, p: nat): (r: Parsed)
    requires Laws(lx)
  {
    match Value(lx, ev, p)
    case Fail => Fail
    case Go(ev', q) => End(lx, stop, ev', q)
  }
}
