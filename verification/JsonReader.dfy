/** The two parsers: recursive descent, and a table-driven pushdown machine.  Both are proved to accept the
    same documents with the same events, those of `JsonGrammar.Document`. */
module JsonReader {
  import opened JsonGrammar

  // ---------- the tables of the pushdown parser ----------

  datatype State =
    | StartS | FinishS | ErrorS
    | ObjectInitialS | MemberKeyS | KeyValueDelimiterS | MemberValueS | MemberDelimiterS | ObjectFinishS
    | ArrayInitialS | ElementS | ElementDelimiterS | ArrayFinishS
    | ValueS

  datatype Token =
    | LeftBracketT | RightBracketT | LeftCurlyT | RightCurlyT | CommaT | ColonT
    | StringT | FalseT | TrueT | NullT | NumberT

  function Tokenize(c: Byte): (t: Token) {
    if c == QUOTE then StringT
    else if c == COMMA then CommaT
    else if c == COLON then ColonT
    else if c == LBRACKET then LeftBracketT
    else if c == RBRACKET then RightBracketT
    else if c == LOWER_F then FalseT
    else if c == LOWER_N then NullT
    else if c == LOWER_T then TrueT
    else if c == LBRACE then LeftCurlyT
    else if c == RBRACE then RightCurlyT
    else NumberT
  }

  /** A row of the table for a state in which a value is expected. */
  function ValueRow(t: Token, dst: State): (s: State) {
    match t
    case LeftBracketT => ArrayInitialS
    case LeftCurlyT => ObjectInitialS
    case StringT => dst
    case FalseT => dst
    case TrueT => dst
    case NullT => dst
    case NumberT => dst
    case RightBracketT => ErrorS
    case RightCurlyT => ErrorS
    case CommaT => ErrorS
    case ColonT => ErrorS
  }

  function Predict(s: State, t: Token): (s': State) {
    match s
    case StartS => ValueRow(t, ValueS)
    case ObjectInitialS => if t == RightCurlyT then ObjectFinishS else if t == StringT then MemberKeyS else ErrorS
    case MemberKeyS => if t == ColonT then KeyValueDelimiterS else ErrorS
    case KeyValueDelimiterS => ValueRow(t, MemberValueS)
    case MemberValueS => if t == RightCurlyT then ObjectFinishS else if t == CommaT then MemberDelimiterS else ErrorS
    case MemberDelimiterS => if t == StringT then MemberKeyS else ErrorS
    case ArrayInitialS => if t == RightBracketT then ArrayFinishS else ValueRow(t, ElementS)
    case ElementS => if t == RightBracketT then ArrayFinishS else if t == CommaT then ElementDelimiterS else ErrorS
    case ElementDelimiterS => ValueRow(t, ElementS)
    case FinishS => ErrorS
    case ErrorS => ErrorS
    case ObjectFinishS => ErrorS
    case ArrayFinishS => ErrorS
    case ValueS => ErrorS
  }

  /** An open array or object: the state to return to and the members or elements counted so far. */
  datatype Frame = Frame(ret: State, count: nat)

  // ---------- what is left to do in a configuration of the pushdown parser ----------

  /** The state in which the enclosing array or object goes on after a value. */
  function Enclosing(src: State): (s: State) {
    if src == ArrayInitialS || src == ElementDelimiterS then ElementS
    else if src == KeyValueDelimiterS then MemberValueS
    else src
  }

  /** Recursive descent taken up in the middle: the innermost open array or object, then those around it. */
  ghost function Inner(lx: Lexer, s: State, n: nat, ev: seq<Event>, p: nat): (r: Parsed)
    requires Laws(lx)
  {
    match s
    case ArrayInitialS => ArrayBody(lx, ev, p)
    case ElementDelimiterS => Elements(lx, ev, p, n)
    case ElementS => AfterElement(lx, ev, p, n)
    case ObjectInitialS => ObjectBody(lx, ev, p)
    case MemberDelimiterS => Members(lx, ev, p, n)
    case MemberKeyS => AfterKey(lx, ev, p, n)
    case KeyValueDelimiterS => MemberValue(lx, ev, p, n)
    case MemberValueS => AfterMember(lx, ev, p, n)
    case StartS => Fail
    case FinishS => Fail
    case ErrorS => Fail
    case ObjectFinishS => Fail
    case ArrayFinishS => Fail
    case ValueS => Fail
  }

  ghost function Resume(lx: Lexer, stop: bool, s: State, stack: seq<Frame>, ev: seq<Event>, p: nat): (r: Parsed)
    requires Laws(lx)
    decreases |stack|, 1
  {
    if stack == [] then (if s == StartS then Root(lx, stop, ev, p) else Fail)
    else
      match Inner(lx, s, stack[|stack| - 1].count, ev, p)
      case Fail => Fail
      case Go(ev', q) => Leave(lx, stop, stack, ev', q)
  }

  /** The innermost array or object is complete. */
  ghost function Leave(lx: Lexer, stop: bool, stack: seq<Frame>, ev: seq<Event>, p: nat): (r: Parsed)
    requires Laws(lx) && stack != []
    decreases |stack|, 0
  {
    assert SkipLaw(lx, p);
    var top := stack[|stack| - 1];
    if top.ret == StartS then End(lx, stop, ev, p)
    else if lx.skip(p) == -1 then Fail
    else Resume(lx, stop, top.ret, stack[..|stack| - 1], ev, lx.skip(p))
  }

  /** Frames return to the start only at the bottom, and to a place behind a value above it. */
  ghost predicate StackOk(s: State, stack: seq<Frame>) {
    if stack == [] then s == StartS
    else
      && s in {ArrayInitialS, ElementDelimiterS, ElementS, ObjectInitialS, MemberDelimiterS, MemberKeyS,
         KeyValueDelimiterS, MemberValueS}
      && (s == ArrayInitialS || s == ObjectInitialS ==> stack[|stack| - 1].count == 0)
      && (forall i :: 0 <= i < |stack| ==> if i == 0 then stack[i].ret == StartS
         else stack[i].ret in {ElementS, MemberValueS})
  }

  /** Whether a value is expected in state `s`. */
  predicate Expects(s: State) {
    s == StartS || s == ArrayInitialS || s == ElementDelimiterS || s == KeyValueDelimiterS
  }

  /** A value is read where one is expected inside an array or object. */
  lemma ValueStep(lx: Lexer, stop: bool, s: State, stack: seq<Frame>, ev: seq<Event>, p: nat)
    requires Laws(lx) && StackOk(s, stack) && Expects(s) && s != StartS
    requires s == ArrayInitialS ==> lx.peek(p) != RBRACKET
    ensures match Value(lx, ev, p)
            case Fail => Resume(lx, stop, s, stack, ev, p) == Fail
            case Go(ev', q) =>
              && SkipLaw(lx, q) && StackOk(Enclosing(s), stack)
              && Resume(lx, stop, s, stack, ev, p)
                 == if lx.skip(q) == -1 then Fail else Resume(lx, stop, Enclosing(s), stack, ev', lx.skip(q))
  {
    var r, n := Value(lx, ev, p), stack[|stack| - 1].count;
    if s == KeyValueDelimiterS {
      assert Inner(lx, s, n, ev, p) == MemberValue(lx, ev, p, n);
    } else {
      assert Inner(lx, s, n, ev, p) == Elements(lx, ev, p, n);
    }
    if r.Go? {
      assert SkipLaw(lx, r.p);
      if lx.skip(r.p) != -1 {
        assert Inner(lx, s, n, ev, p) == Inner(lx, Enclosing(s), n, r.ev, lx.skip(r.p));
      }
    }
  }

  ghost function Opened(c: Byte): (s: State) {
    if c == LBRACKET then ArrayInitialS else ObjectInitialS
  }

  ghost function Opening(c: Byte): (e: Event) {
    if c == LBRACKET then StartArray else StartObject
  }

  /** A nested array or object is opened: the rest is unchanged. */
  lemma OpenStep(lx: Lexer, stop: bool, s: State, stack: seq<Frame>, ev: seq<Event>, p: nat)
    requires Laws(lx) && StackOk(s, stack) && Expects(s) && (lx.peek(p) == LBRACKET || lx.peek(p) == LBRACE)
    ensures var st, c := stack + [Frame(Enclosing(s), 0)], lx.peek(p);
            && SkipLaw(lx, p + 1) && StackOk(Opened(c), st)
            && Resume(lx, stop, s, stack, ev, p)
               == if lx.skip(p + 1) == -1 then Fail
                 else Resume(lx, stop, Opened(c), st, ev + [Opening(c)], lx.skip(p + 1))
  {
    assert SkipLaw(lx, p + 1) && PeekLaw(lx, p);
    var c, st, q := lx.peek(p), stack + [Frame(Enclosing(s), 0)], lx.skip(p + 1);
    assert st[..|st| - 1] == stack;
    OpenValue(lx, ev, p);
    if s == StartS {
      OpenRoot(lx, stop, stack, ev, p);
    } else {
      ValueStep(lx, stop, s, stack, ev, p);
      OpenNested(lx, stop, s, stack, ev, p);
    }
  }

  /** Recursive descent at an opening bracket or brace. */
  lemma OpenValue(lx: Lexer, ev: seq<Event>, p: nat)
    requires Laws(lx) && (lx.peek(p) == LBRACKET || lx.peek(p) == LBRACE)
    ensures SkipLaw(lx, p + 1)
    ensures Value(lx, ev, p) == if lx.skip(p + 1) == -1 then Fail
                                else Inner(lx, Opened(lx.peek(p)), 0, ev + [Opening(lx.peek(p))], lx.skip(p + 1))
  {
    assert SkipLaw(lx, p + 1) && PeekLaw(lx, p);
    if lx.peek(p) == LBRACKET {
      assert Value(lx, ev, p) == Array(lx, ev + [StartArray], p + 1);
    } else {
      assert Value(lx, ev, p) == Object(lx, ev + [StartObject], p + 1);
    }
  }

  lemma OpenRoot(lx: Lexer, stop: bool, stack: seq<Frame>, ev: seq<Event>, p: nat)
    requires Laws(lx) && StackOk(StartS, stack) && (lx.peek(p) == LBRACKET || lx.peek(p) == LBRACE)
    ensures SkipLaw(lx, p + 1)
    ensures var st, c := stack + [Frame(StartS, 0)], lx.peek(p);
            Resume(lx, stop, StartS, stack, ev, p)
            == if lx.skip(p + 1) == -1 then Fail
               else Resume(lx, stop, Opened(c), st, ev + [Opening(c)], lx.skip(p + 1))
  {
    OpenValue(lx, ev, p);
  }

  lemma OpenNested(lx: Lexer, stop: bool, s: State, stack: seq<Frame>, ev: seq<Event>, p: nat)
    requires Laws(lx) && StackOk(s, stack) && Expects(s) && s != StartS
             && (lx.peek(p) == LBRACKET || lx.peek(p) == LBRACE)
    ensures SkipLaw(lx, p + 1)
    ensures var st, c := stack + [Frame(Enclosing(s), 0)], lx.peek(p);
            Resume(lx, stop, s, stack, ev, p)
            == if lx.skip(p + 1) == -1 then Fail
               else Resume(lx, stop, Opened(c), st, ev + [Opening(c)], lx.skip(p + 1))
  {
    OpenValue(lx, ev, p);
    ValueStep(lx, stop, s, stack, ev, p);
    var st := stack + [Frame(Enclosing(s), 0)];
    assert st[..|st| - 1] == stack;
  }

  /** The innermost array or object is closed. */
  lemma CloseStep(lx: Lexer, stop: bool, s: State, stack: seq<Frame>, ev: seq<Event>, p: nat)
    requires Laws(lx) && StackOk(s, stack) && stack != []
    requires (lx.peek(p) == RBRACKET && (s == ArrayInitialS || s == ElementS))
             || (lx.peek(p) == RBRACE && (s == ObjectInitialS || s == MemberValueS))
    ensures var n := stack[|stack| - 1].count + if s == ElementS || s == MemberValueS then 1 else 0;
            Resume(lx, stop, s, stack, ev, p)
              == Leave(lx, stop, stack, ev + [if lx.peek(p) == RBRACKET then EndArray(n) else EndObject(n)], p + 1)
  {
  }

  ghost function Closing(c: Byte, n: nat): (e: Event) {
    if c == RBRACKET then EndArray(n) else EndObject(n)
  }

  /** What is left once the innermost array or object is closed. */
  lemma Closed(lx: Lexer, stop: bool, s: State, stack: seq<Frame>, ev: seq<Event>, p: nat)
    requires Laws(lx) && StackOk(s, stack) && stack != []
    requires (lx.peek(p) == RBRACKET && (s == ArrayInitialS || s == ElementS))
             || (lx.peek(p) == RBRACE && (s == ObjectInitialS || s == MemberValueS))
    ensures var top, st := stack[|stack| - 1], stack[..|stack| - 1];
            var ev' := ev + [Closing(lx.peek(p), top.count + if s == ElementS || s == MemberValueS then 1 else 0)];
            && SkipLaw(lx, p + 1) && top.ret != ErrorS
            && if top.ret == StartS then st == [] && Resume(lx, stop, s, stack, ev, p) == End(lx, stop, ev', p + 1)
               else
                 && top.ret != FinishS && StackOk(top.ret, st)
                 && Resume(lx, stop, s, stack, ev, p)
                    == if lx.skip(p + 1) == -1 then Fail else Resume(lx, stop, top.ret, st, ev', lx.skip(p + 1))
  {
    assert SkipLaw(lx, p + 1);
    CloseStep(lx, stop, s, stack, ev, p);
  }

  ghost function Counted(stack: seq<Frame>): (st: seq<Frame>)
    requires stack != []
  {
    var top := stack[|stack| - 1];
    stack[|stack| - 1 := Frame(top.ret, top.count + 1)]
  }

  /** A comma: one more element or member. */
  lemma CommaStep(lx: Lexer, stop: bool, s: State, stack: seq<Frame>, ev: seq<Event>, p: nat)
    requires Laws(lx) && StackOk(s, stack) && stack != [] && lx.peek(p) == COMMA && (s == ElementS || s == MemberValueS)
    ensures SkipLaw(lx, p + 1)
    ensures var s' := if s == ElementS then ElementDelimiterS else MemberDelimiterS;
            && StackOk(s', Counted(stack))
            && Resume(lx, stop, s, stack, ev, p)
               == if lx.skip(p + 1) == -1 then Fail else Resume(lx, stop, s', Counted(stack), ev, lx.skip(p + 1))
  {
    assert SkipLaw(lx, p + 1);
    var st := Counted(stack);
    assert st[..|st| - 1] == stack[..|stack| - 1];
  }

  lemma ColonStep(lx: Lexer, stop: bool, stack: seq<Frame>, ev: seq<Event>, p: nat)
    requires Laws(lx) && StackOk(MemberKeyS, stack) && stack != [] && lx.peek(p) == COLON
    ensures SkipLaw(lx, p + 1) && StackOk(KeyValueDelimiterS, stack)
    ensures Resume(lx, stop, MemberKeyS, stack, ev, p)
         == if lx.skip(p + 1) == -1 then Fail else Resume(lx, stop, KeyValueDelimiterS, stack, ev, lx.skip(p + 1))
  {
    assert SkipLaw(lx, p + 1);
  }

  /** A member name. */
  lemma NameStep(lx: Lexer, stop: bool, s: State, stack: seq<Frame>, ev: seq<Event>, p: nat)
    requires Laws(lx) && StackOk(s, stack) && stack != []
    requires lx.peek(p) == QUOTE && (s == ObjectInitialS || s == MemberDelimiterS)
    ensures TextLaw(lx, p)
    ensures match lx.text(p)
            case Bad => Resume(lx, stop, s, stack, ev, p) == Fail
            case Got(k, q) =>
              && SkipLaw(lx, q) && StackOk(MemberKeyS, stack)
              && Resume(lx, stop, s, stack, ev, p)
                 == if lx.skip(q) == -1 then Fail else Resume(lx, stop, MemberKeyS, stack, ev + [Key(k)], lx.skip(q))
  {
    assert TextLaw(lx, p);
    if lx.text(p).Got? {
      assert SkipLaw(lx, lx.text(p).end);
    }
    var n := stack[|stack| - 1].count;
    assert Inner(lx, s, n, ev, p) == Members(lx, ev, p, n);
  }

  /** Where the table says error, recursive descent fails too. */
  lemma ErrorStep(lx: Lexer, stop: bool, s: State, stack: seq<Frame>, ev: seq<Event>, p: nat)
    requires Laws(lx) && StackOk(s, stack) && (Predict(s, Tokenize(lx.peek(p))) == ErrorS || lx.peek(p) == 0)
    ensures Resume(lx, stop, s, stack, ev, p) == Fail
  {
    assert NumberLaw(lx, p);
    if Expects(s) {
      assert Value(lx, ev, p) == Fail;
      if s != StartS {
        ValueStep(lx, stop, s, stack, ev, p);
      }
    } else if s == ObjectInitialS {
      assert Inner(lx, s, 0, ev, p) == Members(lx, ev, p, 0);
    }
  }

  // ---------- the reader ----------

  /** A reader: cursor, events handed to the handler, error flag, and the stack of the pushdown parser.
      The handler never stops the parse. */
  class Reader {
    const lx: Lexer
    const stop: bool       // kParseStopWhenDoneFlag
    var pos: nat
    var ev: seq<Event>
    var error: bool
    var stack: seq<Frame>

    constructor (lx: Lexer, stop: bool)
      ensures this.lx == lx && this.stop == stop
    {
      this.lx, this.stop := lx, stop;
      pos, ev, error, stack := 0, [], false, [];
    }

    /** The reader is where `r` says. */
    ghost predicate Is(r: Parsed)
      reads this
    {
      if r.Fail? then error else !error && ev == r.ev && pos == r.p
    }

    method Skip()
      requires !error && Laws(lx)
      modifies this`pos, this`error
      ensures SkipLaw(lx, old(pos))
      ensures error <==> lx.skip(old(pos)) == -1
      ensures !error ==> pos == lx.skip(old(pos))
    {
      assert SkipLaw(lx, pos);
      var q := lx.skip(pos);
      if q == -1 {
        error := true;
      } else {
        pos := q;
      }
    }

    /** ParseNull, ParseTrue, ParseFalse */
    method ParseLiteral(word: seq<Byte>, e: Event)
      requires !error
      modifies this`pos, this`error, this`ev
      ensures Is(Literal(lx, old(ev), old(pos), word, e))
    {
      var i := 0;
      pos := pos + 1;
      while i < |word|
        invariant i <= |word| && pos == old(pos) + 1 + i && ev == old(ev) && !error
        invariant Matches(lx, old(pos) + 1, word) == Matches(lx, pos, word[i..])
      {
        if lx.peek(pos) != word[i] {
          error := true;
          return;
        }
        assert word[i..][1..] == word[i + 1..];
        pos, i := pos + 1, i + 1;
      }
      ev := ev + [e];
    }

    /** ParseValue */
    method ParseValue()
      requires !error && Laws(lx)
      modifies this`pos, this`error, this`ev
      ensures Is(Value(lx, old(ev), old(pos)))
      decreases Left(lx, pos), 1
    {
      var c := lx.peek(pos);
      assert PeekLaw(lx, pos);
      if c == LOWER_N {
        ParseLiteral([0x75, 0x6C, 0x6C], Null);
      } else if c == LOWER_T {
        ParseLiteral([0x72, 0x75, 0x65], Bool(true));
      } else if c == LOWER_F {
        ParseLiteral([0x61, 0x6C, 0x73, 0x65], Bool(false));
      } else if c == QUOTE {
        ParseText(false);
      } else if c == LBRACE {
        ParseObject();
      } else if c == LBRACKET {
        ParseArray();
      } else {
        var x := lx.number(pos);
        if x.Bad? {
          error := true;
        } else {
          ev, pos := ev + [Number(x.val)], x.end;
        }
      }
    }

    /** ParseString, as a value or as a member name. */
    method ParseText(isKey: bool)
      requires !error
      modifies this`pos, this`error, this`ev
      ensures error <==> lx.text(old(pos)).Bad?
      ensures !error ==> pos == lx.text(old(pos)).end
      ensures !error ==> ev == old(ev) + [if isKey then Key(lx.text(old(pos)).val) else String(lx.text(old(pos)).val)]
    {
      var x := lx.text(pos);
      if x.Bad? {
        error := true;
      } else {
        ev, pos := ev + [if isKey then Key(x.val) else String(x.val)], x.end;
      }
    }

    /** ParseArray */
    method ParseArray()
      requires !error && Laws(lx) && pos < lx.size && lx.peek(pos) == LBRACKET
      modifies this`pos, this`error, this`ev
      ensures Is(Array(lx, old(ev) + [StartArray], old(pos) + 1))
      decreases Left(lx, pos), 0
    {
      pos, ev := pos + 1, ev + [StartArray];
      ghost var all := Array(lx, ev, pos);
      Skip();
      if error {
        return;
      }
      assert all == ArrayBody(lx, ev, pos);
      if lx.peek(pos) == RBRACKET {
        pos, ev := pos + 1, ev + [EndArray(0)];
        return;
      }
      var n := 0;
      while true
        invariant !error && pos > old(pos)
        invariant all == Elements(lx, ev, pos, n)
        decreases Left(lx, pos)
      {
        ParseElement(n);
        if error {
          return;
        }
        var more := EndElement(n);
        if !more {
          return;
        }
        n := n + 1;
      }
    }

    /** What follows an element: a comma, or the end of the array. */
    method EndElement(n: nat) returns (more: bool)
      requires !error && Laws(lx)
      modifies this`pos, this`error, this`ev
      ensures more ==> !error && pos > old(pos)
      ensures more ==> AfterElement(lx, old(ev), old(pos), n) == Elements(lx, ev, pos, n + 1)
      ensures !more ==> Is(AfterElement(lx, old(ev), old(pos), n))
    {
      assert PeekLaw(lx, pos);
      var c := lx.peek(pos);
      pos := pos + 1;
      if c == COMMA {
        Skip();
        return !error;
      }
      if c == RBRACKET {
        ev := ev + [EndArray(n + 1)];
      } else {
        error := true;
      }
      more := false;
    }

    /** One element, up to the comma or bracket behind it. */
    method ParseElement(ghost n: nat)
      requires !error && Laws(lx)
      modifies this`pos, this`error, this`ev
      ensures if error then Elements(lx, old(ev), old(pos), n) == Fail
              else pos > old(pos) && old(pos) < lx.size
                   && Elements(lx, old(ev), old(pos), n) == AfterElement(lx, ev, pos, n)
      decreases Left(lx, pos), 2
    {
      ParseValue();
      if error {
        return;
      }
      Skip();
    }

    /** ParseObject */
    method ParseObject()
      requires !error && Laws(lx) && pos < lx.size && lx.peek(pos) == LBRACE
      modifies this`pos, this`error, this`ev
      ensures Is(Object(lx, old(ev) + [StartObject], old(pos) + 1))
      decreases Left(lx, pos), 0
    {
      pos, ev := pos + 1, ev + [StartObject];
      ghost var all := Object(lx, ev, pos);
      Skip();
      if error {
        return;
      }
      assert all == ObjectBody(lx, ev, pos);
      if lx.peek(pos) == RBRACE {
        pos, ev := pos + 1, ev + [EndObject(0)];
        return;
      }
      var n := 0;
      while true
        invariant !error && pos > old(pos)
        invariant Object(lx, old(ev) + [StartObject], old(pos) + 1) == Members(lx, ev, pos, n)
        decreases Left(lx, pos)
      {
        ParseMember(n);
        if error {
          return;
        }
        assert PeekLaw(lx, pos);
        var c := lx.peek(pos);
        pos := pos + 1;
        if c == COMMA {
          Skip();
          if error {
            return;
          }
        } else if c == RBRACE {
          ev := ev + [EndObject(n + 1)];
          return;
        } else {
          error := true;
          return;
        }
        n := n + 1;
      }
    }

    /** One member: name, colon, value. */
    method ParseMember(ghost n: nat)
      requires !error && Laws(lx)
      modifies this`pos, this`error, this`ev
      ensures if error then Members(lx, old(ev), old(pos), n) == Fail
              else pos > old(pos) && old(pos) < lx.size
                   && Members(lx, old(ev), old(pos), n) == AfterMember(lx, ev, pos, n)
      decreases Left(lx, pos), 2
    {
      assert PeekLaw(lx, pos) && TextLaw(lx, pos);
      if lx.peek(pos) != QUOTE {
        error := true;
        return;
      }
      ghost var all := Members(lx, ev, pos, n);
      ParseText(true);
      if error {
        return;
      }
      Skip();
      if error {
        return;
      }
      assert all == AfterKey(lx, ev, pos, n);
      if lx.peek(pos) != COLON {
        error := true;
        return;
      }
      pos := pos + 1;
      Skip();
      if error {
        return;
      }
      assert all == MemberValue(lx, ev, pos, n);
      ParseValue();
      if error {
        return;
      }
      Skip();
    }

    /** Parse: recursive descent over the whole text. */
    method Parse()
      requires Laws(lx)
      modifies this
      ensures Is(Document(lx, stop))
    {
      pos, ev, error, stack := 0, [], false, [];
      Skip();
      if error {
        return;
      }
      ghost var start := pos;
      if lx.peek(pos) == 0 {
        assert NumberLaw(lx, pos);
        error := true;
        return;
      }
      ParseValue();
      if error || stop {
        return;
      }
      Skip();
      if error {
        return;
      }
      if lx.peek(pos) != 0 {
        error := true;
      }
    }

    // ---------- the pushdown parser ----------

    /** The configuration reached by a transition stands for what was left to do before it. */
    ghost predicate Reached(d: State, r: Parsed)
      requires Laws(lx)
      reads this
    {
      && !error
      && if d == FinishS then stack == [] && r == End(lx, stop, ev, pos)
         else
           && SkipLaw(lx, pos) && StackOk(d, stack)
           && r == if lx.skip(pos) == -1 then Fail else Resume(lx, stop, d, stack, ev, lx.skip(pos))
    }

    /** Transit into an array or object. */
    method Open(src: State, arr: bool)
      requires !error && Laws(lx) && StackOk(src, stack) && Expects(src)
               && lx.peek(pos) == if arr then LBRACKET else LBRACE
      modifies this`pos, this`ev, this`stack
      ensures pos == old(pos) + 1
      ensures Reached(if arr then ArrayInitialS else ObjectInitialS,
              Resume(lx, stop, src, old(stack), old(ev), old(pos)))
    {
      OpenStep(lx, stop, src, stack, ev, pos);
      stack := stack + [Frame(Enclosing(src), 0)];
      ev := ev + [if arr then StartArray else StartObject];
      pos := pos + 1;
    }

    /** Transit out of an array or object. */
    method Close(src: State) returns (d: State)
      requires !error && Laws(lx) && StackOk(src, stack) && stack != []
      requires (lx.peek(pos) == RBRACKET && (src == ArrayInitialS || src == ElementS))
               || (lx.peek(pos) == RBRACE && (src == ObjectInitialS || src == MemberValueS))
      modifies this`pos, this`ev, this`stack
      ensures pos == old(pos) + 1 && d != ErrorS
      ensures Reached(d, Resume(lx, stop, src, old(stack), old(ev), old(pos)))
    {
      Closed(lx, stop, src, stack, ev, pos);
      var top := stack[|stack| - 1];
      var n := top.count + if src == ElementS || src == MemberValueS then 1 else 0;
      ev := ev + [if lx.peek(pos) == RBRACKET then EndArray(n) else EndObject(n)];
      pos := pos + 1;
      d := if top.ret == StartS then FinishS else top.ret;
      stack := stack[..|stack| - 1];
    }

    /** Transit over a simple value. */
    method Simple(src: State) returns (d: State)
      requires !error && Laws(lx) && StackOk(src, stack) && Expects(src)
               && (src == ArrayInitialS ==> lx.peek(pos) != RBRACKET)
      modifies this`pos, this`ev, this`error
      ensures d == ErrorS ==> Resume(lx, stop, src, old(stack), old(ev), old(pos)) == Fail
      ensures d != ErrorS ==> pos > old(pos) && Reached(d, Resume(lx, stop, src, old(stack), old(ev), old(pos)))
    {
      if src != StartS {
        ValueStep(lx, stop, src, stack, ev, pos);
      }
      ParseValue();
      d := if error then ErrorS else if src == StartS then FinishS else Enclosing(src);
    }

    /** Transit over a member name. */
    method Name(src: State) returns (d: State)
      requires !error && Laws(lx) && StackOk(src, stack) && stack != []
      requires lx.peek(pos) == QUOTE && (src == ObjectInitialS || src == MemberDelimiterS)
      modifies this`pos, this`ev, this`error
      ensures d == ErrorS ==> Resume(lx, stop, src, old(stack), old(ev), old(pos)) == Fail
      ensures d != ErrorS ==> pos > old(pos) && Reached(d, Resume(lx, stop, src, old(stack), old(ev), old(pos)))
    {
      NameStep(lx, stop, src, stack, ev, pos);
      ParseText(true);
      d := if error then ErrorS else MemberKeyS;
    }

    /** Transit over a colon. */
    method Colon()
      requires !error && Laws(lx) && StackOk(MemberKeyS, stack) && stack != [] && lx.peek(pos) == COLON
      modifies this`pos
      ensures pos > old(pos) && Reached(KeyValueDelimiterS, Resume(lx, stop, MemberKeyS, stack, ev, old(pos)))
    {
      ColonStep(lx, stop, stack, ev, pos);
      pos := pos + 1;
    }

    /** Transit over a comma, which counts an element or a member. */
    method Comma(src: State) returns (d: State)
      requires !error && Laws(lx) && StackOk(src, stack) && stack != []
      requires lx.peek(pos) == COMMA && (src == ElementS || src == MemberValueS)
      modifies this`pos, this`stack
      ensures d == if src == ElementS then ElementDelimiterS else MemberDelimiterS
      ensures pos > old(pos) && Reached(d, Resume(lx, stop, src, old(stack), ev, old(pos)))
    {
      CommaStep(lx, stop, src, stack, ev, pos);
      var top := stack[|stack| - 1];
      stack := stack[|stack| - 1 := Frame(top.ret, top.count + 1)];
      pos := pos + 1;
      d := if src == ElementS then ElementDelimiterS else MemberDelimiterS;
    }

    /** Transit */
    method Transit(src: State, dst: State) returns (d: State)
      requires !error && Laws(lx) && (src == FinishS || StackOk(src, stack))
               && dst == Predict(src, Tokenize(lx.peek(pos)))
      modifies this`pos, this`ev, this`error, this`stack
      ensures src == FinishS ==> d == ErrorS
      ensures src != FinishS && d == ErrorS ==> Resume(lx, stop, src, old(stack), old(ev), old(pos)) == Fail
      ensures d != ErrorS ==> pos > old(pos) && Reached(d, Resume(lx, stop, src, old(stack), old(ev), old(pos)))
    {
      if dst == ErrorS {
        if src != FinishS {
          ErrorStep(lx, stop, src, stack, ev, pos);
        }
        d := dst;
      } else if dst == ArrayInitialS || dst == ObjectInitialS {
        Open(src, dst == ArrayInitialS);
        d := dst;
      } else if dst == ObjectFinishS || dst == ArrayFinishS {
        d := Close(src);
      } else if dst == MemberValueS || dst == ElementS || dst == ValueS {
        d := Simple(src);
      } else if dst == MemberKeyS {
        d := Name(src);
      } else if dst == KeyValueDelimiterS {
        Colon();
        d := dst;
      } else {
        d := Comma(src);
      }
    }

    /** IterativeParse: the pushdown parser over the whole text. */
    method IterativeParse()
      requires Laws(lx)
      modifies this
      ensures Is(Document(lx, stop))
    {
      pos, ev, error, stack := 0, [], false, [];
      var state := StartS;
      Skip();
      if error {
        return;
      }
      while lx.peek(pos) != 0
        invariant !error
        invariant state == FinishS ==> !stop && Document(lx, stop) == if lx.peek(pos) == 0 then Go(ev, pos) else Fail
        invariant state != FinishS ==>
                    StackOk(state, stack) && Document(lx, stop) == Resume(lx, stop, state, stack, ev, pos)
        decreases Left(lx, pos)
      {
        assert PeekLaw(lx, pos);
        var d := Transit(state, Predict(state, Tokenize(lx.peek(pos))));
        if d == ErrorS {
          error := true;
          return;
        }
        state := d;
        if stop && state == FinishS {
          return;
        }
        Skip();
        if error {
          return;
        }
      }
      if state != FinishS {
        ErrorStep(lx, stop, state, stack, ev, pos);
        error := true;
      }
    }
  }

  /** Both parsers on the same text: one accepts exactly when the other does, with the same events. */
  method ParseBothWays(lx: Lexer, stop: bool) returns (ok: bool, ev: seq<Event>, ok': bool, ev': seq<Event>)
    requires Laws(lx)
    ensures ok == ok' && (ok ==> ev == ev' && Document(lx, stop).Go? && ev == Document(lx, stop).ev)
  {
    var r := new Reader(lx, stop);
    r.Parse();
    ok, ev := !r.error, r.ev;
    r.IterativeParse();
    ok', ev' := !r.error, r.ev;
  }
}
