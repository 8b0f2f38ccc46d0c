/** The grammar of section 2 of RFC 7159 over the tokens of a lexer, stated by derivations instead of a
    parser, and why recursive descent accepts exactly the derivable texts. */
module JsonDerivation {
  import opened JsonGrammar

  /** A derivation of `value`. */
  datatype Phrase =
    | NullP
    | BoolP(b: bool)
    | NumberP(n: int)
    | StringP(s: Text)
    | ArrayP(vals: seq<Phrase>)
    | ObjectP(members: seq<Part>)

  /** A derivation of `member`. */
  datatype Part = Part(name: Text, val: Phrase)

  // ---------- where a derivation ends ----------

  /** A structural character and the white space behind it: the position after both, or -1. */
  ghost function Mark(lx: Lexer, c: Byte, p: nat): (q: int) {
    if lx.peek(p) == c then lx.skip(p + 1) else -1
  }

  /** The bytes of a literal name. */
  ghost predicate Spelled(lx: Lexer, p: nat, word: seq<Byte>) {
    forall i :: 0 <= i < |word| ==> lx.peek(p + i) == word[i]
  }

  ghost function Word(lx: Lexer, p: nat, word: seq<Byte>): (q: int)
    ensures q >= -1 && (q != -1 && word != [] ==> lx.peek(p) == word[0])
  {
    assert Spelled(lx, p, word) && word != [] ==> lx.peek(p + 0) == word[0];
    if Spelled(lx, p, word) then p + |word| else -1
  }

  /** The reader compares a literal byte by byte. */
  lemma {:induction false} MatchesIs(lx: Lexer, p: nat, word: seq<Byte>)
    ensures Matches(lx, p, word) <==> Spelled(lx, p, word)
    decreases |word|
  {
    if word != [] {
      MatchesIs(lx, p + 1, word[1..]);
      if Spelled(lx, p, word) {
        assert lx.peek(p + 0) == word[0];
        forall i | 0 <= i < |word[1..]| ensures lx.peek(p + 1 + i) == word[1..][i] {
          assert lx.peek(p + (1 + i)) == word[1 + i];
        }
      }
      if Matches(lx, p, word) {
        forall i | 0 <= i < |word| ensures lx.peek(p + i) == word[i] {
          if i > 0 {
            assert lx.peek(p + 1 + (i - 1)) == word[1..][i - 1];
          }
        }
      }
    }
  }

  /** A literal name is read exactly where it stands. */
  lemma LiteralIs(lx: Lexer, ev: seq<Event>, p: nat, c: Byte, rest: seq<Byte>, e: Event)
    ensures lx.peek(p) == c && Matches(lx, p + 1, rest) <==> Spelled(lx, p, [c] + rest)
    ensures lx.peek(p) == c ==>
              Literal(lx, ev, p, rest, e)
              == if Word(lx, p, [c] + rest) == -1 then Fail else Go(ev + [e], Word(lx, p, [c] + rest))
  {
    MatchesIs(lx, p, [c] + rest);
    assert ([c] + rest)[1..] == rest;
  }

  const NULL_WORD: seq<Byte> := [0x6E, 0x75, 0x6C, 0x6C]
  const TRUE_WORD: seq<Byte> := [0x74, 0x72, 0x75, 0x65]
  const FALSE_WORD: seq<Byte> := [0x66, 0x61, 0x6C, 0x73, 0x65]

  /** A minus sign or a digit. */
  predicate Numeric(c: Byte) {
    c == 0x2D || 0x30 <= c <= 0x39
  }

  /** The three literal names. */
  lemma Names(lx: Lexer, ev: seq<Event>, p: nat)
    requires Laws(lx)
    ensures lx.peek(p) == LOWER_N ==> Value(lx, ev, p) == Named(ev, Word(lx, p, NULL_WORD), Null)
    ensures lx.peek(p) == LOWER_T ==> Value(lx, ev, p) == Named(ev, Word(lx, p, TRUE_WORD), Bool(true))
    ensures lx.peek(p) == LOWER_F ==> Value(lx, ev, p) == Named(ev, Word(lx, p, FALSE_WORD), Bool(false))
  {
    LiteralIs(lx, ev, p, LOWER_N, [0x75, 0x6C, 0x6C], Null);
    LiteralIs(lx, ev, p, LOWER_T, [0x72, 0x75, 0x65], Bool(true));
    LiteralIs(lx, ev, p, LOWER_F, [0x61, 0x6C, 0x73, 0x65], Bool(false));
    assert [LOWER_N] + [0x75, 0x6C, 0x6C] == NULL_WORD && [LOWER_T] + [0x72, 0x75, 0x65] == TRUE_WORD;
    assert [LOWER_F] + [0x61, 0x6C, 0x73, 0x65] == FALSE_WORD;
  }

  ghost function Named(ev: seq<Event>, q: int, e: Event): (r: Parsed)
    requires q >= -1
  {
    if q == -1 then Fail else Go(ev + [e], q)
  }

  /** The position at which phrase `d`, read from `p`, ends; -1 if the text at `p` is not derived by it. */
  ghost function Ends(lx: Lexer, d: Phrase, p: nat): (q: int)
    requires Laws(lx)
    ensures q == -1 || q > p
  {
    assert SkipLaw(lx, p + 1) && TextLaw(lx, p) && NumberLaw(lx, p);
    match d
    case NullP => Word(lx, p, NULL_WORD)
    case BoolP(b) => Word(lx, p, if b then TRUE_WORD else FALSE_WORD)
    case NumberP(n) =>
      if Numeric(lx.peek(p)) && lx.number(p).Got? && lx.number(p).val == n then lx.number(p).end else -1
    case StringP(s) =>
      if lx.peek(p) == QUOTE && lx.text(p).Got? && lx.text(p).val == s then lx.text(p).end else -1
    case ArrayP(vals) =>
      var q := Mark(lx, LBRACKET, p);
      if q == -1 then -1
      else if vals == [] then (if lx.peek(q) == RBRACKET then q + 1 else -1)
      else EndsVals(lx, vals, q)
    case ObjectP(members) =>
      var q := Mark(lx, LBRACE, p);
      if q == -1 then -1
      else if members == [] then (if lx.peek(q) == RBRACE then q + 1 else -1)
      else EndsParts(lx, members, q)
  }

  /** value *( value-separator value ) end-array */
  ghost function EndsVals(lx: Lexer, vals: seq<Phrase>, p: nat): (q: int)
    requires Laws(lx) && vals != []
    ensures q == -1 || q > p
  {
    var e := Ends(lx, vals[0], p);
    if e == -1 then -1
    else
      assert SkipLaw(lx, e);
      var q := lx.skip(e);
      if q == -1 then -1
      else if |vals| == 1 then (if lx.peek(q) == RBRACKET then q + 1 else -1)
      else
        assert SkipLaw(lx, q + 1);
        if Mark(lx, COMMA, q) == -1 then -1 else EndsVals(lx, vals[1..], Mark(lx, COMMA, q))
  }

  /** string name-separator */
  ghost function EndsName(lx: Lexer, name: Text, p: nat): (q: int)
    requires Laws(lx)
    ensures q == -1 || q > p
  {
    assert TextLaw(lx, p);
    if lx.peek(p) != QUOTE || lx.text(p).Bad? || lx.text(p).val != name then -1
    else
      assert SkipLaw(lx, lx.text(p).end);
      var q := lx.skip(lx.text(p).end);
      if q == -1 then -1
      else
        assert SkipLaw(lx, q + 1);
        Mark(lx, COLON, q)
  }

  /** member *( value-separator member ) end-object */
  ghost function EndsParts(lx: Lexer, parts: seq<Part>, p: nat): (q: int)
    requires Laws(lx) && parts != []
    ensures q == -1 || q > p
  {
    var v := EndsName(lx, parts[0].name, p);
    if v == -1 then -1
    else
      var e := Ends(lx, parts[0].val, v);
      if e == -1 then -1
      else
        assert SkipLaw(lx, e);
        var q := lx.skip(e);
        if q == -1 then -1
        else if |parts| == 1 then (if lx.peek(q) == RBRACE then q + 1 else -1)
        else
          assert SkipLaw(lx, q + 1);
          if Mark(lx, COMMA, q) == -1 then -1 else EndsParts(lx, parts[1..], Mark(lx, COMMA, q))
  }

  // ---------- the events of a derivation ----------

  ghost function Yield(d: Phrase): (ev: seq<Event>) {
    match d
    case NullP => [Null]
    case BoolP(b) => [Bool(b)]
    case NumberP(n) => [Number(n)]
    case StringP(s) => [String(s)]
    case ArrayP(vals) => [StartArray] + YieldVals(vals) + [EndArray(|vals|)]
    case ObjectP(members) => [StartObject] + YieldParts(members) + [EndObject(|members|)]
  }

  ghost function YieldVals(vals: seq<Phrase>): (ev: seq<Event>) {
    if vals == [] then [] else Yield(vals[0]) + YieldVals(vals[1..])
  }

  ghost function YieldParts(parts: seq<Part>): (ev: seq<Event>) {
    if parts == [] then [] else [Key(parts[0].name)] + Yield(parts[0].val) + YieldParts(parts[1..])
  }

  lemma Regroup<T>(a: seq<T>, b: seq<T>, c: seq<T>, d: seq<T>)
    ensures a + b + c + d == a + (b + c) + d
  {
  }

  lemma Regroup4<T>(a: seq<T>, k: seq<T>, b: seq<T>, c: seq<T>, d: seq<T>)
    ensures a + k + b + c + d == a + (k + b + c) + d
  {
  }

  lemma Wrap<T>(a: seq<T>, o: seq<T>, b: seq<T>, c: seq<T>)
    ensures a + o + b + c == a + (o + b + c)
  {
  }

  // ---------- every derivable text is accepted ----------

  /** No value begins with a closing bracket. */
  lemma NotClosing(lx: Lexer, vals: seq<Phrase>, p: nat)
    requires Laws(lx) && vals != [] && EndsVals(lx, vals, p) != -1
    ensures lx.peek(p) != RBRACKET
  {
    assert Ends(lx, vals[0], p) != -1;
  }

  /** A derived value is read, with the events of its derivation. */
  lemma {:induction false} ReadsPhrase(lx: Lexer, d: Phrase, ev: seq<Event>, p: nat)
    requires Laws(lx) && Ends(lx, d, p) != -1
    ensures Value(lx, ev, p) == Go(ev + Yield(d), Ends(lx, d, p))
    decreases d, 0
  {
    match d {
      case NullP => Names(lx, ev, p);
      case BoolP(_) => Names(lx, ev, p);
      case NumberP(_) =>
      case StringP(_) =>
      case ArrayP(vals) => ReadsArray(lx, vals, ev, p);
      case ObjectP(members) => ReadsObject(lx, members, ev, p);
    }
  }

  lemma {:induction false} ReadsArray(lx: Lexer, vals: seq<Phrase>, ev: seq<Event>, p: nat)
    requires Laws(lx) && Ends(lx, ArrayP(vals), p) != -1
    ensures Value(lx, ev, p) == Go(ev + Yield(ArrayP(vals)), Ends(lx, ArrayP(vals), p))
    decreases vals, 1
  {
    assert SkipLaw(lx, p + 1);
    assert Value(lx, ev, p) == Array(lx, ev + [StartArray], p + 1) == ArrayBody(lx, ev + [StartArray], lx.skip(p + 1));
    Wrap(ev, [StartArray], YieldVals(vals), [EndArray(|vals|)]);
    if vals == [] {
      assert ev + [StartArray] + [] == ev + [StartArray];
    } else {
      NotClosing(lx, vals, lx.skip(p + 1));
      ReadsVals(lx, vals, ev + [StartArray], lx.skip(p + 1), 0);
    }
  }

  lemma {:induction false} ReadsVals(lx: Lexer, vals: seq<Phrase>, ev: seq<Event>, p: nat, n: nat)
    requires Laws(lx) && vals != [] && EndsVals(lx, vals, p) != -1
    ensures Elements(lx, ev, p, n) == Go(ev + YieldVals(vals) + [EndArray(n + |vals|)], EndsVals(lx, vals, p))
    decreases vals, 0
  {
    var e := Ends(lx, vals[0], p);
    ReadsPhrase(lx, vals[0], ev, p);
    assert SkipLaw(lx, e) && SkipLaw(lx, lx.skip(e) + 1);
    if |vals| == 1 {
      assert ev + Yield(vals[0]) + YieldVals(vals[1..]) == ev + Yield(vals[0]);
    } else {
      ReadsVals(lx, vals[1..], ev + Yield(vals[0]), Mark(lx, COMMA, lx.skip(e)), n + 1);
    }
    Regroup(ev, Yield(vals[0]), YieldVals(vals[1..]), [EndArray(n + |vals|)]);
  }

  lemma {:induction false} ReadsObject(lx: Lexer, members: seq<Part>, ev: seq<Event>, p: nat)
    requires Laws(lx) && Ends(lx, ObjectP(members), p) != -1
    ensures Value(lx, ev, p) == Go(ev + Yield(ObjectP(members)), Ends(lx, ObjectP(members), p))
    decreases members, 1
  {
    assert SkipLaw(lx, p + 1);
    assert Value(lx, ev, p) == Object(lx, ev + [StartObject], p + 1)
      == ObjectBody(lx, ev + [StartObject], lx.skip(p + 1));
    Wrap(ev, [StartObject], YieldParts(members), [EndObject(|members|)]);
    if members == [] {
      assert ev + [StartObject] + [] == ev + [StartObject];
    } else {
      ReadsParts(lx, members, ev + [StartObject], lx.skip(p + 1), 0);
    }
  }

  lemma ReadsName(lx: Lexer, name: Text, ev: seq<Event>, p: nat, n: nat)
    requires Laws(lx) && EndsName(lx, name, p) != -1
    ensures Members(lx, ev, p, n) == MemberValue(lx, ev + [Key(name)], EndsName(lx, name, p), n)
  {
    assert SkipLaw(lx, lx.text(p).end);
    assert SkipLaw(lx, lx.skip(lx.text(p).end) + 1);
  }

  lemma {:induction false} ReadsParts(lx: Lexer, parts: seq<Part>, ev: seq<Event>, p: nat, n: nat)
    requires Laws(lx) && parts != [] && EndsParts(lx, parts, p) != -1
    ensures Members(lx, ev, p, n) == Go(ev + YieldParts(parts) + [EndObject(n + |parts|)], EndsParts(lx, parts, p))
    decreases parts, 0
  {
    var k, v := [Key(parts[0].name)], EndsName(lx, parts[0].name, p);
    var e := Ends(lx, parts[0].val, v);
    ReadsName(lx, parts[0].name, ev, p, n);
    ReadsPhrase(lx, parts[0].val, ev + k, v);
    assert SkipLaw(lx, e) && SkipLaw(lx, lx.skip(e) + 1);
    if |parts| == 1 {
      assert ev + k + Yield(parts[0].val) + YieldParts(parts[1..]) == ev + k + Yield(parts[0].val);
    } else {
      ReadsParts(lx, parts[1..], ev + k + Yield(parts[0].val), Mark(lx, COMMA, lx.skip(e)), n + 1);
    }
    Regroup4(ev, k, Yield(parts[0].val), YieldParts(parts[1..]), [EndObject(n + |parts|)]);
  }

  // ---------- every accepted text is derivable ----------

  /** What has been read is derived. */
  lemma {:induction false} DerivesValue(lx: Lexer, ev: seq<Event>, p: nat) returns (d: Phrase)
    requires Laws(lx) && Value(lx, ev, p).Go?
    ensures Ends(lx, d, p) == Value(lx, ev, p).p && Value(lx, ev, p).ev == ev + Yield(d)
    decreases Left(lx, p), 2
  {
    assert PeekLaw(lx, p) && TextLaw(lx, p) && NumberLaw(lx, p) && SkipLaw(lx, p + 1);
    var c := lx.peek(p);
    Names(lx, ev, p);
    if c == LOWER_N {
      d := NullP;
    } else if c == LOWER_T {
      d := BoolP(true);
    } else if c == LOWER_F {
      d := BoolP(false);
    } else if c == QUOTE {
      d := StringP(lx.text(p).val);
    } else if c == LBRACE {
      d := DerivesObject(lx, ev, p);
    } else if c == LBRACKET {
      d := DerivesArray(lx, ev, p);
    } else {
      d := NumberP(lx.number(p).val);
    }
  }

  lemma {:induction false} DerivesArray(lx: Lexer, ev: seq<Event>, p: nat) returns (d: Phrase)
    requires Laws(lx) && lx.peek(p) == LBRACKET && Value(lx, ev, p).Go?
    ensures Ends(lx, d, p) == Value(lx, ev, p).p && Value(lx, ev, p).ev == ev + Yield(d)
    decreases Left(lx, p), 1
  {
    assert PeekLaw(lx, p) && SkipLaw(lx, p + 1);
    var ev1, q := ev + [StartArray], lx.skip(p + 1);
    assert Value(lx, ev, p) == Array(lx, ev1, p + 1) == ArrayBody(lx, ev1, q);
    if lx.peek(q) == RBRACKET {
      d := ArrayP([]);
      assert ev + ([StartArray] + [] + [EndArray(0)]) == ev1 + [EndArray(0)];
    } else {
      var vals := DerivesVals(lx, ev1, q, 0);
      d := ArrayP(vals);
      Wrap(ev, [StartArray], YieldVals(vals), [EndArray(|vals|)]);
    }
  }

  lemma {:induction false} DerivesVals(lx: Lexer, ev: seq<Event>, p: nat, n: nat) returns (vals: seq<Phrase>)
    requires Laws(lx) && Elements(lx, ev, p, n).Go?
    ensures vals != [] && EndsVals(lx, vals, p) == Elements(lx, ev, p, n).p
    ensures Elements(lx, ev, p, n).ev == ev + YieldVals(vals) + [EndArray(n + |vals|)]
    decreases Left(lx, p), 3
  {
    var first := DerivesValue(lx, ev, p);
    var r := Value(lx, ev, p);
    assert SkipLaw(lx, r.p);
    var q := lx.skip(r.p);
    assert PeekLaw(lx, q) && SkipLaw(lx, q + 1);
    if lx.peek(q) == COMMA {
      var rest := DerivesVals(lx, r.ev, lx.skip(q + 1), n + 1);
      vals := [first] + rest;
      assert vals[1..] == rest;
    } else {
      vals := [first];
      assert vals[1..] == [] && r.ev + YieldVals([]) == r.ev;
    }
    Regroup(ev, Yield(first), YieldVals(vals[1..]), [EndArray(n + |vals|)]);
  }

  lemma {:induction false} DerivesObject(lx: Lexer, ev: seq<Event>, p: nat) returns (d: Phrase)
    requires Laws(lx) && lx.peek(p) == LBRACE && Value(lx, ev, p).Go?
    ensures Ends(lx, d, p) == Value(lx, ev, p).p && Value(lx, ev, p).ev == ev + Yield(d)
    decreases Left(lx, p), 1
  {
    assert PeekLaw(lx, p) && SkipLaw(lx, p + 1);
    var ev1, q := ev + [StartObject], lx.skip(p + 1);
    assert Value(lx, ev, p) == Object(lx, ev1, p + 1) == ObjectBody(lx, ev1, q);
    if lx.peek(q) == RBRACE {
      d := ObjectP([]);
      assert ev + ([StartObject] + [] + [EndObject(0)]) == ev1 + [EndObject(0)];
    } else {
      var parts := DerivesParts(lx, ev1, q, 0);
      d := ObjectP(parts);
      Wrap(ev, [StartObject], YieldParts(parts), [EndObject(|parts|)]);
    }
  }

  lemma DerivesName(lx: Lexer, ev: seq<Event>, p: nat, n: nat) returns (name: Text)
    requires Laws(lx) && Members(lx, ev, p, n).Go?
    ensures EndsName(lx, name, p) > p && p < lx.size
    ensures Members(lx, ev, p, n) == MemberValue(lx, ev + [Key(name)], EndsName(lx, name, p), n)
  {
    assert PeekLaw(lx, p) && TextLaw(lx, p);
    name := lx.text(p).val;
    assert SkipLaw(lx, lx.text(p).end);
    assert SkipLaw(lx, lx.skip(lx.text(p).end) + 1);
  }

  lemma {:induction false} DerivesParts(lx: Lexer, ev: seq<Event>, p: nat, n: nat) returns (parts: seq<Part>)
    requires Laws(lx) && Members(lx, ev, p, n).Go?
    ensures parts != [] && EndsParts(lx, parts, p) == Members(lx, ev, p, n).p
    ensures Members(lx, ev, p, n).ev == ev + YieldParts(parts) + [EndObject(n + |parts|)]
    decreases Left(lx, p), 3
  {
    var name := DerivesName(lx, ev, p, n);
    var k, v := [Key(name)], EndsName(lx, name, p);
    var val := DerivesValue(lx, ev + k, v);
    var r := Value(lx, ev + k, v);
    assert SkipLaw(lx, r.p);
    var q := lx.skip(r.p);
    assert PeekLaw(lx, q) && SkipLaw(lx, q + 1);
    if lx.peek(q) == COMMA {
      var rest := DerivesParts(lx, r.ev, lx.skip(q + 1), n + 1);
      parts := [Part(name, val)] + rest;
      assert parts[1..] == rest;
    } else {
      parts := [Part(name, val)];
      assert parts[1..] == [] && r.ev + YieldParts([]) == r.ev;
    }
    Regroup4(ev, k, Yield(val), YieldParts(parts[1..]), [EndObject(n + |parts|)]);
  }

  // ---------- a text has one derivation ----------

  lemma {:induction false} Unambiguous(lx: Lexer, c: Phrase, d: Phrase, p: nat)
    requires Laws(lx) && Ends(lx, c, p) != -1 && Ends(lx, d, p) != -1
    ensures c == d
    decreases c, 1
  {
    assert SkipLaw(lx, p + 1);
    if c.ArrayP? && c.vals != [] {
      NotClosing(lx, c.vals, lx.skip(p + 1));
    }
    if d.ArrayP? && d.vals != [] {
      NotClosing(lx, d.vals, lx.skip(p + 1));
    }
    if c.ArrayP? && d.ArrayP? && c.vals != [] && d.vals != [] {
      UnambiguousVals(lx, c.vals, d.vals, lx.skip(p + 1));
    } else if c.ObjectP? && d.ObjectP? && c.members != [] && d.members != [] {
      UnambiguousParts(lx, c.members, d.members, lx.skip(p + 1));
    }
  }

  lemma {:induction false} UnambiguousVals(lx: Lexer, a: seq<Phrase>, b: seq<Phrase>, p: nat)
    requires Laws(lx) && a != [] && b != [] && EndsVals(lx, a, p) != -1 && EndsVals(lx, b, p) != -1
    ensures a == b
    decreases a, 0
  {
    Unambiguous(lx, a[0], b[0], p);
    var e := Ends(lx, a[0], p);
    assert SkipLaw(lx, e) && SkipLaw(lx, lx.skip(e) + 1);
    if |a| > 1 && |b| > 1 {
      UnambiguousVals(lx, a[1..], b[1..], Mark(lx, COMMA, lx.skip(e)));
      assert a == [a[0]] + a[1..] && b == [b[0]] + b[1..];
    }
  }

  lemma {:induction false} UnambiguousParts(lx: Lexer, a: seq<Part>, b: seq<Part>, p: nat)
    requires Laws(lx) && a != [] && b != [] && EndsParts(lx, a, p) != -1 && EndsParts(lx, b, p) != -1
    ensures a == b
    decreases a, 0
  {
    var v := EndsName(lx, a[0].name, p);
    Unambiguous(lx, a[0].val, b[0].val, v);
    var e := Ends(lx, a[0].val, v);
    assert SkipLaw(lx, e) && SkipLaw(lx, lx.skip(e) + 1);
    assert a[0] == b[0];
    if |a| > 1 && |b| > 1 {
      UnambiguousParts(lx, a[1..], b[1..], Mark(lx, COMMA, lx.skip(e)));
      assert a == [a[0]] + a[1..] && b == [b[0]] + b[1..];
    }
  }

  // ---------- whole documents ----------

  /** JSON-text = ws value ws, with nothing behind it unless parsing stops there. */
  ghost predicate Derives(lx: Lexer, stop: bool, d: Phrase)
    requires Laws(lx)
  {
    assert SkipLaw(lx, 0);
    && lx.skip(0) != -1 && Ends(lx, d, lx.skip(0)) != -1
    && (stop || (lx.skip(Ends(lx, d, lx.skip(0))) >= 0 && lx.peek(lx.skip(Ends(lx, d, lx.skip(0)))) == 0))
  }

  /** The parser accepts a text exactly if the grammar derives it. */
  lemma AcceptsDerivable(lx: Lexer, stop: bool)
    requires Laws(lx)
    ensures Document(lx, stop).Go? <==> exists d :: Derives(lx, stop, d)
  {
    assert SkipLaw(lx, 0);
    if Document(lx, stop).Go? {
      var d := DerivesValue(lx, [], lx.skip(0));
      assert SkipLaw(lx, Ends(lx, d, lx.skip(0)));
      assert Derives(lx, stop, d);
    }
    if d :| Derives(lx, stop, d) {
      DerivedEvents(lx, stop, d);
    }
  }

  /** The events of an accepted text are those of its derivation. */
  lemma DerivedEvents(lx: Lexer, stop: bool, d: Phrase)
    requires Laws(lx) && Derives(lx, stop, d)
    ensures Document(lx, stop).Go? && Document(lx, stop).ev == Yield(d)
  {
    assert SkipLaw(lx, 0);
    ReadsPhrase(lx, d, [], lx.skip(0));
    assert SkipLaw(lx, Ends(lx, d, lx.skip(0)));
    assert [] + Yield(d) == Yield(d);
  }
}
