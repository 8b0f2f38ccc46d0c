/** The lexical layer of the reader: white space, comments, strings with their escapes, UTF-8. */
module JsonText {
  import opened JsonGrammar

  const BACKSLASH: Byte := 0x5C
  const SLASH: Byte := 0x2F
  const STAR: Byte := 0x2A
  const LOWER_U: Byte := 0x75

  /** The next byte of a text that ends with an implicit 0. */
  function Peek(s: Text, p: nat): (c: Byte) {
    if p < |s| then s[p] else 0
  }

  // ---------- white space and comments ----------

  predicate Space(c: Byte) {
    c == 0x20 || c == 0x0A || c == 0x0D || c == 0x09
  }

  function SkipSpace(s: Text, p: nat): (q: nat)
    ensures q >= p && !Space(Peek(s, q)) && forall i :: p <= i < q ==> Space(Peek(s, i))
    decreases if p < |s| then |s| - p else 0
  {
    if Space(Peek(s, p)) then SkipSpace(s, p + 1) else p
  }

  /** Behind a block comment whose inside begins at `p`, or -1.  As in the source, a star that is followed
      by anything but a slash takes that byte with it. */
  function BlockEnd(s: Text, p: nat): (q: int)
    ensures q == -1 || q > p
    decreases if p < |s| then |s| - p else 0
  {
    if Peek(s, p) == 0 then -1
    else if Peek(s, p) != STAR then BlockEnd(s, p + 1)
    else if Peek(s, p + 1) == 0 then -1
    else if Peek(s, p + 1) == SLASH then p + 2
    else BlockEnd(s, p + 2)
  }

  function LineEnd(s: Text, p: nat): (q: nat)
    ensures q >= p && (Peek(s, q) == 0 || (q > p && Peek(s, q - 1) == 0x0A))
    ensures forall i :: p <= i < q - 1 ==> Peek(s, i) != 0 && Peek(s, i) != 0x0A
    decreases if p < |s| then |s| - p else 0
  {
    if Peek(s, p) == 0 then p else if Peek(s, p) == 0x0A then p + 1 else LineEnd(s, p + 1)
  }

  /** SkipWhitespaceAndComments; -1 is a syntax error. */
  function Skip(s: Text, comments: bool, p: nat): (q: int)
    ensures q == -1 || q >= p
    decreases if p < |s| then |s| - p else 0
  {
    var r := SkipSpace(s, p);
    if !comments || Peek(s, r) != SLASH then r
    else if Peek(s, r + 1) == STAR then
      var e := BlockEnd(s, r + 2);
      if e == -1 then -1 else Skip(s, comments, e)
    else if Peek(s, r + 1) == SLASH then Skip(s, comments, LineEnd(s, r + 2))
    else -1
  }

  /** The first star at or behind `p` that a slash follows, with no end of the text before it: where a block
      comment ends whose inside begins at `p`. */
  predicate Closes(s: Text, p: nat, e: nat) {
    && p <= e && Peek(s, e) == STAR && Peek(s, e + 1) == SLASH
    && forall i :: p <= i < e ==> Peek(s, i) != 0 && !(Peek(s, i) == STAR && Peek(s, i + 1) == SLASH)
  }

  /** How many stars in a row end at `e`, counted from `p` on. */
  function Stars(s: Text, p: nat, e: nat): (k: nat)
    ensures k <= if p <= e then e - p + 1 else 0
    decreases e
  {
    if e < p || Peek(s, e) != STAR then 0 else if e == p then 1 else 1 + Stars(s, p, e - 1)
  }

  lemma {:induction false} StarsFrom(s: Text, p: nat, e: nat)
    requires p < e
    ensures Stars(s, p, e) == Stars(s, p + 1, e) + if Stars(s, p + 1, e) == e - p && Peek(s, p) == STAR then 1 else 0
    decreases e
  {
    if Peek(s, e) == STAR && p + 1 < e {
      StarsFrom(s, p, e - 1);
    }
  }

  /** The scanner pairs the stars up: it stops where the comment ends if and only if the number of stars there is
      odd, and otherwise reads on as if the comment had not ended. */
  lemma {:induction false} BlockEndIs(s: Text, p: nat, e: nat)
    requires Closes(s, p, e)
    ensures BlockEnd(s, p) == if Stars(s, p, e) % 2 == 1 then e + 2 else BlockEnd(s, e + 2)
    ensures BlockEnd(s, p) == e + 2 <==> Stars(s, p, e) % 2 == 1
    decreases e - p
  {
    if p < e {
      StarsFrom(s, p, e);
      if Peek(s, p) != STAR {
        BlockEndIs(s, p + 1, e);
      } else if p + 1 < e {
        StarsFrom(s, p + 1, e);
        BlockEndIs(s, p + 2, e);
      }
    }
  }

  /** Where the scanner stops, a comment ends, there or earlier. */
  lemma {:induction false} EndCloses(s: Text, p: nat) returns (e: nat)
    requires BlockEnd(s, p) != -1
    ensures Closes(s, p, e) && e + 2 <= BlockEnd(s, p)
    decreases if p < |s| then |s| - p else 0
  {
    if Peek(s, p) == STAR && Peek(s, p + 1) == SLASH {
      e := p;
    } else if Peek(s, p) == STAR && !(Peek(s, p + 1) == STAR && Peek(s, p + 2) == SLASH) {
      e := EndCloses(s, p + 2);
    } else if Peek(s, p) == STAR {
      e := p + 1;
      BlockEndIs(s, p, e);
    } else {
      e := EndCloses(s, p + 1);
    }
  }

  /** A comment that nothing closes is an error. */
  lemma NeverCloses(s: Text, p: nat)
    requires forall e :: !Closes(s, p, e)
    ensures BlockEnd(s, p) == -1
  {
    if BlockEnd(s, p) != -1 {
      var e := EndCloses(s, p);
    }
  }

  /** Two stars before the slash: the comment is closed, and the scanner does not see it. */
  lemma EvenStarsMissed(s: Text)
    requires s == [SLASH, STAR, STAR, STAR, SLASH, LBRACKET, RBRACKET]
    ensures Closes(s, 2, 3) && BlockEnd(s, 2) == -1 && Skip(s, true, 0) == -1
  {
    BlockEndIs(s, 2, 3);
    assert Stars(s, 2, 2) == 1;
    forall e ensures !Closes(s, 5, e) {
    }
    NeverCloses(s, 5);
  }

  // ---------- strings ----------

  /** The byte a one-letter escape stands for, or 0. */
  function Unescape(e: Byte): (c: Byte) {
    if e == QUOTE || e == SLASH || e == BACKSLASH then e
    else if e == 0x62 then 0x08
    else if e == 0x66 then 0x0C
    else if e == 0x6E then 0x0A
    else if e == 0x72 then 0x0D
    else if e == 0x74 then 0x09
    else 0
  }

  function HexValue(c: Byte): (v: int)
    ensures -1 <= v < 16
  {
    if 0x30 <= c <= 0x39 then c - 0x30
    else if 0x41 <= c <= 0x46 then c - 0x41 + 10
    else if 0x61 <= c <= 0x66 then c - 0x61 + 10
    else -1
  }

  /** The number written by `n` hexadecimal digits, after `acc`; -1 if one is not a digit. */
  function Hex(s: Text, p: nat, n: nat, acc: nat): (v: int)
    ensures v >= -1
    decreases n
  {
    if n == 0 then acc
    else if HexValue(Peek(s, p)) == -1 then -1
    else Hex(s, p + 1, n - 1, 16 * acc + HexValue(Peek(s, p)))
  }

  /** UTF8::Encode */
  function Utf8(c: nat): (t: Text) {
    if c <= 0x7F then [c]
    else if c <= 0x7FF then [0xC0 + c / 64 % 32, 0x80 + c % 64]
    else if c <= 0xFFFF then [0xE0 + c / 4096 % 16, 0x80 + c / 64 % 64, 0x80 + c % 64]
    else [0xF0 + c / 262144 % 8, 0x80 + c / 4096 % 64, 0x80 + c / 64 % 64, 0x80 + c % 64]
  }

  /** The code point of the escape whose digits begin at `p`, and where it ends; a high surrogate must be
      followed by an escaped low one. */
  function Unicode(s: Text, p: nat): (r: Scanned<nat>)
    ensures r.Got? ==> r.end > p
  {
    var hi := Hex(s, p, 4, 0);
    if hi == -1 then Bad
    else if !(0xD800 <= hi <= 0xDBFF) then Got(hi, p + 4)
    else if Peek(s, p + 4) != BACKSLASH || Peek(s, p + 5) != LOWER_U then Bad
    else
      var lo := Hex(s, p + 6, 4, 0);
      if lo == -1 || lo < 0xDC00 || lo > 0xDFFF then Bad
      else Got((hi - 0xD800) * 1024 + (lo - 0xDC00) + 0x10000, p + 10)
  }

  /** The rest of a string, `acc` being what was read so far. */
  function Chars(s: Text, p: nat, acc: Text): (r: Scanned<Text>)
    ensures r.Got? ==> r.end > p
    decreases if p < |s| then |s| - p else 0
  {
    var c := Peek(s, p);
    if c == BACKSLASH then
      var e := Peek(s, p + 1);
      if Unescape(e) != 0 then Chars(s, p + 2, acc + [Unescape(e)])
      else if e == LOWER_U then
        match Unicode(s, p + 2)
        case Bad => Bad
        case Got(v, q) => Chars(s, q, acc + Utf8(v))
      else Bad
    else if c == QUOTE then Got(acc, p + 1)
    else if c < 0x20 then Bad
    else Chars(s, p + 1, acc + [c])
  }

  function ScanText(s: Text, p: nat): (r: Scanned<Text>) {
    if Peek(s, p) == QUOTE then Chars(s, p + 1, []) else Bad
  }

  /** ParseHex4 */
  method ParseHex4(s: Text, p: nat) returns (v: int)
    ensures v == Hex(s, p, 4, 0)
  {
    v := 0;
    for i := 0 to 4
      invariant v >= 0 && Hex(s, p, 4, 0) == Hex(s, p + i, 4 - i, v)
    {
      var d := HexValue(Peek(s, p + i));
      if d == -1 {
        return -1;
      }
      v := 16 * v + d;
    }
  }

  /** ParseStringToStream */
  method ParseStringToStream(s: Text, p: nat) returns (r: Scanned<Text>)
    requires Peek(s, p) == QUOTE
    ensures r == ScanText(s, p)
  {
    var q, out := p + 1, [];
    while true
      invariant q > p && ScanText(s, p) == Chars(s, q, out)
      decreases if q < |s| then |s| - q else 0
    {
      var c := Peek(s, q);
      if c == BACKSLASH {
        var e := Peek(s, q + 1);
        if Unescape(e) != 0 {
          q, out := q + 2, out + [Unescape(e)];
        } else if e == LOWER_U {
          var u := ParseUnicode(s, q + 2);
          if u.Bad? {
            return Bad;
          }
          q, out := u.end, out + Utf8(u.val);
        } else {
          return Bad;
        }
      } else if c == QUOTE {
        return Got(out, q + 1);
      } else if c < 0x20 {
        return Bad;
      } else {
        q, out := q + 1, out + [c];
      }
    }
  }

  method ParseUnicode(s: Text, p: nat) returns (r: Scanned<nat>)
    ensures r == Unicode(s, p)
  {
    var hi := ParseHex4(s, p);
    if hi == -1 {
      return Bad;
    }
    if !(0xD800 <= hi <= 0xDBFF) {
      return Got(hi, p + 4);
    }
    if Peek(s, p + 4) != BACKSLASH || Peek(s, p + 5) != LOWER_U {
      return Bad;
    }
    var lo := ParseHex4(s, p + 6);
    if lo == -1 || lo < 0xDC00 || lo > 0xDFFF {
      return Bad;
    }
    return Got((hi - 0xD800) * 1024 + (lo - 0xDC00) + 0x10000, p + 10);
  }

  // ---------- the lexer ----------

  /** The lexer of the reader over text `s`; scanning numbers is left open. */
  function Rapid(s: Text, comments: bool, number: nat -> Scanned<int>): (lx: Lexer) {
    Lexer(|s|, (p: nat) => Peek(s, p), (p: nat) => Skip(s, comments, p), (p: nat) => ScanText(s, p), number)
  }

  lemma RapidLaws(s: Text, comments: bool, number: nat -> Scanned<int>)
    requires forall p {:trigger NumberLaw(Rapid(s, comments, number), p)} :: NumberLaw(Rapid(s, comments, number), p)
    ensures Laws(Rapid(s, comments, number))
  {
    var lx := Rapid(s, comments, number);
    forall p: nat ensures TextLaw(lx, p) && SkipLaw(lx, p) && PeekLaw(lx, p) {
    }
  }

  /** A document behind a comment that the scanner does not see closed is refused, though it is valid. */
  lemma EvenStarsRefused(s: Text, number: nat -> Scanned<int>, stop: bool)
    requires s == [SLASH, STAR, STAR, STAR, SLASH, LBRACKET, RBRACKET]
    requires forall p {:trigger NumberLaw(Rapid(s, true, number), p)} :: NumberLaw(Rapid(s, true, number), p)
    ensures Laws(Rapid(s, true, number)) && Document(Rapid(s, true, number), stop) == Fail
  {
    RapidLaws(s, true, number);
    EvenStarsMissed(s);
  }
}
