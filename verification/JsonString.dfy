/** JSON strings stated by derivations: section 7 of RFC 7159 over bytes, and the encoding of section 3 of RFC 3629. */
module JsonString {
  import opened JsonGrammar
  import opened JsonText

  // ---------- the bytes of a code point ----------

  /** A byte that continues a character. */
  predicate Continuation(c: Byte) {
    0x80 <= c <= 0xBF
  }

  /** What a byte adds to the code point, above `base`. */
  function Above(c: Byte, base: int): (v: int) {
    (c as int) - base
  }

  /** The code point that a character of one to four bytes stands for, or -1. */
  function CodePoint(t: Text): (c: int) {
    if |t| == 1 && t[0] <= 0x7F then t[0]
    else if |t| == 2 && 0xC0 <= t[0] <= 0xDF && Continuation(t[1]) then Above(t[0], 0xC0) * 64 + Above(t[1], 0x80)
    else if |t| == 3 && 0xE0 <= t[0] <= 0xEF && Continuation(t[1]) && Continuation(t[2]) then
      Above(t[0], 0xE0) * 4096 + Above(t[1], 0x80) * 64 + Above(t[2], 0x80)
    else if |t| == 4 && 0xF0 <= t[0] <= 0xF7 && Continuation(t[1]) && Continuation(t[2]) && Continuation(t[3]) then
      Above(t[0], 0xF0) * 262144 + Above(t[1], 0x80) * 4096 + Above(t[2], 0x80) * 64 + Above(t[3], 0x80)
    else -1
  }

  /** Two, three and four digits to base 64. */
  lemma TwoDigits(c: nat)
    requires c < 0x800
    ensures c / 64 % 32 == c / 64 && c == c / 64 * 64 + c % 64
  {
  }

  lemma ThreeDigits(c: nat)
    requires c < 0x10000
    ensures c / 4096 % 16 == c / 4096 && c == c / 4096 * 4096 + c / 64 % 64 * 64 + c % 64
  {
    assert c / 64 / 64 == c / 4096;
  }

  lemma FourDigits(c: nat)
    requires c < 0x200000
    ensures c / 262144 % 8 == c / 262144
    ensures c == c / 262144 * 262144 + c / 4096 % 64 * 4096 + c / 64 % 64 * 64 + c % 64
  {
    assert c / 64 / 64 == c / 4096 && c / 4096 / 64 == c / 262144;
  }

  /** Decoding the bytes gives the code point back, and they are the shortest form that has room for it. */
  lemma Utf8Back(c: nat)
    requires c <= 0x10FFFF
    ensures CodePoint(Utf8(c)) == c
    ensures |Utf8(c)| == if c < 0x80 then 1 else if c < 0x800 then 2 else if c < 0x10000 then 3 else 4
  {
    if 0x80 <= c < 0x800 {
      TwoDigits(c);
    } else if 0x800 <= c < 0x10000 {
      ThreeDigits(c);
    } else if c >= 0x10000 {
      FourDigits(c);
    }
  }

  /** Only code points come out of escapes. */
  lemma {:induction false} UnicodeRange(s: Text, p: nat)
    ensures Unicode(s, p).Got? ==> Unicode(s, p).val <= 0x10FFFF
  {
    UnitIs(s, p);
    UnitIs(s, p + 6);
  }

  // ---------- pieces of a string ----------

  /** A byte as it is, an escape by a letter, or the escape of a code point. */
  datatype Piece = Raw(c: Byte) | Letter(e: Byte, c: Byte) | Code(point: nat)

  /** The two-character escapes. */
  predicate Stands(e: Byte, c: Byte) {
    || (e == 0x22 && c == 0x22) || (e == 0x5C && c == 0x5C) || (e == 0x2F && c == 0x2F) || (e == 0x62 && c == 0x08)
    || (e == 0x66 && c == 0x0C) || (e == 0x6E && c == 0x0A) || (e == 0x72 && c == 0x0D) || (e == 0x74 && c == 0x09)
  }

  function HexAt(s: Text, p: nat): (v: int) {
    HexValue(Peek(s, p))
  }

  /** The number of four hexadecimal digits, or -1. */
  function Unit(s: Text, p: nat): (v: int) {
    var a, b, c, d := HexAt(s, p), HexAt(s, p + 1), HexAt(s, p + 2), HexAt(s, p + 3);
    if a < 0 || b < 0 || c < 0 || d < 0 then -1 else 4096 * a + 256 * b + 16 * c + d
  }

  /** Where the escape of code point `c` ends: four digits, or two surrogates. */
  function CodeEnd(s: Text, p: nat, c: nat): (q: int) {
    if Peek(s, p) != 0x5C || Peek(s, p + 1) != 0x75 then -1
    else
      var hi := Unit(s, p + 2);
      if c < 0x10000 then (if hi == c && !(0xD800 <= hi <= 0xDBFF) then p + 6 else -1)
      else if Peek(s, p + 6) != 0x5C || Peek(s, p + 7) != 0x75 then -1
      else
        var lo := Unit(s, p + 8);
        if 0xD800 <= hi <= 0xDBFF && 0xDC00 <= lo <= 0xDFFF && (hi - 0xD800) * 0x400 + (lo - 0xDC00) + 0x10000 == c
        then p + 12 else -1
  }

  /** Where a piece that begins at `p` ends, or -1 if it does not stand there. */
  function PieceEnd(s: Text, p: nat, d: Piece): (q: int)
    ensures q == -1 || q > p
  {
    match d
    case Raw(c) => if Peek(s, p) == c && c >= 0x20 && c != 0x22 && c != 0x5C then p + 1 else -1
    case Letter(e, c) => if Peek(s, p) == 0x5C && Peek(s, p + 1) == e && Stands(e, c) then p + 2 else -1
    case Code(c) => CodeEnd(s, p, c)
  }

  /** Where pieces and the closing quote end. */
  function PiecesEnd(s: Text, p: nat, ds: seq<Piece>): (q: int)
    ensures q == -1 || q > p
    decreases |ds|
  {
    if ds == [] then (if Peek(s, p) == 0x22 then p + 1 else -1)
    else if PieceEnd(s, p, ds[0]) == -1 then -1
    else PiecesEnd(s, PieceEnd(s, p, ds[0]), ds[1..])
  }

  function Bytes(d: Piece): (t: Text) {
    match d
    case Raw(c) => [c]
    case Letter(_, c) => [c]
    case Code(c) => Utf8(c)
  }

  /** The string that the pieces stand for. */
  function Meaning(ds: seq<Piece>): (t: Text) {
    if ds == [] then [] else Bytes(ds[0]) + Meaning(ds[1..])
  }

  // ---------- scanning ----------

  lemma {:induction false} UnitIs(s: Text, p: nat)
    ensures Hex(s, p, 4, 0) == Unit(s, p)
  {
    var a, b, c, d := HexAt(s, p), HexAt(s, p + 1), HexAt(s, p + 2), HexAt(s, p + 3);
    if a >= 0 {
      assert Hex(s, p, 4, 0) == Hex(s, p + 1, 3, a);
      if b >= 0 {
        assert Hex(s, p + 1, 3, a) == Hex(s, p + 2, 2, 16 * a + b);
        if c >= 0 {
          assert Hex(s, p + 2, 2, 16 * a + b) == Hex(s, p + 3, 1, 16 * (16 * a + b) + c);
        }
      }
    }
  }

  lemma {:induction false} UnescapeIs(e: Byte, c: Byte)
    ensures Stands(e, c) <==> Unescape(e) == c && c != 0
  {
  }

  /** An escaped code point is read exactly where its escape stands. */
  lemma {:induction false} UnicodeIs(s: Text, p: nat, c: nat, q: nat)
    requires Peek(s, p) == BACKSLASH && Peek(s, p + 1) == LOWER_U
    ensures Unicode(s, p + 2) == Got(c, q) <==> CodeEnd(s, p, c) == q
  {
    UnitIs(s, p + 2);
    UnitIs(s, p + 8);
  }

  /** A piece that stands at `p` is what is read there. */
  lemma {:induction false} ReadsPiece(s: Text, p: nat, d: Piece, acc: Text)
    requires PieceEnd(s, p, d) != -1
    ensures Chars(s, p, acc) == Chars(s, PieceEnd(s, p, d), acc + Bytes(d))
  {
    match d
    case Raw(_) =>
    case Letter(e, c) => UnescapeIs(e, c);
    case Code(c) =>
      UnescapeIs(LOWER_U, Unescape(LOWER_U));
      UnicodeIs(s, p, c, PieceEnd(s, p, d));
  }

  lemma {:induction false} MeaningFirst(acc: Text, ds: seq<Piece>)
    requires ds != []
    ensures acc + Bytes(ds[0]) + Meaning(ds[1..]) == acc + Meaning(ds)
  {
    assert acc + Bytes(ds[0]) + Meaning(ds[1..]) == acc + (Bytes(ds[0]) + Meaning(ds[1..]));
  }

  lemma {:induction false} ReadsPieces(s: Text, p: nat, ds: seq<Piece>, acc: Text)
    requires PiecesEnd(s, p, ds) != -1
    ensures Chars(s, p, acc) == Got(acc + Meaning(ds), PiecesEnd(s, p, ds))
    decreases |ds|
  {
    if ds == [] {
      assert acc + Meaning(ds) == acc;
    } else {
      ReadsPiece(s, p, ds[0], acc);
      ReadsPieces(s, PieceEnd(s, p, ds[0]), ds[1..], acc + Bytes(ds[0]));
      MeaningFirst(acc, ds);
    }
  }

  /** What is read at `p`, if it is not the closing quote, is a piece. */
  lemma {:induction false} NextPiece(s: Text, p: nat, acc: Text) returns (d: Piece)
    requires Chars(s, p, acc).Got? && Peek(s, p) != QUOTE
    ensures PieceEnd(s, p, d) != -1
  {
    var c := Peek(s, p);
    if c != BACKSLASH {
      d := Raw(c);
    } else if Unescape(Peek(s, p + 1)) != 0 {
      d := Letter(Peek(s, p + 1), Unescape(Peek(s, p + 1)));
      UnescapeIs(d.e, d.c);
    } else {
      var u := Unicode(s, p + 2);
      d := Code(u.val);
      UnicodeIs(s, p, u.val, u.end);
    }
  }

  lemma {:induction false} DerivesPieces(s: Text, p: nat, acc: Text) returns (ds: seq<Piece>)
    requires Chars(s, p, acc).Got?
    ensures PiecesEnd(s, p, ds) != -1
    decreases if p < |s| then |s| - p else 0
  {
    if Peek(s, p) == QUOTE {
      ds := [];
    } else {
      var d := NextPiece(s, p, acc);
      ReadsPiece(s, p, d, acc);
      var rest := DerivesPieces(s, PieceEnd(s, p, d), acc + Bytes(d));
      ds := [d] + rest;
      assert ds[1..] == rest;
    }
  }

  /** A string is accepted if and only if pieces derive it, and then it is what they stand for. */
  lemma {:induction false} StringDerivable(s: Text, p: nat, t: Text, q: nat)
    ensures ScanText(s, p) == Got(t, q)
            <==> Peek(s, p) == QUOTE && exists ds :: PiecesEnd(s, p + 1, ds) == q && Meaning(ds) == t
  {
    if Peek(s, p) == QUOTE {
      if ScanText(s, p) == Got(t, q) {
        var ds := DerivesPieces(s, p + 1, []);
        ReadsPieces(s, p + 1, ds, []);
        assert [] + Meaning(ds) == Meaning(ds);
      }
      if ds :| PiecesEnd(s, p + 1, ds) == q && Meaning(ds) == t {
        ReadsPieces(s, p + 1, ds, []);
        assert [] + Meaning(ds) == Meaning(ds);
      }
    }
  }
}
