/** The writer spells every string as briefly as the reader allows. */
module JsonShortest {
  import opened JsonGrammar
  import opened JsonText
  import opened JsonWriter
  import opened JsonString

  lemma {:induction false} EscapedConcat(a: Text, b: Text)
    ensures Escaped(a + b) == Escaped(a) + Escaped(b)
  {
    if a == [] {
      assert a + b == b;
    } else {
      assert (a + b)[1..] == a[1..] + b;
      EscapedConcat(a[1..], b);
    }
  }

  lemma {:induction false} HighBytes(t: Text)
    requires forall i :: 0 <= i < |t| ==> t[i] >= 0x80
    ensures |Escaped(t)| == |t|
  {
    if t != [] {
      HighBytes(t[1..]);
    }
  }

  lemma {:induction false} OneByte(c: Byte)
    ensures Escaped([c]) == EscapedByte(c)
  {
    assert [c][1..] == [];
  }

  /** No piece is shorter than what the writer makes of its bytes. */
  lemma {:induction false} PieceIsLonger(s: Text, p: nat, d: Piece)
    requires PieceEnd(s, p, d) != -1
    ensures |Escaped(Bytes(d))| <= PieceEnd(s, p, d) - p
  {
    match d
    case Raw(c) => OneByte(c);
    case Letter(_, c) => OneByte(c);
    case Code(c) =>
      if c < 0x80 {
        OneByte(c);
      } else {
        HighBytes(Utf8(c));
      }
  }

  lemma {:induction false} PiecesAreLonger(s: Text, p: nat, ds: seq<Piece>)
    requires PiecesEnd(s, p, ds) != -1
    ensures |Escaped(Meaning(ds))| < PiecesEnd(s, p, ds) - p
    decreases |ds|
  {
    if ds != [] {
      PieceIsLonger(s, p, ds[0]);
      PiecesAreLonger(s, PieceEnd(s, p, ds[0]), ds[1..]);
      EscapedConcat(Bytes(ds[0]), Meaning(ds[1..]));
    }
  }

  /** No text that the reader takes for a string is shorter than the one the writer writes for it. */
  lemma {:induction false} ShortestSpelling(s: Text, p: nat, t: Text, q: nat)
    requires ScanText(s, p) == Got(t, q)
    ensures |Quoted(t)| <= q - p
  {
    StringDerivable(s, p, t, q);
    var ds :| PiecesEnd(s, p + 1, ds) == q && Meaning(ds) == t;
    PiecesAreLonger(s, p + 1, ds);
  }
}
