/** Whole CRCs: finalising, continuing from an earlier CRC, and the loops that compute them. */
module CrcEngine {
  import opened Bits
  import opened CrcRemainder

  // ---------- finalising ----------

  function Finalize(p: Params, rem: nat): (crc: nat) {
    Low(Xor(if p.refIn != p.refOut then RevN(rem, p.width) else rem, p.fin), p.width)
  }

  function UndoFinalize(p: Params, crc: nat): (rem: nat) {
    var c := Xor(Low(crc, p.width), p.fin);
    if p.refIn != p.refOut then RevN(c, p.width) else c
  }

  /** Bit by bit: the remainder, back to front if input and output are reflected differently, exclusive or the
      final value, and nothing above the width. */
  lemma {:induction false} FinalizeBits(p: Params, rem: nat, i: nat)
    requires Ok(p)
    ensures Finalize(p, rem) < Pow2(p.width)
    ensures i < p.width ==>
              BitAt(Finalize(p, rem), i)
              == (BitAt(rem, if p.refIn != p.refOut then p.width - 1 - i else i) + BitAt(p.fin, i)) % 2
  {
    var x := if p.refIn != p.refOut then RevN(rem, p.width) else rem;
    if i < p.width {
      BitOfLow(Xor(x, p.fin), p.width, i);
      BitOfXor(x, p.fin, i);
      BitOfRev(rem, p.width, i);
    }
  }

  /** Undoing gives back the bits of the CRC. */
  lemma UndoFinalizes(p: Params, rem: nat)
    requires Ok(p)
    ensures UndoFinalize(p, Finalize(p, rem)) == Low(rem, p.width)
  {
    var w := p.width;
    var x := if p.refIn != p.refOut then RevN(rem, w) else rem;
    XorLow(x, p.fin, w);
    LowSmall(p.fin, w);
    LowSmall(Low(Xor(x, p.fin), w), w);
    XorCancels(Low(x, w), p.fin);
    RevBound(rem, w);
    LowSmall(RevN(rem, w), w);
    RevRev(rem, w);
  }

  /** The source promises that undoing a finalised remainder always returns it: that holds exactly for
      remainders within the width. */
  lemma UndoExactly(p: Params, rem: nat)
    requires Ok(p)
    ensures UndoFinalize(p, Finalize(p, rem)) == rem <==> rem < Pow2(p.width)
  {
    UndoFinalizes(p, rem);
    if rem < Pow2(p.width) {
      LowSmall(rem, p.width);
    }
  }

  /** A remainder the code does produce and does not get back: with a width of 8 in a type of 16 digits
      and without reflection, the data byte 1 leaves the remainder 263, one bit too wide. */
  lemma UndoFails(p: Params)
    requires p.width == CharBit() && p.digits == 16 && p.poly == 7 && p.init == p.fin == 0 && !p.refIn && !p.refOut
    ensures Ok(p) && Remainder(p, [1], 0) == 263
    ensures UndoFinalize(p, Finalize(p, Remainder(p, [1], 0))) != Remainder(p, [1], 0)
  {
    var r := Remainder(p, [1], 0);
    EightSteps(p.width, p.digits, p.poly);
    OneByte(p.width, p.digits, p.poly, 1);
    assert r == 263;
    UndoExactly(p, r);
  }

  lemma OneByte(w: nat, d: nat, poly: nat, b: Byte)
    requires w == CharBit()
    ensures Plain(w, d, poly, 0, [b]) == Ups(w, d, poly, b, CharBit())
  {
    assert [b][1..] == [];
  }

  lemma UpDoubles(w: nat, d: nat, poly: nat, x: nat, n: nat)
    requires 1 <= w <= d && x < Pow2(w - 1) && n >= 1
    ensures Ups(w, d, poly, x, n) == Ups(w, d, poly, 2 * x, n - 1)
  {
    HighSmall(x, w - 1);
    LowSmall(2 * x, w);
    LowBeyond(2 * x, w, d);
  }

  lemma LowBeyond(x: nat, w: nat, d: nat)
    requires w <= d && x < Pow2(w)
    ensures Low(x, d) == x
  {
    Pow2Monotone(w, d);
    LowSmall(x, d);
  }

  lemma EightSteps(w: nat, d: nat, poly: nat)
    requires w == CharBit() && d == 16 && poly == 7
    ensures Ups(w, d, poly, 1, CharBit()) == 263 && Pow2(w) == 256
  {
    var n := CharBit();
    assert Pow2(w - 1) == 128 && Pow2(w) == 256 && Pow2(w + 1) == 512;
    UpDoubles(w, d, poly, 1, n);
    UpDoubles(w, d, poly, 2, n - 1);
    UpDoubles(w, d, poly, 4, n - 2);
    UpDoubles(w, d, poly, 8, n - 3);
    UpDoubles(w, d, poly, 16, n - 4);
    UpDoubles(w, d, poly, 32, n - 5);
    UpDoubles(w, d, poly, 64, n - 6);
    LastStep(w, d, poly, n - 7);
  }

  lemma LastStep(w: nat, d: nat, poly: nat, n: nat)
    requires w == CharBit() && d == 16 && poly == 7 && n == 1
    ensures Ups(w, d, poly, 128, n) == 263
  {
    assert High(128, w - 1) == 1;
    assert Xor(256, 7) == 263;
    assert Pow2(w + 1) == 512;
    LowBeyond(263, w + 1, d);
  }

  lemma FinalizeUndoes(p: Params, crc: nat)
    requires Ok(p)
    ensures Finalize(p, UndoFinalize(p, crc)) == Low(crc, p.width)
  {
    var w := p.width;
    var c := Xor(Low(crc, w), p.fin);
    XorBound(Low(crc, w), p.fin, w);
    RevRev(c, w);
    LowSmall(c, w);
    XorCancels(Low(crc, w), p.fin);
    LowSmall(Low(crc, w), w);
  }

  /** The same promise the other way round holds exactly for CRCs within the width. */
  lemma FinalizeExactly(p: Params, crc: nat)
    requires Ok(p)
    ensures Finalize(p, UndoFinalize(p, crc)) == crc <==> crc < Pow2(p.width)
  {
    FinalizeUndoes(p, crc);
    if crc < Pow2(p.width) {
      LowSmall(crc, p.width);
    }
  }

  /** Only the bits of the CRC are finalised. */
  lemma FinalizeLow(p: Params, x: nat, y: nat)
    requires Low(x, p.width) == Low(y, p.width)
    ensures Finalize(p, x) == Finalize(p, y)
  {
    var w := p.width;
    RevLow(x, w);
    RevLow(y, w);
    XorLow(x, p.fin, w);
    XorLow(y, p.fin, w);
  }

  // ---------- whole CRCs ----------

  function Whole(p: Params, data: seq<Byte>): (crc: nat) {
    Finalize(p, Remainder(p, data, p.init))
  }

  /** Continue from the CRC of earlier data. */
  function More(p: Params, data: seq<Byte>, crc: nat): (crc': nat) {
    Finalize(p, Remainder(p, data, UndoFinalize(p, crc)))
  }

  function TableCrc(p: Params, t: seq<nat>, data: seq<Byte>): (crc: nat)
    requires |t| == Pow2(CharBit())
  {
    Finalize(p, TableRemainder(p, t, data, p.init))
  }

  function TableMore(p: Params, t: seq<nat>, data: seq<Byte>, crc: nat): (crc': nat)
    requires |t| == Pow2(CharBit())
  {
    Finalize(p, TableRemainder(p, t, data, UndoFinalize(p, crc)))
  }

  lemma {:induction false} ReflectedConcat(poly: nat, rem: nat, a: seq<Byte>, b: seq<Byte>)
    ensures Reflected(poly, rem, a + b) == Reflected(poly, Reflected(poly, rem, a), b)
    decreases |a|
  {
    if a == [] {
      assert a + b == b;
    } else {
      assert (a + b)[1..] == a[1..] + b;
      ReflectedConcat(poly, Downs(poly, Xor(rem, a[0]), CharBit()), a[1..], b);
    }
  }

  lemma {:induction false} PlainConcat(w: nat, d: nat, poly: nat, rem: nat, a: seq<Byte>, b: seq<Byte>)
    requires w >= CharBit()
    ensures Plain(w, d, poly, rem, a + b) == Plain(w, d, poly, Plain(w, d, poly, rem, a), b)
    decreases |a|
  {
    if a == [] {
      assert a + b == b;
    } else {
      assert (a + b)[1..] == a[1..] + b;
      PlainConcat(w, d, poly, Ups(w, d, poly, Xor(rem, Shl(a[0], w - CharBit())), CharBit()), a[1..], b);
    }
  }

  /** A reflected remainder stays within the width. */
  lemma {:induction false} ReflectedBound(poly: nat, rem: nat, data: seq<Byte>, w: nat)
    requires poly < Pow2(w) && rem < Pow2(w)
    ensures Reflected(poly, rem, data) < Pow2(w)
    decreases |data|
  {
    if data != [] {
      ByteBound(poly, rem, data[0], w);
      ReflectedBound(poly, Downs(poly, Xor(rem, data[0]), CharBit()), data[1..], w);
    }
  }

  lemma ByteBound(poly: nat, rem: nat, b: Byte, w: nat)
    requires poly < Pow2(w) && rem < Pow2(w)
    ensures Downs(poly, Xor(rem, b), CharBit()) < Pow2(w)
  {
    DownsXor(poly, rem, b, CharBit());
    DownsStays(poly, rem, CharBit(), w);
    DownsBound(poly, b, CharBit(), w);
    XorBound(Downs(poly, rem, CharBit()), Downs(poly, b, CharBit()), w);
  }

  /** The bits of a plain remainder depend only on the bits it starts from. */
  lemma {:induction false} PlainLow(w: nat, d: nat, poly: nat, x: nat, y: nat, data: seq<Byte>)
    requires CharBit() <= w <= d && Low(x, w) == Low(y, w)
    ensures Low(Plain(w, d, poly, x, data), w) == Low(Plain(w, d, poly, y, data), w)
    decreases |data|
  {
    if data != [] {
      var b := Shl(data[0], w - CharBit());
      XorLow(x, b, w);
      XorLow(y, b, w);
      UpsLow(w, d, poly, Xor(x, b), CharBit());
      UpsLow(w, d, poly, Xor(y, b), CharBit());
      PlainLow(w, d, poly, Ups(w, d, poly, Xor(x, b), CharBit()), Ups(w, d, poly, Xor(y, b), CharBit()), data[1..]);
    }
  }

  lemma {:induction false} PlainClean(d: nat, poly: nat, x: nat, data: seq<Byte>, s: nat)
    requires CharBit() <= d && s <= CharBit() && Low(poly, s) == 0 && Low(x, s) == 0
    ensures Low(Plain(CharBit(), d, poly, x, data), s) == 0
    decreases |data|
  {
    if data != [] {
      var y := Xor(x, Shl(data[0], 0));
      UpsLow(CharBit(), d, poly, y, CharBit());
      CoresClean(poly, Low(y, CharBit()), s);
      LowLow(Ups(CharBit(), d, poly, y, CharBit()), s, CharBit());
      PlainClean(d, poly, Ups(CharBit(), d, poly, y, CharBit()), data[1..], s);
    }
  }

  /** For a width below eight: cutting the remainder to the CRC's bits between two pieces of data changes
      nothing. */
  lemma SmallResume(p: Params, x: nat)
    requires Ok(p) && p.width < CharBit() && Low(x, CharBit() - p.width) == 0
    ensures Low(Low(Shl(Low(High(x, CharBit() - p.width), p.width), CharBit() - p.width), p.digits), CharBit())
            == Low(x, CharBit())
  {
    var s := CharBit() - p.width;
    HighOfLow(x, s, p.width);
    LowLow(x, s, CharBit());
    DownAndUp(Low(x, CharBit()), s, p.digits);
    LowSmall(Low(x, CharBit()), CharBit());
  }

  /** Remainders compose, even if the one in between is cut to the bits of the CRC. */
  lemma RemainderConcat(p: Params, a: seq<Byte>, b: seq<Byte>, rem: nat)
    requires Ok(p) && rem < Pow2(p.width)
    ensures Low(Remainder(p, a + b, rem), p.width) == Low(Remainder(p, b, Low(Remainder(p, a, rem), p.width)), p.width)
  {
    var w, d := p.width, p.digits;
    if p.refIn {
      var poly := RevN(p.poly, w);
      RevBound(p.poly, w);
      ReflectedConcat(poly, rem, a, b);
      ReflectedBound(poly, rem, a, w);
      LowSmall(Reflected(poly, rem, a), w);
    } else if w >= CharBit() {
      PlainConcat(w, d, p.poly, rem, a, b);
      var r := Plain(w, d, p.poly, rem, a);
      LowLow(r, w, w);
      PlainLow(w, d, p.poly, r, Low(r, w), b);
    } else {
      SmallConcat(p, a, b, rem);
    }
  }

  lemma SmallConcat(p: Params, a: seq<Byte>, b: seq<Byte>, rem: nat)
    requires Ok(p) && p.width < CharBit() && !p.refIn
    ensures Low(Remainder(p, a + b, rem), p.width) == Low(Remainder(p, b, Low(Remainder(p, a, rem), p.width)), p.width)
  {
    var d, s, poly := p.digits, CharBit() - p.width, Shifted(p);
    var r := Low(Shl(rem, s), d);
    var x := Plain(CharBit(), d, poly, r, a);
    PlainConcat(CharBit(), d, poly, r, a, b);
    ShiftedClean(p.poly, s, d);
    ShiftedClean(rem, s, d);
    PlainClean(d, poly, r, a, s);
    SmallResume(p, x);
    var x' := Low(Shl(Low(High(x, s), p.width), s), d);
    PlainLow(CharBit(), d, poly, x, x', b);
    HighOfLow(Plain(CharBit(), d, poly, x, b), s, p.width);
    HighOfLow(Plain(CharBit(), d, poly, x', b), s, p.width);
  }

  /** Splitting data anywhere and continuing from the CRC of the first part gives the CRC of the whole. */
  lemma SplitLaw(p: Params, a: seq<Byte>, b: seq<Byte>)
    requires Ok(p)
    ensures More(p, b, Whole(p, a)) == Whole(p, a + b)
  {
    var r := Remainder(p, a, p.init);
    UndoFinalizes(p, r);
    RemainderConcat(p, a, b, p.init);
    FinalizeLow(p, Remainder(p, b, Low(r, p.width)), Remainder(p, a + b, p.init));
  }

  /** With the lookup table the CRC is the same, at once or continued. */
  lemma TableCrcIs(p: Params, t: seq<nat>, data: seq<Byte>, crc: nat)
    requires Ok(p) && IsTable(p, t)
    ensures TableCrc(p, t, data) == Whole(p, data) && TableMore(p, t, data, crc) == More(p, data, crc)
  {
    TableAgrees(p, t, data, p.init);
    FinalizeLow(p, TableRemainder(p, t, data, p.init), Remainder(p, data, p.init));
    TableAgrees(p, t, data, UndoFinalize(p, crc));
    FinalizeLow(p, TableRemainder(p, t, data, UndoFinalize(p, crc)), Remainder(p, data, UndoFinalize(p, crc)));
  }

  lemma TableSplitLaw(p: Params, t: seq<nat>, a: seq<Byte>, b: seq<Byte>)
    requires Ok(p) && IsTable(p, t)
    ensures TableMore(p, t, b, TableCrc(p, t, a)) == TableCrc(p, t, a + b)
  {
    TableCrcIs(p, t, a, 0);
    TableCrcIs(p, t, b, Whole(p, a));
    TableCrcIs(p, t, a + b, 0);
    SplitLaw(p, a, b);
  }

  // ---------- the loops ----------

  /** Reflect: bits leave at the low end and enter at the low end of the result. */
  method Reflect(value: nat, n: nat) returns (r: nat)
    ensures r == RevN(value, n)
  {
    r := 0;
    var v := value;
    ShlOne(n);
    for i := 0 to n
      invariant RevN(value, n) == Shl(r, n - i) + RevN(v, n - i)
    {
      ShlAdd(2 * r, v % 2, n - i - 1);
      ShlShl(r, 1, n - i - 1);
      assert Shl(r, 1) == 2 * r;
      r := 2 * r + v % 2;
      v := v / 2;
    }
  }

  /** The loop over eight bits, reflected. */
  method EightDown(poly: nat, x: nat) returns (r: nat)
    ensures r == Downs(poly, x, CharBit())
  {
    r := x;
    for i := 0 to CharBit()
      invariant Downs(poly, x, CharBit()) == Downs(poly, r, CharBit() - i)
    {
      XorZero(r / 2);
      r := if r % 2 == 1 then Xor(r / 2, poly) else r / 2;
    }
  }

  /** The loop over eight bits, not reflected. */
  method EightUp(w: nat, d: nat, poly: nat, x: nat) returns (r: nat)
    requires w >= 1
    ensures r == Ups(w, d, poly, x, CharBit())
  {
    r := x;
    for i := 0 to CharBit()
      invariant Ups(w, d, poly, x, CharBit()) == Ups(w, d, poly, r, CharBit() - i)
    {
      XorZero(2 * r);
      r := Low(if High(r, w - 1) % 2 == 1 then Xor(2 * r, poly) else 2 * r, d);
    }
  }

  /** CalculateRemainder, bit by bit. */
  method CalculateRemainder(p: Params, data: seq<Byte>, start: nat) returns (rem: nat)
    requires Ok(p)
    ensures rem == Remainder(p, data, start)
  {
    rem := start;
    if p.refIn {
      var poly := Reflect(p.poly, p.width);
      for i := 0 to |data|
        invariant Reflected(poly, start, data) == Reflected(poly, rem, data[i..])
      {
        assert data[i..][1..] == data[i + 1..];
        rem := EightDown(poly, Xor(rem, data[i]));
      }
    } else if p.width >= CharBit() {
      rem := PlainLoop(p.width, p.digits, p.poly, data, start);
    } else {
      var s := CharBit() - p.width;
      rem := PlainLoop(CharBit(), p.digits, Low(Shl(p.poly, s), p.digits), data, Low(Shl(start, s), p.digits));
      rem := High(rem, s);
    }
  }

  method PlainLoop(w: nat, d: nat, poly: nat, data: seq<Byte>, start: nat) returns (rem: nat)
    requires w >= CharBit()
    ensures rem == Plain(w, d, poly, start, data)
  {
    rem := start;
    for i := 0 to |data|
      invariant Plain(w, d, poly, start, data) == Plain(w, d, poly, rem, data[i..])
    {
      assert data[i..][1..] == data[i + 1..];
      rem := EightUp(w, d, poly, Xor(rem, Shl(data[i], w - CharBit())));
    }
  }

  /** Table::InitTable */
  method InitTable(p: Params) returns (table: array<nat>)
    requires Ok(p)
    ensures fresh(table) && IsTable(p, table[..])
  {
    table := new nat[Pow2(CharBit())](i => 0);
    for b := 0 to Pow2(CharBit())
      invariant forall c :: 0 <= c < b ==> table[c] == Entry(p, c)
    {
      table[b] := MakeEntry(p, b);
    }
  }

  method MakeEntry(p: Params, b: Byte) returns (crc: nat)
    requires Ok(p)
    ensures crc == Entry(p, b)
  {
    crc := CalculateRemainder(p, [b], 0);
    crc := Low(crc, p.width);
    if !p.refIn && p.width < CharBit() {
      crc := Low(Shl(crc, CharBit() - p.width), p.digits);
    }
  }

  method ReflectedLookup(t: seq<nat>, data: seq<Byte>, start: nat) returns (rem: nat)
    requires |t| == Pow2(CharBit())
    ensures rem == ReflectedT(t, start, data)
  {
    rem := start;
    for i := 0 to |data|
      invariant ReflectedT(t, start, data) == ReflectedT(t, rem, data[i..])
    {
      assert data[i..][1..] == data[i + 1..];
      rem := Xor(High(rem, CharBit()), t[Low(Xor(rem, data[i]), CharBit())]);
    }
  }

  method PlainLookup(w: nat, d: nat, t: seq<nat>, data: seq<Byte>, start: nat) returns (rem: nat)
    requires w >= CharBit() && |t| == Pow2(CharBit())
    ensures rem == PlainT(w, d, t, start, data)
  {
    rem := start;
    for i := 0 to |data|
      invariant PlainT(w, d, t, start, data) == PlainT(w, d, t, rem, data[i..])
    {
      assert data[i..][1..] == data[i + 1..];
      rem := Low(Xor(Shl(rem, CharBit()), t[Low(Xor(High(rem, w - CharBit()), data[i]), CharBit())]), d);
    }
  }

  method SmallLookup(t: seq<nat>, data: seq<Byte>, start: nat) returns (rem: nat)
    requires |t| == Pow2(CharBit())
    ensures rem == SmallT(t, start, data)
  {
    rem := start;
    for i := 0 to |data|
      invariant SmallT(t, start, data) == SmallT(t, rem, data[i..])
    {
      assert data[i..][1..] == data[i + 1..];
      rem := t[Low(Xor(rem, data[i]), CharBit())];
    }
  }

  /** CalculateRemainder with a lookup table: on the CRC's bits, the bit-by-bit remainder. */
  method LookupRemainder(p: Params, t: seq<nat>, data: seq<Byte>, start: nat) returns (rem: nat)
    requires Ok(p) && IsTable(p, t)
    ensures rem == TableRemainder(p, t, data, start)
    ensures Low(rem, p.width) == Low(Remainder(p, data, start), p.width)
  {
    TableAgrees(p, t, data, start);
    if p.refIn {
      rem := ReflectedLookup(t, data, start);
    } else if p.width >= CharBit() {
      rem := PlainLookup(p.width, p.digits, t, data, start);
    } else {
      var s := CharBit() - p.width;
      rem := SmallLookup(t, data, Low(Shl(start, s), p.digits));
      rem := High(rem, s);
    }
  }

  // ---------- the default CRC ----------

  /** CRC_32: the check sequence of section 8.1.1.6.2 of ITU-T V.42. */
  function Crc32(): (p: Params) {
    Params(32, 32, 0x04C11DB7, 0xFFFFFFFF, 0xFFFFFFFF, true, true)
  }

  lemma Crc32Ok()
    ensures Ok(Crc32())
  {
    assert Pow2(8) == 256;
    assert Pow2(16) == 65536;
    assert Pow2(24) == 0x100_0000;
    assert Pow2(32) == 0x1_0000_0000;
  }

  /** The default CRC can be computed with a lookup table and in any number of pieces. */
  lemma Crc32Split(t: seq<nat>, a: seq<Byte>, b: seq<Byte>)
    requires IsTable(Crc32(), t)
    ensures TableMore(Crc32(), t, b, TableCrc(Crc32(), t, a)) == Whole(Crc32(), a + b)
  {
    Crc32Ok();
    TableSplitLaw(Crc32(), t, a, b);
    TableCrcIs(Crc32(), t, a + b, 0);
  }
}
