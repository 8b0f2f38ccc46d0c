/** The check value of the default CRC, computed with 32-bit words. */
module CrcCheck {
  import opened Bits
  import opened CrcRemainder
  import opened CrcEngine

  // ---------- words ----------

  function Bit(x: bv32, mask: bv32): (b: nat)
    ensures b < 2
  {
    if x & mask == mask then 1 else 0
  }

  function Half(x: bv32): (y: bv32) {
    x >> 1
  }

  /** The number that a word stands for. */
  function Num(x: bv32): (v: nat)
    decreases x
  {
    if x == 0 then 0 else Bit(x, 1) + 2 * Num(Half(x))
  }

  lemma ZeroWord(x: bv32)
    requires x == 0
    ensures Half(x) == 0 && Bit(x, 1) == 0
  {
  }

  lemma {:induction false} NumFirst(x: bv32)
    ensures Num(x) == Bit(x, 1) + 2 * Num(Half(x))
  {
    if x == 0 {
      ZeroWord(x);
    }
  }

  lemma XorWords(x: bv32, y: bv32)
    ensures Half(x ^ y) == Half(x) ^ Half(y)
    ensures Bit(x ^ y, 1) == if Bit(x, 1) == Bit(y, 1) then 0 else 1
  {
  }

  lemma XorBitAndHalf(d: nat, e: nat, h: nat, g: nat)
    requires d < 2 && e < 2
    ensures Xor(d + 2 * h, e + 2 * g) == (if d == e then 0 else 1) + 2 * Xor(h, g)
  {
    BitAndHalf(d, h);
    BitAndHalf(e, g);
    XorHalves(d + 2 * h, e + 2 * g);
    var f: nat := if d == e then 0 else 1;
    BitAndHalf(f, Xor(h, g));
    assert (d + 2 * h + (e + 2 * g)) % 2 == f;
    SameHalves(Xor(d + 2 * h, e + 2 * g), f + 2 * Xor(h, g));
  }

  lemma {:induction false} Joins(d: nat, e: nat, h: nat, g: nat, x: nat, y: nat, z: nat)
    requires d < 2 && e < 2 && x == d + 2 * h && y == e + 2 * g && z == (if d == e then 0 else 1) + 2 * Xor(h, g)
    ensures z == Xor(x, y)
  {
    XorBitAndHalf(d, e, h, g);
  }

  lemma {:induction false} NumXorFirst(x: bv32, y: bv32)
    ensures Num(x ^ y) == (if Bit(x, 1) == Bit(y, 1) then 0 else 1) + 2 * Num(Half(x) ^ Half(y))
  {
    NumFirst(x ^ y);
    XorWords(x, y);
  }

  lemma {:induction false} NumXorStep(x: bv32, y: bv32)
    requires Num(Half(x) ^ Half(y)) == Xor(Num(Half(x)), Num(Half(y)))
    ensures Num(x ^ y) == Xor(Num(x), Num(y))
  {
    NumFirst(x);
    NumFirst(y);
    NumXorFirst(x, y);
    Joins(Bit(x, 1), Bit(y, 1), Num(Half(x)), Num(Half(y)), Num(x), Num(y), Num(x ^ y));
  }

  lemma {:induction false} XorNil(x: bv32, y: bv32)
    requires x == 0 && y == 0
    ensures Num(x ^ y) == Xor(Num(x), Num(y))
  {
    assert x ^ y == 0;
  }

  ghost predicate Agree(x: bv32, y: bv32) {
    true == (Num(x ^ y) == Xor(Num(x), Num(y)))
  }

  lemma {:induction false} AgreeNil(x: bv32, y: bv32)
    requires x == 0 && y == 0
    ensures Agree(x, y)
  {
    XorNil(x, y);
  }

  lemma {:induction false} AgreeStep(x: bv32, y: bv32)
    requires Agree(Half(x), Half(y))
    ensures Agree(x, y)
  {
    NumXorStep(x, y);
  }

  /** The word has at most `n` bits. */
  predicate Fits(x: bv32, n: nat)
    decreases n
  {
    if n == 0 then x == 0 else Fits(Half(x), n - 1)
  }

  lemma {:induction false} AllAgree(x: bv32, y: bv32, n: nat)
    requires Fits(x, n) && Fits(y, n)
    ensures Agree(x, y)
    decreases n
  {
    if n == 0 {
      AgreeNil(x, y);
    } else {
      AllAgree(Half(x), Half(y), n - 1);
      AgreeStep(x, y);
    }
  }

  lemma EightHalves(x: bv32)
    ensures Half(Half(Half(Half(Half(Half(Half(Half(x)))))))) == x >> 8
  {
  }

  lemma {:induction false} FitsEight(x: bv32, n: nat)
    requires Fits(x >> 8, n)
    ensures Fits(x, n + 8)
  {
    EightHalves(x);
    var a := Half(x);
    var b := Half(a);
    var c := Half(b);
    var d := Half(c);
    var e := Half(d);
    var f := Half(e);
    var g := Half(f);
    assert Fits(Half(g), n);
    assert Fits(g, n + 1);
    assert Fits(f, n + 2);
    assert Fits(e, n + 3);
    assert Fits(d, n + 4);
    assert Fits(c, n + 5);
    assert Fits(b, n + 6);
    assert Fits(a, n + 7);
  }

  lemma {:induction false} FitsSixteen(x: bv32, n: nat)
    requires Fits(x >> 16, n)
    ensures Fits(x, n + 16)
  {
    assert x >> 8 >> 8 == x >> 16;
    FitsEight(x >> 8, n);
    FitsEight(x, n + 8);
  }

  lemma {:induction false} FitsAll(x: bv32, n: nat)
    requires n == 0
    ensures Fits(x, n + 16 + 16)
  {
    assert x >> 16 >> 16 == 0;
    FitsSixteen(x >> 16, n);
    FitsSixteen(x, n + 16);
  }

  /** Exclusive or of words is exclusive or of the numbers. */
  lemma {:induction false} NumXor(x: bv32, y: bv32)
    ensures Num(x ^ y) == Xor(Num(x), Num(y))
  {
    FitsAll(x, 0);
    FitsAll(y, 0);
    AllAgree(x, y, 0 + 16 + 16);
  }

  // ---------- the remainder on words ----------

  function StepWord(q: bv32, x: bv32): (y: bv32) {
    Half(x) ^ (if x & 1 == 1 then q else 0)
  }

  function StepWords(q: bv32, x: bv32, n: nat): (y: bv32)
    decreases n
  {
    if n == 0 then x else StepWords(q, StepWord(q, x), n - 1)
  }

  lemma StepCases(q: bv32, x: bv32)
    ensures StepWord(q, x) == if Bit(x, 1) == 1 then Half(x) ^ q else Half(x)
  {
  }

  lemma {:induction false} StepIs(q: bv32, x: bv32)
    ensures Down(Num(q), Num(x)) == Num(StepWord(q, x))
  {
    NumFirst(x);
    BitAndHalf(Bit(x, 1), Num(Half(x)));
    StepCases(q, x);
    XorZero(Num(Half(x)));
    NumXor(Half(x), q);
  }

  lemma {:induction false} StepsAre(q: bv32, x: bv32, n: nat)
    ensures Downs(Num(q), Num(x), n) == Num(StepWords(q, x, n))
    decreases n
  {
    if n != 0 {
      StepIs(q, x);
      StepsAre(q, StepWord(q, x), n - 1);
    }
  }

  /** One byte. */
  lemma {:induction false} ByteIs(q: bv32, x: bv32, b: bv32)
    ensures Downs(Num(q), Xor(Num(x), Num(b)), CharBit()) == Num(StepWords(q, x ^ b, CharBit()))
  {
    NumXor(x, b);
    StepsAre(q, x ^ b, CharBit());
  }

  // ---------- numerals ----------

  /** The number of the low byte, and of the low byte reversed. */
  function LowByte(x: bv32): (v: nat) {
    Bit(x, 1) + 2 * Bit(x, 2) + 4 * Bit(x, 4) + 8 * Bit(x, 8)
      + 16 * Bit(x, 16) + 32 * Bit(x, 32) + 64 * Bit(x, 64) + 128 * Bit(x, 128)
  }

  function ReversedByte(x: bv32): (v: nat) {
    128 * Bit(x, 1) + 64 * Bit(x, 2) + 32 * Bit(x, 4) + 16 * Bit(x, 8)
      + 8 * Bit(x, 16) + 4 * Bit(x, 32) + 2 * Bit(x, 64) + Bit(x, 128)
  }

  lemma NextBits(x: bv32)
    ensures Bit(Half(x), 1) == Bit(x, 2) && Bit(Half(x), 2) == Bit(x, 4) && Half(Half(x)) == x >> 2
  {
  }

  lemma {:induction false} NumTwo(x: bv32)
    ensures Num(x) == Bit(x, 1) + 2 * Bit(x, 2) + 4 * Num(x >> 2)
  {
    NumFirst(x);
    NumFirst(Half(x));
    NextBits(x);
  }

  lemma Bits2(x: bv32)
    ensures Bit(x >> 2, 1) == Bit(x, 4) && Bit(x >> 2, 2) == Bit(x, 8) && x >> 2 >> 2 == x >> 4
  {
  }

  lemma {:induction false} NumFour(x: bv32)
    ensures Num(x) == Bit(x, 1) + 2 * Bit(x, 2) + 4 * Bit(x, 4) + 8 * Bit(x, 8) + 16 * Num(x >> 4)
  {
    NumTwo(x);
    NumTwo(x >> 2);
    Bits2(x);
  }

  lemma Bits4(x: bv32)
    ensures Bit(x >> 4, 1) == Bit(x, 16) && Bit(x >> 4, 2) == Bit(x, 32) && Bit(x >> 4, 4) == Bit(x, 64)
    ensures Bit(x >> 4, 8) == Bit(x, 128) && x >> 4 >> 4 == x >> 8
  {
  }

  lemma {:induction false} NumByte(x: bv32)
    ensures Num(x) == LowByte(x) + 256 * Num(x >> 8)
  {
    NumFour(x);
    NumFour(x >> 4);
    Bits4(x);
  }

  lemma {:induction false} ByteOf(x: bv32, y: bv32, a: nat)
    requires LowByte(x) == a && y == x >> 8
    ensures Num(x) == a + 256 * Num(y)
  {
    NumByte(x);
  }

  /** The numeral of a word, given its bytes. */
  lemma {:induction false} Numeral(x: bv32, y: bv32, z: bv32, u: bv32, a: nat, b: nat, c: nat, d: nat)
    requires y == x >> 8 && z == y >> 8 && u == z >> 8 && u >> 8 == 0
    requires LowByte(x) == a && LowByte(y) == b && LowByte(z) == c && LowByte(u) == d
    ensures Num(x) == a + 256 * b + 65536 * c + 16777216 * d
  {
    ByteOf(x, y, a);
    ByteOf(y, z, b);
    ByteOf(z, u, c);
    ByteOf(u, 0, d);
  }

  lemma {:induction false} RevFirst(x: bv32, n: nat)
    ensures RevN(Num(x), n + 1) == Shl(Bit(x, 1), n) + RevN(Num(Half(x)), n)
  {
    NumFirst(x);
    BitAndHalf(Bit(x, 1), Num(Half(x)));
  }

  /** Two groups of bits, the first above the second. */
  lemma {:induction false} ShlJoin(a: nat, b: nat, k: nat, n: nat, ak: nat)
    requires ak == Shl(a, k)
    ensures Shl(a, n + k) + Shl(b, n) == Shl(ak + b, n)
  {
    ShlShl(a, k, n);
    assert k + n == n + k;
    ShlAdd(ak, b, n);
  }

  lemma {:induction false} RevTwo(x: bv32, n: nat)
    ensures RevN(Num(x), n + 2) == Shl(2 * Bit(x, 1) + Bit(x, 2), n) + RevN(Num(x >> 2), n)
  {
    RevFirst(x, n + 1);
    RevFirst(Half(x), n);
    NextBits(x);
    assert Shl(Bit(x, 1), 1) == 2 * Bit(x, 1);
    ShlJoin(Bit(x, 1), Bit(x, 2), 1, n, 2 * Bit(x, 1));
  }

  lemma {:induction false} ShlSmall(v: nat)
    ensures Shl(v, 2) == 4 * v && Shl(v, 4) == 16 * v
  {
    assert Shl(v, 1) == 2 * v;
    assert Shl(v, 3) == 2 * Shl(v, 2);
  }

  lemma {:induction false} RevFour(x: bv32, n: nat)
    ensures RevN(Num(x), n + 4)
            == Shl(8 * Bit(x, 1) + 4 * Bit(x, 2) + 2 * Bit(x, 4) + Bit(x, 8), n) + RevN(Num(x >> 4), n)
  {
    var a, b := 2 * Bit(x, 1) + Bit(x, 2), 2 * Bit(x, 4) + Bit(x, 8);
    RevTwo(x, n + 2);
    RevTwo(x >> 2, n);
    Bits2(x);
    ShlSmall(a);
    ShlJoin(a, b, 2, n, 4 * a);
  }

  lemma {:induction false} RevByte(x: bv32, n: nat)
    ensures RevN(Num(x), n + 8) == Shl(ReversedByte(x), n) + RevN(Num(x >> 8), n)
  {
    var a := 8 * Bit(x, 1) + 4 * Bit(x, 2) + 2 * Bit(x, 4) + Bit(x, 8);
    var b := 8 * Bit(x, 16) + 4 * Bit(x, 32) + 2 * Bit(x, 64) + Bit(x, 128);
    RevFour(x, n + 4);
    RevFour(x >> 4, n);
    Bits4(x);
    ShlSmall(a);
    ShlJoin(a, b, 4, n, 16 * a);
  }

  lemma {:induction false} ShlByte(v: nat, n: nat)
    ensures Shl(v, n + 8) == 256 * Shl(v, n)
  {
    ShlShl(v, n, 4);
    ShlShl(v, n + 4, 4);
    ShlSmall(Shl(v, n));
    ShlSmall(Shl(v, n + 4));
  }

  lemma {:induction false} ShlBytes(v: nat, n: nat)
    requires n == 0
    ensures Shl(v, n + 8) == 256 * v && Shl(v, n + 16) == 65536 * v && Shl(v, n + 24) == 16777216 * v
  {
    ShlByte(v, n);
    ShlByte(v, n + 8);
    ShlByte(v, n + 16);
  }

  /** The reverse of a word, one byte at a time. */
  lemma {:induction false} RevByteOf(x: bv32, y: bv32, a: nat, n: nat)
    requires ReversedByte(x) == a && y == x >> 8
    ensures RevN(Num(x), n + 8) == Shl(a, n) + RevN(Num(y), n)
  {
    RevByte(x, n);
  }

  /** The numeral of the reverse of a word, given its bytes. */
  lemma {:induction false} Reversal(x: bv32, y: bv32, z: bv32, u: bv32, a: nat, b: nat, c: nat, d: nat, n: nat)
    requires y == x >> 8 && z == y >> 8 && u == z >> 8 && u >> 8 == 0 && n == 0
    requires ReversedByte(x) == a && ReversedByte(y) == b && ReversedByte(z) == c && ReversedByte(u) == d
    ensures RevN(Num(x), n + 8 + 8 + 8 + 8) == 16777216 * a + 65536 * b + 256 * c + d
  {
    RevByteOf(x, y, a, n + 8 + 8 + 8);
    RevByteOf(y, z, b, n + 8 + 8);
    RevByteOf(z, u, c, n + 8);
    RevByteOf(u, 0, d, n);
    ShlBytes(a, n);
    ShlBytes(b, n);
    ShlBytes(c, n);
  }

  // ---------- the default CRC ----------

  /** The reversed polynomial as a word. */
  lemma {:induction false} PolyWord(x: bv32, q: bv32, poly: nat, n: nat)
    requires x == 0x04C11DB7 && q == 0xEDB88320 && poly == 0x04C11DB7 && n == 0
    ensures RevN(poly, n + 8 + 8 + 8 + 8) == Num(q)
  {
    Numeral(x, 0x04C11D, 0x04C1, 0x04, 0xB7, 0x1D, 0xC1, 0x04);
    Numeral(q, 0xEDB883, 0xEDB8, 0xED, 0x20, 0x83, 0xB8, 0xED);
    Reversal(x, 0x04C11D, 0x04C1, 0x04, 0xED, 0xB8, 0x83, 0x20, n);
  }

  lemma {:induction false} EndWords(x: bv32, y: bv32)
    requires x == 0xFFFFFFFF && y == 0xCBF43926
    ensures Num(x) == 0xFFFFFFFF && Num(y) == 0xCBF43926
  {
    Numeral(x, 0xFFFFFF, 0xFFFF, 0xFF, 0xFF, 0xFF, 0xFF, 0xFF);
    Numeral(y, 0xCBF439, 0xCBF4, 0xCB, 0x26, 0x39, 0xF4, 0xCB);
  }

  lemma {:induction false} ByteWord(x: bv32, a: nat)
    requires x >> 8 == 0 && LowByte(x) == a
    ensures Num(x) == a
  {
    ByteOf(x, 0, a);
  }

  // ---------- the message ----------

  /** The bytes are those of the words. */
  ghost predicate Spells(data: seq<Byte>, ws: seq<bv32>) {
    |data| == |ws| && forall i :: 0 <= i < |ws| ==> data[i] == Num(ws[i])
  }

  function FoldWords(q: bv32, x: bv32, ws: seq<bv32>): (y: bv32)
    decreases |ws|
  {
    if ws == [] then x else FoldWords(q, StepWords(q, x ^ ws[0], CharBit()), ws[1..])
  }

  lemma {:induction false} FoldIs(q: bv32, x: bv32, ws: seq<bv32>, data: seq<Byte>)
    requires Spells(data, ws)
    ensures Reflected(Num(q), Num(x), data) == Num(FoldWords(q, x, ws))
    decreases |ws|
  {
    if ws != [] {
      ByteIs(q, x, ws[0]);
      FoldIs(q, StepWords(q, x ^ ws[0], CharBit()), ws[1..], data[1..]);
    }
  }

  lemma {:induction false} NineBytes(q: bv32, x: bv32)
    requires q == 0xEDB88320 && x == 0xFFFFFFFF
    ensures FoldWords(q, x, [0x31, 0x32, 0x33, 0x34, 0x35, 0x36, 0x37, 0x38, 0x39]) == 0x340BC6D9
  {
    assert StepWords(0xEDB88320, 0xFFFFFFCE, 8) == 0x7C231048;
    assert StepWords(0xEDB88320, 0x7C23107A, 8) == 0xB0ACBB32;
    assert StepWords(0xEDB88320, 0xB0ACBB01, 8) == 0x77B79C2D;
    assert StepWords(0xEDB88320, 0x77B79C19, 8) == 0x641C1F5C;
    assert StepWords(0xEDB88320, 0x641C1F69, 8) == 0x340AC5E3;
    assert StepWords(0xEDB88320, 0x340AC5D5, 8) == 0xF68D2C9E;
    assert StepWords(0xEDB88320, 0xF68D2CA9, 8) == 0xAFFC9660;
    assert StepWords(0xEDB88320, 0xAFFC9658, 8) == 0x651F2550;
    assert StepWords(0xEDB88320, 0x651F2569, 8) == 0x340BC6D9;
  }

  /** The digits 1 to 9. */
  function CheckText(): (data: seq<Byte>)
    ensures data == [0x31, 0x32, 0x33, 0x34, 0x35, 0x36, 0x37, 0x38, 0x39]
  {
    assert Pow2(CharBit()) == 256;
    [0x31, 0x32, 0x33, 0x34, 0x35, 0x36, 0x37, 0x38, 0x39]
  }

  lemma {:induction false} CheckSpelled()
    ensures Spells(CheckText(), [0x31, 0x32, 0x33, 0x34, 0x35, 0x36, 0x37, 0x38, 0x39])
  {
    ByteWord(0x31, 0x31);
    ByteWord(0x32, 0x32);
    ByteWord(0x33, 0x33);
    ByteWord(0x34, 0x34);
    ByteWord(0x35, 0x35);
    ByteWord(0x36, 0x36);
    ByteWord(0x37, 0x37);
    ByteWord(0x38, 0x38);
    ByteWord(0x39, 0x39);
  }

  lemma {:induction false} RemainderWord(p: Params, q: bv32, x: bv32, ws: seq<bv32>, data: seq<Byte>)
    requires p.refIn && RevN(p.poly, p.width) == Num(q) && p.init == Num(x) && Spells(data, ws)
    ensures Remainder(p, data, p.init) == Num(FoldWords(q, x, ws))
  {
    FoldIs(q, x, ws, data);
  }

  lemma {:induction false} Crc32Words(p: Params, q: bv32, x: bv32)
    requires p == Crc32() && q == 0xEDB88320 && x == 0xFFFFFFFF
    ensures RevN(p.poly, p.width) == Num(q) && p.init == p.fin == Num(x)
  {
    PolyWord(0x04C11DB7, q, p.poly, p.width - p.width);
    EndWords(x, 0xCBF43926);
  }

  /** The remainder of the check text. */
  lemma {:induction false} CheckRemainder(p: Params, q: bv32, x: bv32)
    requires p == Crc32() && q == 0xEDB88320 && x == 0xFFFFFFFF
    ensures Remainder(p, CheckText(), p.init) == Num(0x340BC6D9) && Num(x) == p.init == p.fin
  {
    var ws: seq<bv32> := [0x31, 0x32, 0x33, 0x34, 0x35, 0x36, 0x37, 0x38, 0x39];
    Crc32Words(p, q, x);
    CheckSpelled();
    RemainderWord(p, q, x, ws, CheckText());
    NineBytes(q, x);
  }

  /** The default CRC: of no data, and the published check value. */
  lemma {:induction false} Crc32Checks(p: Params)
    requires p == Crc32()
    ensures Whole(p, []) == 0 && Whole(p, CheckText()) == 0xCBF43926
  {
    Crc32Ok();
    CheckRemainder(p, 0xEDB88320, 0xFFFFFFFF);
    XorSelf(p.fin);
    LowZero(p.width);
    CheckFinal(p, 0x340BC6D9, 0xFFFFFFFF);
  }

  lemma {:induction false} CheckFinal(p: Params, r: bv32, x: bv32)
    requires Ok(p) && p.refIn == p.refOut && p.width == 32 && p.fin == Num(x) && r == 0x340BC6D9 && x == 0xFFFFFFFF
    ensures Finalize(p, Num(r)) == 0xCBF43926
  {
    NumXor(r, x);
    assert r ^ x == 0xCBF43926;
    EndWords(x, r ^ x);
    LowSmall(Num(r ^ x), p.width);
  }
}
