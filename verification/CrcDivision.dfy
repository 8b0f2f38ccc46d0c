/** What the remainder is: polynomials with coefficients 0 and 1 as numbers, exclusive or as their sum, and
    division by the generator polynomial. */
module CrcDivision {
  import opened Bits
  import opened CrcRemainder
  import E = CrcEngine

  // ---------- polynomials ----------

  /** The product of two polynomials. */
  function Mul(a: nat, b: nat): (c: nat) {
    if a == 0 then 0 else Xor(Times(a % 2, b), 2 * Mul(a / 2, b))
  }

  lemma {:induction false} MulHalves(a: nat, g: nat)
    ensures Mul(a, g) == Xor(Times(a % 2, g), 2 * Mul(a / 2, g))
  {
  }

  lemma {:induction false} MulXor(a: nat, b: nat, g: nat)
    ensures Mul(Xor(a, b), g) == Xor(Mul(a, g), Mul(b, g))
    decreases a + b
  {
    if a == 0 || b == 0 {
      XorZero(a);
      XorZero(b);
      XorZero(Mul(a, g));
      XorZero(Mul(b, g));
    } else {
      var x := Xor(a, b);
      XorHalves(a, b);
      ParityAdd(a, b);
      TimesXor(a % 2, b % 2, g);
      MulXor(a / 2, b / 2, g);
      XorDouble(Mul(a / 2, g), Mul(b / 2, g));
      XorSwap(Times(a % 2, g), 2 * Mul(a / 2, g), Times(b % 2, g), 2 * Mul(b / 2, g));
      MulHalves(x, g);
    }
  }

  lemma {:induction false} MulDouble(a: nat, g: nat)
    ensures Mul(2 * a, g) == 2 * Mul(a, g)
  {
    MulHalves(2 * a, g);
    XorZero(2 * Mul(a, g));
  }

  lemma {:induction false} MulShl(a: nat, g: nat, n: nat)
    ensures Mul(a, Shl(g, n)) == Shl(Mul(a, g), n)
    decreases a
  {
    if a == 0 {
      ShlOne(n);
    } else {
      MulShl(a / 2, g, n);
      ShlOne(n);
      ShlShl(Mul(a / 2, g), 1, n);
      ShlShl(Mul(a / 2, g), n, 1);
      assert 2 * Shl(Mul(a / 2, g), n) == Shl(2 * Mul(a / 2, g), n);
      XorShl(Times(a % 2, g), 2 * Mul(a / 2, g), n);
    }
  }

  /** The leading coefficients of a product: a nonzero multiple of a polynomial of degree `w` has degree `w` or
      more. */
  lemma {:induction false} MulDegree(q: nat, g: nat, w: nat, k: nat)
    requires Pow2(w) <= g < Pow2(w + 1) && Pow2(k) <= q < Pow2(k + 1)
    ensures High(Mul(q, g), w + k) == 1
    decreases q
  {
    MulHalves(q, g);
    if k == 0 {
      XorZero(g);
      HighOne(g, w);
    } else {
      MulDegree(q / 2, g, w, k - 1);
      var m := 2 * Mul(q / 2, g);
      XorHigh(Times(q % 2, g), m, w + k);
      Pow2Monotone(w + 1, w + k);
      HighSmall(Times(q % 2, g), w + k);
      XorZero(High(m, w + k));
    }
  }

  lemma {:induction false} HighOne(g: nat, w: nat)
    requires Pow2(w) <= g < Pow2(w + 1)
    ensures High(g, w) == 1
  {
    if w != 0 {
      HighOne(g / 2, w - 1);
    }
  }

  lemma {:induction false} BitLength(q: nat) returns (k: nat)
    requires q != 0
    ensures Pow2(k) <= q < Pow2(k + 1)
  {
    if q == 1 {
      k := 0;
    } else {
      k := BitLength(q / 2);
      k := k + 1;
    }
  }

  // ---------- remainders ----------

  /** `a` and `b` differ by a multiple of `g`. */
  ghost predicate Congruent(g: nat, a: nat, b: nat) {
    exists q: nat :: Mul(q, g) == Xor(a, b)
  }

  /** `r` is the remainder of `m` divided by `g`, a polynomial of degree `w`. */
  ghost predicate IsRemainder(g: nat, w: nat, m: nat, r: nat) {
    r < Pow2(w) && Congruent(g, m, r)
  }

  lemma {:induction false} Reflexive(g: nat, a: nat)
    ensures Congruent(g, a, a)
  {
    XorSelf(a);
    assert Mul(0, g) == Xor(a, a);
  }

  lemma {:induction false} Transitive(g: nat, a: nat, b: nat, c: nat)
    requires Congruent(g, a, b) && Congruent(g, b, c)
    ensures Congruent(g, a, c)
  {
    var p: nat :| Mul(p, g) == Xor(a, b);
    var q: nat :| Mul(q, g) == Xor(b, c);
    MulXor(p, q, g);
    XorAssociates(Xor(a, b), b, c);
    XorCancels(a, b);
    assert Mul(Xor(p, q), g) == Xor(a, c);
  }

  lemma {:induction false} Doubled(g: nat, a: nat, b: nat)
    requires Congruent(g, a, b)
    ensures Congruent(g, 2 * a, 2 * b)
  {
    var q: nat :| Mul(q, g) == Xor(a, b);
    MulDouble(q, g);
    XorDouble(a, b);
    assert Mul(2 * q, g) == Xor(2 * a, 2 * b);
  }

  lemma {:induction false} Shifts(g: nat, a: nat, b: nat, n: nat)
    requires Congruent(g, a, b)
    ensures Congruent(g, Shl(a, n), Shl(b, n))
    decreases n
  {
    if n != 0 {
      Shifts(g, a, b, n - 1);
      Doubled(g, Shl(a, n - 1), Shl(b, n - 1));
    }
  }

  lemma {:induction false} Added(g: nat, a: nat, b: nat, c: nat)
    requires Congruent(g, a, b)
    ensures Congruent(g, Xor(a, c), Xor(b, c))
  {
    var q: nat :| Mul(q, g) == Xor(a, b);
    XorSwap(a, c, b, c);
    XorSelf(c);
    XorZero(Xor(a, b));
    assert Mul(q, g) == Xor(Xor(a, c), Xor(b, c));
  }

  /** A common factor of dividend, divisor and remainder can be taken out. */
  lemma {:induction false} Unshifted(g: nat, a: nat, b: nat, n: nat)
    requires Congruent(Shl(g, n), Shl(a, n), Shl(b, n))
    ensures Congruent(g, a, b)
  {
    var q: nat :| Mul(q, Shl(g, n)) == Xor(Shl(a, n), Shl(b, n));
    MulShl(q, g, n);
    XorShl(a, b, n);
    HighShl(Mul(q, g), n);
    HighShl(Xor(a, b), n);
    assert Mul(q, g) == Xor(a, b);
  }

  /** There is only one remainder. */
  lemma {:induction false} Unique(g: nat, w: nat, m: nat, r: nat, s: nat)
    requires Pow2(w) <= g < Pow2(w + 1) && IsRemainder(g, w, m, r) && IsRemainder(g, w, m, s)
    ensures r == s
  {
    var p: nat :| Mul(p, g) == Xor(m, r);
    var q: nat :| Mul(q, g) == Xor(m, s);
    MulXor(p, q, g);
    XorSwap(m, r, m, s);
    XorSelf(m);
    XorZero(Xor(r, s));
    XorBound(r, s, w);
    if Xor(p, q) != 0 {
      var k := BitLength(Xor(p, q));
      MulDegree(Xor(p, q), g, w, k);
      Pow2Monotone(w, w + k);
      HighSmall(Xor(r, s), w + k);
    }
    XorCancels(r, s);
    XorZero(s);
  }

  // ---------- one step divides ----------

  /** The generator: the polynomial with its leading term. */
  function Generator(w: nat, poly: nat): (g: nat) {
    Pow2(w) + poly
  }

  lemma {:induction false} StepDivides(w: nat, poly: nat, y: nat)
    requires 1 <= w && y < Pow2(w) && poly < Pow2(w)
    ensures Congruent(Generator(w, poly), 2 * y, Core(w, poly, y))
  {
    var bit := High(y, w - 1) % 2;
    TopBit(w, y);
    XorLow(2 * y, Times(bit, poly), w);
    if bit == 0 {
      XorZero(2 * y);
      LowSmall(2 * y, w);
      Reflexive(Generator(w, poly), 2 * y);
    } else {
      LowSmall(poly, w);
      TakesGenerator(w, poly, Low(2 * y, w));
      MulOne(Generator(w, poly));
      assert Mul(1, Generator(w, poly)) == Xor(2 * y, Core(w, poly, y));
    }
  }

  lemma {:induction false} MulOne(g: nat)
    ensures Mul(1, g) == g
  {
    MulHalves(1, g);
    XorZero(g);
  }

  lemma {:induction false} TakesGenerator(w: nat, poly: nat, l: nat)
    requires l < Pow2(w) && poly < Pow2(w)
    ensures Xor(Pow2(w) + l, Xor(l, poly)) == Generator(w, poly)
  {
    ShlOne(w);
    XorSum(1, l, w);
    XorSum(1, poly, w);
    XorCommutes(l, poly);
    XorSwap(Pow2(w), l, poly, l);
    XorSelf(l);
    XorZero(Xor(Pow2(w), poly));
  }

  /** Twice a number of `w` bits: its top bit, and the rest. */
  lemma {:induction false} TopBit(w: nat, y: nat)
    requires 1 <= w && y < Pow2(w)
    ensures High(y, w - 1) < 2 && 2 * y == (if High(y, w - 1) == 1 then Pow2(w) else 0) + Low(2 * y, w)
  {
    TopHalf(w - 1, y);
    LowDouble(y, w);
  }

  lemma {:induction false} TopHalf(n: nat, y: nat)
    requires y < Pow2(n + 1)
    ensures High(y, n) < 2 && y == (if High(y, n) == 1 then Pow2(n) else 0) + Low(y, n)
  {
    assert Pow2(1 + n) == Pow2(n + 1) && Pow2(1) == 2;
    HighBound(y, 1, n);
    HighLow(y, n);
    ShlOne(n);
  }

  lemma {:induction false} StepsDivide(w: nat, poly: nat, y: nat, n: nat)
    requires 1 <= w && y < Pow2(w) && poly < Pow2(w)
    ensures Congruent(Generator(w, poly), Shl(y, n), Cores(w, poly, y, n))
    decreases n
  {
    var g := Generator(w, poly);
    if n == 0 {
      Reflexive(g, y);
    } else {
      var c := Core(w, poly, y);
      StepDivides(w, poly, y);
      Shifts(g, 2 * y, c, n - 1);
      ShlShl(y, 1, n - 1);
      assert Shl(y, 1) == 2 * y;
      StepsDivide(w, poly, c, n - 1);
      Transitive(g, Shl(y, n), Shl(c, n - 1), Cores(w, poly, c, n - 1));
    }
  }

  // ---------- a register of `w` bits that takes bytes at the top ----------

  ghost function Fold(w: nat, poly: nat, y: nat, data: seq<Byte>): (r: nat)
    requires w >= CharBit()
    decreases |data|
  {
    if data == [] then y
    else Fold(w, poly, Cores(w, poly, Xor(y, Shl(data[0], w - CharBit())), CharBit()), data[1..])
  }

  /** The message as a polynomial, the first byte in front. */
  function Message(data: seq<Byte>): (m: nat)
    decreases |data|
  {
    if data == [] then 0 else Xor(Shl(data[0], CharBit() * (|data| - 1)), Message(data[1..]))
  }

  /** What is divided: the message behind the starting value, and `w` places behind the message. */
  function Dividend(w: nat, y: nat, data: seq<Byte>): (m: nat) {
    Xor(Shl(y, CharBit() * |data|), Shl(Message(data), w))
  }

  lemma {:induction false} ByteDivides(w: nat, poly: nat, y: nat, b: Byte)
    requires CharBit() <= w && y < Pow2(w) && poly < Pow2(w)
    ensures var r := Cores(w, poly, Xor(y, Shl(b, w - CharBit())), CharBit());
            r < Pow2(w) && Congruent(Generator(w, poly), Xor(Shl(y, CharBit()), Shl(b, w)), r)
  {
    var x := Xor(y, Shl(b, w - CharBit()));
    ShlBound(b, CharBit(), w - CharBit());
    XorBound(y, Shl(b, w - CharBit()), w);
    StepsDivide(w, poly, x, CharBit());
    XorShl(y, Shl(b, w - CharBit()), CharBit());
    ShlShl(b, w - CharBit(), CharBit());
  }

  /** The dividend of a message in terms of its first byte. */
  lemma {:induction false} DividendFirst(w: nat, y: nat, data: seq<Byte>)
    requires data != []
    ensures Dividend(w, y, data)
            == Xor(Shl(Xor(Shl(y, CharBit()), Shl(data[0], w)), CharBit() * (|data| - 1)), Shl(Message(data[1..]), w))
  {
    FirstOut(w, y, data[0], Message(data[1..]), CharBit(), CharBit() * (|data| - 1), CharBit() * |data|);
  }

  lemma {:induction false} FirstOut(w: nat, y: nat, b: nat, m: nat, k: nat, n: nat, kn: nat)
    requires kn == k + n
    ensures Xor(Shl(y, kn), Shl(Xor(Shl(b, n), m), w)) == Xor(Shl(Xor(Shl(y, k), Shl(b, w)), n), Shl(m, w))
  {
    UpFirst(w, b, m, n);
    UpSecond(y, b, k, n, kn, w);
    Regroup(Shl(y, kn), Shl(b, n + w), Shl(m, w), Shl(Xor(Shl(b, n), m), w), Shl(Xor(Shl(y, k), Shl(b, w)), n));
  }

  lemma {:induction false} Regroup(a: nat, b: nat, c: nat, bc: nat, ab: nat)
    requires bc == Xor(b, c) && ab == Xor(a, b)
    ensures Xor(a, bc) == Xor(ab, c)
  {
    XorAssociates(a, b, c);
  }

  lemma {:induction false} UpFirst(w: nat, b: nat, m: nat, n: nat)
    ensures Shl(Xor(Shl(b, n), m), w) == Xor(Shl(b, n + w), Shl(m, w))
  {
    XorShl(Shl(b, n), m, w);
    ShlShl(b, n, w);
  }

  lemma {:induction false} UpSecond(y: nat, b: nat, k: nat, n: nat, kn: nat, w: nat)
    requires kn == k + n
    ensures Shl(Xor(Shl(y, k), Shl(b, w)), n) == Xor(Shl(y, kn), Shl(b, n + w))
  {
    XorShl(Shl(y, k), Shl(b, w), n);
    ShlShl(y, k, n);
    ShlShl(b, w, n);
    assert w + n == n + w;
  }

  lemma {:induction false} FoldDivides(w: nat, poly: nat, y: nat, data: seq<Byte>)
    requires CharBit() <= w && y < Pow2(w) && poly < Pow2(w)
    ensures IsRemainder(Generator(w, poly), w, Dividend(w, y, data), Fold(w, poly, y, data))
    decreases |data|
  {
    var g := Generator(w, poly);
    if data == [] {
      ShlOne(w);
      XorZero(y);
      Reflexive(g, y);
    } else {
      var r := Cores(w, poly, Xor(y, Shl(data[0], w - CharBit())), CharBit());
      ByteDivides(w, poly, y, data[0]);
      FoldDivides(w, poly, r, data[1..]);
      DividendRest(g, w, y, data, r);
      Transitive(g, Dividend(w, y, data), Dividend(w, r, data[1..]), Fold(w, poly, r, data[1..]));
    }
  }

  lemma {:induction false} DividendRest(g: nat, w: nat, y: nat, data: seq<Byte>, r: nat)
    requires data != [] && Congruent(g, Xor(Shl(y, CharBit()), Shl(data[0], w)), r)
    ensures Congruent(g, Dividend(w, y, data), Dividend(w, r, data[1..]))
  {
    var x, n := Xor(Shl(y, CharBit()), Shl(data[0], w)), CharBit() * (|data| - 1);
    DividendFirst(w, y, data);
    Shifts(g, x, r, n);
    Added(g, Shl(x, n), Shl(r, n), Shl(Message(data[1..]), w));
  }

  /** The same with everything shifted up by `s` places. */
  lemma {:induction false} ScaledDivides(w: nat, s: nat, poly: nat, y: nat, data: seq<Byte>, r: nat)
    requires CharBit() <= w + s && y < Pow2(w) && poly < Pow2(w) && r < Pow2(w)
    requires Fold(w + s, Shl(poly, s), Shl(y, s), data) == Shl(r, s)
    ensures IsRemainder(Generator(w, poly), w, Dividend(w, y, data), r)
  {
    ShlBound(y, w, s);
    ShlBound(poly, w, s);
    FoldDivides(w + s, Shl(poly, s), Shl(y, s), data);
    GeneratorScaled(w, s, poly);
    AllUp(w, s, y, Message(data), CharBit() * |data|);
    Unshifted(Generator(w, poly), Dividend(w, y, data), r, s);
  }

  lemma {:induction false} GeneratorScaled(w: nat, s: nat, poly: nat)
    ensures Generator(w + s, Shl(poly, s)) == Shl(Generator(w, poly), s)
  {
    ShlOne(w);
    ShlShl(1, w, s);
    ShlOne(w + s);
    ShlAdd(Pow2(w), poly, s);
  }

  lemma {:induction false} AllUp(w: nat, s: nat, y: nat, m: nat, n: nat)
    ensures Xor(Shl(Shl(y, s), n), Shl(m, w + s)) == Shl(Xor(Shl(y, n), Shl(m, w)), s)
  {
    ShlShl(y, s, n);
    ShlShl(y, n, s);
    ShlShl(m, w, s);
    XorShl(Shl(y, n), Shl(m, w), s);
  }

  // ---------- the three layouts ----------

  lemma {:induction false} PlainFolds(w: nat, d: nat, poly: nat, rem: nat, data: seq<Byte>)
    requires CharBit() <= w <= d
    ensures Low(Plain(w, d, poly, rem, data), w) == Fold(w, poly, Low(rem, w), data)
    decreases |data|
  {
    if data != [] {
      BitStepLow(w, d, poly, rem, data[0]);
      PlainFolds(w, d, poly, Ups(w, d, poly, Xor(rem, Shl(data[0], w - CharBit())), CharBit()), data[1..]);
    }
  }

  /** Bytes with their bits in reverse order. */
  function Mirrored(data: seq<Byte>): (r: seq<Byte>)
    ensures |r| == |data|
    decreases |data|
  {
    if data == [] then []
    else
      RevBound(data[0], CharBit());
      [RevN(data[0], CharBit())] + Mirrored(data[1..])
  }

  lemma {:induction false} RevXor(a: nat, b: nat, n: nat)
    ensures RevN(Xor(a, b), n) == Xor(RevN(a, n), RevN(b, n))
    decreases n
  {
    if n != 0 {
      XorHalves(a, b);
      RevXor(a / 2, b / 2, n - 1);
      RevBound(a / 2, n - 1);
      RevBound(b / 2, n - 1);
      OneBit(a, b);
      TopsXor(a % 2, b % 2, RevN(a / 2, n - 1), RevN(b / 2, n - 1), n - 1);
    }
  }

  /** Two words given by their top bits and the rest. */
  lemma {:induction false} TopsXor(a: nat, b: nat, x: nat, y: nat, n: nat)
    requires x < Pow2(n) && y < Pow2(n)
    ensures Xor(Shl(a, n) + x, Shl(b, n) + y) == Shl(Xor(a, b), n) + Xor(x, y)
  {
    XorBound(x, y, n);
    XorSum(a, x, n);
    XorSum(b, y, n);
    XorSwap(Shl(a, n), x, Shl(b, n), y);
    XorShl(a, b, n);
    XorSum(Xor(a, b), Xor(x, y), n);
  }

  lemma {:induction false} BitXor(a: nat, b: nat)
    requires a < 2 && b < 2
    ensures Xor(a, b) == (a + b) % 2
  {
    if a == 0 || b == 0 {
      XorZero(a);
      XorZero(b);
    } else {
      XorSelf(1);
    }
  }

  lemma {:induction false} OneBit(a: nat, b: nat)
    ensures Xor(a % 2, b % 2) == (a + b) % 2
  {
    ParityAdd(a, b);
    BitXor(a % 2, b % 2);
  }

  /** A short word in a longer register comes out at the top. */
  lemma {:induction false} RevLonger(x: nat, w: nat, s: nat)
    requires x < Pow2(w)
    ensures RevN(x, w + s) == Shl(RevN(x, w), s)
  {
    RevSplit(x, w, s);
    HighSmall(x, w);
    RevZero(s);
  }

  /** A step towards the low end, seen in the mirror, is a step towards the high end. */
  lemma {:induction false} MirrorStep(w: nat, poly: nat, x: nat)
    requires 1 <= w && x < Pow2(w) && poly < Pow2(w)
    ensures RevN(Down(RevN(poly, w), x), w) == Core(w, poly, RevN(x, w))
    ensures Down(RevN(poly, w), x) < Pow2(w)
  {
    MirrorDown(w, poly, x);
    MirrorUp(w, poly, x);
  }

  lemma {:induction false} MirrorDown(w: nat, poly: nat, x: nat)
    requires 1 <= w && x < Pow2(w) && poly < Pow2(w)
    ensures RevN(Down(RevN(poly, w), x), w) == Xor(2 * RevN(x / 2, w - 1), Times(x % 2, poly))
    ensures Down(RevN(poly, w), x) < Pow2(w)
  {
    var m := Times(x % 2, RevN(poly, w));
    RevBound(poly, w);
    XorBound(x / 2, m, w);
    RevXor(x / 2, m, w);
    RevRev(poly, w);
    LowSmall(poly, w);
    RevZero(w);
    RevHighBit(x / 2, 0, w - 1);
    ShlOne(w - 1);
  }

  lemma {:induction false} MirrorUp(w: nat, poly: nat, x: nat)
    requires 1 <= w && poly < Pow2(w)
    ensures Core(w, poly, RevN(x, w)) == Xor(2 * RevN(x / 2, w - 1), Times(x % 2, poly))
  {
    RevBound(x / 2, w - 1);
    MirrorTop(w, x % 2, RevN(x / 2, w - 1));
    XorLow(2 * RevN(x, w), Times(x % 2, poly), w);
    LowSmall(poly, w);
    LowZero(w);
  }

  /** The mirrored register: the lowest bit has become the top one. */
  lemma {:induction false} MirrorTop(w: nat, bit: nat, h: nat)
    requires 1 <= w && bit < 2 && h < Pow2(w - 1)
    ensures var y := Shl(bit, w - 1) + h; High(y, w - 1) % 2 == bit && Low(2 * y, w) == 2 * h
  {
    var y := Shl(bit, w - 1) + h;
    ShlOne(w - 1);
    HighLow(y, w - 1);
    HighSum(bit, h, w - 1);
    LowDouble(y, w);
  }

  lemma {:induction false} MirrorSteps(w: nat, poly: nat, x: nat, n: nat)
    requires 1 <= w && x < Pow2(w) && poly < Pow2(w)
    ensures RevN(Downs(RevN(poly, w), x, n), w) == Cores(w, poly, RevN(x, w), n)
    ensures Downs(RevN(poly, w), x, n) < Pow2(w)
    decreases n
  {
    if n != 0 {
      MirrorStep(w, poly, x);
      MirrorSteps(w, poly, Down(RevN(poly, w), x), n - 1);
    }
  }

  /** A byte at the low end, in the mirror. */
  lemma {:induction false} MirrorByte(w: nat, rem: nat, b: nat, k: nat)
    requires k <= w && rem < Pow2(w) && b < Pow2(k)
    ensures Xor(rem, b) < Pow2(w) && RevN(Xor(rem, b), w) == Xor(RevN(rem, w), Shl(RevN(b, k), w - k))
  {
    Pow2Monotone(k, w);
    XorBound(rem, b, w);
    RevXor(rem, b, w);
    RevLonger(b, k, w - k);
  }

  lemma {:induction false} MirrorBytes(w: nat, poly: nat, rem: nat, b: nat, k: nat)
    requires 1 <= w && k <= w && rem < Pow2(w) && b < Pow2(k) && poly < Pow2(w)
    ensures var r := Downs(RevN(poly, w), Xor(rem, b), k);
            r < Pow2(w) && RevN(r, w) == Cores(w, poly, Xor(RevN(rem, w), Shl(RevN(b, k), w - k)), k)
  {
    MirrorByte(w, rem, b, k);
    MirrorSteps(w, poly, Xor(rem, b), k);
  }

  lemma {:induction false} MirroredFirst(w: nat, poly: nat, y: nat, data: seq<Byte>)
    requires w >= CharBit() && data != []
    ensures Fold(w, poly, y, Mirrored(data))
            == Fold(w, poly, Cores(w, poly, Xor(y, Shl(RevN(data[0], CharBit()), w - CharBit())), CharBit()),
                 Mirrored(data[1..]))
  {
    assert Mirrored(data)[1..] == Mirrored(data[1..]);
  }

  lemma {:induction false} ReflectedFolds(w: nat, poly: nat, rem: nat, data: seq<Byte>)
    requires CharBit() <= w && rem < Pow2(w) && poly < Pow2(w)
    ensures RevN(Reflected(RevN(poly, w), rem, data), w) == Fold(w, poly, RevN(rem, w), Mirrored(data))
    decreases |data|
  {
    if data != [] {
      MirrorBytes(w, poly, rem, data[0], CharBit());
      MirroredFirst(w, poly, RevN(rem, w), data);
      ReflectedFolds(w, poly, Downs(RevN(poly, w), Xor(rem, data[0]), CharBit()), data[1..]);
    }
  }

  /** A number as the polynomial it stands for: reflected parameters keep their bits in reverse order. */
  function Straight(p: Params, x: nat): (y: nat) {
    if p.refIn then RevN(x, p.width) else x
  }

  function Bytes(p: Params, data: seq<Byte>): (r: seq<Byte>) {
    if p.refIn then Mirrored(data) else data
  }

  /** Places to shift up a CRC of less than eight bits. */
  function Spare(p: Params): (s: nat) {
    if p.width < CharBit() then CharBit() - p.width else 0
  }

  lemma {:induction false} ReflectedScaled(w: nat, s: nat, poly: nat, rem: nat, data: seq<Byte>)
    requires CharBit() <= w + s && rem < Pow2(w) && poly < Pow2(w)
    ensures var r := Reflected(RevN(poly, w), rem, data);
            r < Pow2(w) && Fold(w + s, Shl(poly, s), Shl(RevN(rem, w), s), Mirrored(data)) == Shl(RevN(r, w), s)
  {
    RevBound(poly, w);
    E.ReflectedBound(RevN(poly, w), rem, data, w);
    Pow2Monotone(w, w + s);
    ShlBound(poly, w, s);
    MirrorScaled(poly, w, s);
    FoldsLonger(w + s, Shl(poly, s), RevN(poly, w), rem, data);
    RevLonger(rem, w, s);
    RevLonger(Reflected(RevN(poly, w), rem, data), w, s);
  }

  lemma {:induction false} FoldsLonger(w: nat, poly: nat, mirror: nat, rem: nat, data: seq<Byte>)
    requires CharBit() <= w && rem < Pow2(w) && poly < Pow2(w) && mirror == RevN(poly, w)
    ensures Fold(w, poly, RevN(rem, w), Mirrored(data)) == RevN(Reflected(mirror, rem, data), w)
  {
    ReflectedFolds(w, poly, rem, data);
  }

  lemma {:induction false} MirrorScaled(poly: nat, w: nat, s: nat)
    requires poly < Pow2(w)
    ensures RevN(Shl(poly, s), w + s) == RevN(poly, w)
  {
    RevBound(poly, w);
    RevLonger(RevN(poly, w), w, s);
    RevRev(poly, w);
    LowSmall(poly, w);
    RevRev(RevN(poly, w), w + s);
    Pow2Monotone(w, w + s);
    LowSmall(RevN(poly, w), w + s);
  }

  lemma {:induction false} SmallShape(p: Params, data: seq<Byte>, rem: nat)
    requires Ok(p) && !p.refIn && p.width < CharBit() && rem < Pow2(p.width)
    ensures Fold(CharBit(), Shl(p.poly, Spare(p)), Shl(rem, Spare(p)), data)
            == Shl(Low(Remainder(p, data, rem), p.width), Spare(p))
  {
    var s, d := Spare(p), p.digits;
    ShlBound(p.poly, p.width, s);
    ShlBound(rem, p.width, s);
    Pow2Monotone(CharBit(), d);
    LowSmall(Shl(p.poly, s), d);
    LowSmall(Shl(rem, s), d);
    LowSmall(Shl(rem, s), CharBit());
    var z := Plain(CharBit(), d, Shl(p.poly, s), Shl(rem, s), data);
    PlainFolds(CharBit(), d, Shl(p.poly, s), Shl(rem, s), data);
    ShiftedOut(p.poly, s, s);
    ShiftedOut(rem, s, s);
    E.PlainClean(d, Shl(p.poly, s), Shl(rem, s), data, s);
    HighOfLow(z, s, p.width);
    LowLow(z, s, CharBit());
    HighLow(Low(z, CharBit()), s);
  }

  /** The remainder the code computes, in all three layouts and at every width, is the remainder of the division
      of the message, behind the starting value and with as many zeros behind it as the CRC has bits, by the
      generator polynomial. */
  lemma {:induction false} RemainderDivides(p: Params, data: seq<Byte>, rem: nat)
    requires Ok(p) && rem < Pow2(p.width)
    ensures IsRemainder(Generator(p.width, p.poly), p.width, Dividend(p.width, Straight(p, rem), Bytes(p, data)),
              Straight(p, Low(Remainder(p, data, rem), p.width)))
  {
    if p.refIn {
      ReflectedDivides(p.width, Spare(p), p.poly, rem, data);
      LowSmall(Remainder(p, data, rem), p.width);
    } else if p.width < CharBit() {
      SmallShape(p, data, rem);
      ScaledDivides(p.width, Spare(p), p.poly, rem, data, Low(Remainder(p, data, rem), p.width));
    } else {
      PlainFolds(p.width, p.digits, p.poly, rem, data);
      LowSmall(rem, p.width);
      FoldDivides(p.width, p.poly, rem, data);
    }
  }

  lemma {:induction false} ReflectedDivides(w: nat, s: nat, poly: nat, rem: nat, data: seq<Byte>)
    requires CharBit() <= w + s && rem < Pow2(w) && poly < Pow2(w)
    ensures var r := Reflected(RevN(poly, w), rem, data);
            r < Pow2(w) && IsRemainder(Generator(w, poly), w, Dividend(w, RevN(rem, w), Mirrored(data)), RevN(r, w))
  {
    var r := Reflected(RevN(poly, w), rem, data);
    ReflectedScaled(w, s, poly, rem, data);
    RevBound(r, w);
    RevBound(rem, w);
    ScaledDivides(w, s, poly, RevN(rem, w), Mirrored(data), RevN(r, w));
  }
}
