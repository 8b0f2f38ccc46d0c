/** Cyclic redundancy checks: the bit-by-bit remainder and the table-driven one, in the three layouts of
    the source, for every width, polynomial and word size. */
module CrcRemainder {
  import opened Bits

  /** Bits of a byte. */
  function CharBit(): (k: nat) {
    8
  }

  type Byte = x: nat | x < Pow2(CharBit())

  /** `width` bits of CRC in words of `digits` bits. */
  datatype Params = Params(width: nat, digits: nat, poly: nat, init: nat, fin: nat, refIn: bool, refOut: bool)

  predicate Ok(p: Params) {
    && 1 <= p.width <= p.digits && CharBit() <= p.digits
    && p.poly < Pow2(p.width) && p.init < Pow2(p.width) && p.fin < Pow2(p.width)
  }

  function Times(bit: nat, x: nat): (r: nat) {
    if bit == 1 then x else 0
  }

  // ---------- one bit at a time ----------

  /** Reflected: towards the low end. */
  function Down(poly: nat, x: nat): (r: nat) {
    Xor(x / 2, Times(x % 2, poly))
  }

  function Downs(poly: nat, x: nat, n: nat): (r: nat)
    decreases n
  {
    if n == 0 then x else Downs(poly, Down(poly, x), n - 1)
  }

  /** Not reflected: towards bit `w`, in words of `d` bits. */
  function Up(w: nat, d: nat, poly: nat, x: nat): (r: nat)
    requires w >= 1
  {
    Low(Xor(2 * x, Times(High(x, w - 1) % 2, poly)), d)
  }

  function Ups(w: nat, d: nat, poly: nat, x: nat, n: nat): (r: nat)
    requires w >= 1
    decreases n
  {
    if n == 0 then x else Ups(w, d, poly, Up(w, d, poly, x), n - 1)
  }

  function Reflected(poly: nat, rem: nat, data: seq<Byte>): (r: nat)
    decreases |data|
  {
    if data == [] then rem else Reflected(poly, Downs(poly, Xor(rem, data[0]), CharBit()), data[1..])
  }

  function Plain(w: nat, d: nat, poly: nat, rem: nat, data: seq<Byte>): (r: nat)
    requires w >= CharBit()
    decreases |data|
  {
    if data == [] then rem
      else Plain(w, d, poly, Ups(w, d, poly, Xor(rem, Shl(data[0], w - CharBit())), CharBit()), data[1..])
  }

  /** CalculateRemainder, bit by bit.  A width below eight is shifted up to fill a byte. */
  function Remainder(p: Params, data: seq<Byte>, rem: nat): (r: nat) {
    if p.refIn then Reflected(RevN(p.poly, p.width), rem, data)
    else if p.width >= CharBit() then Plain(p.width, p.digits, p.poly, rem, data)
    else
      var s := CharBit() - p.width;
      High(Plain(CharBit(), p.digits, Low(Shl(p.poly, s), p.digits), Low(Shl(rem, s), p.digits), data), s)
  }

  // ---------- one byte at a time ----------

  /** One entry of InitTable. */
  function Entry(p: Params, b: Byte): (e: nat) {
    var c := Low(Remainder(p, [b], 0), p.width);
    if !p.refIn && p.width < CharBit() then Low(Shl(c, CharBit() - p.width), p.digits) else c
  }

  ghost predicate IsTable(p: Params, t: seq<nat>) {
    |t| == Pow2(CharBit()) && forall b :: 0 <= b < Pow2(CharBit()) ==> t[b] == Entry(p, b)
  }

  function ReflectedT(t: seq<nat>, rem: nat, data: seq<Byte>): (r: nat)
    requires |t| == Pow2(CharBit())
    decreases |data|
  {
    if data == [] then rem
      else ReflectedT(t, Xor(High(rem, CharBit()), t[Low(Xor(rem, data[0]), CharBit())]), data[1..])
  }

  function PlainT(w: nat, d: nat, t: seq<nat>, rem: nat, data: seq<Byte>): (r: nat)
    requires w >= CharBit() && |t| == Pow2(CharBit())
    decreases |data|
  {
    if data == [] then rem
    else PlainT(w, d, t, Low(Xor(Shl(rem, CharBit()), t[Low(Xor(High(rem, w - CharBit()), data[0]), CharBit())]), d),
      data[1..])
  }

  function SmallT(t: seq<nat>, rem: nat, data: seq<Byte>): (r: nat)
    requires |t| == Pow2(CharBit())
    decreases |data|
  {
    if data == [] then rem else SmallT(t, t[Low(Xor(rem, data[0]), CharBit())], data[1..])
  }

  /** CalculateRemainder with a lookup table. */
  function TableRemainder(p: Params, t: seq<nat>, data: seq<Byte>, rem: nat): (r: nat)
    requires |t| == Pow2(CharBit())
  {
    if p.refIn then ReflectedT(t, rem, data)
    else if p.width >= CharBit() then PlainT(p.width, p.digits, t, rem, data)
    else
      var s := CharBit() - p.width;
      High(SmallT(t, Low(Shl(rem, s), p.digits), data), s)
  }

  // ---------- reflected layout ----------

  lemma DownXor(poly: nat, x: nat, y: nat)
    ensures Down(poly, Xor(x, y)) == Xor(Down(poly, x), Down(poly, y))
  {
    var a, b := x % 2, y % 2;
    XorHalves(x, y);
    ParityAdd(x, y);
    TimesXor(a, b, poly);
    XorSwap(x / 2, Times(a, poly), y / 2, Times(b, poly));
  }

  lemma ParityAdd(x: nat, y: nat)
    ensures (x % 2 + y % 2) % 2 == (x + y) % 2
  {
  }

  lemma ParityXor(x: nat, y: nat)
    ensures Xor(x, y) % 2 == (x % 2 + y % 2) % 2
  {
    XorHalves(x, y);
    ParityAdd(x, y);
  }

  lemma TimesXor(a: nat, b: nat, x: nat)
    requires a < 2 && b < 2
    ensures Xor(Times(a, x), Times(b, x)) == Times((a + b) % 2, x)
  {
    XorSelf(x);
    XorZero(x);
    XorZero(0);
  }

  lemma {:induction false} DownsXor(poly: nat, x: nat, y: nat, n: nat)
    ensures Downs(poly, Xor(x, y), n) == Xor(Downs(poly, x, n), Downs(poly, y, n))
    decreases n
  {
    if n != 0 {
      DownXor(poly, x, y);
      DownsXor(poly, Down(poly, x), Down(poly, y), n - 1);
    }
  }

  lemma {:induction false} DownsShl(poly: nat, h: nat, n: nat)
    ensures Downs(poly, Shl(h, n), n) == h
    decreases n
  {
    if n != 0 {
      assert Shl(h, n) == 2 * Shl(h, n - 1);
      XorZero(Shl(h, n - 1));
      DownsShl(poly, h, n - 1);
    }
  }

  lemma {:induction false} DownsStays(poly: nat, x: nat, n: nat, w: nat)
    requires poly < Pow2(w) && x < Pow2(w)
    ensures Downs(poly, x, n) < Pow2(w)
    decreases n
  {
    if n != 0 {
      XorBound(x / 2, Times(x % 2, poly), w);
      DownsStays(poly, Down(poly, x), n - 1, w);
    }
  }

  /** After `n` steps a value of `n` bits has been replaced by multiples of the polynomial. */
  lemma {:induction false} DownsBound(poly: nat, x: nat, n: nat, w: nat)
    requires poly < Pow2(w) && x < Pow2(n)
    ensures Downs(poly, x, n) < Pow2(w)
    decreases n
  {
    if n != 0 {
      var e := Times(x % 2, poly);
      DownsBound(poly, x / 2, n - 1, w);
      DownsStays(poly, e, n - 1, w);
      DownsXor(poly, x / 2, e, n - 1);
      XorBound(Downs(poly, x / 2, n - 1), Downs(poly, e, n - 1), w);
    }
  }

  /** Eight steps at once: the high part moves down, the low byte is looked up. */
  lemma DownByte(poly: nat, x: nat, n: nat)
    ensures Downs(poly, x, n) == Xor(High(x, n), Downs(poly, Low(x, n), n))
  {
    HighLow(x, n);
    XorSum(High(x, n), Low(x, n), n);
    DownsXor(poly, Shl(High(x, n), n), Low(x, n), n);
    DownsShl(poly, High(x, n), n);
  }

  lemma ReflectedEntry(p: Params, b: Byte)
    requires Ok(p) && p.refIn
    ensures Entry(p, b) == Downs(RevN(p.poly, p.width), b, CharBit())
  {
    var q := RevN(p.poly, p.width);
    RevBound(p.poly, p.width);
    XorZero(b);
    assert [b][1..] == [];
    assert Reflected(q, 0, [b]) == Reflected(q, Downs(q, b, CharBit()), []);
    DownsBound(q, b, CharBit(), p.width);
    LowSmall(Downs(q, b, CharBit()), p.width);
  }

  lemma ReflectedStep(p: Params, t: seq<nat>, rem: nat, b: Byte)
    requires Ok(p) && p.refIn && IsTable(p, t)
    ensures Xor(High(rem, CharBit()), t[Low(Xor(rem, b), CharBit())])
            == Downs(RevN(p.poly, p.width), Xor(rem, b), CharBit())
  {
    var x := Xor(rem, b);
    XorHigh(rem, b, CharBit());
    HighSmall(b, CharBit());
    XorZero(High(rem, CharBit()));
    DownByte(RevN(p.poly, p.width), x, CharBit());
    ReflectedEntry(p, Low(x, CharBit()));
  }

  lemma {:induction false} ReflectedAgrees(p: Params, t: seq<nat>, rem: nat, data: seq<Byte>)
    requires Ok(p) && p.refIn && IsTable(p, t)
    ensures ReflectedT(t, rem, data) == Reflected(RevN(p.poly, p.width), rem, data)
    decreases |data|
  {
    if data != [] {
      ReflectedStep(p, t, rem, data[0]);
      ReflectedAgrees(p, t, Downs(RevN(p.poly, p.width), Xor(rem, data[0]), CharBit()), data[1..]);
    }
  }

  // ---------- plain layout ----------

  ghost function Reduce(w: nat, poly: nat, z: nat, bit: nat): (r: nat)
    ensures r < Pow2(w)
  {
    Low(Xor(z, Times(bit, poly)), w)
  }

  /** One step on exactly `w` bits. */
  ghost function Core(w: nat, poly: nat, y: nat): (r: nat)
    requires w >= 1
    ensures r < Pow2(w)
  {
    Reduce(w, poly, 2 * y, High(y, w - 1) % 2)
  }

  ghost function Cores(w: nat, poly: nat, y: nat, n: nat): (r: nat)
    requires w >= 1
    ensures y < Pow2(w) ==> r < Pow2(w)
    decreases n
  {
    if n == 0 then y else Cores(w, poly, Core(w, poly, y), n - 1)
  }

  lemma LowDouble(x: nat, w: nat)
    requires w >= 1
    ensures Low(2 * x, w) == 2 * Low(x, w - 1) == Low(2 * Low(x, w), w)
  {
    LowLow(x, w - 1, w);
  }

  /** The top one of `w` bits. */
  lemma TopOfLow(x: nat, w: nat)
    requires w >= 1
    ensures High(Low(x, w), w - 1) % 2 == High(x, w - 1) % 2
  {
    HighOfLow(x, w - 1, 1);
    var h := High(x, w - 1);
    assert Low(h, 1) == h % 2 + 2 * Low(h / 2, 0);
  }

  /** The CRC's bits after a step depend on the CRC's bits only. */
  lemma UpLow(w: nat, d: nat, poly: nat, x: nat)
    requires 1 <= w <= d
    ensures Low(Up(w, d, poly, x), w) == Core(w, poly, Low(x, w))
  {
    var m := Times(High(x, w - 1) % 2, poly);
    TopOfLow(x, w);
    LowLow(Xor(2 * x, m), w, d);
    XorLow(2 * x, m, w);
    LowDouble(x, w);
    XorLow(2 * Low(x, w), m, w);
  }

  lemma {:induction false} UpsLow(w: nat, d: nat, poly: nat, x: nat, n: nat)
    requires 1 <= w <= d
    ensures Low(Ups(w, d, poly, x, n), w) == Cores(w, poly, Low(x, w), n)
    decreases n
  {
    if n != 0 {
      UpLow(w, d, poly, x);
      UpsLow(w, d, poly, Up(w, d, poly, x), n - 1);
    }
  }

  lemma ReduceXor(w: nat, poly: nat, z: nat, u: nat, p: nat, q: nat)
    requires p < 2 && q < 2
    ensures Reduce(w, poly, Xor(z, u), (p + q) % 2) == Xor(Reduce(w, poly, z, p), Reduce(w, poly, u, q))
  {
    TimesXor(p, q, poly);
    XorSwap(z, Times(p, poly), u, Times(q, poly));
    XorLow(Xor(z, Times(p, poly)), Xor(u, Times(q, poly)), w);
  }

  lemma TopXor(w: nat, x: nat, y: nat)
    requires w >= 1
    ensures High(Xor(x, y), w - 1) % 2 == (High(x, w - 1) % 2 + High(y, w - 1) % 2) % 2
  {
    XorHigh(x, y, w - 1);
    ParityXor(High(x, w - 1), High(y, w - 1));
  }

  lemma CoreXor(w: nat, poly: nat, x: nat, y: nat)
    requires w >= 1
    ensures Core(w, poly, Xor(x, y)) == Xor(Core(w, poly, x), Core(w, poly, y))
  {
    TopXor(w, x, y);
    XorDouble(x, y);
    ReduceXor(w, poly, 2 * x, 2 * y, High(x, w - 1) % 2, High(y, w - 1) % 2);
  }

  lemma {:induction false} CoresXor(w: nat, poly: nat, x: nat, y: nat, n: nat)
    requires w >= 1
    ensures Cores(w, poly, Xor(x, y), n) == Xor(Cores(w, poly, x, n), Cores(w, poly, y, n))
    decreases n
  {
    if n != 0 {
      CoreXor(w, poly, x, y);
      CoresXor(w, poly, Core(w, poly, x), Core(w, poly, y), n - 1);
    }
  }

  /** Bits that do not reach the top are only shifted. */
  lemma {:induction false} CoresShl(w: nat, poly: nat, l: nat, n: nat)
    requires 1 <= w && n <= w && l < Pow2(w - n)
    ensures Cores(w, poly, l, n) == Shl(l, n)
    decreases n
  {
    if n != 0 {
      Pow2Monotone(w - n, w - 1);
      HighSmall(l, w - 1);
      XorZero(2 * l);
      LowSmall(2 * l, w);
      CoresShl(w, poly, 2 * l, n - 1);
      ShlShl(l, 1, n - 1);
      assert Shl(l, 1) == 2 * l;
    }
  }

  /** A byte added at the top of a word of `s + 8` bits. */
  lemma AddOnTop(y: nat, s: nat, b: nat)
    ensures Xor(y, Shl(b, s)) == Xor(Low(y, s), Shl(Xor(High(y, s), b), s))
  {
    var h, l := High(y, s), Low(y, s);
    HighLow(y, s);
    XorSum(h, l, s);
    XorCommutes(Shl(h, s), l);
    XorAssociates(l, Shl(h, s), Shl(b, s));
    XorShl(h, b, s);
  }

  /** `k` steps at once: the low part moves up, the top `k` bits are looked up. */
  lemma CoreTop(w: nat, poly: nat, y: nat, b: nat, k: nat)
    requires 1 <= w && k <= w
    ensures Cores(w, poly, Xor(y, Shl(b, w - k)), k)
         == Xor(Shl(Low(y, w - k), k), Cores(w, poly, Shl(Xor(High(y, w - k), b), w - k), k))
  {
    var s := w - k;
    AddOnTop(y, s, b);
    CoresXor(w, poly, Low(y, s), Shl(Xor(High(y, s), b), s), k);
    CoresShl(w, poly, Low(y, s), k);
  }

  lemma PlainEntry(w: nat, d: nat, poly: nat, b: Byte)
    requires CharBit() <= w <= d
    ensures Low(Plain(w, d, poly, 0, [b]), w) == Cores(w, poly, Shl(b, w - CharBit()), CharBit())
  {
    var x := Shl(b, w - CharBit());
    XorZero(x);
    assert [b][1..] == [];
    assert Plain(w, d, poly, 0, [b]) == Plain(w, d, poly, Ups(w, d, poly, x, CharBit()), []);
    UpsLow(w, d, poly, x, CharBit());
    ShlBound(b, CharBit(), w - CharBit());
    LowSmall(x, w);
  }

  lemma {:induction false} ShlBound(x: nat, m: nat, n: nat)
    requires x < Pow2(m)
    ensures Shl(x, n) < Pow2(m + n)
  {
    if n != 0 {
      ShlBound(x, m, n - 1);
    }
  }

  /** A table whose entries are eight steps of a byte at the top of `w` bits. */
  ghost predicate Steps(w: nat, poly: nat, t: seq<nat>)
    requires w >= CharBit()
  {
    |t| == Pow2(CharBit()) && forall b :: 0 <= b < Pow2(CharBit()) ==>
        t[b] == Cores(w, poly, Shl(b, w - CharBit()), CharBit())
  }

  ghost function PlainIndex(w: nat, rem: nat, b: Byte): (i: nat)
    requires w >= CharBit()
  {
    Low(Xor(High(rem, w - CharBit()), b), CharBit())
  }

  lemma IndexIs(w: nat, rem: nat, b: Byte)
    requires w >= CharBit()
    ensures PlainIndex(w, rem, b) == Xor(High(Low(rem, w), w - CharBit()), b)
  {
    var s := w - CharBit();
    IndexByte(High(rem, s), b);
    HighOfLow(rem, s, CharBit());
    assert s + CharBit() == w;
  }

  lemma IndexByte(x: nat, b: Byte)
    ensures Low(Xor(x, b), CharBit()) == Xor(Low(x, CharBit()), b)
  {
    XorLow(x, b, CharBit());
    LowSmall(b, CharBit());
  }

  /** The bits of the CRC after a table step. */
  lemma TableStepLow(w: nat, d: nat, a: nat, e: nat)
    requires w <= d && e < Pow2(w)
    ensures Low(Low(Xor(a, e), d), w) == Xor(Low(a, w), e)
  {
    LowLow(Xor(a, e), w, d);
    XorLow(a, e, w);
    LowSmall(e, w);
  }

  lemma ShiftedLow(w: nat, rem: nat, k: nat)
    requires k <= w
    ensures Low(Shl(rem, k), w) == Shl(Low(Low(rem, w), w - k), k)
  {
    LowShl(rem, k, w);
    LowLow(rem, w - k, w);
  }

  /** The bits of the CRC after eight single steps. */
  lemma BitStepLow(w: nat, d: nat, poly: nat, rem: nat, b: Byte)
    requires CharBit() <= w <= d
    ensures Low(Ups(w, d, poly, Xor(rem, Shl(b, w - CharBit())), CharBit()), w)
            == Cores(w, poly, Xor(Low(rem, w), Shl(b, w - CharBit())), CharBit())
  {
    UpsLow(w, d, poly, Xor(rem, Shl(b, w - CharBit())), CharBit());
    XorLow(rem, Shl(b, w - CharBit()), w);
    ShlBound(b, CharBit(), w - CharBit());
    LowSmall(Shl(b, w - CharBit()), w);
  }

  lemma EntryByte(w: nat, d: nat, poly: nat, rem: nat, b: nat, e: nat, k: nat)
    requires 1 <= w <= d && k <= w && e < Pow2(w)
    requires e == Cores(w, poly, Shl(Xor(High(Low(rem, w), w - k), b), w - k), k)
    ensures Low(Low(Xor(Shl(rem, k), e), d), w) == Cores(w, poly, Xor(Low(rem, w), Shl(b, w - k)), k)
  {
    CoreTop(w, poly, Low(rem, w), b, k);
    ShiftedLow(w, rem, k);
    TableStepLow(w, d, Shl(rem, k), e);
  }

  /** One byte through the table, on the bits of the CRC. */
  lemma TableByte(w: nat, d: nat, poly: nat, t: seq<nat>, rem: nat, b: Byte)
    requires CharBit() <= w <= d && Steps(w, poly, t)
    ensures Low(Low(Xor(Shl(rem, CharBit()), t[PlainIndex(w, rem, b)]), d), w)
            == Cores(w, poly, Xor(Low(rem, w), Shl(b, w - CharBit())), CharBit())
  {
    var i := PlainIndex(w, rem, b);
    IndexIs(w, rem, b);
    ShlBound(i, CharBit(), w - CharBit());
    EntryByte(w, d, poly, rem, b, t[i], CharBit());
  }

  lemma PlainStep(w: nat, d: nat, poly: nat, t: seq<nat>, rem: nat, rem': nat, b: Byte)
    requires CharBit() <= w <= d && Steps(w, poly, t) && Low(rem, w) == Low(rem', w)
    ensures Low(Low(Xor(Shl(rem, CharBit()), t[PlainIndex(w, rem, b)]), d), w)
            == Low(Ups(w, d, poly, Xor(rem', Shl(b, w - CharBit())), CharBit()), w)
  {
    TableByte(w, d, poly, t, rem, b);
    BitStepLow(w, d, poly, rem', b);
  }

  lemma {:induction false} PlainAgrees(w: nat, d: nat, poly: nat, t: seq<nat>, rem: nat, rem': nat, data: seq<Byte>)
    requires CharBit() <= w <= d && Steps(w, poly, t) && Low(rem, w) == Low(rem', w)
    ensures Low(PlainT(w, d, t, rem, data), w) == Low(Plain(w, d, poly, rem', data), w)
    decreases |data|
  {
    if data != [] {
      PlainStep(w, d, poly, t, rem, rem', data[0]);
      PlainAgrees(w, d, poly, t, Low(Xor(Shl(rem, CharBit()), t[PlainIndex(w, rem, data[0])]), d),
                  Ups(w, d, poly, Xor(rem', Shl(data[0], w - CharBit())), CharBit()), data[1..]);
    }
  }

  // ---------- widths below eight ----------

  lemma {:induction false} LowShlSame(a: nat, b: nat, n: nat, s: nat)
    requires Low(a, s) == Low(b, s)
    ensures Low(Shl(a, n), s) == Low(Shl(b, n), s)
  {
    if n != 0 && s != 0 {
      LowShlSame(a, b, n - 1, s);
      LowDouble(Shl(a, n - 1), s);
      LowDouble(Shl(b, n - 1), s);
    }
  }

  lemma CoreLow(w: nat, poly: nat, y: nat, s: nat)
    requires 1 <= w && s <= w && Low(poly, s) == 0
    ensures Low(Core(w, poly, y), s) == Low(2 * y, s)
  {
    var m := Times(High(y, w - 1) % 2, poly);
    LowLow(Xor(2 * y, m), s, w);
    XorLow(2 * y, m, s);
    LowZero(s);
    XorZero(Low(2 * y, s));
  }

  lemma {:induction false} LowZero(n: nat)
    ensures Low(0, n) == 0
  {
    if n != 0 {
      LowZero(n - 1);
    }
  }

  /** With a polynomial whose low bits are zero, the low bits are only shifted. */
  lemma {:induction false} CoresLow(w: nat, poly: nat, y: nat, n: nat, s: nat)
    requires 1 <= w && s <= w && Low(poly, s) == 0
    ensures Low(Cores(w, poly, y, n), s) == Low(Shl(y, n), s)
    decreases n
  {
    if n != 0 {
      CoreLow(w, poly, y, s);
      CoresLow(w, poly, Core(w, poly, y), n - 1, s);
      LowShlSame(Core(w, poly, y), 2 * y, n - 1, s);
      ShlShl(y, 1, n - 1);
      assert Shl(y, 1) == 2 * y;
    }
  }

  lemma ShiftedOut(y: nat, n: nat, s: nat)
    requires s <= n
    ensures Low(Shl(y, n), s) == 0
  {
    ShlShl(y, n - s, s);
    LowShl(Shl(y, n - s), s, s);
    ShlOne(s);
  }

  /** Eight steps leave the low `s` bits zero. */
  lemma CoresClean(poly: nat, y: nat, s: nat)
    requires s <= CharBit() && Low(poly, s) == 0
    ensures Low(Cores(CharBit(), poly, y, CharBit()), s) == 0
  {
    CoresLow(CharBit(), poly, y, CharBit(), s);
    ShiftedOut(y, CharBit(), s);
  }

  ghost function Shifted(p: Params): (poly: nat)
    requires p.width < CharBit()
  {
    Low(Shl(p.poly, CharBit() - p.width), p.digits)
  }

  lemma ShiftedClean(x: nat, s: nat, d: nat)
    requires s <= d
    ensures Low(Low(Shl(x, s), d), s) == 0
  {
    LowLow(Shl(x, s), s, d);
    ShiftedOut(x, s, s);
  }

  /** A byte whose low bits are zero survives being shifted down and up. */
  lemma DownAndUp(z: nat, s: nat, d: nat)
    requires Low(z, s) == 0 && z < Pow2(CharBit()) && CharBit() <= d
    ensures Low(Shl(High(z, s), s), d) == z
  {
    HighLow(z, s);
    Pow2Monotone(CharBit(), d);
    LowSmall(z, d);
  }

  lemma SmallEntry(p: Params, b: Byte)
    requires Ok(p) && !p.refIn && p.width < CharBit()
    ensures Entry(p, b) == Cores(CharBit(), Shifted(p), Shl(b, 0), CharBit())
  {
    var s, poly := CharBit() - p.width, Shifted(p);
    var q := Plain(CharBit(), p.digits, poly, 0, [b]);
    SmallRemainder(p, b);
    PlainEntry(CharBit(), p.digits, poly, b);
    HighOfLow(q, s, p.width);
    SmallCores(p, b);
  }

  lemma SmallRemainder(p: Params, b: Byte)
    requires !p.refIn && p.width < CharBit()
    ensures Remainder(p, [b], 0) == High(Plain(CharBit(), p.digits, Shifted(p), 0, [b]), CharBit() - p.width)
  {
    ShlOne(CharBit() - p.width);
    LowZero(p.digits);
  }

  /** The entry is a byte whose low bits are zero. */
  lemma SmallCores(p: Params, b: Byte)
    requires Ok(p) && p.width < CharBit()
    ensures var s, c := CharBit() - p.width, Cores(CharBit(), Shifted(p), Shl(b, 0), CharBit());
            Low(Shl(High(c, s), s), p.digits) == c
  {
    var s := CharBit() - p.width;
    ShiftedClean(p.poly, s, p.digits);
    CoresClean(Shifted(p), Shl(b, 0), s);
    DownAndUp(Cores(CharBit(), Shifted(p), Shl(b, 0), CharBit()), s, p.digits);
  }

  lemma {:induction false} SmallAgrees(d: nat, poly: nat, t: seq<nat>, rem: nat, rem': nat, data: seq<Byte>)
    requires CharBit() <= d && Steps(CharBit(), poly, t) && Low(rem, CharBit()) == Low(rem', CharBit())
    ensures Low(SmallT(t, rem, data), CharBit()) == Low(Plain(CharBit(), d, poly, rem', data), CharBit())
    decreases |data|
  {
    if data != [] {
      SmallStep(d, poly, t, rem, rem', data[0]);
      SmallAgrees(d, poly, t, t[Low(Xor(rem, data[0]), CharBit())],
        Ups(CharBit(), d, poly, Xor(rem', Shl(data[0], 0)), CharBit()), data[1..]);
    }
  }

  lemma SmallStep(d: nat, poly: nat, t: seq<nat>, rem: nat, rem': nat, b: Byte)
    requires CharBit() <= d && Steps(CharBit(), poly, t) && Low(rem, CharBit()) == Low(rem', CharBit())
    ensures Low(t[Low(Xor(rem, b), CharBit())], CharBit())
            == Low(Ups(CharBit(), d, poly, Xor(rem', Shl(b, 0)), CharBit()), CharBit())
  {
    XorLow(rem, b, CharBit());
    XorLow(rem', b, CharBit());
    var i := Low(Xor(rem, b), CharBit());
    UpsLow(CharBit(), d, poly, Xor(rem', b), CharBit());
    assert Shl(b, 0) == b && Shl(i, 0) == i;
    LowSmall(t[i], CharBit());
  }

  // ---------- the table is right ----------

  lemma TableSteps(p: Params, t: seq<nat>)
    requires Ok(p) && !p.refIn && IsTable(p, t)
    ensures if p.width >= CharBit() then Steps(p.width, p.poly, t) else Steps(CharBit(), Shifted(p), t)
  {
    forall b | 0 <= b < Pow2(CharBit())
      ensures t[b] == if p.width >= CharBit() then Cores(p.width, p.poly, Shl(b, p.width - CharBit()), CharBit())
              else Cores(CharBit(), Shifted(p), Shl(b, 0), CharBit())
    {
      if p.width >= CharBit() {
        PlainEntry(p.width, p.digits, p.poly, b);
      } else {
        SmallEntry(p, b);
      }
    }
  }

  /** For every parameter set, byte string and starting remainder, the table-driven remainder agrees with
      the bit-by-bit one on the bits of the CRC. */
  lemma TableAgrees(p: Params, t: seq<nat>, data: seq<Byte>, rem: nat)
    requires Ok(p) && IsTable(p, t)
    ensures Low(TableRemainder(p, t, data, rem), p.width) == Low(Remainder(p, data, rem), p.width)
  {
    if p.refIn {
      ReflectedAgrees(p, t, rem, data);
    } else if p.width >= CharBit() {
      TableSteps(p, t);
      PlainAgrees(p.width, p.digits, p.poly, t, rem, rem, data);
    } else {
      TableSteps(p, t);
      var s := CharBit() - p.width;
      var r := Low(Shl(rem, s), p.digits);
      SmallAgrees(p.digits, Shifted(p), t, r, r, data);
      HighOfLow(SmallT(t, r, data), s, p.width);
      HighOfLow(Plain(CharBit(), p.digits, Shifted(p), r, data), s, p.width);
    }
  }
}
