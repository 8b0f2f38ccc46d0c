/** Whole numbers: their decimal text, and the reader that keeps 32 bits while they suffice, then 64. */
module JsonNumber {
  import opened JsonGrammar
  import opened JsonText

  const MINUS: Byte := 0x2D
  const ZERO: Byte := 0x30

  predicate Digit(c: Byte) {
    0x30 <= c <= 0x39
  }

  // ---------- decimal text ----------

  function Digits(m: nat): (t: Text)
    ensures t != [] && forall i :: 0 <= i < |t| ==> Digit(t[i])
    ensures t[0] == ZERO ==> m == 0
    ensures m == 0 ==> t == [ZERO]
  {
    if m < 10 then [0x30 + m] else Digits(m / 10) + [0x30 + m % 10]
  }

  function Decimal(n: int): (t: Text) {
    if n < 0 then [MINUS] + Digits(-n) else Digits(n)
  }

  // ---------- reading ----------

  /** The digits from `p` on, read behind `acc`. */
  function DigitsValue(s: Text, p: nat, acc: nat): (v: nat)
    ensures v >= acc
    decreases if p < |s| then |s| - p else 0
  {
    if Digit(Peek(s, p)) then DigitsValue(s, p + 1, 10 * acc + Peek(s, p) - 0x30) else acc
  }

  function DigitsEnd(s: Text, p: nat): (q: nat)
    ensures q >= p && !Digit(Peek(s, q)) && forall i :: p <= i < q ==> Digit(Peek(s, i))
    decreases if p < |s| then |s| - p else 0
  {
    if Digit(Peek(s, p)) then DigitsEnd(s, p + 1) else p
  }

  /** A fraction or an exponent follows, so the number is not written as a whole number. */
  predicate Continues(c: Byte) {
    c == 0x2E || c == 0x65 || c == 0x45
  }

  /** The largest magnitude that is kept as a whole number. */
  function Largest(minus: bool): (v: nat) {
    if minus then 0x8000_0000_0000_0000 else 0xFFFF_FFFF_FFFF_FFFF
  }

  function Signed(minus: bool, v: nat): (n: int) {
    if minus then -(v as int) else v
  }

  function Whole(s: Text, minus: bool, v: nat, q: nat): (r: Scanned<int>) {
    if Continues(Peek(s, q)) || v > Largest(minus) then Bad else Got(Signed(minus, v), q)
  }

  /** The whole number written at `p`: an optional minus, then 0 or digits that do not begin with 0. */
  function ScanWhole(s: Text, p: nat): (r: Scanned<int>) {
    var minus := Peek(s, p) == MINUS;
    var q := if minus then p + 1 else p;
    if Peek(s, q) == ZERO then Whole(s, minus, 0, q + 1)
    else if Digit(Peek(s, q)) then Whole(s, minus, DigitsValue(s, q, 0), DigitsEnd(s, q))
    else Bad
  }

  /** What is left of the number when `v` has been read up to `q`. */
  ghost predicate Reading(s: Text, q0: nat, q: nat, v: nat) {
    DigitsValue(s, q0, 0) == DigitsValue(s, q, v) && DigitsEnd(s, q0) == DigitsEnd(s, q)
  }

  /** One more digit does not fit below `10 * tenth + last`. */
  predicate TooBig(v: nat, tenth: nat, last: Byte, c: Byte) {
    v >= tenth && (v != tenth || c > last)
  }

  /** A loop over digits with a guard against overflow: it stops at the end of the digits, or before the digit
      that would exceed the bound. */
  method Accumulate(s: Text, ghost q0: nat, q: nat, v: nat, tenth: nat, last: Byte)
    returns (q': nat, v': nat, over: bool)
    requires Reading(s, q0, q, v) && Digit(last) && v <= 10 * tenth + last - 0x30
    ensures Reading(s, q0, q', v') && v' <= 10 * tenth + last - 0x30
    ensures !over ==> v' == DigitsValue(s, q0, 0) && q' == DigitsEnd(s, q0)
    ensures over ==> Digit(Peek(s, q')) && TooBig(v', tenth, last, Peek(s, q'))
  {
    q', v', over := q, v, false;
    while Digit(Peek(s, q'))
      invariant Reading(s, q0, q', v') && v' <= 10 * tenth + last - 0x30
      decreases if q' < |s| then |s| - q' else 0
    {
      if v' >= tenth {
        if v' != tenth || Peek(s, q') > last {
          over := true;
          return;
        }
      }
      v' := 10 * v' + Peek(s, q') - 0x30;
      q' := q' + 1;
    }
  }

  /** The integer part of ParseNumber: at most 32 bits are kept at first, then at most 64; a larger number, or
      one with a fraction or an exponent, is not a whole number. */
  method ParseWhole(s: Text, p: nat) returns (r: Scanned<int>)
    ensures r == ScanWhole(s, p)
  {
    var minus, q := false, p;
    if Peek(s, q) == MINUS {
      minus := true;
      q := q + 1;
    }
    var v: nat := 0;
    if Peek(s, q) == ZERO {
      q := q + 1;
    } else if Digit(Peek(s, q)) {
      ghost var q0 := q;
      v := Peek(s, q) - 0x30;
      q := q + 1;
      var over;
      q, v, over := Accumulate(s, q0, q, v, if minus then 214748364 else 429496729, if minus then 0x38 else 0x35);
      assert v <= if minus then 0x8000_0000 else 0xFFFF_FFFF;
      if over {
        q, v, over := Accumulate(s, q0, q, v, if minus then 0x0CCC_CCCC_CCCC_CCCC else 0x1999_9999_9999_9999,
          if minus then 0x38 else 0x35);
        if over {
          assert DigitsValue(s, q, v) >= 10 * v + Peek(s, q) - 0x30;
          return Bad;
        }
      }
      assert v <= Largest(minus);
    } else {
      return Bad;
    }
    if Continues(Peek(s, q)) {
      return Bad;
    }
    r := Got(Signed(minus, v), q);
  }

  // ---------- reading back ----------

  ghost predicate Stands(s: Text, p: nat, t: Text) {
    forall i :: 0 <= i < |t| ==> Peek(s, p + i) == t[i]
  }

  /** The number that a text of digits continues. */
  function Fold(t: Text, acc: nat): (v: nat)
    requires forall i :: 0 <= i < |t| ==> Digit(t[i])
    decreases |t|
  {
    if t == [] then acc
    else
      assert Digit(t[0]);
      Fold(t[1..], 10 * acc + (t[0] - 0x30))
  }

  lemma {:induction false} FoldAppend(t: Text, c: Byte, acc: nat)
    requires Digit(c) && forall i :: 0 <= i < |t| ==> Digit(t[i])
    ensures Fold(t + [c], acc) == 10 * Fold(t, acc) + c - 0x30
    decreases |t|
  {
    if t == [] {
      assert t + [c] == [c] && [c][1..] == [];
    } else {
      assert (t + [c])[1..] == t[1..] + [c];
      FoldAppend(t[1..], c, 10 * acc + t[0] - 0x30);
    }
  }

  lemma {:induction false} FoldDigits(m: nat)
    ensures Fold(Digits(m), 0) == m
  {
    if m >= 10 {
      FoldDigits(m / 10);
      FoldAppend(Digits(m / 10), 0x30 + m % 10, 0);
    } else {
      assert [0x30 + m][1..] == [];
    }
  }

  lemma {:induction false} ReadDigits(s: Text, p: nat, t: Text, acc: nat)
    requires Stands(s, p, t) && forall i :: 0 <= i < |t| ==> Digit(t[i])
    requires !Digit(Peek(s, p + |t|))
    ensures DigitsValue(s, p, acc) == Fold(t, acc) && DigitsEnd(s, p) == p + |t|
    decreases |t|
  {
    if t != [] {
      assert Peek(s, p + 0) == t[0];
      forall i | 0 <= i < |t[1..]| ensures Peek(s, p + 1 + i) == t[1..][i] {
        assert Peek(s, p + (1 + i)) == t[1 + i];
      }
      ReadDigits(s, p + 1, t[1..], 10 * acc + t[0] - 0x30);
    }
  }

  lemma ReadNatural(s: Text, p: nat, m: nat)
    requires Stands(s, p, Digits(m)) && !Digit(Peek(s, p + |Digits(m)|))
    ensures Digit(Peek(s, p))
    ensures if Peek(s, p) == ZERO then m == 0 && |Digits(m)| == 1
            else DigitsValue(s, p, 0) == m && DigitsEnd(s, p) == p + |Digits(m)|
  {
    assert Peek(s, p + 0) == Digits(m)[0];
    ReadDigits(s, p, Digits(m), 0);
    FoldDigits(m);
  }

  /** Numbers of 64 bits, signed or unsigned, are read back from their decimal text, and larger ones are not. */
  lemma DecimalBack(s: Text, p: nat, n: int)
    requires Stands(s, p, Decimal(n))
    requires !Digit(Peek(s, p + |Decimal(n)|)) && !Continues(Peek(s, p + |Decimal(n)|))
    ensures ScanWhole(s, p)
            == if -0x8000_0000_0000_0000 <= n <= 0xFFFF_FFFF_FFFF_FFFF then Got(n, p + |Decimal(n)|) else Bad
  {
    assert Peek(s, p + 0) == Decimal(n)[0];
    if n < 0 {
      var t := Digits(-n);
      forall i | 0 <= i < |t| ensures Peek(s, p + 1 + i) == t[i] {
        assert Peek(s, p + (1 + i)) == Decimal(n)[1 + i];
      }
      ReadNatural(s, p + 1, -n);
    } else {
      ReadNatural(s, p, n);
    }
  }

  /** Digits that do not begin with 0 are the text of their value. */
  lemma {:induction false} FoldCanonical(t: Text)
    requires t != [] && t[0] != ZERO && forall i :: 0 <= i < |t| ==> Digit(t[i])
    ensures Fold(t, 0) >= 1 && Digits(Fold(t, 0)) == t
    decreases |t|
  {
    var n := |t| - 1;
    var u, c := t[..n], t[n];
    assert t == u + [c];
    FoldAppend(u, c, 0);
    if u != [] {
      FoldCanonical(u);
    }
  }

  /** The whole number `n` is written from `p` to `q` and not longer.  Minus zero may be written, too. */
  ghost predicate Written(s: Text, p: nat, n: int, q: nat) {
    && ((Stands(s, p, Decimal(n)) && q == p + |Decimal(n)|) || (n == 0 && Stands(s, p, [MINUS, ZERO]) && q == p + 2))
    && !Continues(Peek(s, q)) && (n != 0 ==> !Digit(Peek(s, q)))
  }

  lemma {:induction false} DigitsStand(s: Text, p: nat)
    requires Digit(Peek(s, p)) && Peek(s, p) != ZERO
    ensures var v := DigitsValue(s, p, 0);
            v >= 1 && Stands(s, p, Digits(v)) && DigitsEnd(s, p) == p + |Digits(v)|
  {
    var n := DigitsEnd(s, p) - p;
    var t: Text := seq(n, i requires 0 <= i < n => Peek(s, p + i));
    ReadDigits(s, p, t, 0);
    FoldCanonical(t);
  }

  /** The scanner reads `n` up to `q` if and only if that is written there and `n` has 64 bits. */
  lemma {:induction false} ScanWholeIs(s: Text, p: nat, n: int, q: nat)
    ensures ScanWhole(s, p) == Got(n, q)
            <==> Written(s, p, n, q) && -0x8000_0000_0000_0000 <= n <= 0xFFFF_FFFF_FFFF_FFFF
  {
    if ScanWhole(s, p) == Got(n, q) {
      ScannedIsWritten(s, p, n, q);
    }
    if Written(s, p, n, q) {
      WrittenIsScanned(s, p, n, q);
    }
  }

  lemma {:induction false} WrittenIsScanned(s: Text, p: nat, n: int, q: nat)
    requires Written(s, p, n, q)
    ensures ScanWhole(s, p) == if -0x8000_0000_0000_0000 <= n <= 0xFFFF_FFFF_FFFF_FFFF then Got(n, q) else Bad
  {
    if n != 0 {
      DecimalBack(s, p, n);
    } else {
      ZeroBack(s, p, q);
    }
  }

  lemma {:induction false} ZeroBack(s: Text, p: nat, q: nat)
    requires Written(s, p, 0, q)
    ensures ScanWhole(s, p) == Got(0, q)
  {
    var zero, minusZero := [ZERO], [MINUS, ZERO];
    assert Decimal(0) == zero;
    if Stands(s, p, zero) {
      assert Peek(s, p + 0) == zero[0];
    }
    if Stands(s, p, minusZero) {
      assert Peek(s, p + 0) == minusZero[0] && Peek(s, p + 1) == minusZero[1];
    }
  }

  lemma {:induction false} ScannedIsWritten(s: Text, p: nat, n: int, q: nat)
    requires ScanWhole(s, p) == Got(n, q)
    ensures Written(s, p, n, q) && -0x8000_0000_0000_0000 <= n <= 0xFFFF_FFFF_FFFF_FFFF
  {
    var minus := Peek(s, p) == MINUS;
    var d := if minus then p + 1 else p;
    if Peek(s, d) != ZERO {
      DigitsStand(s, d);
      if minus {
        MinusStands(s, p, Digits(-n));
      }
    }
  }

  lemma MinusStands(s: Text, p: nat, t: Text)
    requires Peek(s, p) == MINUS && Stands(s, p + 1, t)
    ensures Stands(s, p, [MINUS] + t)
  {
    forall i | 0 <= i < |[MINUS] + t| ensures Peek(s, p + i) == ([MINUS] + t)[i] {
      if i > 0 {
        assert Peek(s, p + 1 + (i - 1)) == t[i - 1];
      }
    }
  }

  /** The lexical layer of the source, for texts whose numbers are whole. */
  function WholeLexer(s: Text, comments: bool): (lx: Lexer) {
    Rapid(s, comments, (q: nat) => ScanWhole(s, q))
  }

  /** The scanner of whole numbers obeys the law assumed of number scanners. */
  lemma WholeLaw(s: Text, comments: bool, p: nat)
    ensures NumberLaw(WholeLexer(s, comments), p)
  {
  }
}
