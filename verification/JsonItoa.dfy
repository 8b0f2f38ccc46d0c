/** Numbers to decimal text, two digits at a time from a table: the fast forms of the writer produce exactly the
    decimal text. */
module JsonItoa {
  import opened JsonGrammar
  import opened JsonNumber

  /** The table of digit pairs: entries `2v` and `2v + 1` are the two digits of `v`. */
  function Lut(i: nat): (c: Byte)
    requires i < 200
  {
    if i % 2 == 0 then 0x30 + i / 2 / 10 else 0x30 + i / 2 % 10
  }

  function Two(v: nat): (t: Text)
    requires v < 100
    ensures t == [0x30 + v / 10, 0x30 + v % 10]
  {
    [Lut(2 * v), Lut(2 * v + 1)]
  }

  function Four(v: nat): (t: Text)
    requires v < 10000
  {
    Two(v / 100) + Two(v % 100)
  }

  function Eight(v: nat): (t: Text)
    requires v < 100000000
  {
    Four(v / 10000) + Four(v % 10000)
  }

  lemma DigitsTwo(m: nat)
    requires m >= 100
    ensures Digits(m) == Digits(m / 100) + Two(m % 100)
  {
    assert Digits(m) == Digits(m / 10) + [0x30 + m % 10];
    assert Digits(m / 10) == Digits(m / 10 / 10) + [0x30 + m / 10 % 10];
    assert m / 10 / 10 == m / 100 && m / 10 % 10 == m % 100 / 10 && m % 10 == m % 100 % 10;
  }

  lemma DigitsFour(m: nat)
    requires m >= 10000
    ensures Digits(m) == Digits(m / 10000) + Four(m % 10000)
  {
    DigitsTwo(m);
    DigitsTwo(m / 100);
    var r := m % 10000;
    assert m / 100 / 100 == m / 10000 && m / 100 % 100 == r / 100 && m % 100 == r % 100;
  }

  lemma DigitsEight(m: nat)
    requires m >= 100000000
    ensures Digits(m) == Digits(m / 100000000) + Eight(m % 100000000)
  {
    DigitsFour(m);
    DigitsFour(m / 10000);
    var r := m % 100000000;
    assert m / 10000 / 10000 == m / 100000000 && m / 10000 % 10000 == r / 10000 && m % 10000 == r % 10000;
  }

  /** Up to four digits, the leading ones only if they count. */
  method Short(v: nat) returns (t: Text)
    requires v < 10000
    ensures t == Digits(v)
  {
    var d1, d2 := v / 100 * 2, v % 100 * 2;
    t := [];
    if v >= 1000 {
      t := t + [Lut(d1)];
    }
    if v >= 100 {
      t := t + [Lut(d1 + 1)];
    }
    if v >= 10 {
      t := t + [Lut(d2)];
    }
    t := t + [Lut(d2 + 1)];
    ShortDigits(v);
  }

  lemma ShortDigits(v: nat)
    requires v < 10000
    ensures var d1, d2 := v / 100 * 2, v % 100 * 2;
            Digits(v) == if v < 10 then [Lut(d2 + 1)]
                         else if v < 100 then [Lut(d2), Lut(d2 + 1)]
                         else if v < 1000 then [Lut(d1 + 1), Lut(d2), Lut(d2 + 1)]
                         else [Lut(d1), Lut(d1 + 1), Lut(d2), Lut(d2 + 1)]
  {
    if v < 100 {
      UpToTwo(v);
    } else {
      DigitsTwo(v);
      UpToTwo(v / 100);
    }
  }

  lemma UpToTwo(v: nat)
    requires v < 100
    ensures Digits(v) == if v < 10 then [Lut(2 * v + 1)] else Two(v)
  {
    if v >= 10 {
      assert Digits(v) == Digits(v / 10) + [0x30 + v % 10];
    }
  }

  /** Up to eight digits. */
  method Medium(v: nat) returns (t: Text)
    requires v < 100000000
    ensures t == Digits(v)
  {
    if v < 10000 {
      t := Short(v);
    } else {
      t := Short(v / 10000);
      DigitsFour(v);
      t := t + Four(v % 10000);
    }
  }

  /** u32toa */
  method U32toa(v: nat) returns (t: Text)
    requires v < 0x1_0000_0000
    ensures t == Digits(v)
  {
    if v < 100000000 {
      t := Medium(v);
    } else {
      var a := v / 100000000;
      t := if a >= 10 then Two(a) else [0x30 + a];
      DigitsEight(v);
      t := t + Eight(v % 100000000);
    }
  }

  /** u64toa */
  method U64toa(v: nat) returns (t: Text)
    requires v < 0x1_0000_0000_0000_0000
    ensures t == Digits(v)
  {
    if v < 100000000 {
      t := Medium(v);
    } else if v < 10000000000000000 {
      t := Medium(v / 100000000);
      DigitsEight(v);
      t := t + Eight(v % 100000000);
    } else {
      var a, r := v / 10000000000000000, v % 10000000000000000;
      t := Short(a);
      LongDigits(v);
      t := t + Eight(r / 100000000) + Eight(r % 100000000);
    }
  }

  lemma LongDigits(v: nat)
    requires v >= 10000000000000000
    ensures var r := v % 10000000000000000;
            Digits(v) == Digits(v / 10000000000000000) + Eight(r / 100000000) + Eight(r % 100000000)
  {
    DigitsEight(v);
    DigitsEight(v / 100000000);
    var r := v % 10000000000000000;
    assert v / 100000000 / 100000000 == v / 10000000000000000;
    assert v / 100000000 % 100000000 == r / 100000000 && v % 100000000 == r % 100000000;
  }

  /** The complement of a word plus one, modulo the word. */
  function Negated(word: nat, u: nat): (m: nat)
    requires 0 < u < word
    ensures m == word - u
  {
    (word - 1 - u + 1) % word
  }

  /** The number as the type that Accept picks for it, printed with the magnitude taken modulo the word. */
  method WriteDecimal(n: Num) returns (t: Text)
    ensures t == Decimal(n)
  {
    if 0 <= n {
      if n < 0x1_0000_0000 {
        t := U32toa(n);
      } else {
        t := U64toa(n);
      }
    } else if -0x8000_0000 <= n {
      var m := U32toa(Negated(0x1_0000_0000, 0x1_0000_0000 + n));
      t := [MINUS] + m;
    } else {
      var m := U64toa(Negated(0x1_0000_0000_0000_0000, 0x1_0000_0000_0000_0000 + n));
      t := [MINUS] + m;
    }
  }
}
