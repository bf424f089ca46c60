/** Two 128-bit gas values packed into one 32-byte word: shift, bitwise or, fill. */
module GasWords {
  import opened Wrappers
  import opened Bytes

  /** `|` on non-negative big integers, bit by bit. */
  function BitOr(a: nat, b: nat): nat
    decreases a + b
  {
    if a == 0 then b
    else if b == 0 then a
    else 2 * BitOr(a / 2, b / 2) + (if a % 2 == 1 || b % 2 == 1 then 1 else 0)
  }

  /** `h << m`. */
  function ShiftLeft(h: nat, m: nat): (r: nat)
    ensures h > 0 ==> r > 0
  {
    if m == 0 then h else 2 * ShiftLeft(h, m - 1)
  }

  /** The word for `(high, low)`; `None` where `FillBytes` panics because the
      value needs more than 32 bytes. */
  function PackWord(high: nat, low: nat): Option<Word> {
    var v := BitOr(high * TWO128, low);
    if v < TWO256 then Some(BigEndian(v, 32)) else None
  }

  method PackUint128s(high: nat, low: nat) returns (out: Option<Word>)
    ensures out == PackWord(high, low)
    ensures high < TWO128 && low < TWO128 ==> out == Some(BigEndian(high, 16) + BigEndian(low, 16))
  {
    var hi, lo := high, low;
    hi := hi * TWO128;
    hi := BitOr(hi, lo);
    if hi >= TWO256 {
      out := None;
    } else {
      out := Some(BigEndian(hi, 32));
    }
    if high < TWO128 && low < TWO128 {
      PackedHalves(high, low);
    }
  }

  // ----- bit arithmetic

  lemma OrUnfold(a: nat, b: nat)
    ensures BitOr(a, b) == 2 * BitOr(a / 2, b / 2) + (if a % 2 == 1 || b % 2 == 1 then 1 else 0)
  {
  }

  lemma {:induction false} ShiftIsProduct(h: nat, m: nat)
    ensures ShiftLeft(h, m) == h * ShiftLeft(1, m)
  {
    if m == 0 {
    } else {
      ShiftIsProduct(h, m - 1);
      MulDouble(h, ShiftLeft(1, m - 1));
    }
  }

  /** Or-ing onto a value shifted left by `m` leaves the low `m` bits alone. */
  lemma {:induction false} OrShift(h: nat, q: nat, r: nat, m: nat)
    requires r < ShiftLeft(1, m)
    ensures BitOr(ShiftLeft(h, m), ShiftLeft(q, m) + r) == ShiftLeft(BitOr(h, q), m) + r
  {
    hide BitOr;
    if m == 0 {
    } else {
      var c, d := ShiftLeft(h, m - 1), ShiftLeft(q, m - 1);
      OrShift(h, q, r / 2, m - 1);
      OrDouble(c, 2 * d + r, BitOr(c, d + r / 2));
    }
  }

  lemma OrDouble(c: nat, l: nat, o: nat)
    requires BitOr(c, l / 2) == o
    ensures BitOr(2 * c, l) == 2 * o + l % 2
  {
    OrUnfold(2 * c, l);
  }

  lemma MulDouble(h: nat, p: nat)
    ensures h * (2 * p) == 2 * (h * p)
  {
  }

  /** An or fits in `m` bits exactly when both operands do. */
  lemma {:induction false} OrBound(a: nat, b: nat, m: nat)
    ensures BitOr(a, b) < ShiftLeft(1, m) <==> a < ShiftLeft(1, m) && b < ShiftLeft(1, m)
  {
    if m > 0 {
      OrUnfold(a, b);
      OrBound(a / 2, b / 2, m - 1);
    } else {
      OrUnfold(a, b);
      if a > 0 && b > 0 { OrPositive(a, b); }
    }
  }

  lemma {:induction false} OrPositive(a: nat, b: nat)
    requires a > 0
    ensures BitOr(a, b) > 0
    decreases a
  {
    if b == 0 || a == 1 {
    } else {
      OrPositive(a / 2, b / 2);
    }
  }

  lemma {:induction false} EightBitsAByte(w: nat)
    ensures ShiftLeft(1, 8 * w) == Pow256(w)
  {
    if w == 0 {
    } else {
      var m := 8 * (w - 1);
      EightBitsAByte(w - 1);
      assert ShiftLeft(1, m + 4) == 16 * ShiftLeft(1, m) by { assert ShiftLeft(1, m + 2) == 4 * ShiftLeft(1, m); }
      assert ShiftLeft(1, m + 8) == 16 * ShiftLeft(1, m + 4) by {
        assert ShiftLeft(1, m + 6) == 4 * ShiftLeft(1, m + 4);
      }
    }
  }

  lemma ShiftIs128()
    ensures ShiftLeft(1, 128) == TWO128
  {
    EightBitsAByte(16);
    PowValues();
  }

  // ----- what the word says about its two halves

  lemma PackedValue(h: nat, l: nat)
    ensures BitOr(h * TWO128, l) == BitOr(h, l / TWO128) * TWO128 + l % TWO128
  {
    ShiftIs128();
    var q, r := l / TWO128, l % TWO128;
    OrShift(h, q, r, 128);
    ShiftIsProduct(h, 128);
    ShiftIsProduct(q, 128);
    ShiftIsProduct(BitOr(h, q), 128);
  }

  /** Packing panics exactly when the high half needs more than 128 bits or the
      low half more than 256. */
  lemma PackFits(h: nat, l: nat)
    ensures PackWord(h, l).Some? <==> h < TWO128 && l < TWO256
  {
    PackedValue(h, l);
    ShiftIs128();
    OrBound(h, l / TWO128, 128);
    assert BitOr(h * TWO128, l) < TWO256 <==> BitOr(h, l / TWO128) < TWO128;
  }

  /** In range, the word is the two halves side by side, 16 bytes each. */
  lemma PackedHalves(h: nat, l: nat)
    requires h < TWO128 && l < TWO128
    ensures PackWord(h, l) == Some(BigEndian(h, 16) + BigEndian(l, 16))
  {
    PackFits(h, l);
    PackedValue(h, l);
    assert BitOr(h, 0) == h;
    PowValues();
    WriteParts(h, l, 16, 16);
  }

  lemma SameWordSameValue(h: nat, l: nat, h': nat, l': nat)
    requires PackWord(h, l).Some? && PackWord(h', l').Some?
    ensures PackWord(h, l) == PackWord(h', l') <==> BitOr(h * TWO128, l) == BitOr(h' * TWO128, l')
  {
    var v, v' := BitOr(h * TWO128, l), BitOr(h' * TWO128, l');
    UintWordInjective(v, v');
    FillIsUintWord(v);
    FillIsUintWord(v');
  }

  lemma FillIsUintWord(v: nat)
    requires v < TWO256
    ensures BigEndian(v, 32) == UintWord(v) && v % TWO256 == v
  {
    hide BigEndian;
    SmallRest(v, TWO256);
  }

  /** Exactly which pairs share a word. An overlong low half spills into the high
      half, so the packing is invertible on low halves below 2^128 and not beyond. */
  lemma PackInjective(h: nat, l: nat, h': nat, l': nat)
    requires PackWord(h, l).Some? && PackWord(h', l').Some?
    ensures PackWord(h, l) == PackWord(h', l') <==>
            BitOr(h, l / TWO128) == BitOr(h', l' / TWO128) && l % TWO128 == l' % TWO128
    ensures l < TWO128 && l' < TWO128 ==> (PackWord(h, l) == PackWord(h', l') <==> h == h' && l == l')
  {
    SameWordSameValue(h, l, h', l');
    PackedValue(h, l);
    PackedValue(h', l');
    OrUnfold(h, 0);
    OrUnfold(h', 0);
  }

  /** One low half of exactly 2^128 already collides with a high half of one. */
  lemma PackSpills()
    ensures PackWord(1, 0).Some? && PackWord(1, 0) == PackWord(0, TWO128)
  {
    PackFits(1, 0);
    PackFits(0, TWO128);
    PackInjective(1, 0, 0, TWO128);
  }
}
