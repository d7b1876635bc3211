/** Machine words as bounded integers: bytes, 32-bit words, exclusive-or and little-endian layout. */
module Words {
  type byte = x: nat | x < 0x100

  type word = x: nat | x < 0x1_0000_0000

  const ONES: word := 0xFFFF_FFFF

  type int32 = v: int | -0x8000_0000 <= v < 0x8000_0000

  /** Two's complement: the number a bit pattern stands for. */
  function Signed(w: word): int32 { if w < 0x8000_0000 then w else w - 0x1_0000_0000 }

  /** Conversion of any integer to 32 signed bits. */
  function ToInt32(v: int): (r: int32)
    ensures -0x8000_0000 <= v < 0x8000_0000 ==> r == v
  {
    Signed(v % 0x1_0000_0000)
  }

  /** Exclusive-or of two unsigned integers, bit by bit from the low end. */
  function Xor(a: nat, b: nat): nat
    decreases a + b
  {
    if a == 0 && b == 0 then 0 else Differ(a % 2, b % 2) + 2 * Xor(a / 2, b / 2)
  }

  function Differ(x: nat, y: nat): nat {
    if x == y then 0 else 1
  }

  lemma Halving(r: nat, q: nat)
    requires r < 2
    ensures (r + 2 * q) % 2 == r && (r + 2 * q) / 2 == q
  {}

  lemma SameHalves(x: nat, y: nat)
    requires x / 2 == y / 2 && x % 2 == y % 2
    ensures x == y
  {}

  lemma {:induction false} XorHalf(a: nat, b: nat)
    ensures Xor(a, b) % 2 == Differ(a % 2, b % 2)
    ensures Xor(a, b) / 2 == Xor(a / 2, b / 2)
  {
    Halving(Differ(a % 2, b % 2), Xor(a / 2, b / 2));
  }

  lemma {:induction false} XorCommutes(a: nat, b: nat)
    ensures Xor(a, b) == Xor(b, a)
    decreases a + b
  {
    if a != 0 || b != 0 {
      XorCommutes(a / 2, b / 2);
    }
  }

  lemma {:induction false} XorAssociates(a: nat, b: nat, c: nat)
    ensures Xor(Xor(a, b), c) == Xor(a, Xor(b, c))
    decreases a + b + c
  {
    if a != 0 || b != 0 || c != 0 {
      var l, r := Xor(Xor(a, b), c), Xor(a, Xor(b, c));
      XorHalf(a, b);
      XorHalf(b, c);
      XorHalf(Xor(a, b), c);
      XorHalf(a, Xor(b, c));
      assert l / 2 == r / 2 by {
        XorAssociates(a / 2, b / 2, c / 2);
      }
      assert l % 2 == r % 2;
      SameHalves(l, r);
    }
  }

  lemma {:induction false} XorZero(a: nat)
    ensures Xor(a, 0) == a && Xor(0, a) == a
  {
    if a != 0 {
      XorZero(a / 2);
    }
  }

  lemma {:induction false} XorSelf(a: nat)
    ensures Xor(a, a) == 0
  {
    if a != 0 {
      XorSelf(a / 2);
    }
  }

  lemma {:induction false} XorIsZero(a: nat, b: nat)
    ensures Xor(a, b) == 0 <==> a == b
    decreases a + b
  {
    if a != 0 || b != 0 {
      XorIsZero(a / 2, b / 2);
    }
  }

  /** Masking twice with the same word gives back the original. */
  lemma XorCancels(a: nat, p: nat)
    ensures Xor(Xor(a, p), p) == a && Xor(p, Xor(p, a)) == a
  {
    XorAssociates(a, p, p);
    XorAssociates(p, p, a);
    XorSelf(p);
    XorZero(a);
  }

  /** (a ^ p) ^ (b ^ q) == (a ^ b) ^ (p ^ q). */
  lemma XorInterchange(a: nat, p: nat, b: nat, q: nat)
    ensures Xor(Xor(a, p), Xor(b, q)) == Xor(Xor(a, b), Xor(p, q))
  {
    XorAssociates(Xor(a, p), b, q);
    XorAssociates(a, p, b);
    XorCommutes(p, b);
    XorAssociates(a, b, p);
    XorAssociates(Xor(a, b), p, q);
  }

  /** Power of two. */
  function Pow2(n: nat): (p: nat)
    ensures p > 0
  {
    if n == 0 then 1 else 2 * Pow2(n - 1)
  }

  lemma {:induction false} XorBound(a: nat, b: nat, n: nat)
    requires a < Pow2(n) && b < Pow2(n)
    ensures Xor(a, b) < Pow2(n)
    decreases n
  {
    if n != 0 {
      XorBound(a / 2, b / 2, n - 1);
    }
  }

  lemma Pow2Values()
    ensures Pow2(8) == 0x100
    ensures Pow2(16) == 0x1_0000
    ensures Pow2(24) == 0x100_0000
    ensures Pow2(31) == 0x8000_0000
    ensures Pow2(32) == 0x1_0000_0000
  {
    assert Pow2(8) == 0x100;
    Pow2Sum(8, 8);
    Pow2Sum(16, 8);
    Pow2Sum(16, 16);
    assert Pow2(32) == 2 * Pow2(31);
  }

  lemma {:induction false} Pow2Grows(m: nat, n: nat)
    requires m <= n
    ensures Pow2(m) <= Pow2(n)
    decreases n
  {
    if m != n {
      Pow2Grows(m, n - 1);
    }
  }

  lemma {:induction false} Pow2Sum(m: nat, n: nat)
    ensures Pow2(m + n) == Pow2(m) * Pow2(n)
  {
    if m == 0 {
      assert Pow2(0) == 1;
    } else {
      Pow2Sum(m - 1, n);
      Pow2Next(m - 1);
      Pow2Next(m + n - 1);
      TwiceProduct(Pow2(m - 1), Pow2(n));
    }
  }

  lemma Pow2Next(n: nat)
    ensures Pow2(n + 1) == 2 * Pow2(n)
  {}

  lemma TwiceProduct(a: nat, b: nat)
    ensures 2 * a * b == 2 * (a * b)
  {}

  /** Exclusive-or of words. */
  function XorW(a: word, b: word): (r: word)
    ensures r == Xor(a, b)
  {
    Pow2Values();
    XorBound(a, b, 32);
    Xor(a, b)
  }

  function XorB(a: byte, b: byte): (r: byte)
    ensures r == Xor(a, b)
  {
    Pow2Values();
    XorBound(a, b, 8);
    Xor(a, b)
  }

  // ---------------------------------------------------------------- hexadecimal digits

  function Above(d: nat, w: nat): nat { if d >= w then 1 else 0 }

  function Below(d: nat, w: nat): nat { if d >= w then d - w else d }

  /** Exclusive-or of the low digits below 2 * w, by comparison with the weight w of the top bit. */
  function XorTop(a: nat, b: nat, w: nat): nat {
    if Above(a, w) == Above(b, w) then 0 else w
  }

  /** Exclusive-or of two hexadecimal digits, written out. */
  function XorDigit(a: nat, b: nat): nat {
    var a2, b2 := Below(a, 8), Below(b, 8);
    var a1, b1 := Below(a2, 4), Below(b2, 4);
    XorTop(a, b, 8) + XorTop(a2, b2, 4) + XorTop(a1, b1, 2) + XorTop(Below(a1, 2), Below(b1, 2), 1)
  }

  lemma XorDouble(a: nat, b: nat, p: nat, q: nat)
    requires p < 2 && q < 2
    ensures Xor(2 * a + p, 2 * b + q) == 2 * Xor(a, b) + Differ(p, q)
  {
    XorHalf(2 * a + p, 2 * b + q);
    Halving(p, a);
    Halving(q, b);
  }

  /** Appends a hexadecimal digit. */
  function Push(a: nat, d: nat): nat { 16 * a + d }

  /** Two bits more on each side. */
  lemma XorPushTwo(a: nat, b: nat, p1: nat, p0: nat, q1: nat, q0: nat, m: nat, n: nat)
    requires p1 < 2 && p0 < 2 && q1 < 2 && q0 < 2
    requires m == 4 * a + 2 * p1 + p0 && n == 4 * b + 2 * q1 + q0
    ensures Xor(m, n) == 4 * Xor(a, b) + 2 * Differ(p1, q1) + Differ(p0, q0)
  {
    hide Xor;
    XorDouble(a, b, p1, q1);
    XorDouble(2 * a + p1, 2 * b + q1, p0, q0);
  }

  lemma XorPush(a: nat, b: nat, d: nat, e: nat)
    requires d < 16 && e < 16
    ensures Xor(Push(a, d), Push(b, e)) == Push(Xor(a, b), XorDigit(d, e))
  {
    hide Xor, Above, Below, Differ, XorDigit;
    var d2, e2 := Below(d, 8), Below(e, 8);
    var d1, e1 := Below(d2, 4), Below(e2, 4);
    var a2, b2 := 4 * a + 2 * Above(d, 8) + Above(d2, 4), 4 * b + 2 * Above(e, 8) + Above(e2, 4);
    DigitBits(a, d);
    DigitBits(b, e);
    XorPushTwo(a, b, Above(d, 8), Above(d2, 4), Above(e, 8), Above(e2, 4), a2, b2);
    XorPushTwo(a2, b2, Above(d1, 2), Below(d1, 2), Above(e1, 2), Below(e1, 2), Push(a, d), Push(b, e));
    XorDigitBits(d, e);
  }

  /** A digit is pushed as its four bits, two at a time. */
  lemma DigitBits(a: nat, d: nat)
    requires d < 16
    ensures var d2 := Below(d, 8);
            var d1 := Below(d2, 4);
            && Above(d, 8) < 2 && Above(d2, 4) < 2 && Above(d1, 2) < 2 && Below(d1, 2) < 2
            && 4 * (4 * a + 2 * Above(d, 8) + Above(d2, 4)) + 2 * Above(d1, 2) + Below(d1, 2) == Push(a, d)
  {}

  lemma XorDigitBits(d: nat, e: nat)
    requires d < 16 && e < 16
    ensures var d2, e2 := Below(d, 8), Below(e, 8);
            var d1, e1 := Below(d2, 4), Below(e2, 4);
            XorDigit(d, e) == 4 * (2 * Differ(Above(d, 8), Above(e, 8)) + Differ(Above(d2, 4), Above(e2, 4)))
                              + 2 * Differ(Above(d1, 2), Above(e1, 2)) + Differ(Below(d1, 2), Below(e1, 2))
  {}

  predicate Digits(d3: nat, d2: nat, d1: nat, d0: nat) {
    d3 < 16 && d2 < 16 && d1 < 16 && d0 < 16
  }

  function Hex(d7: nat, d6: nat, d5: nat, d4: nat, d3: nat, d2: nat, d1: nat, d0: nat): nat {
    Push(Push(Push(Push(Push(Push(Push(Push(0, d7), d6), d5), d4), d3), d2), d1), d0)
  }

  /** Exclusive-or of eight-digit words works digit by digit. */
  lemma XorHex(a7: nat, a6: nat, a5: nat, a4: nat, a3: nat, a2: nat, a1: nat, a0: nat,
               b7: nat, b6: nat, b5: nat, b4: nat, b3: nat, b2: nat, b1: nat, b0: nat)
    requires Digits(a7, a6, a5, a4) && Digits(a3, a2, a1, a0)
    requires Digits(b7, b6, b5, b4) && Digits(b3, b2, b1, b0)
    ensures Xor(Hex(a7, a6, a5, a4, a3, a2, a1, a0), Hex(b7, b6, b5, b4, b3, b2, b1, b0))
         == Hex(XorDigit(a7, b7), XorDigit(a6, b6), XorDigit(a5, b5), XorDigit(a4, b4),
                XorDigit(a3, b3), XorDigit(a2, b2), XorDigit(a1, b1), XorDigit(a0, b0))
  {
    assert Xor(0, 0) == 0;
    hide Xor, XorDigit, Push;
    var x7, y7 := Push(0, a7), Push(0, b7);
    var x6, y6 := Push(x7, a6), Push(y7, b6);
    var x5, y5 := Push(x6, a5), Push(y6, b5);
    var x4, y4 := Push(x5, a4), Push(y5, b4);
    var x3, y3 := Push(x4, a3), Push(y4, b3);
    var x2, y2 := Push(x3, a2), Push(y3, b2);
    var x1, y1 := Push(x2, a1), Push(y2, b1);
    XorPush(0, 0, a7, b7);
    XorPush(x7, y7, a6, b6);
    XorPush(x6, y6, a5, b5);
    XorPush(x5, y5, a4, b4);
    XorPush(x4, y4, a3, b3);
    XorPush(x3, y3, a2, b2);
    XorPush(x2, y2, a1, b1);
    XorPush(x1, y1, a0, b0);
  }

  /** h << k. */
  function Shl(h: nat, k: nat): (r: nat)
  {
    if k == 0 then h else 2 * Shl(h, k - 1)
  }

  lemma {:induction false} ShlSum(h: nat, m: nat, n: nat)
    ensures Shl(h, m + n) == Shl(Shl(h, m), n)
    decreases n
  {
    if n != 0 {
      ShlSum(h, m, n - 1);
    }
  }

  lemma ShlValues(h: nat)
    ensures Shl(h, 1) == 2 * h && Shl(h, 4) == 0x10 * h && Shl(h, 8) == 0x100 * h
    ensures Shl(h, 16) == 0x1_0000 * h && Shl(h, 24) == 0x100_0000 * h && Shl(h, 31) == 0x8000_0000 * h
  {
    ShlOne(h);
    ShlFour(h);
    ShlFour(0x10 * h);
    ShlSum(h, 4, 4);
    ShlEight(0x100 * h);
    ShlSum(h, 8, 8);
    ShlEight(0x1_0000 * h);
    ShlSum(h, 16, 8);
    ShlFour(0x100_0000 * h);
    ShlSum(h, 24, 4);
    ShlThree(0x1000_0000 * h);
    ShlSum(h, 28, 3);
  }

  lemma ShlOne(h: nat)
    ensures Shl(h, 1) == 2 * h
  {}

  lemma ShlFour(h: nat)
    ensures Shl(h, 4) == 0x10 * h
  {
    ShlThree(h);
    ShlSum(h, 3, 1);
    ShlOne(8 * h);
  }

  lemma ShlThree(h: nat)
    ensures Shl(h, 3) == 8 * h
  {
    ShlOne(h);
    ShlSum(h, 1, 1);
    ShlOne(2 * h);
    ShlSum(h, 2, 1);
    ShlOne(4 * h);
  }

  lemma ShlEight(h: nat)
    ensures Shl(h, 8) == 0x100 * h
  {
    ShlFour(h);
    ShlFour(0x10 * h);
    ShlSum(h, 4, 4);
  }

  /** Bits written above position k do not meet the bits below it. */
  lemma {:induction false} XorDisjoint(a: nat, h: nat, k: nat)
    requires a < Pow2(k)
    ensures Xor(a, Shl(h, k)) == a + Shl(h, k)
    decreases k
  {
    hide Xor;
    if k == 0 {
      XorZero(h);
    } else {
      var b' := Shl(h, k - 1);
      XorDisjoint(a / 2, h, k - 1);
      XorDouble(a / 2, b', a % 2, 0);
    }
  }

  // ---------------------------------------------------------------- little-endian layout

  /** `v & 0xFF`. */
  function Low(v: nat): (r: byte)
    ensures r <= v
  {
    v % 0x100
  }

  /** `v >> 8`. */
  function Up(v: nat): nat { v / 0x100 }

  /** lo + (hi << 8). */
  function Le16(lo: byte, hi: byte): nat {
    var h: nat := hi;
    lo + 0x100 * h
  }

  lemma Le16RoundTrip(n: nat)
    requires n < 0x1_0000
    ensures Le16(Low(n), Low(Up(n))) == n
  {}

  /** The four bytes of a word, `(w >> 8 * k) & 0xFF` for k = 0 to 3. */
  function Le32(w: word): (s: seq<byte>)
    ensures |s| == 4
  {
    [Low(w), Low(Up(w)), Low(Up(Up(w))), Low(Up(Up(Up(w))))]
  }

  function FromLe32(s: seq<byte>): word
    requires |s| == 4
  {
    var b0: nat, b1: nat, b2: nat, b3: nat := s[0], s[1], s[2], s[3];
    b0 + 0x100 * (b1 + 0x100 * (b2 + 0x100 * b3))
  }

  lemma Le32RoundTrip(w: word)
    ensures FromLe32(Le32(w)) == w
  {}

  /** Bitwise or of two unsigned integers. */
  function Or(a: nat, b: nat): nat
    decreases a + b
  {
    if a == 0 && b == 0 then 0
    else (if a % 2 == 1 || b % 2 == 1 then 1 else 0) + 2 * Or(a / 2, b / 2)
  }

  lemma {:induction false} OrZero(h: nat)
    ensures Or(0, h) == h
  {
    if h != 0 {
      OrZero(h / 2);
    }
  }

  /** Or-ing in bits above position k adds them. */
  lemma {:induction false} OrDisjoint(a: nat, h: nat, k: nat)
    requires a < Pow2(k)
    ensures Or(a, Shl(h, k)) == a + Shl(h, k)
    decreases k
  {
    hide Or;
    if k == 0 {
      OrZero(h);
    } else {
      var b, b' := Shl(h, k), Shl(h, k - 1);
      OrDisjoint(a / 2, h, k - 1);
      OrHalf(a, b);
      Halving(0, b');
      SameHalves(Or(a, b), a + b);
    }
  }

  lemma {:induction false} OrHalf(a: nat, b: nat)
    ensures Or(a, b) / 2 == Or(a / 2, b / 2)
    ensures Or(a, b) % 2 == if a % 2 == 1 || b % 2 == 1 then 1 else 0
  {
    Halving(if a % 2 == 1 || b % 2 == 1 then 1 else 0, Or(a / 2, b / 2));
  }

  lemma {:induction false} OrAssociates(a: nat, b: nat, c: nat)
    ensures Or(Or(a, b), c) == Or(a, Or(b, c))
    decreases a + b + c
  {
    if a != 0 || b != 0 || c != 0 {
      var l, r := Or(Or(a, b), c), Or(a, Or(b, c));
      OrHalf(a, b);
      OrHalf(b, c);
      OrHalf(Or(a, b), c);
      OrHalf(a, Or(b, c));
      assert l / 2 == r / 2 by {
        OrAssociates(a / 2, b / 2, c / 2);
      }
      hide Or;
      SameHalves(l, r);
    }
  }

  lemma {:induction false} OrBound(a: nat, b: nat, n: nat)
    requires a < Pow2(n) && b < Pow2(n)
    ensures Or(a, b) < Pow2(n)
    decreases n
  {
    if n != 0 {
      OrBound(a / 2, b / 2, n - 1);
    }
  }

  /** Bitwise or of words. */
  function OrW(a: word, b: word): (r: word)
    ensures r == Or(a, b)
  {
    Pow2Values();
    OrBound(a, b, 32);
    Or(a, b)
  }

  /** b0 | b1 << 8 | b2 << 16 | b3 << 24. */
  function OrBytes(b0: byte, b1: byte, b2: byte, b3: byte): nat {
    Or(Or(Or(b0, b1 * 0x100), b2 * 0x1_0000), b3 * 0x100_0000)
  }

  lemma OrBytesIsLe32(b0: byte, b1: byte, b2: byte, b3: byte)
    ensures OrBytes(b0, b1, b2, b3) == FromLe32([b0, b1, b2, b3])
  {
    hide Or, Shl;
    Pow2Values();
    ShlValues(b1);
    ShlValues(b2);
    ShlValues(b3);
    OrDisjoint(b0, b1, 8);
    OrDisjoint(b0 + b1 * 0x100, b2, 16);
    OrDisjoint(b0 + b1 * 0x100 + b2 * 0x1_0000, b3, 24);
  }
}
