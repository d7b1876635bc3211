/** The two complements around the register: what they make of a message with its own checksum behind it,
    and of a message with a zero byte in front. */
module CrcResidue {
  import opened Words
  import opened Crc32

  /** Four clocks on a concrete register, read off the nibble table. */
  lemma FourClocks(c: word, y: word)
    requires Xor(c / 16, NIBBLES[c % 16]) == y
    ensures Shifts(4, c) == y
  {
    hide Xor, Shifts;
    XorZero(c);
    XorZero(c % 16);
    NibbleStepIsFourClocks(c, 0);
  }

  lemma HexDigits(d7: nat, d6: nat, d5: nat, d4: nat, d3: nat, d2: nat, d1: nat, d0: nat)
    ensures Hex(d7, d6, d5, d4, d3, d2, d1, d0)
         == 0x1000_0000 * d7 + 0x100_0000 * d6 + 0x10_0000 * d5 + 0x1_0000 * d4
            + 0x1000 * d3 + 0x100 * d2 + 0x10 * d1 + d0
  {}

  lemma Digits0()
    ensures XorDigit(0, 0xb) == 0xb && XorDigit(0xf, 0xd) == 2 && XorDigit(0xf, 0xb) == 4 && XorDigit(0xf, 0xf) == 0
    ensures XorDigit(0xf, 2) == 0xd && XorDigit(0xf, 1) == 0xe && XorDigit(0xf, 0xc) == 3
  {}

  lemma Clocks0()
    ensures Shifts(4, 0xffffffff) == 0xb2420de3
  {
    hide Xor, XorDigit, Hex, Shifts;
    XorHex(0, 0xf, 0xf, 0xf, 0xf, 0xf, 0xf, 0xf,
           0xb, 0xd, 0xb, 0xd, 0xf, 2, 1, 0xc);
    Digits0();
    HexDigits(0, 0xf, 0xf, 0xf, 0xf, 0xf, 0xf, 0xf);
    HexDigits(0xb, 0xd, 0xb, 0xd, 0xf, 2, 1, 0xc);
    HexDigits(0xb, 2, 4, 2, 0, 0xd, 0xe, 3);
    FourClocks(0xffffffff, 0xb2420de3);
  }

  lemma Digits1()
    ensures XorDigit(0, 2) == 2 && XorDigit(0xb, 6) == 0xd && XorDigit(2, 0xd) == 0xf && XorDigit(4, 9) == 0xd
    ensures XorDigit(2, 3) == 1 && XorDigit(0, 0) == 0 && XorDigit(0xd, 0xa) == 7 && XorDigit(0xe, 0xc) == 2
  {}

  lemma Clocks1()
    ensures Shifts(4, 0xb2420de3) == 0x2dfd1072
  {
    hide Xor, XorDigit, Hex, Shifts;
    XorHex(0, 0xb, 2, 4, 2, 0, 0xd, 0xe,
           2, 6, 0xd, 9, 3, 0, 0xa, 0xc);
    Digits1();
    HexDigits(0, 0xb, 2, 4, 2, 0, 0xd, 0xe);
    HexDigits(2, 6, 0xd, 9, 3, 0, 0xa, 0xc);
    HexDigits(2, 0xd, 0xf, 0xd, 1, 0, 7, 2);
    FourClocks(0xb2420de3, 0x2dfd1072);
  }

  lemma Digits2()
    ensures XorDigit(0, 3) == 3 && XorDigit(2, 0xb) == 9 && XorDigit(0xd, 6) == 0xb && XorDigit(0xf, 0xe) == 1
    ensures XorDigit(0xd, 2) == 0xf && XorDigit(1, 0) == 1 && XorDigit(0, 0xc) == 0xc && XorDigit(7, 8) == 0xf
  {}

  lemma Clocks2()
    ensures Shifts(4, 0x2dfd1072) == 0x39b1f1cf
  {
    hide Xor, XorDigit, Hex, Shifts;
    XorHex(0, 2, 0xd, 0xf, 0xd, 1, 0, 7,
           3, 0xb, 6, 0xe, 2, 0, 0xc, 8);
    Digits2();
    HexDigits(0, 2, 0xd, 0xf, 0xd, 1, 0, 7);
    HexDigits(3, 0xb, 6, 0xe, 2, 0, 0xc, 8);
    HexDigits(3, 9, 0xb, 1, 0xf, 1, 0xc, 0xf);
    FourClocks(0x2dfd1072, 0x39b1f1cf);
  }

  lemma Digits3()
    ensures XorDigit(0, 0xb) == 0xb && XorDigit(3, 0xd) == 0xe && XorDigit(9, 0xb) == 2 && XorDigit(0xb, 0xd) == 6
    ensures XorDigit(1, 0xf) == 0xe && XorDigit(0xf, 2) == 0xd && XorDigit(1, 1) == 0 && XorDigit(0xc, 0xc) == 0
  {}

  lemma Clocks3()
    ensures Shifts(4, 0x39b1f1cf) == 0xbe26ed00
  {
    hide Xor, XorDigit, Hex, Shifts;
    XorHex(0, 3, 9, 0xb, 1, 0xf, 1, 0xc,
           0xb, 0xd, 0xb, 0xd, 0xf, 2, 1, 0xc);
    Digits3();
    HexDigits(0, 3, 9, 0xb, 1, 0xf, 1, 0xc);
    HexDigits(0xb, 0xd, 0xb, 0xd, 0xf, 2, 1, 0xc);
    HexDigits(0xb, 0xe, 2, 6, 0xe, 0xd, 0, 0);
    FourClocks(0x39b1f1cf, 0xbe26ed00);
  }

  lemma Clocks4()
    ensures Shifts(4, 0xbe26ed00) == 0xbe26ed0
  {
    hide Xor, Shifts;
    XorZero(0xbe26ed0);
    FourClocks(0xbe26ed00, 0xbe26ed0);
  }

  lemma Clocks5()
    ensures Shifts(4, 0xbe26ed0) == 0xbe26ed
  {
    hide Xor, Shifts;
    XorZero(0xbe26ed);
    FourClocks(0xbe26ed0, 0xbe26ed);
  }

  lemma Digits6()
    ensures XorDigit(0, 8) == 8 && XorDigit(0, 6) == 6 && XorDigit(0, 0xd) == 0xd && XorDigit(0xb, 3) == 8
    ensures XorDigit(0xe, 0xd) == 3 && XorDigit(2, 2) == 0 && XorDigit(6, 0xd) == 0xb && XorDigit(0xe, 4) == 0xa
  {}

  lemma Clocks6()
    ensures Shifts(4, 0xbe26ed) == 0x86d830ba
  {
    hide Xor, XorDigit, Hex, Shifts;
    XorHex(0, 0, 0, 0xb, 0xe, 2, 6, 0xe,
           8, 6, 0xd, 3, 0xd, 2, 0xd, 4);
    Digits6();
    HexDigits(0, 0, 0, 0xb, 0xe, 2, 6, 0xe);
    HexDigits(8, 6, 0xd, 3, 0xd, 2, 0xd, 4);
    HexDigits(8, 6, 0xd, 8, 3, 0, 0xb, 0xa);
    FourClocks(0xbe26ed, 0x86d830ba);
  }

  lemma Digits7()
    ensures XorDigit(0, 0xd) == 0xd && XorDigit(8, 6) == 0xe && XorDigit(6, 0xd) == 0xb && XorDigit(0xd, 6) == 0xb
    ensures XorDigit(8, 0xa) == 2 && XorDigit(3, 3) == 0 && XorDigit(0, 0xe) == 0xe && XorDigit(0xb, 8) == 3
  {}

  lemma Clocks7()
    ensures Shifts(4, 0x86d830ba) == 0xdebb20e3
  {
    hide Xor, XorDigit, Hex, Shifts;
    XorHex(0, 8, 6, 0xd, 8, 3, 0, 0xb,
           0xd, 6, 0xd, 6, 0xa, 3, 0xe, 8);
    Digits7();
    HexDigits(0, 8, 6, 0xd, 8, 3, 0, 0xb);
    HexDigits(0xd, 6, 0xd, 6, 0xa, 3, 0xe, 8);
    HexDigits(0xd, 0xe, 0xb, 0xb, 2, 0, 0xe, 3);
    FourClocks(0x86d830ba, 0xdebb20e3);
  }

  lemma EightClocksOfOnes()
    ensures Shifts(8, ONES) == 0x2dfd1072
  {
    hide Shifts;
    Clocks0();
    Clocks1();
    ShiftsCompose(4, 4, ONES);
  }

  lemma AllClocksOfOnes()
    ensures Shifts(32, ONES) == 0xdebb20e3
  {
    hide Shifts;
    EightClocksOfOnes();
    Clocks2();
    Clocks3();
    Clocks4();
    Clocks5();
    Clocks6();
    Clocks7();
    ShiftsCompose(8, 24, ONES);
    ShiftsCompose(4, 20, 0x2dfd1072);
    ShiftsCompose(4, 16, 0x39b1f1cf);
    ShiftsCompose(4, 12, 0xbe26ed00);
    ShiftsCompose(4, 8, 0xbe26ed0);
    ShiftsCompose(4, 4, 0xbe26ed);
  }

  /** The bits of a number are those of a low part and of what stands above it. */
  lemma {:induction false} BitsOfSum(b: nat, q: nat, n: nat, k: nat)
    requires b < Pow2(n)
    ensures Bits(b + Shl(q, n), n + k) == Bits(b, n) + Bits(q, k)
    decreases n
  {
    hide Bits;
    if n == 0 {
      NoBits(b);
      assert Bits(b, 0) + Bits(q, k) == Bits(q, k);
    } else {
      var s := Shl(q, n - 1);
      HalvesOfSum(b, s);
      BitsOfSum(b / 2, q, n - 1, k);
      BitsNext(b + 2 * s, n - 1 + k);
      BitsNext(b, n - 1);
      Assoc([b % 2 == 1], Bits(b / 2, n - 1), Bits(q, k));
    }
  }

  lemma NoBits(v: nat)
    ensures Bits(v, 0) == []
  {}

  lemma BitsNext(v: nat, n: nat)
    ensures Bits(v, n + 1) == [v % 2 == 1] + Bits(v / 2, n)
  {}

  lemma HalvesOfSum(b: nat, s: nat)
    ensures (b + 2 * s) / 2 == b / 2 + s && (b + 2 * s) % 2 == b % 2
  {}

  lemma Assoc<T>(a: seq<T>, b: seq<T>, c: seq<T>)
    ensures a + b + c == a + (b + c)
  {}

  lemma ByteOfWord(w: nat, k: nat)
    ensures Bits(w, 8 + k) == Bits(Low(w), 8) + Bits(Up(w), k)
  {
    hide Bits;
    Pow2Values();
    ShlEight(Up(w));
    BitsOfSum(Low(w), Up(w), 8, k);
  }

  /** Four bytes, low byte first, are fed as one word. */
  lemma WordBits(w: word)
    ensures MessageBits(Le32(w)) == Bits(w, 32)
  {
    var w1 := Up(w);
    var w2 := Up(w1);
    var w3 := Up(w2);
    BytesInTurn(Low(w), Low(w1), Low(w2), Low(w3));
    hide Bits, MessageBits, Low, Up;
    ByteOfWord(w, 24);
    ByteOfWord(w1, 16);
    ByteOfWord(w2, 8);
    LastByte(w);
  }

  lemma LastByte(w: word)
    ensures Up(Up(Up(w))) == Low(Up(Up(Up(w))))
  {}

  lemma BytesInTurn(a: byte, b: byte, c: byte, d: byte)
    ensures MessageBits([a, b, c, d]) == Bits(a, 8) + (Bits(b, 8) + (Bits(c, 8) + Bits(d, 8)))
  {
    hide Bits, MessageBits;
    FirstByte(a, [b, c, d]);
    FirstByte(b, [c, d]);
    FirstByte(c, [d]);
    FirstByte(d, []);
    assert [a] + [b, c, d] == [a, b, c, d] && [b] + [c, d] == [b, c, d] && [c] + [d] == [c, d] && [d] + [] == [d];
    NoBytes(Bits(d, 8));
  }

  lemma FirstByte(b: byte, s: seq<byte>)
    ensures MessageBits([b] + s) == Bits(b, 8) + MessageBits(s)
  {
    assert ([b] + s)[1..] == s;
  }

  lemma NoBytes(bits: seq<bool>)
    ensures bits + MessageBits([]) == bits
  {}

  /** A message with its own checksum behind it, low byte first, always has the same checksum. */
  lemma Residue(s: seq<byte>)
    ensures Crc(0, s + Le32(Crc(0, s))) == 0x2144DF1C
  {
    hide FeedBits, MessageBits, Xor, Shifts, Le32;
    var r := FeedBits(Not(0), MessageBits(s));
    var c := Crc(0, s);
    MessageBitsConcat(s, Le32(c));
    FeedBitsConcat(Not(0), MessageBits(s), MessageBits(Le32(c)));
    WordBits(c);
    Pow2Values();
    FeedBitsOf(r, c, 32);
    WithComplement(r);
    AllClocksOfOnes();
  }

  lemma WithComplement(r: word)
    ensures Xor(r, Not(r)) == ONES
  {
    hide Xor;
    NotIsXorOnes(r);
    XorAssociates(r, r, ONES);
    XorSelf(r);
    XorZero(ONES);
  }

  /** A zero byte in front is always noticed. */
  lemma LeadingZeroNoticed(s: seq<byte>)
    ensures Crc(0, [0] + s) != Crc(0, s)
  {
    hide FeedBits, MessageBits, Shifts;
    MessageBitsConcat([0], s);
    FeedBitsConcat(Not(0), MessageBits([0]), MessageBits(s));
    ZeroByte();
    if Crc(0, [0] + s) == Crc(0, s) {
      FeedInjective(0x2dfd1072, Not(0), MessageBits(s));
    }
  }

  lemma ZeroByte()
    ensures FeedBits(Not(0), MessageBits([0])) == 0x2dfd1072
  {
    hide FeedBits, MessageBits, Shifts, Xor;
    FeedNext(Not(0), [0], 0);
    assert [0][..1] == [0] && [0][..0] == [];
    NothingFed(Not(0));
    XorZero(Not(0));
    EightClocksOfOnes();
  }

  /** The checksum of one zero byte. */
  lemma CheckValue()
    ensures Crc(0, [0]) == 0xD202EF8D
  {
    hide FeedBits, MessageBits;
    ZeroByte();
  }
}
