/** The reflected CRC-32 of section 8 of RFC 1952, in the three forms the repository uses:
    one message bit at a time (the reference), through a 16-entry nibble table, and through a
    generated 256-entry byte table. */
module Crc32 {
  import opened Words

  const POLYNOMIAL: word := 0xEDB8_8320

  /** One clock of the shift register. */
  function Shift(c: word): word {
    if c % 2 == 1 then XorW(c / 2, POLYNOMIAL) else c / 2
  }

  function Shifts(n: nat, c: word): word {
    if n == 0 then c else Shifts(n - 1, Shift(c))
  }

  // ---------------------------------------------------------------- reference definition

  /** The low n bits of v, least significant first. */
  function Bits(v: nat, n: nat): (bits: seq<bool>)
    ensures |bits| == n
  {
    if n == 0 then [] else [v % 2 == 1] + Bits(v / 2, n - 1)
  }

  function MessageBits(s: seq<byte>): (bits: seq<bool>)
    ensures |bits| == 8 * |s|
  {
    if s == [] then [] else Bits(s[0], 8) + MessageBits(s[1..])
  }

  function Num(bit: bool): word { if bit then 1 else 0 }

  /** Feeds message bits into the register, one clock each. */
  function FeedBits(c: word, bits: seq<bool>): word
    decreases |bits|
  {
    if bits == [] then c else FeedBits(Shift(XorW(c, Num(bits[0]))), bits[1..])
  }

  function Not(w: word): word { ONES - w }

  /** The checksum: register preset and result both complemented. */
  function Crc(crc: word, s: seq<byte>): word {
    Not(FeedBits(Not(crc), MessageBits(s)))
  }

  // ---------------------------------------------------------------- laws of the register

  lemma FoldSums(x: nat, y: nat, p: nat)
    ensures Xor(Xor(x, p), Xor(y, p)) == Xor(x, y)
    ensures Xor(Xor(x, p), y) == Xor(Xor(x, y), p)
    ensures Xor(x, Xor(y, p)) == Xor(Xor(x, y), p)
  {
    hide Xor;
    XorInterchange(x, p, y, p);
    XorSelf(p);
    XorZero(Xor(x, y));
    XorAssociates(x, y, p);
    XorAssociates(x, p, y);
    XorCommutes(p, y);
  }

  /** The register is linear: clocking a sum is the sum of the clocked registers. */
  lemma ShiftLinear(a: word, b: word)
    ensures Shift(XorW(a, b)) == Xor(Shift(a), Shift(b))
  {
    hide Xor;
    XorHalf(a, b);
    FoldSums(a / 2, b / 2, POLYNOMIAL);
  }

  lemma {:induction false} ShiftsLinear(n: nat, a: word, b: word)
    ensures Shifts(n, XorW(a, b)) == Xor(Shifts(n, a), Shifts(n, b))
    decreases n
  {
    if n != 0 {
      ShiftLinear(a, b);
      ShiftsLinear(n - 1, Shift(a), Shift(b));
    }
  }

  /** Bits above the lowest n pass through n clocks untouched. */
  lemma {:induction false} ShiftsHigh(n: nat, h: nat)
    requires Shl(h, n) <= ONES
    ensures h <= ONES
    ensures Shifts(n, Shl(h, n)) == h
    decreases n
  {
    if n != 0 {
      assert Shift(Shl(h, n)) == Shl(h, n - 1);
      ShiftsHigh(n - 1, h);
    }
  }

  lemma ShiftsSplit(n: nat, a: word, h: nat)
    requires Shl(h, n) <= ONES
    ensures h <= ONES
    ensures Shifts(n, XorW(a, Shl(h, n))) == Xor(Shifts(n, a), h)
  {
    ShiftsHigh(n, h);
    ShiftsLinear(n, a, Shl(h, n));
  }

  lemma {:induction false} ShiftsCompose(m: nat, n: nat, c: word)
    ensures Shifts(m + n, c) == Shifts(n, Shifts(m, c))
    decreases m
  {
    if m != 0 {
      ShiftsCompose(m - 1, n, Shift(c));
    }
  }

  /** Feeding the n low bits of v one by one is n clocks of the register with v mixed in at once. */
  lemma {:induction false} FeedBitsOf(c: word, v: word, n: nat)
    requires v < Pow2(n)
    ensures FeedBits(c, Bits(v, n)) == Shifts(n, XorW(c, v))
    decreases n
  {
    if n == 0 {
      XorZero(c);
    } else {
      var mixed := XorW(c, Num(v % 2 == 1));
      assert Bits(v, n)[1..] == Bits(v / 2, n - 1);
      FeedBitsOf(Shift(mixed), v / 2, n - 1);
      MixLowBit(c, v);
    }
  }

  lemma MixLowBit(c: word, v: word)
    ensures Shift(XorW(c, v)) == Xor(Shift(XorW(c, Num(v % 2 == 1))), v / 2)
  {
    hide Xor;
    var low, high := Num(v % 2 == 1), 2 * (v / 2);
    assert Shift(high) == v / 2;
    ShiftLinear(XorW(c, low), high);
    assert Pow2(1) == 2;
    ShlOne(v / 2);
    XorDisjoint(low, v / 2, 1);
    XorAssociates(c, low, high);
  }

  lemma {:induction false} FeedBitsConcat(c: word, p: seq<bool>, q: seq<bool>)
    ensures FeedBits(c, p + q) == FeedBits(FeedBits(c, p), q)
    decreases |p|
  {
    if p == [] {
      assert p + q == q;
    } else {
      assert (p + q)[1..] == p[1..] + q;
      FeedBitsConcat(Shift(XorW(c, Num(p[0]))), p[1..], q);
    }
  }

  lemma {:induction false} MessageBitsConcat(s: seq<byte>, t: seq<byte>)
    ensures MessageBits(s + t) == MessageBits(s) + MessageBits(t)
  {
    if s == [] {
      assert s + t == t;
    } else {
      assert (s + t)[1..] == s[1..] + t;
      MessageBitsConcat(s[1..], t);
      assert Bits(s[0], 8) + (MessageBits(s[1..]) + MessageBits(t)) == MessageBits(s) + MessageBits(t);
    }
  }

  /** Checksumming can stop and resume anywhere. */
  lemma Chaining(crc: word, a: seq<byte>, b: seq<byte>)
    ensures Crc(Crc(crc, a), b) == Crc(crc, a + b)
  {
    MessageBitsConcat(a, b);
    FeedBitsConcat(Not(crc), MessageBits(a), MessageBits(b));
  }

  // ---------------------------------------------------------------- table-driven steps

  /** A table look-up replaces n clocks: the register's high part is shifted down and its low n
      bits, mixed with v, select the entry. */
  lemma TableStep(c: word, low: word, high: word, v: word, n: nat)
    requires c == low + Shl(high, n)
    requires low < Pow2(n) && v < Pow2(n)
    ensures Xor(high, Shifts(n, XorW(low, v))) == Shifts(n, XorW(c, v))
  {
    hide Xor, Shifts, Shl;
    var top := Shl(high, n);
    XorDisjoint(low, high, n);
    XorAssociates(low, top, v);
    XorCommutes(top, v);
    XorAssociates(low, v, top);
    ShiftsSplit(n, XorW(low, v), high);
    XorCommutes(high, Shifts(n, XorW(low, v)));
  }

  const NIBBLES: seq<word> :=
    [0, 0x1db71064, 0x3b6e20c8, 0x26d930ac, 0x76dc4190, 0x6b6b51f4, 0x4db26158, 0x5005713c,
     0xedb88320, 0xf00f9344, 0xd6d6a3e8, 0xcb61b38c, 0x9b64c2b0, 0x86d3d2d4, 0xa00ae278, 0xbdbdf21c]

  lemma NibbleBasis()
    ensures Shifts(4, 1) == 0x1db71064 && Shifts(4, 2) == 0x3b6e20c8
    ensures Shifts(4, 4) == 0x76dc4190 && Shifts(4, 8) == 0xedb88320
  {
    hide Xor, Shifts;
    XorZero(POLYNOMIAL);
    assert Shift(1) == POLYNOMIAL;
    assert Shift(POLYNOMIAL) == 0x76dc4190 && Shift(0x76dc4190) == 0x3b6e20c8 && Shift(0x3b6e20c8) == 0x1db71064;
    assert Shift(8) == 4 && Shift(4) == 2 && Shift(2) == 1;
    ShiftsFour(1);
    ShiftsFour(2);
    ShiftsFour(4);
    ShiftsFour(8);
  }

  lemma ShiftsFour(c: word)
    ensures Shifts(4, c) == Shift(Shift(Shift(Shift(c))))
  {
    hide Shift;
    assert Shifts(4, c) == Shifts(3, Shift(c));
    assert Shifts(3, Shift(c)) == Shifts(2, Shift(Shift(c)));
    assert Shifts(2, Shift(Shift(c))) == Shifts(1, Shift(Shift(Shift(c))));
  }

  /** An entry for i ^ j is the exclusive-or of the entries for i and j. */
  lemma NibbleSum(i: word, j: word, k: word)
    requires k == Xor(i, j)
    ensures Shifts(4, k) == Xor(Shifts(4, i), Shifts(4, j))
  {
    ShiftsLinear(4, i, j);
  }

  lemma SmallSums()
    ensures Xor(1, 2) == 3 && Xor(1, 4) == 5 && Xor(2, 4) == 6 && Xor(3, 4) == 7
    ensures Xor(1, 8) == 9 && Xor(2, 8) == 10 && Xor(3, 8) == 11 && Xor(4, 8) == 12
    ensures Xor(5, 8) == 13 && Xor(6, 8) == 14 && Xor(7, 8) == 15
  {
    assert Shl(1, 1) == 2 && Shl(1, 2) == 4 && Shl(1, 3) == 8;
    XorDisjoint(1, 1, 1);
    forall i: nat | i < 4 ensures Xor(i, 4) == i + 4 { XorDisjoint(i, 1, 2); }
    forall i: nat | i < 8 ensures Xor(i, 8) == i + 8 { XorDisjoint(i, 1, 3); }
  }

  lemma Sum3() ensures Xor(0x1db71064, 0x3b6e20c8) == 0x26d930ac {
    hide Xor;
    XorHex(1, 0xd, 0xb, 7, 1, 0, 6, 4, 3, 0xb, 6, 0xe, 2, 0, 0xc, 8);
  }

  lemma Sum5() ensures Xor(0x1db71064, 0x76dc4190) == 0x6b6b51f4 {
    hide Xor;
    XorHex(1, 0xd, 0xb, 7, 1, 0, 6, 4, 7, 6, 0xd, 0xc, 4, 1, 9, 0);
  }

  lemma Sum6() ensures Xor(0x3b6e20c8, 0x76dc4190) == 0x4db26158 {
    hide Xor;
    XorHex(3, 0xb, 6, 0xe, 2, 0, 0xc, 8, 7, 6, 0xd, 0xc, 4, 1, 9, 0);
  }

  lemma Sum7() ensures Xor(0x26d930ac, 0x76dc4190) == 0x5005713c {
    hide Xor;
    XorHex(2, 6, 0xd, 9, 3, 0, 0xa, 0xc, 7, 6, 0xd, 0xc, 4, 1, 9, 0);
  }

  lemma Sum9() ensures Xor(0x1db71064, 0xedb88320) == 0xf00f9344 {
    hide Xor;
    XorHex(1, 0xd, 0xb, 7, 1, 0, 6, 4, 0xe, 0xd, 0xb, 8, 8, 3, 2, 0);
  }

  lemma Sum10() ensures Xor(0x3b6e20c8, 0xedb88320) == 0xd6d6a3e8 {
    hide Xor;
    XorHex(3, 0xb, 6, 0xe, 2, 0, 0xc, 8, 0xe, 0xd, 0xb, 8, 8, 3, 2, 0);
  }

  lemma Sum11() ensures Xor(0x26d930ac, 0xedb88320) == 0xcb61b38c {
    hide Xor;
    XorHex(2, 6, 0xd, 9, 3, 0, 0xa, 0xc, 0xe, 0xd, 0xb, 8, 8, 3, 2, 0);
  }

  lemma Sum12() ensures Xor(0x76dc4190, 0xedb88320) == 0x9b64c2b0 {
    hide Xor;
    XorHex(7, 6, 0xd, 0xc, 4, 1, 9, 0, 0xe, 0xd, 0xb, 8, 8, 3, 2, 0);
  }

  lemma Sum13() ensures Xor(0x6b6b51f4, 0xedb88320) == 0x86d3d2d4 {
    hide Xor;
    XorHex(6, 0xb, 6, 0xb, 5, 1, 0xf, 4, 0xe, 0xd, 0xb, 8, 8, 3, 2, 0);
  }

  lemma Sum14() ensures Xor(0x4db26158, 0xedb88320) == 0xa00ae278 {
    hide Xor;
    XorHex(4, 0xd, 0xb, 2, 6, 1, 5, 8, 0xe, 0xd, 0xb, 8, 8, 3, 2, 0);
  }

  lemma Sum15() ensures Xor(0x5005713c, 0xedb88320) == 0xbdbdf21c {
    hide Xor;
    XorHex(5, 0, 0, 5, 7, 1, 3, 0xc, 0xe, 0xd, 0xb, 8, 8, 3, 2, 0);
  }

  lemma NibblesBelow8()
    ensures Shifts(4, 3) == 0x26d930ac
    ensures Shifts(4, 5) == 0x6b6b51f4
    ensures Shifts(4, 6) == 0x4db26158
    ensures Shifts(4, 7) == 0x5005713c
  {
    hide Xor, Shifts;
    NibbleBasis();
    SmallSums();
    NibbleSum(1, 2, 3);
    Sum3();
    NibbleSum(1, 4, 5);
    Sum5();
    NibbleSum(2, 4, 6);
    Sum6();
    NibbleSum(3, 4, 7);
    Sum7();
  }

  lemma NibblesFrom8()
    ensures Shifts(4, 9) == 0xf00f9344
    ensures Shifts(4, 10) == 0xd6d6a3e8
    ensures Shifts(4, 11) == 0xcb61b38c
    ensures Shifts(4, 12) == 0x9b64c2b0
    ensures Shifts(4, 13) == 0x86d3d2d4
    ensures Shifts(4, 14) == 0xa00ae278
    ensures Shifts(4, 15) == 0xbdbdf21c
  {
    hide Xor, Shifts;
    NibbleBasis();
    SmallSums();
    NibblesBelow8();
    NibbleSum(1, 8, 9);
    Sum9();
    NibbleSum(2, 8, 10);
    Sum10();
    NibbleSum(3, 8, 11);
    Sum11();
    NibbleSum(4, 8, 12);
    Sum12();
    NibbleSum(5, 8, 13);
    Sum13();
    NibbleSum(6, 8, 14);
    Sum14();
    NibbleSum(7, 8, 15);
    Sum15();
  }

  /** Every constant of the 16-entry table is four clocks of the register on its own index. */
  lemma NibbleTable(i: nat)
    requires i < 16
    ensures NIBBLES[i] == Shifts(4, i)
  {
    hide Shift, Shifts;
    ShiftsHigh(4, 0);
    NibbleBasis();
    NibblesBelow8();
    NibblesFrom8();
    match i {
      case 0 => case 1 => case 2 => case 3 => case 4 => case 5 => case 6 => case 7 =>
      case 8 => case 9 => case 10 => case 11 => case 12 => case 13 => case 14 => case _ => assert i == 15;
    }
  }

  predicate IsByteTable(t: seq<word>) {
    |t| == 256 && forall i: nat :: i < 256 ==> t[i] == Shifts(8, i)
  }

  /** The register after one more message byte. */
  lemma FeedNext(c: word, s: seq<byte>, i: nat)
    requires i < |s|
    ensures FeedBits(c, MessageBits(s[..i + 1]))
         == Shifts(8, XorW(FeedBits(c, MessageBits(s[..i])), s[i]))
  {
    assert s[..i + 1] == s[..i] + [s[i]];
    MessageBitsConcat(s[..i], [s[i]]);
    assert MessageBits([s[i]]) == Bits(s[i], 8);
    FeedBitsConcat(c, MessageBits(s[..i]), Bits(s[i], 8));
    Pow2Values();
    FeedBitsOf(FeedBits(c, MessageBits(s[..i])), s[i], 8);
  }

  lemma NothingFed(c: word)
    ensures FeedBits(c, MessageBits([])) == c
  {}

  /** The byte-table step: (c >> 8) ^ t[(c & 0xFF) ^ b]. */
  function ByteStep(t: seq<word>, c: word, b: byte): word
    requires |t| == 256
  {
    XorW(c / 0x100, t[XorB(c % 0x100, b)])
  }

  lemma ByteStepIsEightClocks(t: seq<word>, c: word, b: byte)
    requires IsByteTable(t)
    ensures ByteStep(t, c, b) == Shifts(8, XorW(c, b))
  {
    Pow2Values();
    ShlEight(c / 0x100);
    TableStep(c, c % 0x100, c / 0x100, b, 8);
  }

  /** The nibble-table step: (c >> 4) ^ s_crc32[(c & 0xF) ^ v]. */
  function NibbleStep(c: word, v: nat): word
    requires v < 16
  {
    assert Pow2(4) == 16;
    XorBound(c % 16, v, 4);
    XorW(c / 16, NIBBLES[Xor(c % 16, v)])
  }

  lemma NibbleStepIsFourClocks(c: word, v: nat)
    requires v < 16
    ensures NibbleStep(c, v) == Shifts(4, XorW(c, v))
  {
    hide Xor, Shifts;
    assert Pow2(4) == 16;
    XorBound(c % 16, v, 4);
    NibbleTable(Xor(c % 16, v));
    ShlFour(c / 16);
    TableStep(c, c % 16, c / 16, v, 4);
  }

  /** Low nibble first, then high nibble: together one message byte. */
  lemma NibbleStepsAreEightClocks(c: word, b: byte)
    ensures NibbleStep(NibbleStep(c, b % 16), b / 16) == Shifts(8, XorW(c, b))
  {
    hide Xor, Shifts, NibbleStep;
    assert Pow2(4) == 16;
    NibbleStepIsFourClocks(c, b % 16);
    NibbleStepIsFourClocks(NibbleStep(c, b % 16), b / 16);
    ShlFour(b / 16);
    XorDisjoint(b % 16, b / 16, 4);
    XorAssociates(c, b % 16, b / 16 * 16);
    ShiftsSplit(4, XorW(c, b % 16), b / 16);
    ShiftsCompose(4, 4, XorW(c, b));
  }

  lemma NotIsXorOnes(w: word)
    ensures Xor(w, ONES) == Not(w)
  {
    Pow2Values();
    XorOnes(w, 32);
  }

  lemma {:induction false} XorOnes(w: nat, n: nat)
    requires w < Pow2(n)
    ensures Xor(w, Pow2(n) - 1) == Pow2(n) - 1 - w
    decreases n
  {
    hide Xor;
    if n == 0 {
      XorSelf(0);
    } else {
      XorOnes(w / 2, n - 1);
      XorDouble(w / 2, Pow2(n - 1) - 1, w % 2, 1);
    }
  }

  // ---------------------------------------------------------------- the nibble loop

  /** The nibble-table loop, as in the protocol class and, verbatim, in the project-info reader. */
  method Calcrc32(crc: word, ptr: array?<byte>, offset: nat, buf_len: nat) returns (r: word)
    requires ptr != null ==> offset + buf_len <= ptr.Length
    ensures r == if ptr == null then 0 else Crc(crc, ptr[offset..offset + buf_len])
  {
    hide FeedBits, MessageBits, NibbleStep, Shifts;
    var crcu32 := crc;
    if ptr == null {
      return 0;
    }
    crcu32 := Not(crcu32);
    ghost var s := ptr[offset..offset + buf_len];
    var left, p := buf_len, offset;
    NothingFed(Not(crc));
    assert s[..0] == [];
    while left != 0
      invariant 0 <= left <= buf_len && p == offset + (buf_len - left)
      invariant crcu32 == FeedBits(Not(crc), MessageBits(s[..buf_len - left]))
    {
      left := left - 1;
      var b := ptr[p];
      p := p + 1;
      FeedNext(Not(crc), s, buf_len - left - 1);
      NibbleStepsAreEightClocks(crcu32, b);
      crcu32 := NibbleStep(crcu32, b % 16);
      crcu32 := NibbleStep(crcu32, b / 16);
    }
    assert s[..buf_len] == s;
    return Not(crcu32);
  }

  // ---------------------------------------------------------------- burst detection

  /** The integer whose bits, least significant first, are the given ones. */
  function Value(bits: seq<bool>): nat {
    if bits == [] then 0 else Num(bits[0]) + 2 * Value(bits[1..])
  }

  lemma {:induction false} ValueBound(bits: seq<bool>)
    ensures Value(bits) < Pow2(|bits|)
  {
    if bits != [] {
      ValueBound(bits[1..]);
    }
  }

  lemma {:induction false} ValueInjective(d: seq<bool>, e: seq<bool>)
    requires |d| == |e| && Value(d) == Value(e)
    ensures d == e
  {
    if d != [] {
      ValueInjective(d[1..], e[1..]);
      assert d == [d[0]] + d[1..] && e == [e[0]] + e[1..];
    }
  }

  /** With the feedback bit set, the register's top bit is set after the clock. */
  lemma FeedbackReachesTop(z: word)
    requires Shift(z) < 0x8000_0000
    ensures z == 2 * Shift(z)
  {
    if z % 2 == 1 {
      var rest := 0x6DB8_8320;
      Pow2Values();
      ShlValues(1);
      XorDisjoint(rest, 1, 31);
      XorAssociates(z / 2, rest, 0x8000_0000);
      XorBound(z / 2, rest, 31);
      XorDisjoint(Xor(z / 2, rest), 1, 31);
      assert false;
    }
  }

  /** Two registers that meet after at most 32 clocks started apart by exactly what was fed differently. */
  lemma {:induction false} MeetingRegisters(c1: word, c2: word, d1: seq<bool>, d2: seq<bool>)
    requires |d1| == |d2| <= 32
    requires FeedBits(c1, d1) == FeedBits(c2, d2)
    ensures Xor(c1, c2) == Xor(Value(d1), Value(d2))
    decreases |d1|
  {
    if d1 == [] {
      XorSelf(c1);
      XorSelf(0);
    } else {
      hide Xor, Shift, FeedBits, Value, Num;
      FeedFirst(c1, d1);
      FeedFirst(c2, d2);
      var b1, b2 := Num(d1[0]), Num(d2[0]);
      var x, y := XorW(c1, b1), XorW(c2, b2);
      MeetingRegisters(Shift(x), Shift(y), d1[1..], d2[1..]);
      var v1, v2 := Value(d1[1..]), Value(d2[1..]);
      ValueBelowTop(d1[1..]);
      ValueBelowTop(d2[1..]);
      MeetingStep(c1, c2, b1, b2, v1, v2);
    }
  }

  lemma FeedFirst(c: word, bits: seq<bool>)
    requires bits != []
    ensures FeedBits(c, bits) == FeedBits(Shift(XorW(c, Num(bits[0]))), bits[1..])
    ensures Value(bits) == Num(bits[0]) + 2 * Value(bits[1..])
    ensures Num(bits[0]) < 2
  {}

  lemma ValueBelowTop(bits: seq<bool>)
    requires |bits| <= 31
    ensures Value(bits) < 0x8000_0000
  {
    ValueBound(bits);
    Pow2Values();
    Pow2Grows(|bits|, 31);
  }

  lemma MeetingStep(c1: word, c2: word, b1: word, b2: word, v1: nat, v2: nat)
    requires b1 < 2 && b2 < 2 && v1 < 0x8000_0000 && v2 < 0x8000_0000
    requires Xor(Shift(XorW(c1, b1)), Shift(XorW(c2, b2))) == Xor(v1, v2)
    ensures Xor(c1, c2) == Xor(b1 + 2 * v1, b2 + 2 * v2)
  {
    hide Xor;
    var x, y := XorW(c1, b1), XorW(c2, b2);
    var z := XorW(x, y);
    ShiftLinear(x, y);
    Pow2Values();
    XorBound(v1, v2, 31);
    FeedbackReachesTop(z);
    assert z == 2 * Xor(v1, v2);
    XorDouble(v1, v2, b1, b2);
    XorDouble(0, 0, b1, b2);
    XorSelf(0);
    var b := Differ(b1, b2);
    assert Pow2(1) == 2;
    ShlOne(Xor(v1, v2));
    XorDisjoint(b, Xor(v1, v2), 1);
    assert Xor(b1 + 2 * v1, b2 + 2 * v2) == Xor(b, z);
    XorInterchange(c1, b1, c2, b2);
    assert z == Xor(Xor(c1, c2), b);
    XorCommutes(b, z);
    XorCancels(Xor(c1, c2), b);
  }

  /** The register state determines the state before it, whatever is fed. */
  lemma {:induction false} FeedInjective(c1: word, c2: word, bits: seq<bool>)
    requires FeedBits(c1, bits) == FeedBits(c2, bits)
    ensures c1 == c2
    decreases |bits|
  {
    if bits != [] {
      var b := Num(bits[0]);
      FeedInjective(Shift(XorW(c1, b)), Shift(XorW(c2, b)), bits[1..]);
      XorSelf(Shift(XorW(c1, b)));
      XorSelf(0);
      MeetingStep(c1, c2, b, b, 0, 0);
      XorSelf(b);
      XorIsZero(c1, c2);
    }
  }

  lemma {:induction false} MessageBitsInjective(s: seq<byte>, t: seq<byte>)
    requires |s| == |t| && MessageBits(s) == MessageBits(t)
    ensures s == t
  {
    if s != [] {
      assert Bits(s[0], 8) == MessageBits(s)[..8] == MessageBits(t)[..8] == Bits(t[0], 8);
      Pow2Values();
      BitsInjective(s[0], t[0], 8);
      assert MessageBits(s)[8..] == MessageBits(s[1..]) && MessageBits(t)[8..] == MessageBits(t[1..]);
      MessageBitsInjective(s[1..], t[1..]);
      assert s == [s[0]] + s[1..] && t == [t[0]] + t[1..];
    }
  }

  lemma {:induction false} BitsInjective(a: nat, b: nat, n: nat)
    requires a < Pow2(n) && b < Pow2(n) && Bits(a, n) == Bits(b, n)
    ensures a == b
  {
    if n != 0 {
      assert Bits(a, n)[0] == Bits(b, n)[0];
      assert Bits(a, n)[1..] == Bits(a / 2, n - 1) && Bits(b, n)[1..] == Bits(b / 2, n - 1);
      BitsInjective(a / 2, b / 2, n - 1);
    }
  }

  lemma FeedThree(c: word, p: seq<bool>, q: seq<bool>, r: seq<bool>)
    ensures FeedBits(c, p + (q + r)) == FeedBits(FeedBits(FeedBits(c, p), q), r)
  {
    FeedBitsConcat(c, p, q + r);
    FeedBitsConcat(FeedBits(c, p), q, r);
  }

  /** Two messages of one length that agree outside 32 consecutive message bits. */
  ghost predicate DifferInBurst(s: seq<byte>, t: seq<byte>, k: nat) {
    && |s| == |t|
    && forall i :: 0 <= i < 8 * |s| && !(k <= i < k + 32) ==> MessageBits(s)[i] == MessageBits(t)[i]
  }

  function Least(a: nat, b: nat): nat { if a < b then a else b }

  lemma InThree(a: seq<bool>, lo: nat, hi: nat)
    requires lo <= hi <= |a|
    ensures a == a[..lo] + (a[lo..hi] + a[hi..])
  {}

  lemma SameStream(c: word, a: seq<bool>, b: seq<bool>, k: nat)
    requires |a| == |b| && FeedBits(c, a) == FeedBits(c, b)
    requires forall i :: 0 <= i < |a| && !(k <= i < k + 32) ==> a[i] == b[i]
    ensures a == b
  {
    hide FeedBits;
    var lo, hi := Least(k, |a|), Least(k + 32, |a|);
    InThree(a, lo, hi);
    InThree(b, lo, hi);
    assert a[..lo] == b[..lo];
    assert a[hi..] == b[hi..];
    SameMiddle(c, a[..lo], a[lo..hi], b[lo..hi], a[hi..]);
  }

  /** Streams that differ in a middle part of at most 32 bits only, and leave the same register, do not differ. */
  lemma SameMiddle(c: word, front: seq<bool>, d: seq<bool>, e: seq<bool>, back: seq<bool>)
    requires |d| == |e| <= 32
    requires FeedBits(c, front + (d + back)) == FeedBits(c, front + (e + back))
    ensures d == e
  {
    hide FeedBits, Value, Xor;
    var c' := FeedBits(c, front);
    FeedThree(c, front, d, back);
    FeedThree(c, front, e, back);
    FeedInjective(FeedBits(c', d), FeedBits(c', e), back);
    MeetingRegisters(c', c', d, e);
    XorSelf(c');
    XorIsZero(Value(d), Value(e));
    ValueInjective(d, e);
  }

  /** A burst of at most 32 bits, wherever it falls, never goes unnoticed. */
  lemma BurstDetected(crc: word, s: seq<byte>, t: seq<byte>, k: nat)
    requires DifferInBurst(s, t, k)
    ensures Crc(crc, s) == Crc(crc, t) <==> s == t
  {
    if Crc(crc, s) == Crc(crc, t) {
      hide FeedBits, MessageBits;
      SameStream(Not(crc), MessageBits(s), MessageBits(t), k);
      MessageBitsInjective(s, t);
    }
  }

  /** In particular a change confined to four consecutive bytes is always noticed. */
  lemma FourByteBurstDetected(crc: word, s: seq<byte>, t: seq<byte>, k: nat)
    requires |s| == |t|
    requires forall i :: 0 <= i < |s| && !(k <= i < k + 4) ==> s[i] == t[i]
    ensures Crc(crc, s) == Crc(crc, t) <==> s == t
  {
    forall i | 0 <= i < 8 * |s| && !(8 * k <= i < 8 * k + 32)
      ensures MessageBits(s)[i] == MessageBits(t)[i]
    {
      MessageBitAt(s, i / 8, i % 8);
      MessageBitAt(t, i / 8, i % 8);
    }
    BurstDetected(crc, s, t, 8 * k);
  }

  lemma {:induction false} MessageBitAt(s: seq<byte>, j: nat, b: nat)
    requires j < |s| && b < 8
    ensures MessageBits(s)[8 * j + b] == Bits(s[j], 8)[b]
  {
    if j != 0 {
      MessageBitAt(s[1..], j - 1, b);
      assert MessageBits(s)[8 * j + b] == MessageBits(s[1..])[8 * (j - 1) + b];
    }
  }
}
