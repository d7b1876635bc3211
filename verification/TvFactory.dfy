/** Picture settings quantised on their way to the panel board's single bytes, and read back. */
module TvFactory {
  import opened Words

  /** Division as the program's language has it: towards zero. */
  function CDiv(a: int, b: int): int
    requires b > 0
  {
    if a >= 0 then a / b else -(-a / b)
  }

  /** Conversion to an unsigned char. */
  function ToByte(v: int): byte {
    v % 0x100
  }

  datatype TempMode = Standard | Warm | Cold | User | Unknown

  /** The board's mode byte; an unknown mode lands on the board's cold mode. */
  function ModeByte(m: TempMode): (b: byte)
    ensures b < 4
  {
    match m
    case Standard => 1
    case Warm => 2
    case User => 3
    case _ => 0
  }

  datatype Ogo = Ogo(r_gain: int, g_gain: int, b_gain: int,
                     r_post_offset: int, g_post_offset: int, b_post_offset: int)

  /** What the board keeps for one mode: three gains, then three offsets. */
  datatype Batch = Batch(r_gain: byte, g_gain: byte, b_gain: byte, r_offset: byte, g_offset: byte, b_offset: byte)

  function Clamp(lo: int, v: int, hi: int): int {
    if v < lo then lo else if v > hi then hi else v
  }

  function FormatInputGain(value: int): int {
    Clamp(0, value, 2047) / 8
  }

  function FormatInputOffset(value: int): int {
    (Clamp(-1024, value, 1023) + 1024) / 8
  }

  function FormatOutputGain(value: int): int {
    Clamp(0, value * 8, 2047)
  }

  function FormatOutputOffset(value: int): int {
    if value == 255 then 1023 else value * 8 - 1024
  }

  function GainByte(gain: int): byte { ToByte(CDiv(gain * 255, 2047)) }

  function OffsetByte(offset: int): byte { ToByte(CDiv((offset + 1024) * 255, 2047)) }

  function ByteGain(b: byte): int { b * 2047 / 255 }

  function ByteOffset(b: byte): int { b * 2047 / 255 - 1024 }

  function ToBatch(p: Ogo): Batch {
    Batch(GainByte(p.r_gain), GainByte(p.g_gain), GainByte(p.b_gain),
          OffsetByte(p.r_post_offset), OffsetByte(p.g_post_offset), OffsetByte(p.b_post_offset))
  }

  function FromBatch(b: Batch): Ogo {
    Ogo(ByteGain(b.r_gain), ByteGain(b.g_gain), ByteGain(b.b_gain),
        ByteOffset(b.r_offset), ByteOffset(b.g_offset), ByteOffset(b.b_offset))
  }

  // ---------------------------------------------------------------- one value, saved and read back

  /** The byte a saved gain or offset becomes, and the value a stored byte is read as. */
  function SavedGain(v: int): byte { GainByte(FormatInputGain(v)) }

  function SavedOffset(v: int): byte { OffsetByte(FormatInputOffset(v)) }

  function ReadGain(b: byte): int { FormatOutputGain(ByteGain(b)) }

  function ReadOffset(b: byte): int { FormatOutputOffset(ByteOffset(b)) }

  /** The byte set for a value is the largest that does not exceed it on the coarser scale. */
  lemma ByteSet(g: int)
    requires 0 <= g <= 2047
    ensures 2047 * GainByte(g) <= 255 * g < 2047 * (GainByte(g) + 1)
    ensures OffsetByte(g - 1024) == GainByte(g)
  {
    assert 0 <= g * 255 / 2047 <= 255;
  }

  /** The value read for a byte is the largest that does not exceed it on the finer scale. */
  lemma ByteRead(b: byte)
    ensures 0 <= ByteGain(b) <= 2047 && 255 * ByteGain(b) <= 2047 * b < 255 * (ByteGain(b) + 1)
    ensures ByteOffset(b) == ByteGain(b) - 1024
  {}

  lemma GainInput(v: int)
    ensures var g := FormatInputGain(v);
            0 <= g <= 255 && 8 * g <= Clamp(0, v, 2047) <= 8 * g + 7
  {}

  lemma OffsetInput(v: int)
    ensures var p := FormatInputOffset(v);
            0 <= p <= 255 && 8 * p - 1024 <= Clamp(-1024, v, 1023) <= 8 * p - 1017
  {}

  /** Only the bytes 0 to 31 ever hold a saved gain, and byte w reads as 64 w. */
  lemma GainStep(v: int)
    ensures var c, w := Clamp(0, v, 2047), SavedGain(v);
            && w <= 31 && ReadGain(w) == 64 * w
            && 64 * w <= c <= 64 * w + 71
  {
    hide FormatInputGain, GainByte, ByteGain;
    GainInput(v);
    ByteSet(FormatInputGain(v));
    GainReads(SavedGain(v));
  }

  lemma GainReads(w: byte)
    requires w <= 31
    ensures ByteGain(w) == 8 * w && ReadGain(w) == 64 * w
  {
    hide ByteGain;
    ByteRead(w);
  }

  /** The reading of an offset byte in the range saved offsets use, in steps of 64 with one of 72. */
  function OffsetReading(w: nat): int {
    64 * w + (if w <= 145 then 24 else 32) - 9216
  }

  /** Only the bytes 127 to 159 ever hold a saved offset. */
  lemma OffsetStep(v: int)
    ensures var c, w := Clamp(-1024, v, 1023), SavedOffset(v);
            && 127 <= w <= 159 && ReadOffset(w) == OffsetReading(w)
            && ReadOffset(w) + 8 <= c <= ReadOffset(w) + 79
  {
    hide FormatInputOffset, OffsetByte, GainByte, ReadOffset, Clamp;
    OffsetInput(v);
    ByteSet(FormatInputOffset(v) + 1024);
    OffsetReads(SavedOffset(v));
  }

  lemma OffsetReads(w: byte)
    requires 127 <= w <= 159
    ensures ReadOffset(w) == OffsetReading(w)
  {
    hide ByteGain, ByteOffset;
    ByteRead(w);
    assert ByteGain(w) == 8 * w + if w <= 145 then 3 else 4;
  }

  lemma SavedMonotone(p: int, q: int)
    requires 0 <= p <= q <= 2047
    ensures GainByte(p) <= GainByte(q)
  {
    hide GainByte;
    ByteSet(p);
    ByteSet(q);
  }

  /** A saved gain reads back no higher than it was, clamped, and at most 71 lower; a higher gain never
      reads back lower. */
  lemma GainReadBack(v: int, u: int)
    ensures Clamp(0, v, 2047) - 71 <= ReadGain(SavedGain(v)) <= Clamp(0, v, 2047)
    ensures v <= u ==> ReadGain(SavedGain(v)) <= ReadGain(SavedGain(u))
  {
    hide GainByte, ReadGain;
    GainStep(v);
    GainStep(u);
    if v <= u {
      assert 0 <= FormatInputGain(v) <= FormatInputGain(u) <= 255;
      SavedMonotone(FormatInputGain(v), FormatInputGain(u));
    }
  }

  /** A saved offset always reads back lower, by 8 to 79; the lowest even below the range of offsets. */
  lemma OffsetReadBack(v: int, u: int)
    ensures Clamp(-1024, v, 1023) - 79 <= ReadOffset(SavedOffset(v)) <= Clamp(-1024, v, 1023) - 8
    ensures v <= u ==> ReadOffset(SavedOffset(v)) <= ReadOffset(SavedOffset(u))
    ensures v <= -1024 ==> ReadOffset(SavedOffset(v)) == -1064
  {
    hide GainByte, OffsetByte, ReadOffset;
    OffsetStep(v);
    OffsetStep(u);
    OffsetMonotone(v, u);
    if v <= -1024 {
      assert FormatInputOffset(v) == 0;
      ByteSet(1024);
    }
  }

  lemma OffsetMonotone(v: int, u: int)
    ensures v <= u ==> SavedOffset(v) <= SavedOffset(u)
  {
    hide GainByte, OffsetByte;
    if v <= u {
      assert 0 <= FormatInputOffset(v) <= FormatInputOffset(u) <= 255;
      SavedMonotone(FormatInputOffset(v) + 1024, FormatInputOffset(u) + 1024);
      ByteSet(FormatInputOffset(v) + 1024);
      ByteSet(FormatInputOffset(u) + 1024);
    }
  }

  /** Both bounds are reached. */
  lemma BoundsReached()
    ensures ReadGain(SavedGain(71)) == 0
    ensures ReadOffset(SavedOffset(167)) == 167 - 79
  {
    hide ReadGain, ReadOffset, GainByte, OffsetByte;
    GainStep(71);
    assert FormatInputGain(71) == 8;
    ByteSet(8);
    OffsetStep(167);
    assert FormatInputOffset(167) == 148;
    ByteSet(148 + 1024);
  }

  // ---------------------------------------------------------------- saving what was read

  /** The byte after n rounds of reading a setting and saving what was read. */
  function GainAfter(n: nat, w: byte): byte {
    if n == 0 then w else SavedGain(ReadGain(GainAfter(n - 1, w)))
  }

  function OffsetAfter(n: nat, w: byte): byte {
    if n == 0 then w else SavedOffset(ReadOffset(OffsetAfter(n - 1, w)))
  }

  /** A byte that is read and set again without the conversions in between loses a step, except at the two
      ends of its range. */
  function Faded(b: byte): byte { if b == 0 || b == 255 then b else b - 1 }

  /** The two scales share no mark but the ends. */
  lemma ScalesApart(b: byte, g: int)
    requires 0 < b < 255
    ensures 255 * g != 2047 * b
  {
    var k := g - 8 * b;
    assert 255 * g == 2047 * b <==> 255 * k == 7 * b;
    if 0 < k < 7 {
      assert k == 1 || k == 2 || k == 3 || k == 4 || k == 5 || k == 6;
    }
  }

  /** Up to the finer scale and back down: one step is lost on the way, except at the ends. */
  lemma UpAndDown(b: byte)
    ensures GainByte(ByteGain(b)) == Faded(b)
  {
    hide ByteGain, GainByte;
    ByteRead(b);
    ByteSet(ByteGain(b));
    if 0 < b < 255 {
      ScalesApart(b, ByteGain(b));
    }
  }

  lemma GainRound(b: byte)
    ensures SavedGain(ReadGain(b)) == if b == 0 then 0 else if b <= 31 then b - 1 else 31
  {
    hide GainByte, ByteGain, Clamp;
    InputOfReading(b);
    if b <= 31 {
      UpAndDown(b);
    } else {
      ByteSet(255);
    }
  }

  lemma InputOfReading(b: byte)
    ensures FormatInputGain(ReadGain(b)) == if b <= 31 then ByteGain(b) else 255
  {
    hide ByteGain;
    ByteRead(b);
  }

  /** Each round of saving what was read costs one step, until nothing is left to lose; a byte no saved gain
      has falls to the highest of them first. */
  lemma {:induction false} GainDrifts(n: nat, w: byte)
    ensures var from := if w <= 31 then w else 32;
            GainAfter(n, w) == if n == 0 then w else if n <= from then from - n else 0
  {
    hide SavedGain, ReadGain;
    if n > 0 {
      GainDrifts(n - 1, w);
      GainRound(GainAfter(n - 1, w));
    }
  }

  lemma {:induction false} OffsetDrifts(n: nat, w: byte)
    ensures var from := if w < 127 then 127 else if w <= 159 then w else 160;
            OffsetAfter(n, w) == if n == 0 then w else if n <= from - 127 then from - n else 127
  {
    hide SavedOffset, ReadOffset;
    if n > 0 {
      OffsetDrifts(n - 1, w);
      OffsetRound(OffsetAfter(n - 1, w));
    }
  }

  lemma OffsetRound(b: byte)
    ensures SavedOffset(ReadOffset(b)) == if b <= 127 then 127 else if b <= 159 then b - 1 else 159
  {
    hide GainByte, OffsetByte, ReadOffset, FormatInputOffset;
    OffsetReRead(b);
    ByteSet(FormatInputOffset(ReadOffset(b)) + 1024);
  }

  lemma OffsetReRead(b: byte)
    ensures FormatInputOffset(ReadOffset(b)) ==
            if b <= 127 then 0 else if b <= 159 then 8 * b + (if b <= 145 then 3 else 4) - 1024 else 255
  {
    hide ByteGain, ByteOffset;
    ByteRead(b);
    if 127 <= b <= 159 {
      OffsetReads(b);
    }
  }

  function FadedBatch(b: Batch): Batch {
    Batch(Faded(b.r_gain), Faded(b.g_gain), Faded(b.b_gain), Faded(b.r_offset), Faded(b.g_offset), Faded(b.b_offset))
  }

  lemma ReadThenSet(b: byte)
    ensures GainByte(ByteGain(b)) == Faded(b) && OffsetByte(ByteOffset(b)) == Faded(b)
  {
    hide ByteGain, ByteOffset, GainByte, OffsetByte;
    ByteRead(b);
    ByteSet(ByteGain(b));
    UpAndDown(b);
  }

  // ---------------------------------------------------------------- backlight

  function BacklightByte(value: int): byte { ToByte(CDiv(value * 255, 100)) }

  function BacklightValue(b: byte): int {
    if b * 100 % 255 == 0 then b * 100 / 255 else b * 100 / 255 + 1
  }

  /** Scaling up by a / b and rounding down is undone by scaling back and rounding up, for every
      non-negative value and every a >= b. */
  lemma FloorThenCeiling(v: nat, a: nat, b: nat)
    requires 1 <= b <= a
    ensures var f := v * a / b;
            v == if f * b % a == 0 then f * b / a else f * b / a + 1
  {
    var f := v * a / b;
    DivBounds(v * a, b);
    assert v * a - b < f * b <= v * a;
    DivBounds(f * b, a);
    var q := f * b / a;
    assert q * a <= f * b < q * a + a;
    Cancel(q, v, a);
    if f * b % a == 0 {
      assert q * a == f * b;
      Cancel(v - 1, q, a);
    } else {
      Between(q, v, f * b, a, b);
    }
  }

  lemma DivBounds(x: nat, d: nat)
    requires d >= 1
    ensures x / d * d <= x < x / d * d + d && x == x / d * d + x % d
  {}

  lemma Cancel(q: int, v: int, a: nat)
    requires a >= 1
    ensures q * a <= v * a ==> q <= v
    ensures q * a < v * a ==> q < v
  {
    if q > v {
      assert q * a >= (v + 1) * a;
    } else if q == v {
    }
  }

  lemma Between(q: int, v: int, x: int, a: nat, b: nat)
    requires 1 <= b <= a
    requires q * a < x < q * a + a
    requires v * a - b < x <= v * a
    ensures v == q + 1
  {
    assert q * a < v * a;
    Cancel(q, v, a);
    assert (v - 1) * a < (q + 1) * a by {
      assert (v - 1) * a == v * a - a && (q + 1) * a == q * a + a;
    }
    Cancel(v - 1, q + 1, a);
  }

  /** The byte set for a percentage is the largest that does not exceed it, on a scale of 0 to 255. */
  lemma BacklightScale(value: int)
    requires 0 <= value <= 100
    ensures 100 * BacklightByte(value) <= 255 * value < 100 * (BacklightByte(value) + 1)
    ensures BacklightByte(100) == 255
  {
    assert 0 <= value * 255 / 100 <= 255;
  }

  /** The percentage read for a byte is the smallest that is not below it. */
  lemma BacklightReads(b: byte)
    ensures 255 * (BacklightValue(b) - 1) < 100 * b <= 255 * BacklightValue(b)
  {}

  /** A backlight setting reads back as it was set exactly when it is a percentage. */
  lemma BacklightExactIff(value: int)
    ensures BacklightValue(BacklightByte(value)) == value <==> 0 <= value <= 100
  {
    hide BacklightByte, BacklightValue;
    BacklightIsPercentage(BacklightByte(value));
    if 0 <= value <= 100 {
      BacklightComesBack(value);
    }
  }

  lemma BacklightComesBack(value: int)
    requires 0 <= value <= 100
    ensures BacklightValue(BacklightByte(value)) == value
  {
    var f: int := value * 255 / 100;
    assert 0 <= f <= 255 && BacklightByte(value) == f;
    hide BacklightByte;
    FloorThenCeiling(value, 255, 100);
  }

  lemma BacklightIsPercentage(b: byte)
    ensures 0 <= BacklightValue(b) <= 100
  {
    var x: int := b;
    assert 0 <= x * 100 / 255 <= 100 && (x * 100 / 255 == 100 ==> x == 255);
  }

  // ---------------------------------------------------------------- the settings of all modes

  function SavedBatch(r_gain: int, g_gain: int, b_gain: int, r_offset: int, g_offset: int, b_offset: int): Batch {
    Batch(SavedGain(r_gain), SavedGain(g_gain), SavedGain(b_gain),
          SavedOffset(r_offset), SavedOffset(g_offset), SavedOffset(b_offset))
  }

  /** Each value goes to its own byte: red, green and blue, gains before offsets. */
  lemma OwnBytes(v: seq<int>)
    requires |v| == 6
    ensures var b := SavedBatch(v[0], v[1], v[2], v[3], v[4], v[5]);
            && [b.r_gain, b.g_gain, b.b_gain] == [SavedGain(v[0]), SavedGain(v[1]), SavedGain(v[2])]
            && [b.r_offset, b.g_offset, b.b_offset] == [SavedOffset(v[3]), SavedOffset(v[4]), SavedOffset(v[5])]
  {
    hide SavedGain, SavedOffset;
  }

  lemma ModeBytes()
    ensures [ModeByte(Cold), ModeByte(Standard), ModeByte(Warm), ModeByte(User)] == [0, 1, 2, 3]
    ensures ModeByte(Unknown) == ModeByte(Cold)
  {}

  function Item(b: Batch, item: int): int {
    match item
    case 0 => ReadGain(b.r_gain)
    case 1 => ReadGain(b.g_gain)
    case 2 => ReadGain(b.b_gain)
    case 3 => ReadOffset(b.r_offset)
    case 4 => ReadOffset(b.g_offset)
    case 5 => ReadOffset(b.b_offset)
    case _ => 0
  }

  /** The item of six values as they are. */
  function ItemOf(p: Ogo, item: int): int {
    match item
    case 0 => FormatOutputGain(p.r_gain)
    case 1 => FormatOutputGain(p.g_gain)
    case 2 => FormatOutputGain(p.b_gain)
    case 3 => FormatOutputOffset(p.r_post_offset)
    case 4 => FormatOutputOffset(p.g_post_offset)
    case 5 => FormatOutputOffset(p.b_post_offset)
    case _ => 0
  }

  /** Saving six values in one mode and reading one back in some mode: a value of the saved mode comes
      back quantised, within its bounds and independent of the other five; a mode with another mode byte
      is unaffected. */
  lemma SaveThenGet(wb: seq<Batch>, m: TempMode, v: seq<int>, m': TempMode, item: nat)
    requires |wb| == 4 && |v| == 6 && item < 6
    ensures var saved := wb[ModeByte(m) := SavedBatch(v[0], v[1], v[2], v[3], v[4], v[5])];
            var back := Item(saved[ModeByte(m')], item);
            && (ModeByte(m') != ModeByte(m) ==> back == Item(wb[ModeByte(m')], item))
            && (ModeByte(m') == ModeByte(m) && item < 3 ==>
                  back == ReadGain(SavedGain(v[item])) && 0 <= Clamp(0, v[item], 2047) - back <= 71)
            && (ModeByte(m') == ModeByte(m) && item >= 3 ==>
                  back == ReadOffset(SavedOffset(v[item])) && 8 <= Clamp(-1024, v[item], 1023) - back <= 79)
  {
    hide ReadGain, SavedGain, ReadOffset, SavedOffset;
    GainReadBack(v[item], v[item]);
    OffsetReadBack(v[item], v[item]);
  }

  predicate InRange(p: Ogo) {
    && 0 <= p.r_gain <= 2047 && 0 <= p.g_gain <= 2047 && 0 <= p.b_gain <= 2047
    && -1024 <= p.r_post_offset <= 1023 && -1024 <= p.g_post_offset <= 1023 && -1024 <= p.b_post_offset <= 1023
  }

  /** v is the largest value that does not exceed the byte, on a scale of 0 to 2047 for 0 to 255. */
  predicate Largest(v: int, b: byte) {
    255 * v <= 2047 * b < 255 * (v + 1)
  }

  predicate AllLargest(p: Ogo, b: Batch) {
    && Largest(p.r_gain, b.r_gain) && Largest(p.g_gain, b.g_gain) && Largest(p.b_gain, b.b_gain)
    && Largest(p.r_post_offset + 1024, b.r_offset) && Largest(p.g_post_offset + 1024, b.g_offset)
    && Largest(p.b_post_offset + 1024, b.b_offset)
  }

  lemma BatchRead(b: Batch)
    ensures var p := FromBatch(b);
            ToBatch(p) == FadedBatch(b) && InRange(p) && AllLargest(p, b)
  {
    hide GainByte, OffsetByte, ByteGain, ByteOffset, Faded;
    ReadThenSet(b.r_gain);
    ReadThenSet(b.g_gain);
    ReadThenSet(b.b_gain);
    ReadThenSet(b.r_offset);
    ReadThenSet(b.g_offset);
    ReadThenSet(b.b_offset);
    ByteRead(b.r_gain);
    ByteRead(b.g_gain);
    ByteRead(b.b_gain);
    ByteRead(b.r_offset);
    ByteRead(b.g_offset);
    ByteRead(b.b_offset);
  }

  /** The panel board as the driver sees it: it keeps the bytes it is told. */
  class FbcBoard {
    var backlight: byte
    var wb: seq<Batch>

    ghost predicate Valid()
      reads this
    {
      |wb| == 4
    }

    constructor ()
      ensures Valid() && backlight == 0
    {
      backlight := 0;
      wb := seq(4, _ => Batch(0, 0, 0, 0, 0, 0));
    }
  }

  class CTvFactory {
    const mFbcObj: FbcBoard?
    const mHdmiOutFbc: bool

    ghost predicate Valid()
      reads mFbcObj
    {
      mFbcObj != null ==> mFbcObj.Valid()
    }

    constructor (board: FbcBoard?, hdmiOutFbc: bool)
      ensures mFbcObj == board && mHdmiOutFbc == hdmiOutFbc
    {
      mFbcObj, mHdmiOutFbc := board, hdmiOutFbc;
    }

    /** Sets the backlight; afterwards reading gives the value back if it is a percentage, and some
        other percentage if not. */
    method FbcSetBacklight(value: int) returns (ret: int)
      requires Valid()
      modifies mFbcObj
      ensures Valid() && (ret == 0 <==> mFbcObj != null) && (ret == -1 <==> mFbcObj == null)
      ensures mFbcObj != null ==> mFbcObj.wb == old(mFbcObj.wb)
      ensures mFbcObj != null ==> (BacklightValue(mFbcObj.backlight) == value <==> 0 <= value <= 100)
      ensures mFbcObj != null ==> mFbcObj.backlight == BacklightByte(value)
    {
      hide BacklightValue;
      if mFbcObj != null {
        BacklightExactIff(value);
        var temp_value := CDiv(value * 255, 100);
        mFbcObj.backlight := ToByte(temp_value);
        return 0;
      }
      return -1;
    }

    method FbcGetBacklight() returns (data: int)
      requires Valid()
      ensures data == if mFbcObj != null then BacklightValue(mFbcObj.backlight) else 0
      ensures 0 <= data <= 100
    {
      data := 0;
      if mFbcObj != null {
        var temp_value: int := mFbcObj.backlight;
        if temp_value * 100 % 255 == 0 {
          data := temp_value * 100 / 255;
        } else {
          data := temp_value * 100 / 255 + 1;
        }
      }
    }

    method ColorTempBatchSet(m: TempMode, params: Ogo) returns (ret: int)
      requires Valid()
      modifies mFbcObj
      ensures Valid() && ret == if mFbcObj != null then 0 else -1
      ensures mFbcObj != null ==> mFbcObj.backlight == old(mFbcObj.backlight)
      ensures mFbcObj != null ==> mFbcObj.wb == old(mFbcObj.wb)[ModeByte(m) := ToBatch(params)]
    {
      var batch := ToBatch(params);
      if mFbcObj != null {
        mFbcObj.wb := mFbcObj.wb[ModeByte(m) := batch];
        return 0;
      }
      return -1;
    }

    /** Without a board the caller's parameters are left as they were; with one they get values in range,
        the largest that do not exceed the stored bytes, and setting these again fades the mode by a step. */
    method ColorTempBatchGet(m: TempMode, params: Ogo) returns (ret: int, result: Ogo)
      requires Valid()
      ensures mFbcObj == null ==> ret == -1 && result == params
      ensures mFbcObj != null ==>
                var b := mFbcObj.wb[ModeByte(m)];
                && ret == 0 && result == FromBatch(b) && ToBatch(result) == FadedBatch(b)
                && InRange(result) && AllLargest(result, b)
    {
      hide GainByte, OffsetByte, ByteGain, ByteOffset, Faded;
      if mFbcObj != null {
        BatchRead(mFbcObj.wb[ModeByte(m)]);
        return 0, FromBatch(mFbcObj.wb[ModeByte(m)]);
      }
      return -1, params;
    }

    method WhiteBalancePramSave(m: TempMode, r_gain: int, g_gain: int, b_gain: int,
                                r_offset: int, g_offset: int, b_offset: int) returns (ret: int)
      requires Valid()
      modifies mFbcObj
      ensures Valid() && ret == if mHdmiOutFbc && mFbcObj == null then -1 else 0
      ensures mFbcObj != null ==>
                && mFbcObj.backlight == old(mFbcObj.backlight)
                && mFbcObj.wb == if mHdmiOutFbc
                                 then old(mFbcObj.wb)[ModeByte(m) :=
                                        SavedBatch(r_gain, g_gain, b_gain, r_offset, g_offset, b_offset)]
                                 else old(mFbcObj.wb)
    {
      hide GainByte, OffsetByte, FormatInputGain, FormatInputOffset;
      ret := 0;
      if mHdmiOutFbc {
        var params := Ogo(FormatInputGain(r_gain), FormatInputGain(g_gain), FormatInputGain(b_gain),
                          FormatInputOffset(r_offset), FormatInputOffset(g_offset), FormatInputOffset(b_offset));
        ret := ColorTempBatchSet(m, params);
      }
    }

    /** `uninit` is what the parameters on the stack happen to hold: without a board they are converted as
        they are. */
    method GetItemFromBatch(m: TempMode, item: int, uninit: Ogo) returns (ret: int)
      requires Valid()
      ensures mFbcObj != null ==> ret == Item(mFbcObj.wb[ModeByte(m)], item)
      ensures mFbcObj == null ==> ret == ItemOf(uninit, item)
    {
      hide ByteGain, ByteOffset, FormatOutputGain, FormatOutputOffset, ToBatch;
      var _, params := ColorTempBatchGet(m, uninit);
      match item
      case 0 => ret := FormatOutputGain(params.r_gain);
      case 1 => ret := FormatOutputGain(params.g_gain);
      case 2 => ret := FormatOutputGain(params.b_gain);
      case 3 => ret := FormatOutputOffset(params.r_post_offset);
      case 4 => ret := FormatOutputOffset(params.g_post_offset);
      case 5 => ret := FormatOutputOffset(params.b_post_offset);
      case _ => ret := 0;
    }

    /** Choosing a colour temperature reads the mode and sets it again with half the blue gain: each call
        fades the other five items by a step and halves the blue one. Without a board it fails; `uninit` is
        what the program's local parameters happen to hold. */
    method FbcSetColorTemperature(m: TempMode, uninit: Ogo) returns (ret: int)
      requires Valid()
      modifies mFbcObj
      ensures Valid() && ret == if mFbcObj != null then 0 else -1
      ensures mFbcObj != null ==> mFbcObj.backlight == old(mFbcObj.backlight)
      ensures mFbcObj != null ==>
                var b, b' := old(mFbcObj.wb)[ModeByte(m)], mFbcObj.wb[ModeByte(m)];
                && mFbcObj.wb == old(mFbcObj.wb)[ModeByte(m) := b']
                && b' == FadedBatch(b).(b_gain := b'.b_gain)
                && b.b_gain / 2 - 1 <= b'.b_gain <= b.b_gain / 2
    {
      hide GainByte, OffsetByte, ByteGain, ByteOffset, Faded;
      var _, rgb_ogo := ColorTempBatchGet(m, uninit);
      if mFbcObj != null {
        HalvedBlue(mFbcObj.wb[ModeByte(m)].b_gain);
      }
      rgb_ogo := rgb_ogo.(b_gain := CDiv(rgb_ogo.b_gain, 2));
      ret := ColorTempBatchSet(m, rgb_ogo);
    }
  }

  lemma HalvedBlue(b: byte)
    ensures b / 2 - 1 <= GainByte(CDiv(ByteGain(b), 2)) <= b / 2
  {
    hide ByteGain, GainByte;
    ByteRead(b);
    ByteSet(CDiv(ByteGain(b), 2));
  }
}
