/** The tuner front end: a request equal to the one in force is not sent to the tuner again. */
module FrontEnd {
  import opened Words

  // ---------------------------------------------------------------- the packed mode

  /** The weight of byte n of a 32-bit word. */
  function Weight(n: nat): nat
    requires n < 4
  {
    if n == 0 then 1 else if n == 1 then 0x100 else if n == 2 then 0x1_0000 else 0x100_0000
  }

  /** A shift right by 8n and a mask with 0xff, on the bits of the mode. */
  function Get8(mode: word, n: nat): byte
    requires n < 4
  {
    mode / Weight(n) % 0x100
  }

  /** Byte n masked out and the low byte of v put in its place. */
  function WithByte(mode: word, n: nat, v: int): word
    requires n < 4
  {
    ByteBelow(mode, n);
    mode - Get8(mode, n) * Weight(n) + v % 0x100 * Weight(n)
  }

  lemma ByteBelow(mode: word, n: nat)
    requires n < 4
    ensures 0 <= mode - Get8(mode, n) * Weight(n)
    ensures mode - Get8(mode, n) * Weight(n) + 0xff * Weight(n) <= ONES
  {
    FourBytes(mode);
    hide Get8;
  }

  /** A word is the sum of its four bytes, each at its weight. */
  lemma FourBytes(w: word)
    ensures w == Get8(w, 0) + Get8(w, 1) * 0x100 + Get8(w, 2) * 0x1_0000 + Get8(w, 3) * 0x100_0000
  {
    var a, b, c := w / 0x100, w / 0x1_0000, w / 0x100_0000;
    assert b == a / 0x100 && c == b / 0x100;
  }

  lemma BytesOf(w: word, b0: byte, b1: byte, b2: byte, b3: byte)
    requires w == b0 + b1 * 0x100 + b2 * 0x1_0000 + b3 * 0x100_0000
    ensures Get8(w, 0) == b0 && Get8(w, 1) == b1 && Get8(w, 2) == b2 && Get8(w, 3) == b3
  {
    assert w / 0x100 == b1 + b2 * 0x100 + b3 * 0x1_0000;
    assert w / 0x1_0000 == b2 + b3 * 0x100;
    assert w / 0x100_0000 == b3;
  }

  /** The byte set is read back, cut to eight bits, and the other three are untouched. */
  lemma GetAfterSet(mode: word, n: nat, v: int, k: nat)
    requires n < 4 && k < 4
    ensures Get8(WithByte(mode, n, v), k) == if k == n then v % 0x100 else Get8(mode, k)
  {
    FourBytes(mode);
    var b0, b1, b2, b3 := Get8(mode, 0), Get8(mode, 1), Get8(mode, 2), Get8(mode, 3);
    var x: byte := v % 0x100;
    SetBytes(mode, n, v);
    hide Get8, WithByte;
    var w := WithByte(mode, n, v);
    if n == 0 {
      BytesOf(w, x, b1, b2, b3);
    } else if n == 1 {
      BytesOf(w, b0, x, b2, b3);
    } else if n == 2 {
      BytesOf(w, b0, b1, x, b3);
    } else {
      BytesOf(w, b0, b1, b2, x);
    }
  }

  lemma SetBytes(mode: word, n: nat, v: int)
    requires n < 4
    ensures var b: int, x: int := Get8(mode, n), v % 0x100;
            WithByte(mode, n, v) == match n
                                case 0 => mode - b + x
                                case 1 => mode - b * 0x100 + x * 0x100
                                case 2 => mode - b * 0x1_0000 + x * 0x1_0000
                                case _ => mode - b * 0x100_0000 + x * 0x100_0000
  {
    hide Get8;
  }

  // ---------------------------------------------------------------- requests

  /** The members of a request's text that are present. */
  type FEParas = map<string, int>

  function GetInt(p: FEParas, key: string, absent: int): int {
    if key in p then p[key] else absent
  }

  function Mode(p: FEParas): word { GetInt(p, "mode", -1) % 0x1_0000_0000 }

  function Base(p: FEParas): byte { Get8(Mode(p), 0) }

  function Gen(p: FEParas): byte { Get8(Mode(p), 1) }

  function Frequency(p: FEParas): int { GetInt(p, "freq", -1) }

  function Bandwidth(p: FEParas): int { GetInt(p, "bw", -1) }

  function Symbolrate(p: FEParas): int { GetInt(p, "sr", -1) }

  function Modulation(p: FEParas): int { GetInt(p, "mod", -1) }

  function Plp(p: FEParas): int { GetInt(p, "plp", -1) }

  function Layer(p: FEParas): int { GetInt(p, "layr", -1) }

  function VideoStd(p: FEParas): int { GetInt(p, "vtd", 0) }

  function AudioStd(p: FEParas): int { GetInt(p, "atd", 0) }

  function Afc(p: FEParas): int { GetInt(p, "afc", -1) }

  function VFmt(p: FEParas): int { GetInt(p, "vfmt", -1) }

  function Soundsys(p: FEParas): int { GetInt(p, "soundsys", -1) }

  datatype Kind = Qam | Ofdm | Atsc | Analog | Dtmb | Isdbt | NoKind

  const AFC_RANGE := 1000000

  /** Two patterns put together, and whether one holds all the bits of another. */
  function With(a: bv64, b: bv64): bv64 { a | b }

  predicate Has(std: bv64, m: bv64) { std & m == m }

  /** What the platform's headers fix: which base byte is which kind, and the bits of the video and audio
      standards. */
  datatype Platform = Platform(kinds: byte -> Kind, feAnalog: int, feAuto: int,
                               pal: bv64, ntsc: bv64, secam: bv64,
                               palDk: bv64, palI: bv64, palBg: bv64, palM: bv64, ntscM: bv64,
                               secamDk: bv64, secamB: bv64, secamG: bv64, secamL: bv64)
  {
    function Kind(p: FEParas): Kind { kinds(Base(p)) }

    function EnumToStdAndColor(videoStd: int, audioStd: int): bv64 {
      match videoStd
      case 1 =>
        With(pal, match audioStd case 0 => palDk case 1 => palI case 2 => palBg case 3 => palM case _ => 0)
      case 2 =>
        With(ntsc, match audioStd case 0 => palDk case 1 => palI case 2 => palBg case 3 => ntscM case _ => 0)
      case 3 =>
        With(secam, match audioStd case 0 => secamDk case 1 => palI case 2 => With(secamB, secamG) case 3 => ntscM
                                   case 4 => secamL case _ => 0)
      case _ => 0
    }

    /** The video standard a bit pattern stands for. */
    function VideoEnum(std: bv64): int {
      if Has(std, pal) then 1 else if Has(std, ntsc) then 2 else if Has(std, secam) then 3 else 1
    }

    /** The audio standard a bit pattern stands for. */
    function AudioEnum(std: bv64): int {
      if Has(std, palDk) || Has(std, secamDk) then 0
      else if Has(std, palI) then 1
      else if Has(std, palBg) || Has(std, secamB) || Has(std, secamG) then 2
      else if Has(std, palM) || Has(std, ntscM) then 3
      else if Has(std, secamL) then 4
      else 0
    }

    /** No two of the standards share a bit, and none is empty. */
    predicate BitsApart() {
      && (forall i: nat :: i < 12 ==> Mask(i) != 0)
      && (forall i: nat, j: nat :: i < 12 && j < 12 && i != j ==> Apart(Mask(i), Mask(j)))
    }

    function Mask(i: nat): bv64 {
      match i
      case 0 => pal case 1 => ntsc case 2 => secam
      case 3 => palDk case 4 => palI case 5 => palBg case 6 => palM case 7 => ntscM
      case 8 => secamDk case 9 => secamB case 10 => secamG case _ => secamL
    }

    /** The program's comparison of two requests. */
    predicate Same(p: FEParas, q: FEParas) {
      && Base(p) == Base(q) && Gen(p) == Gen(q)
      && Frequency(p) == Frequency(q)
      && (Gen(p) != 0 ==> Plp(p) == Plp(q))
      && match Kind(p)
         case Dtmb | Ofdm => Bandwidth(p) == Bandwidth(q)
         case Qam => Symbolrate(p) == Symbolrate(q) && Modulation(p) == Modulation(q)
         case Atsc => Modulation(p) == Modulation(q)
         case Isdbt => Modulation(p) == Modulation(q) && Layer(p) == Layer(q)
         case Analog => && VideoStd(p) == VideoStd(q) && AudioStd(p) == AudioStd(q) && Afc(p) == Afc(q)
                        && VFmt(p) == VFmt(q) && Soundsys(p) == Soundsys(q)
         case NoKind => false
    }

    /** The calls that put a request into the tuner, in order. */
    function Commands(p: FEParas): (cs: seq<Command>)
      ensures 1 <= |cs| <= 2
    {
      match Kind(p)
      case Analog =>
        var std := EnumToStdAndColor(VideoStd(p), AudioStd(p));
        [SetAnalog(Frequency(p), std, std & 0x00FF_FFFF, Afc(p) == 0, if Afc(p) == 0 then AFC_RANGE else 0,
                   if Soundsys(p) >= 0 then Soundsys(p) else 0xFF)]
      case Ofdm =>
        [SetDigital(Base(p), Frequency(p), Bandwidth(p), 0, 0, Gen(p))] +
        if Gen(p) != 0 then [SetPlp(Plp(p))] else []
      case Dtmb => [SetDigital(Base(p), Frequency(p), Bandwidth(p), 0, 0, 0)]
      case Atsc => [SetDigital(Base(p), Frequency(p), 0, 0, Modulation(p), 0)]
      case Qam => [SetDigital(Base(p), Frequency(p), 0, Symbolrate(p), Modulation(p), 0)]
      case Isdbt => [SetDigital(Base(p), Frequency(p), Bandwidth(p), 0, 0, 0), SetLayer(Layer(p))]
      case NoKind => [SetDigital(Base(p), 0, 0, 0, 0, 0)]
    }
  }

  /** A call into the tuner driver. Members a kind of request does not use stay zero. */
  datatype Command =
    | SetAnalog(frequency: int, std: bv64, audmode: bv64, afc: bool, afc_range: int, soundsys: int)
    | SetDigital(m_type: byte, frequency: int, bandwidth: int, symbol_rate: int, modulation: int, gen: byte)
    | SetPlp(plp: int)
    | SetLayer(layer: int)

  /** Requests of these kinds that put the same calls into the tuner, and agree in generation and stream,
      compare equal. */
  lemma SameIfCommandsAre(h: Platform, p: FEParas, q: FEParas)
    requires h.Kind(p) in {Ofdm, Dtmb, Atsc, Qam} && h.Commands(p) == h.Commands(q)
    requires Base(p) == Base(q) && Gen(p) == Gen(q) && (Gen(p) != 0 ==> Plp(p) == Plp(q))
    ensures h.Same(p, q)
  {
    hide Mode, Base, Gen, GetInt, h.EnumToStdAndColor;
    assert h.Commands(p)[0] == h.Commands(q)[0];
  }

  /** Requests that compare equal put the same calls into the tuner exactly when they are not ISDB-T
      requests of different bandwidths. */
  lemma SameCommandsIff(h: Platform, p: FEParas, q: FEParas)
    requires h.Same(p, q)
    ensures h.Commands(p) == h.Commands(q) <==> (h.Kind(p) == Isdbt ==> Bandwidth(p) == Bandwidth(q))
  {
    hide Mode, Base, Gen, GetInt, h.EnumToStdAndColor;
    if h.Kind(p) == Isdbt {
      assert h.Commands(p)[0].bandwidth == Bandwidth(p) && h.Commands(q)[0].bandwidth == Bandwidth(q);
    }
  }

  lemma SameIsEquivalence(h: Platform, p: FEParas, q: FEParas, r: FEParas)
    ensures h.Same(p, p) <==> h.Kind(p) != NoKind
    ensures h.Same(p, q) ==> h.Same(q, p)
    ensures h.Same(p, q) && h.Same(q, r) ==> h.Same(p, r)
  {
    hide Base, Gen, GetInt;
  }

  /** The members of a request by name, and what stands for an absent one. */
  lemma Members(p: FEParas)
    ensures "mode" in p && 0 <= p["mode"] <= ONES ==>
              Base(p) as int == p["mode"] % 0x100 && Gen(p) as int == p["mode"] / 0x100 % 0x100
    ensures "freq" in p ==> Frequency(p) == p["freq"]
    ensures "bw" in p ==> Bandwidth(p) == p["bw"]
    ensures "sr" in p ==> Symbolrate(p) == p["sr"]
    ensures "mod" in p ==> Modulation(p) == p["mod"]
    ensures "plp" in p ==> Plp(p) == p["plp"]
    ensures "layr" in p ==> Layer(p) == p["layr"]
    ensures "vtd" in p ==> VideoStd(p) == p["vtd"]
    ensures "atd" in p ==> AudioStd(p) == p["atd"]
    ensures "afc" in p ==> Afc(p) == p["afc"]
    ensures "soundsys" in p ==> Soundsys(p) == p["soundsys"]
    ensures p == map[] ==> Frequency(p) == Bandwidth(p) == Plp(p) == Layer(p) == -1 && VideoStd(p) == AudioStd(p) == 0
  {}

  // ---------------------------------------------------------------- the analog standards

  predicate Apart(a: bv64, b: bv64) { a & b == 0 }

  lemma WithOne(x: bv64, y: bv64, m: bv64)
    requires m != 0 && (Has(x, m) || Apart(x, m)) && (y == m || Apart(y, m))
    ensures if Has(x, m) || y == m then Has(With(x, y), m) else Apart(With(x, y), m)
  {}

  lemma NotBoth(x: bv64, m: bv64)
    requires m != 0
    ensures !(Has(x, m) && Apart(x, m)) && Apart(0, m) && Has(m, m)
  {}

  lemma WithLaws(a: bv64, b: bv64, c: bv64)
    ensures With(With(a, b), c) == With(a, With(b, c)) && With(0, a) == a && With(a, 0) == a
  {}

  /** The masks with the given numbers put together. */
  function Together(h: Platform, ks: seq<nat>): bv64 {
    if ks == [] then 0 else With(Together(h, ks[..|ks| - 1]), h.Mask(ks[|ks| - 1]))
  }

  /** A mask is found in what was put together exactly if it was put in. */
  lemma {:induction false} InTogether(h: Platform, ks: seq<nat>, j: nat)
    requires h.BitsApart() && j < 12 && forall i :: 0 <= i < |ks| ==> ks[i] < 12
    ensures if j in ks then Has(Together(h, ks), h.Mask(j)) else Apart(Together(h, ks), h.Mask(j))
    ensures Has(Together(h, ks), h.Mask(j)) <==> j in ks
    decreases |ks|
  {
    hide With, Has, Apart, h.Mask;
    if ks == [] {
      NotBoth(0, h.Mask(j));
    } else {
      var n := |ks| - 1;
      var front, k := ks[..n], ks[n];
      assert ks == front + [k];
      InTogether(h, front, j);
      if k != j {
        assert Apart(h.Mask(k), h.Mask(j));
        NotBoth(h.Mask(k), h.Mask(j));
      }
      WithOne(Together(h, front), h.Mask(k), h.Mask(j));
      NotBoth(Together(h, ks), h.Mask(j));
    }
  }

  /** The numbers of the masks for a video and an audio standard. */
  function StandardBits(v: int, a: int): (ks: seq<nat>)
    ensures forall i :: 0 <= i < |ks| ==> ks[i] < 12
  {
    match v
    case 1 => [0] + (match a case 0 => [3] case 1 => [4] case 2 => [5] case 3 => [6] case _ => [])
    case 2 => [1] + (match a case 0 => [3] case 1 => [4] case 2 => [5] case 3 => [7] case _ => [])
    case 3 => [2] + (match a case 0 => [8] case 1 => [4] case 2 => [9, 10] case 3 => [7] case 4 => [11] case _ => [])
    case _ => []
  }

  lemma OneTogether(h: Platform, a: nat)
    ensures Together(h, [a]) == With(h.Mask(a), 0)
  {
    hide With, h.Mask;
    assert [a][..0] == [];
    WithLaws(h.Mask(a), 0, 0);
  }

  lemma TwoTogether(h: Platform, a: nat, b: nat)
    ensures Together(h, [a] + [b]) == With(h.Mask(a), h.Mask(b))
  {
    hide With, h.Mask;
    assert ([a] + [b])[..1] == [a];
    OneTogether(h, a);
    WithLaws(h.Mask(a), 0, 0);
  }

  lemma ThreeTogether(h: Platform, a: nat, b: nat, c: nat)
    ensures Together(h, [a] + [b, c]) == With(h.Mask(a), With(h.Mask(b), h.Mask(c)))
  {
    hide With, h.Mask;
    assert ([a] + [b, c])[..2] == [a] + [b];
    TwoTogether(h, a, b);
    WithLaws(h.Mask(a), h.Mask(b), h.Mask(c));
  }

  lemma StandardTogether(h: Platform, v: int, a: int)
    ensures h.EnumToStdAndColor(v, a) == Together(h, StandardBits(v, a))
  {
    hide With, Together, h.Mask, h.EnumToStdAndColor;
    Encoded(h, v, a);
    if 1 <= v <= 3 {
      var c := v - 1;
      if v == 3 && a == 2 {
        ThreeTogether(h, 2, 9, 10);
      } else if 0 <= a <= 3 || (v == 3 && a == 4) {
        TwoTogether(h, c, SoundMask(v, a));
      } else {
        OneTogether(h, c);
        assert [c] + [] == [c];
      }
    } else {
      NothingTogether(h);
    }
  }

  /** The number of the one mask for an audio standard. */
  function SoundMask(v: int, a: int): nat {
    if v == 3 && a == 0 then 8 else if v == 3 && a == 4 then 11 else if v != 1 && a == 3 then 7
    else if a >= 0 then a + 3 else 0
  }

  lemma Encoded(h: Platform, v: int, a: int)
    ensures h.EnumToStdAndColor(v, a) ==
            if v < 1 || v > 3 then 0
            else if v == 3 && a == 2 then With(h.Mask(2), With(h.Mask(9), h.Mask(10)))
            else if 0 <= a <= 3 || (v == 3 && a == 4) then With(h.Mask(v - 1), h.Mask(SoundMask(v, a)))
            else With(h.Mask(v - 1), 0)
  {
    hide With, h.Mask, h.EnumToStdAndColor;
    EncodedPal(h, a);
    EncodedNtsc(h, a);
    EncodedSecam(h, a);
    assert !(1 <= v <= 3) ==> h.EnumToStdAndColor(v, a) == 0 by {
      EncodedOther(h, v, a);
    }
  }

  lemma EncodedPal(h: Platform, a: int)
    ensures h.EnumToStdAndColor(1, a) == With(h.Mask(0), if 0 <= a <= 3 then h.Mask(SoundMask(1, a)) else 0)
  {
    hide With;
  }

  lemma EncodedNtsc(h: Platform, a: int)
    ensures h.EnumToStdAndColor(2, a) == With(h.Mask(1), if 0 <= a <= 3 then h.Mask(SoundMask(2, a)) else 0)
  {
    hide With;
  }

  lemma EncodedSecam(h: Platform, a: int)
    ensures h.EnumToStdAndColor(3, a) ==
            With(h.Mask(2), if a == 2 then With(h.Mask(9), h.Mask(10))
                            else if 0 <= a <= 4 then h.Mask(SoundMask(3, a)) else 0)
  {
    hide With;
  }

  lemma EncodedOther(h: Platform, v: int, a: int)
    ensures 1 <= v <= 3 || h.EnumToStdAndColor(v, a) == 0
  {
    hide With;
  }

  lemma NothingTogether(h: Platform)
    ensures Together(h, []) == 0
  {}

  /** Video and audio standard go into one bit pattern and come out again: the video standard exactly if it is
      one of PAL, NTSC and SECAM, the audio standard exactly if it is the first one or the video standard goes
      with it, which L does with SECAM only. */
  lemma StandardsRoundTripIff(h: Platform, v: int, a: int)
    requires h.BitsApart()
    ensures var std := h.EnumToStdAndColor(v, a);
            && (h.VideoEnum(std) == v <==> 1 <= v <= 3)
            && (h.AudioEnum(std) == a <==> a == 0 || (1 <= v <= 3 && (1 <= a <= 3 || (v == 3 && a == 4))))
  {
    hide h.EnumToStdAndColor, h.Mask, h.VideoEnum, h.AudioEnum, h.BitsApart, StandardBits, Together, With, Has;
    StandardTogether(h, v, a);
    var ks, std := StandardBits(v, a), h.EnumToStdAndColor(v, a);
    forall j: nat | j < 12 ensures Has(std, h.Mask(j)) <==> j in ks {
      InTogether(h, ks, j);
    }
    WhichBits(v, a);
    Decoded(h, v, a, std);
  }

  lemma WhichBits(v: int, a: int)
    ensures var ks := StandardBits(v, a);
            && (0 in ks <==> v == 1) && (1 in ks <==> v == 2) && (2 in ks <==> v == 3)
            && (3 in ks <==> 1 <= v <= 2 && a == 0) && (4 in ks <==> 1 <= v <= 3 && a == 1)
            && (5 in ks <==> 1 <= v <= 2 && a == 2) && (6 in ks <==> v == 1 && a == 3)
            && (7 in ks <==> 2 <= v <= 3 && a == 3) && (8 in ks <==> v == 3 && a == 0)
            && (9 in ks <==> v == 3 && a == 2) && (10 in ks <==> v == 3 && a == 2)
            && (11 in ks <==> v == 3 && a == 4)
  {}

  /** What the two readings make of a pattern that has the masks of a video and an audio standard. */
  lemma Decoded(h: Platform, v: int, a: int, std: bv64)
    requires Has(std, h.Mask(0)) <==> v == 1
    requires Has(std, h.Mask(1)) <==> v == 2
    requires Has(std, h.Mask(2)) <==> v == 3
    requires Has(std, h.Mask(3)) <==> 1 <= v <= 2 && a == 0
    requires Has(std, h.Mask(4)) <==> 1 <= v <= 3 && a == 1
    requires Has(std, h.Mask(5)) <==> 1 <= v <= 2 && a == 2
    requires Has(std, h.Mask(6)) <==> v == 1 && a == 3
    requires Has(std, h.Mask(7)) <==> 2 <= v <= 3 && a == 3
    requires Has(std, h.Mask(8)) <==> v == 3 && a == 0
    requires Has(std, h.Mask(9)) <==> v == 3 && a == 2
    requires Has(std, h.Mask(10)) <==> v == 3 && a == 2
    requires Has(std, h.Mask(11)) <==> v == 3 && a == 4
    ensures h.VideoEnum(std) == v <==> 1 <= v <= 3
    ensures h.AudioEnum(std) == a <==> a == 0 || (1 <= v <= 3 && (1 <= a <= 3 || (v == 3 && a == 4)))
  {
    hide Has;
  }

  // ---------------------------------------------------------------- runs

  /** A tuner of any kind of state: what each successful call makes of it. */
  function Program<T>(dev: (T, Command) -> T, t: T, cs: seq<Command>): T
    decreases |cs|
  {
    if cs == [] then t else Program(dev, dev(t, cs[0]), cs[1..])
  }

  /** Putting the same request in again straight away changes nothing. */
  ghost predicate Settles<T(!new)>(h: Platform, dev: (T, Command) -> T) {
    forall t: T, p :: Program(dev, Program(dev, t, h.Commands(p)), h.Commands(p)) == Program(dev, t, h.Commands(p))
  }

  datatype Request = Request(paras: FEParas, force: bool)

  datatype Tuned<T> = Tuned(current: FEParas, tuner: T)

  /** The request is sent, not skipped. */
  predicate Sends(h: Platform, current: FEParas, r: Request) {
    r.force || !h.Same(current, r.paras)
  }

  /** One request, every call succeeding: the request in force is not sent again. */
  function Tune<T>(h: Platform, dev: (T, Command) -> T, s: Tuned<T>, r: Request): Tuned<T> {
    if !Sends(h, s.current, r) then s
    else Tuned(r.paras, Program(dev, s.tuner, h.Commands(r.paras)))
  }

  function TuneAll<T>(h: Platform, dev: (T, Command) -> T, s: Tuned<T>, rs: seq<Request>): Tuned<T>
    decreases |rs|
  {
    if rs == [] then s else TuneAll(h, dev, Tune(h, dev, s, rs[0]), rs[1..])
  }

  /** The same requests, each of them sent. */
  function SendAll<T>(h: Platform, dev: (T, Command) -> T, t: T, rs: seq<Request>): T
    decreases |rs|
  {
    if rs == [] then t else SendAll(h, dev, Program(dev, t, h.Commands(rs[0].paras)), rs[1..])
  }

  /** A request that would be skipped behind p is not one for another ISDB-T bandwidth. */
  predicate SkipsRightly(h: Platform, p: FEParas, r: Request) {
    !r.force && h.Same(p, r.paras) && h.Kind(p) == Isdbt ==> Bandwidth(p) == Bandwidth(r.paras)
  }

  /** No request but a forced one differs from the request directly before it, the first from p, in its
      ISDB-T bandwidth only. */
  predicate BandwidthsSettled(h: Platform, p: FEParas, rs: seq<Request>)
    decreases |rs|
  {
    rs == [] || (SkipsRightly(h, p, rs[0]) && BandwidthsSettled(h, rs[0].paras, rs[1..]))
  }

  /** The request before may be replaced by one that compares equal. */
  lemma SettledBehind(h: Platform, p: FEParas, q: FEParas, rs: seq<Request>)
    requires h.Same(p, q) && (h.Kind(p) == Isdbt ==> Bandwidth(p) == Bandwidth(q))
    ensures BandwidthsSettled(h, p, rs) <==> BandwidthsSettled(h, q, rs)
  {
    hide Base, Gen, Bandwidth;
    if rs != [] {
      var r := rs[0].paras;
      KindOfSame(h, p, q);
      hide h.Same, h.Kind;
      SameIsEquivalence(h, p, q, r);
      SameIsEquivalence(h, q, p, r);
    }
  }

  lemma KindOfSame(h: Platform, p: FEParas, q: FEParas)
    requires h.Same(p, q)
    ensures h.Kind(p) == h.Kind(q)
  {
    hide Base, Gen;
  }

  /** One request: skipping it leaves the tuner as sending it would. */
  lemma TuneOne<T(!new)>(h: Platform, dev: (T, Command) -> T, s: Tuned<T>, r: Request)
    requires Settles(h, dev) && Program(dev, s.tuner, h.Commands(s.current)) == s.tuner
    ensures var s' := Tune(h, dev, s, r);
            && Program(dev, s'.tuner, h.Commands(s'.current)) == s'.tuner
            && (SkipsRightly(h, s.current, r) ==> s'.tuner == Program(dev, s.tuner, h.Commands(r.paras)))
  {
    hide Program, h.Commands, h.Same, h.Kind;
    if !Sends(h, s.current, r) && SkipsRightly(h, s.current, r) {
      SameCommandsIff(h, s.current, r.paras);
    }
  }

  /** What is settled about a run is settled about the rest of it, behind the request now in force. */
  lemma SettledNext<T>(h: Platform, dev: (T, Command) -> T, s: Tuned<T>, rs: seq<Request>)
    requires rs != [] && SkipsRightly(h, s.current, rs[0])
    ensures BandwidthsSettled(h, s.current, rs)
            <==> BandwidthsSettled(h, Tune(h, dev, s, rs[0]).current, rs[1..])
  {
    hide Program, h.Commands, h.Same, h.Kind;
    if !Sends(h, s.current, rs[0]) {
      SettledBehind(h, s.current, rs[0].paras, rs[1..]);
    }
  }

  /** Over any run of requests whose calls succeed, on any tuner that settles, skipping leaves the tuner as
      if every request had been sent; `s` is the state after a first request was sent. */
  lemma {:induction false} SkippingIsSound<T(!new)>(h: Platform, dev: (T, Command) -> T, s: Tuned<T>,
                                                    rs: seq<Request>)
    requires Settles(h, dev) && Program(dev, s.tuner, h.Commands(s.current)) == s.tuner
    requires BandwidthsSettled(h, s.current, rs)
    ensures TuneAll(h, dev, s, rs).tuner == SendAll(h, dev, s.tuner, rs)
    decreases |rs|
  {
    hide Program, Settles, Tune, SkipsRightly, h.Commands;
    if rs != [] {
      TuneOne(h, dev, s, rs[0]);
      SettledNext(h, dev, s, rs);
      SkippingIsSound(h, dev, Tune(h, dev, s, rs[0]), rs[1..]);
    }
  }

  // ---------------------------------------------------------------- a tuner of registers

  datatype Registers = Registers(digital: Command, analog: Command, plp: int, layer: int)

  /** A tuner that keeps what it was last told. */
  function Keep(t: Registers, c: Command): Registers {
    match c
    case SetAnalog(_, _, _, _, _, _) => t.(analog := c)
    case SetDigital(_, _, _, _, _, _) => t.(digital := c)
    case SetPlp(v) => t.(plp := v)
    case SetLayer(v) => t.(layer := v)
  }

  /** The second call, if there is one, goes to another register than the first. */
  lemma CommandsShape(h: Platform, p: FEParas)
    ensures var cs := h.Commands(p);
            && (cs[0].SetAnalog? || cs[0].SetDigital?)
            && (|cs| == 2 ==> cs[1].SetPlp? || cs[1].SetLayer?)
  {
    hide Base, Gen, GetInt, h.EnumToStdAndColor;
  }

  lemma RegistersSettle(h: Platform)
    ensures Settles(h, Keep)
  {
    hide Program;
    forall t: Registers, p ensures Program(Keep, Program(Keep, t, h.Commands(p)), h.Commands(p))
                                   == Program(Keep, t, h.Commands(p))
    {
      CommandsShape(h, p);
      ProgramShort(t, h.Commands(p));
      var u := Program(Keep, t, h.Commands(p));
      ProgramShort(u, h.Commands(p));
    }
  }

  /** What a request's members end up as: each reaches the register of its kind, and no register another
      kind uses is touched. */
  lemma RequestReachesTuner(h: Platform, p: FEParas, t: Registers)
    ensures var u := Program(Keep, t, h.Commands(p));
            && (h.Kind(p) == Analog ==> u == t.(analog := u.analog) && u.analog.SetAnalog?)
            && (h.Kind(p) != Analog ==>
                  u.analog == t.analog && u.digital.SetDigital? && u.digital.m_type == Base(p)
                  && (h.Kind(p) != NoKind ==> u.digital.frequency == Frequency(p)))
            && (h.Kind(p) in {Ofdm, Dtmb, Isdbt} ==> u.digital.bandwidth == Bandwidth(p))
            && (h.Kind(p) in {Atsc, Qam} ==> u.digital.modulation == Modulation(p))
            && (h.Kind(p) == Qam ==> u.digital.symbol_rate == Symbolrate(p))
            && (h.Kind(p) == Ofdm ==> u.digital.gen == Gen(p))
            && u.plp == (if h.Kind(p) == Ofdm && Gen(p) != 0 then Plp(p) else t.plp)
            && u.layer == (if h.Kind(p) == Isdbt then Layer(p) else t.layer)
  {
    hide Program, Base, Gen, GetInt, h.EnumToStdAndColor;
    ProgramShort(t, h.Commands(p));
  }

  /** What an analog request sets. */
  lemma AnalogReachesTuner(h: Platform, p: FEParas, t: Registers)
    requires h.Kind(p) == Analog
    ensures var u := Program(Keep, t, h.Commands(p)).analog;
            && u.SetAnalog? && u.frequency == Frequency(p)
            && u.std == h.EnumToStdAndColor(VideoStd(p), AudioStd(p)) && u.audmode == u.std & 0x00FF_FFFF
            && (u.afc <==> Afc(p) == 0) && u.afc_range == (if Afc(p) == 0 then 1000000 else 0)
            && u.soundsys == if Soundsys(p) >= 0 then Soundsys(p) else 0xFF
  {
    hide Program, Base, Gen, GetInt, h.EnumToStdAndColor;
    ProgramShort(t, h.Commands(p));
  }

  lemma ProgramShort(t: Registers, cs: seq<Command>)
    requires 1 <= |cs| <= 2
    ensures Program(Keep, t, cs) == if |cs| == 1 then Keep(t, cs[0]) else Keep(Keep(t, cs[0]), cs[1])
  {
    var t' := Keep(t, cs[0]);
    assert Program(Keep, t, cs) == Program(Keep, t', cs[1..]);
    if |cs| == 2 {
      assert Program(Keep, t', cs[1..]) == Program(Keep, Keep(t', cs[1]), cs[1..][1..]);
      assert cs[1..][1..] == [];
    }
  }

  /** On such a tuner, skipping a request that compares equal is right exactly when it is not an ISDB-T
      request for another bandwidth. */
  lemma SkipSoundIff(h: Platform, p: FEParas, q: FEParas, t: Registers)
    requires h.Same(p, q)
    ensures var u := Program(Keep, t, h.Commands(p));
            Program(Keep, u, h.Commands(q)) == u <==> (h.Kind(p) == Isdbt ==> Bandwidth(p) == Bandwidth(q))
  {
    hide Settles, Mode, Base, Gen, GetInt, h.EnumToStdAndColor;
    SameCommandsIff(h, p, q);
    var u := Program(Keep, t, h.Commands(p));
    ProgramShort(t, h.Commands(p));
    ProgramShort(u, h.Commands(q));
    ProgramShort(u, h.Commands(p));
  }

  /** After each request of a run the tuner is as if every request so far had been sent. */
  ghost predicate AlwaysAgrees(h: Platform, s: Tuned<Registers>, rs: seq<Request>) {
    forall k :: 0 <= k <= |rs| ==> TuneAll(h, Keep, s, rs[..k]).tuner == SendAll(h, Keep, s.tuner, rs[..k])
  }

  /** Over a whole run on a tuner of registers, skipping is right all along if and only if no request but a
      forced one differs from the one directly before it in its ISDB-T bandwidth only. */
  lemma {:induction false} SkippingIsSoundIff(h: Platform, s: Tuned<Registers>, rs: seq<Request>)
    requires Program(Keep, s.tuner, h.Commands(s.current)) == s.tuner
    ensures AlwaysAgrees(h, s, rs) <==> BandwidthsSettled(h, s.current, rs)
    decreases |rs|
  {
    hide Program, Keep, Tune, SkipsRightly, AlwaysAgrees, h.Commands;
    if rs == [] {
      NothingDisagrees(h, s);
    } else {
      FirstAgrees(h, s, rs[0]);
      AgreesNext(h, s, rs);
      if SkipsRightly(h, s.current, rs[0]) {
        RegistersSettle(h);
        TuneOne(h, Keep, s, rs[0]);
        SettledNext(h, Keep, s, rs);
        SkippingIsSoundIff(h, Tune(h, Keep, s, rs[0]), rs[1..]);
      }
    }
  }

  lemma NothingDisagrees(h: Platform, s: Tuned<Registers>)
    ensures AlwaysAgrees(h, s, [])
  {
    forall k | 0 <= k <= 0
      ensures TuneAll(h, Keep, s, [][..k]).tuner == SendAll(h, Keep, s.tuner, [][..k])
    {
      var none: seq<Request> := [];
      assert none[..k] == [];
    }
  }

  lemma FirstAgrees(h: Platform, s: Tuned<Registers>, r: Request)
    requires Program(Keep, s.tuner, h.Commands(s.current)) == s.tuner
    ensures Tune(h, Keep, s, r).tuner == Program(Keep, s.tuner, h.Commands(r.paras))
            <==> SkipsRightly(h, s.current, r)
  {
    hide Program, Keep, h.Commands, h.Same, h.Kind;
    if !Sends(h, s.current, r) {
      SkipSoundIff(h, s.current, r.paras, s.tuner);
    }
  }

  lemma AgreesNext(h: Platform, s: Tuned<Registers>, rs: seq<Request>)
    requires rs != []
    ensures var s' := Tune(h, Keep, s, rs[0]);
            AlwaysAgrees(h, s, rs)
            <==> s'.tuner == Program(Keep, s.tuner, h.Commands(rs[0].paras)) && AlwaysAgrees(h, s', rs[1..])
  {
    hide Program, Keep, Tune, h.Commands;
    var s' := Tune(h, Keep, s, rs[0]);
    forall k | 0 < k <= |rs|
      ensures TuneAll(h, Keep, s, rs[..k]) == TuneAll(h, Keep, s', rs[1..][..k - 1])
      ensures SendAll(h, Keep, s.tuner, rs[..k])
           == SendAll(h, Keep, Program(Keep, s.tuner, h.Commands(rs[0].paras)), rs[1..][..k - 1])
    {
      assert rs[..k][1..] == rs[1..][..k - 1];
    }
    if AlwaysAgrees(h, s, rs) {
      assert rs[..1][0] == rs[0] && rs[1..][..0] == [];
      assert TuneAll(h, Keep, s, rs[..1]).tuner == SendAll(h, Keep, s.tuner, rs[..1]);
      forall k | 0 <= k <= |rs[1..]|
        ensures TuneAll(h, Keep, s', rs[1..][..k]).tuner == SendAll(h, Keep, s'.tuner, rs[1..][..k])
      {
        var k' := k + 1;
        assert TuneAll(h, Keep, s, rs[..k']).tuner == SendAll(h, Keep, s.tuner, rs[..k']);
        assert k' - 1 == k;
      }
    }
    if s'.tuner == Program(Keep, s.tuner, h.Commands(rs[0].paras)) && AlwaysAgrees(h, s', rs[1..]) {
      forall k | 0 <= k <= |rs| ensures TuneAll(h, Keep, s, rs[..k]).tuner == SendAll(h, Keep, s.tuner, rs[..k]) {
        if k == 0 {
          assert rs[..k] == [];
        } else {
          var k' := k - 1;
          assert TuneAll(h, Keep, s', rs[1..][..k']).tuner == SendAll(h, Keep, s'.tuner, rs[1..][..k']);
        }
      }
    }
  }

  // ---------------------------------------------------------------- when a call fails

  /** One request of which only the first k calls succeed: the request is remembered all the same. */
  function TuneUpTo<T>(h: Platform, dev: (T, Command) -> T, s: Tuned<T>, r: Request, k: nat): Tuned<T>
    requires k <= |h.Commands(r.paras)|
  {
    if !Sends(h, s.current, r) then s
    else Tuned(r.paras, Program(dev, s.tuner, h.Commands(r.paras)[..k]))
  }

  /** After a request failed at any of its calls, repeating it runs all its calls if and only if the repeat
      is forced or the request is of no known kind; otherwise it changes nothing. */
  lemma RetriedIff<T>(h: Platform, dev: (T, Command) -> T, s: Tuned<T>, p: FEParas, k: nat, again: bool)
    requires k <= |h.Commands(p)| && !h.Same(s.current, p)
    ensures var failed := TuneUpTo(h, dev, s, Request(p, false), k);
            && failed.current == p && failed.tuner == Program(dev, s.tuner, h.Commands(p)[..k])
            && (Sends(h, failed.current, Request(p, again)) <==> again || h.Kind(p) == NoKind)
            && Tune(h, dev, failed, Request(p, again)) ==
               if again || h.Kind(p) == NoKind then Tuned(p, Program(dev, failed.tuner, h.Commands(p))) else failed
  {
    hide h.Same, h.Kind, h.Commands;
    SameIsEquivalence(h, p, p, p);
  }

  /** A tuner of registers that a request failed on after k calls ends, when the request is repeated, as if
      it had succeeded at once if and only if the repeat is sent or every call that was missed would have
      changed nothing. */
  lemma RecoversIff(h: Platform, s: Tuned<Registers>, p: FEParas, k: nat, again: bool)
    requires k <= |h.Commands(p)| && !h.Same(s.current, p)
    ensures var cs := h.Commands(p);
            var failed := TuneUpTo(h, Keep, s, Request(p, false), k);
            Tune(h, Keep, failed, Request(p, again)).tuner == Program(Keep, s.tuner, cs)
            <==> (again || h.Kind(p) == NoKind || forall i :: k <= i < |cs| ==> Keep(s.tuner, cs[i]) == s.tuner)
  {
    hide h.Commands, h.Same, h.Kind, Program;
    RetriedIff(h, Keep, s, p, k, again);
    CommandsShape(h, p);
    var cs, u := h.Commands(p), Program(Keep, s.tuner, h.Commands(p)[..k]);
    ProgramPrefix(s.tuner, cs, k);
    ProgramShort(s.tuner, cs);
    ProgramShort(u, cs);
  }

  lemma ProgramPrefix(t: Registers, cs: seq<Command>, k: nat)
    requires 1 <= |cs| <= 2 && k <= |cs|
    ensures Program(Keep, t, cs[..k]) == if k == 0 then t else if k == 1 then Keep(t, cs[0])
                                         else Keep(Keep(t, cs[0]), cs[1])
  {
    if k > 0 {
      ProgramShort(t, cs[..k]);
    }
  }

  // ---------------------------------------------------------------- the program

  class FEMode {
    var mMode: word

    constructor (mode: int)
      ensures mMode == mode % 0x1_0000_0000
    {
      mMode := mode % 0x1_0000_0000;
    }

    method Set8(n: nat, v: int)
      requires n < 4
      modifies this
      ensures Get8(mMode, n) == v % 0x100
      ensures forall k :: 0 <= k < 4 && k != n ==> Get8(mMode, k) == Get8(old(mMode), k)
    {
      hide Get8, WithByte;
      forall k | 0 <= k < 4 ensures Get8(WithByte(mMode, n, v), k) == if k == n then v % 0x100 else Get8(mMode, k) {
        GetAfterSet(mMode, n, v, k);
      }
      mMode := WithByte(mMode, n, v);
    }
  }

  /** The tuner driver: the calls that succeeded, and which of the calls to come will. */
  class TunerDevice {
    var executed: seq<Command>
    var outcomes: seq<bool>

    constructor (outcomes: seq<bool>)
      ensures executed == [] && this.outcomes == outcomes
    {
      executed := [];
      this.outcomes := outcomes;
    }

    method Call(c: Command) returns (ret: int)
      modifies this
      ensures ret == 0 <==> Succeeds(old(outcomes))
      ensures executed == old(executed) + if ret == 0 then [c] else []
      ensures outcomes == Later(old(outcomes))
    {
      ret := if Succeeds(outcomes) then 0 else -1;
      if ret == 0 {
        executed := executed + [c];
      }
      outcomes := Later(outcomes);
    }
  }

  predicate Succeeds(outcomes: seq<bool>) {
    outcomes == [] || outcomes[0]
  }

  function Later(outcomes: seq<bool>): seq<bool> {
    if outcomes == [] then [] else outcomes[1..]
  }

  /** How many of n calls succeed before one fails. */
  function Passing(outcomes: seq<bool>, n: nat): (k: nat)
    ensures k <= n
  {
    if n == 0 || !Succeeds(outcomes) then 0 else 1 + Passing(Later(outcomes), n - 1)
  }

  class CFrontEnd {
    const h: Platform
    const tuner: TunerDevice
    var mFEParas: FEParas
    var mCurMode: int
    var mVLCurMode: int
    var mCurFreq: int
    var mCurPara1: int
    var mCurPara2: int
    var mCurPara3: int
    var mCurPara4: int

    constructor (h: Platform, tuner: TunerDevice)
      ensures this.h == h && this.tuner == tuner && mFEParas == map[]
    {
      this.h, this.tuner := h, tuner;
      mFEParas := map[];
    }

    /** Remembers the request, and its members in the four slots older callers read. The fourth keeps what
        it held unless the request is analog. */
    method SaveCurrentParas(paras: FEParas)
      modifies this
      ensures mFEParas == paras && mCurFreq == Frequency(paras)
      ensures h.Kind(paras) == Analog ==>
                && mCurMode == old(mCurMode) && mVLCurMode == Base(paras)
                && mCurPara2 == Afc(paras) && mCurPara3 == VFmt(paras) && mCurPara4 == Soundsys(paras)
                && mCurPara1 == h.EnumToStdAndColor(VideoStd(paras), AudioStd(paras)) as int
      ensures h.Kind(paras) != Analog ==>
                && mCurMode == Base(paras) && mVLCurMode == old(mVLCurMode)
                && mCurPara3 == 0 && mCurPara4 == old(mCurPara4)
                && mCurPara1 == (match h.Kind(paras)
                                 case Dtmb | Ofdm | Isdbt => Bandwidth(paras)
                                 case Qam => Symbolrate(paras)
                                 case Atsc => Modulation(paras)
                                 case _ => 0)
                && mCurPara2 == (match h.Kind(paras)
                                 case Qam => Modulation(paras)
                                 case Isdbt => Layer(paras)
                                 case _ => 0)
    {
      hide h.Kind, h.EnumToStdAndColor, Base, Frequency, Bandwidth, Symbolrate, Modulation, Layer, Afc, VFmt, Soundsys;
      mFEParas := paras;
      if h.Kind(mFEParas) != Analog {
        mCurMode := Base(mFEParas);
      }
      mCurFreq := Frequency(mFEParas);
      mCurPara1, mCurPara2, mCurPara3 := 0, 0, 0;
      match h.Kind(mFEParas)
      case Dtmb | Ofdm =>
        mCurPara1 := Bandwidth(mFEParas);
      case Qam =>
        mCurPara1 := Symbolrate(mFEParas);
        mCurPara2 := Modulation(mFEParas);
      case Atsc =>
        mCurPara1 := Modulation(mFEParas);
      case Analog =>
        mCurPara1 := h.EnumToStdAndColor(VideoStd(mFEParas), AudioStd(mFEParas)) as int;
        mCurPara2 := Afc(mFEParas);
        mCurPara3 := VFmt(mFEParas);
        mCurPara4 := Soundsys(mFEParas);
        mVLCurMode := Base(mFEParas);
      case Isdbt =>
        mCurPara1 := Bandwidth(mFEParas);
        mCurPara2 := Layer(mFEParas);
      case NoKind =>
    }

    /** The request in force and what the calls made so far have made of the tuner, `t0` before the first. */
    ghost function Reached<T>(dev: (T, Command) -> T, t0: T): Tuned<T>
      reads this`mFEParas, tuner`executed
    {
      Tuned(mFEParas, Program(dev, t0, tuner.executed))
    }

    /** A request equal to the one in force changes nothing, unless it is forced. Any other is remembered
        and sent call by call until one fails. Whatever the calls do to a tuner, the result is one step of
        the run, cut off at the call that fails. */
    method SetPara<T>(paras: FEParas, force: bool, ghost dev: (T, Command) -> T, ghost t0: T) returns (ret: int)
      modifies this, tuner
      ensures var k := Passing(old(tuner.outcomes), |h.Commands(paras)|);
              && Reached(dev, t0) == TuneUpTo(h, dev, old(Reached(dev, t0)), Request(paras, force), k)
              && (ret == 0 ==> Reached(dev, t0) == Tune(h, dev, old(Reached(dev, t0)), Request(paras, force)))
      ensures old(h.Same(mFEParas, paras)) && !force ==>
                ret == 0 && unchanged(this) && unchanged(tuner)
      ensures !old(h.Same(mFEParas, paras)) || force ==>
                var cs := h.Commands(paras);
                var k := Passing(old(tuner.outcomes), |cs|);
                && mFEParas == paras
                && tuner.executed == old(tuner.executed) + cs[..k]
                && ret == (if k == |cs| then 0 else -1)
                && mCurMode == (if h.Kind(paras) == Analog then h.feAnalog else Base(paras))
                && mVLCurMode == (if h.Kind(paras) == Analog then Base(paras) else h.feAuto)
    {
      hide h.Same, h.Commands, h.Kind, Base, Passing, Succeeds, Program, TuneUpTo, Tune;
      AfterCalls(h, dev, t0, tuner.executed, mFEParas, Request(paras, force),
                 Passing(tuner.outcomes, |h.Commands(paras)|));
      if h.Same(mFEParas, paras) && !force {
        return 0;
      }
      SaveCurrentParas(paras);
      var cs := h.Commands(mFEParas);
      ghost var before, k := tuner.executed, Passing(tuner.outcomes, |cs|);
      PassingShort(tuner.outcomes, |cs|);
      OneOrTwo(tuner.executed, cs);
      ret := tuner.Call(cs[0]);
      if h.Kind(paras) == Analog {
        mCurMode := h.feAnalog;
        mVLCurMode := Base(mFEParas);
      } else {
        mCurMode := Base(mFEParas);
        mVLCurMode := h.feAuto;
      }
      if ret != 0 {
        assert tuner.executed == before + cs[..k];
        return -1;
      }
      ret := SetProperties();
      assert tuner.executed == before + cs[..k];
    }

    /** The property set after the main parameters: the stream of a second-generation OFDM signal, or the
        layers of an ISDB-T one. */
    method SetProperties() returns (ret: int)
      modifies tuner
      ensures var cs := h.Commands(mFEParas);
              if |cs| == 1 then ret == 0 && unchanged(tuner)
              else && (ret == if Succeeds(old(tuner.outcomes)) then 0 else -1)
                   && tuner.executed == old(tuner.executed) + if ret == 0 then [cs[1]] else []
    {
      hide h.EnumToStdAndColor, Mode, GetInt;
      ret := 0;
      if h.Kind(mFEParas) == Ofdm && Gen(mFEParas) != 0 {
        ret := tuner.Call(SetPlp(Plp(mFEParas)));
        if ret != 0 {
          return -1;
        }
      }
      if h.Kind(mFEParas) == Isdbt {
        ret := tuner.Call(SetLayer(Layer(mFEParas)));
        if ret != 0 {
          return -1;
        }
      }
    }
  }

  lemma {:induction false} ProgramConcat<T>(dev: (T, Command) -> T, t: T, p: seq<Command>, q: seq<Command>)
    ensures Program(dev, t, p + q) == Program(dev, Program(dev, t, p), q)
    decreases |p|
  {
    if p == [] {
      assert p + q == q;
    } else {
      assert (p + q)[0] == p[0] && (p + q)[1..] == p[1..] + q;
      ProgramConcat(dev, dev(t, p[0]), p[1..], q);
    }
  }

  /** A request skipped, or the tuner after the first k of its calls. */
  lemma AfterCalls<T>(h: Platform, dev: (T, Command) -> T, t0: T, before: seq<Command>, current: FEParas, r: Request,
                      k: nat)
    requires k <= |h.Commands(r.paras)|
    ensures var cs := h.Commands(r.paras);
            var s := Tuned(current, Program(dev, t0, before));
            var s' := if Sends(h, current, r) then Tuned(r.paras, Program(dev, t0, before + cs[..k])) else s;
            && TuneUpTo(h, dev, s, r, k) == s'
            && (!Sends(h, current, r) || k == |cs| ==> Tune(h, dev, s, r) == s')
  {
    hide Program;
    var cs := h.Commands(r.paras);
    hide h.Commands, h.Same;
    ProgramConcat(dev, t0, before, cs[..k]);
    assert k == |cs| ==> cs[..k] == cs;
  }

  lemma OneOrTwo(before: seq<Command>, cs: seq<Command>)
    requires 1 <= |cs| <= 2
    ensures before + cs[..0] == before && before + cs[..1] == before + [cs[0]]
    ensures |cs| == 2 ==> before + cs[..2] == before + [cs[0]] + [cs[1]]
  {}

  /** Passing over one or two calls. */
  lemma PassingShort(outcomes: seq<bool>, n: nat)
    requires 1 <= n <= 2
    ensures Passing(outcomes, n) ==
            if !Succeeds(outcomes) then 0 else if n == 1 || !Succeeds(Later(outcomes)) then 1 else 2
  {
    if n == 2 && Succeeds(outcomes) {
      assert Passing(Later(outcomes), 1) == if Succeeds(Later(outcomes)) then 1 else 0;
    }
  }
}
