/** The project-info string: built from what the panel board reports, checked, split into its items, and
    kept once it was read without an error. C strings are sequences of non-zero characters. */
module ProjectInfo {
  import opened Words
  import opened Text
  import Crc32
  import FbcFrame
  import FbcProtocol
  import FbcCommunication

  const HEAD_CHKSUM_LEN: nat := 9
  const VERSION_LEN: nat := 5
  const ITEM_MAX_LEN: nat := 64

  function Checksum(s: string): word {
    Crc32.Crc(0, Ascii(s))
  }

  /** "%08x,%s" */
  function Printed(s: string): string {
    HexPadded(Checksum(s), 8) + "," + s
  }

  // ---------------------------------------------------------------- checking

  /** What the version is parsed from: the four characters behind the v, and behind them whatever the
      checksum left in the buffer. */
  function VersionText(data: string): string
    requires |data| > HEAD_CHKSUM_LEN + VERSION_LEN
  {
    data[10..14] + data[5..9]
  }

  /** The version of a valid string, or -1. */
  function Validated(data: string): int {
    if |data| <= HEAD_CHKSUM_LEN + VERSION_LEN then -1
    else if Checksum(data[9..]) != Strtoul16(data[..9]) then -1
    else if !(data[9] == 'v' || data[9] == 'V') then -1
    else if !(IsHexDigit(data[10]) && IsHexDigit(data[11]) && IsHexDigit(data[12])) then -1
    else if ToInt32(Strtoul16(VersionText(data))) <= 0 then -1
    else ToInt32(Strtoul16(VersionText(data)))
  }

  /** The reader's own copy of the nibble loop. */
  method CalCRC32(crc: word, ptr: array?<byte>, buf_len: nat) returns (r: word)
    requires ptr != null ==> buf_len <= ptr.Length
    ensures r == if ptr == null then 0 else Crc32.Crc(crc, ptr[..buf_len])
  {
    if ptr == null {
      return 0;
    }
    var crcu32 := Crc32.Not(crc);
    ghost var s := ptr[..buf_len];
    var left, p := buf_len, 0;
    while left != 0
      invariant 0 <= left <= buf_len && p == buf_len - left
      invariant crcu32 == Crc32.FeedBits(Crc32.Not(crc), Crc32.MessageBits(s[..p]))
    {
      left := left - 1;
      var b := ptr[p];
      Crc32.FeedNext(Crc32.Not(crc), s, p);
      p := p + 1;
      Crc32.NibbleStepsAreEightClocks(crcu32, b);
      crcu32 := Crc32.NibbleStep(crcu32, b % 16);
      crcu32 := Crc32.NibbleStep(crcu32, b / 16);
    }
    assert s[..buf_len] == s;
    return Crc32.Not(crcu32);
  }

  /** The checksum of a text, from 0. */
  method ChecksumOf(text: string) returns (crc: word)
    ensures crc == Checksum(text)
  {
    hide Crc32.Crc;
    var bytes := new byte[|text|](i requires 0 <= i < |text| => Ascii(text)[i]);
    assert bytes[..|text|] == Ascii(text);
    crc := CalCRC32(0, bytes, |text|);
  }

  method IsProjectInfoValid(data: string) returns (r: int)
    ensures r == Validated(data)
    ensures r == -1 || r > 0
  {
    hide Strtoul16, Checksum;
    if |data| > HEAD_CHKSUM_LEN + VERSION_LEN {
      var calChksum := ChecksumOf(data[HEAD_CHKSUM_LEN..]);
      var tmpBuf := data[..HEAD_CHKSUM_LEN];
      var srcChksum := Strtoul16(tmpBuf);
      if calChksum == srcChksum {
        tmpBuf := data[HEAD_CHKSUM_LEN..HEAD_CHKSUM_LEN + VERSION_LEN] + tmpBuf[VERSION_LEN..];
        if (tmpBuf[0] == 'v' || tmpBuf[0] == 'V') && IsHexDigit(tmpBuf[1]) && IsHexDigit(tmpBuf[2])
           && IsHexDigit(tmpBuf[3]) {
          assert tmpBuf[1..] == VersionText(data);
          var tmpVer := ToInt32(Strtoul16(tmpBuf[1..]));
          if tmpVer <= 0 {
            return -1;
          }
          return tmpVer;
        }
        return -1;
      }
    }
    return -1;
  }

  // ---------------------------------------------------------------- splitting

  function SkipCommas(s: string): (r: string)
    ensures |r| <= |s| && (r == "" || r[0] != ',')
  {
    if s != "" && s[0] == ',' then SkipCommas(s[1..]) else s
  }

  /** The length of the text before the first comma. */
  function Span(s: string): (n: nat)
    ensures n <= |s| && (n < |s| ==> s[n] == ',') && ',' !in s[..n]
    ensures s != "" && s[0] != ',' ==> n > 0
  {
    if s == "" || s[0] == ',' then 0
    else
      assert s[..1 + Span(s[1..])] == [s[0]] + s[1..][..Span(s[1..])];
      1 + Span(s[1..])
  }

  /** The items strtok finds: runs of commas separate, empty items do not count. */
  function Tokens(s: string): seq<string>
    decreases |s|
  {
    var t := SkipCommas(s);
    if t == "" then [] else [t[..Span(t)]] + Tokens(t[Span(t)..])
  }

  datatype Info = Info(version: string, panel_type: string, panel_outputmode: string, panel_rev: string,
                       panel_name: string, amp_curve_name: string)

  const NO_INFO := Info("", "", "", "", "", "")

  /** strncpy into an item of 64 characters. */
  function Truncated(s: string): string {
    if |s| < ITEM_MAX_LEN then s else s[..ITEM_MAX_LEN - 1]
  }

  /** One item stored by its position; versions other than 1 have another order. */
  function WithItem(ver: int, ind: nat, item: string, info: Info): Info {
    match ind
    case 0 => info.(version := Truncated(item))
    case 1 => info.(panel_type := Truncated(item))
    case 2 => if ver == 1 then info.(panel_outputmode := Truncated(item)) else info.(panel_name := Truncated(item))
    case 3 => if ver == 1 then info.(panel_rev := Truncated(item)) else info.(panel_outputmode := Truncated(item))
    case 4 => if ver == 1 then info.(panel_name := Truncated(item)) else info.(panel_rev := Truncated(item))
    case 5 => info.(amp_curve_name := Truncated(item))
    case _ => info
  }

  function Filled(ver: int, items: seq<string>): Info {
    if items == [] then NO_INFO
    else WithItem(ver, |items| - 1, items[|items| - 1], Filled(ver, items[..|items| - 1]))
  }

  datatype Result = Failed | Ok(info: Info)

  /** What a caller gets from a project-info string. */
  function Interpreted(data: string): Result {
    if Validated(data) > 0 then Ok(Filled(Validated(data), Tokens(data[HEAD_CHKSUM_LEN..]))) else Failed
  }

  /** The check, the splitting loop and the storing of the items. */
  method Interpret(data: string) returns (r: Result)
    ensures r == Interpreted(data)
  {
    hide Validated;
    var ver := IsProjectInfoValid(data);
    if ver <= 0 {
      return Failed;
    }
    ValidIsLong(data);
    var text := data[HEAD_CHKSUM_LEN..];
    var info, rest, itemCnt := NO_INFO, SkipCommas(text), 0;
    ghost var items: seq<string> := [];
    TokensSkip(text);
    while rest != ""
      invariant rest == "" || rest[0] != ','
      invariant itemCnt == |items| && info == Filled(ver, items) && Tokens(text) == items + Tokens(rest)
      decreases |rest|
    {
      var n := Span(rest);
      var item := rest[..n];
      FilledNext(ver, items, item);
      TokensStep(rest, items);
      info := WithItem(ver, itemCnt, item, info);
      rest := SkipCommas(rest[n..]);
      items := items + [item];
      itemCnt := itemCnt + 1;
    }
    assert items + Tokens(rest) == items;
    r := Ok(info);
  }

  lemma ValidIsLong(data: string)
    requires Validated(data) > 0
    ensures |data| > HEAD_CHKSUM_LEN + VERSION_LEN
  {}

  lemma FilledNext(ver: int, items: seq<string>, item: string)
    ensures Filled(ver, items + [item]) == WithItem(ver, |items|, item, Filled(ver, items))
  {
    assert (items + [item])[..|items|] == items;
  }

  lemma TokensSkip(s: string)
    ensures Tokens(SkipCommas(s)) == Tokens(s)
  {
    SkipTwice(s);
  }

  lemma {:induction false} SkipTwice(s: string)
    ensures SkipCommas(SkipCommas(s)) == SkipCommas(s)
  {}

  lemma TokensStep(rest: string, items: seq<string>)
    requires rest != "" && rest[0] != ','
    ensures items + Tokens(rest) == items + [rest[..Span(rest)]] + Tokens(SkipCommas(rest[Span(rest)..]))
  {
    hide Tokens;
    TokensUnfold(rest);
    TokensSkip(rest[Span(rest)..]);
    Assoc(items, [rest[..Span(rest)]], Tokens(rest[Span(rest)..]));
  }

  lemma TokensUnfold(rest: string)
    requires rest != "" && rest[0] != ','
    ensures Tokens(rest) == [rest[..Span(rest)]] + Tokens(rest[Span(rest)..])
  {
    assert SkipCommas(rest) == rest;
  }

  lemma Assoc<T>(a: seq<T>, b: seq<T>, c: seq<T>)
    ensures a + b + c == a + (b + c)
  {}

  // ---------------------------------------------------------------- reading, and keeping what was read

  type Option<T> = FbcFrame.Option<T>

  /** What one call finds: the configuration, the boot environment, whether a link object was given, and the
      board's answers: its software version, project id (return code and value) and panel name. */
  datatype Env = Env(config: string, bootEnv: string, fbc: bool, swVersion: Option<string>,
                     projectId: (int, int), panel: Option<string>)

  datatype Source = BootEnvironment | EmmcKey | FbcVersion

  function SourceOf(config: string): Source {
    if config == "emmckey" then EmmcKey else if config == "fbc_ver" then FbcVersion else BootEnvironment
  }

  function BoardText(build: string, panel: string): string {
    "v001," + (build + ("," + ("4k2k60hz420,no_rev," + (panel + ",8o8w,0,0"))))
  }

  lemma BoardTextJoined(build: string, panel: string)
    ensures "v001," + build + ",4k2k60hz420,no_rev," + panel + ",8o8w,0,0" == BoardText(build, panel)
  {
    assert ",4k2k60hz420,no_rev," == "," + "4k2k60hz420,no_rev,";
    JoinFive("v001,", build, ",", "4k2k60hz420,no_rev,", panel, ",8o8w,0,0");
  }

  lemma JoinFive(a: string, b: string, c: string, d: string, e: string, f: string)
    ensures a + b + (c + d) + e + f == a + (b + (c + (d + (e + f))))
  {}

  predicate Prototype(sw: string) {
    sw != "" && (sw[0] == '1' || sw[0] == '2')
  }

  function BuildName(e: Env): string {
    if e.projectId.0 == 0 then "fbc_" + IntText(e.projectId.1) else "fbc_0"
  }

  /** The string for a board that is not a prototype; a missing panel name is replaced by the build name. */
  function BoardString(e: Env): string {
    Printed(BoardText(BuildName(e), if e.panel.Some? then e.panel.value else BuildName(e)))
  }

  /** Every answer came without an error. */
  predicate Complete(e: Env) {
    e.projectId.0 == 0 && e.panel.Some?
  }

  datatype Cache = Cache(pass: bool, buf: string)

  /** The string one call gets, if any, and the cache after it. */
  function Read(c: Cache, e: Env): (Option<string>, Cache) {
    match SourceOf(e.config)
    case BootEnvironment => (if e.bootEnv == "null" then FbcFrame.None else FbcFrame.Some(e.bootEnv), c)
    case EmmcKey => (FbcFrame.None, c)
    case FbcVersion =>
      if !e.fbc then (FbcFrame.None, c)
      else if c.pass then (FbcFrame.Some(c.buf), c)
      else if e.swVersion.None? then (FbcFrame.None, Cache(false, ""))
      else if Prototype(e.swVersion.value) then
        (FbcFrame.Some(Printed(BoardText("fbc_2", "HV550QU2-305"))), Cache(false, ""))
      else (FbcFrame.Some(BoardString(e)), if Complete(e) then Cache(true, BoardString(e)) else Cache(false, ""))
  }

  function InfoOf(c: Cache, e: Env): Result {
    var r := Read(c, e).0;
    if r.None? then Failed else Interpreted(r.value)
  }

  class ProjectInfoReader {
    var gFBCPrjInfoRDPass: bool
    var gFBCPrjInfoBuf: string

    function State(): Cache
      reads this
    {
      Cache(gFBCPrjInfoRDPass, gFBCPrjInfoBuf)
    }

    constructor ()
      ensures State() == Cache(false, "")
    {
      gFBCPrjInfoRDPass, gFBCPrjInfoBuf := false, "";
    }

    method GetProjectInfoOriData(e: Env) returns (data: Option<string>)
      modifies this
      ensures (data, State()) == Read(old(State()), e)
    {
      hide Checksum, HexPadded, IntText;
      var srcType := SourceOf(e.config);
      match srcType
      case BootEnvironment =>
        data := if e.bootEnv == "null" then FbcFrame.None else FbcFrame.Some(e.bootEnv);
      case EmmcKey =>
        data := FbcFrame.None;
      case FbcVersion =>
        if e.fbc {
          if !gFBCPrjInfoRDPass {
            gFBCPrjInfoBuf := "";
          }
          if gFBCPrjInfoRDPass {
            return FbcFrame.Some(gFBCPrjInfoBuf);
          }
          if e.swVersion.Some? {
            data := BuildString(e);
            if !Prototype(e.swVersion.value) && Complete(e) {
              gFBCPrjInfoRDPass := true;
              gFBCPrjInfoBuf := data.value;
            }
            return;
          }
        }
        data := FbcFrame.None;
    }

    method BuildString(e: Env) returns (data: Option<string>)
      requires e.swVersion.Some?
      ensures data == FbcFrame.Some(if Prototype(e.swVersion.value)
                                    then Printed(BoardText("fbc_2", "HV550QU2-305")) else BoardString(e))
    {
      hide Checksum, HexPadded, IntText, BoardText;
      var tmpBuf, buildName;
      if Prototype(e.swVersion.value) {
        buildName := "2";
        tmpBuf := "v001,fbc_";
        tmpBuf := tmpBuf + buildName;
        tmpBuf := tmpBuf + ",4k2k60hz420,no_rev,";
        tmpBuf := tmpBuf + "HV550QU2-305";
        tmpBuf := tmpBuf + ",8o8w,0,0";
        assert "v001,fbc_" + "2" == "v001," + "fbc_2";
        BoardTextJoined("fbc_2", "HV550QU2-305");
      } else {
        buildName := if e.projectId.0 == 0 then "fbc_" + IntText(e.projectId.1) else "fbc_0";
        tmpBuf := "v001,";
        tmpBuf := tmpBuf + buildName;
        tmpBuf := tmpBuf + ",4k2k60hz420,no_rev,";
        var panel := if e.panel.Some? then e.panel.value else buildName;
        tmpBuf := tmpBuf + panel;
        tmpBuf := tmpBuf + ",8o8w,0,0";
        BoardTextJoined(buildName, panel);
      }
      var calChksum := ChecksumOf(tmpBuf);
      data := FbcFrame.Some(HexPadded(calChksum, 8) + "," + tmpBuf);
    }

    method GetProjectInfo(e: Env) returns (r: Result)
      modifies this
      ensures r == InfoOf(old(State()), e) && State() == Read(old(State()), e).1
    {
      hide Read, Interpreted;
      var data := GetProjectInfoOriData(e);
      if data.None? {
        return Failed;
      }
      r := Interpret(data.value);
    }
  }

  // ---------------------------------------------------------------- what is printed is valid

  /** Hexadecimal digits are read up to the first other character. */
  lemma StrtoulDigits(h: string, n: nat, rest: string)
    requires |h| >= 2 && forall i :: 0 <= i < |h| ==> IsHexDigit(h[i])
    requires ReadHex(h, 0) == (n, "")
    requires rest != "" && rest[0] == ','
    ensures Strtoul16(h + rest) == n
  {
    var s := h + rest;
    ReadHexStops(h, rest, 0);
    hide ReadHex;
    assert s[0] == h[0] && s[1] == h[1];
    NotSpace(s);
  }

  lemma NotSpace(s: string)
    requires s != "" && IsHexDigit(s[0])
    ensures SkipSpace(s) == s
  {
  }

  lemma PrintedParts(h: string, text: string)
    requires |h| == 8 && |text| > VERSION_LEN && text[..5] == "v001,"
    ensures var data := h + "," + text;
            && data[9..] == text && data[..9] == h + ","
            && data[9] == 'v' && data[10] == data[11] == '0' && data[12] == '1'
            && VersionText(data) == "001" + ("," + data[5..9])
  {
    var data := h + "," + text;
    assert data[9] == text[..5][0] && data[10] == text[..5][1] && data[11] == text[..5][2]
           && data[12] == text[..5][3] && data[13] == text[..5][4];
  }

  /** Every printed string with version v001 passes the check as version 1. */
  lemma PrintedIsValid(text: string)
    requires |text| > VERSION_LEN && text[..5] == "v001,"
    ensures Validated(Printed(text)) == 1
  {
    hide Strtoul16, Checksum, VersionText;
    var h, data := HexPadded(Checksum(text), 8), Printed(text);
    PrintedParts(h, text);
    Pow2Values();
    ReadHexPadded(Checksum(text), 8);
    StrtoulDigits(h, Checksum(text), ",");
    Read001();
    StrtoulDigits("001", 1, "," + data[5..9]);
  }

  lemma Read001()
    ensures ReadHex("001", 0) == (1, "")
  {
    assert "001"[1..] == "01" && "01"[1..] == "1" && "1"[1..] == "";
  }

  // ---------------------------------------------------------------- what is refused

  /** A valid string that is damaged within four characters behind its checksum is refused. */
  lemma DamagedIsRefused(d: string, d': string, k: nat)
    requires Validated(d) > 0 && |d'| == |d| && d' != d && d'[..9] == d[..9]
    requires forall i :: 0 <= i < |d| ==> d[i] as int < 256 && d'[i] as int < 256
    requires forall i :: 9 <= i < |d| && !(k <= i < k + 4) ==> d'[i] == d[i]
    ensures Validated(d') == -1 && Interpreted(d') == Failed
  {
    hide Strtoul16, Crc32.Crc, VersionText;
    ValidIsLong(d);
    var s, t := d[9..], d'[9..];
    var a, b := Ascii(s), Ascii(t);
    if a == b {
      SameBytes(d, d');
      assert false;
    }
    var k' := if k < 9 then 0 else k - 9;
    forall i | 0 <= i < |a| && !(k' <= i < k' + 4) ensures a[i] == b[i] {
      assert s[i] == d[i + 9] && t[i] == d'[i + 9];
    }
    Crc32.FourByteBurstDetected(0, a, b, k');
  }

  lemma SameBytes(d: string, d': string)
    requires |d'| == |d| > 9 && d'[..9] == d[..9]
    requires forall i :: 0 <= i < |d| ==> d[i] as int < 256 && d'[i] as int < 256
    requires Ascii(d[9..]) == Ascii(d'[9..])
    ensures d == d'
  {
    var s, t := d[9..], d'[9..];
    forall j | 0 <= j < |s| ensures s[j] == t[j] {
      assert s[j] == d[j + 9] && t[j] == d'[j + 9];
      assert Ascii(s)[j] as int == s[j] as int && Ascii(t)[j] as int == t[j] as int;
    }
    assert d == d[..9] + s && d' == d'[..9] + t;
  }

  /** A text behind any checksum but its own is refused. */
  lemma WrongChecksumIsRefused(c: word, text: string)
    requires c != Checksum(text)
    ensures Validated(HexPadded(c, 8) + "," + text) == -1
  {
    hide Strtoul16, Checksum, VersionText;
    var h := HexPadded(c, 8);
    var data := h + "," + text;
    assert data[9..] == text;
    if |text| > VERSION_LEN {
      assert data[..9] == h + ",";
      Pow2Values();
      ReadHexPadded(c, 8);
      StrtoulDigits(h, c, ",");
    }
  }

  /** A printed text passes exactly if it begins with v or V, three hexadecimal digits that do not make 0,
      and a comma's worth more; the version is the number they make. */
  lemma VersionIff(text: string)
    requires |text| > VERSION_LEN && text[4] == ','
    ensures Validated(Printed(text)) ==
            if (text[0] == 'v' || text[0] == 'V') && IsHexDigit(text[1]) && IsHexDigit(text[2]) && IsHexDigit(text[3])
            then
              var n := 256 * DigitValue(text[1]) + 16 * DigitValue(text[2]) + DigitValue(text[3]);
              if n > 0 then n else -1
            else -1
  {
    hide Strtoul16, Checksum, VersionText, DigitValue;
    var h, data := HexPadded(Checksum(text), 8), Printed(text);
    assert data[9..] == text && data[..9] == h + ",";
    assert data[9] == text[0] && data[10] == text[1] && data[11] == text[2] && data[12] == text[3];
    Pow2Values();
    ReadHexPadded(Checksum(text), 8);
    StrtoulDigits(h, Checksum(text), ",");
    if IsHexDigit(text[1]) && IsHexDigit(text[2]) && IsHexDigit(text[3]) {
      VersionDigits(text, data);
    }
  }

  lemma VersionDigits(text: string, data: string)
    requires |text| > VERSION_LEN && text[4] == ',' && |data| > 14 && data[9..] == text
    requires IsHexDigit(text[1]) && IsHexDigit(text[2]) && IsHexDigit(text[3])
    ensures Strtoul16(VersionText(data))
         == 256 * DigitValue(text[1]) + 16 * DigitValue(text[2]) + DigitValue(text[3])
  {
    hide DigitValue, Strtoul16;
    var ds := text[1..4];
    assert data[10] == text[1] && data[11] == text[2] && data[12] == text[3] && data[13] == text[4];
    assert VersionText(data) == ds + ("," + data[5..9]);
    ThreeRead(ds);
    StrtoulDigits(ds, 256 * DigitValue(ds[0]) + 16 * DigitValue(ds[1]) + DigitValue(ds[2]), "," + data[5..9]);
  }

  lemma ThreeRead(s: string)
    requires |s| == 3 && forall i :: 0 <= i < 3 ==> IsHexDigit(s[i])
    ensures ReadHex(s, 0) == (256 * DigitValue(s[0]) + 16 * DigitValue(s[1]) + DigitValue(s[2]), "")
  {
    hide DigitValue, IsHexDigit;
    assert s[1..][0] == s[1] && s[1..][1..] == s[2..] && s[2..][0] == s[2] && s[2..][1..] == "";
    var a, b := DigitValue(s[0]), 16 * DigitValue(s[0]) + DigitValue(s[1]);
    assert ReadHex(s, 0) == ReadHex(s[1..], 16 * 0 + a);
    assert ReadHex(s[1..], a) == ReadHex(s[2..], 16 * a + DigitValue(s[1]));
    assert ReadHex(s[2..], b) == ReadHex("", 16 * b + DigitValue(s[2]));
  }

  /** A text of at most five characters never passes. */
  lemma ShortIsRefused(text: string)
    requires |text| <= 5
    ensures Validated(Printed(text)) == -1
  {}

  // ---------------------------------------------------------------- what was printed is recovered

  /** An item that survives splitting and copying: not empty, without a comma, short enough. */
  predicate Plain(s: string) {
    s != "" && ',' !in s && |s| < ITEM_MAX_LEN
  }

  lemma {:induction false} SpanOf(a: string, rest: string)
    requires ',' !in a && (rest == "" || rest[0] == ',')
    ensures Span(a + rest) == |a|
  {
    if a == "" {
      assert a + rest == rest;
    } else {
      assert (a + rest)[0] == a[0] && (a + rest)[1..] == a[1..] + rest;
      SpanOf(a[1..], rest);
    }
  }

  lemma FirstToken(a: string, rest: string)
    requires a != "" && ',' !in a
    ensures Tokens(a + ("," + rest)) == [a] + Tokens(rest)
    ensures Tokens("," + rest) == Tokens(rest)
  {
    var s, r := a + ("," + rest), "," + rest;
    SpanOf(a, r);
    assert s[0] == a[0] && s[..|a|] == a && s[|a|..] == r;
    assert r[1..] == rest;
    assert SkipCommas(r) == SkipCommas(rest);
    TokensSkip(rest);
    TokensSkip(r);
  }

  lemma LastToken(a: string)
    requires a != "" && ',' !in a
    ensures Tokens(a) == [a]
  {
    SpanOf(a, "");
    assert a + "" == a;
    assert a[..|a|] == a && a[|a|..] == "";
    assert Tokens("") == [];
  }

  const TAIL: seq<string> := ["8o8w", "0", "0"]

  lemma TailTokens()
    ensures Tokens("8o8w,0,0") == TAIL
  {
    hide Tokens;
    assert "8o8w,0,0" == "8o8w" + ("," + "0,0") && "0,0" == "0" + ("," + "0");
    FirstToken("8o8w", "0,0");
    FirstToken("0", "0");
    LastToken("0");
  }

  /** The items before the panel name, whatever follows them. */
  lemma FrontTokens(build: string, rest: string)
    requires Plain(build)
    ensures Tokens("v001," + (build + ("," + ("4k2k60hz420,no_rev," + rest))))
            == ["v001", build, "4k2k60hz420", "no_rev"] + Tokens(rest)
  {
    hide Tokens;
    var r3 := "no_rev" + ("," + rest);
    var r2 := "4k2k60hz420" + ("," + r3);
    var r1 := build + ("," + r2);
    assert "4k2k60hz420,no_rev," + rest == r2;
    assert "v001," + r1 == "v001" + ("," + r1);
    FirstToken("v001", r1);
    FirstToken(build, r2);
    FirstToken("4k2k60hz420", r3);
    FirstToken("no_rev", rest);
  }

  /** Version 1 stores the first six items in this order and ignores the rest. */
  lemma {:induction false} FilledByPosition(items: seq<string>)
    ensures var f := Filled(1, items);
            && f.version == (if |items| > 0 then Truncated(items[0]) else "")
            && f.panel_type == (if |items| > 1 then Truncated(items[1]) else "")
            && f.panel_outputmode == (if |items| > 2 then Truncated(items[2]) else "")
            && f.panel_rev == (if |items| > 3 then Truncated(items[3]) else "")
            && f.panel_name == (if |items| > 4 then Truncated(items[4]) else "")
            && f.amp_curve_name == (if |items| > 5 then Truncated(items[5]) else "")
    decreases |items|
  {
    hide Truncated;
    if items != [] {
      FilledByPosition(items[..|items| - 1]);
    }
  }

  /** Any other version stores them in this order. */
  lemma {:induction false} FilledByPositionOther(ver: int, items: seq<string>)
    requires ver != 1
    ensures var f := Filled(ver, items);
            && f.version == (if |items| > 0 then Truncated(items[0]) else "")
            && f.panel_type == (if |items| > 1 then Truncated(items[1]) else "")
            && f.panel_name == (if |items| > 2 then Truncated(items[2]) else "")
            && f.panel_outputmode == (if |items| > 3 then Truncated(items[3]) else "")
            && f.panel_rev == (if |items| > 4 then Truncated(items[4]) else "")
            && f.amp_curve_name == (if |items| > 5 then Truncated(items[5]) else "")
    decreases |items|
  {
    hide Truncated;
    if items != [] {
      FilledByPositionOther(ver, items[..|items| - 1]);
    }
  }

  /** An item is cut to its first 63 characters. */
  lemma TruncatedFront(s: string)
    ensures Truncated(s) <= s && |Truncated(s)| == if |s| < 63 then |s| else 63
  {}

  /** No item holds a comma. */
  lemma {:induction false} ItemsPlain(s: string)
    ensures forall i :: 0 <= i < |Tokens(s)| ==> ',' !in Tokens(s)[i]
    decreases |s|
  {
    var t := SkipCommas(s);
    if t != "" {
      ItemsPlain(t[Span(t)..]);
    }
  }

  function Expected(build: string, panel: string): Info {
    Info("v001", build, "4k2k60hz420", "no_rev", panel, "8o8w")
  }

  lemma PanelRecovered(build: string, panel: string)
    requires Plain(build) && Plain(panel)
    ensures Filled(1, Tokens(BoardText(build, panel))) == Expected(build, panel)
  {
    hide Tokens, Filled;
    FrontTokens(build, panel + ",8o8w,0,0");
    assert panel + ",8o8w,0,0" == panel + ("," + "8o8w,0,0");
    FirstToken(panel, "8o8w,0,0");
    TailTokens();
    FilledByPosition(Tokens(BoardText(build, panel)));
  }

  lemma PanelLost(build: string, panel: string)
    requires Plain(build) && !Plain(panel)
    ensures Filled(1, Tokens(BoardText(build, panel))).panel_name != panel
  {
    hide Tokens, Filled;
    var items := Tokens(BoardText(build, panel));
    FilledByPosition(items);
    ItemsPlain(BoardText(build, panel));
    if panel == "" {
      FrontTokens(build, ",8o8w,0,0");
      assert "" + ",8o8w,0,0" == ",8o8w,0,0" && "," + "8o8w,0,0" == ",8o8w,0,0";
      FirstToken("v001", "8o8w,0,0");
      TailTokens();
      assert items[4] == "8o8w";
    }
  }

  /** The string built for a panel name gives back all six items exactly if the name is not empty, has no
      comma and at most 63 characters. */
  lemma RecoveredIff(build: string, panel: string)
    requires Plain(build)
    ensures Interpreted(Printed(BoardText(build, panel))).Ok?
    ensures Interpreted(Printed(BoardText(build, panel))) == Ok(Expected(build, panel)) <==> Plain(panel)
  {
    hide Tokens, Filled, Validated, Checksum;
    var text := BoardText(build, panel);
    assert text[..5] == "v001,";
    PrintedIsValid(text);
    assert Printed(text)[9..] == text;
    if Plain(panel) {
      PanelRecovered(build, panel);
    } else {
      PanelLost(build, panel);
    }
  }

  // ---------------------------------------------------------------- every build name is plain

  lemma DecTextPlain(n: nat)
    requires n < 256
    ensures Plain("fbc_" + DecText(n))
  {
    DecTextStep(n);
    DecTextStep(n / 10);
    DecTextStep(n / 10 / 10);
  }

  lemma DecTextStep(n: nat)
    ensures |DecText(n)| == 1 + if n < 10 then 0 else |DecText(n / 10)|
  {}

  lemma BuildNamePlain(e: Env)
    requires 0 <= e.projectId.1 < 256
    ensures Plain(BuildName(e))
  {
    if e.projectId.0 == 0 {
      DecTextPlain(e.projectId.1);
    }
  }

  /** Reading from a board that is not a prototype, with nothing kept yet: the six items come back exactly
      if the panel name the board reports is plain. A board that reports none gets its build name for one. */
  lemma BoardRoundTrip(c: Cache, e: Env)
    requires e.config == "fbc_ver" && e.fbc && !c.pass
    requires e.swVersion.Some? && !("1" <= e.swVersion.value || "2" <= e.swVersion.value) && 0 <= e.projectId.1 < 256
    ensures e.panel.Some? ==>
              (InfoOf(c, e) == Ok(Expected(BuildName(e), e.panel.value)) <==> Plain(e.panel.value))
    ensures e.panel.None? ==> InfoOf(c, e) == Ok(Expected(BuildName(e), BuildName(e)))
  {
    hide Interpreted, Printed, BuildName;
    BuildNamePlain(e);
    RecoveredIff(BuildName(e), if e.panel.Some? then e.panel.value else BuildName(e));
  }

  lemma PrototypeRoundTrip(c: Cache, e: Env)
    requires e.config == "fbc_ver" && e.fbc && !c.pass
    requires e.swVersion.Some? && ("1" <= e.swVersion.value || "2" <= e.swVersion.value)
    ensures InfoOf(c, e) == Ok(Expected("fbc_2", "HV550QU2-305")) && !Read(c, e).1.pass
  {
    hide Interpreted, Printed;
    RecoveredIff("fbc_2", "HV550QU2-305");
  }

  /** Without "fbc_ver" the board is not asked: "emmckey" gives nothing, any other configuration the boot
      environment's string, and what was kept stays as it is. */
  lemma OtherSources(c: Cache, e: Env)
    requires e.config != "fbc_ver"
    ensures Read(c, e).1 == c
    ensures InfoOf(c, e) ==
            if e.config == "emmckey" || e.bootEnv == "null" then Failed else Interpreted(e.bootEnv)
  {
    hide Interpreted, BoardString, Printed;
  }

  // ---------------------------------------------------------------- what is kept

  function ReadAll(c: Cache, es: seq<Env>): Cache
    decreases |es|
  {
    if es == [] then c else ReadAll(Read(c, es[0]).1, es[1..])
  }

  /** Once a call has read the board without an error, every later call that asks the board, whatever it
      would answer by then and whatever other calls came between, gets the same result. */
  lemma {:induction false} KeptForGood(c: Cache, first: Env, between: seq<Env>, later: Env)
    requires first.config == "fbc_ver" && first.fbc && Read(c, first).1.pass
    requires later.config == "fbc_ver" && later.fbc
    ensures InfoOf(ReadAll(Read(c, first).1, between), later) == InfoOf(c, first)
  {
    hide Interpreted, Printed, BoardString, ReadAll;
    PassStays(Read(c, first).1, between);
  }

  lemma {:induction false} PassStays(c: Cache, es: seq<Env>)
    requires c.pass
    ensures ReadAll(c, es) == c
    decreases |es|
  {
    hide BoardString;
    if es != [] {
      PassStays(c, es[1..]);
    }
  }

  // ---------------------------------------------------------------- the project id over the serial link

  /** The answer to the project-id request as a get over the serial link reports it: rx is the frame
      received, or empty, and the return code its length. */
  function ProjectIdOver(cmd: byte, rx: seq<byte>): (int, int)
    requires |rx| <= 15
  {
    (|rx|, FbcCommunication.Assemble(0, [FbcCommunication.COMM_DEV_SERIAL]
                                        + FbcProtocol.StripReply(rx, [cmd, 0, 0, 0, 0, 0]), 1))
  }

  /** The reader takes a return code of 0 for success, but a get that received something returns its length:
      whatever id the board has, the panel type is fbc_0, and a read counts as complete exactly if the board
      did not answer the project-id request and did report a panel name. */
  lemma ProjectIdNeverReported(e: Env, cmd: byte, rx: seq<byte>)
    requires |rx| <= 15 && e.projectId == ProjectIdOver(cmd, rx)
    ensures BuildName(e) == "fbc_0"
    ensures Complete(e) <==> rx == [] && e.panel.Some?
  {
    if rx == [] {
      assert e.projectId.1 == 0;
      assert IntText(0) == "0" && "fbc_" + "0" == "fbc_0";
    }
  }

  /** A first read from a board that is not a prototype is kept exactly in that case. */
  lemma KeptIffUnanswered(c: Cache, e: Env, cmd: byte, rx: seq<byte>)
    requires |rx| <= 15 && e.projectId == ProjectIdOver(cmd, rx)
    requires e.config == "fbc_ver" && e.fbc && !c.pass
    requires e.swVersion.Some? && !("1" <= e.swVersion.value || "2" <= e.swVersion.value)
    ensures Read(c, e).1.pass <==> rx == [] && e.panel.Some?
  {
    hide BoardString, ProjectIdOver, Complete;
    ProjectIdNeverReported(e, cmd, rx);
  }

  /** A board that answers with id 7, in a frame that passes the link's check, and reports its panel: the
      panel type is fbc_0 all the same, and the string is not kept. */
  lemma AnsweredIdIsLost(c: Cache, e: Env, cmd: byte)
    requires e.projectId == ProjectIdOver(cmd, FbcFrame.Frame(0, [cmd, 7]))
    requires e.config == "fbc_ver" && e.fbc && !c.pass
    requires e.swVersion.Some? && !("1" <= e.swVersion.value || "2" <= e.swVersion.value) && e.panel.Some?
    ensures var rx := FbcFrame.Frame(0, [cmd, 7]);
            FbcFrame.Check(rx) == FbcFrame.Accepted(rx, |rx|) && e.projectId == (11, 7)
    ensures BuildName(e) == "fbc_0" && !Read(c, e).1.pass
  {
    hide BoardString, FbcFrame.Frame, FbcFrame.Check, Crc32.Crc;
    var rx := FbcFrame.Frame(0, [cmd, 7]);
    FbcFrame.CheckFrame(0, [cmd, 7]);
    FbcFrame.FrameParts(0, [cmd, 7]);
    assert rx[..11] == rx;
    assert rx[6] == rx[..7][6] == FbcFrame.Body(0, [cmd, 7])[6] == 7;
    assert FbcProtocol.StripReply(rx, [cmd, 0, 0, 0, 0, 0]) == rx[5..7] + [0, 0, 0, 0];
  }
}
