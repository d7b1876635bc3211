/** Integer settings carried to and from the panel board on top of the framed link. */
module FbcCommunication {
  import opened Words
  import opened SerialPort
  import opened FbcFrame
  import opened FbcProtocol

  const COMM_DEV_SERIAL: byte := 1
  const CMD_FBC_RELEASE: byte := 0x75

  /** The bit pattern of a number. */
  function Pattern(v: int32): word { if v >= 0 then v else v + 0x1_0000_0000 }

  /** Command identifier and value bytes, low byte first. */
  function SetPayload(cmd_id: byte, value: int32, value_count: int): seq<byte>
    requires value_count == 1 || value_count == 4
  {
    if value_count == 1 then [cmd_id, Low(Pattern(value))] else [cmd_id] + Le32(Pattern(value))
  }

  /** What a get makes of the result variable and the 7-byte command buffer: one byte replaces it, four are
      or-ed into it. */
  function Assemble(initial: int32, buf: seq<byte>, value_count: int): int32
    requires |buf| == 7
  {
    var b0: nat, b1: nat, b2: nat, b3: nat := buf[2], buf[3], buf[4], buf[5];
    if value_count == 1 then b0
    else Signed(OrW(OrW(OrW(OrW(Pattern(initial), b0), b1 * 0x100), b2 * 0x1_0000), b3 * 0x100_0000))
  }

  /** Command buffer behind a device identifier, passed on without it. */
  method Tail(data: array<byte>, count: nat) returns (rest: array<byte>)
    requires 1 <= count <= data.Length
    ensures fresh(rest) && rest[..] == data[1..count]
  {
    rest := new byte[count - 1];
    Memcpy(rest, 0, data, 1, count - 1);
  }

  /** Sets a value over the serial device. The release command is intercepted and never sent. */
  method CfbcSetValueInt(link: CFbcProtocol, cmd_id: byte, value: int32, value_count: int) returns (r: BatchResult)
    modifies link.mSerialPort`sent
    ensures (value_count != 1 && value_count != 4) || cmd_id == CMD_FBC_RELEASE ==>
              r == Ret(-1) && link.mSerialPort.sent == old(link.mSerialPort.sent)
    ensures (value_count == 1 || value_count == 4) && cmd_id != CMD_FBC_RELEASE ==>
              && r == Ret(0)
              && link.mSerialPort.sent == old(link.mSerialPort.sent)
                 + if link.mUpgradeFlag == 1 then [] else Frame(0, SetPayload(cmd_id, value, value_count))
  {
    hide Frame, Pattern, Low, Up;
    if value_count != 1 && value_count != 4 {
      return Ret(-1);
    }
    var cmd_buf := new byte[7](_ => 0);
    cmd_buf[0], cmd_buf[1] := COMM_DEV_SERIAL, cmd_id;
    var v := Pattern(value);
    if value_count == 1 {
      cmd_buf[2] := Low(v);
    } else {
      cmd_buf[2], cmd_buf[3], cmd_buf[4], cmd_buf[5] := Low(v), Low(Up(v)), Low(Up(Up(v))), Low(Up(Up(Up(v))));
    }
    if cmd_buf[1] == CMD_FBC_RELEASE {
      return Ret(-1);
    }
    assert cmd_buf[1..value_count + 2] == SetPayload(cmd_id, value, value_count);
    var tail := Tail(cmd_buf, value_count + 2);
    assert tail[..value_count + 1] == tail[..];
    r := link.FbcSetBatchValue(tail, value_count + 1);
  }

  /** Puts the passed-on part back behind the device identifier. */
  method Rejoin(cmd_buf: array<byte>, tail: array<byte>)
    requires cmd_buf != tail && cmd_buf.Length == 7 && tail.Length == 6
    modifies cmd_buf
    ensures cmd_buf[..] == [old(cmd_buf[0])] + tail[..]
  {
    Memcpy(cmd_buf, 1, tail, 0, 6);
  }

  method Accumulate(cmd_buf: array<byte>, initial: int32, value_count: int) returns (value: int32)
    requires cmd_buf.Length == 7
    ensures value == Assemble(initial, cmd_buf[..], value_count)
  {
    hide Or, OrW, Pattern, Signed;
    var b0: nat, b1: nat, b2: nat, b3: nat := cmd_buf[2], cmd_buf[3], cmd_buf[4], cmd_buf[5];
    if value_count == 1 {
      value := b0;
    } else {
      var w := OrW(Pattern(initial), b0);
      w := OrW(w, b1 * 0x100);
      w := OrW(w, b2 * 0x1_0000);
      w := OrW(w, b3 * 0x100_0000);
      value := Signed(w);
    }
  }

  /** Gets a value over the serial device; rx is the frame that answered, or empty. A reply of more than 15
      bytes does not fit the command buffer. */
  method CfbcGetValueInt(link: CFbcProtocol, cmd_id: byte, initial: int32, value_count: int, rx: seq<byte>)
    returns (r: BatchResult, value: int32)
    requires |rx| <= BUFFER_SIZE
    modifies link.mSerialPort`sent
    ensures cmd_id == CMD_FBC_RELEASE ==>
              r == Ret(-1) && value == initial && link.mSerialPort.sent == old(link.mSerialPort.sent)
    ensures cmd_id != CMD_FBC_RELEASE && link.mUpgradeFlag != 1 ==>
              && link.mSerialPort.sent == old(link.mSerialPort.sent) + Frame(0, [cmd_id])
              && r == (if |rx| <= 15 then Ret(|rx|) else Undefined)
              && (|rx| <= 15 ==>
                   value == Assemble(initial, [COMM_DEV_SERIAL] + StripReply(rx, [cmd_id, 0, 0, 0, 0, 0]), value_count))
    ensures cmd_id != CMD_FBC_RELEASE && link.mUpgradeFlag == 1 ==>
              && r == Ret(0) && link.mSerialPort.sent == old(link.mSerialPort.sent)
              && value == Assemble(initial, [COMM_DEV_SERIAL, cmd_id, 0, 0, 0, 0, 0], value_count)
  {
    hide Frame, Or, StripReply, Assemble;
    var cmd_buf := new byte[7](_ => 0);
    cmd_buf[0], cmd_buf[1] := COMM_DEV_SERIAL, cmd_id;
    if cmd_buf[1] == CMD_FBC_RELEASE {
      return Ret(-1), initial;
    }
    assert cmd_buf[1] == cmd_id && cmd_buf[2] == cmd_buf[3] == cmd_buf[4] == cmd_buf[5] == cmd_buf[6] == 0;
    assert cmd_buf[1..7] == [cmd_id, 0, 0, 0, 0, 0];
    var tail := Tail(cmd_buf, 7);
    assert tail[..1] == tail[..][..1] == [cmd_id];
    GetRequestWhole([cmd_id]);
    r := link.FbcGetBatchValue(tail, 1, rx);
    value := initial;
    if r != Undefined {
      Rejoin(cmd_buf, tail);
      assert link.mUpgradeFlag == 1 ==> cmd_buf[..] == [COMM_DEV_SERIAL, cmd_id, 0, 0, 0, 0, 0];
      value := Accumulate(cmd_buf, initial, value_count);
    }
  }

  lemma SignedRoundTrip(v: int32)
    ensures Signed(Pattern(v)) == v
  {}

  /** Assembling four bytes ors their word into the result variable. */
  lemma AssembleLe32(initial: int32, dev: byte, cmd: byte, s: seq<byte>, last: byte)
    requires |s| == 4
    ensures Assemble(initial, [dev, cmd] + s + [last], 4) == Signed(OrW(Pattern(initial), FromLe32(s)))
  {
    hide Or, Pattern, Signed;
    var i, b0: nat, b1: nat, b2: nat, b3: nat := Pattern(initial), s[0], s[1], s[2], s[3];
    OrBytesIsLe32(s[0], s[1], s[2], s[3]);
    assert s == [s[0], s[1], s[2], s[3]];
    OrAssociates(i, b0, b1 * 0x100);
    OrAssociates(i, Or(b0, b1 * 0x100), b2 * 0x1_0000);
    OrAssociates(i, Or(Or(b0, b1 * 0x100), b2 * 0x1_0000), b3 * 0x100_0000);
  }

  /** What a get for four bytes makes of its result variable and the 14-byte frame that answered it. */
  function Assembled(cmd: byte, initial: int32, rx: seq<byte>): int32
    requires |rx| == 14
  {
    Assemble(initial, [COMM_DEV_SERIAL] + StripReply(rx, [cmd, 0, 0, 0, 0, 0]), 4)
  }

  /** What a get strips out of a frame built around a four-byte value. */
  lemma StripSet(cmd: byte, s: seq<byte>, f: seq<byte>)
    requires |s| == 4 && |f| == 14 && f[5..10] == [cmd] + s
    ensures [COMM_DEV_SERIAL] + StripReply(f, [cmd, 0, 0, 0, 0, 0]) == [COMM_DEV_SERIAL, cmd] + s + [0]
  {}

  lemma AssembledFrame(cmd: byte, initial: int32, value: int32)
    ensures var r := Assembled(cmd, initial, Frame(0, SetPayload(cmd, value, 4)));
            r == Signed(OrW(Pattern(initial), Pattern(value))) && (initial == 0 ==> r == value)
  {
    hide Or, Frame, StripReply, Assemble;
    var payload := SetPayload(cmd, value, 4);
    var f, s := Frame(0, payload), Le32(Pattern(value));
    FrameParts(0, payload);
    assert f[5..10] == f[..10][5..] == payload;
    StripSet(cmd, s, f);
    AssembleLe32(initial, COMM_DEV_SERIAL, cmd, s, 0);
    Le32RoundTrip(Pattern(value));
    OrZero(Pattern(value));
    SignedRoundTrip(value);
  }

  /** A 32-bit value crosses all layers: packed as a set packs it, framed, received in pieces behind noise,
      stripped and or-ed into the result variable as a get does; into a cleared one unchanged. */
  lemma ValueTransport(noise: seq<byte>, cmd: byte, initial: int32, value: int32, tail: seq<byte>, polls: Schedule)
    requires Consumed(noise) && Prompt(polls, |noise| + 2)
    requires Positives(polls[|noise| + 2..]) >= 12
    ensures var f := Frame(0, SetPayload(cmd, value, 4));
            && Receive(Line(noise + f + tail, polls)).0 == Accepted(f, 14)
            && Assembled(cmd, initial, f) == Signed(OrW(Pattern(initial), Pattern(value)))
            && (initial == 0 ==> Assembled(cmd, initial, f) == value)
  {
    hide Or, Receive, Frame, Consumed, Positives, Assembled;
    RoundTrip(noise, 0, SetPayload(cmd, value, 4), tail, polls);
    AssembledFrame(cmd, initial, value);
  }

  /** A one-byte value crosses all layers too, cut to its low eight bits; it comes back as it was set exactly
      if it fits a byte, whatever the result variable held. */
  lemma ByteTransport(noise: seq<byte>, cmd: byte, initial: int32, value: int32, tail: seq<byte>, polls: Schedule)
    requires Consumed(noise) && Prompt(polls, |noise| + 2)
    requires Positives(polls[|noise| + 2..]) >= 9
    ensures var f := Frame(0, [cmd, value % 0x100]);
            && f == Frame(0, SetPayload(cmd, value, 1))
            && Receive(Line(noise + f + tail, polls)).0 == Accepted(f, 11)
            && var back := Assemble(initial, [COMM_DEV_SERIAL] + StripReply(f, [cmd, 0, 0, 0, 0, 0]), 1);
            && back == value % 0x100
            && (back == value <==> 0 <= value <= 0xff)
  {
    hide Receive, Frame, Consumed, Positives, Assemble, StripReply, Pattern, Low;
    LowOfPattern(value);
    RoundTrip(noise, 0, [cmd, value % 0x100], tail, polls);
    ByteFrame(cmd, value % 0x100, initial);
  }

  lemma ByteFrame(cmd: byte, b: byte, initial: int32)
    ensures var f := Frame(0, [cmd, b]);
            |f| == 11 && Assemble(initial, [COMM_DEV_SERIAL] + StripReply(f, [cmd, 0, 0, 0, 0, 0]), 1) == b as int
  {
    hide Frame, Assemble, StripReply, Le32, Le16;
    var f := Frame(0, [cmd, b]);
    FrameParts(0, [cmd, b]);
    assert f[6] == f[..7][6] == Body(0, [cmd, b])[6];
    AssembledByte(cmd, initial, f);
  }

  lemma AssembledByte(cmd: byte, initial: int32, f: seq<byte>)
    requires |f| == 11
    ensures Assemble(initial, [COMM_DEV_SERIAL] + StripReply(f, [cmd, 0, 0, 0, 0, 0]), 1) == f[6] as int
  {
    hide Or;
    assert ([COMM_DEV_SERIAL] + StripReply(f, [cmd, 0, 0, 0, 0, 0]))[2] == f[6];
  }

  lemma LowOfPattern(value: int32)
    ensures Low(Pattern(value)) == value % 0x100
  {}
}
