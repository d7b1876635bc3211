/** The protocol object of the serial link: checksum table, frame sending, frame reception. */
module FbcProtocol {
  import opened Words
  import opened Crc32
  import opened SerialPort
  import opened FbcFrame
  import opened FbcStream

  const ACK_FLAG: byte := 0x80

  /** The acknowledgement for a frame that checked out, or did not. */
  function AckFrame(isOk: bool): seq<byte> {
    Frame(ACK_FLAG, if isOk then [0xff, 0xfe, 0x7f] else [0xff, 0x80, 0x01])
  }

  /** What the receiving side sends back. */
  function Reply(o: Outcome): seq<byte> {
    match o
    case Rejected => AckFrame(false)
    case Accepted(data, _) =>
      if |data| > 4 && data[4] == ACK_FLAG then [] else AckFrame(true)
    case _ => []
  }

  /** The length of what is handed on: every accepted frame but an acknowledgement. */
  function Passed(o: Outcome): Option<nat> {
    match o
    case Accepted(data, len) => if |data| > 4 && data[4] == ACK_FLAG then None else Some(len)
    case _ => None
  }

  /** All that is sent back, and all that is handed on, over a run of frames. */
  function Replies(os: seq<Outcome>): seq<byte> {
    if os == [] then [] else Replies(os[..|os| - 1]) + Reply(os[|os| - 1])
  }

  function PassedOn(os: seq<Outcome>): seq<nat> {
    if os == [] then []
    else
      var last := Passed(os[|os| - 1]);
      PassedOn(os[..|os| - 1]) + if last.Some? then [last.value] else []
  }

  /** What of a frame reaches the caller's buffer. */
  function Received(o: Outcome): (data: seq<byte>)
    ensures |data| <= BUFFER_SIZE
  {
    if o.Accepted? && |o.data| <= BUFFER_SIZE then o.data else []
  }

  function Zeros(n: nat): seq<byte> { seq(n, i => 0) }

  /** How a batch command ends. Undefined: it does not fit the 512-byte frame buffer. */
  datatype BatchResult = Ret(code: int) | Undefined

  /** What a get leaves in the command buffer: the payload of the reply, if there is one. */
  function StripReply(rx: seq<byte>, buf: seq<byte>): seq<byte>
    requires |rx| - 9 <= |buf|
  {
    if |rx| > 9 then rx[5..|rx| - 4] + buf[|rx| - 9..] else buf
  }

  /** Appends the checksum of the first data_len bytes. */
  method AddCrc(data_buf: array<byte>, data_len: nat)
    requires data_len + 4 <= data_buf.Length
    modifies data_buf
    ensures data_buf[..] == old(data_buf[..data_len]) + Le32(Crc(0, old(data_buf[..data_len])))
                            + old(data_buf[data_len + 4..])
  {
    hide Crc, Le32;
    var crc := Calcrc32(0, data_buf, 0, data_len);
    var le := Le32(crc);
    data_buf[data_len] := le[0];
    data_buf[data_len + 1] := le[1];
    data_buf[data_len + 2] := le[2];
    data_buf[data_len + 3] := le[3];
  }

  lemma Verdict(f: seq<byte>, crc: nat, stored: nat)
    requires 4 <= |f| <= BUFFER_SIZE
    requires crc == if |f| > 4 then Crc(0, f[..|f| - 4]) else 0
    requires stored == FromLe32(f[|f| - 4..])
    ensures Check(f) == if crc == stored then Accepted(f[..Kept(|f|)], |f|) else Rejected
  {
    hide Crc, FromLe32;
  }

  class CFbcProtocol {
    const mCrc32Table: array<word>
    const mSerialPort: CSerialPort
    var mUpgradeFlag: int

    constructor (port: CSerialPort)
      ensures mSerialPort == port && mUpgradeFlag == 0
      ensures fresh(mCrc32Table) && IsByteTable(mCrc32Table[..])
    {
      mCrc32Table := new word[256];
      mSerialPort := port;
      mUpgradeFlag := 0;
      new;
      InitCrc32Table();
    }

    method InitCrc32Table()
      requires mCrc32Table.Length == 256
      modifies mCrc32Table
      ensures IsByteTable(mCrc32Table[..])
    {
      for i := 0 to 256
        invariant forall k: nat :: k < i ==> mCrc32Table[k] == Shifts(8, k)
      {
        var crc: word := i;
        for j := 0 to 8
          invariant Shifts(8 - j, crc) == Shifts(8, i)
        {
          if crc % 2 == 1 {
            crc := XorW(crc / 2, 0xEDB88320);
          } else {
            crc := crc / 2;
          }
        }
        mCrc32Table[i] := crc;
      }
    }

    /** The byte-table checksum. */
    method GetCrc32(inStr: array<byte>, len: nat) returns (crc: word)
      requires len <= inStr.Length && IsByteTable(mCrc32Table[..])
      ensures crc == Crc(0, inStr[..len])
    {
      crc := 0xffff_ffff;
      for i := 0 to len
        invariant crc == FeedBits(Not(0), MessageBits(inStr[..len][..i]))
      {
        FeedNext(Not(0), inStr[..len], i);
        ByteStepIsEightClocks(mCrc32Table[..], crc, inStr[i]);
        crc := XorW(crc / 0x100, mCrc32Table[XorB(crc % 0x100, inStr[i])]);
      }
      assert inStr[..len][..len] == inStr[..len];
      NotIsXorOnes(crc);
      crc := XorW(crc, 0xFFFF_FFFF);
    }

    /** Fills a frame buffer in place around a payload and returns the frame's length. */
    method BuildFrame(write_buf: array<byte>, ack: byte, cmd_buf: array<byte>, count: nat) returns (total: nat)
      requires write_buf != cmd_buf && write_buf.Length == BUFFER_SIZE
      requires count <= cmd_buf.Length && count + 9 <= BUFFER_SIZE
      modifies write_buf
      ensures total == count + 9 && write_buf[2] == Low(total)
      ensures write_buf[..total] == Frame(ack, cmd_buf[..count])
    {
      hide Crc, Le32;
      total := count + 9;
      write_buf[0], write_buf[1] := 0x5a, 0x5a;
      write_buf[2], write_buf[3] := Low(total), Low(Up(total));
      write_buf[4] := ack;
      Memcpy(write_buf, 5, cmd_buf, 0, count);
      assert write_buf[..count + 5] == Body(ack, cmd_buf[..count]);
      AddCrc(write_buf, count + 5);
    }

    method SendAckCmd(isOk: bool)
      modifies mSerialPort`sent
      ensures mSerialPort.sent == old(mSerialPort.sent) + AckFrame(isOk)
    {
      hide Frame, Crc;
      var id := new byte[3];
      id[0] := 0xff;
      if isOk {
        id[1], id[2] := 0xfe, 0x7f;
      } else {
        id[1], id[2] := 0x80, 0x01;
      }
      assert id[..3] == if isOk then [0xff, 0xfe, 0x7f] else [0xff, 0x80, 0x01];
      var ackcmd := new byte[BUFFER_SIZE];
      var n := BuildFrame(ackcmd, ACK_FLAG, id, 3);
      mSerialPort.WriteFile(ackcmd, n);
    }

    /** Sends a command as one frame, unless an upgrade is running or the command is refused. */
    method FbcSetBatchValue(cmd_buf: array<byte>, count: nat) returns (r: BatchResult)
      requires count < 512 ==> count <= cmd_buf.Length
      modifies mSerialPort`sent
      ensures mUpgradeFlag == 1 ==> r == Ret(0) && mSerialPort.sent == old(mSerialPort.sent)
      ensures mUpgradeFlag != 1 && 512 <= count ==> r == Ret(-1) && mSerialPort.sent == old(mSerialPort.sent)
      ensures mUpgradeFlag != 1 && 503 < count < 512 ==> r == Undefined && mSerialPort.sent == old(mSerialPort.sent)
      ensures mUpgradeFlag != 1 && count <= 503 ==>
                r == Ret(0) && mSerialPort.sent == old(mSerialPort.sent) + Frame(0, cmd_buf[..count])
    {
      hide Frame, Crc;
      if mUpgradeFlag == 1 {
        return Ret(0);
      }
      if 512 <= count {
        return Ret(-1);
      }
      if count + 9 > BUFFER_SIZE {
        return Undefined;
      }
      var write_buf := new byte[BUFFER_SIZE];
      var n := BuildFrame(write_buf, 0x00, cmd_buf, count);
      mSerialPort.WriteFile(write_buf, n);
      return Ret(0);
    }

    method StripFrame(cmd_buf: array<byte>, rx: seq<byte>)
      requires |rx| - 9 <= cmd_buf.Length
      modifies cmd_buf
      ensures cmd_buf[..] == StripReply(rx, old(cmd_buf[..]))
    {
      if |rx| > 9 {
        for idx := 0 to |rx| - 9
          invariant forall k :: 0 <= k < idx ==> cmd_buf[k] == rx[k + 5]
          invariant forall k :: idx <= k < cmd_buf.Length ==> cmd_buf[k] == old(cmd_buf[k])
        {
          cmd_buf[idx] := rx[idx + 5];
        }
      }
    }

    /** Sends a request and takes the payload out of the reply. `rx` is the frame that answered, or
        empty when none came in time. The length handed to the port is the low length byte only, and the
        payload is copied without regard to the size of the command buffer. */
    method FbcGetBatchValue(cmd_buf: array<byte>, count: nat, rx: seq<byte>) returns (r: BatchResult)
      requires count < 512 ==> count <= cmd_buf.Length
      requires |rx| <= BUFFER_SIZE
      modifies mSerialPort`sent, cmd_buf
      ensures mUpgradeFlag == 1 ==> r == Ret(0)
      ensures mUpgradeFlag != 1 && 512 <= count ==> r == Ret(-1)
      ensures mUpgradeFlag != 1 && 503 < count < 512 ==> r == Undefined
      ensures mUpgradeFlag != 1 && count <= 503 ==>
                mSerialPort.sent == old(mSerialPort.sent) + Frame(0, old(cmd_buf[..count]))[..Low(count + 9)]
      ensures mUpgradeFlag != 1 && count <= 503 ==>
                if |rx| - 9 > cmd_buf.Length then r == Undefined
                else r == Ret(|rx|) && cmd_buf[..] == StripReply(rx, old(cmd_buf[..]))
      ensures mUpgradeFlag == 1 || 503 < count ==>
                mSerialPort.sent == old(mSerialPort.sent) && cmd_buf[..] == old(cmd_buf[..])
    {
      hide Frame, Crc;
      if mUpgradeFlag == 1 {
        return Ret(0);
      }
      if 512 <= count {
        return Ret(-1);
      }
      if count + 9 > BUFFER_SIZE {
        return Undefined;
      }
      var write_buf := new byte[BUFFER_SIZE];
      var n := BuildFrame(write_buf, 0x00, cmd_buf, count);
      assert write_buf[..write_buf[2]] == write_buf[..n][..write_buf[2]];
      mSerialPort.WriteFile(write_buf, write_buf[2]);
      if |rx| - 9 > cmd_buf.Length {
        return Undefined;
      }
      StripFrame(cmd_buf, rx);
      return Ret(|rx|);
    }

    // -------------------------------------------------------------- receiving

    ghost function State(): Line
      reads mSerialPort
    {
      Line(mSerialPort.wire, mSerialPort.polls)
    }

    method ReadOne(tempBuf: array<byte>, at: nat)
      requires at < tempBuf.Length
      modifies mSerialPort`wire, mSerialPort`polls, tempBuf
      ensures (tempBuf[at], State()) == ReadByte(old(tempBuf[at]), old(State()))
      ensures forall i :: 0 <= i < tempBuf.Length && i != at ==> tempBuf[i] == old(tempBuf[i])
    {
      ghost var before, wire := tempBuf[..], mSerialPort.wire;
      var readLen := mSerialPort.ReadFile(tempBuf, at, 1);
      assert tempBuf[..] == before[..at] + wire[..readLen] + before[at + readLen..];
      forall i | 0 <= i < tempBuf.Length && i != at ensures tempBuf[i] == before[i] {
        assert tempBuf[i] == tempBuf[..][i];
      }
      assert tempBuf[at] == tempBuf[..][at];
    }

    /** One turn of the reading loop. */
    method ReadMore(tempBuf: array<byte>, at: nat, need: nat) returns (readLen: nat)
      requires at + need <= tempBuf.Length
      requires mSerialPort.polls != [] || need == 0
      modifies mSerialPort`wire, mSerialPort`polls, tempBuf
      ensures readLen <= need && readLen <= |old(mSerialPort.wire)|
      ensures readLen != need ==> |mSerialPort.polls| < |old(mSerialPort.polls)|
      ensures Gather(|old(mSerialPort.wire)|, old(mSerialPort.polls), need)
           == if readLen == need then Some(mSerialPort.polls)
              else Gather(|mSerialPort.wire|, mSerialPort.polls, need - readLen)
      ensures mSerialPort.wire == old(mSerialPort.wire)[readLen..]
      ensures tempBuf[..at + readLen] == old(tempBuf[..at]) + old(mSerialPort.wire)[..readLen]
    {
      GatherStep(|mSerialPort.wire|, mSerialPort.polls, need);
      hide Gather;
      readLen := mSerialPort.ReadFile(tempBuf, at, need);
      assert tempBuf[..at + readLen] == tempBuf[..][..at + readLen];
    }

    /** Reads until `need` bytes lie in the buffer; false when the line goes silent first. */
    method ReadExactly(tempBuf: array<byte>, at: nat, need: nat) returns (done: bool)
      requires at + need <= tempBuf.Length
      modifies mSerialPort`wire, mSerialPort`polls, tempBuf
      ensures var g := Gather(|old(mSerialPort.wire)|, old(mSerialPort.polls), need);
              && done == g.Some?
              && (done ==>
                && State() == Line(old(mSerialPort.wire)[need..], g.value)
                && tempBuf[..at + need] == old(tempBuf[..at]) + old(mSerialPort.wire)[..need])
    {
      hide Gather;
      ghost var wire, before := mSerialPort.wire, tempBuf[..at];
      var haveRead: nat := 0;
      while true
        invariant haveRead <= need && haveRead <= |wire|
        invariant mSerialPort.wire == wire[haveRead..]
        invariant Gather(|wire|, old(mSerialPort.polls), need)
               == Gather(|mSerialPort.wire|, mSerialPort.polls, need - haveRead)
        invariant tempBuf[..at + haveRead] == before + wire[..haveRead]
        decreases |mSerialPort.polls|
      {
        if mSerialPort.polls == [] && need != haveRead {
          GatherNothing(|mSerialPort.wire|, need - haveRead);
          return false;
        }
        var readLen := ReadMore(tempBuf, at + haveRead, need - haveRead);
        Piecewise(before, wire, haveRead, readLen);
        haveRead := haveRead + readLen;
        if haveRead == need {
          return true;
        }
      }
    }

    /** Hunts for the leader; false when the line goes silent first. */
    method FindLeader(tempBuf: array<byte>) returns (found: bool)
      requires tempBuf.Length == BUFFER_SIZE && tempBuf[0] == tempBuf[1] == 0
      modifies mSerialPort`wire, mSerialPort`polls, tempBuf
      ensures LeaderScan(0, 0, old(State())) == if found then Some(State()) else None
      ensures found ==> tempBuf[0] == tempBuf[1] == LEADER
    {
      while true
        invariant LeaderScan(0, 0, old(State())) == LeaderScan(tempBuf[0], tempBuf[1], State())
        decreases |mSerialPort.polls|
      {
        if mSerialPort.polls == [] {
          return false;
        }
        ReadOne(tempBuf, 0);
        if tempBuf[0] == 0x5A {
          ReadOne(tempBuf, 1);
          if tempBuf[1] == 0x5A {
            return true;
          }
        }
      }
    }

    /** Compares the checksum computed over a complete frame with the one at its end. */
    method Judge(tempBuf: array<byte>, cmdLen: nat) returns (ok: bool)
      requires tempBuf.Length == BUFFER_SIZE && 4 <= cmdLen <= BUFFER_SIZE
      ensures Check(tempBuf[..cmdLen]) == if ok then Accepted(tempBuf[..Kept(cmdLen)], cmdLen) else Rejected
    {
      hide Crc, Or, Check;
      var crc := 0;
      if cmdLen > 4 {
        crc := Calcrc32(0, tempBuf, 0, cmdLen - 4);
      }
      var b0, b1, b2, b3 := tempBuf[cmdLen - 4], tempBuf[cmdLen - 3], tempBuf[cmdLen - 2], tempBuf[cmdLen - 1];
      var bufCrc := OrBytes(b0, b1, b2, b3);
      OrBytesIsLe32(b0, b1, b2, b3);
      ghost var f := tempBuf[..cmdLen];
      assert f[..cmdLen - 4] == tempBuf[0..cmdLen - 4];
      assert f[cmdLen - 4..] == [b0, b1, b2, b3];
      assert f[..Kept(cmdLen)] == tempBuf[..Kept(cmdLen)];
      Verdict(f, crc, bufCrc);
      ok := crc == bufCrc;
    }

    /** Reads length and rest of the frame behind the leader, and judges it. */
    method ReadFrame(tempBuf: array<byte>) returns (o: Outcome)
      requires tempBuf.Length == BUFFER_SIZE && tempBuf[0] == tempBuf[1] == LEADER
      modifies mSerialPort`wire, mSerialPort`polls, tempBuf
      ensures o == ReceiveRest(old(State())).0
      ensures o != Silent ==> State() == ReceiveRest(old(State())).1
      ensures o.Accepted? ==> |o.data| < BUFFER_SIZE && o.data == tempBuf[..|o.data|]
    {
      hide Check, Gather;
      ghost var wire := mSerialPort.wire;
      assert tempBuf[..2] == [LEADER, LEADER];
      var done := ReadExactly(tempBuf, 2, 2);
      if !done {
        return Silent;
      }
      var cmdLen := Le16(tempBuf[2], tempBuf[3]);
      if cmdLen < 4 || cmdLen > BUFFER_SIZE {
        return Overrun;
      }
      done := ReadExactly(tempBuf, 4, cmdLen - 4);
      if !done {
        return Silent;
      }
      Piecewise([LEADER, LEADER], wire, 2, cmdLen - 4);
      var ok := Judge(tempBuf, cmdLen);
      if !ok {
        return Rejected;
      }
      return Accepted(tempBuf[..Kept(cmdLen)], cmdLen);
    }

    /** Receives one frame into retData. `o` is None if there is no buffer to receive into. */
    method UartReadData(retData: array?<byte>) returns (ret: int, o: Option<Outcome>)
      requires retData != null ==> retData.Length == BUFFER_SIZE
      modifies mSerialPort`wire, mSerialPort`polls, retData
      ensures retData == null ==> ret == 0 && o == None && State() == old(State())
      ensures retData != null ==>
                && o == Some(Receive(old(State())).0)
                && (o.value != Silent ==> State() == Receive(old(State())).1)
                && retData[..] == Received(o.value) + old(retData[..])[|Received(o.value)|..]
                && (o.value.Accepted? ==> |o.value.data| < BUFFER_SIZE)
      ensures o.Some? ==> ret == match o.value case Accepted(_, len) => len case _ => -1
    {
      hide LeaderScan, ReceiveRest, Check;
      ret, o := 0, None;
      if retData != null {
        var tempBuf := new byte[BUFFER_SIZE](_ => 0);
        var found := FindLeader(tempBuf);
        if !found {
          return -1, Some(Silent);
        }
        var verdict := ReadFrame(tempBuf);
        ret, o := -1, Some(verdict);
        if verdict.Accepted? {
          Memcpy(retData, 0, tempBuf, 0, |verdict.data|);
          ret := verdict.len;
        }
      }
    }

    /** The serial branch of the receiving thread: one frame in, at most one acknowledgement out. What is
        positively acknowledged, and only that, is passed on to processData, with its length, in a buffer
        cleared before: a frame of 512 bytes, of which nothing is copied out, is passed on as zeros. */
    method HandleSerialEvent(readFrameBuf: array<byte>) returns (o: Outcome, passed: Option<nat>)
      requires readFrameBuf.Length == BUFFER_SIZE
      modifies mSerialPort`wire, mSerialPort`polls, mSerialPort`sent, readFrameBuf
      ensures o == Receive(old(State())).0
      ensures o != Silent ==> State() == Receive(old(State())).1
      ensures mSerialPort.sent == old(mSerialPort.sent) + Reply(o)
      ensures passed == Passed(o)
      ensures readFrameBuf[..] == Received(o) + Zeros(BUFFER_SIZE - |Received(o)|)
      ensures o.Accepted? ==> Received(o) == o.data
      ensures forall i :: |Received(o)| <= i < BUFFER_SIZE ==> readFrameBuf[i] == 0
    {
      hide Receive, AckFrame;
      forall i | 0 <= i < BUFFER_SIZE {
        readFrameBuf[i] := 0;
      }
      assert readFrameBuf[..] == Zeros(BUFFER_SIZE);
      var ret, outcome := UartReadData(readFrameBuf);
      o, passed := outcome.value, None;
      assert Zeros(BUFFER_SIZE)[|Received(o)|..] == Zeros(BUFFER_SIZE - |Received(o)|);
      if o == Rejected {
        SendAckCmd(false);
      } else if o.Accepted? {
        assert readFrameBuf[4] == readFrameBuf[..][4];
        if readFrameBuf[4] != 0x80 {
          SendAckCmd(true);
          passed := Some(ret);
        }
      }
      forall i | |Received(o)| <= i < BUFFER_SIZE ensures readFrameBuf[i] == 0 {
        assert readFrameBuf[i] == readFrameBuf[..][i];
      }
    }

    /** The receiving thread over a number of serial events: frame after frame, each answered at once, until
        a call never ends or overruns its buffer. */
    method ThreadLoop(turns: nat, readFrameBuf: array<byte>) returns (ghost os: seq<Outcome>, passed: seq<nat>)
      requires readFrameBuf.Length == BUFFER_SIZE
      modifies mSerialPort`wire, mSerialPort`polls, mSerialPort`sent, readFrameBuf
      ensures os == Listen(turns, old(State())).0
      ensures mSerialPort.sent == old(mSerialPort.sent) + Replies(os)
      ensures passed == PassedOn(os)
    {
      hide Receive, Listen, Reply, Passed, Replies, PassedOn;
      os, passed := [], [];
      var i, open := 0, true;
      ghost var sent0, heard := mSerialPort.sent, Listen(turns, State()).0;
      NothingHeard(State());
      while i < turns && open
        invariant i <= turns
        invariant heard == if open then os + Listen(turns - i, State()).0 else os
        invariant mSerialPort.sent == sent0 + Replies(os)
        invariant passed == PassedOn(os)
        decreases turns - i
      {
        ghost var before, line := os, State();
        NextReply(sent0, os, Receive(line).0);
        var o, handed := HandleSerialEvent(readFrameBuf);
        open := !o.Silent? && !o.Overrun?;
        os := os + [o];
        ListenNext(before, turns - i, line);
        passed := passed + match handed case None => [] case Some(len) => [len];
        i := i + 1;
      }
      if open {
        NothingHeard(State());
      }
    }
  }

  lemma NothingHeard(line: Line)
    ensures Listen(0, line).0 == [] && Replies([]) == [] && PassedOn([]) == []
  {}

  lemma ListenNext(before: seq<Outcome>, n: nat, line: Line)
    requires n > 0
    ensures var (o, line') := Receive(line);
            before + Listen(n, line).0 ==
            before + [o] + if o.Silent? || o.Overrun? then [] else Listen(n - 1, line').0
  {
    hide Receive;
  }

  lemma NextReply(sent: seq<byte>, os: seq<Outcome>, o: Outcome)
    ensures sent + Replies(os + [o]) == sent + Replies(os) + Reply(o)
    ensures PassedOn(os + [o]) == PassedOn(os) + match Passed(o) case None => [] case Some(len) => [len]
  {
    hide Reply, Passed;
    assert (os + [o])[..|os|] == os;
  }

  /** What a packet is answered with: every frame positively, but for an acknowledgement that fits. */
  function OwnReply(p: Packet): seq<byte> {
    if p.ack == 0x80 && |p.payload| + 9 < BUFFER_SIZE then [] else Frame(0x80, [0xff, 0xfe, 0x7f])
  }

  function OwnReplies(ps: seq<Packet>): seq<byte> {
    if ps == [] then [] else OwnReplies(ps[..|ps| - 1]) + OwnReply(ps[|ps| - 1])
  }

  /** The lengths of the frames that are no acknowledgements, or too long to be known for one. */
  function OwnLengths(ps: seq<Packet>): seq<nat> {
    if ps == [] then []
    else
      var p := ps[|ps| - 1];
      OwnLengths(ps[..|ps| - 1])
      + if p.ack == 0x80 && |p.payload| + 9 < BUFFER_SIZE then [] else [|p.payload| + 9]
  }

  lemma ReplyIsOwn(p: Packet)
    requires |p.payload| + 9 <= BUFFER_SIZE
    ensures var f := Frame(p.ack, p.payload);
            && Reply(Accepted(f[..Kept(|f|)], |f|)) == OwnReply(p)
            && Passed(Accepted(f[..Kept(|f|)], |f|)) ==
               if p.ack == 0x80 && |f| < BUFFER_SIZE then None else Some(|f|)
  {
    hide Frame;
    var f := Frame(p.ack, p.payload);
    FlagOf(p.ack, p.payload);
    if |f| < BUFFER_SIZE {
      assert f[..Kept(|f|)] == f;
    } else {
      assert Kept(BUFFER_SIZE) == 0;
    }
  }

  lemma FlagOf(ack: byte, payload: seq<byte>)
    ensures Frame(ack, payload)[4] == ack
  {
    hide Crc, Le32, Frame, FromLe32, Le16;
    FrameParts(ack, payload);
    assert Frame(ack, payload)[..|payload| + 5][4] == ack;
  }

  lemma {:induction false} RepliesAreOwn(ps: seq<Packet>)
    requires forall i :: 0 <= i < |ps| ==> |ps[i].payload| + 9 <= BUFFER_SIZE
    ensures Replies(AcceptedAll(ps)) == OwnReplies(ps) && PassedOn(AcceptedAll(ps)) == OwnLengths(ps)
    decreases |ps|
  {
    hide Reply, Passed, OwnReply, Frame;
    if ps != [] {
      var n := |ps| - 1;
      RepliesAreOwn(ps[..n]);
      ReplyIsOwn(ps[n]);
      assert AcceptedAll(ps)[..n] == AcceptedAll(ps[..n]);
    }
  }

  /** Packets sent back to back to a thread whose polls find something are each answered once, in order, and
      handed on with their lengths unless they are acknowledgements. */
  lemma EachAnsweredOnce(ps: seq<Packet>, tail: seq<byte>, polls: Schedule)
    requires forall i :: 0 <= i < |ps| ==> |ps[i].payload| + 9 <= BUFFER_SIZE
    requires AllFind(polls) && |polls| >= |Joined(Frames(ps))|
    ensures var os := Listen(|ps|, Line(Joined(Frames(ps)) + tail, polls)).0;
            Replies(os) == OwnReplies(ps) && PassedOn(os) == OwnLengths(ps)
  {
    hide Listen, Frames, Joined, AcceptedAll, Replies, PassedOn, OwnReplies, OwnLengths, Prompt;
    StreamRoundTrip(ps, tail, polls);
    RepliesAreOwn(ps);
  }

  /** A frame damaged within four consecutive bytes is answered with the negative acknowledgement, and with
      nothing else, and is not handed on. */
  lemma DamagedIsRefused(noise: seq<byte>, ack: byte, payload: seq<byte>, f': seq<byte>, k: nat,
                         tail: seq<byte>, polls: Schedule)
    requires |payload| + 9 <= BUFFER_SIZE
    requires var f := Frame(ack, payload);
             && |f'| == |f| && f' != f
             && forall i :: 0 <= i < |f| && !(k <= i < k + 4 && 4 <= i < |f| - 4) ==> f'[i] == f[i]
    requires Consumed(noise) && Prompt(polls, |noise| + 2)
    requires Positives(polls[|noise| + 2..]) >= |payload| + 7
    ensures var os := Listen(1, Line(noise + f' + tail, polls)).0;
            Replies(os) == Frame(0x80, [0xff, 0x80, 0x01]) && PassedOn(os) == []
  {
    hide Crc, Frame, Receive, Consumed, Positives;
    BurstRejected(noise, ack, payload, f', k, tail, polls);
    OneRejected(Line(noise + f' + tail, polls));
  }

  lemma OneRejected(line: Line)
    requires Receive(line).0 == Rejected
    ensures var os := Listen(1, line).0;
            Replies(os) == Frame(0x80, [0xff, 0x80, 0x01]) && PassedOn(os) == []
  {
    hide Receive, Frame;
    var os := Listen(1, line).0;
    assert os == [Rejected] && os[..0] == [];
    assert Replies([]) == [] && PassedOn([]) == [];
  }

  /** An acknowledgement is accepted and never answered, so two ends cannot keep acknowledging each
      other; any other frame that fits is answered positively. */
  lemma AcknowledgementsEnd(isOk: bool, ack: byte, payload: seq<byte>)
    requires |payload| + 9 < BUFFER_SIZE
    ensures Check(AckFrame(isOk)).Accepted? && Reply(Check(AckFrame(isOk))) == []
    ensures Reply(Check(Frame(ack, payload))) == if ack == 0x80 then [] else Frame(0x80, [0xff, 0xfe, 0x7f])
  {
    hide Crc, Check;
    CheckFrame(ACK_FLAG, if isOk then [0xff, 0xfe, 0x7f] else [0xff, 0x80, 0x01]);
    CheckFrame(ack, payload);
  }

  /** A get request leaves the port whole exactly when its length fits one byte. */
  lemma GetRequestWhole(payload: seq<byte>)
    requires |payload| <= 503
    ensures Frame(0, payload)[..Low(|payload| + 9)] == Frame(0, payload) <==> |payload| + 9 < 0x100
  {
    hide Frame;
    assert |Frame(0, payload)[..Low(|payload| + 9)]| == Low(|payload| + 9);
  }
}
