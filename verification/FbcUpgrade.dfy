/** Firmware upgrade over the serial link: the file's checksum test, the upgrade request, and the
    block transfer with retries against a device that may or may not answer. */
module FbcUpgrade {
  import opened Words
  import opened Crc32
  import opened Text
  import opened SerialPort
  import opened FbcFrame
  import opened FbcProtocol
  import opened UpgradePlan

  const ERR_SERIAL_CONNECT: int := -1
  const MAX_RETRIES: nat := 3

  // ---------------------------------------------------------------- partition checksum

  datatype PartitionInfo = PartitionInfo(code_offset: nat, code_size: nat, data_offset: nat, data_size: nat, crc: word)

  predicate HasCode(info: PartitionInfo) { info.code_offset != 0 && info.code_size != 0 }

  predicate HasData(info: PartitionInfo) { info.data_offset != 0 && info.data_size != 0 }

  /** The bytes a partition's checksum is over: code, then data, where present. */
  function Checked(file: seq<byte>, info: PartitionInfo): seq<byte>
    requires HasCode(info) ==> info.code_offset + info.code_size <= |file|
    requires HasData(info) ==> info.data_offset + info.data_size <= |file|
  {
    (if HasCode(info) then file[info.code_offset..info.code_offset + info.code_size] else [])
    + (if HasData(info) then file[info.data_offset..info.data_offset + info.data_size] else [])
  }

  /** The code stands first, the data behind it, and a part that is missing adds nothing. */
  lemma CodeThenData(file: seq<byte>, info: PartitionInfo)
    requires HasCode(info) ==> info.code_offset + info.code_size <= |file|
    requires HasData(info) ==> info.data_offset + info.data_size <= |file|
    ensures var c := Checked(file, info);
            var n := if info.code_offset != 0 then info.code_size else 0;
            && |c| == n + (if info.data_offset != 0 then info.data_size else 0)
            && (forall i :: 0 <= i < n ==> c[i] == file[info.code_offset + i])
            && (forall i :: n <= i < |c| ==> c[i] == file[info.data_offset + (i - n)])
  {}

  /** Accepts exactly when some part is present and the stored checksum is that of the parts joined. */
  method CheckPartition(fileBuff: array<byte>, info: Option<PartitionInfo>) returns (ok: bool)
    requires info.Some? && HasCode(info.value) ==>
               info.value.code_offset + info.value.code_size <= fileBuff.Length
    requires info.Some? && HasData(info.value) ==>
               info.value.data_offset + info.value.data_size <= fileBuff.Length
    ensures info == None ==> ok
    ensures info.Some? ==>
              (ok == ((HasCode(info.value) || HasData(info.value))
                      && info.value.crc == Crc(0, Checked(fileBuff[..], info.value))))
  {
    hide FeedBits, MessageBits;
    var crc := 0;
    var crc_flag := false;
    ok := true;
    if info.Some? {
      var p := info.value;
      ghost var code, data: seq<byte> := [], [];
      if p.code_offset != 0 && p.code_size != 0 {
        crc := Calcrc32(crc, fileBuff, p.code_offset, p.code_size);
        crc_flag := true;
        code := fileBuff[p.code_offset..p.code_offset + p.code_size];
      }
      if p.data_offset != 0 && p.data_size != 0 {
        ghost var before := crc;
        crc := Calcrc32(crc, fileBuff, p.data_offset, p.data_size);
        crc_flag := true;
        data := fileBuff[p.data_offset..p.data_offset + p.data_size];
        if HasCode(p) {
          Chaining(0, code, data);
        } else {
          assert code + data == data;
        }
      } else {
        assert code + data == code;
      }
      assert code == if HasCode(p) then fileBuff[..][p.code_offset..p.code_offset + p.code_size] else [];
      assert data == if HasData(p) then fileBuff[..][p.data_offset..p.data_offset + p.data_size] else [];
      assert Checked(fileBuff[..], p) == code + data;
      if !crc_flag || crc != p.crc {
        ok := false;
      }
    }
  }

  // ---------------------------------------------------------------- upgrade request

  const FBC_REBOOT_UPGRADE_AUTO_SPEED: byte := 0
  const FBC_REBOOT_UPGRADE: byte := 1

  /** Payload of the request: with a new baud rate behind it when one was set. */
  function UpgradeRequest(baud: word): seq<byte> {
    if baud != 0 then [FBC_REBOOT_UPGRADE_AUTO_SPEED, 0x88, 0x88, 0x88, 0x88] + Le32(baud)
    else [FBC_REBOOT_UPGRADE, 0x88, 0x88, 0x88, 0x88]
  }

  /** The whole request, byte by byte: 18 bytes that carry the new baud rate, or 14 without one. */
  lemma RequestBytes(baud: word)
    ensures var f := Frame(0, UpgradeRequest(baud));
            && f[..5] == [0x5A, 0x5A, if baud != 0 then 18 else 14, 0, 0]
            && f[5] == (if baud != 0 then 0 else 1) && f[6..10] == [0x88, 0x88, 0x88, 0x88]
            && |f| == (if baud != 0 then 18 else 14)
            && (baud != 0 ==> FromLe32(f[10..14]) == baud)
  {
    hide Crc, Frame, Le16, FromLe32;
    var payload := UpgradeRequest(baud);
    var f := Frame(0, payload);
    FrameParts(0, payload);
    var b := f[..|payload| + 5];
    assert b == Body(0, payload);
    assert f[..5] == b[..5] && f[5] == b[5] && f[6..10] == b[6..10];
    if baud != 0 {
      assert f[10..14] == b[10..14] == Le32(baud);
      Le32RoundTrip(baud);
    }
  }

  // ---------------------------------------------------------------- the environment

  /** A write to the port: complete, or cut short after some bytes and then reported as failed. */
  datatype Send = Whole | Torn(n: nat)

  /** The bytes of a piece that leave the port. */
  function Out(s: Send, piece: seq<byte>): (r: seq<byte>)
    ensures r <= piece
    ensures if s.Whole? then r == piece else piece != [] ==> |r| < |piece|
  {
    if s.Whole? then piece
    else if s.n < |piece| then piece[..s.n]
    else if piece == [] then [] else piece[..|piece| - 1]
  }

  /** What the line and the device do on one attempt: how the three sends go, whether the device writes
      the block, and the bytes it answers. */
  datatype Attempt = Attempt(cmd: Send, data: Send, crc: Send, writes: bool, reply: seq<byte>)

  /** Three leader bytes in a row, the last byte of the answer not counted among them. */
  predicate HasAck(reply: seq<byte>) {
    exists i :: 0 <= i < |reply| - 3 && AckAt(reply, i)
  }

  predicate AckAt(reply: seq<byte>, i: int)
    requires 0 <= i < |reply| - 2
  {
    reply[i] == 0x5A && reply[i + 1] == 0x5A && reply[i + 2] == 0x5A
  }

  /** Three leader bytes count wherever they stand, but one byte at least must follow them. */
  lemma AckNeedsOneMore(p: seq<byte>, q: seq<byte>)
    ensures q != [] ==> HasAck(p + [0x5A, 0x5A, 0x5A] + q)
    ensures |p| <= 3 ==> !HasAck(p)
  {
    if q != [] {
      assert AckAt(p + [0x5A, 0x5A, 0x5A] + q, |p|);
    }
  }

  /** And nothing else counts. */
  lemma AckOnlyThree(reply: seq<byte>)
    requires HasAck(reply)
    ensures exists p, q :: q != [] && reply == p + [0x5A, 0x5A, 0x5A] + q
  {
    var i :| 0 <= i < |reply| - 3 && AckAt(reply, i);
    var p, q := reply[..i], reply[i + 3..];
    assert q != [] && reply == p + [0x5A, 0x5A, 0x5A] + q;
  }

  /** The device writes on any attempt whose data reached it if it likes, and always before it acknowledges. */
  predicate Writes(a: Attempt) {
    a.cmd.Whole? && a.data.Whole? && (a.writes || (a.crc.Whole? && HasAck(DeviceReply(a))))
  }

  function DeviceReply(a: Attempt): (r: seq<byte>)
    ensures |r| <= BLOCK + 4
  {
    if |a.reply| <= BLOCK + 4 then a.reply else a.reply[..BLOCK + 4]
  }

  predicate AllSent(a: Attempt) { a.cmd.Whole? && a.data.Whole? && a.crc.Whole? }

  /** The block went out in full and the device said so. */
  predicate Acks(a: Attempt) { AllSent(a) && HasAck(DeviceReply(a)) }

  /** What leaves the port on one attempt. */
  function Emitted(file: seq<byte>, b: Block, a: Attempt): seq<byte>
    requires 0 <= b.start && b.start + b.count <= |file|
  {
    var data, text := file[b.start..b.start + b.count], Ascii(CommandText(b.start, b.count));
    if a.cmd.Torn? then Out(a.cmd, text)
    else if a.data.Torn? then text + Out(a.data, data)
    else text + data + Out(a.crc, Le32(Crc(0, data)))
  }

  lemma AppendAssoc(s: seq<byte>, x: seq<byte>, y: seq<byte>)
    ensures s + x + y == s + (x + y)
  {}

  lemma EmittedWhole(file: seq<byte>, b: Block, a: Attempt)
    requires 0 <= b.start && b.start + b.count <= |file| && AllSent(a)
    ensures Emitted(file, b, a) == Packet(file, b)
  {
    hide Crc, CommandText, Le32, Ascii;
  }

  /** A failed attempt never puts a whole transmission on the line. */
  lemma TornIsPrefix(file: seq<byte>, b: Block, a: Attempt)
    requires 0 <= b.start && b.start + b.count <= |file| && !AllSent(a)
    ensures Emitted(file, b, a) <= Packet(file, b)
    ensures b.count > 0 ==> |Emitted(file, b, a)| < |Packet(file, b)|
  {
    hide Crc, Ascii, Out;
    var data, text := file[b.start..b.start + b.count], Ascii(CommandText(b.start, b.count));
    var crc := Le32(Crc(0, data));
    hide CommandText, Le32;
    assert Packet(file, b) == text + (data + crc);
    if a.cmd.Torn? {
      assert Emitted(file, b, a) <= text;
    } else if a.data.Torn? {
      assert Out(a.data, data) <= data + crc;
    }
  }

  /** The bytes of one transmission of every block. */
  function OnceEach(file: seq<byte>, log: seq<Entry>): nat
    requires InFile(log, |file|)
  {
    if log == [] then 0
    else OnceEach(file, log[..|log| - 1]) + |Packet(file, log[|log| - 1].block)|
  }

  lemma OnceEachAppend(file: seq<byte>, log: seq<Entry>, e: Entry)
    requires InFile(log, |file|) && EntryInFile(e, |file|)
    ensures InFile(log + [e], |file|)
    ensures OnceEach(file, log + [e]) == OnceEach(file, log) + |Packet(file, e.block)|
  {
    hide Packet;
    var all := log + [e];
    assert all[|all| - 1] == e && all[..|all| - 1] == log;
  }

  lemma {:induction false} RepeatLength(s: seq<byte>, n: nat)
    ensures |Repeat(s, n)| == n * |s|
  {
    if n > 0 {
      RepeatLength(s, n - 1);
    }
  }

  lemma MadeAppend(log: seq<Entry>, e: Entry)
    ensures Made(log + [e]) == Made(log) + Attempts(e)
  {
    assert (log + [e])[..|log|] == log;
  }

  lemma AtMostTimes(n: nat, m: nat, x: nat)
    requires n <= m
    ensures n * x <= m * x
  {}

  lemma {:induction false} SentLength(file: seq<byte>, log: seq<Entry>)
    requires InFile(log, |file|) && forall i :: 0 <= i < |log| ==> log[i].tries <= 4
    ensures |Sent(file, log)| <= 4 * OnceEach(file, log)
    decreases |log|
  {
    hide Packet, Repeat;
    if log != [] {
      var e := log[|log| - 1];
      SentLength(file, log[..|log| - 1]);
      RepeatLength(Packet(file, e.block), e.tries);
      AtMostTimes(e.tries, 4, |Packet(file, e.block)|);
    }
  }

  function Max(length: int): nat { if length > 0 then length else 0 }

  /** The entry of the block a section is waiting for. */
  function Waiting(s: Section, start: int, written: nat, tries: nat, w: bool): seq<Entry>
    requires written <= Max(s.length)
  {
    Pending(Block(start, BlockSize(Max(s.length) - written)), tries, w)
  }

  predicate AllAcked(log: seq<Entry>) {
    forall i :: 0 <= i < |log| ==> log[i].acked
  }

  lemma DisciplinedNext(done: seq<Entry>, e: Entry)
    requires Disciplined(done) && AllAcked(done)
    requires Attempts(e) <= 4 && (e.acked ==> e.written && e.tries > 0 && !e.torn)
    ensures Disciplined(done + [e]) && (e.acked ==> AllAcked(done + [e]))
  {}

  /** The block being tried is the next one of the plan. */
  lemma PlanPrefix(done: seq<Entry>, e: Entry, start: int, left: nat, whole: seq<Block>)
    requires left > 0 && e.block == Block(start, BlockSize(left))
    requires Blocks(done) + Split(start, left) == whole
    ensures Blocks(done + [e]) <= whole
    ensures Blocks(done + [e]) + Split(start + BlockSize(left), left - BlockSize(left)) == whole
  {
    assert Blocks(done + [e]) == Blocks(done) + [e.block];
  }

  /** The plan up to and including section i. */
  lemma PlanNext(parts: seq<Section>, i: nat)
    requires i < |parts|
    ensures Plan(parts[..i + 1]) == Plan(parts[..i]) + Split(Adjust(parts[i]).start, Adjust(parts[i]).length)
    ensures Plan(parts[..i + 1]) <= Plan(parts) && Plan(parts[..i]) <= Plan(parts)
  {
    hide Split, Plan;
    Slices(parts, i);
    PlanConcat(parts[..i], [parts[i]]);
    PlanOfOne(parts[i]);
    PlanConcat(parts[..i + 1], parts[i + 1..]);
  }

  lemma Slices<T>(s: seq<T>, i: nat)
    requires i < |s|
    ensures s[..i + 1] == s[..i] + [s[i]] && s == s[..i + 1] + s[i + 1..]
  {}

  lemma PlanOfOne(s: Section)
    ensures Plan([s]) == Split(Adjust(s).start, Adjust(s).length)
  {
    hide Split;
    assert [s][1..] == [];
  }

  // ---------------------------------------------------------------- laws used by the transfer

  predicate EntryInFile(e: Entry, size: nat) {
    0 <= e.block.start && e.block.start + e.block.count <= size
  }

  lemma SentAppend(file: seq<byte>, log: seq<Entry>, e: Entry)
    requires InFile(log, |file|) && EntryInFile(e, |file|)
    ensures InFile(log + [e], |file|)
    ensures Sent(file, log + [e]) == Sent(file, log) + Repeat(Packet(file, e.block), e.tries)
  {
    hide Packet, Repeat;
    var all := log + [e];
    assert all[|all| - 1] == e && all[..|all| - 1] == log;
  }

  lemma {:induction false} SentConcat(file: seq<byte>, p: seq<Entry>, q: seq<Entry>)
    requires InFile(p, |file|) && InFile(q, |file|)
    ensures InFile(p + q, |file|)
    ensures Sent(file, p + q) == Sent(file, p) + Sent(file, q)
    decreases |q|
  {
    hide Packet, Repeat, Sent;
    if q == [] {
      assert p + q == p;
      assert Sent(file, q) == [] by { SentEmpty(file); }
    } else {
      var n := |q| - 1;
      var e, q' := q[n], q[..n];
      SentConcat(file, p, q');
      assert EntryInFile(e, |file|);
      SentAppend(file, p + q', e);
      SentAppend(file, q', e);
      assert (p + q') + [e] == p + q && q' + [e] == q;
      var r := Repeat(Packet(file, e.block), e.tries);
      assert (Sent(file, p) + Sent(file, q')) + r == Sent(file, p) + (Sent(file, q') + r);
    }
  }

  lemma SentEmpty(file: seq<byte>)
    ensures Sent(file, []) == []
  {}

  lemma {:induction false} FlashedConcat(flash: seq<byte>, file: seq<byte>, p: seq<Entry>, q: seq<Entry>)
    requires |file| <= |flash| && InFile(p, |file|) && InFile(q, |file|)
    ensures InFile(p + q, |file|)
    ensures Flashed(flash, file, p + q) == Flashed(Flashed(flash, file, p), file, q)
    decreases |q|
  {
    if q == [] {
      assert p + q == p;
    } else {
      var n := |q| - 1;
      assert (p + q)[..|p + q| - 1] == p + q[..n];
      FlashedConcat(flash, file, p, q[..n]);
    }
  }

  /** The log entry of a block still waiting for its acknowledgement, if it has been tried at all. */
  function Pending(b: Block, tries: nat, written: bool): seq<Entry> {
    if tries == 0 && !written then [] else [Entry(b, tries, written, false, false)]
  }

  /** One more full transmission, or none, in the log's terms. */
  lemma SentAgain(file: seq<byte>, done: seq<Entry>, b: Block, tries: nat, written: bool, e: Entry)
    requires InFile(done + Pending(b, tries, written), |file|) && EntryInFile(e, |file|)
    requires e.block == b && (e.tries == tries || e.tries == tries + 1)
    ensures InFile(done + [e], |file|)
    ensures Sent(file, done + [e]) == Sent(file, done + Pending(b, tries, written))
                                      + (if e.tries == tries then [] else Packet(file, b))
  {
    hide Packet, Sent;
    assert InFile(done, |file|) by {
      forall i | 0 <= i < |done| ensures EntryInFile(done[i], |file|) {
        assert (done + Pending(b, tries, written))[i] == done[i];
      }
    }
    SentAppend(file, done, e);
    if tries == 0 && !written {
      assert done + [] == done;
      assert Repeat(Packet(file, b), 1) == Packet(file, b);
    } else {
      SentAppend(file, done, Entry(b, tries, written, false, false));
    }
  }

  /** One more write by the device, or none, in the log's terms. */
  lemma FlashedAgain(file: seq<byte>, flash: seq<byte>, done: seq<Entry>, b: Block, tries: nat, written: bool,
                     e: Entry, writes: bool)
    requires |file| <= |flash| && InFile(done + Pending(b, tries, written), |file|) && EntryInFile(e, |file|)
    requires e.block == b && e.written == (written || writes)
    ensures InFile(done + [e], |file|)
    ensures var before := Flashed(flash, file, done + Pending(b, tries, written));
            Flashed(flash, file, done + [e]) == if writes then Write(before, file, b) else before
  {
    hide Flashed, Write;
    assert InFile(done, |file|) by {
      forall i | 0 <= i < |done| ensures EntryInFile(done[i], |file|) {
        assert (done + Pending(b, tries, written))[i] == done[i];
      }
    }
    FlashedAppend(flash, file, done, e);
    if tries == 0 && !written {
      assert done + [] == done;
    } else {
      FlashedAppend(flash, file, done, Entry(b, tries, written, false, false));
      WriteTwice(Flashed(flash, file, done), file, b);
    }
  }

  lemma FlashedAppend(flash: seq<byte>, file: seq<byte>, log: seq<Entry>, e: Entry)
    requires |file| <= |flash| && InFile(log, |file|) && EntryInFile(e, |file|)
    ensures InFile(log + [e], |file|)
    ensures var before := Flashed(flash, file, log);
            Flashed(flash, file, log + [e]) == if e.written then Write(before, file, e.block) else before
  {
    hide Write;
    var all := log + [e];
    assert all[|all| - 1] == e && all[..|all| - 1] == log;
  }

  lemma WriteTwice(flash: seq<byte>, file: seq<byte>, b: Block)
    requires 0 <= b.start && b.start + b.count <= |file| <= |flash|
    ensures Write(Write(flash, file, b), file, b) == Write(flash, file, b)
  {}

  // ---------------------------------------------------------------- the upgrader

  class CFbcUpgrade {
    /** The upgrade file, fully loaded and never changed. */
    const mBinFileBuf: seq<byte>
    const mDataBuf: array<byte>
    /** The k-th attempt, and whether the outside asks to stop at the k-th look at the exit flag. */
    const attempt: nat -> Attempt
    const stop: nat -> bool
    var attempts: nat
    var looks: nat
    var exitRequested: bool
    var outsideStop: bool
    var retCode: int
    var reSendTimes: nat
    var sent: seq<byte>
    var flash: seq<byte>

    constructor (file: seq<byte>, flash: seq<byte>, attempt: nat -> Attempt, stop: nat -> bool)
      requires |flash| >= |file|
      ensures Valid() && mBinFileBuf == file && fresh(mDataBuf)
      ensures this.attempt == attempt && this.stop == stop
      ensures this.flash == flash && sent == []
      ensures !exitRequested && !outsideStop && retCode == 0 && reSendTimes == 0
    {
      mBinFileBuf := file;
      mDataBuf := new byte[BLOCK + 4];
      this.attempt, this.stop := attempt, stop;
      attempts, looks := 0, 0;
      exitRequested, outsideStop, retCode, reSendTimes := false, false, 0, 0;
      sent, this.flash := [], flash;
    }

    ghost predicate Valid()
      reads this`flash
    {
      mDataBuf.Length == BLOCK + 4 && |flash| >= |mBinFileBuf|
    }

    /** Fills in the request but for its checksum, and returns the length so far. */
    method FillUpgradeCmd(mNewBaudRate: word) returns (cmdLen: nat)
      requires Valid()
      modifies mDataBuf
      ensures cmdLen <= 14 && mDataBuf[..cmdLen] == Body(0, UpgradeRequest(mNewBaudRate))
    {
      hide Le32;
      cmdLen := if mNewBaudRate != 0 then 14 else 10;
      var cmd := if mNewBaudRate != 0 then FBC_REBOOT_UPGRADE_AUTO_SPEED else FBC_REBOOT_UPGRADE;
      mDataBuf[0], mDataBuf[1], mDataBuf[2], mDataBuf[3], mDataBuf[4] := 0x5A, 0x5A, cmdLen + 4, 0x00, 0x00;
      mDataBuf[5], mDataBuf[6], mDataBuf[7], mDataBuf[8], mDataBuf[9] := cmd, 0x88, 0x88, 0x88, 0x88;
      if mNewBaudRate != 0 {
        var le := Le32(mNewBaudRate);
        mDataBuf[10], mDataBuf[11], mDataBuf[12], mDataBuf[13] := le[0], le[1], le[2], le[3];
      }
    }

    /** Asks the device to reboot into its upgrade mode: a frame like any other on the link. */
    method SendUpgradeCmd(mNewBaudRate: word, s: Send) returns (ok: bool)
      requires Valid()
      modifies this`sent, this`retCode, mDataBuf
      ensures ok == s.Whole? && retCode == if ok then old(retCode) else ERR_SERIAL_CONNECT
      ensures sent == old(sent) + Out(s, Frame(0, UpgradeRequest(mNewBaudRate)))
    {
      hide Crc, Le32, Body, UpgradeRequest, Out;
      var cmdLen := FillUpgradeCmd(mNewBaudRate);
      ghost var body := mDataBuf[..cmdLen];
      AddCrc(mDataBuf, cmdLen);
      assert mDataBuf[..cmdLen + 4] == body + Le32(Crc(0, body));
      ok := SendDataOneway(s, mDataBuf[..cmdLen + 4]);
      if !ok {
        retCode := ERR_SERIAL_CONNECT;
      }
    }

    /** No stop request ever comes in from outside. */
    ghost predicate NeverStopped() {
      forall k: nat :: !stop(k)
    }

    /** An outside stop is one that was there before, or that a look made since `first` has found. */
    ghost predicate StopExplained(before: bool, first: nat)
      reads this`looks, this`outsideStop
    {
      first <= looks && (outsideStop ==> before || exists k: nat :: first <= k < looks && stop(k))
    }

    /** exitPending(): an outside stop request may come in at any look, and sticks. */
    method ExitPending() returns (b: bool)
      modifies this`looks, this`exitRequested, this`outsideStop
      ensures b == exitRequested
      ensures old(exitRequested) ==> exitRequested
      ensures exitRequested && !old(exitRequested) ==> outsideStop
      ensures old(outsideStop) ==> outsideStop
      ensures StopExplained(old(outsideStop), old(looks))
    {
      if stop(looks) {
        if !exitRequested {
          outsideStop := true;
        }
        exitRequested := true;
      }
      looks := looks + 1;
      b := exitRequested;
    }

    /** Looks for the acknowledgement in the first ret_count bytes of the buffer. */
    method FindAck(ret_count: nat) returns (tmp_flag: bool)
      requires ret_count <= mDataBuf.Length
      ensures tmp_flag == HasAck(mDataBuf[..ret_count])
    {
      ghost var reply := mDataBuf[..ret_count];
      var i := 0;
      while i < ret_count - 3
        invariant 0 <= i && forall k :: 0 <= k < i && k < |reply| - 3 ==> !AckAt(reply, k)
      {
        if mDataBuf[i] == 0x5A && mDataBuf[i + 1] == 0x5A && mDataBuf[i + 2] == 0x5A {
          assert AckAt(reply, i);
          return true;
        }
        i := i + 1;
      }
      return false;
    }

    /** Clears the buffer and reads the device's answer into it. */
    method ReadReply(a: Attempt) returns (ret_count: nat)
      requires mDataBuf.Length == BLOCK + 4
      modifies mDataBuf
      ensures ret_count == |DeviceReply(a)| && mDataBuf[..ret_count] == DeviceReply(a)
    {
      var reply := DeviceReply(a);
      ret_count := |reply|;
      forall i | 0 <= i < mDataBuf.Length {
        mDataBuf[i] := if i < |reply| then reply[i] else 0;
      }
    }

    /** The device's part: it writes the data it got where the command says. */
    method DeviceWrites(text: string, data: seq<byte>)
      requires var (s, c) := ParseCommand(text); c == |data| && s + c <= |flash|
      modifies this`flash
      ensures var (s, c) := ParseCommand(text); flash == old(flash)[..s] + data + old(flash)[s + c..]
    {
      var (s, c) := ParseCommand(text);
      flash := flash[..s] + data + flash[s + c..];
    }

    /** A write to the port. */
    method SendDataOneway(s: Send, piece: seq<byte>) returns (ok: bool)
      modifies this`sent
      ensures ok == s.Whole? && sent == old(sent) + Out(s, piece)
    {
      ok := s.Whole?;
      sent := sent + Out(s, piece);
    }

    /** Command, data and checksum of one attempt, up to the first send that fails. */
    method SendBlock(a: Attempt, start: nat, count: nat) returns (ok: bool)
      requires Valid() && count <= BLOCK && start + count <= |mBinFileBuf|
      modifies this`sent, this`flash, mDataBuf
      ensures Valid() && ok == AllSent(a)
      ensures sent == old(sent) + Emitted(mBinFileBuf, Block(start, count), a)
      ensures flash == if Writes(a) then Write(old(flash), mBinFileBuf, Block(start, count)) else old(flash)
    {
      hide Crc, CommandText, ParseCommand, HasAck, Le32, Ascii, DeviceReply, Out;
      ghost var file := mBinFileBuf;
      ghost var data := file[start..start + count];
      forall i | 0 <= i < count {
        mDataBuf[i] := mBinFileBuf[start + i];
      }
      assert mDataBuf[..count] == data;
      var text := CommandText(start, count);
      CommandIsReadable(start, count);
      ghost var sent0, flash0 := sent, flash;
      ok := SendDataOneway(a.cmd, Ascii(text));
      if ok {
        ok := SendDataOneway(a.data, mDataBuf[..count]);
        AppendAssoc(sent0, Ascii(text), Out(a.data, data));
        if Writes(a) {
          DeviceWrites(text, mDataBuf[..count]);
          assert flash == Write(flash0, file, Block(start, count));
        }
      }
      if ok || a.cmd.Torn? {
        AddCrc(mDataBuf, count);
      }
      if ok {
        assert mDataBuf[count..count + 4] == Le32(Crc(0, data));
        ok := SendDataOneway(a.crc, mDataBuf[count..count + 4]);
        AppendAssoc(sent0, Ascii(text) + data, Out(a.crc, Le32(Crc(0, data))));
      }
    }

    /** One attempt at one block, and the device's answer. */
    method SendOnce(start: nat, count: nat) returns (ok: bool, acked: bool)
      requires Valid() && count <= BLOCK && start + count <= |mBinFileBuf|
      modifies this`attempts, this`sent, this`flash, mDataBuf
      ensures Valid() && attempts == old(attempts) + 1
      ensures var a, b := attempt(old(attempts)), Block(start, count);
              && ok == AllSent(a) && acked == Acks(a)
              && sent == old(sent) + Emitted(mBinFileBuf, b, a)
              && flash == if Writes(a) then Write(old(flash), mBinFileBuf, b) else old(flash)
    {
      hide Emitted, Write, HasAck, DeviceReply;
      var a := attempt(attempts);
      attempts := attempts + 1;
      ok := SendBlock(a, start, count);
      acked := false;
      if ok {
        var ret_count := ReadReply(a);
        acked := FindAck(ret_count);
      }
    }

    /** The attempts from `from` on were made at one block: each full one and no other was sent whole, the
        last of them was acknowledged if any was, a torn one behind them was not, and the device wrote the
        block on one of them if at all. */
    ghost predicate Tells(e: Entry, from: nat) {
      && (forall j: nat :: from <= j < from + e.tries ==>
            AllSent(attempt(j)) && (Acks(attempt(j)) <==> e.acked && j == from + e.tries - 1))
      && (e.torn ==> !AllSent(attempt(from + e.tries)))
      && (e.acked ==> e.tries > 0 && !e.torn)
      && (e.written <==> exists j: nat :: from <= j < from + Attempts(e) && Writes(attempt(j)))
    }

    /** The log tells the attempts made since `first`, block by block and in order. */
    ghost predicate Told(log: seq<Entry>, first: nat) {
      forall i :: 0 <= i < |log| ==> Tells(log[i], first + Made(log[..i]))
    }

    /** What a log and a torn last transmission say about attempts, line and flash. */
    ghost predicate Logged(sent0: seq<byte>, flash0: seq<byte>, first: nat, log: seq<Entry>, partial: seq<byte>)
      reads this`flash, this`sent, this`attempts
    {
      && |flash0| >= |mBinFileBuf| && InFile(log, |mBinFileBuf|)
      && attempts == first + Made(log) && Told(log, first)
      && sent == sent0 + Sent(mBinFileBuf, log) + partial
      && flash == Flashed(flash0, mBinFileBuf, log)
    }

    /** The only ways to give up, at the block logged last: four full transmissions were not acknowledged, or
        at most three were and then a send failed; in that case `partial` is what this last, torn
        transmission put on the line. */
    ghost predicate GaveUp(log: seq<Entry>, partial: seq<byte>)
      reads this`attempts
    {
      && log != [] && attempts > 0
      && var e := log[|log| - 1];
      && EntryInFile(e, |mBinFileBuf|) && !e.acked
      && if e.torn then e.tries <= 3 && partial == Emitted(mBinFileBuf, e.block, attempt(attempts - 1))
         else e.tries == 4 && partial == []
    }

    /** The block's entry after one more attempt. */
    function Next(b: Block, tries: nat, written: bool, a: Attempt): Entry {
      Entry(b, if AllSent(a) then tries + 1 else tries, written || Writes(a), Acks(a), !AllSent(a))
    }

    lemma TellsNext(b: Block, tries: nat, written: bool, from: nat)
      requires Tells(Entry(b, tries, written, false, false), from)
      ensures Tells(Next(b, tries, written, attempt(from + tries)), from)
    {
      hide AllSent, HasAck, Writes;
      var now := from + tries;
      var e, e' := Entry(b, tries, written, false, false), Next(b, tries, written, attempt(now));
      if e.written {
        var j: nat :| from <= j < from + Attempts(e) && Writes(attempt(j));
        assert from <= j < from + Attempts(e') && Writes(attempt(j));
      }
      if Writes(attempt(now)) {
        assert from <= now < from + Attempts(e');
      }
    }

    lemma ToldAppend(log: seq<Entry>, e: Entry, first: nat)
      requires Told(log, first) && Tells(e, first + Made(log))
      ensures Told(log + [e], first) && Made(log + [e]) == Made(log) + Attempts(e)
    {
      hide Tells, Made;
      var all := log + [e];
      MadeAppend(log, e);
      forall i | 0 <= i < |all| ensures Tells(all[i], first + Made(all[..i])) {
        if i < |log| {
          assert all[..i] == log[..i];
        }
      }
    }

    lemma ToldFront(log: seq<Entry>, e: Entry, first: nat)
      requires Told(log + [e], first)
      ensures Told(log, first) && Tells(e, first + Made(log)) && Made(log + [e]) == Made(log) + Attempts(e)
    {
      hide Tells, Made;
      var all := log + [e];
      MadeAppend(log, e);
      assert all[..|log|] == log && all[|log|] == e;
      forall i | 0 <= i < |log| ensures Tells(log[i], first + Made(log[..i])) {
        assert all[..i] == log[..i] && all[i] == log[i];
      }
    }

    /** One more attempt, in the log's terms. */
    lemma ToldAgain(done: seq<Entry>, b: Block, tries: nat, written: bool, first: nat)
      requires Told(done + Pending(b, tries, written), first) && (tries == 0 ==> !written)
      ensures var now := first + Made(done + Pending(b, tries, written));
              var e := Next(b, tries, written, attempt(now));
              Told(done + [e], first) && first + Made(done + [e]) == now + 1
    {
      hide Tells, Told, Made, AllSent, Acks, Writes;
      var p := Entry(b, tries, written, false, false);
      if tries == 0 {
        assert done + [] == done;
        NothingTells(b, first + Made(done));
      } else {
        ToldFront(done, p, first);
      }
      TellsNext(b, tries, written, first + Made(done));
      ToldAppend(done, Next(b, tries, written, attempt(first + Made(done) + tries)), first);
    }

    lemma NothingTells(b: Block, from: nat)
      ensures Tells(Entry(b, 0, false, false, false), from)
    {}

    lemma NothingMade()
      ensures Made([]) == 0
    {}

    lemma {:induction false} ToldConcat(log: seq<Entry>, log': seq<Entry>, first: nat)
      requires Told(log, first) && Told(log', first + Made(log))
      ensures Told(log + log', first) && Made(log + log') == Made(log) + Made(log')
      decreases |log'|
    {
      hide Tells, Told, Made;
      if log' == [] {
        assert log + log' == log;
        NothingMade();
      } else {
        var n := |log'| - 1;
        var p, e := log'[..n], log'[n];
        assert log' == p + [e] && log + log' == log + p + [e];
        ToldFront(p, e, first + Made(log));
        ToldConcat(log, p, first);
        ToldAppend(log + p, e, first);
      }
    }

    /** One attempt, in the log's terms: e is the block's entry behind it. */
    method TryBlock(start: nat, count: nat, ghost done: seq<Entry>, ghost written: bool,
                    ghost sent0: seq<byte>, ghost flash0: seq<byte>, ghost first: nat)
      returns (ok: bool, acked: bool, ghost e: Entry, ghost partial: seq<byte>)
      requires Valid() && count <= BLOCK && start + count <= |mBinFileBuf|
      requires reSendTimes == 0 ==> !written
      requires Logged(sent0, flash0, first, done + Pending(Block(start, count), reSendTimes, written), [])
      modifies this`attempts, this`sent, this`flash, mDataBuf
      ensures Valid() && Logged(sent0, flash0, first, done + [e], partial)
      ensures e.block == Block(start, count) && e.tries == (if ok then reSendTimes + 1 else reSendTimes)
      ensures e.acked == acked && e.torn == !ok && (acked ==> ok && e.written)
      ensures attempts == old(attempts) + 1
      ensures var a := attempt(old(attempts));
              && ok == AllSent(a) && acked == Acks(a)
              && partial == if ok then [] else Emitted(mBinFileBuf, e.block, a)
    {
      hide Sent, Flashed, Emitted, Write, Packet, HasAck, Told, Made;
      ghost var file, b, a := mBinFileBuf, Block(start, count), attempt(attempts);
      ghost var before, were := Sent(file, done + Pending(b, reSendTimes, written)), sent;
      ok, acked := SendOnce(start, count);
      e := Next(b, reSendTimes, written, a);
      ToldAgain(done, b, reSendTimes, written, first);
      partial := if ok then [] else Emitted(file, b, a);
      SentAgain(file, done, b, reSendTimes, written, e);
      FlashedAgain(file, flash0, done, b, reSendTimes, written, e, Writes(a));
      assert were == sent0 + before;
      if ok {
        EmittedWhole(file, b, a);
        AppendAssoc(sent0, before, Packet(file, b));
      }
    }

    /** Between two attempts at a section: `done` is acknowledged, the next block may be pending. */
    ghost predicate Going(s: Section, start: int, written: nat, done: seq<Entry>, w: bool,
                          sent0: seq<byte>, flash0: seq<byte>, first: nat)
      reads this`flash, this`sent, this`reSendTimes, this`attempts
    {
      && Valid() && InsideFile(s, |mBinFileBuf|)
      && start == s.start + written && written <= Max(s.length)
      && reSendTimes <= MAX_RETRIES && (reSendTimes == 0 ==> !w)
      && (reSendTimes > 0 ==> written < Max(s.length))
      && Disciplined(done) && AllAcked(done)
      && Blocks(done) + Split(start, Max(s.length) - written) == Split(s.start, s.length)
      && Logged(sent0, flash0, first, done + Waiting(s, start, written, reSendTimes, w), [])
    }

    /** How a section's log stands when no more is sent. */
    ghost predicate Ended(s: Section, log: seq<Entry>, partial: seq<byte>, sent0: seq<byte>, flash0: seq<byte>,
                          first: nat)
      reads this`flash, this`sent, this`attempts
    {
      && Valid() && Disciplined(log) && Blocks(log) <= Split(s.start, s.length)
      && Logged(sent0, flash0, first, log, partial)
      && (partial == [] || GaveUp(log, partial))
    }

    /** One turn of the block loop: an attempt at the next block, and what follows from its answer. */
    method TakeTurn(s: Section, start: int, written: nat, ghost done: seq<Entry>, ghost w: bool,
                    ghost sent0: seq<byte>, ghost flash0: seq<byte>, ghost first: nat)
      returns (n: nat, aborted: bool, ghost done': seq<Entry>, ghost w': bool, ghost partial: seq<byte>)
      requires Going(s, start, written, done, w, sent0, flash0, first) && written < s.length
      modifies this`attempts, this`sent, this`flash, this`reSendTimes, this`retCode, this`exitRequested, mDataBuf
      ensures attempts == old(attempts) + 1
      ensures var a := attempt(old(attempts));
              && (aborted <==> !AllSent(a) || (!Acks(a) && old(reSendTimes) == MAX_RETRIES))
              && n == if Acks(a) then BlockSize(s.length - written) else 0
      ensures !aborted ==>
                && Going(s, start + n, written + n, done', w', sent0, flash0, first)
                && retCode == old(retCode) && exitRequested == old(exitRequested)
                && written + n <= s.length && reSendTimes <= MAX_RETRIES && partial == []
                && (n > 0 || old(reSendTimes) < reSendTimes)
      ensures aborted ==>
                && retCode == ERR_SERIAL_CONNECT && exitRequested
                && GaveUp(done', partial) && Ended(s, done', partial, sent0, flash0, first)
    {
      hide Sent, Flashed, Split, Emitted, AllSent, Acks, Logged, Disciplined, AllAcked, Blocks;
      var left := s.length - written;
      var count := BlockSize(left);
      ghost var e: Entry;
      var ok, acked;
      ok, acked, e, partial := TryBlock(start, count, done, w, sent0, flash0, first);
      PlanPrefix(done, e, start, left, Split(s.start, s.length));
      DisciplinedNext(done, e);
      n, aborted, done', w' := 0, false, done, e.written;
      if ok {
        if !acked {
          reSendTimes := reSendTimes + 1;
          if reSendTimes > MAX_RETRIES {
            retCode := ERR_SERIAL_CONNECT;
            exitRequested := true;
            aborted, done' := true, done + [e];
          }
        } else {
          reSendTimes := 0;
          n, done', w' := count, done + [e], false;
          assert done' + [] == done';
        }
      } else {
        retCode := ERR_SERIAL_CONNECT;
        exitRequested := true;
        aborted, done' := true, done + [e];
      }
    }

    /** Where the block loop stands: given up, or between two attempts with `measure` to go, bytes
        first, then retries. */
    ghost predicate Standing(aborted: bool, s: Section, start: int, written: nat, done: seq<Entry>, w: bool,
                             partial: seq<byte>, measure: nat, sent0: seq<byte>, flash0: seq<byte>, first: nat)
      reads this`flash, this`sent, this`reSendTimes, this`exitRequested, this`attempts
    {
      if aborted then Ended(s, done, partial, sent0, flash0, first) && GaveUp(done, partial)
                      && exitRequested && measure == 0
      else Going(s, start, written, done, w, sent0, flash0, first) && partial == []
           && measure == 5 * (Max(s.length) - written) + (4 - reSendTimes)
    }

    /** Why an end was asked for, and what became of the error code: before, from outside, or by giving up. */
    ghost predicate ExitExplained(before: bool, aborted: bool, code: int)
      reads this`exitRequested, this`outsideStop, this`retCode
    {
      && (exitRequested ==> before || outsideStop || aborted)
      && retCode == if aborted then ERR_SERIAL_CONNECT else code
    }

    /** A turn followed by the look at the exit flag. */
    method TakeTurnAndLook(s: Section, start: int, written: nat, ghost done: seq<Entry>, ghost w: bool,
                           ghost partial: seq<byte>, ghost measure: nat, ghost before: bool,
                           ghost sent0: seq<byte>, ghost flash0: seq<byte>, ghost first: nat)
      returns (n: nat, aborted: bool, exit: bool,
               ghost done': seq<Entry>, ghost w': bool, ghost partial': seq<byte>, ghost measure': nat)
      requires Standing(false, s, start, written, done, w, partial, measure, sent0, flash0, first)
      requires written < s.length && !exitRequested
      modifies this, mDataBuf
      ensures Standing(aborted, s, start + n, written + n, done', w', partial', measure', sent0, flash0, first)
      ensures measure' < measure
      ensures exit == exitRequested && ExitExplained(before, aborted, old(retCode))
      ensures StopExplained(old(outsideStop), old(looks))
    {
      hide Ended, GaveUp, Logged, Disciplined, AllAcked, Blocks, Split;
      n, aborted, done', w', partial' := TakeTurn(s, start, written, done, w, sent0, flash0, first);
      exit := ExitPending();
      measure' := if aborted then 0 else 5 * (Max(s.length) - written - n) + (4 - reSendTimes);
    }

    /** The blocks of one section. Every block is sent again until the device acknowledges it, at most
        four times. */
    method TransferSection(s: Section) returns (ghost log: seq<Entry>, ghost partial: seq<byte>)
      requires Valid() && InsideFile(s, |mBinFileBuf|) && reSendTimes == 0
      modifies this, mDataBuf
      ensures Ended(s, log, partial, old(sent), old(flash), old(attempts))
      ensures exitRequested ==>
                || ((old(exitRequested) || outsideStop) && retCode == old(retCode))
                || (GaveUp(log, partial) && retCode == ERR_SERIAL_CONNECT)
      ensures StopExplained(old(outsideStop), old(looks))
      ensures !exitRequested ==>
                && Blocks(log) == Split(s.start, s.length) && AllAcked(log) && partial == []
                && reSendTimes == 0 && retCode == old(retCode)
    {
      hide Standing, Going, Ended, Logged, Sent, Flashed, Blocks, Split, AllAcked, Disciplined, Valid, InsideFile,
        GaveUp;
      var start: int, currentWriteLength: nat := s.start, 0;
      ghost var done: seq<Entry>, w, measure: nat := [], false, 5 * Max(s.length) + 4;
      ghost var sent0, flash0, first, before, code := sent, flash, attempts, exitRequested, retCode;
      var exit := ExitPending();
      var aborted := false;
      partial := [];
      NothingLogged(s);
      while !exit && !aborted && currentWriteLength < s.length
        invariant Standing(aborted, s, start, currentWriteLength, done, w, partial, measure, sent0, flash0, first)
        invariant exit == exitRequested && ExitExplained(before, aborted, code)
        invariant StopExplained(old(outsideStop), old(looks))
        decreases measure
      {
        var n;
        n, aborted, exit, done, w, partial, measure :=
          TakeTurnAndLook(s, start, currentWriteLength, done, w, partial, measure, before, sent0, flash0, first);
        start, currentWriteLength := start + n, currentWriteLength + n;
      }
      log := EndOfSection(aborted, s, start, currentWriteLength, done, w, partial, measure, sent0, flash0, first);
    }

    lemma NothingLogged(s: Section)
      requires Valid() && InsideFile(s, |mBinFileBuf|) && reSendTimes == 0
      ensures Standing(false, s, s.start, 0, [], false, [], 5 * Max(s.length) + 4, sent, flash, attempts)
    {
      assert Sent(mBinFileBuf, []) == [] && Flashed(flash, mBinFileBuf, []) == flash;
      assert sent + [] + [] == sent && Blocks([]) == [];
    }

    lemma EndOfSection(aborted: bool, s: Section, start: int, written: nat, done: seq<Entry>, w: bool,
                       partial: seq<byte>, measure: nat, sent0: seq<byte>, flash0: seq<byte>, first: nat)
      returns (log: seq<Entry>)
      requires Standing(aborted, s, start, written, done, w, partial, measure, sent0, flash0, first)
      ensures Ended(s, log, partial, sent0, flash0, first)
      ensures aborted ==> exitRequested && GaveUp(log, partial)
      ensures !aborted && written >= s.length ==>
                Blocks(log) == Split(s.start, s.length) && AllAcked(log) && partial == [] && reSendTimes == 0
    {
      hide Sent, Flashed, Told, Made, Emitted;
      log := done;
      if !aborted && reSendTimes > 0 {
        var left := Max(s.length) - written;
        var wait := Waiting(s, start, written, reSendTimes, w);
        PlanPrefix(done, wait[0], start, left, Split(s.start, s.length));
        log := done + wait;
      } else if !aborted {
        assert done + [] == done;
      }
    }

    /** Where the section loop stands: sections before i done, or asked to end. */
    ghost predicate SoFar(parts: seq<Section>, i: nat, log: seq<Entry>, partial: seq<byte>,
                          sent0: seq<byte>, flash0: seq<byte>, first: nat)
      reads this`flash, this`sent, this`reSendTimes, this`exitRequested, this`attempts
    {
      && i <= |parts| && Valid() && Disciplined(log) && Logged(sent0, flash0, first, log, partial)
      && Blocks(log) <= Plan(parts)
      && (partial == [] || GaveUp(log, partial))
      && (!exitRequested ==> Blocks(log) == Plan(parts[..i]) && AllAcked(log) && partial == [] && reSendTimes == 0)
    }

    /** How the section loop ended, or that it goes on: an outside stop, giving up with the error code set,
        or neither and the code unchanged. */
    ghost predicate Reported(log: seq<Entry>, partial: seq<byte>, code: int)
      reads this`exitRequested, this`outsideStop, this`retCode, this`attempts
    {
      if exitRequested
      then (outsideStop && retCode == code) || (GaveUp(log, partial) && retCode == ERR_SERIAL_CONNECT)
      else retCode == code
    }

    lemma JoinLogs(log: seq<Entry>, log': seq<Entry>, partial: seq<byte>, first: nat,
                   sent0: seq<byte>, flash0: seq<byte>, sent1: seq<byte>, flash1: seq<byte>)
      requires Valid() && InFile(log, |mBinFileBuf|) && |flash0| >= |mBinFileBuf| && |flash1| >= |mBinFileBuf|
      requires sent1 == sent0 + Sent(mBinFileBuf, log) && flash1 == Flashed(flash0, mBinFileBuf, log)
      requires Told(log, first) && Logged(sent1, flash1, first + Made(log), log', partial)
      ensures Logged(sent0, flash0, first, log + log', partial)
    {
      hide Sent, Flashed, Told, Made;
      ToldConcat(log, log', first);
      SentConcat(mBinFileBuf, log, log');
      FlashedConcat(flash0, mBinFileBuf, log, log');
      AppendAssoc(sent0, Sent(mBinFileBuf, log), Sent(mBinFileBuf, log'));
    }

    /** Giving up in a section is giving up in the transfer. */
    lemma JoinGaveUp(log: seq<Entry>, log': seq<Entry>, partial: seq<byte>)
      requires GaveUp(log', partial)
      ensures GaveUp(log + log', partial)
    {
      hide Emitted;
      assert (log + log')[|log + log'| - 1] == log'[|log'| - 1];
    }

    /** One section of the list, adjusted, and the look at the exit flag behind it. */
    method TransferNext(parts: seq<Section>, i: nat, ghost log: seq<Entry>, ghost partial: seq<byte>,
                        ghost sent0: seq<byte>, ghost flash0: seq<byte>, ghost first: nat, ghost code: int)
      returns (exit: bool, ghost log': seq<Entry>, ghost partial': seq<byte>)
      requires AllInside(parts, |mBinFileBuf|) && i < |parts| && !exitRequested && Reported(log, partial, code)
      requires SoFar(parts, i, log, partial, sent0, flash0, first)
      modifies this, mDataBuf
      ensures SoFar(parts, i + 1, log', partial', sent0, flash0, first)
      ensures exit == exitRequested && Reported(log', partial', code)
      ensures StopExplained(old(outsideStop), old(looks))
    {
      hide Sent, Flashed, Split, Plan, GaveUp, Told, Made;
      ghost var sent1, flash1 := sent, flash;
      assert sent1 + [] == sent1 && sent0 + Sent(mBinFileBuf, log) + [] == sent0 + Sent(mBinFileBuf, log);
      var s := parts[i];
      if 0x49030 == s.start {
        s := Section(0x49000, s.length + 0x30);
      }
      PlanNext(parts, i);
      log', partial' := TransferSection(s);
      JoinLogs(log, log', partial', first, sent0, flash0, sent1, flash1);
      if GaveUp(log', partial') {
        JoinGaveUp(log, log', partial');
      }
      assert Blocks(log + log') == Blocks(log) + Blocks(log');
      log' := log + log';
      exit := ExitPending();
    }

    /** The three ways a transfer ends: the log is complete, an outside stop came in, or it gave up, for one
        of the two reasons there are, and reports it; at most one torn transmission stands behind the log. */
    ghost predicate Finished(parts: seq<Section>, log: seq<Entry>, partial: seq<byte>, code: int)
      reads this`outsideStop, this`retCode, this`attempts
    {
      && Disciplined(log) && Blocks(log) <= Plan(parts)
      && (partial == [] || GaveUp(log, partial))
      && ((Complete(parts, log) && partial == [] && retCode == code)
          || (outsideStop && retCode == code)
          || (GaveUp(log, partial) && retCode == ERR_SERIAL_CONNECT))
    }

    /** The loop over the sections. */
    method TransferAll(partitionList: seq<Section>) returns (ghost log: seq<Entry>, ghost partial: seq<byte>)
      requires Valid() && AllInside(partitionList, |mBinFileBuf|)
      requires !exitRequested && reSendTimes == 0
      modifies this, mDataBuf
      ensures Valid() && Logged(old(sent), old(flash), old(attempts), log, partial)
      ensures Finished(partitionList, log, partial, old(retCode))
      ensures StopExplained(old(outsideStop), old(looks))
    {
      hide SoFar, Logged, Disciplined, Plan, AllInside, Complete, GaveUp, Finished, Reported, Valid;
      log, partial := [], [];
      ghost var sent0, flash0, first, code := sent, flash, attempts, retCode;
      var exit := ExitPending();
      NothingSent(partitionList);
      var itor := 0;
      while !exit && itor != |partitionList|
        invariant 0 <= itor <= |partitionList|
        invariant SoFar(partitionList, itor, log, partial, sent0, flash0, first)
        invariant exit == exitRequested && Reported(log, partial, code)
        invariant StopExplained(old(outsideStop), old(looks))
        decreases |partitionList| - itor
      {
        exit, log, partial := TransferNext(partitionList, itor, log, partial, sent0, flash0, first, code);
        itor := itor + 1;
      }
      AllSectionsDone(partitionList, itor, log, partial, sent0, flash0, first, code);
    }

    /** The whole transfer. Whatever line, device and outside do, it terminates; what was sent and what the
        flash holds are told by a disciplined log that follows the plan; it ends in one of three ways. A
        complete log means the flash holds the file, and a device that answers at least one of any four
        transmissions in a row gets a complete log unless the outside stops it. */
    method Transfer(partitionList: seq<Section>) returns (ghost log: seq<Entry>, ghost partial: seq<byte>)
      requires Valid() && AllInside(partitionList, |mBinFileBuf|)
      requires !exitRequested && reSendTimes == 0
      modifies this, mDataBuf
      ensures Valid() && Logged(old(sent), old(flash), old(attempts), log, partial)
      ensures Finished(partitionList, log, partial, old(retCode))
      ensures StopExplained(old(outsideStop), old(looks))
      ensures Harmless(old(flash), flash, mBinFileBuf, partitionList)
      ensures Complete(partitionList, log) ==>
                && EachAcknowledged(log, old(attempts))
                && Installed(old(flash), flash, mBinFileBuf, partitionList)
      ensures Responsive(old(attempts)) && NeverStopped() && !old(outsideStop) ==>
                && Complete(partitionList, log) && partial == [] && retCode == old(retCode)
                && Installed(old(flash), flash, mBinFileBuf, partitionList)
    {
      hide Logged, Disciplined, Plan, AllInside, Complete, Installed, Harmless, GaveUp, Responsive,
        EachAcknowledged, Told;
      ghost var sent0, flash0, first := sent, flash, attempts;
      log, partial := TransferAll(partitionList);
      AlwaysHarmless(partitionList, log, partial, first, sent0, flash0);
      if Complete(partitionList, log) {
        CompleteIsInstalled(partitionList, log, partial, first, sent0, flash0);
      }
      if Responsive(first) {
        LoggedIsTold(sent0, flash0, first, log, partial);
        ResponsiveNeverGivesUp(log, partial, first);
      }
    }

    /** From attempt k0 on, no send fails, and of any four attempts in a row the device answers at least one. */
    ghost predicate Responsive(k0: nat) {
      forall k: nat :: k0 <= k ==> AllSent(attempt(k))
                                   && exists j: nat :: k <= j < k + 4 && Acks(attempt(j))
    }

    lemma LoggedIsTold(sent0: seq<byte>, flash0: seq<byte>, first: nat, log: seq<Entry>, partial: seq<byte>)
      requires Logged(sent0, flash0, first, log, partial)
      ensures Told(log, first) && attempts == first + Made(log)
    {}

    lemma ResponsiveNeverGivesUp(log: seq<Entry>, partial: seq<byte>, first: nat)
      requires Responsive(first) && Told(log, first)
      ensures !GaveUp(log, partial)
    {
      hide Emitted, EntryInFile, Responsive, Tells, Made;
      if GaveUp(log, partial) {
        var n := |log| - 1;
        assert Tells(log[n], first + Made(log[..n]));
        AnsweredInTime(log[n], first, first + Made(log[..n]));
      }
    }

    lemma AnsweredInTime(e: Entry, first: nat, from: nat)
      requires Responsive(first) && first <= from && Tells(e, from) && !e.acked
      ensures !e.torn && e.tries < 4
    {
      hide AllSent, Acks;
      assert AllSent(attempt(from + e.tries));
      var j: nat :| from <= j < from + 4 && Acks(attempt(j));
      assert Acks(attempt(j));
    }

    /** Every block in the log was acknowledged, the i-th on the last of the attempts made at it. */
    ghost predicate EachAcknowledged(log: seq<Entry>, first: nat) {
      forall i :: 0 <= i < |log| ==> log[i].tries > 0 && Acks(attempt(first + Made(log[..i]) + log[i].tries - 1))
    }

    lemma AckedMeansAcknowledged(log: seq<Entry>, first: nat)
      requires Told(log, first) && AllAcked(log)
      ensures EachAcknowledged(log, first)
    {
      hide AllSent, Acks, Made;
      forall i | 0 <= i < |log|
        ensures log[i].tries > 0 && Acks(attempt(first + Made(log[..i]) + log[i].tries - 1))
      {
        assert Tells(log[i], first + Made(log[..i]));
        var j: nat := first + Made(log[..i]) + log[i].tries - 1;
        assert AllSent(attempt(j));
      }
    }

    /** What went over the line, torn transmissions included, is at most four transmissions of every block
        in the log. */
    lemma FourTimesAtMost(log: seq<Entry>, partial: seq<byte>, first: nat, sent0: seq<byte>, flash0: seq<byte>)
      requires Disciplined(log) && Logged(sent0, flash0, first, log, partial)
      requires partial == [] || GaveUp(log, partial)
      ensures |sent| <= |sent0| + 4 * OnceEach(mBinFileBuf, log)
    {
      hide Acks, Emitted, Packet, Sent, OnceEach, Repeat, Told, Tells, Made, Flashed;
      if partial == [] {
        SentLength(mBinFileBuf, log);
      } else {
        var n := |log| - 1;
        var e, b := log[n], log[n].block;
        SentLength(mBinFileBuf, log[..n]);
        assert log == log[..n] + [e];
        SentAppend(mBinFileBuf, log[..n], e);
        OnceEachAppend(mBinFileBuf, log[..n], e);
        RepeatLength(Packet(mBinFileBuf, b), e.tries);
        LastIsTorn(log[..n], e, first);
        TornIsPrefix(mBinFileBuf, b, attempt(attempts - 1));
        AtMostTimes(e.tries, 3, |Packet(mBinFileBuf, b)|);
      }
    }

    lemma LastIsTorn(front: seq<Entry>, e: Entry, first: nat)
      requires Told(front + [e], first) && e.torn
      ensures Made(front + [e]) > 0 && !AllSent(attempt(first + Made(front + [e]) - 1))
    {
      hide AllSent, Acks, Writes, Told, Made;
      ToldFront(front, e, first);
    }

    lemma CompleteIsInstalled(parts: seq<Section>, log: seq<Entry>, partial: seq<byte>, first: nat,
                              sent0: seq<byte>, flash0: seq<byte>)
      requires Disciplined(log) && Logged(sent0, flash0, first, log, partial) && Complete(parts, log)
      ensures EachAcknowledged(log, first) && Installed(flash0, flash, mBinFileBuf, parts)
    {
      assert AllAcked(log);
      AckedMeansAcknowledged(log, first);
      hide Complete, Disciplined, Flashed, Sent, Told, Made, AllAcked, EachAcknowledged;
      forall a | 0 <= a < |flash0|
        ensures if OnPlan(parts, a) then a < |mBinFileBuf| && flash[a] == mBinFileBuf[a] else flash[a] == flash0[a]
      {
        CompleteTransferInstallsFile(flash0, mBinFileBuf, parts, log, a);
      }
    }

    lemma AlwaysHarmless(parts: seq<Section>, log: seq<Entry>, partial: seq<byte>, first: nat,
                         sent0: seq<byte>, flash0: seq<byte>)
      requires Logged(sent0, flash0, first, log, partial) && Blocks(log) <= Plan(parts)
      ensures Harmless(flash0, flash, mBinFileBuf, parts)
    {
      hide Flashed, Sent, Told, Made, Plan, Blocks, OnPlan;
      forall a | 0 <= a < |flash0| && flash[a] != flash0[a]
        ensures a < |mBinFileBuf| && flash[a] == mBinFileBuf[a] && OnPlan(parts, a)
      {
        PartialTransferIsHarmless(flash0, mBinFileBuf, parts, log, a);
      }
    }

    lemma NothingSent(parts: seq<Section>)
      requires Valid() && reSendTimes == 0
      requires exitRequested ==> outsideStop
      ensures SoFar(parts, 0, [], [], sent, flash, attempts) && Reported([], [], retCode)
    {
      assert parts[..0] == [] && sent + [] + [] == sent && Blocks([]) == [];
      assert Sent(mBinFileBuf, []) == [] && Flashed(flash, mBinFileBuf, []) == flash;
    }

    lemma AllSectionsDone(parts: seq<Section>, i: nat, log: seq<Entry>, partial: seq<byte>,
                          sent0: seq<byte>, flash0: seq<byte>, first: nat, code: int)
      requires SoFar(parts, i, log, partial, sent0, flash0, first) && (exitRequested || i == |parts|)
      requires Reported(log, partial, code)
      ensures Valid() && Logged(sent0, flash0, first, log, partial)
      ensures Finished(parts, log, partial, code)
    {
      hide GaveUp;
      assert parts[..|parts|] == parts;
    }
  }
}
