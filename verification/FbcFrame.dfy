/** Frames on the serial link to the panel board, and what the receiver makes of a byte stream that
    arrives in arbitrary pieces. */
module FbcFrame {
  import opened Words
  import opened Crc32
  import opened SerialPort

  const LEADER: byte := 0x5A
  const BUFFER_SIZE: nat := 512

  // ---------------------------------------------------------------- encoder

  /** Everything of a frame but its checksum: leader, total length, acknowledge flag, payload. */
  function Body(ack: byte, payload: seq<byte>): seq<byte> {
    var total := |payload| + 9;
    [LEADER, LEADER, Low(total), Low(Up(total)), ack] + payload
  }

  function Frame(ack: byte, payload: seq<byte>): (f: seq<byte>)
    ensures |f| == |payload| + 9
  {
    Body(ack, payload) + Le32(Crc(0, Body(ack, payload)))
  }

  // ---------------------------------------------------------------- decoder

  /** Silent: the line went quiet before a frame was complete, and the reader keeps waiting.
      Overrun: the announced length does not fit the 512-byte buffer or is below 4, where the
      program's behaviour is undefined. */
  datatype Outcome = Silent | Overrun | Rejected | Accepted(data: seq<byte>, len: nat)

  /** How many bytes of a frame of n are copied out. */
  function Kept(n: nat): (k: nat)
    ensures k <= n && k < BUFFER_SIZE
    ensures n < BUFFER_SIZE ==> k == n
  {
    n % BUFFER_SIZE
  }

  /** The verdict on a frame of |f| bytes held in the receive buffer; `data` is what is copied out. */
  function Check(f: seq<byte>): (o: Outcome)
    requires 4 <= |f| <= BUFFER_SIZE
    ensures o.Accepted? || o.Rejected?
  {
    var n := |f| - 4;
    var crc := if n > 0 then Crc(0, f[..n]) else 0;
    if crc == FromLe32(f[n..]) then Accepted(f[..Kept(|f|)], |f|) else Rejected
  }

  datatype Line = Line(wire: seq<byte>, polls: Schedule)

  datatype Option<T> = None | Some(value: T)

  /** A one-byte read into a buffer slot, which keeps its old value when the read times out. */
  function ReadByte(slot: byte, line: Line): (r: (byte, Line))
    ensures |r.1.wire| <= |line.wire|
    ensures if line.polls == [] then r.1 == line else |r.1.polls| < |line.polls|
  {
    var n := ComRead(|line.wire|, line.polls, 1);
    if n.0 == 1 then (line.wire[0], Line(line.wire[1..], n.1)) else (slot, Line(line.wire, n.1))
  }

  /** Hunts for two leader bytes; t0 and t1 are the buffer's first two bytes. None: the hunt never
      ends. */
  function LeaderScan(t0: byte, t1: byte, line: Line): (r: Option<Line>)
    ensures r.Some? ==> |r.value.wire| <= |line.wire|
    decreases |line.polls|
  {
    if line.polls == [] then None
    else
      var (t0', line') := ReadByte(t0, line);
      if t0' != LEADER then LeaderScan(t0', t1, line')
      else
        var (t1', line'') := ReadByte(t1, line');
        if t1' == LEADER then Some(line'') else LeaderScan(t0', t1', line'')
  }

  /** Reads again and again until `need` bytes are there; None: they never are. */
  function Gather(avail: nat, polls: Schedule, need: nat): (r: Option<Schedule>)
    ensures r.Some? ==> need <= avail
    decreases |polls|
  {
    if polls == [] && need != 0 then None
    else
      var read := ComRead(avail, polls, need);
      if read.0 == need then Some(read.1) else Gather(avail - read.0, read.1, need - read.0)
  }

  lemma GatherStep(avail: nat, polls: Schedule, need: nat)
    requires polls != [] || need == 0
    ensures var read := ComRead(avail, polls, need);
            Gather(avail, polls, need)
            == if read.0 == need then Some(read.1) else Gather(avail - read.0, read.1, need - read.0)
  {}

  lemma GatherNothing(avail: nat, need: nat)
    requires need != 0
    ensures Gather(avail, [], need) == None
  {}

  /** Length and rest of a frame whose two leader bytes have been seen. */
  function ReceiveRest(line: Line): (Outcome, Line) {
    match Gather(|line.wire|, line.polls, 2)
    case None => (Silent, line)
    case Some(polls) =>
      var cmdLen := Le16(line.wire[0], line.wire[1]);
      if cmdLen < 4 || cmdLen > BUFFER_SIZE then (Overrun, Line(line.wire[2..], polls))
      else
        match Gather(|line.wire| - 2, polls, cmdLen - 4)
        case None => (Silent, line)
        case Some(polls') =>
          (Check([LEADER, LEADER] + line.wire[..cmdLen - 2]), Line(line.wire[cmdLen - 2..], polls'))
  }

  /** One call of the receiver on a fresh buffer. */
  function Receive(line: Line): (Outcome, Line) {
    match LeaderScan(0, 0, line)
    case None => (Silent, line)
    case Some(rest) => ReceiveRest(rest)
  }

  // ---------------------------------------------------------------- noise before the leader

  /** The pairwise hunt reads through `noise` to its end without taking any of it for a leader. */
  predicate Consumed(noise: seq<byte>) {
    if noise == [] then true
    else if noise[0] != LEADER then Consumed(noise[1..])
    else |noise| >= 2 && noise[1] != LEADER && Consumed(noise[2..])
  }

  /** The first n polls each find a byte. */
  predicate Prompt(polls: Schedule, n: nat) {
    n <= |polls| && forall i :: 0 <= i < n ==> polls[i] >= 1
  }

  /** The hunt stops right behind noise and leader exactly when the noise is consumed; otherwise it
      has already stopped earlier. */
  lemma {:induction false} ScanBehindNoise(t0: byte, t1: byte, noise: seq<byte>, rest: seq<byte>, polls: Schedule)
    requires Prompt(polls, |noise| + 2)
    ensures var r := LeaderScan(t0, t1, Line(noise + [LEADER, LEADER] + rest, polls));
            && r.Some?
            && (Consumed(noise) ==> r.value == Line(rest, polls[|noise| + 2..]))
            && (!Consumed(noise) ==> |r.value.wire| > |rest|)
    decreases |noise|
  {
    var wire := noise + [LEADER, LEADER] + rest;
    assert ReadByte(t0, Line(wire, polls)) == (wire[0], Line(wire[1..], polls[1..]));
    assert ReadByte(t1, Line(wire[1..], polls[1..])) == (wire[1], Line(wire[2..], polls[2..]));
    if noise == [] {
      assert wire[2..] == rest;
    } else if noise[0] != LEADER {
      assert wire[1..] == noise[1..] + [LEADER, LEADER] + rest;
      assert polls[1..][|noise| + 1..] == polls[|noise| + 2..];
      ScanBehindNoise(wire[0], t1, noise[1..], rest, polls[1..]);
    } else if |noise| >= 2 && noise[1] != LEADER {
      assert wire[2..] == noise[2..] + [LEADER, LEADER] + rest;
      assert polls[2..][|noise|..] == polls[|noise| + 2..];
      ScanBehindNoise(wire[0], wire[1], noise[2..], rest, polls[2..]);
    } else {
      assert wire[1] == LEADER;
    }
  }

  // ---------------------------------------------------------------- arbitrary chunking

  function Positives(polls: Schedule): nat {
    if polls == [] then 0 else (if polls[0] > 0 then 1 else 0) + Positives(polls[1..])
  }

  /** A read uses up at most one successful poll for each byte it collects. */
  lemma {:induction false} ReadCost(avail: nat, polls: Schedule, need: nat)
    requires 0 < need <= avail
    ensures var r := ComRead(avail, polls, need);
            Positives(polls) <= r.0 + Positives(r.1)
    decreases |polls|
  {
    if polls != [] && polls[0] != 0 {
      var z := Min(polls[0], Min(need, avail));
      if z != need {
        ReadCost(avail - z, polls[1..], need - z);
      }
    }
  }

  /** However the bytes are cut into pieces, enough successful polls bring them all. */
  lemma {:induction false} GatherSucceeds(avail: nat, polls: Schedule, need: nat)
    requires need <= avail && need <= Positives(polls)
    ensures var r := Gather(avail, polls, need);
            r.Some? && (need > 0 ==> Positives(polls) <= need + Positives(r.value))
    decreases |polls|
  {
    var r := ComRead(avail, polls, need);
    if need > 0 {
      ReadCost(avail, polls, need);
    }
    if r.0 != need {
      GatherSucceeds(avail - r.0, r.1, need - r.0);
    }
  }

  // ---------------------------------------------------------------- round trip and error detection

  /** Any byte string shaped like a frame: leader, its own length, at least leader, length and checksum. */
  predicate WellShaped(f: seq<byte>) {
    4 <= |f| <= BUFFER_SIZE && f[0] == LEADER && f[1] == LEADER && Le16(f[2], f[3]) == |f|
  }

  /** A frame byte by byte: two leader bytes, the length of all in two bytes and the low one first, the flag,
      the payload, and the checksum of all before it in four bytes and the lowest first. */
  lemma FrameLayout(ack: byte, payload: seq<byte>)
    requires |payload| + 9 <= BUFFER_SIZE
    ensures var f, n := Frame(ack, payload), |payload| + 5;
            && |f| == n + 4 && f[0] == f[1] == 0x5A
            && f[2] as int + 256 * f[3] as int == |f|
            && f[4] == ack && f[5..n] == payload
            && f[n] as int + 0x100 * f[n + 1] as int + 0x1_0000 * f[n + 2] as int + 0x100_0000 * f[n + 3] as int
               == Crc(0, f[..n])
  {
    hide Crc, Le32, Le16, FromLe32;
    FrameParts(ack, payload);
    var f, n := Frame(ack, payload), |payload| + 5;
    var b := f[..n];
    assert b == Body(ack, payload);
    assert f[0] == b[0] && f[1] == b[1] && f[2] == b[2] && f[3] == b[3] && f[4] == b[4] && f[5..n] == b[5..];
    Le32RoundTrip(Crc(0, b));
    FourBytesOf(f[n..]);
  }

  lemma FourBytesOf(s: seq<byte>)
    requires |s| == 4
    ensures FromLe32(s) == s[0] as int + 0x100 * s[1] as int + 0x1_0000 * s[2] as int + 0x100_0000 * s[3] as int
  {}

  lemma FrameParts(ack: byte, payload: seq<byte>)
    ensures var f, n := Frame(ack, payload), |payload| + 5;
            && f[..n] == Body(ack, payload) && f[n..] == Le32(Crc(0, f[..n]))
            && f[..2] == [LEADER, LEADER] && (n + 4 <= BUFFER_SIZE ==> Le16(f[2], f[3]) == n + 4)
  {
    hide Crc, Le32, Le16;
    if |payload| + 9 <= BUFFER_SIZE {
      Le16RoundTrip(|payload| + 9);
    }
  }

  lemma RestWellShaped(f: seq<byte>, tail: seq<byte>, polls: Schedule)
    requires WellShaped(f)
    ensures var r := ReceiveRest(Line(f[2..] + tail, polls));
            && (r.0 == Silent || (r.0 == Check(f) && r.1.wire == tail))
            && (Positives(polls) >= |f| - 2 ==> r.0 != Silent)
  {
    hide Check, ComRead, Gather;
    var wire := f[2..] + tail;
    assert [LEADER, LEADER] + wire[..|f| - 2] == f && wire[|f| - 2..] == tail;
    assert wire[0] == f[2] && wire[1] == f[3];
    if Positives(polls) >= |f| - 2 {
      GatherSucceeds(|wire|, polls, 2);
      GatherSucceeds(|wire| - 2, Gather(|wire|, polls, 2).value, |f| - 4);
    }
  }

  /** Behind consumed noise, a well-shaped byte string is judged as a whole whatever the chunking: the
      outcome is that of Check, or the line goes silent for lack of polls. */
  lemma ReceiveWellShaped(noise: seq<byte>, f: seq<byte>, tail: seq<byte>, polls: Schedule)
    requires WellShaped(f)
    requires Consumed(noise) && Prompt(polls, |noise| + 2)
    ensures var r := Receive(Line(noise + f + tail, polls));
            && (r.0 == Silent || (r.0 == Check(f) && r.1.wire == tail))
            && (Positives(polls[|noise| + 2..]) >= |f| - 2 ==> r.0 != Silent)
  {
    hide Check, LeaderScan, ReceiveRest, Consumed, Positives;
    var rest := f[2..] + tail;
    assert f == [LEADER, LEADER] + f[2..];
    assert noise + f + tail == noise + [LEADER, LEADER] + rest;
    ScanBehindNoise(0, 0, noise, rest, polls);
    RestWellShaped(f, tail, polls[|noise| + 2..]);
  }

  lemma CheckFrame(ack: byte, payload: seq<byte>)
    requires |payload| + 9 <= BUFFER_SIZE
    ensures WellShaped(Frame(ack, payload))
    ensures Check(Frame(ack, payload)) == Accepted(Frame(ack, payload)[..Kept(|payload| + 9)], |payload| + 9)
  {
    hide Crc, Le32, FromLe32, Frame;
    FrameParts(ack, payload);
    Le32RoundTrip(Crc(0, Body(ack, payload)));
  }

  /** The round trip: what the encoder built comes out, independent of chunking and of what follows on
      the line, and it comes out whole exactly when the frame is shorter than the buffer. */
  lemma RoundTrip(noise: seq<byte>, ack: byte, payload: seq<byte>, tail: seq<byte>, polls: Schedule)
    requires |payload| + 9 <= BUFFER_SIZE
    requires Consumed(noise) && Prompt(polls, |noise| + 2)
    requires Positives(polls[|noise| + 2..]) >= |payload| + 7
    ensures var f := Frame(ack, payload);
            var r := Receive(Line(noise + f + tail, polls));
            && r.1.wire == tail
            && r.0.Accepted? && r.0.len == |f|
            && (r.0.data == f <==> |payload| + 9 < BUFFER_SIZE)
            && (|payload| + 9 == BUFFER_SIZE ==> r.0.data == [])
  {
    hide Check, Crc, Frame, Receive, Consumed, Positives, WellShaped;
    var f := Frame(ack, payload);
    CheckFrame(ack, payload);
    ReceiveWellShaped(noise, f, tail, polls);
    if |f| < BUFFER_SIZE {
      assert f[..Kept(|f|)] == f;
    }
  }

  /** A frame whose flag and payload bytes are altered only within four consecutive bytes, leader, length
      and checksum intact, is never accepted. */
  lemma BurstRejected(noise: seq<byte>, ack: byte, payload: seq<byte>, f': seq<byte>, k: nat,
                      tail: seq<byte>, polls: Schedule)
    requires |payload| + 9 <= BUFFER_SIZE
    requires var f := Frame(ack, payload);
             && |f'| == |f| && f' != f
             && forall i :: 0 <= i < |f| && !(k <= i < k + 4 && 4 <= i < |f| - 4) ==> f'[i] == f[i]
    requires Consumed(noise) && Prompt(polls, |noise| + 2)
    requires Positives(polls[|noise| + 2..]) >= |payload| + 7
    ensures Receive(Line(noise + f' + tail, polls)).0 == Rejected
  {
    hide Check, Crc, Frame, Receive, Consumed, Positives;
    var f := Frame(ack, payload);
    CheckFrame(ack, payload);
    AlteredFrameRejected(f, f', k);
    ReceiveWellShaped(noise, f', tail, polls);
  }

  lemma AlteredFrameRejected(f: seq<byte>, f': seq<byte>, k: nat)
    requires 8 < |f| <= BUFFER_SIZE && Check(f).Accepted?
    requires |f'| == |f| && f' != f
    requires forall i :: 0 <= i < |f| && !(k <= i < k + 4 && 4 <= i < |f| - 4) ==> f'[i] == f[i]
    ensures Check(f') == Rejected
  {
    hide Crc, FromLe32;
    var n := |f| - 4;
    assert f == f[..n] + f[n..] && f' == f'[..n] + f'[n..];
    assert f[n..] == f'[n..];
    FourByteBurstDetected(0, f[..n], f'[..n], k);
  }

  /** A frame whose checksum bytes alone are altered is never accepted. */
  lemma AlteredChecksumRejected(f: seq<byte>, f': seq<byte>)
    requires 4 <= |f| <= BUFFER_SIZE && Check(f).Accepted?
    requires |f'| == |f| && f' != f && f'[..|f| - 4] == f[..|f| - 4]
    ensures Check(f') == Rejected
  {
    hide Crc;
    var n := |f| - 4;
    assert f == f[..n] + f[n..] && f' == f'[..n] + f'[n..];
    SameNumberSameBytes(f[n..], f'[n..]);
  }

  lemma SameNumberSameBytes(s: seq<byte>, t: seq<byte>)
    requires |s| == |t| == 4
    ensures FromLe32(s) == FromLe32(t) ==> s == t
  {
    if FromLe32(s) == FromLe32(t) {
      var a0: nat, a1: nat, a2: nat, a3: nat := s[0], s[1], s[2], s[3];
      var b0: nat, b1: nat, b2: nat, b3: nat := t[0], t[1], t[2], t[3];
      SameLowByte(a0, b0, a1 + 0x100 * (a2 + 0x100 * a3), b1 + 0x100 * (b2 + 0x100 * b3));
      SameLowByte(a1, b1, a2 + 0x100 * a3, b2 + 0x100 * b3);
      SameLowByte(a2, b2, a3, b3);
      assert s == [s[0], s[1], s[2], s[3]] && t == [t[0], t[1], t[2], t[3]];
    }
  }

  lemma SameLowByte(a: nat, b: nat, x: nat, y: nat)
    requires a < 0x100 && b < 0x100 && a + 0x100 * x == b + 0x100 * y
    ensures a == b && x == y
  {}
}
