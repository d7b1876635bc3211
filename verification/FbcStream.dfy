/** Lines with more on them than one frame: frames sent back to back, and reads that time out in the middle
    of the hunt for a leader. */
module FbcStream {
  import opened Words
  import opened Crc32
  import opened SerialPort
  import opened FbcFrame

  // ---------------------------------------------------------------- the hunt, read by read

  /** Where the hunt stands between two reads. Fresh: about to read a first leader byte. Second: about to
      read the second one. Stale: about to read a first one while the slot still holds the last one. */
  datatype Phase = Fresh | Second | Stale

  /** What one read, None if it times out, makes of it; None: the leader is complete. */
  function Step(ph: Phase, r: Option<byte>): Option<Phase> {
    match ph
    case Fresh => Some(if r == Some(LEADER) then Second else Fresh)
    case Second => if r == Some(LEADER) then None else Some(Stale)
    case Stale => Some(if r == None || r == Some(LEADER) then Second else Fresh)
  }

  function ReadOne(line: Line): (Option<byte>, Line)
    requires line.polls != []
  {
    if line.polls[0] > 0 && line.wire != [] then (Some(line.wire[0]), Line(line.wire[1..], line.polls[1..]))
    else (None, Line(line.wire, line.polls[1..]))
  }

  function Hunt(ph: Phase, line: Line): Option<Line>
    decreases |line.polls|
  {
    if line.polls == [] then None
    else
      var (r, rest) := ReadOne(line);
      match Step(ph, r)
      case None => Some(rest)
      case Some(ph') => Hunt(ph', rest)
  }

  lemma ByteIsOne(slot: byte, line: Line)
    requires line.polls != []
    ensures var (r, rest) := ReadOne(line);
            ReadByte(slot, line) == (match r case None => slot case Some(b) => b, rest)
  {}

  /** The loop with its two slots is this hunt: all it remembers is whether the first slot holds a leader
      byte, read just now or long ago. */
  lemma {:induction false} ScanIsHunt(t0: byte, t1: byte, line: Line)
    requires t1 != LEADER
    ensures LeaderScan(t0, t1, line) == Hunt(if t0 == LEADER then Stale else Fresh, line)
    decreases |line.polls|
  {
    if line.polls != [] {
      var (t0', line') := ReadByte(t0, line);
      ByteIsOne(t0, line);
      if t0' != LEADER {
        ScanIsHunt(t0', t1, line');
      } else {
        var (t1', line'') := ReadByte(t1, line');
        if line'.polls != [] {
          ByteIsOne(t1, line');
        }
        if t1' != LEADER {
          ScanIsHunt(t0', t1', line'');
        }
      }
    }
  }

  lemma {:induction false} HuntUsesPolls(ph: Phase, line: Line)
    ensures var r := Hunt(ph, line); r.Some? ==> |r.value.polls| < |line.polls|
    decreases |line.polls|
  {
    if line.polls != [] {
      var (r, rest) := ReadOne(line);
      var next := Step(ph, r);
      if next.Some? {
        HuntUsesPolls(next.value, rest);
      }
    }
  }

  /** The phase behind noise that is read with the polls `pre`, time-outs among them; None: some of it was
      taken for a leader. */
  function Through(ph: Phase, noise: seq<byte>, pre: Schedule): Option<Phase>
    requires Positives(pre) == |noise|
    decreases |pre|
  {
    if pre == [] then Some(ph)
    else if pre[0] == 0 then
      match Step(ph, None)
      case None => None
      case Some(ph') => Through(ph', noise, pre[1..])
    else
      match Step(ph, Some(noise[0]))
      case None => None
      case Some(ph') => Through(ph', noise[1..], pre[1..])
  }

  lemma {:induction false} HuntThrough(ph: Phase, noise: seq<byte>, pre: Schedule, wire: seq<byte>, more: Schedule)
    requires Positives(pre) == |noise|
    ensures var r := Hunt(ph, Line(noise + wire, pre + more));
            match Through(ph, noise, pre)
            case Some(ph') => r == Hunt(ph', Line(wire, more))
            case None => r.Some? && |r.value.polls| >= |more|
    decreases |pre|
  {
    if pre == [] {
      assert noise + wire == wire && pre + more == more;
    } else {
      assert (pre + more)[0] == pre[0] && (pre + more)[1..] == pre[1..] + more;
      if pre[0] == 0 {
        HuntThrough(Step(ph, None).value, noise, pre[1..], wire, more);
      } else {
        assert (noise + wire)[0] == noise[0] && (noise + wire)[1..] == noise[1..] + wire;
        var next := Step(ph, Some(noise[0]));
        if next.Some? {
          HuntThrough(next.value, noise[1..], pre[1..], wire, more);
        }
      }
    }
  }

  predicate AllTimeOuts(gap: Schedule) {
    forall i :: 0 <= i < |gap| ==> gap[i] == 0
  }

  /** Time-outs behind a first leader byte: an even number of them undoes itself. */
  lemma {:induction false} HuntGap(gap: Schedule, wire: seq<byte>, more: Schedule)
    requires AllTimeOuts(gap)
    ensures Hunt(Second, Line(wire, gap + more)) == Hunt(if |gap| % 2 == 0 then Second else Stale, Line(wire, more))
    ensures Hunt(Stale, Line(wire, gap + more)) == Hunt(if |gap| % 2 == 0 then Stale else Second, Line(wire, more))
    decreases |gap|
  {
    if gap == [] {
      assert gap + more == more;
    } else {
      assert (gap + more)[0] == 0 && (gap + more)[1..] == gap[1..] + more;
      HuntGap(gap[1..], wire, more);
    }
  }

  /** A leader behind noise, in the reads that find it: the noise's, one for each leader byte, and time-outs
      between the two. */
  function LeaderPolls(pre: Schedule, p: nat, gap: Schedule, q: nat, more: Schedule): Schedule {
    pre + ([p] + (gap + ([q] + more)))
  }

  /** The noise leaves the hunt ready for a leader, and an even number of reads times out inside it. */
  predicate Findable(noise: seq<byte>, pre: Schedule, gap: Schedule)
    requires Positives(pre) == |noise|
  {
    var ph := Through(Fresh, noise, pre);
    ph.Some? && ph.value != Second && |gap| % 2 == 0
  }

  /** With reads that time out anywhere, before the leader and inside it, the hunt stops right behind the
      leader if and only if the noise was read through without a half leader left over and an even number of
      reads timed out between the two leader bytes. */
  lemma LeaderFoundIff(noise: seq<byte>, rest: seq<byte>, pre: Schedule, p: nat, gap: Schedule, q: nat, more: Schedule)
    requires Positives(pre) == |noise| && p > 0 && q > 0 && AllTimeOuts(gap)
    ensures LeaderScan(0, 0, Line(noise + ([LEADER, LEADER] + rest), LeaderPolls(pre, p, gap, q, more)))
            == Some(Line(rest, more))
            <==> Findable(noise, pre, gap)
  {
    hide LeaderScan, Hunt, Through, Positives;
    var wire, polls := [LEADER, LEADER] + rest, [p] + (gap + ([q] + more));
    ScanIsHunt(0, 0, Line(noise + wire, pre + polls));
    HuntThrough(Fresh, noise, pre, wire, polls);
    var ph := Through(Fresh, noise, pre);
    if ph.Some? {
      FirstByte(ph.value, rest, p, gap + ([q] + more));
      HuntGap(gap, [LEADER] + rest, [q] + more);
      SecondByte(rest, q, more);
    }
  }

  lemma FirstByte(ph: Phase, rest: seq<byte>, p: nat, more: Schedule)
    requires p > 0
    ensures Hunt(ph, Line([LEADER, LEADER] + rest, [p] + more)) ==
            if ph == Second then Some(Line([LEADER] + rest, more)) else Hunt(Second, Line([LEADER] + rest, more))
  {
    var line := Line([LEADER, LEADER] + rest, [p] + more);
    assert line.wire[1..] == [LEADER] + rest && line.polls[1..] == more;
  }

  lemma SecondByte(rest: seq<byte>, q: nat, more: Schedule)
    requires q > 0
    ensures Hunt(Second, Line([LEADER] + rest, [q] + more)) == Some(Line(rest, more))
    ensures Hunt(Stale, Line([LEADER] + rest, [q] + more)) == Hunt(Second, Line(rest, more))
    ensures Hunt(Stale, Line([LEADER] + rest, [q] + more)) != Some(Line(rest, more))
  {
    var line := Line([LEADER] + rest, [q] + more);
    assert line.wire[1..] == rest && line.polls[1..] == more;
    HuntUsesPolls(Second, Line(rest, more));
  }

  /** Time-outs ahead of everything change nothing. */
  lemma {:induction false} TimeOutsAhead(pre: Schedule)
    requires AllTimeOuts(pre)
    ensures Positives(pre) == 0 && Through(Fresh, [], pre) == Some(Fresh)
    decreases |pre|
  {
    if pre != [] {
      TimeOutsAhead(pre[1..]);
    }
  }

  /** Without time-outs the noise that leaves the hunt ready is the noise read through in pairs. */
  lemma {:induction false} ReadyIffConsumed(ph: Phase, noise: seq<byte>, pre: Schedule)
    requires ph != Second && |pre| == |noise| && Prompt(pre, |pre|)
    ensures Positives(pre) == |noise|
    ensures var r := Through(ph, noise, pre); Consumed(noise) <==> r.Some? && r.value != Second
    decreases |pre|
  {
    if pre != [] {
      if noise[0] != LEADER {
        ReadyIffConsumed(Fresh, noise[1..], pre[1..]);
      } else if |noise| >= 2 {
        assert pre[1..][1..] == pre[2..] && noise[1..][1..] == noise[2..];
        ReadyIffConsumed(Stale, noise[2..], pre[2..]);
      } else {
        assert pre[1..] == [] && noise[1..] == [];
      }
    }
  }

  lemma LineOfFrame(noise: seq<byte>, f: seq<byte>, tail: seq<byte>)
    requires WellShaped(f)
    ensures noise + f + tail == noise + ([LEADER, LEADER] + (f[2..] + tail))
  {
    assert f == [LEADER, LEADER] + f[2..];
  }

  /** A well-shaped byte string is judged as a whole behind any findable leader, time-outs or not. */
  lemma ReceiveTimed(noise: seq<byte>, f: seq<byte>, tail: seq<byte>,
                     pre: Schedule, p: nat, gap: Schedule, q: nat, more: Schedule)
    requires WellShaped(f)
    requires Positives(pre) == |noise| && p > 0 && q > 0 && AllTimeOuts(gap) && Findable(noise, pre, gap)
    ensures var r := Receive(Line(noise + f + tail, LeaderPolls(pre, p, gap, q, more)));
            && (r.0 == Silent || (r.0 == Check(f) && r.1.wire == tail))
            && (Positives(more) >= |f| - 2 ==> r.0 != Silent)
  {
    hide Check, LeaderScan, ReceiveRest, Positives, Through, Findable, LeaderPolls;
    LineOfFrame(noise, f, tail);
    LeaderFoundIff(noise, f[2..] + tail, pre, p, gap, q, more);
    RestWellShaped(f, tail, more);
  }

  /** The round trip with time-outs before the leader and inside it. */
  lemma RoundTripTimed(noise: seq<byte>, ack: byte, payload: seq<byte>, tail: seq<byte>,
                       pre: Schedule, p: nat, gap: Schedule, q: nat, more: Schedule)
    requires |payload| + 9 <= BUFFER_SIZE && Positives(more) >= |payload| + 7
    requires Positives(pre) == |noise| && p > 0 && q > 0 && AllTimeOuts(gap) && Findable(noise, pre, gap)
    ensures var f := Frame(ack, payload);
            var r := Receive(Line(noise + f + tail, LeaderPolls(pre, p, gap, q, more)));
            r.0 == Accepted(f[..Kept(|f|)], |f|) && r.1.wire == tail
  {
    hide Check, Crc, Frame, Receive, Positives, Through, Findable, LeaderPolls, WellShaped;
    CheckFrame(ack, payload);
    ReceiveTimed(noise, Frame(ack, payload), tail, pre, p, gap, q, more);
  }

  /** An odd number of time-outs between the leader bytes, and no third leader byte on the line: the frame
      is never seen. */
  lemma OddGapLosesFrame(rest: seq<byte>, p: nat, gap: Schedule, q: nat, more: Schedule)
    requires p > 0 && q > 0 && AllTimeOuts(gap) && |gap| % 2 == 1 && LEADER !in rest
    ensures Receive(Line([LEADER, LEADER] + rest, [p] + (gap + ([q] + more)))).0 == Silent
  {
    hide LeaderScan, Hunt;
    ScanIsHunt(0, 0, Line([LEADER, LEADER] + rest, [p] + (gap + ([q] + more))));
    FirstByte(Fresh, rest, p, gap + ([q] + more));
    HuntGap(gap, [LEADER] + rest, [q] + more);
    SecondByte(rest, q, more);
    NeverFound(Second, rest, more);
  }

  lemma {:induction false} NeverFound(ph: Phase, wire: seq<byte>, polls: Schedule)
    requires LEADER !in wire
    ensures Hunt(ph, Line(wire, polls)) == None
    decreases |polls|
  {
    if polls != [] {
      var (r, rest) := ReadOne(Line(wire, polls));
      NeverFound(Step(ph, r).value, rest.wire, rest.polls);
    }
  }

  // ---------------------------------------------------------------- frames back to back

  function Joined(fs: seq<seq<byte>>): seq<byte> {
    if fs == [] then [] else fs[0] + Joined(fs[1..])
  }

  /** Up to n calls of the receiver one after the other, as long as each comes to an end. */
  function Listen(n: nat, line: Line): (seq<Outcome>, Line) {
    if n == 0 then ([], line)
    else
      var (o, line') := Receive(line);
      if o.Silent? || o.Overrun? then ([o], line')
      else
        var (os, line'') := Listen(n - 1, line');
        ([o] + os, line'')
  }

  predicate IsSuffix(p: Schedule, of: Schedule) {
    |p| <= |of| && p == of[|of| - |p|..]
  }

  lemma SuffixOfSuffix(p: Schedule, q: Schedule, r: Schedule)
    requires IsSuffix(p, q) && IsSuffix(q, r)
    ensures IsSuffix(p, r)
  {
    assert r[|r| - |q|..][|q| - |p|..] == r[|r| - |p|..];
  }

  lemma {:induction false} ReadLeavesSuffix(avail: nat, polls: Schedule, need: nat)
    ensures IsSuffix(ComRead(avail, polls, need).1, polls)
    decreases |polls|
  {
    if polls != [] {
      var z := Min(polls[0], Min(need, avail));
      assert IsSuffix(polls[1..], polls);
      if z != 0 && z != need {
        ReadLeavesSuffix(avail - z, polls[1..], need - z);
        SuffixOfSuffix(ComRead(avail - z, polls[1..], need - z).1, polls[1..], polls);
      }
    }
  }

  lemma {:induction false} GatherLeavesSuffix(avail: nat, polls: Schedule, need: nat)
    ensures var r := Gather(avail, polls, need); r.Some? ==> IsSuffix(r.value, polls)
    decreases |polls|
  {
    if polls != [] || need == 0 {
      var read := ComRead(avail, polls, need);
      ReadLeavesSuffix(avail, polls, need);
      if read.0 != need {
        GatherLeavesSuffix(avail - read.0, read.1, need - read.0);
        var r := Gather(avail - read.0, read.1, need - read.0);
        if r.Some? {
          SuffixOfSuffix(r.value, read.1, polls);
        }
      }
    }
  }

  /** Every poll finds something. */
  predicate AllFind(polls: Schedule) { Prompt(polls, |polls|) }

  lemma {:induction false} ReadyPositives(polls: Schedule)
    requires AllFind(polls)
    ensures Positives(polls) == |polls|
    decreases |polls|
  {
    if polls != [] {
      ReadyPositives(polls[1..]);
    }
  }

  /** n bytes cost at most n polls, and those left over find something too. */
  lemma GatherReady(avail: nat, polls: Schedule, need: nat)
    requires AllFind(polls) && 0 < need <= avail && need <= |polls|
    ensures var r := Gather(avail, polls, need);
            r.Some? && AllFind(r.value) && |r.value| >= |polls| - need
  {
    hide Gather, Positives;
    ReadyPositives(polls);
    GatherSucceeds(avail, polls, need);
    GatherLeavesSuffix(avail, polls, need);
    var r := Gather(avail, polls, need).value;
    assert forall i :: 0 <= i < |r| ==> r[i] == polls[|polls| - |r| + i];
    ReadyPositives(r);
  }

  /** One frame at the front of the line, polls that find something: it is judged, and what is behind it is
      untouched. */
  lemma ReceiveReady(f: seq<byte>, tail: seq<byte>, polls: Schedule)
    requires WellShaped(f) && |f| > 4 && AllFind(polls) && |polls| >= |f|
    ensures var (o, line) := Receive(Line(f + tail, polls));
            && o == Check(f) && line.wire == tail && AllFind(line.polls) && |line.polls| >= |polls| - |f|
  {
    hide Check, LeaderScan, Gather;
    var rest, left := f[2..] + tail, polls[2..];
    assert [] + [LEADER, LEADER] + rest == f + tail;
    ScanBehindNoise(0, 0, [], rest, polls);
    GatherReady(|rest|, left, 2);
    GatherReady(|rest| - 2, Gather(|rest|, left, 2).value, |f| - 4);
    assert [LEADER, LEADER] + rest[..|f| - 2] == f && rest[|f| - 2..] == tail;
    assert rest[0] == f[2] && rest[1] == f[3];
  }

  /** What becomes of frames sent back to back. */
  function Verdicts(fs: seq<seq<byte>>): (os: seq<Outcome>)
    requires forall i :: 0 <= i < |fs| ==> 4 <= |fs[i]| <= BUFFER_SIZE
    ensures |os| == |fs|
  {
    seq(|fs|, i requires 0 <= i < |fs| => Check(fs[i]))
  }

  /** Well-shaped byte strings sent back to back are judged one by one and in order, and nothing else is
      taken off the line. */
  lemma {:induction false} FramesInOrder(fs: seq<seq<byte>>, tail: seq<byte>, polls: Schedule)
    requires forall i :: 0 <= i < |fs| ==> 4 < |fs[i]| <= BUFFER_SIZE && WellShaped(fs[i])
    requires AllFind(polls) && |polls| >= |Joined(fs)|
    ensures var (os, line) := Listen(|fs|, Line(Joined(fs) + tail, polls));
            os == Verdicts(fs) && line.wire == tail && AllFind(line.polls)
    decreases |fs|
  {
    hide Receive, Check, WellShaped, Prompt;
    if fs == [] {
      assert [] + tail == tail;
    } else {
      var rest := fs[1..];
      assert Joined(fs) + tail == fs[0] + (Joined(rest) + tail);
      ReceiveReady(fs[0], Joined(rest) + tail, polls);
      var (o, line) := Receive(Line(Joined(fs) + tail, polls));
      FramesInOrder(rest, tail, line.polls);
      assert Verdicts(fs) == [Check(fs[0])] + Verdicts(rest);
    }
  }

  /** What is to be sent in one frame. */
  datatype Packet = Packet(ack: byte, payload: seq<byte>)

  function Frames(ps: seq<Packet>): (fs: seq<seq<byte>>)
    ensures |fs| == |ps|
  {
    seq(|ps|, i requires 0 <= i < |ps| => Frame(ps[i].ack, ps[i].payload))
  }

  /** The frames as they are accepted. */
  function AcceptedAll(ps: seq<Packet>): (os: seq<Outcome>)
    ensures |os| == |ps|
  {
    seq(|ps|, i requires 0 <= i < |ps| =>
      var f := Frame(ps[i].ack, ps[i].payload); Accepted(f[..Kept(|f|)], |f|))
  }

  /** What the encoder built for any number of packets, sent back to back, comes out frame by frame and in
      order, and whole for each frame shorter than the buffer. */
  lemma StreamRoundTrip(ps: seq<Packet>, tail: seq<byte>, polls: Schedule)
    requires forall i :: 0 <= i < |ps| ==> |ps[i].payload| + 9 <= BUFFER_SIZE
    requires AllFind(polls) && |polls| >= |Joined(Frames(ps))|
    ensures var (os, line) := Listen(|ps|, Line(Joined(Frames(ps)) + tail, polls));
            os == AcceptedAll(ps) && line.wire == tail
  {
    hide Listen, Check, Frame, WellShaped, Joined;
    var fs := Frames(ps);
    forall i | 0 <= i < |ps|
      ensures 4 < |fs[i]| <= BUFFER_SIZE && WellShaped(fs[i]) && Check(fs[i]) == AcceptedAll(ps)[i]
    {
      CheckFrame(ps[i].ack, ps[i].payload);
    }
    FramesInOrder(fs, tail, polls);
    assert Verdicts(fs) == AcceptedAll(ps);
  }
}
