/** The serial port: a stream of bytes on its way in, delivered in arbitrary pieces, and the bytes sent out. */
module SerialPort {
  import opened Words

  /** What successive polls of the device find: 0 for a poll that times out, k for a poll that finds
      at most k bytes ready. Once the list is used up the line stays silent. */
  type Schedule = seq<nat>

  function Min(a: nat, b: nat): (m: nat)
    ensures m <= a && m <= b
  {
    if a <= b then a else b
  }

  /** How many of the `need` bytes one read call collects when `avail` bytes are on the line, and the
      polls it leaves over. */
  function ComRead(avail: nat, polls: Schedule, need: nat): (r: (nat, Schedule))
    ensures r.0 <= need && r.0 <= avail
    ensures |r.1| <= |polls|
    ensures polls != [] ==> |r.1| < |polls|
    decreases |polls|
  {
    if polls == [] then (0, [])
    else if polls[0] == 0 then (0, polls[1..])
    else
      var z := Min(polls[0], Min(need, avail));
      if z == 0 || z == need then (z, polls[1..])
      else
        var more := ComRead(avail - z, polls[1..], need - z);
        (z + more.0, more.1)
  }

  /** What the polls bring before the first that times out. */
  function Ready(polls: Schedule): nat {
    if polls == [] || polls[0] == 0 then 0 else polls[0] + Ready(polls[1..])
  }

  /** One read call collects what is wanted, as far as the line has it and the polls bring it before one
      times out. */
  lemma {:induction false} ReadCollects(avail: nat, polls: Schedule, need: nat)
    ensures ComRead(avail, polls, need).0 == Min(need, Min(avail, Ready(polls)))
    decreases |polls|
  {
    if polls != [] && polls[0] != 0 {
      var z := Min(polls[0], Min(need, avail));
      if z != 0 && z != need {
        ReadCollects(avail - z, polls[1..], need - z);
      }
    }
  }

  method Memcpy(dst: array<byte>, d: nat, src: array<byte>, s: nat, n: nat)
    requires dst != src && d + n <= dst.Length && s + n <= src.Length
    modifies dst
    ensures dst[..] == old(dst[..d]) + src[s..s + n] + old(dst[d + n..])
  {
    for i := 0 to n
      invariant forall j :: 0 <= j < d || d + i <= j < dst.Length ==> dst[j] == old(dst[j])
      invariant forall j :: d <= j < d + i ==> dst[j] == src[s + (j - d)]
    {
      dst[d + i] := src[s + i];
    }
  }

  /** Two pieces taken off the front one after the other are one longer piece. */
  lemma Piecewise(before: seq<byte>, wire: seq<byte>, m: nat, n: nat)
    requires m + n <= |wire|
    ensures before + wire[..m] + wire[m..][..n] == before + wire[..m + n]
    ensures wire[m..][n..] == wire[m + n..]
  {
    assert wire[..m + n] == wire[..m] + wire[m..][..n];
  }

  class CSerialPort {
    var wire: seq<byte>
    var polls: Schedule
    var sent: seq<byte>

    constructor (wire: seq<byte>, polls: Schedule)
      ensures this.wire == wire && this.polls == polls && sent == []
    {
      this.wire, this.polls, sent := wire, polls, [];
    }

    /** One poll: None when it times out, otherwise the bytes read, at most `room` of them. */
    method PollAndRead(buff: array<byte>, room: nat) returns (ready: bool, z: nat)
      requires room <= buff.Length
      modifies this`wire, this`polls, buff
      ensures polls == if old(polls) == [] then [] else old(polls)[1..]
      ensures ready <==> old(polls) != [] && old(polls)[0] != 0
      ensures z == if ready then Min(old(polls)[0], Min(room, |old(wire)|)) else 0
      ensures wire == old(wire)[z..]
      ensures buff[..z] == old(wire)[..z]
    {
      ready, z := false, 0;
      if polls != [] {
        if polls[0] != 0 {
          ready, z := true, Min(polls[0], Min(room, |wire|));
          forall i | 0 <= i < z {
            buff[i] := wire[i];
          }
          wire := wire[z..];
        }
        polls := polls[1..];
      }
    }

    /** One turn of the collecting loop: a poll, and a copy of what it brought behind the c bytes
        already there. */
    method Collect(inbuff: array<byte>, buff: array<byte>, c: nat) returns (open: bool, c': nat)
      requires inbuff != buff && inbuff.Length == buff.Length && c <= inbuff.Length
      modifies this`wire, this`polls, inbuff, buff
      ensures c <= c' <= inbuff.Length && c' - c <= |old(wire)|
      ensures wire == old(wire)[c' - c..]
      ensures inbuff[..c'] == old(inbuff[..c]) + old(wire)[..c' - c]
      ensures open ==> |polls| < |old(polls)|
      ensures var rest := ComRead(|wire|, polls, inbuff.Length - c');
              ComRead(|old(wire)|, old(polls), inbuff.Length - c)
              == if open then (c' - c + rest.0, rest.1) else (c' - c, polls)
    {
      c' := c;
      var ready, z := PollAndRead(buff, inbuff.Length - c);
      if !ready {
        return false, c;
      }
      Memcpy(inbuff, c, buff, 0, z);
      c' := c + z;
      open := z != 0 && c' < inbuff.Length;
    }

    method CollectAll(inbuff: array<byte>, buff: array<byte>) returns (c: nat)
      requires inbuff != buff && inbuff.Length == buff.Length
      modifies this`wire, this`polls, inbuff, buff
      ensures c <= inbuff.Length && c <= |old(wire)|
      ensures (c, polls) == ComRead(|old(wire)|, old(polls), inbuff.Length)
      ensures wire == old(wire)[c..] && inbuff[..c] == old(wire)[..c]
    {
      hide ComRead;
      var open := true;
      c := 0;
      while open
        invariant c <= inbuff.Length && c <= |old(wire)|
        invariant wire == old(wire)[c..] && inbuff[..c] == old(wire)[..c]
        invariant var rest := ComRead(|wire|, polls, inbuff.Length - c);
                  ComRead(|old(wire)|, old(polls), inbuff.Length)
                  == if open then (c + rest.0, rest.1) else (c, polls)
        decreases open, |polls|
      {
        ghost var before := c;
        open, c := Collect(inbuff, buff, c);
        Piecewise([], old(wire), before, c - before);
      }
    }

    /** Reads up to uLen bytes, over as many polls as it takes, and stops early at a poll that times
        out or finds nothing. */
    method ReadFile(pData: array<byte>, at: nat, uLen: nat) returns (c: nat)
      requires at + uLen <= pData.Length
      modifies this`wire, this`polls, pData
      ensures c <= uLen && c <= |old(wire)|
      ensures (c, polls) == ComRead(|old(wire)|, old(polls), uLen)
      ensures wire == old(wire)[c..]
      ensures pData[..] == old(pData[..at]) + old(wire)[..c] + old(pData[at + c..])
    {
      var inbuff := new byte[uLen];
      var buff := new byte[uLen];
      c := CollectAll(inbuff, buff);
      Memcpy(pData, at, inbuff, 0, c);
    }

    method WriteFile(pData: array<byte>, uLen: nat)
      requires uLen <= pData.Length
      modifies this`sent
      ensures sent == old(sent) + pData[..uLen]
    {
      sent := sent + pData[..uLen];
    }
  }
}
