/** The delayed message queue: senders insert into a list ordered by due time under a lock; one
    consumer looks at the head, waits until it is due, and takes the head. */
module MsgQueue {

  /** delayMs as the sender set it, whenMs as the queue stamped it; id tells messages apart. */
  datatype Message = Message(id: nat, mType: int, delayMs: int, whenMs: int)

  // ---------------------------------------------------------------- list operations

  /** Behind every message that is due no later. */
  function InsertAt(q: seq<Message>, when: int): (i: nat)
    ensures i <= |q|
  {
    if q == [] || q[0].whenMs > when then 0 else 1 + InsertAt(q[1..], when)
  }

  function Insert(q: seq<Message>, m: Message): seq<Message> {
    var i := InsertAt(q, m.whenMs);
    q[..i] + [m] + q[i..]
  }

  /** Removal while stepping an index that also advances past the message moved up into the gap. */
  function RemoveType(q: seq<Message>, t: int): seq<Message> {
    if q == [] then []
    else if q[0].mType == t then (if |q| == 1 then [] else [q[1]] + RemoveType(q[2..], t))
    else [q[0]] + RemoveType(q[1..], t)
  }

  /** The removal loop's own course: the list and the index it has reached. */
  function Sweep(q: seq<Message>, i: nat, t: int): seq<Message>
    decreases |q| - i
  {
    if i >= |q| then q
    else if q[i].mType == t then Sweep(q[..i] + q[i + 1..], i + 1, t)
    else Sweep(q, i + 1, t)
  }

  lemma {:induction false} SweepRemoves(q: seq<Message>, i: nat, t: int)
    requires i <= |q|
    ensures Sweep(q, i, t) == q[..i] + RemoveType(q[i..], t)
    decreases |q| - i
  {
    if i == |q| {
      assert q[..i] == q;
    } else if q[i].mType == t {
      var q' := q[..i] + q[i + 1..];
      if i + 1 < |q| {
        SweepRemoves(q', i + 1, t);
        assert q'[..i + 1] == q[..i] + [q[i + 1]];
        assert q'[i + 1..] == q[i + 2..] == q[i..][2..];
      } else {
        assert q' == q[..i];
      }
    } else {
      SweepRemoves(q, i + 1, t);
      assert q[..i + 1] == q[..i] + [q[i]] && q[i..][1..] == q[i + 1..];
    }
  }

  ghost predicate Sorted(q: seq<Message>) {
    forall i, j :: 0 <= i < j < |q| ==> q[i].whenMs <= q[j].whenMs
  }

  // ---------------------------------------------------------------- the object

  class CMsgQueueThread {
    var m_v_msg: seq<Message>

    constructor ()
      ensures m_v_msg == []
    {
      m_v_msg := [];
    }

    /** Stamps the message with its due time and inserts it; `now` is the clock read under the lock. */
    method SendMsg(msg: Message, now: int) returns (stamped: Message)
      modifies this
      ensures stamped == msg.(whenMs := now + msg.delayMs)
      ensures m_v_msg == Insert(old(m_v_msg), stamped)
    {
      stamped := msg.(whenMs := now + msg.delayMs);
      var i := 0;
      while i < |m_v_msg| && m_v_msg[i].whenMs <= stamped.whenMs
        invariant 0 <= i <= |m_v_msg| && m_v_msg == old(m_v_msg)
        invariant InsertAt(m_v_msg, stamped.whenMs) == i + InsertAt(m_v_msg[i..], stamped.whenMs)
      {
        assert m_v_msg[i..][1..] == m_v_msg[i + 1..];
        i := i + 1;
      }
      m_v_msg := m_v_msg[..i] + [stamped] + m_v_msg[i..];
    }

    /** Removes messages of one type; true when the consumer is to be woken. */
    method RemoveMsg(mType: int) returns (signal: bool)
      modifies this
      ensures m_v_msg == RemoveType(old(m_v_msg), mType)
      ensures signal <==> |m_v_msg| < |old(m_v_msg)|
    {
      var beforeSize := |m_v_msg|;
      var i := 0;
      while i < |m_v_msg|
        invariant 0 <= i && |m_v_msg| <= beforeSize
        invariant Sweep(m_v_msg, i, mType) == Sweep(old(m_v_msg), 0, mType)
        decreases |m_v_msg| - i
      {
        if m_v_msg[i].mType == mType {
          m_v_msg := m_v_msg[..i] + m_v_msg[i + 1..];
        }
        i := i + 1;
      }
      SweepRemoves(old(m_v_msg), 0, mType);
      signal := beforeSize > |m_v_msg|;
    }

    method ClearMsg()
      modifies this
      ensures m_v_msg == []
    {
      m_v_msg := [];
    }

    /** Takes the head. */
    method PopFront() returns (msg: Message)
      requires m_v_msg != []
      modifies this
      ensures msg == old(m_v_msg)[0] && m_v_msg == old(m_v_msg)[1..]
    {
      msg := m_v_msg[0];
      m_v_msg := m_v_msg[1..];
    }
  }

  // ---------------------------------------------------------------- what the list operations keep

  lemma {:induction false} InsertAtSplits(q: seq<Message>, when: int)
    requires Sorted(q)
    ensures var i := InsertAt(q, when);
            && (forall k :: 0 <= k < i ==> q[k].whenMs <= when)
            && (forall k :: i <= k < |q| ==> q[k].whenMs > when)
  {
    if q != [] && q[0].whenMs <= when {
      InsertAtSplits(q[1..], when);
    }
  }

  /** Insertion keeps the order and puts the message behind all that are due at the same time. */
  lemma InsertKeepsOrder(q: seq<Message>, m: Message)
    requires Sorted(q)
    ensures Sorted(Insert(q, m))
    ensures forall k :: InsertAt(q, m.whenMs) < k < |q| + 1 ==> Insert(q, m)[k].whenMs > m.whenMs
  {
    InsertAtSplits(q, m.whenMs);
    var i := InsertAt(q, m.whenMs);
    hide InsertAt;
    SortedJoin(q[..i], m, q[i..]);
  }

  lemma SortedJoin(p: seq<Message>, m: Message, q: seq<Message>)
    requires Sorted(p) && Sorted(q)
    requires forall k :: 0 <= k < |p| ==> p[k].whenMs <= m.whenMs
    requires forall k :: 0 <= k < |q| ==> m.whenMs < q[k].whenMs
    ensures Sorted(p + [m] + q)
  {
    assert Sorted(p + [m]);
    forall i, j | 0 <= i < |p + [m]| && 0 <= j < |q| ensures (p + [m])[i].whenMs <= q[j].whenMs {
      assert (p + [m])[i].whenMs <= m.whenMs;
    }
  }

  /** Insertion adds just the message. */
  lemma InsertAdds(q: seq<Message>, m: Message)
    ensures multiset(Insert(q, m)) == multiset(q) + multiset{m}
  {
    hide InsertAt;
    var i := InsertAt(q, m.whenMs);
    assert q == q[..i] + q[i..];
  }

  lemma SortedCons(m: Message, q: seq<Message>)
    requires Sorted(q) && forall x :: x in q ==> m.whenMs <= x.whenMs
    ensures Sorted([m] + q)
  {}

  /** Removal keeps the order. */
  lemma {:induction false} RemoveKeepsOrder(q: seq<Message>, t: int)
    requires Sorted(q)
    ensures Sorted(RemoveType(q, t))
    ensures forall x :: x in RemoveType(q, t) ==> x in q
    decreases |q|
  {
    if q != [] {
      if q[0].mType != t {
        RemoveKeepsOrder(q[1..], t);
        SortedCons(q[0], RemoveType(q[1..], t));
      } else if |q| > 1 {
        RemoveKeepsOrder(q[2..], t);
        SortedCons(q[1], RemoveType(q[2..], t));
      }
    }
  }

  lemma CountCons(x: Message, q: seq<Message>, m: Message)
    ensures multiset([x] + q)[m] == (if x == m then 1 else 0) + multiset(q)[m]
  {}

  /** Removal loses only messages of the given type, and adds none. */
  lemma {:induction false} RemoveKeepsOthers(q: seq<Message>, t: int, m: Message)
    ensures multiset(RemoveType(q, t))[m] <= multiset(q)[m]
    ensures m.mType != t ==> multiset(RemoveType(q, t))[m] == multiset(q)[m]
    decreases |q|
  {
    if q != [] {
      assert q == [q[0]] + q[1..];
      CountCons(q[0], q[1..], m);
      RemoveNext(q, t);
      hide RemoveType;
      if q[0].mType != t {
        RemoveKeepsOthers(q[1..], t, m);
        CountCons(q[0], RemoveType(q[1..], t), m);
      } else if |q| > 1 {
        RemoveKeepsOthers(q[2..], t, m);
        assert q[1..] == [q[1]] + q[2..];
        CountCons(q[1], q[2..], m);
        CountCons(q[1], RemoveType(q[2..], t), m);
      }
    }
  }

  lemma RemoveNext(q: seq<Message>, t: int)
    requires q != []
    ensures RemoveType(q, t) == if q[0].mType != t then [q[0]] + RemoveType(q[1..], t)
                                else if |q| == 1 then [] else [q[1]] + RemoveType(q[2..], t)
  {}

  /** No two neighbours are both of type t. */
  predicate NoNeighbours(q: seq<Message>, t: int) {
    forall i :: 0 <= i < |q| - 1 ==> !(q[i].mType == t && q[i + 1].mType == t)
  }

  predicate None(q: seq<Message>, t: int) {
    forall i :: 0 <= i < |q| ==> q[i].mType != t
  }

  /** Of messages that stand next to each other, every second one. */
  function EverySecond(q: seq<Message>): (r: seq<Message>)
    ensures |r| == |q| / 2
  {
    if |q| < 2 then [] else [q[1]] + EverySecond(q[2..])
  }

  /** Of a run of messages of the type every second one stays, beginning with the second; whatever stands
      before and behind the run is treated by itself. */
  lemma {:induction false} RunKeepsHalf(front: seq<Message>, run: seq<Message>, back: seq<Message>, t: int)
    requires None(front, t) && forall i :: 0 <= i < |run| ==> run[i].mType == t
    requires back != [] ==> back[0].mType != t
    ensures RemoveType(front + run + back, t) == front + EverySecond(run) + RemoveType(back, t)
    decreases |front| + |run|
  {
    hide RemoveType;
    if front != [] {
      RunKeepsHalf(front[1..], run, back, t);
      FrontStays(front, run, back, t);
    } else if |run| >= 2 {
      RunKeepsHalf([], run[2..], back, t);
      PairHalved(run, back, t);
    } else {
      ShortRun(run, back, t);
      assert [] + run + back == run + back && EverySecond(run) == [];
    }
  }

  lemma FrontStays(front: seq<Message>, run: seq<Message>, back: seq<Message>, t: int)
    requires front != [] && front[0].mType != t
    requires RemoveType(front[1..] + run + back, t) == front[1..] + EverySecond(run) + RemoveType(back, t)
    ensures RemoveType(front + run + back, t) == front + EverySecond(run) + RemoveType(back, t)
  {
    hide RemoveType, EverySecond;
    var x, rest := front[0], front[1..];
    assert front == [x] + rest;
    Regroup(x, rest, run, back);
    Regroup(x, rest, EverySecond(run), RemoveType(back, t));
    RemoveCons(x, rest + run + back, t);
  }

  lemma Regroup(x: Message, a: seq<Message>, b: seq<Message>, c: seq<Message>)
    ensures [x] + a + b + c == [x] + (a + b + c)
  {}

  lemma RemoveCons(x: Message, q: seq<Message>, t: int)
    requires x.mType != t
    ensures RemoveType([x] + q, t) == [x] + RemoveType(q, t)
  {
    assert ([x] + q)[1..] == q;
  }

  lemma PairHalved(run: seq<Message>, back: seq<Message>, t: int)
    requires |run| >= 2 && run[0].mType == t
    requires RemoveType([] + run[2..] + back, t) == [] + EverySecond(run[2..]) + RemoveType(back, t)
    ensures RemoveType([] + run + back, t) == [] + EverySecond(run) + RemoveType(back, t)
  {
    hide RemoveType;
    var x, y, rest := run[0], run[1], run[2..];
    assert [] + run + back == [x, y] + ([] + rest + back);
    RemovePair(x, y, [] + rest + back, t);
    assert EverySecond(run) == [y] + EverySecond(rest);
    hide EverySecond;
    assert [] + ([y] + EverySecond(rest)) + RemoveType(back, t) == [y] + ([] + EverySecond(rest) + RemoveType(back, t));
  }

  lemma RemovePair(x: Message, y: Message, q: seq<Message>, t: int)
    requires x.mType == t
    ensures RemoveType([x, y] + q, t) == [y] + RemoveType(q, t)
  {
    assert ([x, y] + q)[2..] == q;
  }

  lemma ShortRun(run: seq<Message>, back: seq<Message>, t: int)
    requires |run| <= 1 && forall i :: 0 <= i < |run| ==> run[i].mType == t
    requires back != [] ==> back[0].mType != t
    ensures RemoveType(run + back, t) == [] + [] + RemoveType(back, t)
  {
    if run == [] {
      assert run + back == back;
    } else {
      var q := run + back;
      RemoveNext(q, t);
      if back != [] {
        RemoveNext(back, t);
        assert q[1] == back[0] && q[2..] == back[1..];
      }
    }
  }

  /** All messages of the type go exactly when no two of them were neighbours in the list: the index
      steps over the one that moves up. */
  lemma {:induction false} RemovesAllIff(q: seq<Message>, t: int)
    ensures None(RemoveType(q, t), t) <==> NoNeighbours(q, t)
    decreases |q|
  {
    if q == [] {
    } else if q[0].mType != t {
      RemovesAllIff(q[1..], t);
      var r := RemoveType(q, t);
      assert r[1..] == RemoveType(q[1..], t);
      assert None(r, t) <==> None(r[1..], t) by {
        if None(r[1..], t) {
          forall i | 0 <= i < |r| ensures r[i].mType != t {
            if i > 0 { assert r[i] == r[1..][i - 1]; }
          }
        }
      }
      NeighboursBehind(q, t);
    } else if |q| > 1 {
      RemovesAllIff(q[2..], t);
      var r := RemoveType(q, t);
      assert r[1..] == RemoveType(q[2..], t) && r[0] == q[1];
      if q[1].mType != t {
        assert None(r, t) <==> None(r[1..], t) by {
          if None(r[1..], t) {
            forall i | 0 <= i < |r| ensures r[i].mType != t {
              if i > 0 { assert r[i] == r[1..][i - 1]; }
            }
          }
        }
        NeighboursBehind(q, t);
        NeighboursBehind(q[1..], t);
        assert q[1..][1..] == q[2..];
      } else {
        assert !NoNeighbours(q, t) && !None(r, t);
      }
    }
  }

  lemma NeighboursBehind(q: seq<Message>, t: int)
    requires |q| > 0 && !(|q| > 1 && q[0].mType == t && q[1].mType == t)
    ensures NoNeighbours(q, t) <==> NoNeighbours(q[1..], t)
  {
    if NoNeighbours(q[1..], t) {
      forall i | 0 <= i < |q| - 1 ensures !(q[i].mType == t && q[i + 1].mType == t) {
        if i > 0 {
          assert q[i] == q[1..][i - 1] && q[i + 1] == q[1..][i];
        }
      }
    }
  }
}
