/** Senders and the consumer of the delayed message queue as one step system: a step is a region under
    the lock, an unlocked look at the list, a clock read, or the passing of time. A sender reads the clock
    and inserts in two steps with the lock held in between. */
module QueueProtocol {
  import opened MsgQueue

  /** Where the consumer's loop stands. Sleep: waiting for a message at all. Look: about to test for an
      empty list. Peek: about to copy the head. Check: holding the due time it copied. Wait: waiting for
      time or a signal. Decide: about to test for an empty list before taking. Take: about to take the
      head. Broken: it indexed an empty list. */
  datatype Consumer = Sleep | Look | Peek | Check(when: int) | Wait | Decide | Take | Broken

  /** Stamped: a sender holds the lock and has stamped its message, but not yet inserted it. */
  datatype Lock = Free | Stamped(msg: Message)

  datatype Handled = Handled(msg: Message, at: int)

  datatype State = State(clock: int, lock: Lock, queue: seq<Message>, consumer: Consumer,
                         sent: seq<Message>, handled: seq<Handled>, removed: multiset<Message>)

  datatype Action = Tick(ms: nat) | Stamp(mType: int, delayMs: int) | Enqueue | Remove(t: int) | Clear | Consume

  function Init(clock: int): State {
    State(clock, Free, [], Sleep, [], [], multiset{})
  }

  /** The consumer's steps that need the lock; the others are unlocked reads of the list or the clock. */
  predicate NeedsLock(c: Consumer) {
    c.Sleep? || c.Peek? || c.Wait? || c.Take?
  }

  /** One step of the consumer, the lock being free if it needs it; a step that cannot be taken changes
      nothing. */
  function ConsumerStep(s: State): State {
    match s.consumer
    case Sleep => if s.queue == [] then s else s.(consumer := Look)
    case Look => s.(consumer := if s.queue == [] then Decide else Peek)
    case Peek => s.(consumer := if s.queue == [] then Broken else Check(s.queue[0].whenMs))
    case Check(when) => s.(consumer := if when - s.clock > 0 then Wait else Decide)
    case Wait => s.(consumer := Look)
    case Decide => s.(consumer := if s.queue == [] then Sleep else Take)
    case Take =>
      if s.queue == [] then s.(consumer := Broken)
      else s.(queue := s.queue[1..], consumer := Sleep, handled := s.handled + [Handled(s.queue[0], s.clock)])
    case Broken => s
  }

  function Apply(s: State, a: Action): State {
    match a
    case Tick(ms) => s.(clock := s.clock + ms)
    case Stamp(mType, delayMs) =>
      if s.lock != Free then s
      else s.(lock := Stamped(Message(|s.sent|, mType, delayMs, s.clock + delayMs)))
    case Enqueue =>
      if s.lock == Free then s
      else s.(lock := Free, queue := Insert(s.queue, s.lock.msg), sent := s.sent + [s.lock.msg])
    case Remove(t) =>
      if s.lock != Free then s
      else
        var q := RemoveType(s.queue, t);
        s.(queue := q, removed := s.removed + (multiset(s.queue) - multiset(q)))
    case Clear => if s.lock != Free then s else s.(queue := [], removed := s.removed + multiset(s.queue))
    case Consume => if s.lock != Free && NeedsLock(s.consumer) then s else ConsumerStep(s)
  }

  function Run(s: State, acts: seq<Action>): State
    decreases |acts|
  {
    if acts == [] then s else Run(Apply(s, acts[0]), acts[1..])
  }

  /** The steps are the object's own operations: whatever a step does to the queue, the object does to its
      list. A sender's two steps are one operation, which puts the message in at the second. */
  method Perform(thread: CMsgQueueThread, s: State, a: Action)
    requires thread.m_v_msg == s.queue
    modifies thread
    ensures thread.m_v_msg == Apply(s, a).queue
  {
    hide Insert, RemoveType;
    match a
    case Enqueue =>
      if s.lock.Stamped? {
        var m := s.lock.msg;
        var stamped := thread.SendMsg(m, m.whenMs - m.delayMs);
        assert stamped == m;
      }
    case Remove(t) =>
      if s.lock == Free {
        var _ := thread.RemoveMsg(t);
      }
    case Clear =>
      if s.lock == Free {
        thread.ClearMsg();
      }
    case Consume =>
      if s.lock == Free && s.consumer == Take && s.queue != [] {
        var msg := thread.PopFront();
        assert msg == s.queue[0];
      }
    case _ =>
  }

  // ---------------------------------------------------------------- what is to hold

  /** No message was handled before it was due, and the list was never indexed while empty. */
  predicate Punctual(s: State) {
    && s.consumer != Broken
    && forall i :: 0 <= i < |s.handled| ==> s.handled[i].msg.whenMs <= s.handled[i].at
  }

  /** Due earlier, or at the same time and sent earlier. */
  predicate Before(a: Message, b: Message) {
    a.whenMs < b.whenMs || (a.whenMs == b.whenMs && a.id < b.id)
  }

  predicate InOrder(q: seq<Message>) {
    forall i, j :: 0 <= i < j < |q| ==> Before(q[i], q[j])
  }

  function Messages(h: seq<Handled>): (ms: seq<Message>)
    ensures |ms| == |h|
  {
    seq(|h|, i requires 0 <= i < |h| => h[i].msg)
  }

  /** What was handled, followed by what is queued, is in order of due time and, within one due time,
      in order of sending; what was handled is in the past. */
  predicate Ordered(s: State) {
    && InOrder(Messages(s.handled) + s.queue)
    && (forall i :: 0 <= i < |s.handled| ==> s.handled[i].msg.whenMs <= s.clock)
    && (forall m :: m in Messages(s.handled) + s.queue ==> m.id < |s.sent|)
  }

  /** A stamped message is the next one sent, and everything handled was due before it. */
  predicate StampedLast(s: State) {
    s.lock.Stamped? ==>
      && s.lock.msg.id == |s.sent|
      && forall i :: 0 <= i < |s.handled| ==> s.handled[i].msg.whenMs <= s.lock.msg.whenMs
  }

  /** Nothing is lost, nothing is made up. */
  predicate Conserved(s: State) {
    multiset(s.sent) == multiset(Messages(s.handled)) + multiset(s.queue) + s.removed
  }

  /** What the consumer relies on between its unlocked looks at the list. */
  predicate Guarded(s: State) {
    match s.consumer
    case Sleep => true
    case Look => s.queue != []
    case Wait => s.queue != []
    case Peek => s.queue != []
    case Check(when) => s.queue != [] && (s.queue[0].whenMs <= when || s.queue[0].whenMs <= s.clock)
    case Decide => s.queue != [] && s.queue[0].whenMs <= s.clock
    case Take => s.queue != [] && s.queue[0].whenMs <= s.clock
    case Broken => false
  }

  predicate Inv(s: State) {
    Guarded(s) && Punctual(s) && Ordered(s) && StampedLast(s) && Conserved(s)
  }

  /** Delays are not negative, and a removal leaves the consumer's guard intact. */
  predicate Allowed(s: State, a: Action) {
    match a
    case Stamp(_, delayMs) => delayMs >= 0
    case Remove(_) => Guarded(Apply(s, a))
    case Clear => Guarded(Apply(s, a))
    case _ => true
  }

  predicate AllAllowed(s: State, acts: seq<Action>)
    decreases |acts|
  {
    acts == [] || (Allowed(s, acts[0]) && AllAllowed(Apply(s, acts[0]), acts[1..]))
  }

  // ---------------------------------------------------------------- every step keeps it

  lemma {:induction false} InsertAtOrdered(q: seq<Message>, when: int)
    requires InOrder(q)
    ensures var i := InsertAt(q, when);
            && (forall k :: 0 <= k < i ==> q[k].whenMs <= when)
            && (forall k :: i <= k < |q| ==> when < q[k].whenMs)
  {
    if q != [] && q[0].whenMs <= when {
      InsertAtOrdered(q[1..], when);
    }
  }

  /** A new message goes behind everything handled and everything due no later, before the rest. */
  lemma SendKeepsOrder(h: seq<Message>, q: seq<Message>, m: Message)
    requires InOrder(h + q)
    requires forall x :: x in h + q ==> x.id < m.id
    requires forall i :: 0 <= i < |h| ==> h[i].whenMs <= m.whenMs
    ensures InOrder(h + Insert(q, m))
  {
    BackInOrder(h, q);
    InsertAtOrdered(q, m.whenMs);
    hide InsertAt, InOrder;
    var k := InsertAt(q, m.whenMs);
    var p := h + q[..k];
    Around(h, q, k, m);
    forall x | x in p ensures Before(x, m) {
      assert x in h + q;
    }
    OrderJoin(p, m, q[k..]);
  }

  lemma BackInOrder(h: seq<Message>, q: seq<Message>)
    requires InOrder(h + q)
    ensures InOrder(q)
  {
    forall i, j | 0 <= i < j < |q| ensures Before(q[i], q[j]) {
      assert (h + q)[|h| + i] == q[i] && (h + q)[|h| + j] == q[j];
    }
  }

  lemma Around(h: seq<Message>, q: seq<Message>, k: nat, m: Message)
    requires k <= |q|
    ensures h + q == h + q[..k] + q[k..] && h + (q[..k] + [m] + q[k..]) == h + q[..k] + [m] + q[k..]
  {}

  lemma OrderJoin(p: seq<Message>, m: Message, r: seq<Message>)
    requires InOrder(p + r)
    requires forall x :: x in p ==> Before(x, m)
    requires forall k :: 0 <= k < |r| ==> Before(m, r[k])
    ensures InOrder(p + [m] + r)
  {
    var n, all := |p|, p + [m] + r;
    forall i, j | 0 <= i < j < |all| ensures Before(all[i], all[j]) {
      if i != n && j != n {
        var i', j' := if i < n then i else i - 1, if j < n then j else j - 1;
        assert all[i] == (p + r)[i'] && all[j] == (p + r)[j'];
      } else if j == n {
        assert all[i] in p;
      }
    }
  }

  lemma OrderDrop(p: seq<Message>, m: Message, r: seq<Message>)
    requires InOrder(p + [m] + r)
    ensures InOrder(p + r)
  {
    var n, all, less := |p|, p + [m] + r, p + r;
    forall i, j | 0 <= i < j < |less| ensures Before(less[i], less[j]) {
      var i', j' := if i < n then i else i + 1, if j < n then j else j + 1;
      assert less[i] == all[i'] && less[j] == all[j'];
    }
  }

  lemma {:induction false} RemoveKeepsInOrder(h: seq<Message>, q: seq<Message>, t: int)
    requires InOrder(h + q)
    ensures InOrder(h + RemoveType(q, t))
    ensures forall x :: x in RemoveType(q, t) ==> x in q
    decreases |q|
  {
    if q != [] {
      assert h + q == h + [q[0]] + q[1..];
      if q[0].mType != t {
        RemoveKeepsInOrder(h + [q[0]], q[1..], t);
        assert h + RemoveType(q, t) == h + [q[0]] + RemoveType(q[1..], t);
      } else {
        OrderDrop(h, q[0], q[1..]);
        if |q| > 1 {
          assert h + q[1..] == h + [q[1]] + q[2..];
          RemoveKeepsInOrder(h + [q[1]], q[2..], t);
          assert h + RemoveType(q, t) == h + [q[1]] + RemoveType(q[2..], t);
        } else {
          assert h + [] == h + q[1..];
        }
      }
    }
  }

  lemma ConsumeKeeps(s: State)
    requires Inv(s)
    ensures Inv(Apply(s, Consume))
  {
    if s.consumer == Take && s.lock == Free {
      var s' := ConsumerStep(s);
      var h, h' := Messages(s.handled), Messages(s'.handled);
      assert h' == h + [s.queue[0]];
      assert h' + s'.queue == h + s.queue;
      assert multiset(h') == multiset(h) + multiset{s.queue[0]};
      assert s.queue == [s.queue[0]] + s.queue[1..];
    }
  }

  lemma SendKeepsGuard(s: State, m: Message)
    requires Guarded(s)
    ensures Guarded(s.(lock := Free, queue := Insert(s.queue, m), sent := s.sent + [m]))
  {
    if s.queue != [] {
      var q := Insert(s.queue, m);
      assert q[0] == s.queue[0] || q[0] == m;
      assert q[0].whenMs <= s.queue[0].whenMs;
    }
  }

  lemma StampKeeps(s: State, mType: int, delayMs: int)
    requires Inv(s) && delayMs >= 0
    ensures Inv(Apply(s, Stamp(mType, delayMs)))
  {}

  lemma EnqueueKeeps(s: State)
    requires Inv(s)
    ensures Inv(Apply(s, Enqueue))
  {
    hide Insert;
    if s.lock.Stamped? {
      var m, h, s' := s.lock.msg, Messages(s.handled), Apply(s, Enqueue);
      SendKeepsOrder(h, s.queue, m);
      InsertAdds(s.queue, m);
      SendKeepsGuard(s, m);
      forall x | x in h + s'.queue ensures x.id < |s'.sent| {
        assert x in h + s.queue || x == m by {
          assert x in h || x in multiset(s'.queue);
        }
      }
    }
  }

  lemma RemoveKeeps(s: State, q: seq<Message>, s': State)
    requires Inv(s) && Guarded(s')
    requires s' == s.(queue := q, removed := s.removed + (multiset(s.queue) - multiset(q)))
    requires InOrder(Messages(s.handled) + q) && multiset(q) <= multiset(s.queue)
    ensures Inv(s')
  {
    forall x | x in Messages(s.handled) + q ensures x.id < |s.sent| {
      assert x in Messages(s.handled) + s.queue by {
        assert x in Messages(s.handled) || x in multiset(q);
      }
    }
  }

  lemma RemoveStepKeeps(s: State, t: int)
    requires Inv(s) && Guarded(Apply(s, Remove(t)))
    ensures Inv(Apply(s, Remove(t)))
  {
    hide RemoveType;
    if s.lock == Free {
      var h, q := Messages(s.handled), RemoveType(s.queue, t);
      RemoveKeepsInOrder(h, s.queue, t);
      forall m ensures multiset(q)[m] <= multiset(s.queue)[m] {
        RemoveKeepsOthers(s.queue, t, m);
      }
      RemoveKeeps(s, q, Apply(s, Remove(t)));
    }
  }

  lemma ClearKeeps(s: State)
    requires Inv(s) && Guarded(Apply(s, Clear))
    ensures Inv(Apply(s, Clear))
  {
    if s.lock == Free {
      var h := Messages(s.handled);
      forall i, j | 0 <= i < j < |h| ensures Before(h[i], h[j]) {
        assert (h + s.queue)[i] == h[i] && (h + s.queue)[j] == h[j];
      }
      assert h + [] == h;
      RemoveKeeps(s, [], Apply(s, Clear));
    }
  }

  lemma StepKeeps(s: State, a: Action)
    requires Inv(s) && Allowed(s, a)
    ensures Inv(Apply(s, a))
  {
    hide Insert, RemoveType;
    match a
    case Tick(_) =>
    case Stamp(mType, delayMs) => StampKeeps(s, mType, delayMs);
    case Enqueue => EnqueueKeeps(s);
    case Remove(t) => RemoveStepKeeps(s, t);
    case Clear => ClearKeeps(s);
    case Consume => ConsumeKeeps(s);
  }

  lemma {:induction false} RunKeeps(s: State, acts: seq<Action>)
    requires Inv(s) && AllAllowed(s, acts)
    ensures Inv(Run(s, acts))
    decreases |acts|
  {
    if acts != [] {
      StepKeeps(s, acts[0]);
      RunKeeps(Apply(s, acts[0]), acts[1..]);
    }
  }

  /** Sends with non-negative delays, time, and the consumer: everything but removal. */
  predicate Plain(acts: seq<Action>) {
    forall i :: 0 <= i < |acts| ==>
                  acts[i] in {Enqueue, Consume} || acts[i].Tick? || (acts[i].Stamp? && acts[i].delayMs >= 0)
  }

  lemma {:induction false} PlainIsAllowed(s: State, acts: seq<Action>)
    requires Plain(acts)
    ensures AllAllowed(s, acts)
    decreases |acts|
  {
    if acts != [] {
      PlainIsAllowed(Apply(s, acts[0]), acts[1..]);
    }
  }

  /** In every interleaving of senders, time and consumer, nothing is handled early, messages come out
      in order of due time and of sending within one due time, and none is lost or duplicated. */
  lemma EveryInterleavingIsSound(clock: int, acts: seq<Action>)
    requires Plain(acts)
    ensures var s := Run(Init(clock), acts);
            && Punctual(s) && Conserved(s) && s.removed == multiset{}
            && InOrder(Messages(s.handled) + s.queue)
  {
    PlainIsAllowed(Init(clock), acts);
    RunKeeps(Init(clock), acts);
    NothingRemoved(Init(clock), acts);
  }

  lemma {:induction false} NothingRemoved(s: State, acts: seq<Action>)
    requires Plain(acts)
    ensures Run(s, acts).removed == s.removed
    decreases |acts|
  {
    if acts != [] {
      NothingRemoved(Apply(s, acts[0]), acts[1..]);
    }
  }

  // ---------------------------------------------------------------- removal: the exact condition

  lemma TakeFails(s: State)
    requires s.consumer == Take && s.lock == Free && !Guarded(s)
    ensures !Punctual(Run(s, [Consume]))
  {
    var s' := ConsumerStep(s);
    assert Run(s, [Consume]) == s' by {
      assert [Consume][1..] == [];
    }
    if s.queue != [] {
      assert s'.handled[|s.handled|] == Handled(s.queue[0], s.clock);
    }
  }

  lemma RunStep(s: State, a: Action, acts: seq<Action>)
    ensures Run(s, [a] + acts) == Run(Apply(s, a), acts)
    ensures Plain([a]) && Plain(acts) ==> Plain([a] + acts)
  {
    hide Apply;
    assert ([a] + acts)[1..] == acts;
  }

  /** From a state whose guard is broken while no sender holds the lock, some course of events without any
      removal handles a message early or indexes the empty list. */
  lemma {:induction false} BrokenGuardFails(s: State) returns (acts: seq<Action>)
    requires !Guarded(s) && s.lock == Free
    ensures Plain(acts) && !Punctual(Run(s, acts))
    decreases match s.consumer case Wait => 5 case Look => 4 case Check(_) => 6 case Decide => 3 case _ => 0,
              |s.queue| == 0
  {
    assert Plain([]) && Plain([Consume]) && Plain([Enqueue]) && Plain([Stamp(0, 1)]);
    match s.consumer
    case Broken => acts := [];
    case Peek =>
      acts := [Consume];
      RunStep(s, Consume, []);
    case Take =>
      acts := [Consume];
      TakeFails(s);
    case Decide =>
      if s.queue == [] {
        var s1 := Apply(s, Stamp(0, 1));
        var s2 := Apply(s1, Enqueue);
        TakeFails(Apply(s2, Consume));
        acts := [Stamp(0, 1)] + ([Enqueue] + ([Consume] + [Consume]));
        RunStep(s2, Consume, [Consume]);
        RunStep(s1, Enqueue, [Consume] + [Consume]);
        RunStep(s, Stamp(0, 1), [Enqueue] + ([Consume] + [Consume]));
      } else {
        acts := BrokenGuardFails(Apply(s, Consume));
        RunStep(s, Consume, acts);
        acts := [Consume] + acts;
      }
    case Check(when) =>
      var late := if when > s.clock then when - s.clock else 0;
      if s.queue == [] {
        acts := BrokenGuardFails(Apply(s, Consume));
        RunStep(s, Consume, acts);
        acts := [Consume] + acts;
      } else {
        var s' := Apply(s, Tick(late));
        assert Plain([Tick(late)]);
        acts := BrokenGuardFails(Apply(s', Consume));
        RunStep(s', Consume, acts);
        RunStep(s, Tick(late), [Consume] + acts);
        acts := [Tick(late)] + ([Consume] + acts);
      }
    case Look | Wait =>
      acts := BrokenGuardFails(Apply(s, Consume));
      RunStep(s, Consume, acts);
      acts := [Consume] + acts;
  }

  /** What the consumer must not have relied on, read off before a removal: nothing if it is still asleep;
      otherwise the head must stay, or the message behind it move up and be due by the time the consumer
      has already settled on. */
  predicate SafeToRemove(s: State, a: Action) {
    || s.lock != Free || s.consumer == Sleep
    || (a.Remove? && s.queue != [] && s.queue[0].mType != a.t)
    || (a.Remove? && |s.queue| > 1
        && match s.consumer
           case Check(when) => s.queue[1].whenMs <= when || s.queue[1].whenMs <= s.clock
           case Decide | Take => s.queue[1].whenMs <= s.clock
           case _ => true)
  }

  lemma SafeToRemoveIsExact(s: State, a: Action)
    requires Inv(s) && (a.Remove? || a.Clear?)
    ensures SafeToRemove(s, a) <==> Guarded(Apply(s, a))
  {
    hide Ordered, Conserved, Punctual;
  }

  /** A removal or clearing is harmless exactly when it is safe by what can be seen before it: then every
      course of events from there on is punctual; otherwise some course, without any further removal, is
      not. */
  lemma RemovalIsHarmlessIff(s: State, a: Action)
    requires Inv(s) && (a.Remove? || a.Clear?)
    ensures SafeToRemove(s, a) <==> forall acts :: Plain(acts) ==> Punctual(Run(Apply(s, a), acts))
  {
    SafeToRemoveIsExact(s, a);
    var s' := Apply(s, a);
    hide SafeToRemove;
    if Guarded(s') {
      StepKeeps(s, a);
      forall acts | Plain(acts) ensures Punctual(Run(s', acts)) {
        PlainIsAllowed(s', acts);
        RunKeeps(s', acts);
      }
    } else {
      BrokenAfterRemoval(s, a);
      var acts := BrokenGuardFails(s');
      assert Plain(acts) && !Punctual(Run(s', acts));
    }
  }

  lemma BrokenAfterRemoval(s: State, a: Action)
    requires Guarded(s) && (a.Remove? || a.Clear?) && !Guarded(Apply(s, a))
    ensures Apply(s, a).lock == Free
  {}

  /** Clearing is harmless exactly while the consumer is asleep; while a sender holds the lock it has to wait. */
  lemma ClearIsHarmlessIff(s: State)
    requires Inv(s)
    ensures s.consumer == Sleep || s.lock != Free
            <==> forall acts :: Plain(acts) ==> Punctual(Run(Apply(s, Clear), acts))
  {
    hide Run, Inv, Punctual, Plain;
    RemovalIsHarmlessIff(s, Clear);
  }

  /** A consumer that finds the list empty at its look will take whatever is sent next, due or not: early,
      if it is sent with a delay. */
  lemma EmptyLookTakesNext(s: State, mType: int, delayMs: int)
    requires s.consumer == Look && s.lock == Free && s.queue == []
    ensures var m := Message(|s.sent|, mType, delayMs, s.clock + delayMs);
            var after := TakenNext(s, mType, delayMs);
            && after.handled == s.handled + [Handled(m, s.clock)]
            && (delayMs > 0 ==> !Punctual(after))
  {
    hide Insert;
    var m := Message(|s.sent|, mType, delayMs, s.clock + delayMs);
    InsertIntoNone(m);
    assert TakenNext(s, mType, delayMs).handled[|s.handled|] == Handled(m, s.clock);
  }

  /** The look, a sender's two steps, and the consumer's next two. */
  function TakenNext(s: State, mType: int, delayMs: int): State {
    var sent := Apply(Apply(Apply(s, Consume), Stamp(mType, delayMs)), Enqueue);
    Apply(Apply(sent, Consume), Consume)
  }

  lemma InsertIntoNone(m: Message)
    ensures Insert([], m) == [m]
  {}

  /** Such a state is reached from the start when a message is sent, the consumer wakes up, and the list is
      cleared before its look. */
  lemma ClearedBehindWakeUp(clock: int, mType: int, delayMs: int)
    ensures var sent := Apply(Apply(Init(clock), Stamp(mType, delayMs)), Enqueue);
            var s := Apply(Apply(sent, Consume), Clear);
            s.consumer == Look && s.lock == Free && s.queue == [] && |s.sent| == 1 && s.handled == []
  {
    hide Insert;
    InsertIntoNone(Message(0, mType, delayMs, clock + delayMs));
  }
}
