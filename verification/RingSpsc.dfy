/**
 The bounded ring queue with one producer thread and one consumer thread. Each call first marks its
 thread, then takes the single-producer/single-consumer path if both peers are known and the
 compare-exchange path otherwise, so that the two paths mix freely in one run.
 */
module RingSpsc {
  import opened BoundedFifo
  import opened Options
  import opened RingTickets

  /** The slots, and the history no step reads: the values published and the values moved out. */
  datatype Ring = Ring(
    cap: nat,
    sequence: seq<nat>,
    storage: seq<Option<Value>>,
    sent: seq<Value>,
    got: seq<Value>)

  datatype Memory = Memory(ring: Ring, head: nat, tail: nat, producerKnown: bool, consumerKnown: bool)

  datatype Producer =
    | PIdle
    | PMarked(v: Value)
    | PReady(v: Value, fast: bool)
    | PHead(v: Value, h: nat, fast: bool)
    | PSequence(v: Value, h: nat, q: nat, fast: bool)
    | POwner(v: Value, h: nat)               // compare-exchange path: head already advanced
    | PBuilt(v: Value, h: nat, fast: bool)
    | PPublished(h: nat)                     // fast path: head still to be stored

  datatype Consumer =
    | CIdle
    | CMarked
    | CReady(fast: bool)
    | CTail(t: nat, fast: bool)
    | CSequence(t: nat, q: nat, fast: bool)
    | COwner(t: nat)                         // compare-exchange path: tail already advanced
    | CMoved(t: nat, x: Value, fast: bool)
    | CReleased(t: nat)                      // fast path: tail still to be stored

  datatype State = State(m: Memory, p: Producer, c: Consumer)

  datatype Event = Produce(v: Value, spurious: bool) | Consume(spurious: bool)

  predicate Shaped(r: Ring) {
    2 <= r.cap && |r.sequence| == |r.storage| == r.cap
  }

  function Init(cap: nat): (s: State)
    requires 2 <= cap
    ensures Shaped(s.m.ring)
  {
    var ring := Ring(cap, seq(cap, i requires 0 <= i => i), seq(cap, _ => None), [], []);
    State(Memory(ring, 0, 0, false, false), PIdle, CIdle)
  }

  function Construct(r: Ring, h: nat, v: Value): Ring
    requires Shaped(r)
  {
    r.(storage := r.storage[Slot(h, r.cap) := Some(v)])
  }

  function Publish(r: Ring, h: nat, v: Value): Ring
    requires Shaped(r)
  {
    r.(sequence := r.sequence[Slot(h, r.cap) := h + 1], sent := r.sent + [v])
  }

  function MoveOut(r: Ring, t: nat, x: Value): Ring
    requires Shaped(r)
  {
    r.(storage := r.storage[Slot(t, r.cap) := None], got := r.got + [x])
  }

  function Release(r: Ring, t: nat): Ring
    requires Shaped(r)
  {
    r.(sequence := r.sequence[Slot(t, r.cap) := t + r.cap])
  }

  function Load(r: Ring, k: nat): nat
    requires Shaped(r)
  {
    r.sequence[Slot(k, r.cap)]
  }

  function StepProducer(m: Memory, p: Producer, v: Value, spurious: bool): (r: (Memory, Producer))
    requires Shaped(m.ring)
    ensures Shaped(r.0.ring)
  {
    match p
    case PIdle => (m.(producerKnown := true), PMarked(v))
    case PMarked(w) => (m, PReady(w, m.producerKnown && m.consumerKnown))
    case PReady(w, fast) => (m, PHead(w, m.head, fast))
    case PHead(w, h, fast) => (m, PSequence(w, h, Load(m.ring, h), fast))
    case PSequence(w, h, q, true) =>
      if q != h then (m, PIdle) else (m.(ring := Construct(m.ring, h, w)), PBuilt(w, h, true))
    case PSequence(w, h, q, false) =>
      if q < h then (m, PIdle)
      else if q == h && m.head == h && !spurious then (m.(head := h + 1), POwner(w, h))
      else (m, PHead(w, m.head, false))
    case POwner(w, h) => (m.(ring := Construct(m.ring, h, w)), PBuilt(w, h, false))
    case PBuilt(w, h, fast) => (m.(ring := Publish(m.ring, h, w)), if fast then PPublished(h) else PIdle)
    case PPublished(h) => (m.(head := h + 1), PIdle)
  }

  function StepConsumer(m: Memory, c: Consumer, spurious: bool): (r: (Memory, Consumer))
    requires Shaped(m.ring)
    ensures Shaped(r.0.ring)
  {
    match c
    case CIdle => (m.(consumerKnown := true), CMarked)
    case CMarked => (m, CReady(m.producerKnown && m.consumerKnown))
    case CReady(fast) => (m, CTail(m.tail, fast))
    case CTail(t, fast) => (m, CSequence(t, Load(m.ring, t), fast))
    case CSequence(t, q, true) => if q != t + 1 then (m, CIdle) else Take(m, c, t, true)
    case CSequence(t, q, false) =>
      if q < t + 1 then (m, CIdle)
      else if q == t + 1 && m.tail == t && !spurious then (m.(tail := t + 1), COwner(t))
      else (m, CTail(m.tail, false))
    case COwner(t) => Take(m, c, t, false)
    case CMoved(t, x, fast) => (m.(ring := Release(m.ring, t)), if fast then CReleased(t) else CIdle)
    case CReleased(t) => (m.(tail := t + 1), CIdle)
  }

  function Take(m: Memory, c: Consumer, t: nat, fast: bool): (r: (Memory, Consumer))
    requires Shaped(m.ring)
    ensures Shaped(r.0.ring)
  {
    match m.ring.storage[Slot(t, m.ring.cap)]
    case Some(x) => (m.(ring := MoveOut(m.ring, t, x)), CMoved(t, x, fast))
    case None => (m, c) // would read raw storage; ConsumerKeeps shows it never happens
  }

  function Step(s: State, e: Event): (s': State)
    requires Shaped(s.m.ring)
    ensures Shaped(s'.m.ring)
  {
    match e
    case Produce(v, spurious) =>
      var (m, p) := StepProducer(s.m, s.p, v, spurious);
      State(m, p, s.c)
    case Consume(spurious) =>
      var (m, c) := StepConsumer(s.m, s.c, spurious);
      State(m, s.p, c)
  }

  function Run(s: State, events: seq<Event>): (s': State)
    requires Shaped(s.m.ring)
    ensures Shaped(s'.m.ring)
  {
    if events == [] then s
    else Step(Run(s, events[..|events| - 1]), events[|events| - 1])
  }

  // ----- The invariant -----

  /** Slots released so far: a value moved out still occupies its slot. */
  function Released(r: Ring, c: Consumer): int {
    if c.CMoved? then |r.got| - 1 else |r.got|
  }

  function Building(p: Producer): Option<Value> {
    if p.PBuilt? then Some(p.v) else None
  }

  /** All slots, by the ticket they serve: those from `released` on, one lap. */
  ghost predicate SlotsOk(r: Ring, released: int, building: Option<Value>)
    requires Shaped(r)
  {
    && 0 <= released <= |r.got| <= |r.sent| <= released + r.cap
    && (building.Some? ==> |r.sent| < released + r.cap)
    && r.got == r.sent[..|r.got|]
    && (forall k: nat :: released <= k < released + r.cap ==>
          r.sequence[Slot(k, r.cap)] == if k < |r.sent| then k + 1 else k)
    && (forall k: nat :: released <= k < released + r.cap ==>
          r.storage[Slot(k, r.cap)] ==
          if |r.got| <= k < |r.sent| then Some(r.sent[k])
          else if k == |r.sent| then building
          else None)
  }

  ghost predicate ProducerOk(m: Memory, p: Producer, released: int) {
    var sent := |m.ring.sent|;
    match p
    case PHead(_, h, _) => m.head == h == sent
    case PSequence(_, h, q, _) => m.head == h == sent && (q == h ==> sent < released + m.ring.cap)
    case POwner(_, h) => m.head - 1 == h == sent < released + m.ring.cap
    case PBuilt(_, h, fast) => h == sent < released + m.ring.cap && m.head == if fast then h else h + 1
    case PPublished(h) => m.head == h == sent - 1
    case _ => m.head == sent
  }

  ghost predicate ConsumerOk(m: Memory, c: Consumer) {
    var sent, got := m.ring.sent, |m.ring.got|;
    match c
    case CTail(t, _) => m.tail == t == got
    case CSequence(t, q, _) => m.tail == t == got && (q == t + 1 ==> got < |sent|)
    case COwner(t) => m.tail - 1 == t == got < |sent|
    case CMoved(t, x, fast) => t == got - 1 < |sent| && x == sent[t] && m.tail == if fast then t else t + 1
    case CReleased(t) => m.tail == t == got - 1
    case _ => m.tail == got
  }

  ghost predicate Inv(s: State) {
    && Shaped(s.m.ring)
    && SlotsOk(s.m.ring, Released(s.m.ring, s.c), Building(s.p))
    && ProducerOk(s.m, s.p, Released(s.m.ring, s.c))
    && ConsumerOk(s.m, s.c)
  }

  lemma InitInv(cap: nat)
    requires 2 <= cap
    ensures Inv(Init(cap))
  {
  }

  /** Within one lap, tickets other than j use slots other than j's. */
  lemma OtherSlots(j: nat, lo: int, cap: nat)
    requires 2 <= cap && 0 <= lo <= j < lo + cap
    ensures forall k: nat :: lo <= k < lo + cap && k != j ==> Slot(k, cap) != Slot(j, cap)
  {
    forall k: nat | lo <= k < lo + cap && k != j
      ensures Slot(k, cap) != Slot(j, cap)
    {
      if Slot(k, cap) == Slot(j, cap) {
        SameSlotSameTicket(k, j, cap);
      }
    }
  }

  /** The sequence that the producer loads tells exactly whether the next slot is free. */
  lemma NextSlot(r: Ring, released: int, building: Option<Value>)
    requires Shaped(r) && SlotsOk(r, released, building)
    ensures Load(r, |r.sent|) == |r.sent| <==> |r.sent| < released + r.cap
    ensures Load(r, |r.sent|) <= |r.sent|
  {
    if |r.sent| == released + r.cap {
      NextLap(released, r.cap);
    }
  }

  /** The sequence that the consumer loads tells exactly whether a value is there. */
  lemma NextValue(r: Ring, building: Option<Value>)
    requires Shaped(r) && SlotsOk(r, |r.got|, building)
    ensures Load(r, |r.got|) == |r.got| + 1 <==> |r.got| < |r.sent|
    ensures Load(r, |r.got|) <= |r.got| + 1
  {
  }

  lemma ConstructKeeps(r: Ring, released: int, v: Value)
    requires Shaped(r) && SlotsOk(r, released, None) && |r.sent| < released + r.cap
    ensures SlotsOk(Construct(r, |r.sent|, v), released, Some(v))
  {
    OtherSlots(|r.sent|, released, r.cap);
  }

  lemma PublishKeeps(r: Ring, released: int, v: Value)
    requires Shaped(r) && SlotsOk(r, released, Some(v))
    ensures SlotsOk(Publish(r, |r.sent|, v), released, None)
  {
    OtherSlots(|r.sent|, released, r.cap);
  }

  lemma MoveOutKeeps(r: Ring, building: Option<Value>)
    requires Shaped(r) && SlotsOk(r, |r.got|, building) && |r.got| < |r.sent|
    ensures r.storage[Slot(|r.got|, r.cap)] == Some(r.sent[|r.got|])
    ensures SlotsOk(MoveOut(r, |r.got|, r.sent[|r.got|]), |r.got|, building)
  {
    OtherSlots(|r.got|, |r.got|, r.cap);
  }

  lemma ReleaseKeeps(r: Ring, t: nat, building: Option<Value>)
    requires Shaped(r) && SlotsOk(r, t, building) && t + 1 == |r.got|
    ensures SlotsOk(Release(r, t), t + 1, building)
  {
    OtherSlots(t, t, r.cap);
    NextLap(t, r.cap);
    assert r.storage[Slot(t, r.cap)] == None;
  }

  /** The producer's step keeps the slots and its own facts, and touches nothing of the consumer's. */
  lemma ProducerKeeps(m: Memory, p: Producer, released: int, v: Value, spurious: bool)
    requires Shaped(m.ring) && SlotsOk(m.ring, released, Building(p)) && ProducerOk(m, p, released)
    ensures var (m', p') := StepProducer(m, p, v, spurious);
            && SlotsOk(m'.ring, released, Building(p')) && ProducerOk(m', p', released)
            && m'.tail == m.tail && m'.ring.got == m.ring.got && m.ring.sent <= m'.ring.sent
  {
    hide SlotsOk;
    match p
    case PHead(_, h, _) => NextSlot(m.ring, released, None);
    case PSequence(w, h, q, true) =>
      if q == h {
        ConstructKeeps(m.ring, released, w);
      }
    case POwner(w, h) => ConstructKeeps(m.ring, released, w);
    case PBuilt(w, h, fast) => PublishKeeps(m.ring, released, w);
    case _ =>
  }

  lemma TakeKeeps(m: Memory, c: Consumer, t: nat, fast: bool, building: Option<Value>)
    requires Shaped(m.ring) && SlotsOk(m.ring, |m.ring.got|, building) && t == |m.ring.got| < |m.ring.sent|
    requires m.tail == if fast then t else t + 1
    ensures var (m', c') := Take(m, c, t, fast);
            && c' == CMoved(t, m.ring.sent[t], fast) && m' == m.(ring := MoveOut(m.ring, t, m.ring.sent[t]))
            && SlotsOk(m'.ring, t, building) && ConsumerOk(m', c')
  {
    MoveOutKeeps(m.ring, building);
  }

  /** The consumer's step keeps the slots and its own facts, and touches nothing of the producer's. */
  lemma ConsumerKeeps(m: Memory, c: Consumer, building: Option<Value>, spurious: bool)
    requires Shaped(m.ring) && SlotsOk(m.ring, Released(m.ring, c), building) && ConsumerOk(m, c)
    ensures var (m', c') := StepConsumer(m, c, spurious);
            && SlotsOk(m'.ring, Released(m'.ring, c'), building) && ConsumerOk(m', c')
            && m'.head == m.head && m'.ring.sent == m.ring.sent && m'.ring.cap == m.ring.cap
            && Released(m.ring, c) <= Released(m'.ring, c')
  {
    hide SlotsOk, Take;
    match c
    case CTail(t, _) => NextValue(m.ring, building);
    case CSequence(t, q, true) =>
      if q == t + 1 {
        TakeKeeps(m, c, t, true, building);
      }
    case COwner(t) => TakeKeeps(m, c, t, false, building);
    case CMoved(t, x, fast) => ReleaseKeeps(m.ring, t, building);
    case _ =>
  }

  lemma StepKeepsInv(s: State, e: Event)
    requires Inv(s)
    ensures Inv(Step(s, e))
  {
    hide SlotsOk, StepProducer, StepConsumer;
    match e
    case Produce(v, spurious) => ProducerKeeps(s.m, s.p, Released(s.m.ring, s.c), v, spurious);
    case Consume(spurious) => ConsumerKeeps(s.m, s.c, Building(s.p), spurious);
  }

  lemma {:induction false} RunKeepsInv(cap: nat, events: seq<Event>)
    requires 2 <= cap
    ensures Inv(Run(Init(cap), events))
  {
    InitInv(cap);
    if events != [] {
      RunKeepsInv(cap, events[..|events| - 1]);
      StepKeepsInv(Run(Init(cap), events[..|events| - 1]), events[|events| - 1]);
    }
  }

  // ----- Refinement of a bounded FIFO -----

  function Contents(r: Ring): seq<Value>
    requires |r.got| <= |r.sent|
  {
    r.sent[|r.got|..]
  }

  /** A push takes effect when its sequence is published, a pop when the value is moved out. */
  function Effect(s: State, e: Event): Option<Op>
    requires Shaped(s.m.ring)
  {
    match e
    case Produce(_, _) => if s.p.PBuilt? then Some(Enqueue(s.p.v)) else None
    case Consume(spurious) =>
      var c := StepConsumer(s.m, s.c, spurious).1;
      if c.CMoved? && !s.c.CMoved? then Some(Dequeue(c.x)) else None
  }

  function History(s: State, events: seq<Event>): seq<Op>
    requires Shaped(s.m.ring)
  {
    if events == [] then []
    else
      var n := |events| - 1;
      match Effect(Run(s, events[..n]), events[n])
      case None => History(s, events[..n])
      case Some(op) => History(s, events[..n]) + [op]
  }

  lemma SlotBounds(r: Ring, released: int, building: Option<Value>)
    requires Shaped(r) && SlotsOk(r, released, building)
    ensures 0 <= released <= |r.got| <= |r.sent| <= released + r.cap
    ensures building.Some? ==> |r.sent| < released + r.cap
  {
  }

  lemma ProducerEffect(m: Memory, p: Producer, v: Value, spurious: bool)
    requires Shaped(m.ring)
    ensures var r := StepProducer(m, p, v, spurious).0.ring;
            && r.cap == m.ring.cap && r.got == m.ring.got
            && r.sent == if p.PBuilt? then m.ring.sent + [p.v] else m.ring.sent
  {
  }

  lemma ConsumerEffect(m: Memory, c: Consumer, spurious: bool)
    requires Shaped(m.ring)
    ensures var (m', c') := StepConsumer(m, c, spurious);
            && m'.ring.cap == m.ring.cap && m'.ring.sent == m.ring.sent
            && m'.ring.got == if c'.CMoved? && !c.CMoved? then m.ring.got + [c'.x] else m.ring.got
  {
  }

  /** A push appends its value, a pop removes the first, and no other step changes the contents. */
  lemma EffectOnContents(s: State, e: Event)
    requires Inv(s)
    ensures Inv(Step(s, e))
    ensures var q, q' := Contents(s.m.ring), Contents(Step(s, e).m.ring);
            match Effect(s, e) {
              case None => q' == q
              case Some(Enqueue(v)) => |q| < s.m.ring.cap && q' == q + [v]
              case Some(Dequeue(x)) => q != [] && q[0] == x && q' == q[1..]
            }
  {
    hide SlotsOk, ProducerOk, StepProducer, StepConsumer;
    StepKeepsInv(s, e);
    SlotBounds(s.m.ring, Released(s.m.ring, s.c), Building(s.p));
    var s' := Step(s, e);
    SlotBounds(s'.m.ring, Released(s'.m.ring, s'.c), Building(s'.p));
    match e
    case Produce(v, spurious) => ProducerEffect(s.m, s.p, v, spurious);
    case Consume(spurious) => ConsumerEffect(s.m, s.c, spurious);
  }

  lemma {:induction false} CapacityKept(s: State, events: seq<Event>)
    requires Shaped(s.m.ring)
    ensures Run(s, events).m.ring.cap == s.m.ring.cap
  {
    hide StepProducer, StepConsumer;
    if events != [] {
      var before, last := events[..|events| - 1], events[|events| - 1];
      CapacityKept(s, before);
      match last
      case Produce(v, spurious) => ProducerEffect(Run(s, before).m, Run(s, before).p, v, spurious);
      case Consume(spurious) => ConsumerEffect(Run(s, before).m, Run(s, before).c, spurious);
    }
  }

  /** Every mix of the two paths is linearizable: publishing and moving out, in the order in which
      they happen, are a legal history of the bounded FIFO and leave exactly the queue's contents. */
  lemma {:induction false} RunRefinesFifo(cap: nat, events: seq<Event>)
    requires 2 <= cap
    ensures |Run(Init(cap), events).m.ring.got| <= |Run(Init(cap), events).m.ring.sent|
    ensures Fifo(History(Init(cap), events), cap) == Some(Contents(Run(Init(cap), events).m.ring))
  {
    RunKeepsInv(cap, events);
    if events != [] {
      var before, last := events[..|events| - 1], events[|events| - 1];
      RunRefinesFifo(cap, before);
      RunKeepsInv(cap, before);
      var s := Run(Init(cap), before);
      CapacityKept(Init(cap), before);
      EffectOnContents(s, last);
      if Effect(s, last).Some? {
        FifoSnoc(History(Init(cap), before), Effect(s, last).value, cap);
      }
    }
  }

  /** What the consumer got, followed by what is queued, is what the producer sent. */
  lemma NothingIsLost(cap: nat, events: seq<Event>)
    requires 2 <= cap
    ensures var r := Run(Init(cap), events).m.ring;
            |r.got| <= |r.sent| && r.sent == r.got + Contents(r) && |Contents(r)| <= r.cap
  {
    RunKeepsInv(cap, events);
  }

  /** The counters drift from the true counts by at most one: on the fast path a value can be
      consumed before the producer has stored the head, so the tail can lead the head by one. */
  lemma CountersDrift(s: State)
    requires Inv(s)
    ensures |s.m.ring.sent| - 1 <= s.m.head <= |s.m.ring.sent| + 1
    ensures |s.m.ring.got| - 1 <= s.m.tail <= |s.m.ring.got| + 1
    ensures s.m.tail <= s.m.head + 1
    ensures s.m.tail == s.m.head + 1 ==> s.p.PPublished? && |Contents(s.m.ring)| <= 1
  {
  }

  /** A verdict is justified when the sequence was loaded. "Full": cap slots were taken, where a
      value already moved out may still hold its slot. "Empty": there was no value at all. */
  lemma VerdictsAreJustified(s: State)
    requires Inv(s)
    ensures s.p.PHead? ==>
              (Load(s.m.ring, s.p.h) != s.p.h <==>
               |Contents(s.m.ring)| == if s.c.CMoved? then s.m.ring.cap - 1 else s.m.ring.cap)
    ensures s.c.CTail? ==> (Load(s.m.ring, s.c.t) != s.c.t + 1 <==> Contents(s.m.ring) == [])
  {
    NextSlot(s.m.ring, Released(s.m.ring, s.c), Building(s.p));
    if s.c.CTail? {
      NextValue(s.m.ring, Building(s.p));
    }
  }

  // ----- The verdict that a call returns -----

  lemma RunSnoc(s: State, events: seq<Event>, i: nat)
    requires Shaped(s.m.ring) && i < |events|
    ensures Run(s, events[..i + 1]) == Step(Run(s, events[..i]), events[i])
  {
    assert events[..i + 1][..i] == events[..i];
  }

  predicate Moves(e: Event, consumer: bool) {
    e.Consume? == consumer
  }

  /** The last step of one of the two threads before the n-th event, and where it stands since. */
  lemma {:induction false} LastStep(s: State, events: seq<Event>, n: nat, consumer: bool) returns (k: nat)
    requires Shaped(s.m.ring) && n <= |events|
    requires if consumer then Run(s, events[..n]).c != s.c else Run(s, events[..n]).p != s.p
    ensures k < n && Moves(events[k], consumer) && forall i :: k < i < n ==> !Moves(events[i], consumer)
    ensures var now, then' := Run(s, events[..n]), Run(s, events[..k + 1]);
            if consumer then now.c == then'.c else now.p == then'.p
  {
    hide StepProducer, StepConsumer;
    assert events[..0] == [];
    if n > 0 && Moves(events[n - 1], consumer) {
      k := n - 1;
    } else {
      if n > 0 {
        RunSnoc(s, events, n - 1);
      }
      k := LastStep(s, events, n - 1, consumer);
    }
  }

  lemma ConsumerLoaded(m: Memory, c: Consumer, building: Option<Value>, spurious: bool)
    requires Shaped(m.ring) && SlotsOk(m.ring, Released(m.ring, c), building) && ConsumerOk(m, c)
    ensures var c' := StepConsumer(m, c, spurious).1;
            c'.CSequence? ==> c == CTail(c'.t, c'.fast) && c'.q == Load(m.ring, c'.t)
    ensures c.CSequence? && StepConsumer(m, c, spurious).1 == CIdle ==> c.q != c.t + 1
  {
    hide Load, SlotsOk, Take;
    if c.CSequence? && c.fast && c.q == c.t + 1 {
      TakeKeeps(m, c, c.t, true, building);
    } else if c.COwner? {
      TakeKeeps(m, c, c.t, false, building);
    }
  }

  lemma ProducerLoaded(m: Memory, p: Producer, v: Value, spurious: bool)
    requires Shaped(m.ring)
    ensures var p' := StepProducer(m, p, v, spurious).1;
            p'.PSequence? ==> p == PHead(p'.v, p'.h, p'.fast) && p'.q == Load(m.ring, p'.h)
    ensures p.PSequence? && StepProducer(m, p, v, spurious).1 == PIdle ==> p.q != p.h
  {
    hide Load;
  }

  /** In every run a pop that returns "empty" loaded its verdict when there was no value at all. */
  lemma EmptyIsTrue(cap: nat, events: seq<Event>, n: nat) returns (load: nat)
    requires 2 <= cap && n < |events| && events[n].Consume?
    requires Run(Init(cap), events[..n]).c.CSequence? && Run(Init(cap), events[..n + 1]).c == CIdle
    ensures load < n && events[load].Consume? && forall i :: load < i < n ==> !events[i].Consume?
    ensures var r := Run(Init(cap), events[..load]).m.ring; |r.got| <= |r.sent| && Contents(r) == []
  {
    hide StepProducer, StepConsumer, Load, SlotsOk;
    var before := Run(Init(cap), events[..n]);
    load := LastStep(Init(cap), events, n, true);
    var s := Run(Init(cap), events[..load]);
    RunSnoc(Init(cap), events, load);
    RunSnoc(Init(cap), events, n);
    RunKeepsInv(cap, events[..load]);
    RunKeepsInv(cap, events[..n]);
    ConsumerLoaded(s.m, s.c, Building(s.p), events[load].spurious);
    ConsumerLoaded(before.m, before.c, Building(before.p), events[n].spurious);
    SlotBounds(s.m.ring, Released(s.m.ring, s.c), Building(s.p));
    VerdictsAreJustified(s);
  }

  /** In every run a push that returns "full" loaded its verdict when all slots were taken. */
  lemma FullIsTrue(cap: nat, events: seq<Event>, n: nat) returns (load: nat)
    requires 2 <= cap && n < |events| && events[n].Produce?
    requires Run(Init(cap), events[..n]).p.PSequence? && Run(Init(cap), events[..n + 1]).p == PIdle
    ensures load < n && events[load].Produce? && forall i :: load < i < n ==> !events[i].Produce?
    ensures var s := Run(Init(cap), events[..load]);
            && |s.m.ring.got| <= |s.m.ring.sent|
            && |Contents(s.m.ring)| + (if s.c.CMoved? then 1 else 0) == cap
  {
    hide StepProducer, StepConsumer, Load, SlotsOk;
    var before := Run(Init(cap), events[..n]);
    load := LastStep(Init(cap), events, n, false);
    var s := Run(Init(cap), events[..load]);
    RunSnoc(Init(cap), events, load);
    RunSnoc(Init(cap), events, n);
    ProducerLoaded(s.m, s.p, events[load].v, events[load].spurious);
    ProducerLoaded(before.m, before.p, events[n].v, events[n].spurious);
    RunKeepsInv(cap, events[..load]);
    CapacityKept(Init(cap), events[..load]);
    SlotBounds(s.m.ring, Released(s.m.ring, s.c), Building(s.p));
    VerdictsAreJustified(s);
  }

  // ----- A call that runs alone -----

  /** The same event n times: one thread takes steps, and the other does not. */
  function Alone(s: State, e: Event, n: nat): (s': State)
    requires Shaped(s.m.ring)
    ensures Shaped(s'.m.ring)
  {
    if n == 0 then s else Step(Alone(s, e, n - 1), e)
  }

  lemma {:induction false} AloneIsRun(s: State, e: Event, n: nat)
    requires Shaped(s.m.ring)
    ensures Alone(s, e, n) == Run(s, seq(n, _ => e))
  {
    hide Step;
    if n > 0 {
      AloneIsRun(s, e, n - 1);
      assert seq(n, _ => e)[..n - 1] == seq(n - 1, _ => e);
    }
  }

  lemma AloneMore(s: State, e: Event, n: nat)
    requires Shaped(s.m.ring)
    ensures Alone(s, e, n + 1) == Step(Alone(s, e, n), e)
  {
  }

  /** The first four accesses of a pop load the tail and its slot's sequence. */
  lemma ConsumeStart(s: State)
    requires Shaped(s.m.ring) && s.c == CIdle
    ensures var m, fast := s.m.(consumerKnown := true), s.m.producerKnown;
            Alone(s, Consume(false), 4) == s.(m := m, c := CSequence(m.tail, Load(m.ring, m.tail), fast))
  {
    var e := Consume(false);
    hide Load;
    AloneMore(s, e, 0);
    AloneMore(s, e, 1);
    AloneMore(s, e, 2);
    AloneMore(s, e, 3);
    hide Alone;
  }

  /** The last three, on either path, when there is a value. */
  lemma ConsumeEnd(s: State, fast: bool)
    requires Shaped(s.m.ring) && SlotsOk(s.m.ring, |s.m.ring.got|, Building(s.p)) && |s.m.ring.got| < |s.m.ring.sent|
    requires s.m.tail == |s.m.ring.got| && s.c == CSequence(s.m.tail, s.m.tail + 1, fast)
    ensures var t, r := s.m.tail, s.m.ring;
            Alone(s, Consume(false), 3) ==
            s.(m := s.m.(ring := Release(MoveOut(r, t, r.sent[t]), t), tail := t + 1), c := CIdle)
  {
    hide Alone, Step, SlotsOk, Release, MoveOut;
    AloneThree(s, Consume(false));
    MoveOutKeeps(s.m.ring, Building(s.p));
    TakeSteps(s, fast);
  }

  lemma AloneThree(s: State, e: Event)
    requires Shaped(s.m.ring)
    ensures Alone(s, e, 3) == Step(Step(Step(s, e), e), e)
  {
    hide Step;
    AloneMore(s, e, 0);
    AloneMore(s, e, 1);
    AloneMore(s, e, 2);
  }

  lemma TakeSteps(s: State, fast: bool)
    requires var t, r := s.m.tail, s.m.ring;
             && Shaped(r) && t < |r.sent| && r.storage[Slot(t, r.cap)] == Some(r.sent[t])
             && s.c == CSequence(t, t + 1, fast)
    ensures var t, r, e := s.m.tail, s.m.ring, Consume(false);
            Step(Step(Step(s, e), e), e) ==
            s.(m := s.m.(ring := Release(MoveOut(r, t, r.sent[t]), t), tail := t + 1), c := CIdle)
  {
    hide Release, Load;
    var t, r, e := s.m.tail, s.m.ring, Consume(false);
    var x, out := r.sent[t], MoveOut(r, t, r.sent[t]);
    if fast {
      assert Step(s, e) == s.(m := s.m.(ring := out), c := CMoved(t, x, true));
      hide MoveOut;
      assert Step(Step(s, e), e) == s.(m := s.m.(ring := Release(out, t)), c := CReleased(t));
    } else {
      assert Step(s, e) == s.(m := s.m.(tail := t + 1), c := COwner(t));
      assert Step(Step(s, e), e) == s.(m := s.m.(ring := out, tail := t + 1), c := CMoved(t, x, false));
    }
  }

  lemma {:induction false} AloneAdd(s: State, e: Event, a: nat, b: nat)
    requires Shaped(s.m.ring)
    ensures Alone(s, e, a + b) == Alone(Alone(s, e, a), e, b)
  {
    hide Step;
    if b > 0 {
      AloneAdd(s, e, a, b - 1);
      assert a + b - 1 == a + (b - 1);
    }
  }

  /** On either path, a pop that runs alone takes out the oldest value if there is one, and otherwise
      returns "empty" and leaves the ring as it was. */
  lemma PopAlone(s: State)
    requires Inv(s) && s.c == CIdle
    ensures var taken := Alone(s, Consume(false), 7);
            if Contents(s.m.ring) == []
            then Alone(s, Consume(false), 5).c == CIdle && Alone(s, Consume(false), 5).m.ring == s.m.ring
            else taken.c == CIdle && |taken.m.ring.got| <= |taken.m.ring.sent|
                 && taken.m.ring.got == s.m.ring.got + [Contents(s.m.ring)[0]]
                 && Contents(taken.m.ring) == Contents(s.m.ring)[1..]
  {
    hide Alone, Step, Load, SlotsOk, MoveOut, Release;
    var e, r := Consume(false), s.m.ring;
    NextValue(r, Building(s.p));
    SlotBounds(r, |r.got|, Building(s.p));
    ConsumeStart(s);
    var loaded := Alone(s, e, 4);
    if Contents(r) == [] {
      AloneMore(s, e, 4);
      ConsumeNothing(loaded);
    } else {
      AloneAdd(s, e, 4, 3);
      ConsumeEnd(loaded, s.m.producerKnown);
      TakenOut(r, |r.got|);
    }
  }

  lemma ConsumeNothing(s: State)
    requires Shaped(s.m.ring) && s.c.CSequence? && s.c.q < s.c.t + 1
    ensures Step(s, Consume(false)) == s.(c := CIdle)
  {
  }

  lemma TakenOut(r: Ring, t: nat)
    requires Shaped(r) && t == |r.got| < |r.sent|
    ensures var r' := Release(MoveOut(r, t, r.sent[t]), t);
            && r'.sent == r.sent && r'.got == r.got + [r.sent[t]] && Contents(r)[0] == r.sent[t]
            && Contents(r') == Contents(r)[1..]
  {
  }

  lemma ProduceStart(s: State, v: Value)
    requires Shaped(s.m.ring) && s.p == PIdle
    ensures var m, fast := s.m.(producerKnown := true), s.m.consumerKnown;
            Alone(s, Produce(v, false), 4) == s.(m := m, p := PSequence(v, m.head, Load(m.ring, m.head), fast))
  {
    var e := Produce(v, false);
    hide Load;
    AloneMore(s, e, 0);
    AloneMore(s, e, 1);
    AloneMore(s, e, 2);
    AloneMore(s, e, 3);
    hide Alone;
  }

  lemma ProduceEnd(s: State, v: Value, fast: bool)
    requires Shaped(s.m.ring) && s.p == PSequence(v, s.m.head, s.m.head, fast)
    ensures var h, r := s.m.head, s.m.ring;
            Alone(s, Produce(v, false), 3) ==
            s.(m := s.m.(ring := Publish(Construct(r, h, v), h, v), head := h + 1), p := PIdle)
  {
    var e := Produce(v, false);
    hide Construct, Publish;
    AloneMore(s, e, 0);
    AloneMore(s, e, 1);
    AloneMore(s, e, 2);
    hide Alone;
  }

  /** On either path, a push that runs alone appends its value if a slot is free, and otherwise returns
      "full" and leaves the ring as it was. A value being moved out still holds its slot. */
  lemma PushAlone(s: State, v: Value)
    requires Inv(s) && s.p == PIdle
    ensures var taken := |Contents(s.m.ring)| + if s.c.CMoved? then 1 else 0;
            if taken == s.m.ring.cap
            then Alone(s, Produce(v, false), 5).p == PIdle && Alone(s, Produce(v, false), 5).m.ring == s.m.ring
            else var s' := Alone(s, Produce(v, false), 7);
                 && taken < s.m.ring.cap && s'.p == PIdle && |s'.m.ring.got| <= |s'.m.ring.sent|
                 && s'.m.ring.got == s.m.ring.got && Contents(s'.m.ring) == Contents(s.m.ring) + [v]
  {
    hide Alone, Step, Load, SlotsOk, Construct, Publish;
    var e, r := Produce(v, false), s.m.ring;
    NextSlot(r, Released(r, s.c), Building(s.p));
    SlotBounds(r, Released(r, s.c), Building(s.p));
    ProduceStart(s, v);
    var loaded := Alone(s, e, 4);
    if |r.sent| == Released(r, s.c) + r.cap {
      AloneMore(s, e, 4);
      ProduceNothing(loaded, v);
    } else {
      AloneAdd(s, e, 4, 3);
      ProduceEnd(loaded, v, s.m.consumerKnown);
      PutIn(r, s.m.head, v);
    }
  }

  lemma ProduceNothing(s: State, v: Value)
    requires Shaped(s.m.ring) && s.p.PSequence? && s.p.q < s.p.h
    ensures Step(s, Produce(v, false)) == s.(p := PIdle)
  {
  }

  lemma PutIn(r: Ring, h: nat, v: Value)
    requires Shaped(r) && |r.got| <= |r.sent|
    ensures var r' := Publish(Construct(r, h, v), h, v);
            && r'.sent == r.sent + [v] && r'.got == r.got && Contents(r') == Contents(r) + [v]
  {
    assert (r.sent + [v])[|r.got|..] == r.sent[|r.got|..] + [v];
  }

  predicate Marked(s: State) {
    && (s.p != PIdle ==> s.m.producerKnown)
    && (s.c != CIdle ==> s.m.consumerKnown)
    && ((s.p.PReady? || s.p.PHead? || s.p.PSequence? || s.p.PBuilt?) && s.p.fast ==> s.m.consumerKnown)
    && (s.p.PPublished? ==> s.m.consumerKnown)
    && ((s.c.CReady? || s.c.CTail? || s.c.CSequence? || s.c.CMoved?) && s.c.fast ==> s.m.producerKnown)
    && (s.c.CReleased? ==> s.m.producerKnown)
  }

  lemma StepMarked(s: State, e: Event)
    requires Shaped(s.m.ring) && Marked(s)
    ensures Marked(Step(s, e))
  {
    hide Construct, Publish, MoveOut, Release, Load, Slot;
    match e
    case Produce(v, spurious) =>
    case Consume(spurious) =>
  }

  /** The fast path is taken only when both peers are known, and a peer once known stays known. */
  lemma {:induction false} FastPathIsMarked(cap: nat, events: seq<Event>)
    requires 2 <= cap
    ensures Marked(Run(Init(cap), events))
  {
    hide Marked, Step;
    if events == [] {
      NothingMarked(cap);
    } else {
      FastPathIsMarked(cap, events[..|events| - 1]);
      StepMarked(Run(Init(cap), events[..|events| - 1]), events[|events| - 1]);
    }
  }

  lemma NothingMarked(cap: nat)
    requires 2 <= cap
    ensures Marked(Init(cap))
  {
  }
}
