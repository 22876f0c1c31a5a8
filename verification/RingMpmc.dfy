/**
 The multi-producer/multi-consumer path of the bounded ring queue: any number of threads, each
 executing try_push_mpmc or try_pop_mpmc one atomic access at a time, with stale snapshots of the
 head, of the tail and of one slot's sequence number.
 */
module RingMpmc {
  import opened BoundedFifo
  import opened Options
  import opened RingTickets

  /** Shared memory. `turn`, `pushed` and `popped` are history that no step reads: turn[i] is the
      ticket that slot i currently serves, pushed[k] the value ticket k was claimed for, popped[k]
      the value handed to the consumer of ticket k. */
  datatype Memory = Memory(
    cap: nat,
    head: nat,
    tail: nat,
    sequence: seq<nat>,
    storage: seq<Option<Value>>,
    turn: seq<nat>,
    pushed: seq<Value>,
    popped: map<nat, Value>)

  /** Where one thread stands between two atomic accesses. */
  datatype Local =
    | Idle
    | PushHead(v: Value, h: nat)             // head loaded (or reloaded)
    | PushSequence(v: Value, h: nat, q: nat) // the slot's sequence loaded
    | PushOwner(v: Value, h: nat)            // compare-exchange on head won: ticket h is ours
    | PushBuilt(v: Value, h: nat)            // value constructed in the slot's storage
    | PopTail(t: nat)
    | PopSequence(t: nat, q: nat)
    | PopOwner(t: nat)
    | PopMoved(t: nat, x: Value)             // value moved out, storage destroyed

  /** What the environment decides at a step. */
  datatype Choice = Push(v: Value) | Pop | Go | SpuriousFailure

  datatype Event = Event(tid: nat, choice: Choice)

  datatype State = State(m: Memory, threads: map<nat, Local>)

  predicate Shaped(m: Memory) {
    0 < m.cap && |m.sequence| == |m.storage| == |m.turn| == m.cap
  }

  function InitMemory(cap: nat): (m: Memory)
    requires 0 < cap
    ensures Shaped(m)
  {
    Memory(cap, 0, 0, seq(cap, i requires 0 <= i => i), seq(cap, _ => None),
           seq(cap, i requires 0 <= i => i), [], map[])
  }

  function Init(cap: nat, tids: set<nat>): (s: State)
    requires 0 < cap
    ensures Shaped(s.m)
  {
    State(InitMemory(cap), map tid | tid in tids :: Idle)
  }

  // ----- The atomic accesses that change shared memory -----

  function ClaimPush(m: Memory, v: Value): Memory {
    m.(head := m.head + 1, pushed := m.pushed + [v])
  }

  function Construct(m: Memory, h: nat, v: Value): Memory
    requires Shaped(m)
  {
    m.(storage := m.storage[Slot(h, m.cap) := Some(v)])
  }

  function Publish(m: Memory, h: nat): Memory
    requires Shaped(m)
  {
    m.(sequence := m.sequence[Slot(h, m.cap) := h + 1])
  }

  function ClaimPop(m: Memory): Memory {
    m.(tail := m.tail + 1)
  }

  function MoveOut(m: Memory, t: nat, x: Value): Memory
    requires Shaped(m)
  {
    m.(storage := m.storage[Slot(t, m.cap) := None], popped := m.popped[t := x])
  }

  function Release(m: Memory, t: nat): Memory
    requires Shaped(m)
  {
    m.(sequence := m.sequence[Slot(t, m.cap) := t + m.cap], turn := m.turn[Slot(t, m.cap) := t + m.cap])
  }

  /** One atomic step of a thread that stands at `l`. */
  function StepLocal(m: Memory, l: Local, c: Choice): (r: (Memory, Local))
    requires Shaped(m)
    ensures Shaped(r.0) && r.0.cap == m.cap
  {
    match l
    case Idle =>
      (match c
       case Push(v) => (m, PushHead(v, m.head))
       case Pop => (m, PopTail(m.tail))
       case _ => (m, Idle))
    case PushHead(v, h) => (m, PushSequence(v, h, m.sequence[Slot(h, m.cap)]))
    case PushSequence(v, h, q) =>
      if q < h then (m, Idle) // full
      else if q == h && m.head == h && c != SpuriousFailure then (ClaimPush(m, v), PushOwner(v, h))
      else (m, PushHead(v, m.head))
    case PushOwner(v, h) => (Construct(m, h, v), PushBuilt(v, h))
    case PushBuilt(v, h) => (Publish(m, h), Idle)
    case PopTail(t) => (m, PopSequence(t, m.sequence[Slot(t, m.cap)]))
    case PopSequence(t, q) =>
      if q < t + 1 then (m, Idle) // empty
      else if q == t + 1 && m.tail == t && c != SpuriousFailure then (ClaimPop(m), PopOwner(t))
      else (m, PopTail(m.tail))
    case PopOwner(t) =>
      (match m.storage[Slot(t, m.cap)]
       case Some(x) => (MoveOut(m, t, x), PopMoved(t, x))
       case None => (m, l)) // would read raw storage; Safety shows it never happens
    case PopMoved(t, x) => (Release(m, t), Idle)
  }

  function Step(s: State, e: Event): (s': State)
    requires Shaped(s.m) && e.tid in s.threads
    ensures Shaped(s'.m) && s'.m.cap == s.m.cap && s'.threads.Keys == s.threads.Keys
  {
    var (m, l) := StepLocal(s.m, s.threads[e.tid], e.choice);
    State(m, s.threads[e.tid := l])
  }

  predicate Runnable(s: State, events: seq<Event>) {
    forall i :: 0 <= i < |events| ==> events[i].tid in s.threads
  }

  function Run(s: State, events: seq<Event>): (s': State)
    requires Shaped(s.m) && Runnable(s, events)
    ensures Shaped(s'.m) && s'.m.cap == s.m.cap && s'.threads.Keys == s.threads.Keys
  {
    if events == [] then s
    else
      var n := |events| - 1;
      Step(Run(s, events[..n]), events[n])
  }

  // ----- The invariant -----

  predicate Published(m: Memory, i: nat)
    requires Shaped(m) && i < m.cap
  {
    m.sequence[i] == m.turn[i] + 1
  }

  ghost predicate SlotOk(m: Memory, i: nat)
    requires Shaped(m) && i < m.cap && |m.pushed| == m.head
  {
    var k := m.turn[i];
    && Slot(k, m.cap) == i
    && m.head <= k + m.cap
    && k < m.tail + m.cap
    && (Published(m, i) || m.sequence[i] == k)
    && (Published(m, i) ==> k < m.head)
    && (!Published(m, i) ==> m.tail <= k)
    && (Published(m, i) && m.tail <= k ==> m.storage[i] == Some(m.pushed[k]))
    && (!Published(m, i) && m.head <= k ==> m.storage[i] == None)
  }

  ghost predicate MemoryOk(m: Memory) {
    && Shaped(m) && 2 <= m.cap
    && |m.pushed| == m.head
    && m.tail <= m.head <= m.tail + m.cap
    && (forall i :: 0 <= i < m.cap ==> SlotOk(m, i))
    && (forall k :: k in m.popped ==> k < m.tail && m.popped[k] == m.pushed[k])
  }

  /** The ticket that a thread holds exclusively, if any. */
  function Ticket(l: Local): Option<nat> {
    match l
    case PushOwner(_, h) => Some(h)
    case PushBuilt(_, h) => Some(h)
    case PopOwner(t) => Some(t)
    case PopMoved(t, _) => Some(t)
    case _ => None
  }

  ghost predicate LocalOk(m: Memory, l: Local)
    requires Shaped(m) && |m.pushed| == m.head
  {
    match l
    case Idle => true
    case PushHead(v, h) => h <= m.head
    case PushSequence(v, h, q) =>
      h <= m.head && (q == h ==> h <= m.turn[Slot(h, m.cap)])
    case PushOwner(v, h) =>
      var i := Slot(h, m.cap);
      h < m.head && m.pushed[h] == v && m.turn[i] == h && !Published(m, i) && m.storage[i] == None
    case PushBuilt(v, h) =>
      var i := Slot(h, m.cap);
      h < m.head && m.pushed[h] == v && m.turn[i] == h && !Published(m, i) && m.storage[i] == Some(v)
    case PopTail(t) => t <= m.tail
    case PopSequence(t, q) =>
      var i := Slot(t, m.cap);
      t <= m.tail && (q == t + 1 ==> t <= m.turn[i] && (m.turn[i] == t ==> Published(m, i)))
    case PopOwner(t) =>
      var i := Slot(t, m.cap);
      && t < m.tail <= m.head && t !in m.popped
      && m.turn[i] == t && Published(m, i) && m.storage[i] == Some(m.pushed[t])
    case PopMoved(t, x) =>
      var i := Slot(t, m.cap);
      && t < m.tail <= m.head && t in m.popped && m.popped[t] == x && x == m.pushed[t]
      && m.turn[i] == t && Published(m, i) && m.storage[i] == None
  }

  ghost predicate Inv(s: State) {
    && MemoryOk(s.m)
    && (forall tid :: tid in s.threads ==> LocalOk(s.m, s.threads[tid]))
    && (forall a, b :: a in s.threads && b in s.threads && a != b && Ticket(s.threads[a]).Some? ==>
          Ticket(s.threads[a]) != Ticket(s.threads[b]))
  }

  lemma InitInv(cap: nat, tids: set<nat>)
    requires 2 <= cap
    ensures Inv(Init(cap, tids))
  {
  }

  /** The slot of ticket k serves ticket k when its turn is within a lap of k. */
  lemma TurnIs(m: Memory, k: nat)
    requires MemoryOk(m)
    ensures SlotOk(m, Slot(k, m.cap))
    ensures k < m.turn[Slot(k, m.cap)] + m.cap && m.turn[Slot(k, m.cap)] < k + m.cap ==> m.turn[Slot(k, m.cap)] == k
  {
    var i := Slot(k, m.cap);
    assert SlotOk(m, i);
    if k < m.turn[i] + m.cap && m.turn[i] < k + m.cap {
      SameSlotSameTicket(k, m.turn[i], m.cap);
    }
  }

  // ----- What each access does to the memory and to the other threads -----

  lemma ClaimPushKeeps(m: Memory, v: Value)
    requires MemoryOk(m) && m.turn[Slot(m.head, m.cap)] == m.head
    ensures MemoryOk(ClaimPush(m, v))
    ensures m.head < m.tail + m.cap
  {
    var m' := ClaimPush(m, v);
    TurnIs(m, m.head);
    forall j | 0 <= j < m.cap
      ensures SlotOk(m', j)
    {
      assert SlotOk(m, j);
      NextLap(m.turn[j], m.cap);
    }
  }

  lemma ConstructKeeps(m: Memory, h: nat, v: Value)
    requires MemoryOk(m) && LocalOk(m, PushOwner(v, h))
    ensures MemoryOk(Construct(m, h, v))
  {
    var m' := Construct(m, h, v);
    forall j | 0 <= j < m.cap
      ensures SlotOk(m', j)
    {
      assert SlotOk(m, j);
    }
  }

  lemma PublishKeeps(m: Memory, h: nat, v: Value)
    requires MemoryOk(m) && LocalOk(m, PushBuilt(v, h))
    ensures MemoryOk(Publish(m, h))
  {
    var m' := Publish(m, h);
    forall j | 0 <= j < m.cap
      ensures SlotOk(m', j)
    {
      assert SlotOk(m, j);
    }
  }

  lemma ClaimPopKeeps(m: Memory)
    requires MemoryOk(m) && m.turn[Slot(m.tail, m.cap)] == m.tail && Published(m, Slot(m.tail, m.cap))
    ensures MemoryOk(ClaimPop(m))
  {
    var m' := ClaimPop(m);
    TurnIs(m, m.tail);
    forall j | 0 <= j < m.cap
      ensures SlotOk(m', j)
    {
      assert SlotOk(m, j);
    }
  }

  lemma MoveOutKeeps(m: Memory, t: nat)
    requires MemoryOk(m) && LocalOk(m, PopOwner(t))
    ensures MemoryOk(MoveOut(m, t, m.pushed[t]))
  {
    var m' := MoveOut(m, t, m.pushed[t]);
    forall j | 0 <= j < m.cap
      ensures SlotOk(m', j)
    {
      assert SlotOk(m, j);
    }
  }

  lemma ReleaseKeeps(m: Memory, t: nat, x: Value)
    requires MemoryOk(m) && LocalOk(m, PopMoved(t, x))
    ensures MemoryOk(Release(m, t))
  {
    var m' := Release(m, t);
    TurnIs(m, t);
    NextLap(t, m.cap);
    forall j | 0 <= j < m.cap
      ensures SlotOk(m', j)
    {
      assert SlotOk(m, j);
    }
  }

  // Another thread, standing at `l` with a different ticket, is not disturbed.

  lemma ClaimPushFrames(m: Memory, v: Value, l: Local)
    requires MemoryOk(m) && LocalOk(m, l)
    ensures LocalOk(ClaimPush(m, v), l)
    ensures Ticket(l) != Some(m.head)
  {
  }

  lemma ConstructFrames(m: Memory, h: nat, v: Value, l: Local)
    requires MemoryOk(m) && LocalOk(m, PushOwner(v, h)) && LocalOk(m, l) && Ticket(l) != Some(h)
    ensures LocalOk(Construct(m, h, v), l)
  {
  }

  lemma PublishFrames(m: Memory, h: nat, v: Value, l: Local)
    requires MemoryOk(m) && LocalOk(m, PushBuilt(v, h)) && LocalOk(m, l) && Ticket(l) != Some(h)
    ensures LocalOk(Publish(m, h), l)
  {
  }

  lemma ClaimPopFrames(m: Memory, l: Local)
    requires MemoryOk(m) && LocalOk(m, l)
    requires m.turn[Slot(m.tail, m.cap)] == m.tail && Published(m, Slot(m.tail, m.cap))
    ensures LocalOk(ClaimPop(m), l)
    ensures Ticket(l) != Some(m.tail)
  {
    TurnIs(m, m.tail);
  }

  lemma MoveOutFrames(m: Memory, t: nat, l: Local)
    requires MemoryOk(m) && LocalOk(m, PopOwner(t)) && LocalOk(m, l) && Ticket(l) != Some(t)
    ensures LocalOk(MoveOut(m, t, m.pushed[t]), l)
  {
  }

  lemma ReleaseFrames(m: Memory, t: nat, x: Value, l: Local)
    requires MemoryOk(m) && LocalOk(m, PopMoved(t, x)) && LocalOk(m, l) && Ticket(l) != Some(t)
    ensures LocalOk(Release(m, t), l)
  {
    TurnIs(m, t);
  }

  // ----- Every atomic step keeps the invariant -----

  /** A compare-exchange on the head that succeeds finds the slot free. */
  lemma PushReady(m: Memory, v: Value, h: nat, q: nat)
    requires MemoryOk(m) && LocalOk(m, PushSequence(v, h, q)) && q == h && m.head == h
    ensures m.turn[Slot(h, m.cap)] == h
  {
    TurnIs(m, h);
  }

  /** What a producer knows after its step. */
  lemma OwnPush(m: Memory, l: Local, c: Choice)
    requires MemoryOk(m) && LocalOk(m, l) && (l.PushHead? || l.PushSequence? || l.PushOwner? || l.PushBuilt?)
    ensures var (m', l') := StepLocal(m, l, c);
            MemoryOk(m') && LocalOk(m', l')
  {
    match l
    case PushHead(v, h) =>
      TurnIs(m, h);
      NeighboursDiffer(m.turn[Slot(h, m.cap)], m.cap);
      hide SlotOk;
    case PushSequence(v, h, q) =>
      TurnIs(m, h);
      if q == h && m.head == h && c != SpuriousFailure {
        ClaimPushKeeps(m, v);
      }
    case PushOwner(v, h) =>
      ConstructKeeps(m, h, v);
      hide MemoryOk;
    case PushBuilt(v, h) =>
      PublishKeeps(m, h, v);
      hide MemoryOk;
  }

  lemma TailLoaded(m: Memory, t: nat)
    requires MemoryOk(m) && t <= m.tail
    ensures LocalOk(m, PopSequence(t, m.sequence[Slot(t, m.cap)]))
  {
    TurnIs(m, t);
    NeighboursDiffer(t, m.cap);
  }

  /** A compare-exchange on the tail that succeeds finds the slot published. */
  lemma PopReady(m: Memory, t: nat, q: nat)
    requires MemoryOk(m) && LocalOk(m, PopSequence(t, q)) && q == t + 1 && m.tail == t
    ensures m.turn[Slot(t, m.cap)] == t && Published(m, Slot(t, m.cap))
  {
    TurnIs(m, t);
  }

  lemma TailClaimed(m: Memory, t: nat, q: nat)
    requires MemoryOk(m) && LocalOk(m, PopSequence(t, q)) && q == t + 1 && m.tail == t
    ensures MemoryOk(ClaimPop(m)) && LocalOk(ClaimPop(m), PopOwner(t))
  {
    PopReady(m, t, q);
    TurnIs(m, t);
    ClaimPopKeeps(m);
    assert SlotOk(m, Slot(t, m.cap));
    assert t !in m.popped;
    hide SlotOk;
  }

  /** The value a consumer moves out is there. */
  lemma OwnerReady(m: Memory, t: nat)
    requires MemoryOk(m) && LocalOk(m, PopOwner(t))
    ensures t < |m.pushed| && m.storage[Slot(t, m.cap)] == Some(m.pushed[t])
  {
  }

  lemma ValueMoved(m: Memory, t: nat)
    requires MemoryOk(m) && LocalOk(m, PopOwner(t))
    ensures t < |m.pushed| && LocalOk(MoveOut(m, t, m.pushed[t]), PopMoved(t, m.pushed[t]))
  {
    hide SlotOk;
  }

  /** What a consumer knows after its step. */
  lemma OwnPop(m: Memory, l: Local, c: Choice)
    requires MemoryOk(m) && LocalOk(m, l) && (l.PopTail? || l.PopSequence? || l.PopOwner? || l.PopMoved?)
    ensures var (m', l') := StepLocal(m, l, c);
            MemoryOk(m') && LocalOk(m', l')
  {
    hide SlotOk;
    match l
    case PopTail(t) => TailLoaded(m, t);
    case PopSequence(t, q) =>
      if q == t + 1 && m.tail == t && c != SpuriousFailure {
        TailClaimed(m, t, q);
      }
    case PopOwner(t) =>
      OwnerReady(m, t);
      MoveOutKeeps(m, t);
      ValueMoved(m, t);
      hide MemoryOk;
    case PopMoved(t, x) =>
      ReleaseKeeps(m, t, x);
      hide MemoryOk;
  }

  /** What the moving thread itself knows after its step. */
  lemma OwnStep(m: Memory, l: Local, c: Choice)
    requires MemoryOk(m) && LocalOk(m, l)
    ensures var (m', l') := StepLocal(m, l, c);
            MemoryOk(m') && LocalOk(m', l')
  {
    hide SlotOk;
    if !l.Idle? {
      if l.PushHead? || l.PushSequence? || l.PushOwner? || l.PushBuilt? {
        OwnPush(m, l, c);
      } else {
        OwnPop(m, l, c);
      }
    }
  }

  /** What another thread still knows after the step. */
  lemma OtherStep(m: Memory, l: Local, c: Choice, other: Local)
    requires MemoryOk(m) && LocalOk(m, l) && LocalOk(m, other)
    requires Ticket(l).Some? ==> Ticket(l) != Ticket(other)
    ensures var (m', l') := StepLocal(m, l, c);
            LocalOk(m', other) && (Ticket(l').Some? ==> Ticket(l') != Ticket(other))
  {
    hide MemoryOk, LocalOk;
    match l
    case Idle =>
    case PushHead(v, h) =>
    case PushSequence(v, h, q) =>
      if q == h && m.head == h && c != SpuriousFailure {
        ClaimPushFrames(m, v, other);
      }
    case PushOwner(v, h) => ConstructFrames(m, h, v, other);
    case PushBuilt(v, h) => PublishFrames(m, h, v, other);
    case PopTail(t) =>
    case PopSequence(t, q) =>
      if q == t + 1 && m.tail == t && c != SpuriousFailure {
        PopReady(m, t, q);
        ClaimPopFrames(m, other);
      }
    case PopOwner(t) =>
      OwnerReady(m, t);
      MoveOutFrames(m, t, other);
    case PopMoved(t, x) => ReleaseFrames(m, t, x, other);
  }

  lemma StepKeepsInv(s: State, e: Event)
    requires Inv(s) && e.tid in s.threads
    ensures Inv(Step(s, e))
  {
    OwnStep(s.m, s.threads[e.tid], e.choice);
    forall other | other in s.threads && other != e.tid
      ensures LocalOk(Step(s, e).m, s.threads[other])
      ensures Ticket(Step(s, e).threads[e.tid]).Some? ==>
                Ticket(Step(s, e).threads[e.tid]) != Ticket(s.threads[other])
    {
      OtherStep(s.m, s.threads[e.tid], e.choice, s.threads[other]);
    }
  }

  /** The invariant holds at every point of every run. */
  lemma {:induction false} RunKeepsInv(s: State, events: seq<Event>)
    requires Inv(s) && Runnable(s, events)
    ensures Inv(Run(s, events))
  {
    if events != [] {
      var n := |events| - 1;
      RunKeepsInv(s, events[..n]);
      StepKeepsInv(Run(s, events[..n]), events[n]);
    }
  }

  // ----- Safety of every run -----

  /** On a ring of at least two slots, after any interleaving of any threads: a ticket delivers the
      value it was claimed for, a ticket about to be delivered was not delivered before, and the
      slot a thread works on is its own. */
  lemma Safety(cap: nat, tids: set<nat>, events: seq<Event>, a: nat, b: nat)
    requires 2 <= cap && Runnable(Init(cap, tids), events)
    requires a in tids && b in tids
    ensures var s := Run(Init(cap, tids), events);
            && s.m.tail <= s.m.head <= s.m.tail + cap && |s.m.pushed| == s.m.head
            && (forall k :: k in s.m.popped ==> k < s.m.tail && s.m.popped[k] == s.m.pushed[k])
            && (s.threads[a].PopOwner? ==>
                  s.threads[a].t !in s.m.popped && s.threads[a].t < |s.m.pushed|
                  && s.m.storage[Slot(s.threads[a].t, cap)] == Some(s.m.pushed[s.threads[a].t]))
            && (s.threads[a].PushOwner? ==> s.m.storage[Slot(s.threads[a].h, cap)] == None)
            && (a != b && Ticket(s.threads[a]).Some? && Ticket(s.threads[b]).Some? ==>
                  Slot(Ticket(s.threads[a]).value, cap) != Slot(Ticket(s.threads[b]).value, cap))
  {
    InitInv(cap, tids);
    RunKeepsInv(Init(cap, tids), events);
    var s := Run(Init(cap, tids), events);
    assert LocalOk(s.m, s.threads[a]) && LocalOk(s.m, s.threads[b]);
  }

  // ----- Verdicts -----

  ghost predicate Holds(s: State, tid: nat, k: nat) {
    tid in s.threads && Ticket(s.threads[tid]) == Some(k)
  }

  /** A claimed slot that is not at rest has its claimant among the threads. */
  ghost predicate ClaimsHeld(s: State) {
    forall i :: 0 <= i < s.m.cap && Shaped(s.m) && Claimed(s.m, i) ==>
                exists tid :: Holds(s, tid, s.m.turn[i])
  }

  ghost predicate Claimed(m: Memory, i: nat)
    requires Shaped(m) && i < m.cap
  {
    m.turn[i] < m.tail || (m.turn[i] < m.head && !Published(m, i))
  }

  lemma ClaimsCarryPush(m: Memory, i: nat, v: Value)
    requires MemoryOk(m) && i < m.cap && m.turn[Slot(m.head, m.cap)] == m.head && Claimed(ClaimPush(m, v), i)
    ensures m.turn[i] == m.head || Claimed(m, i)
  {
  }

  lemma ClaimsCarryPop(m: Memory, i: nat)
    requires MemoryOk(m) && i < m.cap && Claimed(ClaimPop(m), i)
    ensures m.turn[i] == m.tail || Claimed(m, i)
  {
  }

  lemma ClaimsCarryRelease(m: Memory, t: nat, x: Value, i: nat)
    requires MemoryOk(m) && LocalOk(m, PopMoved(t, x)) && i < m.cap && Claimed(Release(m, t), i)
    ensures Release(m, t).turn[i] == m.turn[i] != t && Claimed(m, i)
  {
    TurnIs(m, t);
    assert SlotOk(m, i);
  }

  lemma ClaimsCarryPublish(m: Memory, h: nat, v: Value, i: nat)
    requires MemoryOk(m) && LocalOk(m, PushBuilt(v, h)) && i < m.cap && Claimed(Publish(m, h), i)
    ensures m.turn[i] != h && Claimed(m, i)
  {
    TurnIs(m, h);
    assert SlotOk(m, i);
  }

  /** A claim after a step is one before it, of another ticket than the thread's, or the thread's own. */
  lemma ClaimsCarry(m: Memory, l: Local, c: Choice, i: nat)
    requires MemoryOk(m) && LocalOk(m, l) && i < m.cap && Claimed(StepLocal(m, l, c).0, i)
    ensures var (m', l') := StepLocal(m, l, c);
            Ticket(l') == Some(m'.turn[i])
            || (m'.turn[i] == m.turn[i] && Claimed(m, i) && Ticket(l) != Some(m.turn[i]))
  {
    match l
    case PushSequence(v, h, q) =>
      if q == h && m.head == h && c != SpuriousFailure {
        PushReady(m, v, h, q);
        ClaimsCarryPush(m, i, v);
      }
    case PopSequence(t, q) =>
      if q == t + 1 && m.tail == t && c != SpuriousFailure {
        ClaimsCarryPop(m, i);
      }
    case PushBuilt(v, h) =>
      ClaimsCarryPublish(m, h, v, i);
      hide MemoryOk, LocalOk;
    case PopMoved(t, x) =>
      ClaimsCarryRelease(m, t, x, i);
      hide MemoryOk, LocalOk;
    case _ => hide MemoryOk, LocalOk;
  }

  lemma StepKeepsClaimsHeld(s: State, e: Event)
    requires Inv(s) && ClaimsHeld(s) && e.tid in s.threads
    ensures ClaimsHeld(Step(s, e))
  {
    var s' := Step(s, e);
    forall i | 0 <= i < s.m.cap && Claimed(s'.m, i)
      ensures exists tid :: Holds(s', tid, s'.m.turn[i])
    {
      ClaimsCarry(s.m, s.threads[e.tid], e.choice, i);
      if Ticket(s'.threads[e.tid]) == Some(s'.m.turn[i]) {
        assert Holds(s', e.tid, s'.m.turn[i]);
      } else {
        var tid :| Holds(s, tid, s.m.turn[i]);
        assert Holds(s', tid, s'.m.turn[i]);
      }
    }
  }

  lemma {:induction false} RunKeepsClaimsHeld(s: State, events: seq<Event>)
    requires Inv(s) && ClaimsHeld(s) && Runnable(s, events)
    ensures ClaimsHeld(Run(s, events))
  {
    if events != [] {
      var n := |events| - 1;
      RunKeepsInv(s, events[..n]);
      RunKeepsClaimsHeld(s, events[..n]);
      StepKeepsClaimsHeld(Run(s, events[..n]), events[n]);
    }
  }

  /** All slots are taken, or the next one is still being emptied by a consumer. */
  ghost predicate IsFull(s: State) {
    s.m.head - s.m.tail == s.m.cap
    || (s.m.cap <= s.m.head < s.m.tail + s.m.cap
        && exists other :: Holds(s, other, s.m.head - s.m.cap) && !s.threads[other].PushOwner?
                           && !s.threads[other].PushBuilt?)
  }

  /** No slot is taken, or the first one is still being filled by a producer. */
  ghost predicate IsEmpty(s: State) {
    s.m.head == s.m.tail
    || exists other :: Holds(s, other, s.m.tail) && !s.threads[other].PopOwner? && !s.threads[other].PopMoved?
  }

  /** "Full" is justified when the sequence was loaded: the head had not moved since it was loaded,
      and the ticket one lap back was not released. So cap values were queued, unless a consumer was
      still moving that ticket's value out. */
  lemma FullIsJustified(s: State, tid: nat)
    requires Inv(s) && ClaimsHeld(s) && tid in s.threads && s.threads[tid].PushHead?
    requires s.m.sequence[Slot(s.threads[tid].h, s.m.cap)] < s.threads[tid].h
    ensures s.threads[tid].h == s.m.head
    ensures IsFull(s)
  {
    var m, h := s.m, s.threads[tid].h;
    var i := Slot(h, m.cap);
    assert LocalOk(m, s.threads[tid]);
    TurnIs(m, h);
    var k := m.turn[i];
    NextLap(k, m.cap);
    SameSlotSameTicket(k + m.cap, h, m.cap);
    if k < m.tail {
      var other :| Holds(s, other, k);
      assert LocalOk(m, s.threads[other]);
    }
  }

  /** "Empty" is justified when the sequence was loaded: the tail had not moved since it was loaded,
      and no value was queued, unless the producer of the tail ticket was still writing it. */
  lemma EmptyIsJustified(s: State, tid: nat)
    requires Inv(s) && ClaimsHeld(s) && tid in s.threads && s.threads[tid].PopTail?
    requires s.m.sequence[Slot(s.threads[tid].t, s.m.cap)] < s.threads[tid].t + 1
    ensures s.threads[tid].t == s.m.tail
    ensures IsEmpty(s)
  {
    var m, t := s.m, s.threads[tid].t;
    var i := Slot(t, m.cap);
    assert LocalOk(m, s.threads[tid]);
    TurnIs(m, t);
    var k := m.turn[i];
    if k + m.cap <= t {
    } else if m.tail < m.head {
      var other :| Holds(s, other, k);
      assert LocalOk(m, s.threads[other]);
    }
  }

  /** In every run a load of the sequence that leads to a verdict finds the ring full, or empty. */
  lemma VerdictsAreJustified(cap: nat, tids: set<nat>, events: seq<Event>, tid: nat)
    requires 2 <= cap && Runnable(Init(cap, tids), events) && tid in tids
    ensures var s := Run(Init(cap, tids), events);
            && (s.threads[tid].PushHead? && s.m.sequence[Slot(s.threads[tid].h, cap)] < s.threads[tid].h ==> IsFull(s))
            && (s.threads[tid].PopTail? && s.m.sequence[Slot(s.threads[tid].t, cap)] < s.threads[tid].t + 1
                ==> IsEmpty(s))
  {
    hide MemoryOk, LocalOk, IsFull, IsEmpty, Claimed;
    var s0 := Init(cap, tids);
    InitInv(cap, tids);
    NothingClaimed(cap, tids);
    RunKeepsInv(s0, events);
    RunKeepsClaimsHeld(s0, events);
    var s := Run(s0, events);
    if s.threads[tid].PushHead? && s.m.sequence[Slot(s.threads[tid].h, cap)] < s.threads[tid].h {
      FullIsJustified(s, tid);
    }
    if s.threads[tid].PopTail? && s.m.sequence[Slot(s.threads[tid].t, cap)] < s.threads[tid].t + 1 {
      EmptyIsJustified(s, tid);
    }
  }

  lemma NothingClaimed(cap: nat, tids: set<nat>)
    requires 0 < cap
    ensures ClaimsHeld(Init(cap, tids))
  {
  }

  // ----- The verdict that a call returns -----

  /** Thread `tid` stands still between two of its steps. */
  lemma {:induction false} StandsStill(s: State, events: seq<Event>, start: nat, end: nat, tid: nat)
    requires Shaped(s.m) && Runnable(s, events) && start <= end <= |events| && tid in s.threads
    requires forall i :: start <= i < end ==> events[i].tid != tid
    ensures Run(s, events[..end]).threads[tid] == Run(s, events[..start]).threads[tid]
    decreases end
  {
    hide StepLocal;
    if start < end {
      StandsStill(s, events, start, end - 1, tid);
      RunSnoc(s, events, end - 1);
    }
  }

  lemma RunSnoc(s: State, events: seq<Event>, i: nat)
    requires Shaped(s.m) && Runnable(s, events) && i < |events|
    ensures Run(s, events[..i + 1]) == Step(Run(s, events[..i]), events[i])
  {
    assert events[..i + 1][..i] == events[..i];
  }

  /** The last step of a thread before the n-th event. */
  lemma {:induction false} LastStep(s: State, events: seq<Event>, n: nat, tid: nat) returns (k: nat)
    requires Shaped(s.m) && Runnable(s, events) && n <= |events| && tid in s.threads
    requires Run(s, events[..n]).threads[tid] != s.threads[tid]
    ensures k < n && events[k].tid == tid && forall i :: k < i < n ==> events[i].tid != tid
  {
    assert events[..0] == [];
    if n > 0 && events[n - 1].tid == tid {
      k := n - 1;
    } else {
      if n > 0 {
        StandsStill(s, events, n - 1, n, tid);
      }
      k := LastStep(s, events, n - 1, tid);
    }
  }

  /** Only a load of a slot's sequence leads to a verdict, and it is the sequence then loaded. */
  lemma Loaded(m: Memory, l: Local, c: Choice)
    requires Shaped(m)
    ensures var l' := StepLocal(m, l, c).1;
            && (l'.PopSequence? ==> l == PopTail(l'.t) && l'.q == m.sequence[Slot(l'.t, m.cap)])
            && (l'.PushSequence? ==> l == PushHead(l'.v, l'.h) && l'.q == m.sequence[Slot(l'.h, m.cap)])
  {
  }

  /** A call that gives up has loaded too small a sequence. */
  lemma GivesUp(m: Memory, l: Local, c: Choice)
    requires Shaped(m) && StepLocal(m, l, c).1 == Idle
    ensures l.PopSequence? ==> l.q < l.t + 1
    ensures l.PushSequence? ==> l.q < l.h
  {
  }

  /** In every run a pop that returns "empty" loaded its verdict from an empty ring, and a push that
      returns "full" from a full one: `load` is when. */
  lemma VerdictIsTrue(cap: nat, tids: set<nat>, events: seq<Event>, n: nat, tid: nat) returns (load: nat)
    requires 2 <= cap && Runnable(Init(cap, tids), events) && n < |events| && events[n].tid == tid && tid in tids
    requires var before := Run(Init(cap, tids), events[..n]).threads[tid]; before.PopSequence? || before.PushSequence?
    requires Run(Init(cap, tids), events[..n + 1]).threads[tid] == Idle
    ensures load < n && events[load].tid == tid && forall i :: load < i < n ==> events[i].tid != tid
    ensures var before, atLoad := Run(Init(cap, tids), events[..n]), Run(Init(cap, tids), events[..load]);
            && (before.threads[tid].PopSequence? ==> IsEmpty(atLoad))
            && (before.threads[tid].PushSequence? ==> IsFull(atLoad))
  {
    hide StepLocal, IsFull, IsEmpty;
    var s0 := Init(cap, tids);
    var before := Run(s0, events[..n]);
    load := LastStep(s0, events, n, tid);
    var s := Run(s0, events[..load]);
    RunSnoc(s0, events, load);
    StandsStill(s0, events, load + 1, n, tid);
    RunSnoc(s0, events, n);
    Loaded(s.m, s.threads[tid], events[load].choice);
    GivesUp(before.m, before.threads[tid], events[n].choice);
    VerdictsAreJustified(cap, tids, events[..load], tid);
  }

  // ----- Refinement of a bounded FIFO -----

  /** An operation takes effect at its successful compare-exchange. The value of a Dequeue is the
      one the consumer holds when it later leaves the slot. */
  function Effect(m: Memory, l: Local, c: Choice): Option<Op>
    requires Shaped(m)
  {
    match StepLocal(m, l, c).1
    case PushOwner(v, _) => if l.PushSequence? then Some(Enqueue(v)) else None
    case PopOwner(t) => if l.PopSequence? && t < |m.pushed| then Some(Dequeue(m.pushed[t])) else None
    case _ => None
  }

  function History(s: State, events: seq<Event>): seq<Op>
    requires Shaped(s.m) && Runnable(s, events)
  {
    if events == [] then []
    else
      var n := |events| - 1;
      var r := Run(s, events[..n]);
      match Effect(r.m, r.threads[events[n].tid], events[n].choice)
      case None => History(s, events[..n])
      case Some(op) => History(s, events[..n]) + [op]
  }

  /** What is in the queue: values claimed by a producer and not yet by a consumer. */
  function Contents(m: Memory): seq<Value>
    requires m.tail <= |m.pushed|
  {
    m.pushed[m.tail..]
  }

  lemma QuietStep(m: Memory, l: Local, c: Choice)
    requires Shaped(m) && !l.PushSequence? && !l.PopSequence?
    ensures var m' := StepLocal(m, l, c).0;
            m'.pushed == m.pushed && m'.tail == m.tail && Effect(m, l, c).None?
  {
  }

  ghost predicate Explained(m: Memory, m': Memory, effect: Option<Op>) {
    && m.tail <= |m.pushed| && m'.tail <= |m'.pushed|
    && var q, q' := Contents(m), Contents(m');
       match effect
       case None => q' == q
       case Some(Enqueue(v)) => |q| < m.cap && q' == q + [v]
       case Some(Dequeue(x)) => q != [] && q[0] == x && q' == q[1..]
  }

  lemma PushEffect(m: Memory, v: Value, h: nat, q: nat, c: Choice)
    requires MemoryOk(m) && LocalOk(m, PushSequence(v, h, q))
    ensures Explained(m, StepLocal(m, PushSequence(v, h, q), c).0, Effect(m, PushSequence(v, h, q), c))
  {
    if q == h && m.head == h {
      TurnIs(m, h);
      ClaimPushKeeps(m, v);
      assert (m.pushed + [v])[m.tail..] == m.pushed[m.tail..] + [v];
    }
  }

  lemma PopEffect(m: Memory, t: nat, q: nat, c: Choice)
    requires MemoryOk(m) && LocalOk(m, PopSequence(t, q))
    ensures Explained(m, StepLocal(m, PopSequence(t, q), c).0, Effect(m, PopSequence(t, q), c))
  {
    if q == t + 1 && m.tail == t {
      TurnIs(m, t);
      assert m.pushed[m.tail + 1..] == m.pushed[m.tail..][1..];
    }
  }

  lemma TailIsBehind(m: Memory)
    requires MemoryOk(m)
    ensures m.tail <= |m.pushed|
  {
  }

  lemma EffectOnContents(m: Memory, l: Local, c: Choice)
    requires MemoryOk(m) && LocalOk(m, l)
    ensures MemoryOk(StepLocal(m, l, c).0)
    ensures Explained(m, StepLocal(m, l, c).0, Effect(m, l, c))
  {
    OwnStep(m, l, c);
    TailIsBehind(m);
    hide MemoryOk, LocalOk, StepLocal, Effect;
    match l
    case PushSequence(v, h, q) => PushEffect(m, v, h, q, c);
    case PopSequence(t, q) => PopEffect(m, t, q, c);
    case _ => QuietStep(m, l, c);
  }

  /** Every run is linearizable: the operations, in the order of their compare-exchanges, are a legal
      history of the bounded FIFO and leave exactly the queue's contents. */
  lemma {:induction false} RunRefinesFifo(cap: nat, tids: set<nat>, events: seq<Event>)
    requires 2 <= cap && Runnable(Init(cap, tids), events)
    ensures Inv(Run(Init(cap, tids), events))
    ensures Fifo(History(Init(cap, tids), events), cap) == Some(Contents(Run(Init(cap, tids), events).m))
  {
    var s0 := Init(cap, tids);
    InitInv(cap, tids);
    RunKeepsInv(s0, events);
    if events != [] {
      var n := |events| - 1;
      RunRefinesFifo(cap, tids, events[..n]);
      var r := Run(s0, events[..n]);
      EffectOnContents(r.m, r.threads[events[n].tid], events[n].choice);
      var effect := Effect(r.m, r.threads[events[n].tid], events[n].choice);
      if effect.Some? {
        FifoSnoc(History(s0, events[..n]), effect.value, cap);
      }
    }
  }

  /** The value a consumer leaves with is the one its Dequeue took effect with. */
  lemma DeliveredIsDequeued(s: State, tid: nat)
    requires Inv(s) && tid in s.threads && s.threads[tid].PopMoved?
    ensures s.threads[tid].t < |s.m.pushed| && s.threads[tid].x == s.m.pushed[s.threads[tid].t]
  {
    assert LocalOk(s.m, s.threads[tid]);
  }

  // ----- A call that runs alone -----

  /** One thread takes steps, and no other. */
  function Solo(m: Memory, l: Local, choices: seq<Choice>): (r: (Memory, Local))
    requires Shaped(m)
    ensures Shaped(r.0) && r.0.cap == m.cap
  {
    if choices == [] then (m, l)
    else
      var n := |choices| - 1;
      var (m', l') := Solo(m, l, choices[..n]);
      StepLocal(m', l', choices[n])
  }

  function By(tid: nat, choices: seq<Choice>): (events: seq<Event>)
    ensures |events| == |choices| && forall i :: 0 <= i < |events| ==> events[i] == Event(tid, choices[i])
  {
    seq(|choices|, i requires 0 <= i < |choices| => Event(tid, choices[i]))
  }

  lemma {:induction false} SoloIsRun(s: State, tid: nat, choices: seq<Choice>)
    requires Shaped(s.m) && tid in s.threads
    ensures Runnable(s, By(tid, choices))
    ensures var (m, l) := Solo(s.m, s.threads[tid], choices);
            Run(s, By(tid, choices)) == State(m, s.threads[tid := l])
  {
    hide StepLocal;
    if choices == [] {
      assert s.threads == s.threads[tid := s.threads[tid]];
    } else {
      var n := |choices| - 1;
      SoloIsRun(s, tid, choices[..n]);
      assert By(tid, choices)[..n] == By(tid, choices[..n]);
      var (m, l) := Solo(s.m, s.threads[tid], choices[..n]);
      var (m', l') := StepLocal(m, l, choices[n]);
      assert s.threads[tid := l][tid := l'] == s.threads[tid := l'];
    }
  }

  lemma SoloMore(m: Memory, l: Local, choices: seq<Choice>, c: Choice)
    requires Shaped(m)
    ensures var (m', l') := Solo(m, l, choices);
            Solo(m, l, choices + [c]) == StepLocal(m', l', c)
  {
    assert (choices + [c])[..|choices|] == choices;
  }

  /** The first three accesses of a pop: it claims the tail if the slot is published, and gives up if not. */
  lemma PopSteps(m: Memory)
    requires MemoryOk(m)
    ensures var t := m.tail;
            && m.sequence[Slot(t, m.cap)] <= t + 1
            && StepLocal(m, Idle, Pop) == (m, PopTail(t))
            && StepLocal(m, PopTail(t), Go) == (m, PopSequence(t, m.sequence[Slot(t, m.cap)]))
            && StepLocal(m, PopSequence(t, m.sequence[Slot(t, m.cap)]), Go) ==
               if m.sequence[Slot(t, m.cap)] == t + 1 then (ClaimPop(m), PopOwner(t)) else (m, Idle)
  {
    TurnIs(m, m.tail);
  }

  lemma TailIsStored(m: Memory)
    requires MemoryOk(m) && m.sequence[Slot(m.tail, m.cap)] == m.tail + 1
    ensures m.tail < |m.pushed| && m.storage[Slot(m.tail, m.cap)] == Some(m.pushed[m.tail])
  {
    TurnIs(m, m.tail);
    NeighboursDiffer(m.tail, m.cap);
  }

  /** A pop that runs alone delivers the oldest value if its slot is published, and else returns "empty"
      and changes nothing. */
  lemma PopAlone(m: Memory)
    requires MemoryOk(m)
    ensures var delivered := Solo(m, Idle, [Pop, Go, Go, Go]);
            if m.sequence[Slot(m.tail, m.cap)] == m.tail + 1
            then m.tail < |m.pushed| && delivered.1 == PopMoved(m.tail, Contents(m)[0])
                 && delivered.0.tail <= |delivered.0.pushed| && Contents(delivered.0) == Contents(m)[1..]
                 && Solo(m, Idle, [Pop, Go, Go, Go, Go]).1 == Idle
            else Solo(m, Idle, [Pop, Go, Go]) == (m, Idle)
  {
    hide Solo, StepLocal, SlotOk;
    PopSteps(m);
    SoloThree(m, Idle, Pop, Go, Go);
    if m.sequence[Slot(m.tail, m.cap)] == m.tail + 1 {
      TailIsStored(m);
      SoloFive(m, Idle, Pop, Go, Go, Go, Go);
      OwnerSteps(ClaimPop(m), m.tail);
      assert m.pushed[m.tail + 1..] == m.pushed[m.tail..][1..];
    }
  }

  lemma OwnerSteps(m: Memory, t: nat)
    requires Shaped(m) && t < |m.pushed| && m.storage[Slot(t, m.cap)] == Some(m.pushed[t])
    ensures var x := m.pushed[t];
            && StepLocal(m, PopOwner(t), Go) == (MoveOut(m, t, x), PopMoved(t, x))
            && StepLocal(MoveOut(m, t, x), PopMoved(t, x), Go) == (Release(MoveOut(m, t, x), t), Idle)
  {
  }

  /** The accesses of a push that finds its slot free. */
  lemma PushSteps(m: Memory, v: Value)
    requires Shaped(m) && m.sequence[Slot(m.head, m.cap)] == m.head
    ensures var h, c, m1 := m.head, Push(v), ClaimPush(m, v);
            && StepLocal(m, Idle, c) == (m, PushHead(v, h))
            && StepLocal(m, PushHead(v, h), c) == (m, PushSequence(v, h, h))
            && StepLocal(m, PushSequence(v, h, h), c) == (m1, PushOwner(v, h))
            && StepLocal(m1, PushOwner(v, h), c) == (Construct(m1, h, v), PushBuilt(v, h))
            && StepLocal(Construct(m1, h, v), PushBuilt(v, h), c) == (Publish(Construct(m1, h, v), h), Idle)
  {
  }

  /** The accesses of a push that finds its slot taken. */
  lemma FullSteps(m: Memory, v: Value)
    requires MemoryOk(m) && m.sequence[Slot(m.head, m.cap)] != m.head
    ensures var h, c, q := m.head, Push(v), m.sequence[Slot(m.head, m.cap)];
            && StepLocal(m, Idle, c) == (m, PushHead(v, h))
            && StepLocal(m, PushHead(v, h), c) == (m, PushSequence(v, h, q))
            && StepLocal(m, PushSequence(v, h, q), c) == (m, Idle)
  {
    TurnIs(m, m.head);
    assert SlotOk(m, Slot(m.head, m.cap));
  }

  lemma SoloThree(m: Memory, l: Local, a: Choice, b: Choice, c: Choice)
    requires Shaped(m)
    ensures var (m1, l1) := StepLocal(m, l, a);
            var (m2, l2) := StepLocal(m1, l1, b);
            Solo(m, l, [a, b, c]) == StepLocal(m2, l2, c)
  {
    hide StepLocal;
    SoloMore(m, l, [], a);
    SoloMore(m, l, [a], b);
    SoloMore(m, l, [a, b], c);
    assert [] + [a] == [a] && [a] + [b] == [a, b] && [a, b] + [c] == [a, b, c];
  }

  lemma SoloFive(m: Memory, l: Local, a: Choice, b: Choice, c: Choice, d: Choice, e: Choice)
    requires Shaped(m)
    ensures var (m3, l3) := Solo(m, l, [a, b, c]);
            var (m4, l4) := StepLocal(m3, l3, d);
            && Solo(m, l, [a, b, c, d]) == (m4, l4)
            && Solo(m, l, [a, b, c, d, e]) == StepLocal(m4, l4, e)
  {
    hide StepLocal;
    SoloMore(m, l, [a, b, c], d);
    SoloMore(m, l, [a, b, c, d], e);
    assert [a, b, c] + [d] == [a, b, c, d] && [a, b, c, d] + [e] == [a, b, c, d, e];
  }

  /** A push that runs alone and finds its slot free appends its value, published; otherwise it returns
      "full" and changes nothing. */
  lemma PushAlone(m: Memory, v: Value)
    requires MemoryOk(m)
    ensures var c := Push(v);
            if m.sequence[Slot(m.head, m.cap)] == m.head
            then var (m', l) := Solo(m, Idle, [c, c, c, c, c]);
                 && l == Idle && m'.tail <= |m'.pushed| && Contents(m') == Contents(m) + [v]
                 && m'.sequence[Slot(m.head, m.cap)] == m.head + 1
            else Solo(m, Idle, [c, c, c]) == (m, Idle)
  {
    hide Solo, StepLocal, SlotOk;
    var c := Push(v);
    SoloThree(m, Idle, c, c, c);
    if m.sequence[Slot(m.head, m.cap)] == m.head {
      SoloFive(m, Idle, c, c, c, c, c);
      PushSteps(m, v);
      assert (m.pushed + [v])[m.tail..] == m.pushed[m.tail..] + [v];
    } else {
      FullSteps(m, v);
    }
  }

  // ----- A ring of one slot -----

  /** Thread 0 runs alone and takes one more step. */
  lemma {:induction false} Extend(s: State, es: seq<Event>, m: Memory, l: Local, c: Choice, m': Memory, l': Local)
    requires Shaped(s.m) && s.threads.Keys == {0} && Runnable(s, es)
    requires Shaped(m) && Run(s, es) == State(m, map[0 := l]) && StepLocal(m, l, c) == (m', l')
    ensures Runnable(s, es + [Event(0, c)])
    ensures Run(s, es + [Event(0, c)]) == State(m', map[0 := l'])
  {
    assert (es + [Event(0, c)])[..|es|] == es;
    assert map[0 := l][0 := l'] == map[0 := l'];
  }

  lemma {:induction false} OneSlotPush(s: State, es: seq<Event>, m: Memory, v: Value) returns (es': seq<Event>)
    requires Shaped(s.m) && s.threads.Keys == {0} && Runnable(s, es) && Run(s, es) == State(m, map[0 := Idle])
    requires Shaped(m) && m.cap == 1 && m.sequence[0] == m.head
    ensures Runnable(s, es')
    ensures Run(s, es') ==
            State(Publish(Construct(ClaimPush(m, v), m.head, v), m.head), map[0 := Idle])
  {
    hide Run, Runnable, StepLocal;
    PushSteps(m, v);
    var h := m.head;
    var c := Push(v);
    var m1 := ClaimPush(m, v);
    var m2 := Construct(m1, h, v);
    es' := es;
    Extend(s, es', m, Idle, c, m, PushHead(v, h));
    es' := es' + [Event(0, c)];
    Extend(s, es', m, PushHead(v, h), c, m, PushSequence(v, h, h));
    es' := es' + [Event(0, c)];
    Extend(s, es', m, PushSequence(v, h, h), c, m1, PushOwner(v, h));
    es' := es' + [Event(0, c)];
    Extend(s, es', m1, PushOwner(v, h), c, m2, PushBuilt(v, h));
    es' := es' + [Event(0, c)];
    Extend(s, es', m2, PushBuilt(v, h), c, Publish(m2, h), Idle);
    es' := es' + [Event(0, c)];
  }

  /** With one slot "full at ticket 0" and "free for ticket 1" are the same sequence number, so a
      second push overwrites the first value: two pushes succeed, and nothing was popped. */
  lemma OneSlotLosesValues(v: Value, w: Value) returns (events: seq<Event>)
    ensures Runnable(Init(1, {0}), events)
    ensures var s := Run(Init(1, {0}), events);
            s.m.pushed == [v, w] && s.m.tail == 0 && s.threads[0] == Idle && s.m.storage == [Some(w)]
  {
    var s0 := Init(1, {0});
    assert s0.threads == map[0 := Idle];
    var m := InitMemory(1);
    events := OneSlotPush(s0, [], m, v);
    m := Publish(Construct(ClaimPush(m, v), m.head, v), m.head);
    events := OneSlotPush(s0, events, m, w);
  }
}
