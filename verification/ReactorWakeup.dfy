/**
 The sleep/wake handshake between any number of threads inside epoll_reactor::schedule and the one
 reactor thread, one atomic access at a time, under sequential consistency.
 */
module ReactorWakeup {
  import opened Counting

  /** A thread inside schedule. A push either claims its ticket in the head first and publishes the
      value later, or (single-producer path) publishes first and stores the head later. */
  datatype Producer =
    | Outside
    | Claimed(k: nat)   // ticket taken, head advanced, value not yet published
    | Hidden            // value published, head not yet stored
    | Counting          // try_push done, pending_count_ not yet incremented
    | FoundZero         // incremented it from zero
    | Signalling        // won the exchange on needs_wakeup_, eventfd not yet written

  /** The reactor thread in its loop. */
  datatype Reactor =
    | LoopTop
    | Exchanged(n: nat) // pending_count_ taken
    | Popping(n: nat)   // needs_wakeup_ cleared, n pops still to do
    | Deciding          // about to compute the timeout
    | Polling           // zero timeout
    | Waiting           // committed to a non-zero wait
    | Returned          // epoll_wait came back
    | Drained           // eventfd read, needs_wakeup_ still to be set

  /** `tickets` counts the pushes that took effect, `tail` the pops. */
  datatype State = State(
    cap: nat,
    tickets: nat,
    tail: nat,
    published: set<nat>,
    pending: nat,
    needsWakeup: bool,
    signal: bool,
    producers: map<nat, Producer>,
    reactor: Reactor)

  /** Environment decisions: which path a push takes, which events epoll_wait reports, whether some
      other cause (a timer, a deadline) makes the timeout zero. */
  datatype Event =
    | Schedule(tid: nat, fastPath: bool)
    | React(choice: bool)
    | WriteEventfd // stop(), graceful_stop() and schedule_after() also write it

  predicate InsideUncounted(p: Producer) {
    p.Claimed? || p.Hidden? || p.Counting?
  }

  function Uncounted(producers: map<nat, Producer>): set<nat> {
    set tid | tid in producers && InsideUncounted(producers[tid])
  }

  function HiddenOnes(producers: map<nat, Producer>): set<nat> {
    set tid | tid in producers && producers[tid].Hidden?
  }

  /** The queue's head counter: a hidden push has not stored it yet. */
  function Head(s: State): int {
    s.tickets - |HiddenOnes(s.producers)|
  }

  function Init(cap: nat, tids: set<nat>): State {
    State(cap, 0, 0, {}, 0, false, false, map tid | tid in tids :: Outside, LoopTop)
  }

  function Produce(s: State, tid: nat, fastPath: bool): (s': State)
    requires tid in s.producers
  {
    var at := (p: Producer) => s.producers[tid := p];
    match s.producers[tid]
    case Outside =>
      if s.tickets - s.tail >= s.cap then s // full: schedule returns false
      else if fastPath then
        s.(tickets := s.tickets + 1, published := s.published + {s.tickets}, producers := at(Hidden))
      else s.(tickets := s.tickets + 1, producers := at(Claimed(s.tickets)))
    case Claimed(k) => s.(published := s.published + {k}, producers := at(Counting))
    case Hidden => s.(producers := at(Counting))
    case Counting =>
      s.(pending := s.pending + 1, producers := at(if s.pending == 0 then FoundZero else Outside))
    case FoundZero =>
      s.(needsWakeup := true, producers := at(if s.needsWakeup then Outside else Signalling))
    case Signalling => s.(signal := true, producers := at(Outside))
  }

  function ReactorStep(s: State, choice: bool): State {
    match s.reactor
    case LoopTop => s.(pending := 0, reactor := Exchanged(s.pending))
    case Exchanged(n) => s.(needsWakeup := false, reactor := Popping(n))
    case Popping(n) =>
      if n > 0 && s.tail in s.published then s.(tail := s.tail + 1, reactor := Popping(n - 1))
      else s.(reactor := Deciding) // all done, or pop found nothing: the rest of the count is dropped
    case Deciding =>
      s.(reactor := if s.tail != Head(s) || choice then Polling else Waiting)
    case Polling => s.(reactor := Returned)
    case Waiting => s.(reactor := Returned)
    case Returned => // choice: the wakeup event is among those reported
      if s.signal && choice then s.(signal := false, reactor := Drained) else s.(reactor := LoopTop)
    case Drained => s.(needsWakeup := true, reactor := LoopTop)
  }

  predicate Possible(s: State, e: Event) {
    e.Schedule? ==> e.tid in s.producers
  }

  function Step(s: State, e: Event): (s': State)
    requires Possible(s, e)
    ensures s'.producers.Keys == s.producers.Keys
  {
    match e
    case Schedule(tid, fastPath) => Produce(s, tid, fastPath)
    case React(choice) => ReactorStep(s, choice)
    case WriteEventfd => s.(signal := true)
  }

  predicate Runnable(s: State, events: seq<Event>) {
    forall i :: 0 <= i < |events| ==> Possible(s, events[i])
  }

  function Run(s: State, events: seq<Event>): (s': State)
    requires Runnable(s, events)
    ensures s'.producers.Keys == s.producers.Keys
  {
    if events == [] then s
    else Step(Run(s, events[..|events| - 1]), events[|events| - 1])
  }

  // ----- The invariant -----

  function ToPop(r: Reactor): nat {
    match r
    case Exchanged(n) => n
    case Popping(n) => n
    case _ => 0
  }

  /** The reactor is between clearing needs_wakeup_ and the end of the wait. */
  predicate Armed(r: Reactor) {
    r.Popping? || r.Deciding? || r.Polling? || r.Waiting? || r.Returned?
  }

  ghost predicate SomeoneAt(s: State, p: Producer) {
    exists tid :: tid in s.producers && s.producers[tid] == p
  }

  ghost predicate CountsOk(s: State) {
    && s.tail <= s.tickets <= s.tail + s.cap
    && (forall k :: k in s.published ==> k < s.tickets)
    && (forall tid :: tid in s.producers && s.producers[tid].Claimed? ==> s.producers[tid].k < s.tickets)
    && s.pending + |Uncounted(s.producers)| + ToPop(s.reactor) <= s.tickets - s.tail
    && (s.reactor.Waiting? ==> s.pending + |Uncounted(s.producers)| == s.tickets - s.tail)
  }

  ghost predicate FlagsOk(s: State) {
    && (Armed(s.reactor) && s.needsWakeup ==> s.signal || SomeoneAt(s, Signalling))
    && (s.reactor.Waiting? && s.pending > 0 && !s.needsWakeup ==> SomeoneAt(s, FoundZero))
  }

  ghost predicate Inv(s: State) {
    CountsOk(s) && FlagsOk(s)
  }

  lemma UncountedAfter(m: map<nat, Producer>, tid: nat, p: Producer)
    requires tid in m
    ensures var before, after := if InsideUncounted(m[tid]) then 1 else 0, if InsideUncounted(p) then 1 else 0;
            |Uncounted(m[tid := p])| == |Uncounted(m)| - before + after
  {
    assert Uncounted(m[tid := p]) ==
           if InsideUncounted(p) then Uncounted(m) + {tid} else Uncounted(m) - {tid};
  }

  lemma HiddenAreUncounted(m: map<nat, Producer>)
    ensures |HiddenOnes(m)| <= |Uncounted(m)|
  {
    SubsetSize(HiddenOnes(m), Uncounted(m));
  }

  lemma WitnessKept(s: State, s': State, tid: nat, p: Producer)
    requires tid in s.producers && s'.producers.Keys == s.producers.Keys
    requires forall t :: t in s.producers && t != tid ==> s'.producers[t] == s.producers[t]
    requires SomeoneAt(s, p) && (s.producers[tid] != p || s'.producers[tid] == p)
    ensures SomeoneAt(s', p)
  {
    var t :| t in s.producers && s.producers[t] == p;
    assert s'.producers[t] == p;
  }

  lemma ProducerKeepsCounts(s: State, tid: nat, fastPath: bool)
    requires CountsOk(s) && tid in s.producers
    ensures CountsOk(Produce(s, tid, fastPath))
  {
    var s' := Produce(s, tid, fastPath);
    UncountedAfter(s.producers, tid, s'.producers[tid]);
    hide Uncounted;
    assert s'.producers == s.producers[tid := s'.producers[tid]];
  }

  lemma ProducerKeepsFlags(s: State, tid: nat, fastPath: bool)
    requires FlagsOk(s) && tid in s.producers
    ensures FlagsOk(Produce(s, tid, fastPath))
  {
    var s' := Produce(s, tid, fastPath);
    var p := s'.producers[tid];
    assert SomeoneAt(s', p);
    if SomeoneAt(s, Signalling) && !s.producers[tid].Signalling? {
      WitnessKept(s, s', tid, Signalling);
    }
    if SomeoneAt(s, FoundZero) && !s.producers[tid].FoundZero? {
      WitnessKept(s, s', tid, FoundZero);
    }
  }

  lemma ReactorKeepsCounts(s: State, choice: bool)
    requires CountsOk(s)
    ensures CountsOk(ReactorStep(s, choice))
  {
    HiddenAreUncounted(s.producers);
    hide Uncounted, HiddenOnes;
  }

  lemma ReactorKeepsFlags(s: State, choice: bool)
    requires FlagsOk(s)
             && (s.reactor.Deciding? && s.pending > 0 ==> s.tail != Head(s) || s.needsWakeup || SomeoneAt(s, FoundZero))
    ensures FlagsOk(ReactorStep(s, choice))
  {
    SameProducers(s, ReactorStep(s, choice), Signalling);
    SameProducers(s, ReactorStep(s, choice), FoundZero);
    hide SomeoneAt, Head;
  }

  lemma SameProducers(s: State, s': State, p: Producer)
    requires s'.producers == s.producers
    ensures SomeoneAt(s', p) == SomeoneAt(s, p)
  {
  }

  lemma ReactorKeeps(s: State, choice: bool)
    requires Inv(s)
    ensures Inv(ReactorStep(s, choice))
  {
    ReactorKeepsCounts(s, choice);
    HiddenAreUncounted(s.producers);
    hide Uncounted, HiddenOnes, SomeoneAt;
    ReactorKeepsFlags(s, choice);
  }

  lemma StepKeepsInv(s: State, e: Event)
    requires Inv(s) && Possible(s, e)
    ensures Inv(Step(s, e))
  {
    match e
    case Schedule(tid, fastPath) =>
      ProducerKeepsCounts(s, tid, fastPath);
      ProducerKeepsFlags(s, tid, fastPath);
    case React(choice) => ReactorKeeps(s, choice);
    case WriteEventfd =>
      assert forall p :: SomeoneAt(Step(s, e), p) == SomeoneAt(s, p);
  }

  lemma {:induction false} RunKeepsInv(cap: nat, tids: set<nat>, events: seq<Event>)
    requires Runnable(Init(cap, tids), events)
    ensures Inv(Run(Init(cap, tids), events))
  {
    if events == [] {
      assert Uncounted(Init(cap, tids).producers) == {};
    } else {
      RunKeepsInv(cap, tids, events[..|events| - 1]);
      StepKeepsInv(Run(Init(cap, tids), events[..|events| - 1]), events[|events| - 1]);
    }
  }

  /** No lost wakeup, in every run: while the reactor is committed to a non-zero wait and a value is
      queued, the eventfd is signalled or some thread is still inside schedule. */
  lemma NoLostWakeup(cap: nat, tids: set<nat>, events: seq<Event>)
    requires Runnable(Init(cap, tids), events)
    ensures var s := Run(Init(cap, tids), events);
            s.reactor.Waiting? && s.tickets != s.tail ==>
              s.signal || exists tid :: tid in s.producers && s.producers[tid] != Outside
  {
    RunKeepsInv(cap, tids, events);
    var s := Run(Init(cap, tids), events);
    if forall tid :: tid in s.producers ==> s.producers[tid] == Outside {
      assert Uncounted(s.producers) == {};
    }
  }

  /** In every run the count never exceeds what is queued, hence never the capacity of the queue:
      the 32-bit counter does not wrap, and a pop that is counted finds a claimed ticket. */
  lemma CountIsCovered(cap: nat, tids: set<nat>, events: seq<Event>)
    requires Runnable(Init(cap, tids), events)
    ensures var s := Run(Init(cap, tids), events);
            s.pending + ToPop(s.reactor) <= s.tickets - s.tail <= cap
  {
    RunKeepsInv(cap, tids, events);
    CapacityKept(Init(cap, tids), events);
  }

  lemma CapacityKept(s: State, events: seq<Event>)
    requires Runnable(s, events)
    ensures Run(s, events).cap == s.cap
  {
  }

  // ----- What is counted is popped -----

  /** The reactor thread takes n steps, and no other. */
  function ReactorAlone(s: State, n: nat): (s': State)
    ensures s'.producers == s.producers
  {
    if n == 0 then s else ReactorStep(ReactorAlone(s, n - 1), true)
  }

  predicate AllPublished(s: State, n: nat) {
    forall k :: s.tail <= k < s.tail + n ==> k in s.published
  }

  /** With the counted tasks published, as many steps pop them all, in the order of their tickets. */
  lemma {:induction false} CountedArePopped(s: State, n: nat, done: nat)
    requires s.reactor == Popping(n) && AllPublished(s, n) && done <= n
    ensures ReactorAlone(s, done) == s.(tail := s.tail + done, reactor := Popping(n - done))
  {
    if done > 0 {
      CountedArePopped(s, n, done - 1);
    }
  }

  lemma ReactorMore(s: State, n: nat)
    ensures ReactorAlone(s, n + 1) == ReactorStep(ReactorAlone(s, n), true)
  {
  }

  lemma {:induction false} ReactorAdd(s: State, m: nat, n: nat)
    ensures ReactorAlone(s, m + n) == ReactorAlone(ReactorAlone(s, m), n)
  {
    hide ReactorStep;
    if n > 0 {
      ReactorAdd(s, m, n - 1);
      assert m + n - 1 == m + (n - 1);
    }
  }

  lemma RoundStarts(s: State)
    requires s.reactor == LoopTop
    ensures ReactorAlone(s, 2) == s.(pending := 0, needsWakeup := false, reactor := Popping(s.pending))
  {
    ReactorMore(s, 0);
    ReactorMore(s, 1);
  }

  /** One round of process_tasks takes the count and pops as many tasks, if they are published. */
  lemma RoundPopsAll(s: State)
    requires s.reactor == LoopTop && AllPublished(s, s.pending)
    ensures ReactorAlone(s, s.pending + 3) ==
            s.(tail := s.tail + s.pending, pending := 0, needsWakeup := false, reactor := Deciding)
  {
    hide ReactorAlone, AllPublished;
    var n := s.pending;
    var popping := s.(pending := 0, needsWakeup := false, reactor := Popping(n));
    RoundStarts(s);
    ReactorAdd(s, 2, n);
    SamePublished(s, popping, n);
    CountedArePopped(popping, n, n);
    ReactorMore(s, 2 + n);
  }

  lemma SamePublished(s: State, s': State, n: nat)
    requires AllPublished(s, n) && s'.tail == s.tail && s'.published == s.published
    ensures AllPublished(s', n)
  {
  }

  /** One thread calls schedule, and nobody else moves. */
  function ScheduleAlone(s: State, tid: nat, fastPath: bool, n: nat): (s': State)
    requires tid in s.producers
    ensures s'.producers.Keys == s.producers.Keys
  {
    if n == 0 then s else Produce(ScheduleAlone(s, tid, fastPath, n - 1), tid, fastPath)
  }

  lemma ScheduleMore(s: State, tid: nat, fastPath: bool, n: nat)
    requires tid in s.producers
    ensures ScheduleAlone(s, tid, fastPath, n + 1) == Produce(ScheduleAlone(s, tid, fastPath, n), tid, fastPath)
  {
  }

  /** A push of either kind, with no other thread in its way. */
  lemma PushSteps(s: State, tid: nat, fastPath: bool)
    requires tid in s.producers && s.producers[tid] == Outside && s.tickets - s.tail < s.cap
    ensures ScheduleAlone(s, tid, fastPath, 2) ==
            s.(tickets := s.tickets + 1, published := s.published + {s.tickets},
               producers := s.producers[tid := Counting])
  {
    ScheduleMore(s, tid, fastPath, 0);
    ScheduleMore(s, tid, fastPath, 1);
    hide ScheduleAlone;
    var m: map<nat, Producer> := s.producers;
    assert m[tid := Hidden][tid := Counting] == m[tid := Counting] == m[tid := Claimed(s.tickets)][tid := Counting];
  }

  /** The first to be counted signals a reactor that cleared its flag. */
  lemma SignalSteps(s: State, tid: nat, fastPath: bool)
    requires tid in s.producers && s.producers[tid] == Counting && s.pending == 0 && !s.needsWakeup
    ensures ScheduleAlone(s, tid, fastPath, 3) ==
            s.(pending := 1, needsWakeup := true, signal := true, producers := s.producers[tid := Outside])
  {
    ScheduleMore(s, tid, fastPath, 0);
    ScheduleMore(s, tid, fastPath, 1);
    ScheduleMore(s, tid, fastPath, 2);
    hide ScheduleAlone;
    var m: map<nat, Producer> := s.producers;
    assert m[tid := FoundZero][tid := Signalling] == m[tid := Signalling];
    assert m[tid := Signalling][tid := Outside] == m[tid := Outside];
  }

  lemma {:induction false} ScheduleAdd(s: State, tid: nat, fastPath: bool, m: nat, n: nat)
    requires tid in s.producers
    ensures ScheduleAlone(s, tid, fastPath, m + n) ==
            ScheduleAlone(ScheduleAlone(s, tid, fastPath, m), tid, fastPath, n)
  {
    hide Produce;
    if n > 0 {
      ScheduleAdd(s, tid, fastPath, m, n - 1);
      assert m + n - 1 == m + (n - 1);
    }
  }

  /** Scheduled alone while the reactor sleeps with nothing queued, a task signals the eventfd. */
  lemma ScheduleSignals(s: State, tid: nat, fastPath: bool)
    requires tid in s.producers && s.producers[tid] == Outside
    requires s.tickets == s.tail && s.cap > 0 && s.pending == 0 && !s.needsWakeup
    ensures ScheduleAlone(s, tid, fastPath, 5) ==
            s.(tickets := s.tickets + 1, published := s.published + {s.tickets}, pending := 1, needsWakeup := true,
               signal := true)
  {
    hide ScheduleAlone;
    PushSteps(s, tid, fastPath);
    ScheduleAdd(s, tid, fastPath, 2, 3);
    SignalSteps(ScheduleAlone(s, tid, fastPath, 2), tid, fastPath);
    assert s.producers[tid := Counting][tid := Outside] == s.producers;
  }

  /** A task scheduled while the reactor sleeps wakes it and is popped. */
  lemma SleeperRunsTask(s: State, tid: nat, fastPath: bool)
    requires tid in s.producers && s.producers[tid] == Outside && s.reactor == Waiting
    requires s.tickets == s.tail && s.cap > 0 && s.pending == 0 && !s.needsWakeup
    ensures var s' := ReactorAlone(ScheduleAlone(s, tid, fastPath, 5), 7);
            && s'.tail == s'.tickets == s.tickets + 1 && s'.pending == 0 && !s'.needsWakeup && !s'.signal
            && s'.reactor == Deciding
  {
    ScheduleSignals(s, tid, fastPath);
    var t := ScheduleAlone(s, tid, fastPath, 5);
    hide ScheduleAlone;
    ReactorMore(t, 0);
    ReactorMore(t, 1);
    ReactorMore(t, 2);
    var awake := t.(signal := false, reactor := LoopTop);
    assert ReactorAlone(t, 3) == awake;
    hide ReactorAlone;
    ReactorAdd(t, 3, 4);
    RoundPopsAll(awake);
  }

  /** After a round the reactor goes to sleep exactly if the round emptied the queue and nothing else is due. */
  lemma SleepsExactlyIfEmpty(s: State)
    requires s.reactor == LoopTop && AllPublished(s, s.pending)
    ensures var rested := ReactorAlone(s, s.pending + 3);
            && ReactorStep(rested, false).reactor == (if s.tail + s.pending == Head(s) then Waiting else Polling)
            && ReactorStep(rested, true).reactor == Polling
  {
    RoundPopsAll(s);
    hide ReactorAlone, HiddenOnes;
  }

  /** Reading the eventfd clears the signal and takes note that the reactor is awake. */
  lemma AwakeIsNoted(s: State)
    requires s.reactor == Returned && s.signal
    ensures ReactorAlone(s, 2) == s.(signal := false, needsWakeup := true, reactor := LoopTop)
  {
    ReactorMore(s, 0);
    ReactorMore(s, 1);
  }

  lemma CountSteps(s: State, tid: nat, fastPath: bool)
    requires tid in s.producers && s.producers[tid] == Counting && s.pending == 0 && s.needsWakeup
    ensures ScheduleAlone(s, tid, fastPath, 2) == s.(pending := 1, producers := s.producers[tid := Outside])
  {
    ScheduleMore(s, tid, fastPath, 0);
    ScheduleMore(s, tid, fastPath, 1);
    hide ScheduleAlone;
    var m: map<nat, Producer> := s.producers;
    assert m[tid := FoundZero][tid := Outside] == m[tid := Outside];
  }

  /** A reactor noted as awake is given the task without another signal. */
  lemma AwakeIsNotSignalled(s: State, tid: nat, fastPath: bool)
    requires tid in s.producers && s.producers[tid] == Outside && s.tickets - s.tail < s.cap
    requires s.pending == 0 && s.needsWakeup
    ensures ScheduleAlone(s, tid, fastPath, 4) ==
            s.(tickets := s.tickets + 1, published := s.published + {s.tickets}, pending := 1)
  {
    hide ScheduleAlone;
    PushSteps(s, tid, fastPath);
    ScheduleAdd(s, tid, fastPath, 2, 2);
    CountSteps(ScheduleAlone(s, tid, fastPath, 2), tid, fastPath);
    assert s.producers[tid := Counting][tid := Outside] == s.producers;
  }
}
