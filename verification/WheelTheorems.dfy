/** What the wheel promises about its timers, over every run of adds, cancels and ticks. */
module WheelTheorems {
  import opened Counting
  import opened Options
  import opened WheelInvariant
  import opened WheelModel

  // ----- Runs -----

  datatype Action = DoAdd(timeout: int, cb: Callback) | DoCancel(id: nat) | DoTick(now: int)

  function Act(w: Wheel, a: Action): (w': Wheel)
    requires Shaped(w)
    ensures Shaped(w')
  {
    match a
    case DoAdd(timeout, cb) => Add(w, timeout, cb).0
    case DoCancel(id) => Cancel(w, id).0
    case DoTick(now) => Tick(w, now)
  }

  function Run(w: Wheel, actions: seq<Action>): (w': Wheel)
    requires Shaped(w)
    ensures Shaped(w')
  {
    if actions == [] then w else Act(Run(w, actions[..|actions| - 1]), actions[|actions| - 1])
  }

  /** `after` comes later than `before`: fates are final, due advances never change. */
  ghost predicate Later(before: Wheel, after: Wheel)
    requires Shaped(before) && Shaped(after)
  {
    && |before.status| <= |after.status| && before.advances <= after.advances
    && |after.slots| == |before.slots| && after.tickMs == before.tickMs
    && (forall n :: 0 <= n < |before.status| ==>
          after.due[n] == before.due[n] && after.issued[n] == before.issued[n]
          && (before.status[n] == Live || after.status[n] == before.status[n]))
  }

  lemma AddLater(w: Wheel, timeout: int, cb: Callback)
    requires Shaped(w)
    ensures Later(w, Add(w, timeout, cb).0)
    ensures Add(w, timeout, cb).0.advances == w.advances && Add(w, timeout, cb).0.lastTick == w.lastTick
  {
  }

  lemma CancelLater(w: Wheel, id: nat)
    requires Shaped(w) && Owners(w)
    ensures Later(w, Cancel(w, id).0)
    ensures Cancel(w, id).0.advances == w.advances && Cancel(w, id).0.lastTick == w.lastTick
  {
  }

  lemma {:induction false} RunOpsLater(w: Wheel, ops: seq<Op>, q: seq<Handle>)
    requires Inv(w, q)
    ensures Later(w, RunOps(w, ops))
    ensures RunOps(w, ops).advances == w.advances && RunOps(w, ops).lastTick == w.lastTick
    decreases |ops|
  {
    hide FreeOk, Linked, Timed, Ids, Add, Cancel;
    if ops != [] {
      var before := ops[..|ops| - 1];
      RunOpsLater(w, before, q);
      RunOpsKeeps(w, before, q);
      match ops[|ops| - 1]
      case OpAdd(timeout, cb) => AddLater(RunOps(w, before), timeout, cb);
      case OpCancel(id) => CancelLater(RunOps(w, before), id);
    }
  }

  lemma VisitLater(w: Wheel, h: Handle, compacting: bool, q: seq<Handle>)
    requires Inv(w, [h] + q)
    ensures Later(w, Visit(w, h, compacting))
    ensures Visit(w, h, compacting).advances == w.advances && Visit(w, h, compacting).lastTick == w.lastTick
  {
    TailFacts(h, q);
    assert HandleOk(w, w.current, h);
    var e := w.entries[h.index];
    if !e.cancelled && e.rounds == 0 {
      FireKeeps(w, h, q);
      var fired := Release(NoteFired(w, h.index), h.index);
      assert Later(w, fired);
      RunOpsLater(fired, CallbackOps(e), q);
    }
  }

  lemma {:induction false} VisitAllLater(w: Wheel, hs: seq<Handle>, compacting: bool)
    requires Inv(w, hs)
    ensures Later(w, VisitAll(w, hs, compacting))
    ensures VisitAll(w, hs, compacting).advances == w.advances && VisitAll(w, hs, compacting).lastTick == w.lastTick
    decreases |hs|
  {
    hide FreeOk, Linked, Owners, Timed, Ids, Visit;
    if hs != [] {
      assert hs == [hs[0]] + hs[1..];
      VisitLater(w, hs[0], compacting, hs[1..]);
      VisitKeeps(w, hs[0], compacting, hs[1..]);
      VisitAllLater(Visit(w, hs[0], compacting), hs[1..], compacting);
    }
  }

  lemma SweepLater(w: Wheel, hs: seq<Handle>)
    requires Inv(w, hs)
    ensures Later(w, Sweep(w, hs))
    ensures Sweep(w, hs).advances == w.advances && Sweep(w, hs).lastTick == w.lastTick
  {
    hide FreeOk, Linked, Owners, Timed, Ids, VisitAll;
    if hs != [] {
      CountersAreFree(w, Counted(w), hs);
      VisitAllLater(Counted(w), hs, (w.compaction + 1) % COMPACT_INTERVAL_TICKS == 0);
    }
  }

  lemma AdvanceLater(w: Wheel)
    requires Inv(w, [])
    ensures Later(w, Advance(w))
    ensures Advance(w).advances == w.advances + 1 && Advance(w).lastTick == w.lastTick
  {
    hide FreeOk, Linked, Owners, Timed, Ids, Sweep;
    MoveCursorKeeps(w);
    SweepLater(MoveCursor(w), w.slots[MoveCursor(w).current]);
  }

  lemma {:induction false} AdvanceTimesKeeps(w: Wheel, n: nat)
    requires Inv(w, [])
    ensures Inv(AdvanceTimes(w, n), []) && Later(w, AdvanceTimes(w, n))
    ensures AdvanceTimes(w, n).advances == w.advances + n && AdvanceTimes(w, n).lastTick == w.lastTick
  {
    hide FreeOk, Linked, Owners, Timed, Ids, Advance;
    if n > 0 {
      AdvanceTimesKeeps(w, n - 1);
      AdvanceKeeps(AdvanceTimes(w, n - 1));
      AdvanceLater(AdvanceTimes(w, n - 1));
    }
  }

  lemma TickKeeps(w: Wheel, now: int)
    requires Inv(w, [])
    ensures Inv(Tick(w, now), []) && Later(w, Tick(w, now))
    ensures Tick(w, now).advances == w.advances + TicksElapsed(w, now)
    ensures Tick(w, now).lastTick == w.lastTick + TicksElapsed(w, now) * (w.tickMs * NS_PER_MS)
  {
    hide FreeOk, Linked, Owners, Timed, Ids, AdvanceTimes, TicksElapsed;
    var n := TicksElapsed(w, now);
    CountersAreFree(w, Clocked(w, n), []);
    AdvanceTimesKeeps(Clocked(w, n), n);
  }

  lemma {:induction false} RunKeeps(w: Wheel, actions: seq<Action>)
    requires Inv(w, [])
    ensures Inv(Run(w, actions), []) && Later(w, Run(w, actions))
  {
    hide FreeOk, Linked, Timed, Ids, Add, Cancel, Tick;
    if actions != [] {
      var before := actions[..|actions| - 1];
      RunKeeps(w, before);
      var r := Run(w, before);
      match actions[|actions| - 1]
      case DoAdd(timeout, cb) =>
        AddKeeps(r, timeout, cb, []);
        AddLater(r, timeout, cb);
      case DoCancel(id) =>
        CancelKeeps(r, id, []);
        CancelLater(r, id);
      case DoTick(now) => TickKeeps(r, now);
    }
  }

  // ----- Fates and ids -----

  /** Every run from a new wheel keeps the invariant, which the theorems below start from. */
  lemma ReachableKeeps(size: nat, tickMs: nat, start: int, actions: seq<Action>)
    requires 0 < size && 0 < tickMs
    ensures Inv(Run(Init(size, tickMs, start), actions), [])
  {
    InitInv(size, tickMs, start);
    RunKeeps(Init(size, tickMs, start), actions);
  }

  /** A fate is final: what has fired does not fire again, and what was cancelled never fires. */
  lemma FateIsFinal(w: Wheel, actions: seq<Action>, n: nat)
    requires Inv(w, []) && n < |w.status| && w.status[n] != Live
    ensures var w' := Run(w, actions); n < |w'.status| && w'.status[n] == w.status[n]
  {
    RunKeeps(w, actions);
  }

  /** Before a generation wraps, the id that add returned cancels its own timer or nothing, and it
      does cancel a live one. */
  lemma CancelNamesItsTimer(w: Wheel, n: nat, q: seq<Handle>)
    requires Inv(w, q) && !w.wrapped && n < |w.issued| && |w.entries| <= WORD
    ensures var (w', ok) := Cancel(w, MakeId(w.issued[n]));
            && (ok ==> w.status[n] != Live || w'.status[n] == Cancelled)
            && (w.status[n] == Live ==> ok)
            && (forall m :: 0 <= m < |w.status| && m != n ==> w'.status[m] == w.status[m])
  {
    IdRoundTrip(w.issued[n]);
    if w.status[n] == Live {
      assert HasEntry(w, n);
      IssuedByOwner(w, n, q);
    }
  }

  lemma IssuedByOwner(w: Wheel, n: nat, q: seq<Handle>)
    requires Inv(w, q) && !w.wrapped && n < |w.issued| && w.status[n] == Live
    ensures Cancellable(w, w.issued[n])
  {
  }

  // ----- Structure -----

  /** The count of pending entries is the number of active ones. */
  lemma PendingCountsActive(w: Wheel, q: seq<Handle>)
    requires Inv(w, q)
    ensures w.pending == |set e | 0 <= e < |w.entries| && w.entries[e].active|
  {
    var active := set e | 0 <= e < |w.entries| && w.entries[e].active;
    CountElements(w.free);
    assert Elements(w.free) + active == Below(|w.entries|);
    assert Elements(w.free) !! active;
  }

  // ----- The clock -----

  /** The clock never drifts: it stands at the start plus one tick for each advance. */
  lemma {:induction false} TickIsDriftFree(size: nat, tickMs: nat, start: int, actions: seq<Action>)
    requires 0 < size && 0 < tickMs
    ensures var w := Run(Init(size, tickMs, start), actions);
            w.lastTick == start + w.advances * (tickMs * NS_PER_MS)
  {
    hide FreeOk, Linked, Owners, Timed, Ids, Add, Cancel, Tick, TicksElapsed;
    var w0 := Init(size, tickMs, start);
    InitInv(size, tickMs, start);
    if actions != [] {
      var before := actions[..|actions| - 1];
      TickIsDriftFree(size, tickMs, start, before);
      RunKeeps(w0, before);
      var r := Run(w0, before);
      match actions[|actions| - 1]
      case DoAdd(timeout, cb) => AddLater(r, timeout, cb);
      case DoCancel(id) => CancelLater(r, id);
      case DoTick(now) =>
        TickKeeps(r, now);
        Distribute(r.advances, TicksElapsed(r, now), tickMs * NS_PER_MS);
    }
  }

  lemma Distribute(a: int, b: int, c: int)
    ensures (a + b) * c == a * c + b * c
  {
  }

  function SetClock(w: Wheel, t: int): Wheel {
    w.(lastTick := t)
  }

  // Nothing but tick itself reads the clock.

  lemma AddIgnoresClock(w: Wheel, timeout: int, cb: Callback, t: int)
    requires Shaped(w)
    ensures Add(SetClock(w, t), timeout, cb).0 == SetClock(Add(w, timeout, cb).0, t)
  {
  }

  lemma CancelIgnoresClock(w: Wheel, id: nat, t: int)
    requires Shaped(w)
    ensures Cancel(SetClock(w, t), id).0 == SetClock(Cancel(w, id).0, t)
  {
  }

  lemma {:induction false} RunOpsIgnoresClock(w: Wheel, ops: seq<Op>, t: int)
    requires Shaped(w)
    ensures RunOps(SetClock(w, t), ops) == SetClock(RunOps(w, ops), t)
    decreases |ops|
  {
    hide Add, Cancel;
    if ops != [] {
      var before := ops[..|ops| - 1];
      RunOpsIgnoresClock(w, before, t);
      match ops[|ops| - 1]
      case OpAdd(timeout, cb) => AddIgnoresClock(RunOps(w, before), timeout, cb, t);
      case OpCancel(id) => CancelIgnoresClock(RunOps(w, before), id, t);
    }
  }

  lemma VisitIgnoresClock(w: Wheel, h: Handle, compacting: bool, t: int)
    requires Shaped(w)
    ensures Visit(SetClock(w, t), h, compacting) == SetClock(Visit(w, h, compacting), t)
  {
    if Cancellable(w, h) && !w.entries[h.index].cancelled && w.entries[h.index].rounds == 0 {
      var fired := Release(NoteFired(w, h.index), h.index);
      assert Release(NoteFired(SetClock(w, t), h.index), h.index) == SetClock(fired, t);
      RunOpsIgnoresClock(fired, CallbackOps(w.entries[h.index]), t);
    }
  }

  lemma {:induction false} VisitAllIgnoresClock(w: Wheel, hs: seq<Handle>, compacting: bool, t: int)
    requires Shaped(w)
    ensures VisitAll(SetClock(w, t), hs, compacting) == SetClock(VisitAll(w, hs, compacting), t)
    decreases |hs|
  {
    hide Visit;
    if hs != [] {
      VisitIgnoresClock(w, hs[0], compacting, t);
      VisitAllIgnoresClock(Visit(w, hs[0], compacting), hs[1..], compacting, t);
    }
  }

  lemma AdvanceIgnoresClock(w: Wheel, t: int)
    requires Shaped(w)
    ensures Advance(SetClock(w, t)) == SetClock(Advance(w), t)
  {
    hide VisitAll;
    var m := MoveCursor(w);
    assert MoveCursor(SetClock(w, t)) == SetClock(m, t);
    var hs := w.slots[m.current];
    if hs != [] {
      assert Counted(SetClock(m, t)) == SetClock(Counted(m), t);
      VisitAllIgnoresClock(Counted(m), hs, (m.compaction + 1) % COMPACT_INTERVAL_TICKS == 0, t);
    }
  }

  lemma {:induction false} AdvanceTimesIgnoresClock(w: Wheel, n: nat, t: int)
    requires Shaped(w)
    ensures AdvanceTimes(SetClock(w, t), n) == SetClock(AdvanceTimes(w, n), t)
  {
    hide Advance;
    if n > 0 {
      AdvanceTimesIgnoresClock(w, n - 1, t);
      AdvanceIgnoresClock(AdvanceTimes(w, n - 1), t);
    }
  }

  lemma {:induction false} AdvanceTimesAdd(w: Wheel, m: nat, n: nat)
    requires Shaped(w)
    ensures AdvanceTimes(AdvanceTimes(w, m), n) == AdvanceTimes(w, m + n)
  {
    hide Advance, Shaped;
    if n > 0 {
      AdvanceTimesAdd(w, m, n - 1);
      assert m + n - 1 == m + (n - 1);
    }
  }

  lemma Floor(n: nat, d: nat)
    requires 0 < d
    ensures n / d * d <= n < n / d * d + d
  {
  }

  /** Rounding down to milliseconds and then to ticks is rounding down to ticks. */
  lemma TicksAreFloor(w: Wheel, now: int)
    requires 0 < w.tickMs
    ensures var u := w.tickMs * NS_PER_MS;
            var n := TicksElapsed(w, now);
            now > w.lastTick ==> n * u <= now - w.lastTick < n * u + u
  {
    if now > w.lastTick {
      var d := now - w.lastTick;
      Floor(d, NS_PER_MS);
      Floor(d / NS_PER_MS, w.tickMs);
      var n := d / NS_PER_MS / w.tickMs;
      assert n * (w.tickMs * NS_PER_MS) == n * w.tickMs * NS_PER_MS;
    }
  }

  lemma TicksUnique(w: Wheel, now: int, n: nat)
    requires 0 < w.tickMs && now > w.lastTick
    requires var u := w.tickMs * NS_PER_MS; n * u <= now - w.lastTick < n * u + u
    ensures TicksElapsed(w, now) == n
  {
    TicksAreFloor(w, now);
    var u, m := w.tickMs * NS_PER_MS, TicksElapsed(w, now);
    if m < n {
      Distribute(m, 1, u);
      Monotone(m + 1, n, u);
    } else if n < m {
      Distribute(n, 1, u);
      Monotone(n + 1, m, u);
    }
  }

  lemma Monotone(a: nat, b: nat, c: nat)
    requires a <= b
    ensures a * c <= b * c
  {
  }

  lemma TickAs(w: Wheel, now: int, n: nat, t: int)
    requires Shaped(w) && n == TicksElapsed(w, now) && Clocked(w, n) == SetClock(w, t)
    ensures Tick(w, now) == SetClock(AdvanceTimes(w, n), t)
  {
    AdvanceTimesIgnoresClock(w, n, t);
  }

  /** One late tick does what any earlier tick on the way and the late one do together. */
  lemma TickIsBatchInvariant(w: Wheel, t1: int, t2: int)
    requires Inv(w, []) && t1 <= t2
    ensures Tick(Tick(w, t1), t2) == Tick(w, t2)
  {
    hide FreeOk, Linked, Owners, Timed, Ids, Tick, TicksElapsed, AdvanceTimes;
    var u := w.tickMs * NS_PER_MS;
    var n1, w1 := TicksElapsed(w, t1), Tick(w, t1);
    var n2 := TicksElapsed(w1, t2);
    TickKeeps(w, t1);
    TicksSplit(w, w1, t1, t2);
    Distribute(n1, n2, u);
    var l1, l2 := w.lastTick + n1 * u, w1.lastTick + n2 * u;
    TickAs(w, t1, n1, l1);
    TickAs(w1, t2, n2, l2);
    TickAs(w, t2, n1 + n2, l2);
    TwoBatches(w, n1, n2, l1, l2);
  }

  lemma TwoBatches(w: Wheel, n1: nat, n2: nat, l1: int, l2: int)
    requires Shaped(w)
    ensures SetClock(AdvanceTimes(SetClock(AdvanceTimes(w, n1), l1), n2), l2) == SetClock(AdvanceTimes(w, n1 + n2), l2)
  {
    AdvanceTimesIgnoresClock(AdvanceTimes(w, n1), n2, l1);
    AdvanceTimesAdd(w, n1, n2);
  }

  lemma TicksSplit(w: Wheel, w1: Wheel, t1: int, t2: int)
    requires 0 < w.tickMs == w1.tickMs && t1 <= t2
    requires w1.lastTick == w.lastTick + TicksElapsed(w, t1) * (w.tickMs * NS_PER_MS)
    ensures TicksElapsed(w, t2) == TicksElapsed(w, t1) + TicksElapsed(w1, t2)
  {
    var u := w.tickMs * NS_PER_MS;
    var n1, n2 := TicksElapsed(w, t1), TicksElapsed(w1, t2);
    TicksAreFloor(w, t1);
    TicksAreFloor(w1, t2);
    Distribute(n1, n2, u);
    if t2 > w.lastTick {
      TicksUnique(w, t2, n1 + n2);
    }
  }

  // ----- When to look again -----

  /** What the wheel estimates for a handle in slot s: milliseconds from `now`. */
  function Candidate(w: Wheel, s: nat, h: Handle, now: int): int
    requires Shaped(w) && h.index < |w.entries|
  {
    var since := if now > w.lastTick then (now - w.lastTick) / NS_PER_MS else 0;
    var base := w.tickMs - (if since < w.tickMs then since else w.tickMs);
    var offset := if s >= w.current then s - w.current else |w.slots| - (w.current - s);
    base + (offset + w.entries[h.index].rounds * |w.slots|) * w.tickMs
  }

  ghost predicate Considered(w: Wheel, s: nat, h: Handle) {
    s < |w.slots| && h in w.slots[s] && Cancellable(w, h)
  }

  /** The estimate that time_until_next_expiration returns. */
  ghost predicate IsNextExpiration(w: Wheel, now: int, r: Option<int>)
    requires Shaped(w)
  {
    if w.pending == 0 then r == None
    else
      && (r.Some? ==> exists s, h :: Considered(w, s, h) && r.value == Candidate(w, s, h, now))
      && (forall s, h :: Considered(w, s, h) ==> r.Some? && r.value <= Candidate(w, s, h, now))
  }

  /** The estimate exceeds the time left for any live timer by at most one tick, or by the time since
      the last tick when that is longer; with nothing pending there is no live timer. */
  lemma NextExpirationIsNotLate(w: Wheel, now: int, r: Option<int>, n: nat)
    requires Inv(w, []) && IsNextExpiration(w, now, r) && n < |w.status| && w.status[n] == Live
    ensures var since := if now > w.lastTick then (now - w.lastTick) / NS_PER_MS else 0;
            var left := (w.due[n] - w.advances) * w.tickMs - since;
            r.Some? && r.value <= left + if since < w.tickMs then w.tickMs else since
  {
    var s, h := LiveCandidate(w, n);
    hide Inv, Considered;
    var offset := if s >= w.current then s - w.current else |w.slots| - (w.current - s);
    Monotone(offset + w.entries[h.index].rounds * |w.slots|, w.due[n] - w.advances, w.tickMs);
  }

  /** The handle of a live timer, at most as many ticks away as the timer is from its due advance. */
  lemma LiveCandidate(w: Wheel, n: nat) returns (s: nat, h: Handle)
    requires Inv(w, []) && n < |w.status| && w.status[n] == Live
    ensures w.pending > 0 && Considered(w, s, h) && h.index < |w.entries|
    ensures var offset := if s >= w.current then s - w.current else |w.slots| - (w.current - s);
            0 <= offset + w.entries[h.index].rounds * |w.slots| <= w.due[n] - w.advances
  {
    hide Ids, FreeOk;
    assert HasEntry(w, n);
    var e :| 0 <= e < |w.entries| && w.entries[e].active && w.owner[e] == n;
    PendingPositive(w, e);
    s, h := w.entries[e].slot, HandleOf(w, e);
    assert h in w.slots[s];
    LapsIsProduct(w.entries[e].rounds, |w.slots|);
  }

  lemma PendingPositive(w: Wheel, e: nat)
    requires Inv(w, []) && e < |w.entries| && w.entries[e].active
    ensures w.pending > 0
  {
    ActiveIsPending(w, e);
  }

  /** Milliseconds from `now` until the next advance, at most one tick. */
  function UntilAdvance(w: Wheel, now: int): int {
    var since := if now > w.lastTick then (now - w.lastTick) / NS_PER_MS else 0;
    w.tickMs - (if since < w.tickMs then since else w.tickMs)
  }

  /** What is estimated for a live timer: its due advance, a turn too early if it sits in the slot under
      the cursor. */
  lemma CandidateOfLive(w: Wheel, s: nat, h: Handle, now: int)
    requires Inv(w, []) && Considered(w, s, h) && !w.entries[h.index].cancelled
    ensures var n := w.owner[h.index];
            && w.status[n] == Live
            && Candidate(w, s, h, now) ==
               UntilAdvance(w, now) + (w.due[n] - w.advances - (if s == w.current then |w.slots| else 0)) * w.tickMs
  {
    hide Ids, FreeOk;
    var e := h.index;
    assert HandleOk(w, s, h) && HandleOf(w, e) == h;
    LapsIsProduct(w.entries[e].rounds, |w.slots|);
  }

  /** The estimate is that of the earliest entry, neither later nor earlier: when every entry is live
      and none is in the slot under the cursor, it is exact. */
  lemma NextExpirationIsExact(w: Wheel, now: int, r: int) returns (n: nat)
    requires Inv(w, []) && IsNextExpiration(w, now, Some(r))
    requires forall s, h :: Considered(w, s, h) ==> s != w.current && !w.entries[h.index].cancelled
    ensures n < |w.status| && w.status[n] == Live
    ensures r == UntilAdvance(w, now) + (w.due[n] - w.advances) * w.tickMs
    ensures forall m :: 0 <= m < |w.status| && w.status[m] == Live ==> w.due[n] <= w.due[m]
  {
    hide Ids, FreeOk, Owners, Timed, Linked, Candidate, UntilAdvance;
    var s, h :| Considered(w, s, h) && r == Candidate(w, s, h, now);
    CandidateOfLive(w, s, h, now);
    n := w.owner[h.index];
    forall m | 0 <= m < |w.status| && w.status[m] == Live
      ensures w.due[n] <= w.due[m]
    {
      var z, g := OfLive(w, m);
      CandidateOfLive(w, z, g, now);
      Cancels(w.due[n] - w.advances, w.due[m] - w.advances, w.tickMs);
    }
  }

  lemma Cancels(a: int, b: int, c: nat)
    requires 0 < c && a * c <= b * c
    ensures a <= b
  {
    if a > b {
      Distribute(a - b, b, c);
      Monotone(1, a - b, c);
    }
  }

  /** The handle of a live timer. */
  lemma OfLive(w: Wheel, n: nat) returns (s: nat, h: Handle)
    requires Inv(w, []) && n < |w.status| && w.status[n] == Live
    ensures Considered(w, s, h) && w.owner[h.index] == n
  {
    hide Ids, FreeOk, Timed;
    assert HasEntry(w, n);
    var e :| 0 <= e < |w.entries| && w.entries[e].active && w.owner[e] == n;
    s, h := w.entries[e].slot, HandleOf(w, e);
    assert h in w.slots[s];
  }

  /** A timer of exactly one turn, on a new wheel of 4 slots and 100 ms: it fires on the eighth advance,
      after 800 ms, and is estimated at 500. */
  lemma EstimateIsATurnEarly(cb: Callback)
    ensures var w := Add(Init(4, 100, 0), 400, cb).0;
            w.due == [8] && IsNextExpiration(w, 0, Some(500))
  {
    var w := Add(Init(4, 100, 0), 400, cb).0;
    assert Considered(w, 0, Handle(0, 1)) && Candidate(w, 0, Handle(0, 1), 0) == 500;
  }

  // ----- Rounding -----

  /** A timeout in ticks is rounded up. */
  lemma TicksRoundUp(timeout: int, tickMs: nat)
    requires 0 < tickMs
    ensures var k, t := Ticks(timeout, tickMs), if timeout <= 0 then 1 else timeout;
            (k - 1) * tickMs < t <= k * tickMs
  {
    var t := if timeout <= 0 then 1 else timeout;
    Floor(t + tickMs - 1, tickMs);
    Distribute((t + tickMs - 1) / tickMs, -1, tickMs);
  }

  /** No timer fires before as many milliseconds of ticks as it asked for. */
  lemma TimeoutElapses(timeout: int, tickMs: nat, size: nat)
    requires 0 < tickMs && 0 < size
    ensures timeout <= Delay(Ticks(timeout, tickMs), size) * tickMs
  {
    TicksRoundUp(timeout, tickMs);
    Monotone(Ticks(timeout, tickMs), Delay(Ticks(timeout, tickMs), size), tickMs);
  }
}
