/**
 When timers fire, over every run. A timer can be added by a caller or by a callback in the middle of
 an advance, and can be cancelled by either; nothing else keeps it from firing on time.
 */
module WheelFiring {
  import opened Options
  import opened WheelCallbacks
  import opened WheelInvariant
  import opened WheelModel
  import opened WheelTheorems

  // ----- The ids that cancel is called with on the way -----

  function IdsInOps(ops: seq<Op>): set<nat> {
    if ops == [] then {}
    else
      var last := ops[|ops| - 1];
      IdsInOps(ops[..|ops| - 1]) + if last.OpCancel? then {last.id} else {}
  }

  function IdsInVisit(w: Wheel, h: Handle): set<nat> {
    if FiresNow(w, h) then IdsInOps(CallbackOps(w.entries[h.index])) else {}
  }

  function IdsInVisits(w: Wheel, hs: seq<Handle>, compacting: bool): set<nat>
    requires Shaped(w)
    decreases |hs|
  {
    if hs == [] then {} else IdsInVisit(w, hs[0]) + IdsInVisits(Visit(w, hs[0], compacting), hs[1..], compacting)
  }

  function IdsInSweep(w: Wheel, hs: seq<Handle>): set<nat>
    requires Shaped(w)
  {
    if hs == [] then {} else IdsInVisits(Counted(w), hs, (w.compaction + 1) % COMPACT_INTERVAL_TICKS == 0)
  }

  function IdsInAdvances(w: Wheel, n: nat): set<nat>
    requires Shaped(w)
  {
    if n == 0 then {}
    else
      var before := AdvanceTimes(w, n - 1);
      var m := MoveCursor(before);
      IdsInAdvances(w, n - 1) + IdsInSweep(m, before.slots[m.current])
  }

  function IdsInAction(w: Wheel, a: Action): set<nat>
    requires Shaped(w)
  {
    match a
    case DoAdd(_, _) => {}
    case DoCancel(id) => {id}
    case DoTick(now) => IdsInAdvances(Clocked(w, TicksElapsed(w, now)), TicksElapsed(w, now))
  }

  function IdsInRun(w: Wheel, actions: seq<Action>): set<nat>
    requires Shaped(w)
  {
    if actions == [] then {}
    else
      var before := actions[..|actions| - 1];
      IdsInRun(w, before) + IdsInAction(Run(w, before), actions[|actions| - 1])
  }

  // ----- A timer whose id is not among them is not cancelled -----

  predicate Uncancelled(w: Wheel, n: nat, id: nat) {
    n < |w.status| && n < |w.issued| && w.status[n] != Cancelled && MakeId(w.issued[n]) == id
  }

  lemma MakeOfDecoded(id: nat)
    ensures MakeId(DecodeId(id)) == id
  {
  }

  /** Even after a generation has wrapped, a cancel hits only the timer whose own id it is given. */
  lemma CancelLeaves(w: Wheel, other: nat, n: nat, id: nat, q: seq<Handle>)
    requires Inv(w, q) && Uncancelled(w, n, id) && other != id
    ensures Uncancelled(Cancel(w, other).0, n, id)
  {
    hide FreeOk, Linked, Timed, Ids, MakeId, DecodeId;
    MakeOfDecoded(other);
    var h := DecodeId(other);
    if Cancellable(w, h) {
      assert w.issued[w.owner[h.index]] == HandleOf(w, h.index) == h;
    }
  }

  lemma AddLeaves(w: Wheel, timeout: int, cb: Callback, n: nat, id: nat)
    requires Shaped(w) && Uncancelled(w, n, id)
    ensures Uncancelled(Add(w, timeout, cb).0, n, id)
  {
  }

  lemma {:induction false} OpsLeave(w: Wheel, ops: seq<Op>, n: nat, id: nat, q: seq<Handle>)
    requires Inv(w, q) && Uncancelled(w, n, id) && id !in IdsInOps(ops)
    ensures Uncancelled(RunOps(w, ops), n, id)
    decreases |ops|
  {
    hide FreeOk, Linked, Owners, Timed, Ids, Uncancelled, Add, Cancel;
    if ops != [] {
      var before := ops[..|ops| - 1];
      OpsLeave(w, before, n, id, q);
      RunOpsKeeps(w, before, q);
      match ops[|ops| - 1]
      case OpAdd(timeout, cb) => AddLeaves(RunOps(w, before), timeout, cb, n, id);
      case OpCancel(other) => CancelLeaves(RunOps(w, before), other, n, id, q);
    }
  }

  lemma VisitLeaves(w: Wheel, h: Handle, compacting: bool, n: nat, id: nat, q: seq<Handle>)
    requires Inv(w, [h] + q) && Uncancelled(w, n, id) && id !in IdsInVisit(w, h)
    ensures Uncancelled(Visit(w, h, compacting), n, id)
  {
    hide FreeOk, Linked, Owners, Timed, Ids, MakeId, RunOps;
    if FiresNow(w, h) {
      FireKeeps(w, h, q);
      OpsLeave(Release(NoteFired(w, h.index), h.index), CallbackOps(w.entries[h.index]), n, id, q);
    }
  }

  lemma {:induction false} VisitsLeave(w: Wheel, hs: seq<Handle>, compacting: bool, n: nat, id: nat)
    requires Inv(w, hs) && Uncancelled(w, n, id) && id !in IdsInVisits(w, hs, compacting)
    ensures Uncancelled(VisitAll(w, hs, compacting), n, id)
    decreases |hs|
  {
    hide FreeOk, Linked, Owners, Timed, Ids, Uncancelled, Visit, IdsInVisit;
    if hs != [] {
      assert hs == [hs[0]] + hs[1..];
      VisitLeaves(w, hs[0], compacting, n, id, hs[1..]);
      VisitKeeps(w, hs[0], compacting, hs[1..]);
      VisitsLeave(Visit(w, hs[0], compacting), hs[1..], compacting, n, id);
    }
  }

  lemma SweepLeaves(w: Wheel, hs: seq<Handle>, n: nat, id: nat)
    requires Inv(w, hs) && Uncancelled(w, n, id) && id !in IdsInSweep(w, hs)
    ensures Uncancelled(Sweep(w, hs), n, id)
  {
    hide FreeOk, Linked, Owners, Timed, Ids, VisitAll, IdsInVisits;
    if hs != [] {
      CountersAreFree(w, Counted(w), hs);
      VisitsLeave(Counted(w), hs, (w.compaction + 1) % COMPACT_INTERVAL_TICKS == 0, n, id);
    }
  }

  lemma {:induction false} AdvancesLeave(w: Wheel, m: nat, n: nat, id: nat)
    requires Inv(w, []) && Uncancelled(w, n, id) && id !in IdsInAdvances(w, m)
    ensures Uncancelled(AdvanceTimes(w, m), n, id)
  {
    hide FreeOk, Linked, Owners, Timed, Ids, Sweep, IdsInSweep;
    if m > 0 {
      var before := AdvanceTimes(w, m - 1);
      AdvancesLeave(w, m - 1, n, id);
      AdvanceTimesKeeps(w, m - 1);
      MoveCursorKeeps(before);
      SweepLeaves(MoveCursor(before), before.slots[MoveCursor(before).current], n, id);
    }
  }

  lemma ActionLeaves(w: Wheel, a: Action, n: nat, id: nat)
    requires Inv(w, []) && Uncancelled(w, n, id) && id !in IdsInAction(w, a)
    ensures Uncancelled(Act(w, a), n, id)
  {
    hide FreeOk, Linked, Owners, Timed, Ids, Add, Cancel, AdvanceTimes, IdsInAdvances;
    match a
    case DoAdd(timeout, cb) => AddLeaves(w, timeout, cb, n, id);
    case DoCancel(other) => CancelLeaves(w, other, n, id, []);
    case DoTick(now) =>
      var m := TicksElapsed(w, now);
      CountersAreFree(w, Clocked(w, m), []);
      AdvancesLeave(Clocked(w, m), m, n, id);
  }

  lemma {:induction false} RunLeaves(w: Wheel, actions: seq<Action>, n: nat, id: nat)
    requires Inv(w, []) && Uncancelled(w, n, id) && id !in IdsInRun(w, actions)
    ensures Uncancelled(Run(w, actions), n, id)
  {
    hide FreeOk, Linked, Owners, Timed, Ids, Uncancelled, Act, IdsInAction;
    if actions != [] {
      var before := actions[..|actions| - 1];
      RunLeaves(w, before, n, id);
      RunKeeps(w, before);
      ActionLeaves(Run(w, before), actions[|actions| - 1], n, id);
    }
  }

  // ----- Firing -----

  /** A live timer is not yet due. */
  lemma LiveIsAhead(w: Wheel, n: nat)
    requires Inv(w, []) && n < |w.status| && w.status[n] == Live
    ensures w.advances < w.due[n]
  {
    hide FreeOk, Ids;
    assert HasEntry(w, n);
    var e :| 0 <= e < |w.entries| && w.entries[e].active && w.owner[e] == n;
    assert w.entries[e].slot < |w.slots|;
  }

  /** Before its due advance a timer has not fired; from then on it has fired, exactly then; unless it
      was cancelled. */
  lemma FateByDue(w: Wheel, n: nat)
    requires Inv(w, []) && n < |w.status|
    ensures w.advances < w.due[n] ==> w.status[n] == Live || w.status[n] == Cancelled
    ensures w.advances >= w.due[n] ==> w.status[n] == Fired(w.due[n]) || w.status[n] == Cancelled
  {
    hide FreeOk, Linked, Timed, Ids;
    if w.status[n] == Live {
      LiveIsAhead(w, n);
    }
  }

  /** A timer of k ticks added at any point, also by a callback in the middle of a slot, is due k
      advances later, or k + W when W divides k. */
  lemma AddedIsDue(w: Wheel, timeout: int, cb: Callback, q: seq<Handle>)
    requires Inv(w, q)
    ensures var (w', id) := Add(w, timeout, cb);
            && Inv(w', q) && |w'.status| == |w.status| + 1 && w'.advances == w.advances
            && w'.due[|w.status|] == w.advances + Delay(Ticks(timeout, w.tickMs), |w.slots|)
            && Uncancelled(w', |w.status|, id)
  {
    AddKeeps(w, timeout, cb, q);
    hide FreeOk, Linked, Owners, Timed, Ids, MakeId, Ticks;
  }

  /** All that can come after a point in a callback: the rest of the callback, the handles of the slot
      not yet visited, the advances still due to the tick, and any actions. */
  datatype Rest = Rest(ops: seq<Op>, handles: seq<Handle>, compacting: bool, advances: nat, actions: seq<Action>)

  function Finish(w: Wheel, rest: Rest): (w': Wheel)
    requires Shaped(w)
    ensures Shaped(w')
  {
    Run(AdvanceTimes(VisitAll(RunOps(w, rest.ops), rest.handles, rest.compacting), rest.advances), rest.actions)
  }

  function IdsInRest(w: Wheel, rest: Rest): set<nat>
    requires Shaped(w)
  {
    var u := RunOps(w, rest.ops);
    var v := VisitAll(u, rest.handles, rest.compacting);
    IdsInOps(rest.ops) + IdsInVisits(u, rest.handles, rest.compacting)
    + IdsInAdvances(v, rest.advances) + IdsInRun(AdvanceTimes(v, rest.advances), rest.actions)
  }

  lemma FinishKeeps(w: Wheel, rest: Rest)
    requires Inv(w, rest.handles)
    ensures Inv(Finish(w, rest), []) && Later(w, Finish(w, rest))
  {
    hide FreeOk, Linked, Owners, Timed, Ids, RunOps, VisitAll, AdvanceTimes, Run;
    var u := RunOps(w, rest.ops);
    RunOpsKeeps(w, rest.ops, rest.handles);
    RunOpsLater(w, rest.ops, rest.handles);
    var v := VisitAll(u, rest.handles, rest.compacting);
    VisitAllKeeps(u, rest.handles, rest.compacting);
    VisitAllLater(u, rest.handles, rest.compacting);
    AdvanceTimesKeeps(v, rest.advances);
    RunKeeps(AdvanceTimes(v, rest.advances), rest.actions);
  }

  lemma FinishKept(w: Wheel, rest: Rest)
    requires Inv(w, rest.handles) && Kept(w)
    ensures Kept(Finish(w, rest)) && w.given <= Finish(w, rest).given
  {
    hide FreeOk, Linked, Owners, Timed, Ids, Kept, RunOps, VisitAll, AdvanceTimes, Run;
    var u := RunOps(w, rest.ops);
    RunOpsKept(w, rest.ops, rest.handles);
    RunOpsKeeps(w, rest.ops, rest.handles);
    var v := VisitAll(u, rest.handles, rest.compacting);
    VisitAllKept(u, rest.handles, rest.compacting);
    VisitAllKeeps(u, rest.handles, rest.compacting);
    AdvanceTimesKept(v, rest.advances);
    AdvanceTimesKeeps(v, rest.advances);
    RunKept(AdvanceTimes(v, rest.advances), rest.actions);
  }

  lemma FinishLeaves(w: Wheel, rest: Rest, n: nat, id: nat)
    requires Inv(w, rest.handles) && Uncancelled(w, n, id) && id !in IdsInRest(w, rest)
    ensures Uncancelled(Finish(w, rest), n, id)
  {
    hide FreeOk, Linked, Owners, Timed, Ids, Uncancelled, RunOps, VisitAll, AdvanceTimes, Run;
    hide IdsInOps, IdsInVisits, IdsInAdvances, IdsInRun;
    var u := RunOps(w, rest.ops);
    OpsLeave(w, rest.ops, n, id, rest.handles);
    RunOpsKeeps(w, rest.ops, rest.handles);
    var v := VisitAll(u, rest.handles, rest.compacting);
    VisitsLeave(u, rest.handles, rest.compacting, n, id);
    VisitAllKeeps(u, rest.handles, rest.compacting);
    AdvancesLeave(v, rest.advances, n, id);
    AdvanceTimesKeeps(v, rest.advances);
    RunLeaves(AdvanceTimes(v, rest.advances), rest.actions, n, id);
  }

  /** A timer of k ticks added to a wheel of W slots, at any point of any run and also by a callback in
      the middle of a slot, fires on the k-th following advance, or on the (k + W)-th when W divides k,
      and not before, whatever comes after it, unless its own id is cancelled on the way. Its own
      callback then runs, once, and at no other time. */
  lemma FiresExactlyWhenDue(w: Wheel, timeout: int, cb: Callback, rest: Rest)
    requires Inv(w, rest.handles) && Kept(w)
    ensures var n := |w.status|;
            var (added, id) := Add(w, timeout, cb);
            var w', due := Finish(added, rest), w.advances + Delay(Ticks(timeout, w.tickMs), |w.slots|);
            && n < |w'.status|
            && (w'.status[n] == Cancelled ==> id in IdsInRest(added, rest))
            && (w'.status[n] != Cancelled ==> w'.status[n] == if w'.advances < due then Live else Fired(due))
            && CallsOf(w'.ran, n) == if w'.status[n] == Fired(due) then [Call(n, cb.ops, due)] else []
  {
    hide FreeOk, Linked, Owners, Timed, Ids, Add, Finish, IdsInRest, CallsOf;
    var n := |w.status|;
    var (added, id) := Add(w, timeout, cb);
    AddedIsDue(w, timeout, cb, rest.handles);
    FinishKeeps(added, rest);
    FateByDue(Finish(added, rest), n);
    AddKept(w, timeout, cb);
    FinishKept(added, rest);
    assert RanAsDue(Finish(added, rest), n);
    if id !in IdsInRest(added, rest) {
      FinishLeaves(added, rest, n, id);
    }
  }

  /** The same for a timer added between actions that no action and no callback cancels. */
  lemma FiresUnlessCancelled(w: Wheel, timeout: int, cb: Callback, after: seq<Action>)
    requires Inv(w, []) && Kept(w)
    requires var (added, id) := Add(w, timeout, cb); id !in IdsInRun(added, after)
    ensures var w', due := Run(Add(w, timeout, cb).0, after), w.advances + Delay(Ticks(timeout, w.tickMs), |w.slots|);
            && |w.status| < |w'.status|
            && w'.status[|w.status|] == (if w'.advances < due then Live else Fired(due))
            && CallsOf(w'.ran, |w.status|) == if w'.advances < due then [] else [Call(|w.status|, cb.ops, due)]
  {
    hide FreeOk, Linked, Owners, Timed, Ids, Add, Kept, CallsOf;
    var added := Add(w, timeout, cb).0;
    var rest := Rest([], [], false, 0, after);
    assert Finish(added, rest) == Run(added, after);
    assert IdsInRest(added, rest) == IdsInRun(added, after);
    FiresExactlyWhenDue(w, timeout, cb, rest);
  }

  lemma {:induction false} RunOpsSplit(w: Wheel, ops: seq<Op>, i: nat)
    requires Shaped(w) && i <= |ops|
    ensures RunOps(w, ops) == RunOps(RunOps(w, ops[..i]), ops[i..])
    decreases |ops|
  {
    hide Shaped, Add, Cancel;
    if i == |ops| {
      assert ops[..i] == ops;
    } else {
      var n := |ops| - 1;
      RunOpsSplit(w, ops[..n], i);
      assert ops[..n][..i] == ops[..i] && ops[..n][i..] == ops[i..][..n - i];
      assert ops[i..][n - i] == ops[n];
    }
  }

  /** An add made by the callback of a timer that fires is such a point: the state before it keeps the
      invariant with the handles not yet visited, and all that follows is a rest as above. */
  lemma CallbackAddIsAPoint(w: Wheel, h: Handle, q: seq<Handle>, rest: Rest, i: nat)
    requires Inv(w, [h] + q) && Kept(w) && FiresNow(w, h) && rest.ops == [] && rest.handles == [h] + q
    requires w.owner[h.index] < |w.given| && i < |w.given[w.owner[h.index]].ops|
    requires w.given[w.owner[h.index]].ops[i].OpAdd?
    ensures var ops := w.given[w.owner[h.index]].ops;
            var u := RunOps(Release(NoteFired(w, h.index), h.index), ops[..i]);
            && Inv(u, q) && Kept(u) && u.advances == w.advances
            && Finish(w, rest) ==
               Finish(Add(u, ops[i].timeout, ops[i].cb).0, rest.(ops := ops[i + 1..], handles := q))
  {
    hide FreeOk, Linked, Owners, Timed, Ids, Add, Run, AdvanceTimes, Release, Cancel, MakeId, Later;
    var ops := w.given[w.owner[h.index]].ops;
    OwnCallback(w, h);
    FireKept(w, h);
    var fired := Release(NoteFired(w, h.index), h.index);
    FireKeeps(w, h, q);
    RunOpsKept(fired, ops[..i], q);
    RunOpsKeeps(fired, ops[..i], q);
    RunOpsLater(fired, ops[..i], q);
    FiredAt(w, h);
    RunOpsSplit(fired, ops, i + 1);
    assert ops[..i + 1][..i] == ops[..i];
    assert ([h] + q)[1..] == q;
  }

  lemma FiredAt(w: Wheel, h: Handle)
    requires Shaped(w) && h.index < |w.entries|
    ensures Release(NoteFired(w, h.index), h.index).advances == w.advances
  {
  }

  lemma RunOne(w: Wheel, a: Action)
    requires Shaped(w)
    ensures Run(w, [a]) == Act(w, a)
  {
    assert [a][..0] == [];
  }

  /** A timer cancelled while it is live, before a generation wraps, never runs, whatever comes after. */
  lemma CancelledNeverRuns(w: Wheel, n: nat, after: seq<Action>)
    requires Inv(w, []) && Kept(w) && n < |w.status| && w.status[n] == Live
    requires !w.wrapped && |w.entries| <= WORD
    ensures var w' := Run(Run(w, [DoCancel(MakeId(w.issued[n]))]), after);
            n < |w'.status| && w'.status[n] == Cancelled && CallsOf(w'.ran, n) == []
  {
    hide FreeOk, Linked, Owners, Timed, Ids, MakeId, Cancel, CallsOf;
    var id := MakeId(w.issued[n]);
    RunOne(w, DoCancel(id));
    var u := Cancel(w, id).0;
    CancelNamesItsTimer(w, n, []);
    CancelKeeps(w, id, []);
    CancelLater(w, id);
    CancelKept(w, id);
    FateIsFinal(u, after, n);
    RunKept(u, after);
    assert RanAsDue(Run(u, after), n);
  }

  /** A tick at or after a timer's due time decides its fate: nothing is left waiting. The clock of the
      wheel is at its start plus one tick for each advance, which TickIsDriftFree shows of every run. */
  lemma DecidedByTime(w: Wheel, start: int, n: nat, now: int)
    requires Inv(w, []) && n < |w.status|
    requires w.lastTick == start + w.advances * (w.tickMs * NS_PER_MS)
    requires now >= start + w.due[n] * (w.tickMs * NS_PER_MS)
    ensures var w' := Run(w, [DoTick(now)]);
            n < |w'.status| && (w'.status[n] == Fired(w.due[n]) || w'.status[n] == Cancelled)
  {
    hide FreeOk, Linked, Owners, Timed, Ids, Tick;
    RunOne(w, DoTick(now));
    TickKeeps(w, now);
    var w' := Tick(w, now);
    FateByDue(w', n);
    TicksAreFloor(w, now);
    EnoughAdvances(w.advances, TicksElapsed(w, now), w.due[n], w.tickMs * NS_PER_MS, w.lastTick - start, now - start);
  }

  /** A clock that is less than a tick behind a time after the due one has made the advances due. */
  lemma EnoughAdvances(done: nat, ticks: nat, due: nat, u: nat, last: int, now: int)
    requires 0 < u && last == done * u && now >= due * u
    requires now > last ==> now - last < ticks * u + u
    requires now <= last ==> ticks == 0
    ensures done + ticks >= due
  {
    Distribute(done, ticks, u);
    Distribute(done + ticks, 1, u);
    if done + ticks < due {
      Monotone(done + ticks + 1, due, u);
    }
  }
}
