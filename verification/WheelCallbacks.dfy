/** Which callbacks the wheel runs: every timer's own, when it fires, and no other. */
module WheelCallbacks {
  import opened Options
  import opened WheelInvariant
  import opened WheelModel
  import opened WheelTheorems

  /** The calls made for timer n. */
  function CallsOf(ran: seq<Call>, n: nat): seq<Call> {
    if ran == [] then []
    else CallsOf(ran[..|ran| - 1], n) + if ran[|ran| - 1].timer == n then [ran[|ran| - 1]] else []
  }

  /** What has run for timer n: its own callback, once, at the advance at which it fired; or nothing. */
  predicate RanAsDue(w: Wheel, n: nat)
    requires |w.given| == |w.status|
  {
    CallsOf(w.ran, n) ==
    if n < |w.status| && w.status[n].Fired? then [Call(n, w.given[n].ops, w.status[n].at)] else []
  }

  /** An entry in use holds the callback its timer was added with. */
  ghost predicate Kept(w: Wheel)
    requires Shaped(w)
  {
    && |w.given| == |w.status|
    && (forall e :: 0 <= e < |w.entries| && w.entries[e].active ==>
          w.entries[e].callback == Some(w.given[w.owner[e]]))
    && (forall n: nat :: RanAsDue(w, n))
    && Young(w)
  }

  /** A generation counts the timers an entry has held, so it can only have wrapped after 2^32 - 1. */
  ghost predicate Young(w: Wheel) {
    && (forall e :: 0 <= e < |w.entries| ==> w.entries[e].generation <= |w.issued|)
    && (w.wrapped ==> WORD - 1 <= |w.issued|)
  }

  lemma AddYoung(w: Wheel, timeout: int, cb: Callback)
    requires Shaped(w) && Young(w)
    ensures Young(Add(w, timeout, cb).0)
  {
    hide Delay, Ticks, MakeId;
  }

  lemma NothingRan(size: nat, tickMs: nat, start: int)
    requires 0 < size && 0 < tickMs
    ensures Kept(Init(size, tickMs, start))
  {
  }

  lemma AddKept(w: Wheel, timeout: int, cb: Callback)
    requires Shaped(w) && FreeOk(w) && Kept(w)
    ensures Kept(Add(w, timeout, cb).0) && Add(w, timeout, cb).0.given == w.given + [cb]
  {
    AddChanges(w, timeout, cb);
    AddYoung(w, timeout, cb);
    hide Add, Acquire, FreeOk, CallsOf, Young;
    var w' := Add(w, timeout, cb).0;
    forall n: nat
      ensures RanAsDue(w', n)
    {
      assert RanAsDue(w, n);
    }
  }

  lemma CancelKept(w: Wheel, id: nat)
    requires Shaped(w) && Owners(w) && Kept(w)
    ensures Kept(Cancel(w, id).0) && Cancel(w, id).0.given == w.given
  {
    hide CallsOf, DecodeId;
    var w' := Cancel(w, id).0;
    forall n: nat
      ensures RanAsDue(w', n)
    {
      assert RanAsDue(w, n);
    }
  }

  lemma {:induction false} RunOpsKept(w: Wheel, ops: seq<Op>, q: seq<Handle>)
    requires Inv(w, q) && Kept(w)
    ensures Kept(RunOps(w, ops)) && w.given <= RunOps(w, ops).given
    decreases |ops|
  {
    hide FreeOk, Linked, Owners, Timed, Ids, Kept, Add, Cancel;
    if ops != [] {
      var before := ops[..|ops| - 1];
      RunOpsKept(w, before, q);
      RunOpsKeeps(w, before, q);
      match ops[|ops| - 1]
      case OpAdd(timeout, cb) => AddKept(RunOps(w, before), timeout, cb);
      case OpCancel(id) => CancelKept(RunOps(w, before), id);
    }
  }

  /** A handle's callback runs if its timer fires now. */
  predicate FiresNow(w: Wheel, h: Handle) {
    Cancellable(w, h) && !w.entries[h.index].cancelled && w.entries[h.index].rounds == 0
  }

  lemma CallsMore(ran: seq<Call>, c: Call, n: nat)
    ensures CallsOf(ran + [c], n) == CallsOf(ran, n) + if c.timer == n then [c] else []
  {
    assert (ran + [c])[..|ran|] == ran;
  }

  /** The callback of the timer that fires is the one it was added with. */
  lemma OwnCallback(w: Wheel, h: Handle)
    requires Shaped(w) && Owners(w) && Kept(w) && FiresNow(w, h)
    ensures var n := w.owner[h.index];
            n < |w.given| && w.status[n] == Live && CallbackOps(w.entries[h.index]) == w.given[n].ops
  {
  }

  lemma FireKept(w: Wheel, h: Handle)
    requires Shaped(w) && Owners(w) && Kept(w) && FiresNow(w, h)
    ensures Kept(Release(NoteFired(w, h.index), h.index))
    ensures Release(NoteFired(w, h.index), h.index).given == w.given
  {
    OwnCallback(w, h);
    var c := Call(w.owner[h.index], CallbackOps(w.entries[h.index]), w.advances);
    var w' := Release(NoteFired(w, h.index), h.index);
    hide CallsOf, CallbackOps;
    forall n: nat
      ensures RanAsDue(w', n)
    {
      assert RanAsDue(w, n);
      CallsMore(w.ran, c, n);
    }
  }

  /** Firing runs the operations of the callback that was given with the timer, and nothing else. */
  lemma FiringRunsCallback(w: Wheel, h: Handle, compacting: bool, q: seq<Handle>)
    requires Inv(w, [h] + q) && Kept(w) && FiresNow(w, h)
    ensures w.owner[h.index] < |w.given|
    ensures Visit(w, h, compacting) ==
            RunOps(Release(NoteFired(w, h.index), h.index), w.given[w.owner[h.index]].ops)
  {
    hide FreeOk, Linked, Timed, Ids, RunOps;
    OwnCallback(w, h);
  }

  /** Nothing else touches the callbacks: what a visit does to a timer that does not fire. */
  lemma QuietVisit(w: Wheel, h: Handle, compacting: bool)
    requires Shaped(w) && Kept(w) && !FiresNow(w, h)
    ensures var w' := Visit(w, h, compacting); Kept(w') && w'.given == w.given
  {
    hide CallsOf, RunOps;
    var w' := Visit(w, h, compacting);
    assert w'.ran == w.ran && w'.status == w.status && w'.given == w.given && w'.owner == w.owner;
    forall n: nat
      ensures RanAsDue(w', n)
    {
      assert RanAsDue(w, n);
    }
  }

  lemma VisitKept(w: Wheel, h: Handle, compacting: bool, q: seq<Handle>)
    requires Inv(w, [h] + q) && Kept(w)
    ensures Kept(Visit(w, h, compacting)) && w.given <= Visit(w, h, compacting).given
  {
    hide FreeOk, Linked, Owners, Timed, Ids, Kept, RunOps, Visit;
    if FiresNow(w, h) {
      FireKept(w, h);
      FireKeeps(w, h, q);
      FiringRunsCallback(w, h, compacting, q);
      RunOpsKept(Release(NoteFired(w, h.index), h.index), w.given[w.owner[h.index]].ops, q);
    } else {
      QuietVisit(w, h, compacting);
    }
  }

  lemma {:induction false} VisitAllKept(w: Wheel, hs: seq<Handle>, compacting: bool)
    requires Inv(w, hs) && Kept(w)
    ensures Kept(VisitAll(w, hs, compacting)) && w.given <= VisitAll(w, hs, compacting).given
    decreases |hs|
  {
    hide FreeOk, Linked, Owners, Timed, Ids, Kept, Visit;
    if hs != [] {
      assert hs == [hs[0]] + hs[1..];
      VisitKept(w, hs[0], compacting, hs[1..]);
      VisitKeeps(w, hs[0], compacting, hs[1..]);
      VisitAllKept(Visit(w, hs[0], compacting), hs[1..], compacting);
    }
  }

  /** Kept speaks of the entries, the timers and the calls only. */
  lemma KeptIgnores(w: Wheel, w': Wheel)
    requires Shaped(w) && Shaped(w') && Kept(w)
    requires w'.entries == w.entries && w'.owner == w.owner && w'.status == w.status
    requires w'.given == w.given && w'.ran == w.ran && w'.issued == w.issued && w'.wrapped == w.wrapped
    ensures Kept(w')
  {
    hide CallsOf;
    forall n: nat
      ensures RanAsDue(w', n)
    {
      assert RanAsDue(w, n);
    }
  }

  lemma {:induction false} AdvanceTimesKept(w: Wheel, n: nat)
    requires Inv(w, []) && Kept(w)
    ensures Kept(AdvanceTimes(w, n)) && w.given <= AdvanceTimes(w, n).given
  {
    hide FreeOk, Linked, Owners, Timed, Ids, Kept, Advance;
    if n > 0 {
      AdvanceTimesKept(w, n - 1);
      AdvanceTimesKeeps(w, n - 1);
      AdvanceKept(AdvanceTimes(w, n - 1));
    }
  }

  lemma AdvanceKept(w: Wheel)
    requires Inv(w, []) && Kept(w)
    ensures Kept(Advance(w)) && w.given <= Advance(w).given
  {
    hide FreeOk, Linked, Owners, Timed, Ids, Kept, VisitAll;
    MoveCursorKeeps(w);
    var m := MoveCursor(w);
    var hs := w.slots[m.current];
    KeptIgnores(w, m);
    if hs != [] {
      CountersAreFree(m, Counted(m), hs);
      KeptIgnores(m, Counted(m));
      VisitAllKept(Counted(m), hs, (m.compaction + 1) % COMPACT_INTERVAL_TICKS == 0);
    }
  }

  lemma ActKept(w: Wheel, a: Action)
    requires Inv(w, []) && Kept(w)
    ensures Kept(Act(w, a)) && w.given <= Act(w, a).given
  {
    hide FreeOk, Linked, Owners, Timed, Ids, Kept, Add, Cancel, AdvanceTimes;
    match a
    case DoAdd(timeout, cb) => AddKept(w, timeout, cb);
    case DoCancel(id) => CancelKept(w, id);
    case DoTick(now) =>
      var n := TicksElapsed(w, now);
      CountersAreFree(w, Clocked(w, n), []);
      KeptIgnores(w, Clocked(w, n));
      AdvanceTimesKept(Clocked(w, n), n);
  }

  lemma {:induction false} RunKept(w: Wheel, actions: seq<Action>)
    requires Inv(w, []) && Kept(w)
    ensures Kept(Run(w, actions)) && w.given <= Run(w, actions).given
  {
    hide FreeOk, Linked, Owners, Timed, Ids, Kept, Act;
    if actions != [] {
      var before := actions[..|actions| - 1];
      RunKept(w, before);
      RunKeeps(w, before);
      ActKept(Run(w, before), actions[|actions| - 1]);
    }
  }

  /** In every run from a new wheel, what has run for a timer is its own callback, once, when it fired. */
  lemma ReachableRanAsDue(size: nat, tickMs: nat, start: int, actions: seq<Action>)
    requires 0 < size && 0 < tickMs
    ensures Kept(Run(Init(size, tickMs, start), actions))
  {
    hide Inv, Kept;
    InitInv(size, tickMs, start);
    NothingRan(size, tickMs, start);
    RunKept(Init(size, tickMs, start), actions);
  }

  lemma RunOpsMore(w: Wheel, ops: seq<Op>, op: Op)
    requires Shaped(w)
    ensures RunOps(w, ops + [op]) ==
            if op.OpAdd? then Add(RunOps(w, ops), op.timeout, op.cb).0 else Cancel(RunOps(w, ops), op.id).0
  {
    assert (ops + [op])[..|ops|] == ops;
  }

  /** In every run in which fewer than 2^32 - 1 timers are added, no generation wraps. */
  lemma NothingWraps(size: nat, tickMs: nat, start: int, actions: seq<Action>)
    requires 0 < size && 0 < tickMs && |Run(Init(size, tickMs, start), actions).issued| < WORD - 1
    ensures !Run(Init(size, tickMs, start), actions).wrapped
  {
    hide Run;
    ReachableRanAsDue(size, tickMs, start, actions);
  }

  /** An add that a callback makes takes effect: one more live timer, with the callback it names. */
  lemma CallbackAddTakesEffect(w: Wheel, ops: seq<Op>, timeout: int, cb: Callback, q: seq<Handle>)
    requires Inv(w, q) && Kept(w)
    ensures var before, after := RunOps(w, ops), RunOps(w, ops + [OpAdd(timeout, cb)]);
            && |after.status| == |before.status| + 1 && after.status[|before.status|] == Live
            && after.given == before.given + [cb]
            && after.due[|before.status|] ==
               before.advances + Delay(Ticks(timeout, before.tickMs), |before.slots|)
  {
    hide FreeOk, Linked, Owners, Timed, Ids, Kept, Ticks, Delay, MakeId, RunOps;
    var before := RunOps(w, ops);
    RunOpsMore(w, ops, OpAdd(timeout, cb));
    RunOpsKeeps(w, ops, q);
    RunOpsKept(w, ops, q);
    AddKept(before, timeout, cb);
  }

  /** A cancel that a callback makes of a live timer's id takes effect, before a generation wraps. */
  lemma CallbackCancelTakesEffect(w: Wheel, ops: seq<Op>, n: nat, q: seq<Handle>)
    requires Inv(w, q)
    requires var before := RunOps(w, ops);
             n < |before.status| && before.status[n] == Live && !before.wrapped && |before.entries| <= WORD
    ensures var before, after := RunOps(w, ops), RunOps(w, ops + [OpCancel(MakeId(RunOps(w, ops).issued[n]))]);
            n < |after.status| && after.status[n] == Cancelled
  {
    hide FreeOk, Linked, Owners, Timed, Ids, MakeId, RunOps, Cancel;
    var before := RunOps(w, ops);
    RunOpsMore(w, ops, OpCancel(MakeId(before.issued[n])));
    RunOpsKeeps(w, ops, q);
    CancelLater(before, MakeId(before.issued[n]));
    CancelNamesItsTimer(before, n, q);
  }
}
