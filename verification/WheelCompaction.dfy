/** Cancelled timers leave their entries: a compacting sweep of their slot drops them. */
module WheelCompaction {
  import opened Options
  import opened WheelInvariant
  import opened WheelModel
  import opened WheelTheorems

  /** Timer n has no entry any more, and will have none. */
  ghost predicate Gone(w: Wheel, n: nat)
    requires Shaped(w)
  {
    n < |w.status| && !HasEntry(w, n)
  }

  lemma AddGone(w: Wheel, timeout: int, cb: Callback, n: nat)
    requires Shaped(w) && FreeOk(w) && Gone(w, n)
    ensures Gone(Add(w, timeout, cb).0, n)
  {
    AddChanges(w, timeout, cb);
    hide Add, Acquire, FreeOk;
    var w' := Add(w, timeout, cb).0;
    forall e | 0 <= e < |w'.entries| && w'.entries[e].active
      ensures w'.owner[e] != n
    {
    }
  }

  lemma CancelGone(w: Wheel, id: nat, n: nat)
    requires Shaped(w) && Gone(w, n)
    ensures Gone(Cancel(w, id).0, n)
  {
    hide DecodeId;
    var w' := Cancel(w, id).0;
    forall e | 0 <= e < |w'.entries| && w'.entries[e].active
      ensures w'.owner[e] != n
    {
      assert w.entries[e].active;
    }
  }

  lemma {:induction false} RunOpsGone(w: Wheel, ops: seq<Op>, n: nat, q: seq<Handle>)
    requires Inv(w, q) && Gone(w, n)
    ensures Gone(RunOps(w, ops), n)
    decreases |ops|
  {
    hide FreeOk, Linked, Owners, Timed, Ids, Gone, Add, Cancel;
    if ops != [] {
      var before := ops[..|ops| - 1];
      RunOpsGone(w, before, n, q);
      RunOpsKeeps(w, before, q);
      match ops[|ops| - 1]
      case OpAdd(timeout, cb) => AddGone(RunOps(w, before), timeout, cb, n);
      case OpCancel(id) => CancelGone(RunOps(w, before), id, n);
    }
  }

  lemma FireGone(w: Wheel, i: nat, n: nat)
    requires Shaped(w) && i < |w.entries| && Gone(w, n)
    ensures Gone(Release(w, i), n) && Gone(Release(NoteFired(w, i), i), n)
  {
    forall e | 0 <= e < |w.entries| && Release(w, i).entries[e].active
      ensures w.owner[e] != n
    {
      assert w.entries[e].active;
    }
  }

  lemma QueueGone(w: Wheel, h: Handle, n: nat)
    requires Shaped(w) && Gone(w, n)
    ensures Gone(PushBack(w, h), n)
    ensures h.index < |w.entries| && w.entries[h.index].rounds > 0 ==> Gone(PushBack(Decremented(w, h.index), h), n)
  {
    forall e | 0 <= e < |w.entries| && w.entries[e].active
      ensures w.owner[e] != n
    {
    }
  }

  lemma VisitGone(w: Wheel, h: Handle, compacting: bool, n: nat, q: seq<Handle>)
    requires Inv(w, [h] + q) && Gone(w, n)
    ensures Gone(Visit(w, h, compacting), n)
  {
    hide FreeOk, Linked, Owners, Timed, Ids, Gone, PushBack, Decremented, RunOps;
    if Cancellable(w, h) {
      FireGone(w, h.index, n);
      QueueGone(w, h, n);
      if !w.entries[h.index].cancelled && w.entries[h.index].rounds == 0 {
        FireKeeps(w, h, q);
        RunOpsGone(Release(NoteFired(w, h.index), h.index), CallbackOps(w.entries[h.index]), n, q);
      }
    }
  }

  lemma {:induction false} VisitAllGone(w: Wheel, hs: seq<Handle>, compacting: bool, n: nat)
    requires Inv(w, hs) && Gone(w, n)
    ensures Gone(VisitAll(w, hs, compacting), n)
    decreases |hs|
  {
    hide FreeOk, Linked, Owners, Timed, Ids, Gone, Visit;
    if hs != [] {
      assert hs == [hs[0]] + hs[1..];
      VisitGone(w, hs[0], compacting, n, hs[1..]);
      VisitKeeps(w, hs[0], compacting, hs[1..]);
      VisitAllGone(Visit(w, hs[0], compacting), hs[1..], compacting, n);
    }
  }

  // ----- A cancelled entry stays as it is until it is visited -----

  /** Entry h.index, under h's generation, is held by the cancelled timer n. */
  predicate HeldCancelled(w: Wheel, h: Handle, n: nat)
    requires Shaped(w)
  {
    Cancellable(w, h) && w.entries[h.index].cancelled && w.owner[h.index] == n
  }

  lemma AddHolds(w: Wheel, timeout: int, cb: Callback, h: Handle, n: nat)
    requires Shaped(w) && FreeOk(w) && HeldCancelled(w, h, n)
    ensures HeldCancelled(Add(w, timeout, cb).0, h, n)
  {
    AddChanges(w, timeout, cb);
    hide Add, Acquire, FreeOk;
  }

  lemma CancelHolds(w: Wheel, id: nat, h: Handle, n: nat)
    requires Shaped(w) && HeldCancelled(w, h, n)
    ensures HeldCancelled(Cancel(w, id).0, h, n)
  {
    hide DecodeId;
  }

  lemma {:induction false} RunOpsHold(w: Wheel, ops: seq<Op>, h: Handle, n: nat, q: seq<Handle>)
    requires Inv(w, q) && HeldCancelled(w, h, n)
    ensures HeldCancelled(RunOps(w, ops), h, n)
    decreases |ops|
  {
    hide FreeOk, Linked, Owners, Timed, Ids, HeldCancelled, Add, Cancel;
    if ops != [] {
      var before := ops[..|ops| - 1];
      RunOpsHold(w, before, h, n, q);
      RunOpsKeeps(w, before, q);
      match ops[|ops| - 1]
      case OpAdd(timeout, cb) => AddHolds(RunOps(w, before), timeout, cb, h, n);
      case OpCancel(id) => CancelHolds(RunOps(w, before), id, h, n);
    }
  }

  lemma OthersHold(w: Wheel, g: Handle, h: Handle, n: nat)
    requires Shaped(w) && Cancellable(w, g) && HeldCancelled(w, h, n) && g != h
    ensures HeldCancelled(Release(w, g.index), h, n) && HeldCancelled(Release(NoteFired(w, g.index), g.index), h, n)
    ensures HeldCancelled(PushBack(w, g), h, n)
    ensures w.entries[g.index].rounds > 0 ==> HeldCancelled(PushBack(Decremented(w, g.index), g), h, n)
  {
  }

  lemma VisitHolds(w: Wheel, g: Handle, compacting: bool, h: Handle, n: nat, q: seq<Handle>)
    requires Inv(w, [g] + q) && HeldCancelled(w, h, n) && g != h
    ensures HeldCancelled(Visit(w, g, compacting), h, n)
  {
    hide FreeOk, Linked, Owners, Timed, Ids, HeldCancelled, PushBack, Decremented, RunOps;
    if Cancellable(w, g) {
      OthersHold(w, g, h, n);
      if !w.entries[g.index].cancelled && w.entries[g.index].rounds == 0 {
        FireKeeps(w, g, q);
        RunOpsHold(Release(NoteFired(w, g.index), g.index), CallbackOps(w.entries[g.index]), h, n, q);
      }
    }
  }

  lemma DropIsGone(w: Wheel, h: Handle, n: nat)
    requires Shaped(w) && Owners(w) && HeldCancelled(w, h, n)
    ensures Gone(Visit(w, h, true), n)
  {
    var w' := Release(w, h.index);
    forall e | 0 <= e < |w'.entries| && w'.entries[e].active
      ensures w'.owner[e] != n
    {
      assert w.entries[e].active && e != h.index;
    }
    hide Owners, RunOps, Release;
  }

  lemma {:induction false} VisitsForget(w: Wheel, hs: seq<Handle>, h: Handle, n: nat)
    requires Inv(w, hs) && HeldCancelled(w, h, n) && h in hs
    ensures Gone(VisitAll(w, hs, true), n)
    decreases |hs|
  {
    hide FreeOk, Linked, Owners, Timed, Ids, HeldCancelled, Gone, Visit;
    assert hs == [hs[0]] + hs[1..];
    VisitKeeps(w, hs[0], true, hs[1..]);
    if hs[0] == h {
      DropIsGone(w, h, n);
      VisitAllGone(Visit(w, h, true), hs[1..], true, n);
    } else {
      VisitHolds(w, hs[0], true, h, n, hs[1..]);
      VisitsForget(Visit(w, hs[0], true), hs[1..], h, n);
    }
  }

  /** When the slot of a cancelled timer is swept for the eighth time, or any multiple of eight, the timer
      gives up its entry, whatever the callbacks of the slot do. */
  lemma CompactionForgets(w: Wheel, h: Handle, n: nat)
    requires Inv(w, []) && HeldCancelled(w, h, n) && h in w.slots[MoveCursor(w).current]
    requires (w.compaction + 1) % COMPACT_INTERVAL_TICKS == 0
    ensures Gone(Advance(w), n)
  {
    hide FreeOk, Linked, Owners, Timed, Ids, Gone, VisitAll;
    MoveCursorKeeps(w);
    var m := MoveCursor(w);
    var hs := w.slots[m.current];
    CountersAreFree(m, Counted(m), hs);
    VisitsForget(Counted(m), hs, h, n);
  }
}
