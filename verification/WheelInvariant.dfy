/** The structure and the timing that every step of the wheel keeps, callbacks included. */
module WheelInvariant {
  import opened Counting
  import opened Options
  import opened WheelModel

  // ----- Distances on the wheel -----

  /** rounds * size */
  function Laps(rounds: nat, size: nat): nat {
    if rounds == 0 then 0 else size + Laps(rounds - 1, size)
  }

  /** Advances until the cursor next reaches slot `s`; a full turn when it is there now. */
  function Dist(current: nat, s: nat, size: nat): int {
    if s > current then s - current else s + size - current
  }

  lemma {:induction false} LapsIsProduct(rounds: nat, size: nat)
    ensures Laps(rounds, size) == rounds * size
  {
    if rounds > 0 {
      LapsIsProduct(rounds - 1, size);
    }
  }

  lemma SmallModulus(x: nat, size: nat)
    requires 0 < size && x < 2 * size
    ensures x % size == if x < size then x else x - size
  {
    if x >= size {
      assert x == size * (x / size) + x % size;
      assert x / size == 1;
    }
  }

  /** Where add puts a timer of k ticks, it is due after Delay(k) advances. */
  lemma TargetIsDue(current: nat, k: nat, size: nat)
    requires 0 < size && current < size
    ensures var target := (current + k % size) % size;
            target < size && Dist(current, target, size) + Laps(k / size, size) == Delay(k, size)
  {
    LapsIsProduct(k / size, size);
    SmallModulus(current + k % size, size);
  }

  // ----- The invariant -----

  function HandleOf(w: Wheel, e: nat): Handle
    requires e < |w.entries|
  {
    Handle(e, w.entries[e].generation)
  }

  predicate HandleOk(w: Wheel, s: nat, h: Handle) {
    Cancellable(w, h) && w.entries[h.index].slot == s
  }

  /** Free entries are exactly the inactive ones, each listed once. */
  ghost predicate FreeOk(w: Wheel)
    requires Shaped(w)
  {
    && NoDuplicates(w.free)
    && (forall e :: 0 <= e < |w.entries| ==> (e in w.free <==> !w.entries[e].active))
    && (forall e :: 0 <= e < |w.entries| && !w.entries[e].active ==> !w.entries[e].cancelled)
    && w.pending + |w.free| == |w.entries|
  }

  /** Handles and active entries match one to one; `q` holds the handles taken out of the slot under
      the cursor and not yet visited. */
  ghost predicate Linked(w: Wheel, q: seq<Handle>)
    requires Shaped(w)
  {
    && (forall s, h :: 0 <= s < |w.slots| && h in w.slots[s] ==> HandleOk(w, s, h))
    && (forall h :: h in q ==> HandleOk(w, w.current, h) && h !in w.slots[w.current])
    && (forall s :: 0 <= s < |w.slots| ==> NoDuplicates(w.slots[s]))
    && NoDuplicates(q)
    && (forall e :: 0 <= e < |w.entries| && w.entries[e].active ==>
          w.entries[e].slot < |w.slots|
          && (HandleOf(w, e) in w.slots[w.entries[e].slot] || HandleOf(w, e) in q))
  }

  /** An active entry belongs to one timer, which is live or cancelled; a live timer has an entry; a
      timer that fired did so at its due advance. */
  ghost predicate Owners(w: Wheel)
    requires Shaped(w)
  {
    && (forall e :: 0 <= e < |w.entries| && w.entries[e].active ==>
          w.issued[w.owner[e]] == HandleOf(w, e)
          && w.status[w.owner[e]] == if w.entries[e].cancelled then Cancelled else Live)
    && (forall e, f :: 0 <= e < f < |w.entries| && w.entries[e].active && w.entries[f].active ==>
          w.owner[e] != w.owner[f])
    && (forall n :: 0 <= n < |w.status| && w.status[n] == Live ==> HasEntry(w, n))
    && (forall n :: 0 <= n < |w.status| && w.status[n].Fired? ==> w.status[n].at == w.due[n] <= w.advances)
  }

  ghost predicate HasEntry(w: Wheel, n: nat)
    requires Shaped(w)
  {
    exists e :: 0 <= e < |w.entries| && w.entries[e].active && w.owner[e] == n
  }

  /** The rounds and the distance of a live entry add up to its due advance. */
  ghost predicate Timed(w: Wheel, q: seq<Handle>)
    requires Shaped(w)
  {
    forall e :: 0 <= e < |w.entries| && w.entries[e].active && !w.entries[e].cancelled ==>
      w.due[w.owner[e]] ==
      w.advances + Laps(w.entries[e].rounds, |w.slots|)
      + (if HandleOf(w, e) in q then 0 else Dist(w.current, w.entries[e].slot, |w.slots|))
  }

  /** Until a generation wraps, an id names its own timer or nothing. */
  ghost predicate Ids(w: Wheel)
    requires Shaped(w)
  {
    !w.wrapped ==>
      forall n :: 0 <= n < |w.issued| ==>
        var h := w.issued[n];
        && h.index < |w.entries| && h.generation <= w.entries[h.index].generation
        && (h.generation == w.entries[h.index].generation ==> w.owner[h.index] == n)
  }

  ghost predicate Inv(w: Wheel, q: seq<Handle>) {
    Shaped(w) && FreeOk(w) && Linked(w, q) && Owners(w) && Timed(w, q) && Ids(w)
  }

  lemma InitInv(size: nat, tickMs: nat, now: int)
    requires 0 < size && 0 < tickMs
    ensures Inv(Init(size, tickMs, now), [])
  {
  }

  // ----- Add -----

  lemma AcquiredEntry(w: Wheel)
    requires Shaped(w) && FreeOk(w)
    ensures var (a, i) := Acquire(w);
            && !a.entries[i].active && !a.entries[i].cancelled
            && (i < |w.entries| ==> !w.entries[i].active)
            && (forall e :: 0 <= e < |a.entries| && e != i ==> e < |w.entries| && a.entries[e] == w.entries[e])
            && a.slots == w.slots && a.current == w.current && a.owner == w.owner && a.status == w.status
            && a.due == w.due && a.advances == w.advances && a.issued == w.issued
            && |w.entries| <= |a.entries| && (i == |w.entries| || |w.entries| == |a.entries|)
  {
  }

  lemma AddFree(w: Wheel, timeout: int, cb: Callback)
    requires Shaped(w) && FreeOk(w)
    ensures FreeOk(Add(w, timeout, cb).0)
  {
    var (a, i) := Acquire(w);
    if w.free != [] {
      var n := |w.free| - 1;
      assert w.free == w.free[..n] + [w.free[n]];
    }
  }

  /** Add touches one entry, which no handle names yet, and one bucket, which gets its handle. */
  lemma AddedEntry(w: Wheel, timeout: int, cb: Callback, q: seq<Handle>)
    requires Shaped(w) && FreeOk(w) && Linked(w, q)
    ensures var i := Acquire(w).1;
            var w' := Add(w, timeout, cb).0;
            && i < |w'.entries| && w'.entries[i].active && w'.entries[i].slot < |w.slots|
            && w'.slots == w.slots[w'.entries[i].slot := w.slots[w'.entries[i].slot] + [HandleOf(w', i)]]
            && (forall e :: 0 <= e < |w'.entries| && e != i ==> e < |w.entries| && w'.entries[e] == w.entries[e])
            && (forall s, h :: 0 <= s < |w.slots| && h in w.slots[s] ==> h.index != i)
            && (forall h :: h in q ==> h.index != i)
  {
    AcquiredEntry(w);
    TargetIsDue(w.current, Ticks(timeout, w.tickMs), |w.slots|);
    var i := Acquire(w).1;
    forall s, h | 0 <= s < |w.slots| && h in w.slots[s]
      ensures h.index != i
    {
      assert HandleOk(w, s, h);
    }
  }

  lemma AddLinked(w: Wheel, timeout: int, cb: Callback, q: seq<Handle>)
    requires Shaped(w) && FreeOk(w) && Linked(w, q)
    ensures Linked(Add(w, timeout, cb).0, q)
  {
    AddedEntry(w, timeout, cb, q);
    LinkOneMore(w, Add(w, timeout, cb).0, Acquire(w).1, q);
  }

  lemma LinkOneMore(w: Wheel, w': Wheel, i: nat, q: seq<Handle>)
    requires Shaped(w) && Shaped(w') && Linked(w, q) && w'.current == w.current
    requires i < |w'.entries| && w'.entries[i].active && w'.entries[i].slot < |w.slots|
    requires w'.slots == w.slots[w'.entries[i].slot := w.slots[w'.entries[i].slot] + [HandleOf(w', i)]]
    requires |w.entries| <= |w'.entries|
    requires forall e :: 0 <= e < |w'.entries| && e != i ==> e < |w.entries| && w'.entries[e] == w.entries[e]
    requires forall s, h :: 0 <= s < |w.slots| && h in w.slots[s] ==> h.index != i
    requires forall h :: h in q ==> h.index != i
    ensures Linked(w', q)
  {
    forall s, h | 0 <= s < |w'.slots| && h in w'.slots[s]
      ensures HandleOk(w', s, h)
    {
      if h in w.slots[s] {
        assert HandleOk(w, s, h);
      }
    }
  }

  /** What an add changes: one entry, which was inactive, and one more timer, which it holds. */
  lemma AddChanges(w: Wheel, timeout: int, cb: Callback)
    requires Shaped(w) && FreeOk(w)
    ensures var w', i := Add(w, timeout, cb).0, Acquire(w).1;
            && i < |w'.entries| && w'.entries[i].active && !w'.entries[i].cancelled && w'.owner[i] == |w.status|
            && w'.status == w.status + [Live] && w'.issued == w.issued + [HandleOf(w', i)]
            && w.due <= w'.due && w'.advances == w.advances && |w.entries| <= |w'.entries|
            && w'.entries[i].callback == Some(cb) && w'.given == w.given + [cb] && w'.ran == w.ran
            && (i < |w.entries| ==> !w.entries[i].active)
            && (forall e :: 0 <= e < |w'.entries| && e != i ==>
                  e < |w.entries| && w'.entries[e] == w.entries[e] && w'.owner[e] == w.owner[e])
  {
    AcquiredEntry(w);
    hide Acquire, FreeOk, Delay, Ticks, MakeId;
  }

  lemma AddKeepsEntry(w: Wheel, timeout: int, cb: Callback, n: nat)
    requires Shaped(w) && FreeOk(w) && Owners(w)
    requires n < |w.status| + 1 && (n < |w.status| ==> w.status[n] == Live)
    ensures HasEntry(Add(w, timeout, cb).0, n)
  {
    hide Acquire, FreeOk, Add;
    AddChanges(w, timeout, cb);
    var w', i := Add(w, timeout, cb).0, Acquire(w).1;
    if n < |w.status| {
      var e :| 0 <= e < |w.entries| && w.entries[e].active && w.owner[e] == n;
      assert w'.entries[e].active && w'.owner[e] == n;
    } else {
      assert w'.entries[i].active && w'.owner[i] == n;
    }
  }

  lemma AddOwners(w: Wheel, timeout: int, cb: Callback)
    requires Shaped(w) && FreeOk(w) && Owners(w)
    ensures Owners(Add(w, timeout, cb).0)
  {
    hide Acquire, FreeOk, Add, HasEntry;
    AddChanges(w, timeout, cb);
    forall n: nat | n < |w.status| + 1 && (n < |w.status| ==> w.status[n] == Live)
      ensures HasEntry(Add(w, timeout, cb).0, n)
    {
      AddKeepsEntry(w, timeout, cb, n);
    }
  }

  lemma AddTimed(w: Wheel, timeout: int, cb: Callback, q: seq<Handle>)
    requires Shaped(w) && FreeOk(w) && Linked(w, q) && Timed(w, q)
    ensures Timed(Add(w, timeout, cb).0, q)
  {
    AcquiredEntry(w);
    var (a, i) := Acquire(w);
    var k := Ticks(timeout, w.tickMs);
    TargetIsDue(w.current, k, |w.slots|);
    assert HandleOf(Add(w, timeout, cb).0, i) !in q;
  }

  lemma AddIds(w: Wheel, timeout: int, cb: Callback)
    requires Shaped(w) && FreeOk(w) && Ids(w)
    ensures Ids(Add(w, timeout, cb).0)
  {
    AcquiredEntry(w);
  }

  lemma AddKeeps(w: Wheel, timeout: int, cb: Callback, q: seq<Handle>)
    requires Inv(w, q)
    ensures Inv(Add(w, timeout, cb).0, q)
  {
    AddFree(w, timeout, cb);
    AddLinked(w, timeout, cb, q);
    AddOwners(w, timeout, cb);
    AddTimed(w, timeout, cb, q);
    AddIds(w, timeout, cb);
  }

  // ----- Cancel and callbacks -----

  lemma MarkCancelledKeeps(w: Wheel, i: nat, q: seq<Handle>)
    requires Inv(w, q) && i < |w.entries| && w.entries[i].active
    ensures Inv(MarkCancelled(w, i), q)
  {
    CancelledLinks(w, i, q);
    CancelledOwners(w, i);
    CancelledRest(w, i, q);
    hide FreeOk, Linked, Owners, Timed, Ids;
  }

  lemma CancelledLinks(w: Wheel, i: nat, q: seq<Handle>)
    requires Shaped(w) && Linked(w, q) && i < |w.entries| && w.entries[i].active
    ensures Linked(MarkCancelled(w, i), q)
  {
    var w' := MarkCancelled(w, i);
    forall s, h | 0 <= s < |w'.slots| && h in w'.slots[s]
      ensures HandleOk(w', s, h)
    {
      assert HandleOk(w, s, h);
    }
  }

  lemma CancelledRest(w: Wheel, i: nat, q: seq<Handle>)
    requires Shaped(w) && FreeOk(w) && Timed(w, q) && Ids(w) && i < |w.entries| && w.entries[i].active
    ensures var w' := MarkCancelled(w, i); Shaped(w') && FreeOk(w') && Timed(w', q) && Ids(w')
  {
  }

  lemma CancelledOwners(w: Wheel, i: nat)
    requires Shaped(w) && Owners(w) && i < |w.entries| && w.entries[i].active
    ensures Owners(MarkCancelled(w, i))
  {
    var w' := MarkCancelled(w, i);
    forall n | 0 <= n < |w'.status| && w'.status[n] == Live
      ensures HasEntry(w', n)
    {
      var e :| 0 <= e < |w.entries| && w.entries[e].active && w.owner[e] == n;
      assert w'.entries[e].active && w'.owner[e] == n;
    }
  }

  lemma CancelKeeps(w: Wheel, id: nat, q: seq<Handle>)
    requires Inv(w, q)
    ensures Inv(Cancel(w, id).0, q)
  {
    if Cancellable(w, DecodeId(id)) {
      MarkCancelledKeeps(w, DecodeId(id).index, q);
    }
  }

  lemma {:induction false} RunOpsKeeps(w: Wheel, ops: seq<Op>, q: seq<Handle>)
    requires Inv(w, q)
    ensures Inv(RunOps(w, ops), q)
    decreases |ops|
  {
    if ops != [] {
      var before := ops[..|ops| - 1];
      RunOpsKeeps(w, before, q);
      match ops[|ops| - 1]
      case OpAdd(timeout, cb) => AddKeeps(RunOps(w, before), timeout, cb, q);
      case OpCancel(id) => CancelKeeps(RunOps(w, before), id, q);
    }
  }

  // ----- The handles of one slot -----

  lemma TailFacts(h: Handle, q: seq<Handle>)
    ensures h in [h] + q && (forall g :: g in q ==> g in [h] + q)
    ensures NoDuplicates([h] + q) ==> NoDuplicates(q) && h !in q
  {
    assert ([h] + q)[0] == h;
    forall i | 0 <= i < |q|
      ensures q[i] == ([h] + q)[i + 1]
    {
    }
  }

  /** While some entry is active, entries are pending. */
  lemma ActiveIsPending(w: Wheel, i: nat)
    requires Shaped(w) && FreeOk(w) && i < |w.entries| && w.entries[i].active
    ensures w.pending > 0
  {
    CountElements(w.free);
    SubsetSize(Elements(w.free), Below(|w.entries|) - {i});
  }

  /** Release the entry of the first pending handle. */
  lemma ReleaseKeepsLinks(w: Wheel, h: Handle, q: seq<Handle>)
    requires Shaped(w) && FreeOk(w) && Linked(w, [h] + q) && h.index < |w.entries|
    ensures Linked(Release(w, h.index), q) && FreeOk(Release(w, h.index))
  {
    TailFacts(h, q);
    assert HandleOk(w, w.current, h);
    ActiveIsPending(w, h.index);
    var w' := Release(w, h.index);
    forall s, g | 0 <= s < |w'.slots| && g in w'.slots[s]
      ensures HandleOk(w', s, g)
    {
      assert HandleOk(w, s, g);
    }
  }

  lemma ReleaseKeepsTimes(w: Wheel, h: Handle, q: seq<Handle>)
    requires Shaped(w) && Linked(w, [h] + q) && Timed(w, [h] + q) && Ids(w) && h.index < |w.entries|
    ensures Timed(Release(w, h.index), q) && Ids(Release(w, h.index))
  {
    TailFacts(h, q);
  }

  lemma ReleaseKeepsOwners(w: Wheel, i: nat)
    requires Shaped(w) && Owners(w) && i < |w.entries| && w.entries[i].active && w.entries[i].cancelled
    ensures Owners(Release(w, i))
  {
    var w' := Release(w, i);
    forall n | 0 <= n < |w'.status| && w'.status[n] == Live
      ensures HasEntry(w', n)
    {
      var e :| 0 <= e < |w.entries| && w.entries[e].active && w.owner[e] == n;
      assert w'.entries[e].active && w'.owner[e] == n;
    }
  }

  lemma FireKeepsOwners(w: Wheel, i: nat)
    requires Shaped(w) && Owners(w) && i < |w.entries| && w.entries[i].active && !w.entries[i].cancelled
    requires w.due[w.owner[i]] == w.advances
    ensures Owners(Release(NoteFired(w, i), i))
  {
    var w' := Release(NoteFired(w, i), i);
    forall n | 0 <= n < |w'.status| && w'.status[n] == Live
      ensures HasEntry(w', n)
    {
      var e :| 0 <= e < |w.entries| && w.entries[e].active && w.owner[e] == n;
      assert w'.entries[e].active && w'.owner[e] == n;
    }
  }

  /** Put the first pending handle back, after its entry's rounds went from `before` to `after`. */
  lemma PushBackKeepsLinks(w: Wheel, h: Handle, q: seq<Handle>)
    requires Shaped(w) && Linked(w, [h] + q)
    ensures Linked(PushBack(w, h), q)
  {
    TailFacts(h, q);
    var w' := PushBack(w, h);
    forall s, g | 0 <= s < |w'.slots| && g in w'.slots[s]
      ensures HandleOk(w', s, g)
    {
      if g in w.slots[s] {
        assert HandleOk(w, s, g);
      }
    }
    assert HandleOk(w, w.current, h);
  }

  lemma DecrementedKeepsLinks(w: Wheel, i: nat, q: seq<Handle>)
    requires Shaped(w) && Linked(w, q) && i < |w.entries| && w.entries[i].rounds > 0
    ensures Linked(Decremented(w, i), q)
  {
    var w' := Decremented(w, i);
    forall s, g | 0 <= s < |w'.slots| && g in w'.slots[s]
      ensures HandleOk(w', s, g)
    {
      assert HandleOk(w, s, g);
    }
  }

  lemma RequeueKeepsTimes(w: Wheel, h: Handle, q: seq<Handle>)
    requires Shaped(w) && Linked(w, [h] + q) && Timed(w, [h] + q)
    requires h.index < |w.entries| && (w.entries[h.index].cancelled || w.entries[h.index].rounds > 0)
    ensures Cancellable(w, h)
    ensures w.entries[h.index].cancelled ==> Timed(PushBack(w, h), q)
    ensures w.entries[h.index].rounds > 0 && !w.entries[h.index].cancelled ==>
              Timed(PushBack(Decremented(w, h.index), h), q)
  {
    TailFacts(h, q);
    assert HandleOk(w, w.current, h);
    assert forall e :: 0 <= e < |w.entries| && e != h.index ==> (HandleOf(w, e) in [h] + q <==> HandleOf(w, e) in q);
  }

  lemma PushBackKeepsOwners(w: Wheel, h: Handle)
    requires Shaped(w) && Owners(w)
    ensures Owners(PushBack(w, h))
  {
    forall n | 0 <= n < |w.status| && w.status[n] == Live
      ensures HasEntry(PushBack(w, h), n)
    {
      var e :| 0 <= e < |w.entries| && w.entries[e].active && w.owner[e] == n;
      assert PushBack(w, h).entries[e].active;
    }
  }

  lemma DecrementedKeepsOwners(w: Wheel, i: nat)
    requires Shaped(w) && Owners(w) && i < |w.entries| && w.entries[i].rounds > 0
    ensures Owners(Decremented(w, i))
  {
    forall n | 0 <= n < |w.status| && w.status[n] == Live
      ensures HasEntry(Decremented(w, i), n)
    {
      var e :| 0 <= e < |w.entries| && w.entries[e].active && w.owner[e] == n;
      assert Decremented(w, i).entries[e].active;
    }
  }

  lemma VisitCancelledKeeps(w: Wheel, h: Handle, compacting: bool, q: seq<Handle>)
    requires Inv(w, [h] + q) && Cancellable(w, h) && w.entries[h.index].cancelled
    ensures Inv(Visit(w, h, compacting), q)
  {
    if compacting {
      ReleaseKeepsLinks(w, h, q);
      ReleaseKeepsTimes(w, h, q);
      ReleaseKeepsOwners(w, h.index);
    } else {
      PushBackKeepsLinks(w, h, q);
      RequeueKeepsTimes(w, h, q);
      PushBackKeepsOwners(w, h);
    }
  }

  lemma RequeueKeepsRest(w: Wheel, h: Handle)
    requires Shaped(w) && FreeOk(w) && Ids(w) && h.index < |w.entries| && w.entries[h.index].rounds > 0
    ensures FreeOk(PushBack(Decremented(w, h.index), h)) && Ids(PushBack(Decremented(w, h.index), h))
  {
  }

  lemma VisitRoundsKeeps(w: Wheel, h: Handle, q: seq<Handle>)
    requires Inv(w, [h] + q) && Cancellable(w, h) && !w.entries[h.index].cancelled && w.entries[h.index].rounds > 0
    ensures Inv(PushBack(Decremented(w, h.index), h), q)
  {
    hide Linked, Owners, Timed, Ids, FreeOk;
    RequeueKeepsRest(w, h);
    DecrementedKeepsLinks(w, h.index, [h] + q);
    PushBackKeepsLinks(Decremented(w, h.index), h, q);
    RequeueKeepsTimes(w, h, q);
    DecrementedKeepsOwners(w, h.index);
    PushBackKeepsOwners(Decremented(w, h.index), h);
  }

  lemma VisitKeeps(w: Wheel, h: Handle, compacting: bool, q: seq<Handle>)
    requires Inv(w, [h] + q)
    ensures Inv(Visit(w, h, compacting), q)
  {
    TailFacts(h, q);
    assert HandleOk(w, w.current, h);
    var e := w.entries[h.index];
    if e.cancelled {
      VisitCancelledKeeps(w, h, compacting, q);
    } else if e.rounds > 0 {
      VisitRoundsKeeps(w, h, q);
    } else {
      FireKeeps(w, h, q);
      RunOpsKeeps(Release(NoteFired(w, h.index), h.index), CallbackOps(e), q);
    }
  }

  lemma FireKeeps(w: Wheel, h: Handle, q: seq<Handle>)
    requires Inv(w, [h] + q) && h.index < |w.entries|
    requires !w.entries[h.index].cancelled && w.entries[h.index].rounds == 0
    ensures Inv(Release(NoteFired(w, h.index), h.index), q)
  {
    TailFacts(h, q);
    assert HandleOk(w, w.current, h);
    assert HandleOf(w, h.index) == h;
    var n := NoteFired(w, h.index);
    FireKeepsOwners(w, h.index);
    FiredRest(w, h.index, [h] + q);
    hide FreeOk, Linked, Owners, Timed, Ids;
    ReleaseKeepsLinks(n, h, q);
    ReleaseKeepsTimes(n, h, q);
  }

  lemma FiredRest(w: Wheel, i: nat, q: seq<Handle>)
    requires Shaped(w) && FreeOk(w) && Linked(w, q) && Timed(w, q) && Ids(w) && i < |w.entries|
    ensures var n := NoteFired(w, i); Shaped(n) && FreeOk(n) && Linked(n, q) && Timed(n, q) && Ids(n)
  {
    var n := NoteFired(w, i);
    forall s, g | 0 <= s < |n.slots| && g in n.slots[s]
      ensures HandleOk(n, s, g)
    {
      assert HandleOk(w, s, g);
    }
  }

  lemma {:induction false} VisitAllKeeps(w: Wheel, hs: seq<Handle>, compacting: bool)
    requires Inv(w, hs)
    ensures Inv(VisitAll(w, hs, compacting), [])
    decreases |hs|
  {
    if hs != [] {
      assert hs == [hs[0]] + hs[1..];
      VisitKeeps(w, hs[0], compacting, hs[1..]);
      VisitAllKeeps(Visit(w, hs[0], compacting), hs[1..], compacting);
    }
  }

  // ----- Advancing -----

  lemma MoveCursorKeepsLinks(w: Wheel)
    requires Shaped(w) && Linked(w, [])
    ensures Linked(MoveCursor(w), w.slots[MoveCursor(w).current])
  {
    var w' := MoveCursor(w);
    forall s, h | 0 <= s < |w'.slots| && h in w'.slots[s]
      ensures HandleOk(w', s, h)
    {
      assert HandleOk(w, s, h);
    }
    forall h | h in w.slots[w'.current]
      ensures HandleOk(w', w'.current, h)
    {
      assert HandleOk(w, w'.current, h);
    }
  }

  lemma MoveCursorKeepsTimes(w: Wheel)
    requires Shaped(w) && Linked(w, []) && Timed(w, [])
    ensures Timed(MoveCursor(w), w.slots[MoveCursor(w).current])
  {
    var w' := MoveCursor(w);
    SmallModulus(w.current + 1, |w.slots|);
    var q := w.slots[w'.current];
    forall e | 0 <= e < |w.entries| && w.entries[e].active
      ensures HandleOf(w, e) in q <==> w.entries[e].slot == w'.current
    {
      if HandleOf(w, e) in q {
        assert HandleOk(w, w'.current, HandleOf(w, e));
      }
    }
  }

  lemma MoveCursorKeeps(w: Wheel)
    requires Inv(w, [])
    ensures Inv(MoveCursor(w), w.slots[MoveCursor(w).current])
  {
    MoveCursorKeepsLinks(w);
    MoveCursorKeepsTimes(w);
    var w' := MoveCursor(w);
    forall n | 0 <= n < |w.status| && w.status[n] == Live
      ensures HasEntry(w', n)
    {
      assert HasEntry(w, n);
    }
  }

  /** The compaction counter and the clock are not part of the invariant. */
  lemma CountersAreFree(w: Wheel, w': Wheel, q: seq<Handle>)
    requires Inv(w, q) && w' == w.(compaction := w'.compaction, lastTick := w'.lastTick)
    ensures Inv(w', q)
  {
    forall s, h | 0 <= s < |w'.slots| && h in w'.slots[s]
      ensures HandleOk(w', s, h)
    {
      assert HandleOk(w, s, h);
    }
    forall n | 0 <= n < |w.status| && w.status[n] == Live
      ensures HasEntry(w', n)
    {
      assert HasEntry(w, n);
    }
  }

  lemma SweepKeeps(w: Wheel, hs: seq<Handle>)
    requires Inv(w, hs)
    ensures Inv(Sweep(w, hs), [])
  {
    if hs != [] {
      CountersAreFree(w, Counted(w), hs);
      VisitAllKeeps(Counted(w), hs, (w.compaction + 1) % COMPACT_INTERVAL_TICKS == 0);
    }
  }

  lemma AdvanceKeeps(w: Wheel)
    requires Inv(w, [])
    ensures Inv(Advance(w), [])
  {
    MoveCursorKeeps(w);
    SweepKeeps(MoveCursor(w), w.slots[MoveCursor(w).current]);
  }
}
