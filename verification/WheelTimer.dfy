/** The timing wheel object: each method does to the fields what the model function does to the value. */
module WheelTimers {
  import opened Options
  import opened WheelModel
  import opened WheelTheorems

  lemma NoTick(w: Wheel, now: int)
    requires Shaped(w) && (now <= w.lastTick || (now - w.lastTick) / NS_PER_MS < w.tickMs)
    ensures Tick(w, now) == w
  {
    assert now > w.lastTick ==> (now - w.lastTick) / NS_PER_MS / w.tickMs == 0;
    assert Clocked(w, 0) == w;
  }

  class WheelTimer {
    const tickMs: nat
    var slots: seq<seq<Handle>>
    var entries: seq<Entry>
    var free: seq<nat>
    var current: nat
    var lastTick: int
    var pending: nat
    var compaction: nat
    ghost var advances: nat
    ghost var owner: seq<nat>
    ghost var due: seq<nat>
    ghost var status: seq<Status>
    ghost var issued: seq<Handle>
    ghost var given: seq<Callback>
    ghost var ran: seq<WheelModel.Call>
    ghost var wrapped: bool

    ghost function Value(): Wheel
      reads this
    {
      Wheel(tickMs, slots, entries, free, current, lastTick, pending, compaction,
            advances, owner, due, status, issued, given, ran, wrapped)
    }

    constructor (size: nat, tickMs: nat, now: int)
      requires 0 < size && 0 < tickMs
      ensures Value() == Init(size, tickMs, now) && Shaped(Value())
    {
      this.tickMs := tickMs;
      slots := seq(size, _ => []);
      entries, free, current, lastTick, pending, compaction := [], [], 0, now, 0, 0;
      advances, owner, due, status, issued, given, ran, wrapped := 0, [], [], [], [], [], [], false;
    }

    method AcquireEntry() returns (index: nat)
      requires Shaped(Value())
      modifies this
      ensures (Value(), index) == Acquire(old(Value()))
      ensures index < |entries| && entries[index].generation != 0
      ensures index == if old(free) != [] then old(free)[|old(free)| - 1] else |old(entries)|
    {
      if free != [] {
        index := free[|free| - 1];
        free := free[..|free| - 1];
        var g := NextGeneration(entries[index].generation);
        wrapped := wrapped || g <= entries[index].generation;
        entries := entries[index := entries[index].(generation := g)];
      } else {
        index := |entries|;
        entries := entries + [Entry(None, 0, 0, 1, false, false)];
      }
      pending := pending + 1;
    }

    /** Without a callback nothing is added (the code throws). */
    method AddTimer(timeout: int, cb: Option<Callback>) returns (id: Option<nat>)
      requires Shaped(Value())
      modifies this
      ensures Shaped(Value())
      ensures cb == None ==> id == None && Value() == old(Value())
      ensures cb.Some? ==> id.Some? && (Value(), id.value) == Add(old(Value()), timeout, cb.value)
    {
      hide Place;
      if cb == None {
        return None;
      }
      ghost var added := Add(Value(), timeout, cb.value);
      var t := if timeout <= 0 then 1 else timeout;
      var ticks := (t + tickMs - 1) / tickMs;
      if ticks == 0 {
        ticks := 1;
      }
      var index := AcquireEntry();
      var n := PlaceEntry(index, ticks, cb.value);
      assert (Value(), n) == added;
      id := Some(n);
    }

    /** A timer is issued. */
    ghost method NoteAdded(handle: Handle, at: nat, cb: Callback)
      modifies `owner, `due, `status, `issued, `given
      ensures owner == if handle.index < |old(owner)| then old(owner)[handle.index := |old(status)|]
                       else old(owner) + [|old(status)|]
      ensures due == old(due) + [at] && status == old(status) + [Live] && issued == old(issued) + [handle]
      ensures given == old(given) + [cb]
    {
      owner := if handle.index < |owner| then owner[handle.index := |status|] else owner + [|status|];
      due, status, issued, given := due + [at], status + [Live], issued + [handle], given + [cb];
    }

    method PlaceEntry(index: nat, ticks: nat, cb: Callback) returns (id: nat)
      requires 0 < |slots| && index < |entries|
      modifies this
      ensures (Value(), id) == Place(old(Value()), index, ticks, cb)
    {
      hide Delay, MakeId;
      var target := (current + ticks % |slots|) % |slots|;
      var entry := entries[index].(callback := Some(cb), rounds := ticks / |slots|, slot := target, active := true);
      entries := entries[index := entry];
      var handle := Handle(index, entry.generation);
      slots := slots[target := slots[target] + [handle]];
      NoteAdded(handle, advances + Delay(ticks, |slots|), cb);
      id := MakeId(handle);
    }

    method CancelTimer(id: nat) returns (ok: bool)
      requires Shaped(Value())
      modifies this
      ensures Shaped(Value()) && (Value(), ok) == Cancel(old(Value()), id)
    {
      var handle := DecodeId(id);
      if handle.index >= |entries| {
        return false;
      }
      if !entries[handle.index].active || entries[handle.index].generation != handle.generation {
        return false;
      }
      entries := entries[handle.index := entries[handle.index].(cancelled := true)];
      status := status[owner[handle.index] := Cancelled];
      return true;
    }

    method ReleaseEntry(index: nat)
      requires Shaped(Value()) && index < |entries|
      modifies this
      ensures Shaped(Value()) && Value() == Release(old(Value()), index)
      ensures !entries[index].active && entries[index].generation == old(entries[index].generation)
      ensures free == old(free) + [index]
    {
      entries := entries[index := Entry(None, 0, 0, entries[index].generation, false, false)];
      free := free + [index];
      if pending > 0 {
        pending := pending - 1;
      }
    }

    method Call(ops: seq<Op>)
      requires Shaped(Value())
      modifies this
      ensures Shaped(Value()) && Value() == RunOps(old(Value()), ops)
    {
      ghost var start := Value();
      for i := 0 to |ops|
        invariant Shaped(Value()) && Value() == RunOps(start, ops[..i])
      {
        assert ops[..i + 1][..i] == ops[..i];
        match ops[i] {
          case OpAdd(timeout, cb) =>
            var _ := AddTimer(timeout, Some(cb));
          case OpCancel(id) =>
            var _ := CancelTimer(id);
        }
      }
      assert ops[..|ops|] == ops;
    }

    method VisitHandle(handle: Handle, compacting: bool)
      requires Shaped(Value())
      modifies this
      ensures Shaped(Value()) && Value() == Visit(old(Value()), handle, compacting)
    {
      if handle.index >= |entries| {
        return;
      }
      var entry := entries[handle.index];
      if !entry.active || entry.generation != handle.generation {
        return;
      }
      if entry.cancelled {
        if compacting {
          ReleaseEntry(handle.index);
        } else {
          slots := slots[current := slots[current] + [handle]];
        }
      } else if entry.rounds > 0 {
        entries := entries[handle.index := entry.(rounds := entry.rounds - 1)];
        slots := slots[current := slots[current] + [handle]];
      } else {
        status := status[owner[handle.index] := Fired(advances)];
        ran := ran + [WheelModel.Call(owner[handle.index], CallbackOps(entry), advances)];
        ReleaseEntry(handle.index);
        Call(CallbackOps(entry));
      }
    }

    method SweepHandles(handles: seq<Handle>)
      requires Shaped(Value())
      modifies this
      ensures Shaped(Value()) && Value() == Sweep(old(Value()), handles)
    {
      hide Visit;
      if handles == [] {
        return;
      }
      compaction := compaction + 1;
      var compacting := compaction % COMPACT_INTERVAL_TICKS == 0;
      ghost var start := Value();
      var i := 0;
      while i < |handles|
        invariant 0 <= i <= |handles|
        invariant Shaped(Value())
        invariant VisitAll(Value(), handles[i..], compacting) == VisitAll(start, handles, compacting)
      {
        VisitHandle(handles[i], compacting);
        i := i + 1;
      }
    }

    method AdvanceSlot()
      requires Shaped(Value())
      modifies this
      ensures Shaped(Value()) && Value() == Advance(old(Value()))
    {
      current := (current + 1) % |slots|;
      advances := advances + 1;
      var handles := slots[current];
      slots := slots[current := []];
      SweepHandles(handles);
    }

    method AdvanceClock(ticks: nat)
      modifies `lastTick
      ensures Value() == Clocked(old(Value()), ticks)
    {
      lastTick := lastTick + ticks * (tickMs * NS_PER_MS);
    }

    method DoTick(now: int)
      requires Shaped(Value())
      modifies this
      ensures Shaped(Value()) && Value() == Tick(old(Value()), now)
    {
      hide Clocked, Advance;
      if now <= lastTick {
        NoTick(Value(), now);
        return;
      }
      var elapsed := (now - lastTick) / NS_PER_MS;
      if elapsed < tickMs {
        NoTick(Value(), now);
        return;
      }
      var ticks := elapsed / tickMs;
      assert ticks == TicksElapsed(Value(), now);
      hide TicksElapsed;
      AdvanceClock(ticks);
      ghost var start := Value();
      for i := 0 to ticks
        invariant Shaped(Value()) && Value() == AdvanceTimes(start, i)
      {
        AdvanceSlot();
      }
    }

    /** None stands for "no deadline". */
    method TimeUntilNextExpiration(now: int) returns (best: Option<int>)
      requires Shaped(Value())
      ensures IsNextExpiration(Value(), now, best)
    {
      if pending == 0 {
        return None;
      }
      var since := if now > lastTick then (now - lastTick) / NS_PER_MS else 0;
      var base := tickMs - (if since < tickMs then since else tickMs);
      best := None;
      for s := 0 to |slots|
        invariant best.Some? ==>
                  exists z: nat, h :: Considered(Value(), z, h) && best.value == Candidate(Value(), z, h, now)
        invariant forall z: nat, h :: z < s && Considered(Value(), z, h) ==>
                    best.Some? && best.value <= Candidate(Value(), z, h, now)
      {
        var offset := if s >= current then s - current else |slots| - (current - s);
        for i := 0 to |slots[s]|
          invariant best.Some? ==>
                    exists z: nat, h :: Considered(Value(), z, h) && best.value == Candidate(Value(), z, h, now)
          invariant forall z: nat, h :: (z < s || (z == s && h in slots[s][..i])) && Considered(Value(), z, h) ==>
                      best.Some? && best.value <= Candidate(Value(), z, h, now)
        {
          var handle := slots[s][i];
          if handle.index < |entries| && entries[handle.index].active
             && entries[handle.index].generation == handle.generation {
            assert Considered(Value(), s, handle);
            var candidate := base + (offset + entries[handle.index].rounds * |slots|) * tickMs;
            if best == None || candidate < best.value {
              best := Some(candidate);
            }
          }
        }
      }
    }
  }
}
