/**
 The hashed timing wheel on values: what one add, one cancel, one advance of the wheel and one tick do
 to its slots, entries and free list.

 A callback is the sequence of adds and cancels it performs; a callback with other behaviour is, for
 the wheel, some such sequence. The fields after `compaction` are history: the wheel's own
 decisions never read them.
 */
module WheelModel {
  import opened Options

  datatype Callback = Callback(ops: seq<Op>)

  datatype Op = OpAdd(timeout: int, cb: Callback) | OpCancel(id: nat)

  datatype Handle = Handle(index: nat, generation: nat)

  datatype Entry = Entry(
    callback: Option<Callback>,
    rounds: nat,
    slot: nat,
    generation: nat,
    active: bool,
    cancelled: bool)

  /** What became of an added timer; `at` counts the advances of the wheel. */
  datatype Status = Live | Cancelled | Fired(at: nat)

  /** A callback that ran: whose, what it did, and at which advance. */
  datatype Call = Call(timer: nat, ops: seq<Op>, at: nat)

  datatype Wheel = Wheel(
    tickMs: nat,
    slots: seq<seq<Handle>>,
    entries: seq<Entry>,
    free: seq<nat>,
    current: nat,
    lastTick: int,              // nanoseconds
    pending: nat,
    compaction: nat,
    advances: nat,              // advances of the wheel so far
    owner: seq<nat>,            // for each entry, the latest timer that holds it
    due: seq<nat>,              // for each timer, the advance at which it has to fire
    status: seq<Status>,        // for each timer, its fate
    issued: seq<Handle>,        // for each timer, what its id encodes
    given: seq<Callback>,       // for each timer, the callback it was added with
    ran: seq<Call>,             // the callbacks run so far
    wrapped: bool)              // some generation counter has wrapped

  const COMPACT_INTERVAL_TICKS: nat := 8
  const NS_PER_MS: nat := 1_000_000
  const WORD: nat := 0x1_0000_0000

  function Init(size: nat, tickMs: nat, now: int): Wheel {
    Wheel(tickMs, seq(size, _ => []), [], [], 0, now, 0, 0, 0, [], [], [], [], [], [], false)
  }

  predicate Shaped(w: Wheel) {
    && 0 < |w.slots| && w.current < |w.slots| && 0 < w.tickMs
    && |w.owner| == |w.entries| && |w.due| == |w.status| == |w.issued|
    && (forall i :: 0 <= i < |w.free| ==> w.free[i] < |w.entries|)
    && (forall e :: 0 <= e < |w.entries| ==> w.owner[e] < |w.status|)
  }

  // ----- Ids -----

  function MakeId(h: Handle): nat {
    h.generation * WORD + h.index
  }

  function DecodeId(id: nat): Handle {
    Handle(id % WORD, id / WORD)
  }

  lemma IdRoundTrip(h: Handle)
    requires h.index < WORD
    ensures DecodeId(MakeId(h)) == h
  {
  }

  // ----- Add and cancel -----

  /** Timeouts in ticks, rounded up; a timeout that is not positive counts as one millisecond. */
  function Ticks(timeout: int, tickMs: nat): (k: nat)
    requires 0 < tickMs
    ensures k >= 1
  {
    var t := if timeout <= 0 then 1 else timeout;
    var k := (t + tickMs - 1) / tickMs;
    if k == 0 then 1 else k
  }

  /** The advances until a timer of k ticks fires on a wheel of `size` slots. */
  function Delay(k: nat, size: nat): nat
    requires 0 < size
  {
    if k % size == 0 then k + size else k
  }

  function NextGeneration(g: nat): nat {
    if (g + 1) % WORD == 0 then 1 else (g + 1) % WORD
  }

  /** acquire_entry: the entry's index, and the wheel with that entry taken. */
  function Acquire(w: Wheel): (r: (Wheel, nat))
    requires Shaped(w)
    ensures r.1 < |r.0.entries| && |r.0.entries| == |r.0.owner| + if w.free == [] then 1 else 0
  {
    if w.free != [] then
      var i := w.free[|w.free| - 1];
      var g := NextGeneration(w.entries[i].generation);
      (w.(free := w.free[..|w.free| - 1], entries := w.entries[i := w.entries[i].(generation := g)],
          pending := w.pending + 1, wrapped := w.wrapped || g <= w.entries[i].generation), i)
    else
      (w.(entries := w.entries + [Entry(None, 0, 0, 1, false, false)], pending := w.pending + 1), |w.entries|)
  }

  /** Fill the acquired entry i for a timer of k ticks and link it into its slot. */
  function Place(w: Wheel, i: nat, k: nat, cb: Callback): (r: (Wheel, nat))
    requires 0 < |w.slots| && i < |w.entries|
  {
    var size := |w.slots|;
    var target := (w.current + k % size) % size;
    var entry := w.entries[i].(callback := Some(cb), rounds := k / size, slot := target, active := true);
    var h := Handle(i, entry.generation);
    (w.(entries := w.entries[i := entry],
        slots := w.slots[target := w.slots[target] + [h]],
        owner := if i < |w.owner| then w.owner[i := |w.status|] else w.owner + [|w.status|],
        due := w.due + [w.advances + Delay(k, size)],
        status := w.status + [Live],
        issued := w.issued + [h],
        given := w.given + [cb]),
     MakeId(h))
  }

  function Add(w: Wheel, timeout: int, cb: Callback): (r: (Wheel, nat))
    requires Shaped(w)
    ensures Shaped(r.0)
  {
    var (a, i) := Acquire(w);
    Place(a, i, Ticks(timeout, w.tickMs), cb)
  }

  predicate Cancellable(w: Wheel, h: Handle) {
    h.index < |w.entries| && w.entries[h.index].active && w.entries[h.index].generation == h.generation
  }

  function MarkCancelled(w: Wheel, i: nat): Wheel
    requires Shaped(w) && i < |w.entries|
  {
    w.(entries := w.entries[i := w.entries[i].(cancelled := true)],
       status := w.status[w.owner[i] := Cancelled])
  }

  function Cancel(w: Wheel, id: nat): (r: (Wheel, bool))
    requires Shaped(w)
    ensures Shaped(r.0)
  {
    var h := DecodeId(id);
    if Cancellable(w, h) then (MarkCancelled(w, h.index), true) else (w, false)
  }

  function RunOps(w: Wheel, ops: seq<Op>): (w': Wheel)
    requires Shaped(w)
    ensures Shaped(w')
    decreases |ops|
  {
    if ops == [] then w
    else
      match ops[|ops| - 1]
      case OpAdd(timeout, cb) => Add(RunOps(w, ops[..|ops| - 1]), timeout, cb).0
      case OpCancel(id) => Cancel(RunOps(w, ops[..|ops| - 1]), id).0
  }

  // ----- Advancing the wheel -----

  /** release_entry */
  function Release(w: Wheel, i: nat): Wheel
    requires Shaped(w) && i < |w.entries|
  {
    var e := w.entries[i];
    w.(entries := w.entries[i := Entry(None, 0, 0, e.generation, false, false)],
       free := w.free + [i],
       pending := if w.pending > 0 then w.pending - 1 else 0)
  }

  function PushBack(w: Wheel, h: Handle): Wheel
    requires Shaped(w)
  {
    w.(slots := w.slots[w.current := w.slots[w.current] + [h]])
  }

  function Decremented(w: Wheel, i: nat): Wheel
    requires Shaped(w) && i < |w.entries| && w.entries[i].rounds > 0
  {
    w.(entries := w.entries[i := w.entries[i].(rounds := w.entries[i].rounds - 1)])
  }

  function CallbackOps(e: Entry): seq<Op> {
    if e.callback.Some? then e.callback.value.ops else []
  }

  /** The entry's timer fires: its callback runs. */
  function NoteFired(w: Wheel, i: nat): Wheel
    requires Shaped(w) && i < |w.entries|
  {
    w.(status := w.status[w.owner[i] := Fired(w.advances)],
       ran := w.ran + [Call(w.owner[i], CallbackOps(w.entries[i]), w.advances)])
  }

  /** One handle of the slot under the cursor. */
  function Visit(w: Wheel, h: Handle, compacting: bool): (w': Wheel)
    requires Shaped(w)
    ensures Shaped(w')
  {
    if !Cancellable(w, h) then w
    else
      var e := w.entries[h.index];
      if e.cancelled then
        if compacting then Release(w, h.index) else PushBack(w, h)
      else if e.rounds > 0 then PushBack(Decremented(w, h.index), h)
      else
        RunOps(Release(NoteFired(w, h.index), h.index), CallbackOps(e))
  }

  function VisitAll(w: Wheel, hs: seq<Handle>, compacting: bool): (w': Wheel)
    requires Shaped(w)
    ensures Shaped(w')
    decreases |hs|
  {
    if hs == [] then w else VisitAll(Visit(w, hs[0], compacting), hs[1..], compacting)
  }

  /** The cursor moves to the next slot, whose handles are taken out. */
  function MoveCursor(w: Wheel): (w': Wheel)
    requires Shaped(w)
    ensures Shaped(w')
  {
    var c := (w.current + 1) % |w.slots|;
    w.(current := c, advances := w.advances + 1, slots := w.slots[c := []])
  }

  /** Visit the handles taken out; every eighth time that there are any, drop cancelled entries. */
  function Sweep(w: Wheel, hs: seq<Handle>): (w': Wheel)
    requires Shaped(w)
    ensures Shaped(w')
  {
    if hs == [] then w
    else VisitAll(Counted(w), hs, (w.compaction + 1) % COMPACT_INTERVAL_TICKS == 0)
  }

  function Counted(w: Wheel): (w': Wheel) {
    w.(compaction := w.compaction + 1)
  }

  /** advance_slot */
  function Advance(w: Wheel): (w': Wheel)
    requires Shaped(w)
    ensures Shaped(w')
  {
    var m := MoveCursor(w);
    Sweep(m, w.slots[m.current])
  }

  function AdvanceTimes(w: Wheel, n: nat): (w': Wheel)
    requires Shaped(w)
    ensures Shaped(w')
  {
    if n == 0 then w else Advance(AdvanceTimes(w, n - 1))
  }

  /** Whole ticks between the last tick and `now`. */
  function TicksElapsed(w: Wheel, now: int): nat
    requires 0 < w.tickMs
  {
    if now <= w.lastTick then 0 else (now - w.lastTick) / NS_PER_MS / w.tickMs
  }

  function Tick(w: Wheel, now: int): (w': Wheel)
    requires Shaped(w)
    ensures Shaped(w')
  {
    var n := TicksElapsed(w, now);
    AdvanceTimes(Clocked(w, n), n)
  }

  function Clocked(w: Wheel, n: nat): Wheel {
    w.(lastTick := w.lastTick + n * (w.tickMs * NS_PER_MS))
  }
}
