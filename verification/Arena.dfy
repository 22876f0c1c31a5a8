/** The monotonic arena: first fit over spill blocks, alignment, and reset with reuse. */
module Arena {
  import opened Options
  import opened RingTickets

  const MAX_ALIGNMENT: nat := 64
  const MAX_BLOCKS: nat := 32

  // ----- Alignment -----

  /** The alignments that allocate accepts: powers of two up to MAX_ALIGNMENT. */
  predicate Accepted(alignment: nat) {
    alignment in {1, 2, 4, 8, 16, 32, 64}
  }

  function AlignUp(n: nat, alignment: nat): nat
    requires Accepted(alignment)
  {
    (n + alignment - 1) / alignment * alignment
  }

  /** The test in the code on the bits of the alignment accepts exactly those. */
  lemma AcceptedBits(a: bv64)
    ensures !(a == 0 || a & (a - 1) != 0 || a > 64) <==>
            a == 1 || a == 2 || a == 4 || a == 8 || a == 16 || a == 32 || a == 64
  {
  }

  /** The mask in the code, on machine words: the low bits are cleared, and the result is the first
      such word at or above n (n is not within one alignment of the largest word). */
  lemma AlignUpBits(n: bv64, a: bv64)
    requires a == 1 || a == 2 || a == 4 || a == 8 || a == 16 || a == 32 || a == 64
    requires n <= 0xFFFF_FFFF_FFFF_FFC0
    ensures var r := (n + a - 1) & !(a - 1);
            r & (a - 1) == 0 && n <= r && r - n < a
  {
  }

  lemma Quotient(n: nat, d: nat)
    requires 0 < d
    ensures n / d * d <= n < n / d * d + d
    ensures n / d * d % d == 0
  {
    var k := n / d;
    assert d * (k * d / d - k) == -(k * d % d);
    MultipleIsFar(d, k * d / d - k);
  }

  /** A multiple of 64 is a multiple of every accepted alignment. */
  lemma CoarserMultiple(n: nat, alignment: nat)
    requires Accepted(alignment) && n % 64 == 0
    ensures exists k: nat :: n == k * alignment
  {
    var m := n / 64;
    var k := if alignment == 1 then m * 64 else if alignment == 2 then m * 32 else if alignment == 4 then m * 16
             else if alignment == 8 then m * 8 else if alignment == 16 then m * 4
             else if alignment == 32 then m * 2 else m;
    assert n == k * alignment;
  }

  lemma AlignedStays(n: nat, alignment: nat)
    requires Accepted(alignment) && n % 64 == 0
    ensures AlignUp(n, alignment) == n
  {
    CoarserMultiple(n, alignment);
    hide Accepted;
    var k: nat :| n == k * alignment;
    Quotient(n + alignment - 1, alignment);
    OnlyMultiple(alignment, (n + alignment - 1) / alignment, k);
  }

  lemma OnlyMultiple(d: nat, q: int, k: int)
    requires k * d <= q * d < k * d + d
    ensures q == k
  {
    assert q * d - k * d == d * (q - k);
    MultipleIsFar(d, q - k);
  }

  /** AlignUp is the least multiple of the alignment that is not below n. */
  lemma AlignUpIsLeast(n: nat, alignment: nat)
    requires Accepted(alignment)
    ensures AlignUp(n, alignment) % alignment == 0
    ensures n <= AlignUp(n, alignment) < n + alignment
    ensures n % 64 == 0 ==> AlignUp(n, alignment) == n
  {
    Quotient(n + alignment - 1, alignment);
    if n % 64 == 0 {
      AlignedStays(n, alignment);
    }
  }

  // ----- Blocks -----

  datatype Block = Block(base: nat, size: nat, used: nat)

  datatype State = State(blocks: seq<Block>, current: nat, blockSize: nat, bytesAllocated: nat, capacity: nat)

  function Padding(b: Block, alignment: nat): (p: nat)
    requires Accepted(alignment)
    ensures p < alignment
  {
    AlignUpIsLeast(b.base + b.used, alignment);
    AlignUp(b.base + b.used, alignment) - (b.base + b.used)
  }

  predicate Fits(b: Block, bytes: nat, alignment: nat)
    requires Accepted(alignment)
  {
    b.used < b.size && b.used + Padding(b, alignment) + bytes <= b.size
  }

  /** The lowest block that fits, or |blocks|. */
  function FirstFit(blocks: seq<Block>, bytes: nat, alignment: nat): (i: nat)
    requires Accepted(alignment)
    ensures i <= |blocks|
    ensures i < |blocks| ==> Fits(blocks[i], bytes, alignment)
    ensures forall j :: 0 <= j < i ==> !Fits(blocks[j], bytes, alignment)
  {
    if blocks == [] then 0
    else if Fits(blocks[0], bytes, alignment) then 0
    else 1 + FirstFit(blocks[1..], bytes, alignment)
  }

  /** The block that serves a request: the current one if it fits, else the lowest that does. */
  function Choice(s: State, bytes: nat, alignment: nat): (i: nat)
    requires Accepted(alignment)
    ensures i <= |s.blocks|
    ensures i < |s.blocks| ==> Fits(s.blocks[i], bytes, alignment)
  {
    if s.current < |s.blocks| && Fits(s.blocks[s.current], bytes, alignment) then s.current
    else FirstFit(s.blocks, bytes, alignment)
  }

  /** Bump block i over `padding` and then `bytes` bytes. */
  function Bumped(s: State, i: nat, padding: nat, bytes: nat): (r: (State, Option<nat>))
    requires i < |s.blocks|
  {
    var b := s.blocks[i];
    (s.(blocks := s.blocks[i := b.(used := b.used + padding + bytes)], current := i,
        bytesAllocated := s.bytesAllocated + bytes),
     Some(b.base + b.used + padding))
  }

  function Take(s: State, i: nat, bytes: nat, alignment: nat): (r: (State, Option<nat>))
    requires Accepted(alignment) && i < |s.blocks|
  {
    Bumped(s, i, Padding(s.blocks[i], alignment), bytes)
  }

  function NewBlockSize(s: State, bytes: nat): nat {
    if s.blockSize >= bytes + MAX_ALIGNMENT then s.blockSize else bytes + MAX_ALIGNMENT
  }

  /** A new empty block at the address `address` that the system allocator returned. */
  function AddBlock(s: State, size: nat, address: nat): State {
    s.(blocks := s.blocks + [Block(address, size, 0)], current := |s.blocks|, capacity := s.capacity + size)
  }

  function Allocate(s: State, bytes: nat, alignment: nat, address: nat): (State, Option<nat>) {
    if bytes == 0 || !Accepted(alignment) then (s, None)
    else
      var i := Choice(s, bytes, alignment);
      if i < |s.blocks| then Take(s, i, bytes, alignment)
      else if |s.blocks| >= MAX_BLOCKS then (s, None)
      else
        var t := AddBlock(s, NewBlockSize(s, bytes), address);
        var b := t.blocks[|s.blocks|];
        if Padding(b, alignment) + bytes > b.size then (t, None)
        else Take(t, |s.blocks|, bytes, alignment)
  }

  function Emptied(blocks: seq<Block>): (r: seq<Block>)
    ensures |r| == |blocks|
  {
    seq(|blocks|, i requires 0 <= i < |blocks| => blocks[i].(used := 0))
  }

  function Reset(s: State): State {
    s.(blocks := Emptied(s.blocks), current := 0, bytesAllocated := 0)
  }

  // ----- The arena object -----

  lemma {:induction false} EmptyOne(before: seq<Block>, i: nat)
    requires i < |before|
    ensures var now := Emptied(before)[..i] + before[i..];
            now[i := now[i].(used := 0)] == Emptied(before)[..i + 1] + before[i + 1..]
  {
  }

  class MonotonicArena {
    var blocks: seq<Block>
    var current: nat
    const blockSize: nat
    var bytesAllocated: nat
    var capacity: nat

    function Value(): State
      reads this
    {
      State(blocks, current, blockSize, bytesAllocated, capacity)
    }

    constructor (blockSize: nat)
      ensures Value() == State([], 0, blockSize, 0, 0)
    {
      this.blockSize := blockSize;
      blocks, current, bytesAllocated, capacity := [], 0, 0, 0;
    }

    method DoReset()
      modifies this
      ensures Value() == Reset(old(Value()))
    {
      ghost var before := blocks;
      var i := 0;
      while i < |blocks|
        invariant 0 <= i <= |blocks| == |before|
        invariant blocks == Emptied(before)[..i] + before[i..]
        invariant current == old(current) && bytesAllocated == old(bytesAllocated) && capacity == old(capacity)
      {
        EmptyOne(before, i);
        blocks := blocks[i := blocks[i].(used := 0)];
        i := i + 1;
      }
      current := 0;
      bytesAllocated := 0;
    }

    method Bump(i: nat, bytes: nat, alignment: nat) returns (pointer: nat)
      requires Accepted(alignment) && i < |blocks|
      modifies this
      ensures (Value(), Some(pointer)) == Take(old(Value()), i, bytes, alignment)
    {
      var b := blocks[i];
      var here := b.base + b.used;
      var aligned := AlignUp(here, alignment);
      AlignUpIsLeast(here, alignment);
      blocks := blocks[i := b.(used := b.used + (aligned - here) + bytes)];
      current := i;
      bytesAllocated := bytesAllocated + bytes;
      pointer := aligned;
    }

    /** `address` is the address the system allocator returns if it is asked. */
    method DoAllocate(bytes: nat, alignment: nat, address: nat) returns (pointer: Option<nat>)
      modifies this
      ensures (Value(), pointer) == Allocate(old(Value()), bytes, alignment, address)
    {
      if bytes == 0 || !Accepted(alignment) {
        return None;
      }
      if current < |blocks| && Fits(blocks[current], bytes, alignment) {
        var p := Bump(current, bytes, alignment);
        return Some(p);
      }
      var i := 0;
      while i < |blocks|
        invariant 0 <= i <= |blocks|
        invariant FirstFit(blocks, bytes, alignment) == i + FirstFit(blocks[i..], bytes, alignment)
      {
        if Fits(blocks[i], bytes, alignment) {
          var p := Bump(i, bytes, alignment);
          return Some(p);
        }
        i := i + 1;
      }
      if |blocks| >= MAX_BLOCKS {
        return None;
      }
      var size := NewBlockSize(Value(), bytes);
      blocks := blocks + [Block(address, size, 0)];
      capacity := capacity + size;
      current := |blocks| - 1;
      if Padding(blocks[current], alignment) + bytes > size {
        return None;
      }
      var p := Bump(current, bytes, alignment);
      return Some(p);
    }
  }

  // ----- What the arena keeps -----

  predicate Apart(lo1: nat, size1: nat, lo2: nat, size2: nat) {
    lo1 + size1 <= lo2 || lo2 + size2 <= lo1
  }

  function SumUsed(blocks: seq<Block>): nat {
    if blocks == [] then 0 else SumUsed(blocks[..|blocks| - 1]) + blocks[|blocks| - 1].used
  }

  function SumSize(blocks: seq<Block>): nat {
    if blocks == [] then 0 else SumSize(blocks[..|blocks| - 1]) + blocks[|blocks| - 1].size
  }

  ghost predicate Valid(s: State) {
    && (forall i :: 0 <= i < |s.blocks| ==> s.blocks[i].base % 64 == 0 && s.blocks[i].used <= s.blocks[i].size)
    && (forall i, j :: 0 <= i < j < |s.blocks| ==>
          Apart(s.blocks[i].base, s.blocks[i].size, s.blocks[j].base, s.blocks[j].size))
    && |s.blocks| <= MAX_BLOCKS
    && s.bytesAllocated <= SumUsed(s.blocks)
    && s.capacity == SumSize(s.blocks)
  }

  /** What the system allocator promises about a new block. */
  predicate FreshFor(s: State, bytes: nat, address: nat) {
    && address % 64 == 0
    && forall i :: 0 <= i < |s.blocks| ==>
         Apart(s.blocks[i].base, s.blocks[i].size, address, NewBlockSize(s, bytes))
  }

  lemma {:induction false} SumUsedUpdate(blocks: seq<Block>, i: nat, b: Block)
    requires i < |blocks|
    ensures SumUsed(blocks[i := b]) == SumUsed(blocks) - blocks[i].used + b.used
    ensures SumSize(blocks[i := b]) == SumSize(blocks) - blocks[i].size + b.size
  {
    var n := |blocks| - 1;
    if i == n {
      assert blocks[i := b][..n] == blocks[..n];
    } else {
      SumUsedUpdate(blocks[..n], i, b);
      assert blocks[i := b][..n] == blocks[..n][i := b];
    }
  }

  lemma {:induction false} UsedWithinSize(blocks: seq<Block>)
    requires forall i :: 0 <= i < |blocks| ==> blocks[i].used <= blocks[i].size
    ensures SumUsed(blocks) <= SumSize(blocks)
  {
    if blocks != [] {
      UsedWithinSize(blocks[..|blocks| - 1]);
    }
  }

  /** A returned region, and where it lies. */
  datatype Region = Region(lo: nat, size: nat)

  ghost predicate InsideUsed(s: State, r: Region) {
    exists i :: 0 <= i < |s.blocks| && s.blocks[i].base <= r.lo
                && r.lo + r.size <= s.blocks[i].base + s.blocks[i].used
  }

  /** The regions handed out since the last reset lie in used space and do not overlap. */
  ghost predicate Owned(s: State, regions: seq<Region>) {
    && (forall k :: 0 <= k < |regions| ==> regions[k].size > 0 && InsideUsed(s, regions[k]))
    && (forall k, l :: 0 <= k < l < |regions| ==>
          Apart(regions[k].lo, regions[k].size, regions[l].lo, regions[l].size))
  }

  lemma BumpedKeepsValid(s: State, i: nat, padding: nat, bytes: nat)
    requires Valid(s) && i < |s.blocks| && s.blocks[i].used + padding + bytes <= s.blocks[i].size
    ensures Valid(Bumped(s, i, padding, bytes).0)
  {
    SumUsedUpdate(s.blocks, i, Bumped(s, i, padding, bytes).0.blocks[i]);
  }

  lemma BumpedKeepsOwned(s: State, i: nat, padding: nat, bytes: nat, regions: seq<Region>)
    requires Valid(s) && Owned(s, regions) && bytes > 0
    requires i < |s.blocks| && s.blocks[i].used + padding + bytes <= s.blocks[i].size
    ensures var (s', p) := Bumped(s, i, padding, bytes);
            Owned(s', regions + [Region(p.value, bytes)])
  {
    var (s', p) := Bumped(s, i, padding, bytes);
    var b := s.blocks[i];
    var r := Region(p.value, bytes);
    assert s'.blocks[i].base <= r.lo && r.lo + r.size <= s'.blocks[i].base + s'.blocks[i].used;
    forall k | 0 <= k < |regions|
      ensures InsideUsed(s', regions[k]) && Apart(regions[k].lo, regions[k].size, r.lo, r.size)
    {
      var j :| 0 <= j < |s.blocks| && s.blocks[j].base <= regions[k].lo
               && regions[k].lo + regions[k].size <= s.blocks[j].base + s.blocks[j].used;
      assert s'.blocks[j].base == s.blocks[j].base && s'.blocks[j].used >= s.blocks[j].used;
      assert j < i ==> Apart(s.blocks[j].base, s.blocks[j].size, b.base, b.size);
      assert i < j ==> Apart(b.base, b.size, s.blocks[j].base, s.blocks[j].size);
    }
  }

  lemma TakeKeeps(s: State, i: nat, bytes: nat, alignment: nat, regions: seq<Region>)
    requires Valid(s) && Owned(s, regions) && Accepted(alignment) && bytes > 0
    requires i < |s.blocks| && s.blocks[i].used + Padding(s.blocks[i], alignment) + bytes <= s.blocks[i].size
    ensures var (s', p) := Take(s, i, bytes, alignment);
            && Valid(s') && p.Some? && p.value % alignment == 0
            && Owned(s', regions + [Region(p.value, bytes)])
  {
    var padding := Padding(s.blocks[i], alignment);
    AlignUpIsLeast(s.blocks[i].base + s.blocks[i].used, alignment);
    BumpedKeepsValid(s, i, padding, bytes);
    BumpedKeepsOwned(s, i, padding, bytes, regions);
  }

  lemma AddBlockKeeps(s: State, bytes: nat, address: nat, regions: seq<Region>)
    requires Valid(s) && Owned(s, regions) && FreshFor(s, bytes, address) && |s.blocks| < MAX_BLOCKS
    ensures var t := AddBlock(s, NewBlockSize(s, bytes), address); Valid(t) && Owned(t, regions)
  {
    var t := AddBlock(s, NewBlockSize(s, bytes), address);
    assert t.blocks[..|t.blocks| - 1] == s.blocks;
    forall k | 0 <= k < |regions|
      ensures InsideUsed(t, regions[k])
    {
      var j :| 0 <= j < |s.blocks| && s.blocks[j].base <= regions[k].lo
               && regions[k].lo + regions[k].size <= s.blocks[j].base + s.blocks[j].used;
      assert t.blocks[j] == s.blocks[j];
    }
  }

  /** A request of a valid arena: the region it gets is aligned, in one block's space and apart from
      every region handed out before. Nothing is returned exactly for an empty request, a bad
      alignment, or when all blocks exist and none fits: a new block always serves its request. */
  lemma AllocateKeeps(s: State, bytes: nat, alignment: nat, address: nat, regions: seq<Region>)
    requires Valid(s) && Owned(s, regions) && FreshFor(s, bytes, address)
    ensures var (s', p) := Allocate(s, bytes, alignment, address);
            && Valid(s')
            && Owned(s', if p.Some? then regions + [Region(p.value, bytes)] else regions)
            && (p.Some? ==> Accepted(alignment) && p.value % alignment == 0)
            && (p.None? <==> bytes == 0 || !Accepted(alignment)
                             || (|s.blocks| == MAX_BLOCKS
                                 && forall i :: 0 <= i < |s.blocks| ==> !Fits(s.blocks[i], bytes, alignment)))
            && (p.None? ==> s' == s)
  {
    if bytes > 0 && Accepted(alignment) {
      var i := Choice(s, bytes, alignment);
      if i < |s.blocks| {
        TakeKeeps(s, i, bytes, alignment, regions);
      } else if |s.blocks| < MAX_BLOCKS {
        AddBlockKeeps(s, bytes, address, regions);
        var t := AddBlock(s, NewBlockSize(s, bytes), address);
        AlignUpIsLeast(address, alignment);
        TakeKeeps(t, |s.blocks|, bytes, alignment, regions);
      }
    }
  }

  lemma AccountingHolds(s: State)
    requires Valid(s)
    ensures s.bytesAllocated <= SumUsed(s.blocks) <= s.capacity
  {
    UsedWithinSize(s.blocks);
  }

  lemma {:induction false} EmptiedSums(blocks: seq<Block>)
    ensures SumUsed(Emptied(blocks)) == 0 && SumSize(Emptied(blocks)) == SumSize(blocks)
  {
    if blocks != [] {
      var n := |blocks| - 1;
      EmptiedSums(blocks[..n]);
      assert Emptied(blocks)[..n] == Emptied(blocks[..n]);
    }
  }

  lemma ResetKeeps(s: State)
    requires Valid(s)
    ensures Valid(Reset(s)) && Owned(Reset(s), [])
  {
    EmptiedSums(s.blocks);
  }

  // ----- Replay after a reset -----

  datatype Request = Request(bytes: nat, alignment: nat, address: nat)

  function Serve(s: State, requests: seq<Request>): (State, seq<Option<nat>>)
    decreases |requests|
  {
    if requests == [] then (s, [])
    else
      var (t, p) := AllocateFor(s, requests[0]);
      var (u, ps) := Serve(t, requests[1..]);
      (u, [p] + ps)
  }

  /** The system allocator keeps its promise at every request. */
  predicate AllFresh(s: State, requests: seq<Request>)
    decreases |requests|
  {
    requests != [] ==>
      var r := requests[0];
      FreshFor(s, r.bytes, r.address) && AllFresh(AllocateFor(s, r).0, requests[1..])
  }

  function AllocateFor(s: State, r: Request): (State, Option<nat>) {
    Allocate(s, r.bytes, r.alignment, r.address)
  }

  function GrantedBy(r: Request, pointer: Option<nat>): seq<Region> {
    if pointer.Some? then [Region(pointer.value, r.bytes)] else []
  }

  /** The regions that a trace is granted, in order. */
  function Granted(s: State, requests: seq<Request>): seq<Region>
    decreases |requests|
  {
    if requests == [] then []
    else
      var (t, p) := AllocateFor(s, requests[0]);
      GrantedBy(requests[0], p) + Granted(t, requests[1..])
  }

  /** A pointer returned for a request is a multiple of the alignment it asks for. */
  predicate IsAligned(r: Request, pointer: Option<nat>) {
    pointer.Some? ==> Accepted(r.alignment) && pointer.value % r.alignment == 0
  }

  lemma Regroup(a: seq<Region>, b: seq<Region>, c: seq<Region>)
    ensures a + b + c == a + (b + c)
    ensures a + [] == a
  {
  }

  lemma AllocateForKeeps(s: State, r: Request, regions: seq<Region>)
    requires Valid(s) && Owned(s, regions) && FreshFor(s, r.bytes, r.address)
    ensures var (t, p) := AllocateFor(s, r);
            Valid(t) && Owned(t, regions + GrantedBy(r, p)) && IsAligned(r, p)
  {
    AllocateKeeps(s, r.bytes, r.alignment, r.address, regions);
    assert regions + [] == regions;
  }

  /** Over any trace: what was granted before and what the trace is granted lies in used space of one
      block each and is pairwise disjoint, and every pointer returned is aligned as its request asks. */
  lemma {:induction false} ServeKeeps(s: State, requests: seq<Request>, regions: seq<Region>)
    requires Valid(s) && Owned(s, regions) && AllFresh(s, requests)
    ensures Valid(Serve(s, requests).0)
    ensures Owned(Serve(s, requests).0, regions + Granted(s, requests))
    ensures var pointers := Serve(s, requests).1;
            |pointers| == |requests| && forall k :: 0 <= k < |requests| ==> IsAligned(requests[k], pointers[k])
    decreases |requests|
  {
    hide Owned, Valid, FreshFor, IsAligned, Allocate;
    if requests == [] {
      Regroup(regions, [], []);
    } else {
      AllocateForKeeps(s, requests[0], regions);
      var (t, p) := AllocateFor(s, requests[0]);
      var granted := GrantedBy(requests[0], p);
      ServeKeeps(t, requests[1..], regions + granted);
      Regroup(regions, granted, Granted(t, requests[1..]));
    }
  }

  // ----- Where a request is served, and what is counted -----

  /** The request gets the lowest aligned address at or after what is used of block i, which then ends
      after the bytes; no other block changes, and exactly the bytes granted are counted. */
  predicate ServedFrom(s: State, i: nat, bytes: nat, alignment: nat, s': State, p: Option<nat>)
    requires i < |s.blocks| && Accepted(alignment)
  {
    var b := s.blocks[i];
    && p == Some(AlignUp(b.base + b.used, alignment))
    && s'.current == i && s'.bytesAllocated == s.bytesAllocated + bytes
    && |s'.blocks| == |s.blocks| && s'.blocks[i].base == b.base && s'.blocks[i].size == b.size
    && s'.blocks[i].base + s'.blocks[i].used == p.value + bytes
    && forall j :: 0 <= j < |s.blocks| && j != i ==> s'.blocks[j] == s.blocks[j]
  }

  lemma TakeServes(s: State, i: nat, bytes: nat, alignment: nat)
    requires i < |s.blocks| && Accepted(alignment)
    ensures var (s', p) := Take(s, i, bytes, alignment); ServedFrom(s, i, bytes, alignment, s', p)
  {
    AlignUpIsLeast(s.blocks[i].base + s.blocks[i].used, alignment);
  }

  /** The current block serves a request that fits it; otherwise the lowest block that it fits does;
      otherwise a new one, of the common size or, for a larger request, of 64 bytes more than it. */
  lemma PlacementRule(s: State, bytes: nat, alignment: nat, address: nat)
    requires bytes > 0 && Accepted(alignment) && address % 64 == 0
    ensures var (s', p) := Allocate(s, bytes, alignment, address);
            if s.current < |s.blocks| && Fits(s.blocks[s.current], bytes, alignment)
            then ServedFrom(s, s.current, bytes, alignment, s', p)
            else if exists i :: 0 <= i < |s.blocks| && Fits(s.blocks[i], bytes, alignment)
            then exists i :: 0 <= i < |s.blocks| && Fits(s.blocks[i], bytes, alignment)
                             && (forall j :: 0 <= j < i ==> !Fits(s.blocks[j], bytes, alignment))
                             && ServedFrom(s, i, bytes, alignment, s', p)
            else if |s.blocks| >= MAX_BLOCKS then p == None && s' == s
            else |s'.blocks| == |s.blocks| + 1 && p == Some(address)
                 && s'.blocks[..|s.blocks|] == s.blocks && s'.current == |s.blocks|
                 && s'.blocks[|s.blocks|].base == address && s'.blocks[|s.blocks|].used == bytes
                 && s'.blocks[|s.blocks|].size == (if bytes + 64 <= s.blockSize then s.blockSize else bytes + 64)
                 && s'.bytesAllocated == s.bytesAllocated + bytes
  {
    var i := Choice(s, bytes, alignment);
    if i < |s.blocks| {
      TakeServes(s, i, bytes, alignment);
    } else if |s.blocks| < MAX_BLOCKS {
      NewBlockFits(s, bytes, alignment, address);
      AlignUpIsLeast(address, alignment);
    }
    hide AlignUp, Accepted, Fits, ServedFrom;
  }

  function BytesOf(regions: seq<Region>): nat {
    if regions == [] then 0 else regions[0].size + BytesOf(regions[1..])
  }

  lemma {:induction false} BytesOfConcat(a: seq<Region>, b: seq<Region>)
    ensures BytesOf(a + b) == BytesOf(a) + BytesOf(b)
  {
    if a == [] {
      assert a + b == b;
    } else {
      assert (a + b)[1..] == a[1..] + b;
      BytesOfConcat(a[1..], b);
    }
  }

  lemma BytesOfOne(s: State, r: Request)
    requires FreshFor(s, r.bytes, r.address)
    ensures var (t, p) := AllocateFor(s, r);
            t.bytesAllocated == s.bytesAllocated + BytesOf(GrantedBy(r, p))
  {
    if r.bytes > 0 && Accepted(r.alignment) && Choice(s, r.bytes, r.alignment) == |s.blocks| {
      NewBlockFits(s, r.bytes, r.alignment, r.address);
    }
    hide Accepted, Choice, Padding, FirstFit;
  }

  /** Exactly the bytes granted are counted as allocated, over any trace. */
  lemma {:induction false} BytesAreCounted(s: State, requests: seq<Request>)
    requires AllFresh(s, requests)
    ensures Serve(s, requests).0.bytesAllocated == s.bytesAllocated + BytesOf(Granted(s, requests))
    decreases |requests|
  {
    hide Allocate, FreshFor, AllocateFor;
    if requests != [] {
      var (t, p) := AllocateFor(s, requests[0]);
      BytesOfOne(s, requests[0]);
      BytesAreCounted(t, requests[1..]);
      BytesOfConcat(GrantedBy(requests[0], p), Granted(t, requests[1..]));
      hide BytesOf;
    }
  }

  /** Blocks are only added, never moved or resized. */
  predicate Extends(a: seq<Block>, b: seq<Block>) {
    |a| <= |b| && forall i :: 0 <= i < |a| ==> a[i].base == b[i].base && a[i].size == b[i].size
  }

  lemma {:induction false} ServeExtends(s: State, requests: seq<Request>)
    ensures Extends(s.blocks, Serve(s, requests).0.blocks)
    decreases |requests|
  {
    if requests != [] {
      var (t, p) := AllocateFor(s, requests[0]);
      assert Extends(s.blocks, t.blocks);
      ServeExtends(t, requests[1..]);
    }
  }

  lemma {:induction false} FirstFitOfConcat(a: seq<Block>, b: seq<Block>, bytes: nat, alignment: nat)
    requires Accepted(alignment)
    ensures var i := FirstFit(a, bytes, alignment);
            FirstFit(a + b, bytes, alignment) == if i < |a| then i else |a| + FirstFit(b, bytes, alignment)
  {
    if a == [] {
      assert a + b == b;
    } else {
      assert (a + b)[1..] == a[1..] + b;
      FirstFitOfConcat(a[1..], b, bytes, alignment);
    }
  }

  /** `b` is `a` with the blocks that `a` will have at the end (those of `final`) already there,
      still empty. */
  ghost predicate Ahead(a: State, b: State, final: State) {
    && Extends(a.blocks, final.blocks)
    && b.blocks == a.blocks + Emptied(final.blocks[|a.blocks|..])
    && b.current == a.current && b.blockSize == a.blockSize && b.bytesAllocated == a.bytesAllocated
    && b.capacity == final.capacity
    && (a.blocks == [] ==> a.current == 0)
    && (a.blocks != [] ==> a.current < |a.blocks|)
  }

  /** A new block is empty and aligned, so it fits the request it was created for. */
  lemma NewBlockFits(s: State, bytes: nat, alignment: nat, address: nat)
    requires Accepted(alignment) && address % 64 == 0 && bytes > 0
    ensures Padding(Block(address, NewBlockSize(s, bytes), 0), alignment) == 0
    ensures Fits(Block(address, NewBlockSize(s, bytes), 0), bytes, alignment)
  {
    AlignUpIsLeast(address, alignment);
  }

  lemma AheadChoice(a: State, b: State, final: State, bytes: nat, alignment: nat)
    requires Ahead(a, b, final) && Accepted(alignment)
    ensures var n := |a.blocks|;
            Choice(b, bytes, alignment) ==
            if Choice(a, bytes, alignment) < n then Choice(a, bytes, alignment)
            else n + FirstFit(b.blocks[n..], bytes, alignment)
  {
    var n := |a.blocks|;
    assert b.blocks == a.blocks + b.blocks[n..];
    FirstFitOfConcat(a.blocks, b.blocks[n..], bytes, alignment);
    if n == 0 && b.blocks != [] && Fits(b.blocks[0], bytes, alignment) {
      assert FirstFit(b.blocks, bytes, alignment) == 0;
    }
  }

  lemma AheadBumped(a: State, b: State, final: State, i: nat, padding: nat, bytes: nat)
    requires Ahead(a, b, final) && i < |a.blocks|
    ensures Ahead(Bumped(a, i, padding, bytes).0, Bumped(b, i, padding, bytes).0, final)
    ensures Bumped(a, i, padding, bytes).1 == Bumped(b, i, padding, bytes).1
  {
  }

  lemma AheadAdded(a: State, b: State, final: State, size: nat, address: nat)
    requires Ahead(a, b, final) && Extends(AddBlock(a, size, address).blocks, final.blocks)
    ensures var n := |a.blocks|;
            && |b.blocks| > n && b.blocks[n] == Block(address, size, 0)
            && Ahead(AddBlock(a, size, address), b.(current := n), final)
  {
    var n := |a.blocks|;
    var extra := Emptied(final.blocks[n..]);
    assert AddBlock(a, size, address).blocks[n] == Block(address, size, 0);
    assert Emptied(final.blocks[n + 1..]) == extra[1..];
    assert b.blocks == a.blocks + [extra[0]] + extra[1..];
  }

  /** The request is served from a block that is there. */
  lemma AheadOld(a: State, b: State, final: State, r: Request, address: nat)
    requires Ahead(a, b, final) && r.bytes > 0 && Accepted(r.alignment)
    requires Choice(a, r.bytes, r.alignment) < |a.blocks|
    requires Extends(Allocate(a, r.bytes, r.alignment, r.address).0.blocks, final.blocks)
    requires |final.blocks| <= MAX_BLOCKS
    ensures var (a', p) := Allocate(a, r.bytes, r.alignment, r.address);
            var (b', q) := Allocate(b, r.bytes, r.alignment, address);
            p == q && Ahead(a', b', final)
  {
    AheadChoice(a, b, final, r.bytes, r.alignment);
    var i := Choice(a, r.bytes, r.alignment);
    AheadBumped(a, b, final, i, Padding(a.blocks[i], r.alignment), r.bytes);
  }

  /** The request that made a block: the second time that block is there, and empty. */
  lemma AheadNew(a: State, b: State, final: State, r: Request, address: nat)
    requires FreshFor(a, r.bytes, r.address) && Ahead(a, b, final) && r.bytes > 0 && Accepted(r.alignment)
    requires Choice(a, r.bytes, r.alignment) == |a.blocks|
    requires Extends(Allocate(a, r.bytes, r.alignment, r.address).0.blocks, final.blocks)
    requires |final.blocks| <= MAX_BLOCKS
    ensures var (a', p) := Allocate(a, r.bytes, r.alignment, r.address);
            var (b', q) := Allocate(b, r.bytes, r.alignment, address);
            p == q && Ahead(a', b', final)
  {
    hide AlignUp, Fits, Accepted;
    var n := |a.blocks|;
    AheadChoice(a, b, final, r.bytes, r.alignment);
    if n < MAX_BLOCKS {
      var size := NewBlockSize(a, r.bytes);
      var t := AddBlock(a, size, r.address);
      NewBlockFits(a, r.bytes, r.alignment, r.address);
      AheadAdded(a, b, final, size, r.address);
      assert FirstFit(b.blocks[n..], r.bytes, r.alignment) == 0;
      AheadBumped(t, b.(current := n), final, n, 0, r.bytes);
    }
  }

  lemma AheadStep(a: State, b: State, final: State, r: Request, address: nat)
    requires FreshFor(a, r.bytes, r.address) && Ahead(a, b, final)
    requires Extends(Allocate(a, r.bytes, r.alignment, r.address).0.blocks, final.blocks)
    requires |final.blocks| <= MAX_BLOCKS
    ensures var (a', p) := Allocate(a, r.bytes, r.alignment, r.address);
            var (b', q) := Allocate(b, r.bytes, r.alignment, address);
            p == q && Ahead(a', b', final)
  {
    hide Ahead, Choice, Bumped, AddBlock, Padding;
    if r.bytes > 0 && Accepted(r.alignment) {
      if Choice(a, r.bytes, r.alignment) < |a.blocks| {
        AheadOld(a, b, final, r, address);
      } else {
        AheadNew(a, b, final, r, address);
      }
    }
  }

  lemma {:induction false} ReplayFrom(a: State, b: State, requests: seq<Request>, again: seq<Request>)
    requires Valid(a) && AllFresh(a, requests) && Ahead(a, b, Serve(a, requests).0)
    requires |again| == |requests|
    requires forall k :: 0 <= k < |requests| ==>
               again[k].bytes == requests[k].bytes && again[k].alignment == requests[k].alignment
    ensures Serve(b, again) == Serve(a, requests)
    decreases |requests|
  {
    var final := Serve(a, requests).0;
    if requests == [] {
      assert a.blocks + Emptied([]) == a.blocks;
      assert final.blocks[|a.blocks|..] == [];
    } else {
      var r := requests[0];
      var (a', p) := Allocate(a, r.bytes, r.alignment, r.address);
      ServeExtends(a', requests[1..]);
      ServeKeeps(a, requests, []);
      AllocateKeeps(a, r.bytes, r.alignment, r.address, []);
      AheadStep(a, b, final, r, again[0].address);
      ReplayFrom(a', Allocate(b, r.bytes, r.alignment, again[0].address).0, requests[1..], again[1..]);
    }
  }

  /** Running any trace of requests on a reset arena, resetting and running it again returns the same
      pointers in the same order, asks the system for no block and ends in the same state. */
  lemma ResetReplay(s: State, requests: seq<Request>, again: seq<Request>)
    requires Valid(s) && AllFresh(Reset(s), requests)
    requires |again| == |requests|
    requires forall k :: 0 <= k < |requests| ==>
               again[k].bytes == requests[k].bytes && again[k].alignment == requests[k].alignment
    ensures var (s1, pointers) := Serve(Reset(s), requests);
            Serve(Reset(s1), again) == (s1, pointers)
  {
    hide Serve, Allocate, AllFresh;
    ResetKeeps(s);
    var a := Reset(s);
    var (s1, pointers) := Serve(a, requests);
    ServeExtends(a, requests);
    var b := Reset(s1);
    assert b.blocks == a.blocks + Emptied(s1.blocks[|a.blocks|..]);
    SameBlockSize(a, requests);
    ReplayFrom(a, b, requests, again);
  }

  lemma {:induction false} SameBlockSize(s: State, requests: seq<Request>)
    ensures Serve(s, requests).0.blockSize == s.blockSize
    decreases |requests|
  {
    if requests != [] {
      SameBlockSize(AllocateFor(s, requests[0]).0, requests[1..]);
    }
  }
}
