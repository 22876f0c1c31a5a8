/** Tickets and slots of a ring: ticket k lives in slot k & mask, that is k % cap. */
module RingTickets {

  /** The slot of a ticket, one lap at a time (no multiplication, so no nonlinear arithmetic). */
  function Slot(k: nat, cap: nat): (i: nat)
    requires 0 < cap
    ensures i < cap
  {
    if k < cap then k else Slot(k - cap, cap)
  }

  lemma {:induction false} SlotIsModulus(k: nat, cap: nat)
    requires 0 < cap
    ensures Slot(k, cap) == k % cap
  {
    if k < cap {
    } else {
      hide Slot;
      var before: nat := k - cap;
      SlotIsModulus(before, cap);
      NextLap(before, cap);
      LapModulus(before, cap);
    }
  }

  lemma LapModulus(k: nat, cap: nat)
    requires 0 < cap
    ensures (k + cap) % cap == k % cap
  {
    var q, r := k / cap, k % cap;
    assert cap * (q + 1) + r == k + cap;
    assert cap * ((k + cap) / cap - q - 1) == r - (k + cap) % cap;
    MultipleIsFar(cap, (k + cap) / cap - q - 1);
  }

  /** A multiple of d that is not zero is at least d away from zero. */
  lemma MultipleIsFar(d: int, k: int)
    requires 0 <= d
    ensures k >= 1 ==> d * k >= d
    ensures k <= -1 ==> d * k <= -d
  {
  }

  lemma NextLap(k: nat, cap: nat)
    requires 0 < cap
    ensures Slot(k + cap, cap) == Slot(k, cap)
  {
  }

  /** Two tickets of one slot that are less than one lap apart are the same ticket. */
  lemma {:induction false} SameSlotSameTicket(a: nat, b: nat, cap: nat)
    requires 0 < cap && Slot(a, cap) == Slot(b, cap) && a < b + cap && b < a + cap
    ensures a == b
    decreases a + b
  {
    if a < cap && b < cap {
    } else if a >= cap && b >= cap {
      SameSlotSameTicket(a - cap, b - cap, cap);
    }
  }

  /** Neighbouring tickets use different slots: the reason why a ring needs two slots. */
  lemma NeighboursDiffer(k: nat, cap: nat)
    requires 2 <= cap
    ensures Slot(k + 1, cap) != Slot(k, cap)
  {
    if Slot(k + 1, cap) == Slot(k, cap) {
      SameSlotSameTicket(k, k + 1, cap);
    }
  }
}
