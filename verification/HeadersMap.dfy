/**
 The headers map: names in the field table are kept by field, all others by their spelling, compared
 without regard to case. `fieldOf` stands for the table look-up and yields the canonical name.
 */
module HeadersMaps {
  import opened Options
  import opened CaseFold
  import opened SlotTables

  /** Lengths are stored in 16 bits. */
  const MAX_STORED: nat := 0x1_0000

  datatype Headers = Headers(known: map<string, Slot>, unknown: map<string, Slot>)

  datatype Op =
    | SetView(name: string, value: string)
    | SetBorrowed(name: string, value: string)
    | Remove(name: string)
    | Clear
    | Get(name: string)

  predicate Fits(op: Op) {
    match op
    case SetView(name, value) => |name| < MAX_STORED && |value| < MAX_STORED
    case SetBorrowed(name, value) => |name| < MAX_STORED && |value| < MAX_STORED
    case _ => true
  }

  /** The table look-up takes names that ci_equal takes as equal to the same field. */
  ghost predicate Respects(fieldOf: string -> Option<string>) {
    forall a, b :: CiEqual(a, b, true) ==> fieldOf(a) == fieldOf(b)
  }

  ghost predicate WellFormed(h: Headers) {
    && (forall k :: k in h.known ==> h.known[k].Entry? && h.known[k].name == k)
    && (forall k :: k in h.unknown ==> h.unknown[k].Entry? && Key(h.unknown[k].name, true) == k)
  }

  function Lookup(fieldOf: string -> Option<string>, h: Headers, name: string): Option<string>
    requires WellFormed(h)
  {
    match fieldOf(name)
    case Some(f) => if f in h.known then Some(h.known[f].value) else None
    case None => if Key(name, true) in h.unknown then Some(h.unknown[Key(name, true)].value) else None
  }

  /** `keepName`: an entry that exists keeps the spelling it was first set with. */
  function SetUnknown(h: Headers, name: string, value: string, keepName: bool): Headers
    requires forall k :: k in h.unknown ==> h.unknown[k].Entry?
  {
    var k := Key(name, true);
    h.(unknown := h.unknown[k := Entry(if keepName && k in h.unknown then h.unknown[k].name else name, value)])
  }

  /** The map that the code refines. */
  function Apply(fieldOf: string -> Option<string>, h: Headers, op: Op): (r: Headers)
    requires WellFormed(h)
    ensures WellFormed(r)
  {
    match op
    case SetView(name, value) =>
      (match fieldOf(name)
       case Some(f) => h.(known := h.known[f := Entry(f, value)])
       case None => SetUnknown(h, name, value, true))
    case SetBorrowed(name, value) =>
      (match fieldOf(name)
       case Some(f) => h.(known := h.known[f := Entry(f, value)])
       case None => SetUnknown(h, name, value, false))
    case Remove(name) =>
      (match fieldOf(name)
       case Some(f) => h.(known := h.known - {f})
       case None => h.(unknown := h.unknown - {Key(name, true)}))
    case Clear => Headers(map[], map[])
    case Get(_) => h
  }

  function Run(fieldOf: string -> Option<string>, h: Headers, ops: seq<Op>): (r: Headers)
    requires WellFormed(h)
    ensures WellFormed(r)
  {
    if ops == [] then h else Apply(fieldOf, Run(fieldOf, h, ops[..|ops| - 1]), ops[|ops| - 1])
  }

  lemma RunNothing(fieldOf: string -> Option<string>, h: Headers)
    requires WellFormed(h)
    ensures Run(fieldOf, h, []) == h && Answers(fieldOf, h, []) == []
  {
  }

  lemma RunMore(fieldOf: string -> Option<string>, h: Headers, ops: seq<Op>, i: nat)
    requires WellFormed(h) && i < |ops|
    ensures var before := Run(fieldOf, h, ops[..i]);
            && Run(fieldOf, h, ops[..i + 1]) == Apply(fieldOf, before, ops[i])
            && Answers(fieldOf, h, ops[..i + 1]) == Answers(fieldOf, h, ops[..i])
               + if ops[i].Get? then [Lookup(fieldOf, before, ops[i].name)] else []
  {
    hide Apply, Lookup;
    assert ops[..i + 1][..i] == ops[..i];
  }

  function Answers(fieldOf: string -> Option<string>, h: Headers, ops: seq<Op>): seq<Option<string>>
    requires WellFormed(h)
  {
    if ops == [] then []
    else
      var before, last := Run(fieldOf, h, ops[..|ops| - 1]), ops[|ops| - 1];
      Answers(fieldOf, h, ops[..|ops| - 1]) + if last.Get? then [Lookup(fieldOf, before, last.name)] else []
  }

  /** Two spellings of a name are one key, and setting it leaves all other keys alone. */
  lemma {:induction false} LookupAfterSet(fieldOf: string -> Option<string>, h: Headers, op: Op, name: string)
    requires WellFormed(h) && Respects(fieldOf) && (op.SetView? || op.SetBorrowed?)
    ensures Lookup(fieldOf, Apply(fieldOf, h, op), name) ==
            if CiEqual(name, op.name, true) || (fieldOf(name).Some? && fieldOf(name) == fieldOf(op.name))
            then Some(op.value)
            else Lookup(fieldOf, h, name)
  {
  }

  lemma {:induction false} LookupAfterRemove(fieldOf: string -> Option<string>, h: Headers, removed: string,
                                             name: string)
    requires WellFormed(h) && Respects(fieldOf)
    ensures Lookup(fieldOf, Apply(fieldOf, h, Remove(removed)), name) ==
            if CiEqual(name, removed, true) || (fieldOf(name).Some? && fieldOf(name) == fieldOf(removed)) then None
            else Lookup(fieldOf, h, name)
  {
  }

  /** The operation speaks of the header of this name. */
  predicate Concerns(fieldOf: string -> Option<string>, op: Op, name: string) {
    (op.SetView? || op.SetBorrowed? || op.Remove?)
    && (CiEqual(name, op.name, true) || (fieldOf(name).Some? && fieldOf(name) == fieldOf(op.name)))
  }

  /** What a run leaves under a name, said of the run alone: the value of the last set of that name, if
      neither a remove of it nor a clear comes after it. */
  function LastWord(fieldOf: string -> Option<string>, ops: seq<Op>, name: string, initial: Option<string>)
    : Option<string>
  {
    if ops == [] then initial
    else
      var last := ops[|ops| - 1];
      if last.Clear? || (last.Remove? && Concerns(fieldOf, last, name)) then None
      else if Concerns(fieldOf, last, name) then Some(last.value)
      else LastWord(fieldOf, ops[..|ops| - 1], name, initial)
  }

  lemma LookupAfterOne(fieldOf: string -> Option<string>, h: Headers, op: Op, name: string)
    requires WellFormed(h) && Respects(fieldOf)
    ensures Lookup(fieldOf, Apply(fieldOf, h, op), name) ==
            if op.Clear? || (op.Remove? && Concerns(fieldOf, op, name)) then None
            else if Concerns(fieldOf, op, name) then Some(op.value)
            else Lookup(fieldOf, h, name)
  {
    match op
    case SetView(_, _) => LookupAfterSet(fieldOf, h, op, name);
    case SetBorrowed(_, _) => LookupAfterSet(fieldOf, h, op, name);
    case Remove(removed) => LookupAfterRemove(fieldOf, h, removed, name);
    case Clear =>
    case Get(_) =>
  }

  /** After any run a look-up gives the last word on the name. */
  lemma {:induction false} LookupIsLastWord(fieldOf: string -> Option<string>, h: Headers, ops: seq<Op>, name: string)
    requires WellFormed(h) && Respects(fieldOf)
    ensures Lookup(fieldOf, Run(fieldOf, h, ops), name) == LastWord(fieldOf, ops, name, Lookup(fieldOf, h, name))
  {
    hide Apply, Lookup, Respects, WellFormed, Concerns;
    if ops != [] {
      var before := ops[..|ops| - 1];
      LookupIsLastWord(fieldOf, h, before, name);
      LookupAfterOne(fieldOf, Run(fieldOf, h, before), ops[|ops| - 1], name);
    }
  }

  /** An unknown header set again keeps the spelling it was first set with, unless the view is borrowed;
      a header of the field table is listed under its canonical name. */
  lemma SpellingAfterSet(fieldOf: string -> Option<string>, h: Headers, op: Op)
    requires WellFormed(h) && (op.SetView? || op.SetBorrowed?)
    ensures var h', k := Apply(fieldOf, h, op), Key(op.name, true);
            match fieldOf(op.name)
            case Some(f) => f in h'.known && h'.known[f].name == f && h'.known[f].value == op.value
            case None =>
              && k in h'.unknown && h'.unknown[k].value == op.value
              && h'.unknown[k].name == if op.SetView? && k in h.unknown then h.unknown[k].name else op.name
  {
    hide Key;
  }

  class HeadersMap {
    const fieldOf: string -> Option<string>
    const known: SlotTable
    const unknown: SlotTable

    ghost function State(): Headers
      reads known, unknown
    {
      Headers(known.contents, unknown.contents)
    }

    ghost predicate Valid()
      reads known, unknown
    {
      && known != unknown
      && known.Valid() && known.key == (name => name)
      && unknown.Valid() && unknown.key == (name => Key(name, true))
    }

    constructor (fieldOf: string -> Option<string>)
      ensures Valid() && State() == Headers(map[], map[]) && this.fieldOf == fieldOf && fresh(known) && fresh(unknown)
    {
      this.fieldOf := fieldOf;
      known := new SlotTable(name => name, 16, 16);
      unknown := new SlotTable(name => Key(name, true), 8, 8);
    }

    method Set(name: string, value: string, borrowed: bool)
      requires Valid() && |name| < MAX_STORED && |value| < MAX_STORED
      modifies known, unknown
      ensures Valid() && WellFormed(old(State()))
      ensures State() == Apply(fieldOf, old(State()),
                    if borrowed then SetBorrowed(name, value) else SetView(name, value))
    {
      hide Represents, Key;
      Formed();
      var f := fieldOf(name);
      if f.Some? {
        known.Set(f.value, value, false);
      } else {
        unknown.Set(name, value, !borrowed);
      }
    }

    method Find(name: string) returns (r: Option<string>)
      requires Valid()
      ensures WellFormed(State()) && r == Lookup(fieldOf, State(), name)
    {
      hide Represents, Key;
      Formed();
      var f := fieldOf(name);
      if f.Some? {
        r := known.Get(f.value);
      } else {
        r := unknown.Get(name);
      }
    }

    method Erase(name: string)
      requires Valid()
      modifies known, unknown
      ensures Valid() && WellFormed(old(State())) && State() == Apply(fieldOf, old(State()), Remove(name))
    {
      hide Represents, Key;
      Formed();
      var f := fieldOf(name);
      if f.Some? {
        known.Remove(f.value);
      } else {
        unknown.Remove(name);
      }
    }

    method Reset()
      requires Valid()
      modifies known, unknown
      ensures Valid() && State() == Headers(map[], map[])
    {
      hide Represents, Key;
      Formed();
      known.Clear();
      unknown.Clear();
    }

    function Size(): nat
      reads known, unknown
    {
      known.size + unknown.size
    }

    lemma SizeCounts()
      requires Valid()
      ensures Size() == |State().known| + |State().unknown|
    {
    }

    /** All entries: first those in the field table, then the others; each exactly once. */
    method Entries() returns (first: seq<Slot>, second: seq<Slot>)
      requires Valid()
      ensures |first| + |second| == Size()
      ensures forall i :: 0 <= i < |first| ==>
                first[i].Entry? && first[i].name in State().known && State().known[first[i].name] == first[i]
      ensures forall i, j :: 0 <= i < j < |first| ==> first[i].name != first[j].name
      ensures forall i :: 0 <= i < |second| ==>
                second[i].Entry? && Key(second[i].name, true) in State().unknown
                && State().unknown[Key(second[i].name, true)] == second[i]
      ensures forall i, j :: 0 <= i < j < |second| ==> Key(second[i].name, true) != Key(second[j].name, true)
    {
      first := known.Iterate();
      second := unknown.Iterate();
    }

    /** Any run of operations behaves as on a finite map. */
    method Perform(ops: seq<Op>) returns (answers: seq<Option<string>>)
      requires Valid() && forall i :: 0 <= i < |ops| ==> Fits(ops[i])
      modifies known, unknown
      ensures Valid() && WellFormed(old(State()))
      ensures State() == Run(fieldOf, old(State()), ops)
      ensures answers == Answers(fieldOf, old(State()), ops)
    {
      hide Represents, Run, Answers;
      answers := [];
      ghost var start := State();
      Formed();
      RunNothing(fieldOf, start);
      for i := 0 to |ops|
        invariant Valid() && State() == Run(fieldOf, start, ops[..i]) && answers == Answers(fieldOf, start, ops[..i])
      {
        RunMore(fieldOf, start, ops, i);
        match ops[i]
        case SetView(name, value) => Set(name, value, false);
        case SetBorrowed(name, value) => Set(name, value, true);
        case Remove(name) => Erase(name);
        case Clear => Reset();
        case Get(name) =>
          var r := Find(name);
          answers := answers + [r];
      }
      assert ops[..|ops|] == ops;
    }

    lemma Formed()
      requires Valid()
      ensures WellFormed(State())
    {
    }
  }
}
