/**
 A table of header entries: inline slots first, then chunks of slots, the newest chunk in front.
 Removing an entry leaves a hole, and holes are filled before a chunk is added. The class stands for
 either half of the headers map; the two are the same code for different entry types.
 */
module SlotTables {
  import opened Options

  datatype Slot = Hole | Entry(name: string, value: string)

  type Place = (nat, nat)

  predicate IsPlace(rows: seq<seq<Slot>>, p: Place) {
    p.0 < |rows| && p.1 < |rows[p.0]|
  }

  function SlotAt(rows: seq<seq<Slot>>, p: Place): Slot
    requires IsPlace(rows, p)
  {
    rows[p.0][p.1]
  }

  /** Places in iteration order. */
  predicate Before(p: Place, q: Place) {
    p.0 < q.0 || (p.0 == q.0 && p.1 < q.1)
  }

  /** Each key of the map has one slot and each entry's slot is that of its key. */
  ghost predicate Represents(rows: seq<seq<Slot>>, key: string -> string, contents: map<string, Slot>,
                             place: map<string, Place>)
  {
    && place.Keys == contents.Keys
    && (forall k :: k in contents ==> contents[k].Entry? && key(contents[k].name) == k)
    && (forall k :: k in place ==> IsPlace(rows, place[k]) && SlotAt(rows, place[k]) == contents[k])
    && (forall p {:trigger SlotAt(rows, p)} ::
          IsPlace(rows, p) && SlotAt(rows, p).Entry? ==>
          key(SlotAt(rows, p).name) in place && place[key(SlotAt(rows, p).name)] == p)
  }

  /** No hole comes before p. */
  ghost predicate FullBefore(rows: seq<seq<Slot>>, p: Place) {
    forall q :: IsPlace(rows, q) && Before(q, p) ==> SlotAt(rows, q).Entry?
  }

  function Put(rows: seq<seq<Slot>>, p: Place, s: Slot): seq<seq<Slot>>
    requires IsPlace(rows, p)
  {
    rows[p.0 := rows[p.0][p.1 := s]]
  }

  lemma {:induction false} PutAt(rows: seq<seq<Slot>>, p: Place, s: Slot, q: Place)
    requires IsPlace(rows, p)
    ensures IsPlace(Put(rows, p, s), q) <==> IsPlace(rows, q)
    ensures IsPlace(rows, q) ==> SlotAt(Put(rows, p, s), q) == if q == p then s else SlotAt(rows, q)
  {
  }

  lemma StillFull(rows: seq<seq<Slot>>, p: Place, s: Slot)
    requires IsPlace(rows, p) && FullBefore(rows, p)
    ensures FullBefore(Put(rows, p, s), p)
  {
    hide IsPlace, SlotAt, Put;
    forall q
      ensures IsPlace(Put(rows, p, s), q) <==> IsPlace(rows, q)
      ensures IsPlace(rows, q) ==> SlotAt(Put(rows, p, s), q) == if q == p then s else SlotAt(rows, q)
    {
      PutAt(rows, p, s, q);
    }
  }

  /** An entry put in the slot of its key, or in a hole if the key is new. */
  lemma {:induction false} PutEntry(rows: seq<seq<Slot>>, key: string -> string, contents: map<string, Slot>,
                                    place: map<string, Place>, p: Place, s: Slot)
    requires Represents(rows, key, contents, place) && IsPlace(rows, p) && s.Entry?
    requires if key(s.name) in place then place[key(s.name)] == p else SlotAt(rows, p).Hole?
    ensures Represents(Put(rows, p, s), key, contents[key(s.name) := s], place[key(s.name) := p])
  {
    forall q
      ensures IsPlace(Put(rows, p, s), q) <==> IsPlace(rows, q)
      ensures IsPlace(rows, q) ==> SlotAt(Put(rows, p, s), q) == if q == p then s else SlotAt(rows, q)
    {
      PutAt(rows, p, s, q);
    }
  }

  lemma {:induction false} PutHole(rows: seq<seq<Slot>>, key: string -> string, contents: map<string, Slot>,
                                   place: map<string, Place>, k: string)
    requires Represents(rows, key, contents, place) && k in place
    ensures Represents(Put(rows, place[k], Hole), key, contents - {k}, place - {k})
  {
    forall q
      ensures IsPlace(Put(rows, place[k], Hole), q) <==> IsPlace(rows, q)
      ensures IsPlace(rows, q) ==>
                SlotAt(Put(rows, place[k], Hole), q) == if q == place[k] then Hole else SlotAt(rows, q)
    {
      PutAt(rows, place[k], Hole, q);
    }
  }

  function Shift(p: Place): Place {
    if p.0 == 0 then p else (p.0 + 1, p.1)
  }

  function Holes(n: nat): (s: seq<Slot>)
    ensures |s| == n && forall i :: 0 <= i < n ==> s[i] == Hole
  {
    seq(n, i => Hole)
  }

  predicate NoHole(row: seq<Slot>) {
    forall i :: 0 <= i < |row| ==> row[i].Entry?
  }

  predicate AllHoles(row: seq<Slot>) {
    forall i :: 0 <= i < |row| ==> row[i].Hole?
  }

  lemma NothingLeft(rows: seq<seq<Slot>>, key: string -> string)
    requires forall r :: 0 <= r < |rows| ==> AllHoles(rows[r])
    ensures Represents(rows, key, map[], map[])
  {
  }

  function Unshift(q: Place): Place {
    if q.0 <= 1 then q else (q.0 - 1, q.1)
  }

  lemma {:induction false} NewHole(inline: seq<Slot>, chunks: seq<seq<Slot>>, n: nat)
    requires n >= 1
    ensures IsPlace([inline] + ([Holes(n)] + chunks), (1, 0)) && SlotAt([inline] + ([Holes(n)] + chunks), (1, 0)).Hole?
    ensures NoHole(inline) ==> FullBefore([inline] + ([Holes(n)] + chunks), (1, 0))
  {
  }

  lemma {:induction false} ShiftAt(inline: seq<Slot>, chunks: seq<seq<Slot>>, n: nat, p: Place)
    requires IsPlace([inline] + chunks, p)
    ensures IsPlace([inline] + ([Holes(n)] + chunks), Shift(p))
    ensures SlotAt([inline] + ([Holes(n)] + chunks), Shift(p)) == SlotAt([inline] + chunks, p)
  {
  }

  lemma {:induction false} UnshiftAt(inline: seq<Slot>, chunks: seq<seq<Slot>>, n: nat, q: Place)
    requires IsPlace([inline] + ([Holes(n)] + chunks), q) && SlotAt([inline] + ([Holes(n)] + chunks), q).Entry?
    ensures IsPlace([inline] + chunks, Unshift(q)) && Shift(Unshift(q)) == q
    ensures SlotAt([inline] + chunks, Unshift(q)) == SlotAt([inline] + ([Holes(n)] + chunks), q)
  {
  }

  /** A chunk of holes comes before the other chunks: nothing is lost. */
  lemma {:induction false} AddChunk(inline: seq<Slot>, chunks: seq<seq<Slot>>, key: string -> string,
                                    contents: map<string, Slot>,
                                    place: map<string, Place>, n: nat)
    requires Represents([inline] + chunks, key, contents, place)
    ensures Represents([inline] + ([Holes(n)] + chunks), key, contents, map k | k in place :: Shift(place[k]))
  {
    hide IsPlace, SlotAt, Shift, Unshift;
    var rows, more := [inline] + chunks, [inline] + ([Holes(n)] + chunks);
    var moved := map k | k in place :: Shift(place[k]);
    assert moved.Keys == place.Keys;
    forall k | k in moved
      ensures IsPlace(more, moved[k]) && SlotAt(more, moved[k]) == contents[k]
    {
      ShiftAt(inline, chunks, n, place[k]);
    }
    forall q | IsPlace(more, q) && SlotAt(more, q).Entry?
      ensures key(SlotAt(more, q).name) in moved && moved[key(SlotAt(more, q).name)] == q
    {
      UnshiftAt(inline, chunks, n, q);
      assert SlotAt(rows, Unshift(q)).Entry?;
    }
  }

  ghost predicate ListedBefore(key: string -> string, contents: map<string, Slot>, place: map<string, Place>,
                               entries: seq<Slot>, visited: set<string>, p: Place)
    requires place.Keys == contents.Keys
  {
    && |entries| == |visited|
    && (forall k :: k in visited <==> k in contents && Before(place[k], p))
    && (forall i :: 0 <= i < |entries| ==> entries[i].Entry? && key(entries[i].name) in visited
                                           && entries[i] == contents[key(entries[i].name)])
    && (forall i, j :: 0 <= i < j < |entries| ==> Before(place[key(entries[i].name)], place[key(entries[j].name)]))
  }

  /** One more entry is listed: the one at p. */
  lemma ListOne(key: string -> string, contents: map<string, Slot>, place: map<string, Place>,
                entries: seq<Slot>, visited: set<string>, p: Place, next: Place, s: Slot)
    requires place.Keys == contents.Keys && ListedBefore(key, contents, place, entries, visited, p)
    requires s.Entry? && key(s.name) in contents && contents[key(s.name)] == s && place[key(s.name)] == p
    requires forall k :: k in contents ==> (Before(place[k], next) <==> Before(place[k], p) || k == key(s.name))
    ensures ListedBefore(key, contents, place, entries + [s], visited + {key(s.name)}, next)
  {
  }

  class SlotTable {
    const key: string -> string
    const chunkSize: nat
    var inline: seq<Slot>
    var chunks: seq<seq<Slot>>
    var size: nat
    ghost var contents: map<string, Slot>
    ghost var place: map<string, Place>

    ghost function Rows(): seq<seq<Slot>>
      reads `inline, `chunks
    {
      [inline] + chunks
    }

    ghost predicate Valid()
      reads this
    {
      Represents(Rows(), key, contents, place) && size == |contents| && chunkSize >= 1
    }

    constructor (key: string -> string, inlineSize: nat, chunkSize: nat)
      requires chunkSize >= 1
      ensures Valid() && contents == map[] && this.key == key && this.chunkSize == chunkSize
    {
      this.key, this.chunkSize := key, chunkSize;
      inline, chunks, size := Holes(inlineSize), [], 0;
      contents, place := map[], map[];
    }

    method FindInRow(row: seq<Slot>, k: string) returns (i: Option<nat>)
      ensures i.Some? ==> i.value < |row| && row[i.value].Entry? && key(row[i.value].name) == k
      ensures i.None? ==> forall j :: 0 <= j < |row| && row[j].Entry? ==> key(row[j].name) != k
    {
      for j := 0 to |row|
        invariant forall l :: 0 <= l < j && row[l].Entry? ==> key(row[l].name) != k
      {
        if row[j].Entry? && key(row[j].name) == k {
          return Some(j);
        }
      }
      i := None;
    }

    method HoleInRow(row: seq<Slot>) returns (i: Option<nat>)
      ensures i.Some? ==> i.value < |row| && row[i.value].Hole? && NoHole(row[..i.value])
      ensures i.None? ==> NoHole(row)
    {
      for j := 0 to |row|
        invariant forall l :: 0 <= l < j ==> row[l].Entry?
      {
        if row[j].Hole? {
          return Some(j);
        }
      }
      i := None;
    }

    lemma {:induction false} FoundAt(k: string, p: Place)
      requires Valid() && IsPlace(Rows(), p) && SlotAt(Rows(), p).Entry? && key(SlotAt(Rows(), p).name) == k
      ensures k in contents && k in place && place[k] == p
    {
    }

    lemma SameKeys()
      requires Valid()
      ensures place.Keys == contents.Keys
    {
    }

    lemma EntryOf(k: string)
      requires Valid() && k in contents
      ensures contents[k].Entry? && key(contents[k].name) == k
      ensures k in place && IsPlace(Rows(), place[k]) && SlotAt(Rows(), place[k]) == contents[k]
    {
    }

    function At(p: Place): (s: Slot)
      requires IsPlace(Rows(), p)
      reads `inline, `chunks
      ensures s == SlotAt(Rows(), p)
    {
      if p.0 == 0 then inline[p.1] else chunks[p.0 - 1][p.1]
    }

    lemma {:induction false} NotInRow(k: string, r: nat)
      requires Valid() && r < |Rows()| &&
               forall j :: 0 <= j < |Rows()[r]| && Rows()[r][j].Entry? ==> key(Rows()[r][j].name) != k
      ensures k in contents <==> k in place
      ensures k in place ==> place[k].0 != r && place[k].0 < |Rows()|
    {
      if k in place {
        assert SlotAt(Rows(), place[k]) == contents[k];
      }
    }

    /** The inline slots are searched first, then the chunks. */
    method FindEntry(k: string) returns (p: Option<Place>)
      requires Valid()
      ensures p.Some? <==> k in contents
      ensures p.Some? ==> k in place && p.value == place[k]
    {
      hide Represents;
      var i := FindInRow(inline, k);
      if i.Some? {
        FoundAt(k, (0, i.value));
        return Some((0, i.value));
      }
      NotInRow(k, 0);
      for c := 0 to |chunks|
        invariant k in place ==> place[k].0 > c
      {
        i := FindInRow(chunks[c], k);
        if i.Some? {
          FoundAt(k, (c + 1, i.value));
          return Some((c + 1, i.value));
        }
        NotInRow(k, c + 1);
      }
      p := None;
    }

    /** The first hole, in iteration order. */
    method FindHole() returns (p: Option<Place>)
      ensures p.Some? ==>
                IsPlace(Rows(), p.value) && SlotAt(Rows(), p.value).Hole? && FullBefore(Rows(), p.value)
      ensures p.None? ==> NoHole(inline) && forall c :: 0 <= c < |chunks| ==> NoHole(chunks[c])
    {
      var i := HoleInRow(inline);
      if i.Some? {
        return Some((0, i.value));
      }
      for c := 0 to |chunks|
        invariant forall r :: 0 <= r < c ==> NoHole(chunks[r])
      {
        i := HoleInRow(chunks[c]);
        if i.Some? {
          return Some((c + 1, i.value));
        }
      }
      p := None;
    }

    /** A hole to fill; a chunk is added only when there is no hole. */
    method AppendEntry() returns (p: Place)
      requires Valid()
      modifies `chunks, `place
      ensures Valid() && IsPlace(Rows(), p) && SlotAt(Rows(), p).Hole? && FullBefore(Rows(), p)
      ensures chunks == old(chunks)
              || (chunks == [Holes(chunkSize)] + old(chunks) && NoHole(inline)
                  && forall c :: 0 <= c < |old(chunks)| ==> NoHole(old(chunks)[c]))
    {
      hide Represents, IsPlace, SlotAt;
      var hole := FindHole();
      if hole.Some? {
        return hole.value;
      }
      AddChunk(inline, chunks, key, contents, place, chunkSize);
      chunks := [Holes(chunkSize)] + chunks;
      place := map k | k in place :: Shift(place[k]);
      p := (1, 0);
      NewHole(inline, old(chunks), chunkSize);
    }

    /** Writes one slot. */
    method Write(p: Place, s: Slot)
      requires IsPlace(Rows(), p)
      modifies `inline, `chunks
      ensures Rows() == Put(old(Rows()), p, s)
    {
      if p.0 == 0 {
        inline := inline[p.1 := s];
      } else {
        chunks := chunks[p.0 - 1 := chunks[p.0 - 1][p.1 := s]];
      }
    }

    /** Sets the value of a key. With `keepName` an entry that exists keeps the spelling of its name. */
    method Set(name: string, value: string, keepName: bool)
      requires Valid()
      modifies this
      ensures Valid()
      ensures var k := key(name);
              contents ==
              old(contents)[k := Entry(if keepName && k in old(contents) then old(contents)[k].name else name, value)]
      // A new key takes the first hole, so the order of iteration is that of the slots.
      ensures key(name) !in old(contents) ==> key(name) in place && FullBefore(Rows(), place[key(name)])
    {
      hide Represents, Put, SlotAt, IsPlace, FullBefore;
      var k := key(name);
      var p := FindEntry(k);
      var s := Entry(name, value);
      var q: Place;
      if p.Some? {
        EntryOf(k);
        q := p.value;
        if keepName {
          s := Entry(At(q).name, value);
        }
      } else {
        q := AppendEntry();
        SameKeys();
        size := size + 1;
      }
      PutEntry(Rows(), key, contents, place, q, s);
      if p.None? {
        StillFull(Rows(), q, s);
      }
      Write(q, s);
      contents, place := contents[k := s], place[k := q];
    }

    method Get(name: string) returns (r: Option<string>)
      requires Valid()
      ensures r == if key(name) in contents then Some(contents[key(name)].value) else None
    {
      var p := FindEntry(key(name));
      if p.None? {
        return None;
      }
      EntryOf(key(name));
      r := Some(At(p.value).value);
    }

    method Remove(name: string)
      requires Valid()
      modifies this
      ensures Valid() && contents == old(contents) - {key(name)}
    {
      hide Represents, Put, SlotAt, IsPlace;
      var p := FindEntry(key(name));
      if p.Some? {
        EntryOf(key(name));
        PutHole(Rows(), key, contents, place, key(name));
        Write(p.value, Hole);
        contents, place := contents - {key(name)}, place - {key(name)};
        size := size - 1;
      }
    }

    /** All slots become holes; the chunks stay. */
    method Clear()
      requires Valid()
      modifies this
      ensures Valid() && contents == map[] && |chunks| == |old(chunks)|
    {
      hide Represents;
      inline := Holes(|inline|);
      var c := 0;
      while c < |chunks|
        invariant 0 <= c <= |chunks| == |old(chunks)| && AllHoles(inline)
        invariant forall r :: 0 <= r < c ==> AllHoles(chunks[r])
      {
        chunks := chunks[c := Holes(|chunks[c]|)];
        c := c + 1;
      }
      size := 0;
      contents, place := map[], map[];
      NothingLeft(Rows(), key);
    }

    /** `entries` are those before the place p. */
    ghost predicate Listed(entries: seq<Slot>, visited: set<string>, p: Place)
      requires Valid()
      reads this
    {
      ListedBefore(key, contents, place, entries, visited, p)
    }

    /** A key comes before the next place if it comes before this one or is the key of this slot. */
    lemma NextPlace(p: Place, k: string)
      requires Valid() && IsPlace(Rows(), p) && k in contents
      ensures var s := SlotAt(Rows(), p);
              Before(place[k], (p.0, p.1 + 1)) <==> Before(place[k], p) || (s.Entry? && k == key(s.name))
    {
      assert SlotAt(Rows(), place[k]) == contents[k];
    }

    lemma {:induction false} ListSlot(entries: seq<Slot>, visited: set<string>, p: Place)
      requires Valid() && Listed(entries, visited, p) && IsPlace(Rows(), p)
      ensures var s := SlotAt(Rows(), p);
              if s.Entry? then Listed(entries + [s], visited + {key(s.name)}, (p.0, p.1 + 1))
              else Listed(entries, visited, (p.0, p.1 + 1))
    {
      var s, next := SlotAt(Rows(), p), (p.0, p.1 + 1);
      forall k | k in contents
        ensures Before(place[k], next) <==> Before(place[k], p) || (s.Entry? && k == key(s.name))
      {
        NextPlace(p, k);
      }
      if s.Entry? {
        FoundAt(key(s.name), p);
        assert contents[key(s.name)] == s;
        hide Represents, SlotAt, Before;
        ListOne(key, contents, place, entries, visited, p, next, s);
      }
    }

    lemma {:induction false} ListRow(entries: seq<Slot>, visited: set<string>, r: nat)
      requires Valid() && r < |Rows()| && Listed(entries, visited, (r, |Rows()[r]|))
      ensures Listed(entries, visited, (r + 1, 0))
    {
      forall k | k in contents
        ensures Before(place[k], (r, |Rows()[r]|)) <==> Before(place[k], (r + 1, 0))
      {
        assert IsPlace(Rows(), place[k]);
      }
    }

    /** Every entry of the map once, in the order of their slots. */
    ghost predicate IsListing(entries: seq<Slot>)
      requires Valid()
      reads this
    {
      && |entries| == size
      && (forall i :: 0 <= i < |entries| ==> entries[i].Entry? && key(entries[i].name) in contents
                                             && entries[i] == contents[key(entries[i].name)])
      && (forall i, j :: 0 <= i < j < |entries| ==> Before(place[key(entries[i].name)], place[key(entries[j].name)]))
    }

    lemma {:induction false} ListStart()
      requires Valid()
      ensures Listed([], {}, (0, 0))
    {
    }

    /** Past the last row all entries are listed. */
    lemma {:induction false} ListEnd(entries: seq<Slot>, visited: set<string>)
      requires Valid() && Listed(entries, visited, (|Rows()|, 0))
      ensures IsListing(entries)
    {
      forall k | k in contents
        ensures k in visited
      {
        assert IsPlace(Rows(), place[k]);
      }
      assert visited == contents.Keys;
    }

    /** The entries in iteration order: every entry once and nothing else. */
    method Iterate() returns (entries: seq<Slot>)
      requires Valid()
      ensures IsListing(entries)
    {
      hide Represents, Listed, IsListing;
      ghost var visited: set<string> := {};
      entries := [];
      ListStart();
      for r := 0 to 1 + |chunks|
        invariant Listed(entries, visited, (r, 0))
      {
        var row := if r == 0 then inline else chunks[r - 1];
        assert row == Rows()[r];
        for i := 0 to |row|
          invariant Listed(entries, visited, (r, i))
        {
          ListSlot(entries, visited, (r, i));
          assert SlotAt(Rows(), (r, i)) == row[i];
          if row[i].Entry? {
            entries, visited := entries + [row[i]], visited + {key(row[i].name)};
          }
        }
        ListRow(entries, visited, r);
      }
      ListEnd(entries, visited);
    }
  }
}
