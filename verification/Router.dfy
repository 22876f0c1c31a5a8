/** Route patterns, paths and dispatch. */
module Routers {
  import opened Options
  import opened Http

  const MAX_ROUTE_SEGMENTS: nat := 16
  const MAX_PATH_PARAMS: nat := 16

  datatype Segment = Literal(text: string) | Param(name: string)

  /** A segment of a path: not empty and without a slash. */
  predicate IsPart(s: string) {
    s != "" && '/' !in s
  }

  function SkipSlashes(path: string, i: nat): (j: nat)
    requires i <= |path|
    ensures i <= j <= |path| && (j < |path| ==> path[j] != '/')
    ensures forall k :: i <= k < j ==> path[k] == '/'
    decreases |path| - i
  {
    if i < |path| && path[i] == '/' then SkipSlashes(path, i + 1) else i
  }

  function PartEnd(path: string, i: nat): (j: nat)
    requires i <= |path|
    ensures i <= j <= |path| && (j < |path| ==> path[j] == '/')
    ensures forall k :: i <= k < j ==> path[k] != '/'
    decreases |path| - i
  {
    if i < |path| && path[i] != '/' then PartEnd(path, i + 1) else i
  }

  /** The non-empty pieces between slashes. */
  function Parts(path: string, i: nat): (r: seq<string>)
    requires i <= |path|
    ensures forall k :: 0 <= k < |r| ==> IsPart(r[k])
    decreases |path| - i
  {
    var start := SkipSlashes(path, i);
    if start == |path| then []
    else
      var end := PartEnd(path, start);
      [path[start..end]] + Parts(path, end)
  }

  lemma {:induction false} NoParts(path: string)
    ensures Parts(path, |path|) == []
  {
  }

  lemma {:induction false} PartsEnd(path: string, i: nat)
    requires i <= |path| && SkipSlashes(path, i) == |path|
    ensures Parts(path, i) == []
  {
  }

  lemma {:induction false} PartsStep(path: string, i: nat, start: nat, end: nat)
    requires i <= |path| && start == SkipSlashes(path, i) < |path| && end == PartEnd(path, start)
    ensures Parts(path, i) == [path[start..end]] + Parts(path, end)
  {
  }

  lemma SkipTurn(path: string, i: nat)
    requires i <= |path|
    ensures SkipSlashes(path, i) == if i < |path| && path[i] == '/' then SkipSlashes(path, i + 1) else i
  {
  }

  lemma PartTurn(path: string, i: nat)
    requires i <= |path|
    ensures PartEnd(path, i) == if i < |path| && path[i] != '/' then PartEnd(path, i + 1) else i
  {
  }

  lemma OneMore(parts: seq<string>, piece: string, rest: seq<string>)
    ensures parts + ([piece] + rest) == parts + [piece] + rest && |parts + ([piece] + rest)| > |parts|
  {
  }

  /** At most 16 pieces; one more is an overflow. */
  method SplitPath(path: string) returns (parts: seq<string>, overflow: bool)
    ensures overflow <==> |Parts(path, 0)| > MAX_ROUTE_SEGMENTS
    ensures !overflow ==> parts == Parts(path, 0)
  {
    hide Parts, IsPart, SkipSlashes, PartEnd;
    parts, overflow := [], false;
    var i := 0;
    assert [] + Parts(path, 0) == Parts(path, 0);
    NoParts(path);
    while i < |path|
      invariant i <= |path| && |parts| <= MAX_ROUTE_SEGMENTS
      invariant Parts(path, 0) == parts + Parts(path, i)
    {
      ghost var from := i;
      while i < |path| && path[i] == '/'
        invariant from <= i <= |path|
        invariant SkipSlashes(path, i) == SkipSlashes(path, from)
      {
        SkipTurn(path, i);
        i := i + 1;
      }
      SkipTurn(path, i);
      if i >= |path| {
        PartsEnd(path, from);
        return;
      }
      var start := i;
      while i < |path| && path[i] != '/'
        invariant start <= i <= |path|
        invariant PartEnd(path, i) == PartEnd(path, start)
      {
        PartTurn(path, i);
        i := i + 1;
      }
      PartTurn(path, i);
      PartsStep(path, from, start, i);
      OneMore(parts, path[start..i], Parts(path, i));
      if |parts| >= MAX_ROUTE_SEGMENTS {
        overflow := true;
        return;
      }
      parts := parts + [path[start..i]];
    }
  }

  function Joined(parts: seq<string>): string {
    if parts == [] then "" else "/" + parts[0] + Joined(parts[1..])
  }

  lemma {:induction false} EndOfPart(path: string, i: nat, j: nat)
    requires i <= j <= |path| && (j < |path| ==> path[j] == '/') && forall k :: i <= k < j ==> path[k] != '/'
    ensures PartEnd(path, i) == j
    decreases j - i
  {
    if i < j {
      EndOfPart(path, i + 1, j);
    }
  }

  lemma NothingJoined()
    ensures Joined([]) == ""
  {
  }

  lemma {:induction false} JoinedStep(parts: seq<string>)
    requires parts != []
    ensures Joined(parts) == "/" + parts[0] + Joined(parts[1..])
  {
  }

  lemma {:induction false} JoinedBegins(parts: seq<string>)
    ensures Joined(parts) != "" ==> Joined(parts)[0] == '/'
  {
    if parts != [] {
      assert ("/" + parts[0] + Joined(parts[1..]))[0] == '/';
    }
  }

  lemma ConcatSlices(a: string, b: string, c: string)
    ensures (a + b + c)[|a|..|a| + |b|] == b && (a + b + c)[|a| + |b|..] == c
  {
  }

  lemma SliceOfSuffix(path: string, i: nat, from: nat, to: nat)
    requires i <= |path| && from <= to <= |path| - i
    ensures path[i..][from..to] == path[i + from..i + to] && path[i..][from..] == path[i + from..]
  {
  }

  /** A slash, a part, and the end or another slash. */
  lemma {:induction false} OnePart(path: string, i: nat, part: string, rest: string)
    requires i <= |path| && path[i..] == "/" + part + rest && IsPart(part) && (rest != "" ==> rest[0] == '/')
    ensures var start, end := i + 1, i + 1 + |part|;
            && i < start < end <= |path| && path[start..end] == part && path[end..] == rest
            && SkipSlashes(path, i) == start && PartEnd(path, start) == end
  {
    hide PartEnd;
    var start, end := i + 1, i + 1 + |part|;
    ConcatSlices("/", part, rest);
    SliceOfSuffix(path, i, 1, 1 + |part|);
    assert path[start..end] == part && path[end..] == rest;
    assert path[i] == path[i..][0] == '/';
    assert PartEnd(path, start) == end by {
      forall k | start <= k < end
        ensures path[k] != '/'
      {
        assert path[k] == path[start..end][k - start];
      }
      assert end < |path| ==> path[end] == path[end..][0];
      EndOfPart(path, start, end);
    }
    assert path[start] == path[start..end][0];
    assert SkipSlashes(path, start) == start;
  }

  lemma {:induction false} SplitFrom(path: string, i: nat, parts: seq<string>)
    requires i <= |path| && path[i..] == Joined(parts) && forall k :: 0 <= k < |parts| ==> IsPart(parts[k])
    ensures Parts(path, i) == parts
    decreases |parts|
  {
    hide IsPart, SkipSlashes, PartEnd, Parts, Joined;
    if parts == [] {
      NothingJoined();
      NoParts(path);
    } else {
      var rest := Joined(parts[1..]);
      JoinedStep(parts);
      JoinedBegins(parts[1..]);
      OnePart(path, i, parts[0], rest);
      var end := i + 1 + |parts[0]|;
      SplitFrom(path, end, parts[1..]);
      PartsStep(path, i, i + 1, end);
      assert parts == [parts[0]] + parts[1..];
    }
  }

  /** Splitting undoes joining. */
  lemma {:induction false} SplitInvertsJoin(parts: seq<string>)
    requires forall k :: 0 <= k < |parts| ==> IsPart(parts[k])
    ensures Parts(Joined(parts), 0) == parts
  {
    assert Joined(parts)[0..] == Joined(parts);
    SplitFrom(Joined(parts), 0, parts);
  }

  lemma {:induction false} EndOfSlashes(path: string, i: nat, j: nat)
    requires i <= j <= |path| && (j < |path| ==> path[j] != '/') && forall k :: i <= k < j ==> path[k] == '/'
    ensures SkipSlashes(path, i) == j
    decreases j - i
  {
    if i < j {
      EndOfSlashes(path, i + 1, j);
    }
  }

  lemma SkipInSuffix(a: string, b: string, i: nat)
    requires i <= |b|
    ensures SkipSlashes(a + b, |a| + i) == |a| + SkipSlashes(b, i)
  {
    var start := SkipSlashes(b, i);
    hide SkipSlashes;
    EndOfSlashes(a + b, |a| + i, |a| + start);
  }

  lemma PartInSuffix(a: string, b: string, i: nat)
    requires i <= |b|
    ensures PartEnd(a + b, |a| + i) == |a| + PartEnd(b, i)
    ensures (a + b)[|a| + i..|a| + PartEnd(b, i)] == b[i..PartEnd(b, i)]
  {
    var end := PartEnd(b, i);
    hide PartEnd;
    EndOfPart(a + b, |a| + i, |a| + end);
  }

  lemma {:induction false} PartsOfSuffix(a: string, b: string, i: nat)
    requires i <= |b|
    ensures Parts(a + b, |a| + i) == Parts(b, i)
    decreases |b| - i
  {
    hide Parts, SkipSlashes, PartEnd, IsPart;
    var start := SkipSlashes(b, i);
    SkipInSuffix(a, b, i);
    if start < |b| {
      var end := PartEnd(b, start);
      PartInSuffix(a, b, start);
      PartsStep(b, i, start, end);
      PartsStep(a + b, |a| + i, |a| + start, |a| + end);
      PartsOfSuffix(a, b, end);
    } else {
      PartsEnd(b, i);
      PartsEnd(a + b, |a| + i);
    }
  }

  lemma PartBeforeSlash(a: string, b: string, i: nat)
    requires i <= |a| && SkipSlashes(a, i) < |a|
    ensures var path, start := a + "/" + b, SkipSlashes(a, i);
            var end := PartEnd(a, start);
            && SkipSlashes(path, i) == start && PartEnd(path, start) == end && path[start..end] == a[start..end]
  {
    var path, start := a + "/" + b, SkipSlashes(a, i);
    var end := PartEnd(a, start);
    hide SkipSlashes, PartEnd;
    EndOfSlashes(path, i, start);
    EndOfPart(path, start, end);
  }

  lemma NoPartBeforeSlash(a: string, b: string, i: nat)
    requires i <= |a| && SkipSlashes(a, i) == |a|
    ensures SkipSlashes(a + "/" + b, i) == SkipSlashes(a + "/" + b, |a| + 1) == |a| + 1 + SkipSlashes(b, 0)
  {
    var path, after := a + "/" + b, |a| + 1 + SkipSlashes(b, 0);
    hide SkipSlashes;
    EndOfSlashes(path, |a| + 1, after);
    EndOfSlashes(path, i, after);
  }

  lemma SameSkip(path: string, i: nat, j: nat)
    requires i <= |path| && j <= |path| && SkipSlashes(path, i) == SkipSlashes(path, j)
    ensures Parts(path, i) == Parts(path, j)
  {
  }

  lemma {:induction false} PartsBeforeSlash(a: string, b: string, i: nat)
    requires i <= |a|
    ensures Parts(a + "/" + b, i) == Parts(a, i) + Parts(b, 0)
    decreases |a| - i
  {
    hide Parts, SkipSlashes, PartEnd, IsPart;
    var path, start := a + "/" + b, SkipSlashes(a, i);
    if start < |a| {
      var end := PartEnd(a, start);
      PartBeforeSlash(a, b, i);
      PartsStep(path, i, start, end);
      PartsStep(a, i, start, end);
      PartsBeforeSlash(a, b, end);
      assert [path[start..end]] + (Parts(a, end) + Parts(b, 0)) == [a[start..end]] + Parts(a, end) + Parts(b, 0);
    } else {
      NoPartBeforeSlash(a, b, i);
      SameSkip(path, i, |a| + 1);
      PartsEnd(a, i);
      PartsOfSuffix(a + "/", b, 0);
    }
  }

  /** Splitting, said by its equations: nothing has no pieces, text without a slash is one piece, and at
      any slash the pieces of the two sides are joined. */
  lemma SplitEquations(a: string, b: string, s: string)
    ensures Parts("", 0) == []
    ensures IsPart(s) ==> Parts(s, 0) == [s]
    ensures Parts(a + "/" + b, 0) == Parts(a, 0) + Parts(b, 0)
  {
    NoParts("");
    PartsBeforeSlash(a, b, 0);
    if IsPart(s) {
      EndOfSlashes(s, 0, 0);
      EndOfPart(s, 0, |s|);
      NoParts(s);
      PartsStep(s, 0, 0, |s|);
      assert s[0..|s|] == s;
    }
  }

  type Pattern = seq<Segment>

  function Literals(p: Pattern): (n: nat)
    ensures n <= |p|
  {
    if p == [] then 0 else Literals(p[..|p| - 1]) + if p[|p| - 1].Literal? then 1 else 0
  }

  function Params(p: Pattern): (n: nat)
    ensures n + Literals(p) == |p|
  {
    if p == [] then 0 else Params(p[..|p| - 1]) + if p[|p| - 1].Param? then 1 else 0
  }

  /** What a pattern that compiles looks like. */
  predicate IsPattern(p: Pattern) {
    |p| <= MAX_ROUTE_SEGMENTS
    && forall k :: 0 <= k < |p| ==> match p[k] case Literal(t) => IsPart(t) case Param(_) => true
  }

  function Score(p: Pattern): int
  {
    Literals(p) * 16 + (MAX_ROUTE_SEGMENTS - Params(p))
  }

  predicate SegmentMatches(s: Segment, part: string) {
    match s
    case Literal(t) => t == part
    case Param(_) => part != ""
  }

  predicate PathMatches(p: Pattern, parts: seq<string>) {
    |p| == |parts| && forall k :: 0 <= k < |p| ==> SegmentMatches(p[k], parts[k])
  }

  /** The parameters bound by the first n segments. */
  function Bound(p: Pattern, parts: seq<string>, n: nat): seq<(string, string)>
    requires n <= |p| == |parts|
  {
    if n == 0 then []
    else Bound(p, parts, n - 1) + match p[n - 1] case Literal(_) => [] case Param(name) => [(name, parts[n - 1])]
  }

  lemma {:induction false} BoundSize(p: Pattern, parts: seq<string>, n: nat)
    requires n <= |p| == |parts|
    ensures |Bound(p, parts, n)| <= n
  {
    if n > 0 {
      BoundSize(p, parts, n - 1);
    }
  }

  /** A path with values in place of the parameters. */
  function Filled(p: Pattern, values: seq<string>): seq<string>
    requires |values| == Params(p)
  {
    if p == [] then []
    else
      var n := |p| - 1;
      match p[n]
      case Literal(t) => Filled(p[..n], values) + [t]
      case Param(_) => Filled(p[..n], values[..|values| - 1]) + [values[|values| - 1]]
  }

  function Named(p: Pattern, values: seq<string>): seq<(string, string)>
    requires |values| == Params(p)
  {
    if p == [] then []
    else
      var n := |p| - 1;
      match p[n]
      case Literal(_) => Named(p[..n], values)
      case Param(name) => Named(p[..n], values[..|values| - 1]) + [(name, values[|values| - 1])]
  }

  lemma {:induction false} BoundPrefix(p: Pattern, parts: seq<string>, q: Pattern, others: seq<string>, n: nat)
    requires n <= |p| == |parts| && n <= |q| == |others| && p[..n] == q[..n] && parts[..n] == others[..n]
    ensures Bound(p, parts, n) == Bound(q, others, n)
  {
    if n > 0 {
      assert p[..n - 1] == p[..n][..n - 1] && q[..n - 1] == q[..n][..n - 1];
      assert parts[..n - 1] == parts[..n][..n - 1] && others[..n - 1] == others[..n][..n - 1];
      assert p[n - 1] == p[..n][n - 1] && q[n - 1] == q[..n][n - 1];
      assert parts[n - 1] == parts[..n][n - 1] && others[n - 1] == others[..n][n - 1];
      BoundPrefix(p, parts, q, others, n - 1);
    }
  }

  lemma {:induction false} MatchOneMore(p: Pattern, front: seq<string>, x: string)
    requires p != [] && PathMatches(p[..|p| - 1], front) && SegmentMatches(p[|p| - 1], x)
    ensures PathMatches(p, front + [x])
  {
    hide SegmentMatches;
    var n := |p| - 1;
    forall k | 0 <= k < |p|
      ensures SegmentMatches(p[k], (front + [x])[k])
    {
      assert k < n ==> p[..n][k] == p[k];
    }
  }

  lemma {:induction false} BindOneMore(p: Pattern, front: seq<string>, x: string)
    requires p != [] && |front| == |p| - 1
    ensures Bound(p, front + [x], |p|) ==
            Bound(p[..|p| - 1], front, |p| - 1) + match p[|p| - 1] case Literal(_) => [] case Param(name) => [(name, x)]
  {
    var n := |p| - 1;
    assert p[..n][..n] == p[..n] && (front + [x])[..n] == front == front[..n];
    BoundPrefix(p, front + [x], p[..n], front, n);
    hide Bound;
  }

  lemma NothingMatches()
    ensures PathMatches([], []) && Bound([], [], 0) == []
  {
  }

  lemma MatchedSize(p: Pattern, parts: seq<string>)
    requires PathMatches(p, parts)
    ensures |parts| == |p|
  {
  }

  /** `parts` are the pattern with these values, none of them empty, in place of its parameters. */
  ghost predicate IsFilling(p: Pattern, parts: seq<string>, values: seq<string>) {
    |values| == Params(p) && (forall k :: 0 <= k < |values| ==> values[k] != "") && parts == Filled(p, values)
  }

  ghost predicate Fills(p: Pattern, parts: seq<string>) {
    exists values :: IsFilling(p, parts, values)
  }

  lemma {:induction false} FilledMatches(p: Pattern, parts: seq<string>, values: seq<string>)
    requires IsFilling(p, parts, values)
    ensures PathMatches(p, parts) && Bound(p, parts, |p|) == Named(p, values)
  {
    hide PathMatches, Bound;
    if p == [] {
      NothingMatches();
    } else {
      var n := |p| - 1;
      var fewer := if p[n].Param? then values[..|values| - 1] else values;
      var x := if p[n].Param? then values[|values| - 1] else p[n].text;
      var front := Filled(p[..n], fewer);
      FilledMatches(p[..n], front, fewer);
      assert parts == front + [x];
      MatchOneMore(p, front, x);
      MatchedSize(p[..n], front);
      BindOneMore(p, front, x);
    }
  }

  /** The parts at the places of the parameters. */
  function Values(p: Pattern, parts: seq<string>): (values: seq<string>)
    requires |p| == |parts|
    ensures |values| == Params(p)
  {
    if p == [] then []
    else
      var n := |p| - 1;
      Values(p[..n], parts[..n]) + if p[n].Param? then [parts[n]] else []
  }

  lemma {:induction false} MatchedFills(p: Pattern, parts: seq<string>)
    requires PathMatches(p, parts)
    ensures IsFilling(p, parts, Values(p, parts))
  {
    if p != [] {
      var n := |p| - 1;
      assert PathMatches(p[..n], parts[..n]);
      MatchedFills(p[..n], parts[..n]);
      assert SegmentMatches(p[n], parts[n]);
      FillOneMore(p, parts, Values(p[..n], parts[..n]));
    }
  }

  lemma FillOneMore(p: Pattern, parts: seq<string>, fewer: seq<string>)
    requires p != [] && |parts| == |p| && IsFilling(p[..|p| - 1], parts[..|p| - 1], fewer)
    requires SegmentMatches(p[|p| - 1], parts[|p| - 1])
    ensures IsFilling(p, parts, fewer + if p[|p| - 1].Param? then [parts[|p| - 1]] else [])
  {
    var n := |p| - 1;
    var values := fewer + if p[n].Param? then [parts[n]] else [];
    assert parts == parts[..n] + [parts[n]];
    if p[n].Param? {
      assert values[..|values| - 1] == fewer;
    } else {
      assert values == fewer;
    }
  }

  /** Segment by segment, a path matches exactly if it is the pattern with some values. */
  lemma MatchExact(p: Pattern, parts: seq<string>)
    ensures PathMatches(p, parts) <==> Fills(p, parts)
  {
    hide PathMatches, IsFilling;
    if PathMatches(p, parts) {
      MatchedSize(p, parts);
      MatchedFills(p, parts);
    }
    if Fills(p, parts) {
      var values :| IsFilling(p, parts, values);
      FilledMatches(p, parts, values);
    }
  }

  /** The values that make the pattern into these parts, by name. */
  ghost predicate IsBound(p: Pattern, parts: seq<string>, bound: seq<(string, string)>) {
    exists values :: IsFilling(p, parts, values) && bound == Named(p, values)
  }

  lemma BoundIsNamed(p: Pattern, parts: seq<string>)
    ensures PathMatches(p, parts) ==> IsBound(p, parts, Bound(p, parts, |p|))
  {
    if PathMatches(p, parts) {
      MatchedFills(p, parts);
      FilledMatches(p, parts, Values(p, parts));
    }
  }

  lemma FillSize(p: Pattern, parts: seq<string>)
    ensures Fills(p, parts) ==> |parts| == |p|
  {
    MatchExact(p, parts);
  }

  lemma BoundFills(p: Pattern, parts: seq<string>, bound: seq<(string, string)>)
    requires IsBound(p, parts, bound)
    ensures Fills(p, parts)
  {
  }

  lemma BoundIsUnique(p: Pattern, parts: seq<string>, a: seq<(string, string)>, b: seq<(string, string)>)
    requires IsBound(p, parts, a) && IsBound(p, parts, b)
    ensures a == b
  {
    var u :| IsFilling(p, parts, u) && a == Named(p, u);
    var v :| IsFilling(p, parts, v) && b == Named(p, v);
    FilledMatches(p, parts, u);
    FilledMatches(p, parts, v);
  }

  /** Matching fails exactly when no values make the pattern into these parts, and binds the values that
      do to the names, in order. */
  method MatchSegments(p: Pattern, parts: seq<string>) returns (r: Option<seq<(string, string)>>)
    requires |p| <= MAX_ROUTE_SEGMENTS
    ensures r.Some? <==> Fills(p, parts)
    ensures r.Some? ==> IsBound(p, parts, r.value)
  {
    MatchExact(p, parts);
    BoundIsNamed(p, parts);
    hide IsBound, Fills;
    if |p| == 0 && |parts| == 0 {
      return Some([]);
    }
    if |parts| != |p| {
      return None;
    }
    var bound: seq<(string, string)> := [];
    for i := 0 to |p|
      invariant bound == Bound(p, parts, i)
      invariant forall k :: 0 <= k < i ==> SegmentMatches(p[k], parts[k])
    {
      if !SegmentMatches(p[i], parts[i]) {
        return None;
      }
      if p[i].Param? {
        BoundSize(p, parts, i);
        if |bound| < MAX_PATH_PARAMS {
          bound := bound + [(p[i].name, parts[i])];
        }
      }
    }
    r := Some(bound);
  }

  lemma {:induction false} FilledParts(p: Pattern, parts: seq<string>, values: seq<string>)
    requires IsPattern(p) && |values| == Params(p) && parts == Filled(p, values)
    requires forall k :: 0 <= k < |values| ==> IsPart(values[k])
    ensures forall k :: 0 <= k < |parts| ==> IsPart(parts[k])
  {
    hide IsPart;
    if p != [] {
      var n := |p| - 1;
      var fewer := if p[n].Param? then values[..|values| - 1] else values;
      FilledParts(p[..n], Filled(p[..n], fewer), fewer);
      assert parts == Filled(p[..n], fewer) + [if p[n].Param? then values[|values| - 1] else p[n].text];
    }
  }

  /** A path made from a pattern and values matches the pattern and gives the values back by name. */
  lemma {:induction false} ParametersRoundTrip(p: Pattern, values: seq<string>)
    requires IsPattern(p) && |values| == Params(p) && forall k :: 0 <= k < |values| ==> IsPart(values[k])
    ensures var parts := Parts(Joined(Filled(p, values)), 0);
            IsFilling(p, parts, values) && PathMatches(p, parts) && Bound(p, parts, |p|) == Named(p, values)
  {
    assert forall k :: 0 <= k < |values| ==> values[k] != "";
    hide IsPart;
    var parts := Filled(p, values);
    FilledParts(p, parts, values);
    SplitInvertsJoin(parts);
    FilledMatches(p, parts, values);
  }

  /** Between patterns of one length the score orders by the number of literals. */
  lemma {:induction false} ScoreIsLiterals(p: Pattern, q: Pattern)
    requires |p| == |q|
    ensures Score(p) < Score(q) <==> Literals(p) < Literals(q)
  {
  }

  datatype Route = Route(verb: Method, pattern: Pattern)

  datatype Dispatch = Found(route: nat, bound: seq<(string, string)>) | MethodNotAllowed(mask: bv32) | NotFound

  function MethodBit(m: Method): bv32 {
    match m
    case Get => 1
    case Post => 2
    case Put => 4
    case Delete => 8
    case Patch => 16
    case Head => 32
    case Options => 64
    case Unknown => 0
  }

  predicate Overlap(a: bv32, b: bv32) {
    a & b != 0
  }

  predicate InMask(mask: bv32, m: Method) {
    Overlap(mask, MethodBit(m))
  }

  lemma {:induction false} AddBit(mask: bv32, m: Method, n: Method)
    ensures InMask(mask | MethodBit(m), n) <==> InMask(mask, n) || (n == m && m != Unknown)
  {
    hide MethodBit, Overlap;
    MaskBits(mask, MethodBit(m), MethodBit(n));
    BitsDiffer(m, n);
  }

  lemma MaskBits(mask: bv32, a: bv32, b: bv32)
    ensures Overlap(mask | a, b) <==> Overlap(mask, b) || Overlap(a, b)
  {
    OrDistributes(mask, a, b);
    OrIsZero(mask & b, a & b);
  }

  lemma OrDistributes(mask: bv32, a: bv32, b: bv32)
    ensures (mask | a) & b == (mask & b) | (a & b)
  {
  }

  lemma OrIsZero(a: bv32, b: bv32)
    ensures a | b == 0 <==> a == 0 && b == 0
  {
  }

  lemma {:induction false} BitsDiffer(m: Method, n: Method)
    ensures Overlap(MethodBit(m), MethodBit(n)) <==> m == n && m != Unknown
  {
  }

  /** Where the query or the fragment begins, or the end. */
  function Query(uri: string, i: nat): (j: nat)
    requires i <= |uri|
    ensures i <= j <= |uri| && (j < |uri| ==> uri[j] in "?#")
    ensures forall k :: i <= k < j ==> uri[k] !in "?#"
    decreases |uri| - i
  {
    if i < |uri| && uri[i] !in "?#" then Query(uri, i + 1) else i
  }

  /** The path of a request target: all before the first '?' or '#'. */
  function PathOf(uri: string): (path: string)
    ensures path <= uri && '?' !in path && '#' !in path
    ensures |path| < |uri| ==> uri[|path|] in "?#"
  {
    uri[..Query(uri, 0)]
  }

  method StripQuery(uri: string) returns (path: string)
    ensures path == PathOf(uri)
    ensures path <= uri && '?' !in path && '#' !in path
    ensures |path| < |uri| ==> uri[|path|] in "?#"
  {
    var i := 0;
    while i < |uri|
      invariant i <= |uri| && Query(uri, 0) == Query(uri, i)
    {
      if uri[i] == '?' || uri[i] == '#' {
        return uri[..i];
      }
      i := i + 1;
    }
    path := uri;
  }

  ghost predicate Answers(routes: seq<Route>, i: nat, verb: Method, parts: seq<string>)
    requires i < |routes|
  {
    routes[i].verb == verb && Fills(routes[i].pattern, parts)
  }

  /** The route that must be taken: the one with the most literals, the earliest of equals. */
  ghost predicate IsBest(routes: seq<Route>, i: nat, n: nat, verb: Method, parts: seq<string>)
    requires i < n <= |routes|
  {
    && Answers(routes, i, verb, parts)
    && (forall j :: 0 <= j < n && Answers(routes, j, verb, parts) ==>
          Literals(routes[j].pattern) <= Literals(routes[i].pattern))
    && (forall j :: 0 <= j < i && Answers(routes, j, verb, parts) ==>
          Literals(routes[j].pattern) < Literals(routes[i].pattern))
  }

  ghost predicate Offers(routes: seq<Route>, n: nat, verb: Method, parts: seq<string>)
    requires n <= |routes|
  {
    exists j :: 0 <= j < n && Answers(routes, j, verb, parts)
  }

  ghost predicate Reaches(routes: seq<Route>, n: nat, parts: seq<string>)
    requires n <= |routes|
  {
    exists j :: 0 <= j < n && Fills(routes[j].pattern, parts)
  }

  /** The mask of the first n routes that match the path. */
  ghost predicate Tally(routes: seq<Route>, n: nat, parts: seq<string>, matched: bool, mask: bv32)
    requires n <= |routes|
  {
    && matched == Reaches(routes, n, parts)
    && (forall m :: InMask(mask, m) <==> m != Unknown && Offers(routes, n, m, parts))
  }

  /** Dispatch, said declaratively. */
  ghost predicate IsDispatch(routes: seq<Route>, verb: Method, parts: seq<string>, r: Dispatch) {
    if |parts| > MAX_ROUTE_SEGMENTS then r == NotFound
    else
      match r
      case Found(i, bound) =>
        i < |routes| && IsBest(routes, i, |routes|, verb, parts)
        && IsBound(routes[i].pattern, parts, bound)
      case MethodNotAllowed(mask) =>
        && !Offers(routes, |routes|, verb, parts)
        && Reaches(routes, |routes|, parts)
        && (forall m :: InMask(mask, m) <==> m != Unknown && Offers(routes, |routes|, m, parts))
      case NotFound => !Reaches(routes, |routes|, parts)
  }

  /** The best of the first n routes, if any answers. */
  ghost predicate IsBestOf(routes: seq<Route>, n: nat, verb: Method, parts: seq<string>, best: Option<nat>)
    requires n <= |routes|
  {
    match best
    case None => !Offers(routes, n, verb, parts)
    case Some(i) => i < n && IsBest(routes, i, n, verb, parts)
  }

  lemma {:induction false} PassOver(routes: seq<Route>, n: nat, verb: Method, parts: seq<string>, best: Option<nat>)
    requires n < |routes| && IsBestOf(routes, n, verb, parts, best)
    requires Answers(routes, n, verb, parts) ==>
               best.Some? && Literals(routes[n].pattern) <= Literals(routes[best.value].pattern)
    ensures IsBestOf(routes, n + 1, verb, parts, best)
  {
    hide Fills, Literals;
  }

  lemma {:induction false} TakeOver(routes: seq<Route>, n: nat, verb: Method, parts: seq<string>, best: Option<nat>)
    requires n < |routes| && IsBestOf(routes, n, verb, parts, best) && Answers(routes, n, verb, parts)
    requires best.Some? ==> Literals(routes[best.value].pattern) < Literals(routes[n].pattern)
    ensures IsBestOf(routes, n + 1, verb, parts, Some(n))
  {
    hide Fills, Literals;
  }

  method FindBest(routes: seq<Route>, verb: Method, parts: seq<string>)
    returns (best: Option<nat>, bound: seq<(string, string)>)
    requires forall i :: 0 <= i < |routes| ==> |routes[i].pattern| <= MAX_ROUTE_SEGMENTS
    ensures IsBestOf(routes, |routes|, verb, parts, best)
    ensures best.Some? ==> IsBound(routes[best.value].pattern, parts, bound)
  {
    hide Fills, IsBound, Literals, Params, Score, IsBest;
    best, bound := None, [];
    var bestScore := -1;
    for i := 0 to |routes|
      invariant IsBestOf(routes, i, verb, parts, best)
      invariant best.Some? ==> IsBound(routes[best.value].pattern, parts, bound)
                               && bestScore == Score(routes[best.value].pattern)
    {
      var p := routes[i].pattern;
      FillSize(p, parts);
      if |p| != |parts| || routes[i].verb != verb {
        PassOver(routes, i, verb, parts, best);
        continue;
      }
      var candidate := MatchSegments(p, parts);
      if candidate.None? {
        PassOver(routes, i, verb, parts, best);
        continue;
      }
      var score := Score(p);
      if best.Some? {
        BoundFills(routes[best.value].pattern, parts, bound);
        FillSize(routes[best.value].pattern, parts);
        ScoreIsLiterals(routes[best.value].pattern, p);
      }
      if best.None? || score > bestScore {
        TakeOver(routes, i, verb, parts, best);
        best, bestScore, bound := Some(i), score, candidate.value;
      } else {
        PassOver(routes, i, verb, parts, best);
      }
    }
  }

  lemma {:induction false} OfferOne(routes: seq<Route>, n: nat, m: Method, parts: seq<string>)
    requires n < |routes|
    ensures Offers(routes, n + 1, m, parts) <==>
            Offers(routes, n, m, parts) || (m == routes[n].verb && Fills(routes[n].pattern, parts))
  {
    hide Fills;
    if m == routes[n].verb && Fills(routes[n].pattern, parts) {
      assert Answers(routes, n, m, parts);
    }
  }

  lemma {:induction false} TallyOne(routes: seq<Route>, n: nat, parts: seq<string>, matched: bool, mask: bv32)
    requires n < |routes| && Tally(routes, n, parts, matched, mask)
    ensures if Fills(routes[n].pattern, parts)
            then Tally(routes, n + 1, parts, true, mask | MethodBit(routes[n].verb))
            else Tally(routes, n + 1, parts, matched, mask)
  {
    hide Fills, MethodBit, InMask, Offers;
    var hit := Fills(routes[n].pattern, parts);
    var next := if hit then mask | MethodBit(routes[n].verb) else mask;
    forall m
      ensures InMask(next, m) <==> m != Unknown && Offers(routes, n + 1, m, parts)
    {
      OfferOne(routes, n, m, parts);
      AddBit(mask, routes[n].verb, m);
    }
  }

  method AllowedMethods(routes: seq<Route>, parts: seq<string>) returns (matched: bool, mask: bv32)
    requires forall i :: 0 <= i < |routes| ==> |routes[i].pattern| <= MAX_ROUTE_SEGMENTS
    ensures Tally(routes, |routes|, parts, matched, mask)
  {
    matched, mask := false, 0;
    hide MethodBit, Fills, IsBound, InMask, Tally;
    TallyNone(routes, parts);
    for i := 0 to |routes|
      invariant Tally(routes, i, parts, matched, mask)
    {
      TallyOne(routes, i, parts, matched, mask);
      FillSize(routes[i].pattern, parts);
      if |routes[i].pattern| != |parts| {
        continue;
      }
      var candidate := MatchSegments(routes[i].pattern, parts);
      if candidate.None? {
        continue;
      }
      matched := true;
      mask := mask | MethodBit(routes[i].verb);
    }
  }

  lemma TallyNone(routes: seq<Route>, parts: seq<string>)
    ensures Tally(routes, 0, parts, false, 0)
  {
  }

  /** The order in which the Allow header lists methods. */
  const ALLOW_ORDER: seq<Method> := [Get, Head, Post, Put, Delete, Patch, Options]

  /** The methods of the mask among the first n in that order. */
  function Allowed(mask: bv32, n: nat): seq<Method>
    requires n <= |ALLOW_ORDER|
  {
    if n == 0 then []
    else Allowed(mask, n - 1) + if InMask(mask, ALLOW_ORDER[n - 1]) then [ALLOW_ORDER[n - 1]] else []
  }

  /** The names of methods with commas between them. */
  function Listed(methods: seq<Method>): string {
    if methods == [] then ""
    else
      var n := |methods| - 1;
      Listed(methods[..n]) + (if n == 0 then "" else ", ") + MethodName(methods[n])
  }

  lemma {:induction false} AllowOne(mask: bv32, n: nat)
    requires n < |ALLOW_ORDER|
    ensures var m, before := ALLOW_ORDER[n], Allowed(mask, n);
            Listed(Allowed(mask, n + 1)) ==
            if !InMask(mask, m) then Listed(before)
            else Listed(before) + (if before == [] then "" else ", ") + MethodName(m)
  {
    hide InMask, MethodName;
    var before := Allowed(mask, n);
    if InMask(mask, ALLOW_ORDER[n]) {
      assert (before + [ALLOW_ORDER[n]])[..|before|] == before;
    } else {
      assert before + [] == before;
    }
  }

  /** The value of the Allow header, empty if there is none. */
  method AllowHeader(mask: bv32) returns (allow: string)
    ensures allow == Listed(Allowed(mask, |ALLOW_ORDER|))
  {
    hide Listed, MethodName, InMask, Overlap, MethodBit;
    ListedNothing(mask);
    allow := "";
    if mask == 0 {
      NoMethods(|ALLOW_ORDER|);
      return;
    }
    var first := true;
    for i := 0 to |ALLOW_ORDER|
      invariant allow == Listed(Allowed(mask, i))
      invariant first <==> Allowed(mask, i) == []
    {
      AllowOne(mask, i);
      if !InMask(mask, ALLOW_ORDER[i]) {
        continue;
      }
      if !first {
        allow := allow + ", ";
      }
      allow := allow + MethodName(ALLOW_ORDER[i]);
      first := false;
    }
  }

  lemma ListedNothing(mask: bv32)
    ensures Listed(Allowed(mask, 0)) == ""
  {
  }

  lemma {:induction false} NoMethods(n: nat)
    requires n <= |ALLOW_ORDER|
    ensures Allowed(0, n) == [] && Listed([]) == ""
  {
    if n > 0 {
      NoMethods(n - 1);
    }
  }

  lemma {:induction false} AllowedAt(mask: bv32, n: nat, m: Method)
    requires n <= |ALLOW_ORDER|
    ensures m in Allowed(mask, n) <==> m in ALLOW_ORDER[..n] && InMask(mask, m)
  {
    hide InMask;
    if n > 0 {
      AllowedAt(mask, n - 1, m);
      assert ALLOW_ORDER[..n] == ALLOW_ORDER[..n - 1] + [ALLOW_ORDER[n - 1]];
    }
  }

  /** With a refusal of the method, the Allow header lists exactly the methods that routes of this path
      offer. */
  lemma AllowIsOffered(routes: seq<Route>, verb: Method, parts: seq<string>, mask: bv32, m: Method)
    requires |parts| <= MAX_ROUTE_SEGMENTS && IsDispatch(routes, verb, parts, MethodNotAllowed(mask))
    ensures m in Allowed(mask, |ALLOW_ORDER|) <==> m != Unknown && Offers(routes, |routes|, m, parts)
  {
    hide Fills, Offers, Reaches;
    AllowedAt(mask, |ALLOW_ORDER|, m);
    assert ALLOW_ORDER[..|ALLOW_ORDER|] == ALLOW_ORDER;
    assert InMask(mask, m) <==> m != Unknown && Offers(routes, |routes|, m, parts);
    assert m == Unknown || m in ALLOW_ORDER;
  }

  method DispatchRequest(routes: seq<Route>, verb: Method, uri: string) returns (r: Dispatch)
    requires forall i :: 0 <= i < |routes| ==> |routes[i].pattern| <= MAX_ROUTE_SEGMENTS
    ensures IsDispatch(routes, verb, Parts(PathOf(uri), 0), r)
  {
    hide Fills, IsBound;
    var path := StripQuery(uri);
    var parts, overflow := SplitPath(path);
    if overflow {
      return NotFound;
    }
    var best, bound := FindBest(routes, verb, parts);
    if best.Some? {
      return Found(best.value, bound);
    }
    var matched, mask := AllowedMethods(routes, parts);
    r := if matched then MethodNotAllowed(mask) else NotFound;
  }

  /** The declarative form leaves no choice. */
  lemma {:induction false} DispatchIsUnique(routes: seq<Route>, verb: Method, parts: seq<string>, r: Dispatch,
                                            s: Dispatch)
    requires IsDispatch(routes, verb, parts, r) && IsDispatch(routes, verb, parts, s)
    ensures match (r, s) {
              case (MethodNotAllowed(a), MethodNotAllowed(b)) => forall m :: InMask(a, m) <==> InMask(b, m)
              case _ => r == s
            }
  {
    hide Fills, IsBound, MethodBit;
    if |parts| <= MAX_ROUTE_SEGMENTS {
      if r.Found? {
        assert Offers(routes, |routes|, verb, parts) && Reaches(routes, |routes|, parts);
      }
      if r.Found? && s.Found? {
        BoundIsUnique(routes[r.route].pattern, parts, r.bound, s.bound);
      }
      if s.Found? {
        assert Offers(routes, |routes|, verb, parts) && Reaches(routes, |routes|, parts);
      }
    }
  }
}
