/**
 What more input does to the parser: steps taken stay taken, failures stay failures, and octets after
 a complete message play no part in it.
 */
module ParserStability {
  import opened Options
  import opened Http
  import opened ParserModel

  /** b and c agree on their first n octets. */
  predicate Agree(b: string, c: string, n: nat) {
    n <= |b| && n <= |c| && b[..n] == c[..n]
  }

  lemma {:induction false} AgreeAt(b: string, c: string, n: nat, i: nat)
    requires Agree(b, c, n) && i < n
    ensures b[i] == c[i]
  {
    assert b[..n][i] == c[..n][i];
  }

  lemma {:induction false} AgreeSlice(b: string, c: string, n: nat, i: nat, j: nat)
    requires Agree(b, c, n) && i <= j <= n
    ensures b[i..j] == c[i..j]
  {
    assert b[..n][i..j] == b[i..j] && c[..n][i..j] == c[i..j];
  }

  lemma {:induction false} AgreeLess(b: string, c: string, n: nat, m: nat)
    requires Agree(b, c, n) && m <= n
    ensures Agree(b, c, m)
  {
    AgreeSlice(b, c, n, 0, m);
  }

  lemma {:induction false} CrlfAgree(b: string, c: string, n: nat, i: nat)
    requires Agree(b, c, n) && i + 2 <= n
    ensures CrlfAt(b, i) <==> CrlfAt(c, i)
  {
    AgreeAt(b, c, n, i);
    AgreeAt(b, c, n, i + 1);
  }

  lemma {:induction false} FindCrlfAgree(b: string, c: string, i: nat)
    requires FindCrlf(b, i).Some? && Agree(b, c, FindCrlf(b, i).value + 2)
    ensures FindCrlf(c, i) == FindCrlf(b, i)
    decreases |b| - i
  {
    CrlfAgree(b, c, FindCrlf(b, i).value + 2, i);
    if !CrlfAt(b, i) {
      FindCrlfAgree(b, c, i + 1);
    }
  }

  lemma {:induction false} CleanAgree(b: string, c: string, n: nat, from: nat, to: nat)
    requires Agree(b, c, n) && to <= n
    ensures Clean(b, from, to) <==> Clean(c, from, to)
  {
    forall i | from <= i < to
      ensures CleanAt(b, i) <==> CleanAt(c, i)
    {
      AgreeAt(b, c, n, i);
      if i > 0 {
        AgreeAt(b, c, n, i - 1);
      }
    }
  }

  lemma {:induction false} StepAgree(known: set<string>, s: Core, b: string, c: string)
    requires s.pos <= |b| && s.pos <= |c| && s.phase != Complete
    requires Step(known, s, b).Moved? && Agree(b, c, Step(known, s, b).next.pos)
    ensures Step(known, s, c) == Step(known, s, b)
  {
    hide LineStep, FindCrlf, Clean;
    var n := Step(known, s, b).next.pos;
    if s.phase == Body {
      AgreeSlice(b, c, n, s.pos, n);
    } else if s.phase == ChunkData {
      AgreeSlice(b, c, n, s.pos, n - 2);
      CrlfAgree(b, c, n, n - 2);
    } else {
      FindCrlfAgree(b, c, s.pos);
      CleanAgree(b, c, n, s.pos, n - 1);
      AgreeSlice(b, c, n, s.pos, n - 2);
    }
  }

  lemma {:induction false} StepFails(known: set<string>, s: Core, b: string, c: string)
    requires s.pos <= |b| && b <= c && s.phase != Complete
    requires Step(known, s, b).Error?
    ensures Step(known, s, c).Error?
  {
    hide LineStep, FindCrlf, Clean;
    if s.phase == ChunkData {
      CrlfAgree(b, c, |b|, s.pos + s.chunkSize);
    } else if s.phase != Body {
      var q := FindCrlf(b, s.pos).value;
      AgreeLess(b, c, |b|, q + 2);
      FindCrlfAgree(b, c, s.pos);
      CleanAgree(b, c, |b|, s.pos, q + 1);
      AgreeSlice(b, c, |b|, s.pos, q);
    }
  }

  /** More input: what was done stays done, and what failed still fails. */
  lemma {:induction false} LoopExtends(known: set<string>, s: Core, b: string, c: string)
    requires s.pos <= |b| && b <= c
    ensures match Loop(known, s, b) {
              case None => Loop(known, s, c) == None
              case Some(d) => Loop(known, s, c) == Loop(known, d, c)
            }
    decreases s.phase != Complete, |b| - s.pos
  {
    hide Step;
    if s.phase != Complete {
      match Step(known, s, b)
      case Error => StepFails(known, s, b, c);
      case Stuck =>
      case Moved(next) =>
        AgreeLess(b, c, |b|, next.pos);
        StepAgree(known, s, b, c);
        LoopExtends(known, next, b, c);
    }
  }

  /** A message that is complete depends on nothing after its last octet. */
  lemma {:induction false} LoopAgree(known: set<string>, s: Core, b: string, c: string)
    requires s.pos <= |b| && s.pos <= |c| && Loop(known, s, b).Some? && Loop(known, s, b).value.phase == Complete
    requires Agree(b, c, Loop(known, s, b).value.pos)
    ensures Loop(known, s, c) == Loop(known, s, b)
    decreases s.phase != Complete, |b| - s.pos
  {
    hide Step;
    if s.phase != Complete {
      var next := Step(known, s, b).next;
      AgreeLess(b, c, Loop(known, s, b).value.pos, next.pos);
      StepAgree(known, s, b, c);
      LoopAgree(known, next, b, c);
    }
  }

  lemma {:induction false} TerminatorAgreeAt(b: string, c: string, n: nat, i: nat)
    requires Agree(b, c, n) && i + 4 <= n
    ensures TerminatorAt(b, i) <==> TerminatorAt(c, i)
  {
    CrlfAgree(b, c, n, i);
    CrlfAgree(b, c, n, i + 2);
  }

  lemma {:induction false} TerminatorAgree(b: string, c: string, i: nat)
    requires Terminator(b, i) != 0 && Agree(b, c, Terminator(b, i))
    ensures Terminator(c, i) == Terminator(b, i)
    decreases |b| - i
  {
    TerminatorAgreeAt(b, c, Terminator(b, i), i);
    if !TerminatorAt(b, i) {
      TerminatorAgree(b, c, i + 1);
    }
  }

  lemma {:induction false} TerminatorIsFirst(b: string, i: nat, j: nat)
    requires i <= j && TerminatorAt(b, j)
    ensures 0 < Terminator(b, i) <= j + 4
    decreases j - i
  {
    if i < j && !TerminatorAt(b, i) {
      TerminatorIsFirst(b, i + 1, j);
    }
  }

  lemma {:induction false} TerminatorSkips(b: string, i: nat, j: nat)
    requires i <= j && forall k :: i <= k < j ==> !TerminatorAt(b, k)
    ensures Terminator(b, i) == Terminator(b, j)
    decreases j - i
  {
    if i < j && i + 4 <= |b| {
      TerminatorSkips(b, i + 1, j);
    }
  }

  /** The blank line may be looked for from three octets before the end of what was searched. */
  lemma {:induction false} TerminatorResumes(b: string, c: string, from: nat)
    requires b <= c && Terminator(b, 0) == 0 && (from + 3 <= |b| || from == 0)
    ensures Terminator(c, 0) == Terminator(c, from)
  {
    forall k | 0 <= k < from
      ensures !TerminatorAt(c, k)
    {
      TerminatorAgreeAt(b, c, |b|, k);
      if TerminatorAt(b, k) {
        TerminatorIsFirst(b, 0, k);
      }
    }
    TerminatorSkips(c, 0, from);
  }

  /** A blank line found later ends after the input in which there was none. */
  lemma {:induction false} TerminatorIsLate(b: string, c: string)
    requires b <= c && Terminator(b, 0) == 0
    ensures Terminator(c, 0) == 0 || Terminator(c, 0) > |b|
  {
    var t := Terminator(c, 0);
    if 0 < t <= |b| {
      TerminatorAgreeAt(b, c, |b|, t - 4);
      TerminatorIsFirst(b, 0, t - 4);
    }
  }

  lemma {:induction false} AdmittedAgree(b: string, c: string)
    requires Admitted(b) && Terminator(b, 0) != 0 && Agree(b, c, Terminator(b, 0))
    ensures Admitted(c)
  {
    TerminatorAgree(b, c, 0);
    CleanAgree(b, c, Terminator(b, 0), 0, Terminator(b, 0));
  }

  lemma {:induction false} RefusedExtends(b: string, c: string)
    requires b <= c && Admitted(c)
    ensures Admitted(b)
  {
    var t := Terminator(b, 0);
    if t != 0 {
      AgreeLess(b, c, |b|, t);
      TerminatorAgree(b, c, 0);
      CleanAgree(b, c, t, 0, t);
    } else {
      TerminatorIsLate(b, c);
      CleanAgree(b, c, |b|, 0, |b|);
    }
  }

  /** Past the header part, the blank line that ended it has been seen. */
  predicate Headed(s: Core, b: string) {
    && (s.phase == Headers ==> 2 <= s.pos && CrlfAt(b, s.pos - 2))
    && (s.phase !in {RequestLine, Headers} ==> 0 < Terminator(b, 0) <= s.pos)
  }

  lemma {:induction false} HeaderPhase(known: set<string>, s: Core, line: string)
    requires s.phase == Headers && line != ""
    ensures HeaderLine(known, s, line).Some? ==> HeaderLine(known, s, line).value.phase == Headers
  {
    hide IndexOf, TrimOws, TrimLeft, KeyOf, AllOf;
  }

  lemma {:induction false} ChunkPhase(s: Core, line: string)
    requires ChunkLine(s, line).Some?
    ensures ChunkLine(s, line).value.phase in {ChunkData, ChunkTrailer}
  {
    hide IndexOf, TrimOws, WholeNumber;
  }

  lemma {:induction false} LinePhase(known: set<string>, s: Core, line: string)
    requires LineStep(known, s, line).Some?
    ensures var p := LineStep(known, s, line).value.phase;
            && (s.phase == RequestLine ==> p == Headers)
            && (s.phase == Headers && line != "" ==> p == Headers)
            && (s.phase !in {RequestLine, Headers} ==> p !in {RequestLine, Headers})
  {
    hide ChunkLine, EndOfHeaders, ProcessHeaderLine, FoldHeaderLine, ProcessRequestLine;
    if s.phase == Headers {
      if line != "" {
        HeaderPhase(known, s, line);
      }
    } else if s.phase == ChunkSize {
      ChunkPhase(s, line);
    }
  }

  lemma {:induction false} StepHeaded(known: set<string>, s: Core, b: string)
    requires s.pos <= |b| && s.phase != Complete && Headed(s, b) && Step(known, s, b).Moved?
    ensures Headed(Step(known, s, b).next, b)
  {
    hide LineStep, Clean, FindCrlf, Terminator;
    if s.phase !in {Body, ChunkData} {
      var q := FindCrlf(b, s.pos).value;
      LinePhase(known, s, b[s.pos..q]);
      if s.phase == Headers && q == s.pos {
        TerminatorIsFirst(b, 0, s.pos - 2);
      }
    }
  }

  lemma {:induction false} LoopHeaded(known: set<string>, s: Core, b: string)
    requires s.pos <= |b| && Headed(s, b) && Loop(known, s, b).Some?
    ensures Headed(Loop(known, s, b).value, b)
    decreases s.phase != Complete, |b| - s.pos
  {
    hide Step, Headed;
    if s.phase != Complete && Step(known, s, b).Moved? {
      StepHeaded(known, s, b);
      LoopHeaded(known, Step(known, s, b).next, b);
    }
  }

  /** More input, seen from the whole parser. */
  lemma {:induction false} ParseExtends(known: set<string>, b: string, c: string)
    requires b <= c
    ensures match Parse(known, b) {
              case None => Parse(known, c) == None
              case Some(s) => Parse(known, c) == if Admitted(c) then Loop(known, s, c) else None
            }
  {
    hide Loop;
    if Admitted(c) {
      RefusedExtends(b, c);
    }
    if Admitted(b) {
      LoopExtends(known, INIT, b, c);
    }
  }

  /** The octets after a complete message never change it. */
  lemma {:induction false} CompleteIsStable(known: set<string>, b: string, c: string)
    requires Parse(known, b).Some? && Parse(known, b).value.phase == Complete
    requires Agree(b, c, Parse(known, b).value.pos)
    ensures Parse(known, c) == Parse(known, b)
  {
    hide Loop, Terminator, Clean;
    var n := Parse(known, b).value.pos;
    LoopHeaded(known, INIT, b);
    AgreeLess(b, c, n, Terminator(b, 0));
    AdmittedAgree(b, c);
    LoopAgree(known, INIT, b, c);
  }

  lemma {:induction false} ParseNothing(known: set<string>)
    ensures Parse(known, "") == Some(INIT)
  {
    assert FindCrlf("", 0) == None;
  }

  lemma {:induction false} ParseBounds(known: set<string>, b: string)
    requires Parse(known, b).Some?
    ensures Parse(known, b).value.pos <= |b|
    ensures Parse(known, b).value.phase == Complete ==> 4 <= Parse(known, b).value.pos
  {
    hide Loop;
    LoopHeaded(known, INIT, b);
  }

  /** The parser frames a stream of requests as a pipelined connection needs it. */
  lemma {:induction false} ParserIsFramer(known: set<string>)
    ensures IsFramer(FramerOf(known))
  {
    hide Parse;
    ParseNothing(known);
    forall b
      ensures FrameOf(known, b).Partial? ==> FrameOf(known, b).parsed <= |b|
      ensures FrameOf(known, b).Whole? ==> 1 <= FrameOf(known, b).length <= |b|
    {
      if Parse(known, b).Some? {
        ParseBounds(known, b);
      }
    }
    forall b, more | FrameOf(known, b).Whole? && FrameOf(known, b).length <= |b|
      ensures FrameOf(known, b[..FrameOf(known, b).length] + more) == FrameOf(known, b)
    {
      CompleteIsStable(known, b, b[..FrameOf(known, b).length] + more);
    }
    forall b, more | FrameOf(known, b).Bad?
      ensures FrameOf(known, b + more).Bad?
    {
      ParseExtends(known, b, b + more);
    }
  }
}
