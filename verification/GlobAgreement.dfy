/** Exactly which patterns the two glob compilers read alike. */
module GlobAgreement {
  import opened Text
  import opened Globs
  import opened GlobCompilers

  /** A segment that spans for the persona selector and not for the claim reader. */
  predicate Wide(segment: string)
  {
    AllStars(segment) && |segment| >= 3
  }

  predicate StarOnly(segment: string)
  {
    AllStars(segment) && |segment| >= 1
  }

  /** Between `d`, where both compilers span, and `i` there are only segments of stars. */
  predicate SpannedFrom(segments: seq<string>, d: nat, i: nat)
    requires d < i <= |segments|
  {
    segments[d] == "**" && forall j :: d < j < i ==> StarOnly(segments[j])
  }

  /** Every wide segment is the last one and follows a `**` with only segments of stars in between. */
  predicate Covered(segments: seq<string>)
  {
    forall i :: 0 <= i < |segments| && Wide(segments[i]) ==>
      i == |segments| - 1 && exists d :: 0 <= d < i && SpannedFrom(segments, d, i)
  }

  // ----- How many segments a match takes at least -----

  function Least(ps: seq<Seg>): nat
  {
    if ps == [] then 0
    else if ps[0].Plain? then 1 + Least(ps[1..])
    else if |ps| == 1 then 1 else Least(ps[1..])
  }

  lemma {:induction false} MatchIsLongEnough(ps: seq<Seg>, xs: seq<string>)
    requires SegsMatch(ps, xs)
    ensures |xs| >= Least(ps)
    decreases |ps|, |xs|
  {
    if ps != [] {
      if ps[0].Plain? {
        MatchIsLongEnough(ps[1..], xs[1..]);
      } else if |ps| > 1 {
        if SegsMatch(ps[1..], xs) { MatchIsLongEnough(ps[1..], xs); } else { MatchIsLongEnough(ps, xs[1..]); }
      }
    }
  }

  // ----- Where a `**` covers the last segment -----

  predicate StarSeg(p: Seg)
  {
    p.Plain? ==> StarOnly(p.pattern)
  }

  predicate StarSegs(ps: seq<Seg>)
  {
    forall i :: 0 <= i < |ps| ==> StarSeg(ps[i])
  }

  lemma {:induction false} StarsTakeAnything(p: string, x: string)
    requires StarOnly(p)
    ensures SegGlob(p, x)
    decreases |p|, |x|
  {
    if x != "" {
      StarsTakeAnything(p, x[1..]);
    } else if |p| > 1 {
      StarsTakeAnything(p[1..], x);
    }
  }

  lemma {:induction false} StarsFit(ps: seq<Seg>, xs: seq<string>)
    requires StarSegs(ps) && |xs| == Least(ps)
    ensures SegsMatch(ps, xs)
    decreases |ps|
  {
    if ps != [] {
      if ps[0].Plain? {
        StarsTakeAnything(ps[0].pattern, xs[0]);
        StarsFit(ps[1..], xs[1..]);
      } else if |ps| > 1 {
        StarsFit(ps[1..], xs);
      }
    }
  }

  /** Segments of stars that start with a spanning one match everything long enough. */
  lemma {:induction false} StarsSpan(ps: seq<Seg>, xs: seq<string>)
    requires ps != [] && ps[0].Deep? && StarSegs(ps) && |xs| >= Least(ps)
    ensures SegsMatch(ps, xs)
    decreases |xs|
  {
    if |ps| > 1 {
      if |xs| == Least(ps) { StarsFit(ps, xs); } else { StarsSpan(ps, xs[1..]); }
    }
  }

  lemma TailSegs(segments: seq<string>)
    requires segments != []
    ensures ClaimsSegs(segments)[1..] == ClaimsSegs(segments[1..])
    ensures PersonaSegs(segments)[1..] == PersonaSegs(segments[1..])
  {
  }

  predicate OnlyLastWide(segments: seq<string>)
  {
    forall i :: 0 <= i < |segments| - 1 ==> !Wide(segments[i])
  }

  /** A segment that is not wide is read alike. */
  lemma SameSeg(segment: string)
    requires !Wide(segment)
    ensures ClaimsSeg(segment) == PersonaSeg(segment)
  {
    if AllStars(segment) && |segment| == 2 { assert segment == "**"; }
  }

  lemma {:induction false} SameLeast(segments: seq<string>)
    requires OnlyLastWide(segments)
    ensures Least(ClaimsSegs(segments)) == Least(PersonaSegs(segments))
  {
    if |segments| > 1 {
      SameSeg(segments[0]);
      TailSegs(segments);
      SameLeast(segments[1..]);
    } else if |segments| == 1 && !Wide(segments[0]) {
      SameSeg(segments[0]);
    }
  }

  /** What the persona selector accepts the claim reader does too, when a `**` covers the wide segment. */
  lemma {:induction false} CoveredMatch(segments: seq<string>, xs: seq<string>, d: nat)
    requires OnlyLastWide(segments) && d < |segments| - 1 && SpannedFrom(segments, d, |segments| - 1)
    requires StarOnly(segments[|segments| - 1]) && SegsMatch(PersonaSegs(segments), xs)
    ensures SegsMatch(ClaimsSegs(segments), xs)
    decreases |segments|, |xs|
  {
    var cs, ps := ClaimsSegs(segments), PersonaSegs(segments);
    if d == 0 {
      SameLeast(segments);
      MatchIsLongEnough(ps, xs);
      StarsSpan(cs, xs);
    } else {
      SameSeg(segments[0]);
      TailSegs(segments);
      if ps[0].Plain? {
        CoveredMatch(segments[1..], xs[1..], d - 1);
      } else if SegsMatch(ps[1..], xs) {
        CoveredMatch(segments[1..], xs, d - 1);
      } else {
        CoveredMatch(segments, xs[1..], d);
      }
    }
  }

  lemma CoveredAgree(segments: seq<string>, xs: seq<string>)
    requires Covered(segments) && segments != []
    ensures SegsMatch(ClaimsSegs(segments), xs) <==> SegsMatch(PersonaSegs(segments), xs)
  {
    var n := |segments| - 1;
    if SegsMatch(ClaimsSegs(segments), xs) { SpanningIsWider(segments, xs); }
    if Wide(segments[n]) {
      var d :| 0 <= d < n && SpannedFrom(segments, d, n);
      if SegsMatch(PersonaSegs(segments), xs) { CoveredMatch(segments, xs, d); }
    } else {
      assert forall i :: 0 <= i < |segments| ==> !Wide(segments[i]);
      SegsAgree(segments);
    }
  }

  // ----- A shortest match -----

  /** A text that a segment pattern matches: without its stars, and with a letter for every `?`. */
  function Sample(p: string): string
  {
    if p == "" then ""
    else if p[0] == '*' then Sample(p[1..])
    else [if p[0] == '?' then 'a' else p[0]] + Sample(p[1..])
  }

  predicate Proper(x: string)
  {
    OneLine(x) && '/' !in x
  }

  lemma {:induction false} SampleMatches(p: string)
    ensures SegGlob(p, Sample(p))
    ensures Proper(p) ==> Proper(Sample(p))
  {
    if p != "" { SampleMatches(p[1..]); }
  }

  function Samples(ps: seq<Seg>): seq<string>
  {
    if ps == [] then []
    else if ps[0].Plain? then [Sample(ps[0].pattern)] + Samples(ps[1..])
    else if |ps| == 1 then ["a"] else Samples(ps[1..])
  }

  predicate AllProper(xs: seq<string>)
  {
    forall i :: 0 <= i < |xs| ==> Proper(xs[i])
  }

  lemma {:induction false} SamplesMatch(ps: seq<Seg>)
    requires forall i :: 0 <= i < |ps| && ps[i].Plain? ==> Proper(ps[i].pattern)
    ensures SegsMatch(ps, Samples(ps)) && |Samples(ps)| == Least(ps) && AllProper(Samples(ps))
  {
    if ps != [] {
      SamplesMatch(ps[1..]);
      if ps[0].Plain? {
        SampleMatches(ps[0].pattern);
        assert Samples(ps)[1..] == Samples(ps[1..]);
      }
    }
  }

  // ----- A wide segment that is not last: the persona selector needs fewer segments -----

  lemma {:induction false} LeastIsWider(segments: seq<string>)
    ensures Least(PersonaSegs(segments)) <= Least(ClaimsSegs(segments))
    ensures !OnlyLastWide(segments) ==> Least(PersonaSegs(segments)) < Least(ClaimsSegs(segments))
  {
    if segments != [] {
      TailSegs(segments);
      LeastIsWider(segments[1..]);
      if !Wide(segments[0]) { SameSeg(segments[0]); }
      if !OnlyLastWide(segments) && !Wide(segments[0]) {
        var i :| 0 <= i < |segments| - 1 && Wide(segments[i]);
        assert segments[1..][i - 1] == segments[i];
      }
    }
  }

  lemma PersonaSegsProper(segments: seq<string>)
    requires AllProper(segments)
    ensures forall i :: 0 <= i < |segments| && PersonaSegs(segments)[i].Plain? ==> Proper(PersonaSegs(segments)[i].pattern)
  {
  }

  lemma ShorterForPersona(segments: seq<string>) returns (xs: seq<string>)
    requires AllProper(segments) && !OnlyLastWide(segments)
    ensures AllProper(xs) && SegsMatch(PersonaSegs(segments), xs) && !SegsMatch(ClaimsSegs(segments), xs)
  {
    xs := Samples(PersonaSegs(segments));
    PersonaSegsProper(segments);
    SamplesMatch(PersonaSegs(segments));
    LeastIsWider(segments);
    if SegsMatch(ClaimsSegs(segments), xs) { MatchIsLongEnough(ClaimsSegs(segments), xs); }
  }

  // ----- A wide last segment without a `**` before it: the persona selector takes more of them -----

  lemma {:induction false} Compose(ps: seq<Seg>, xs: seq<string>, qs: seq<Seg>, ys: seq<string>)
    requires SegsMatch(ps, xs) && SegsMatch(qs, ys)
    ensures SegsMatch(ps + qs, xs + ys)
    decreases |ps|, |xs|
  {
    if ps == [] {
      assert ps + qs == qs && xs + ys == ys;
    } else {
      assert (ps + qs)[1..] == ps[1..] + qs;
      assert xs != [] ==> (xs + ys)[1..] == xs[1..] + ys;
      if ps[0].Plain? {
        Compose(ps[1..], xs[1..], qs, ys);
      } else if |ps| == 1 {
        DeepTakes(xs, qs, ys);
        assert ps == [Deep];
      } else if SegsMatch(ps[1..], xs) {
        Compose(ps[1..], xs, qs, ys);
      } else {
        Compose(ps, xs[1..], qs, ys);
      }
    }
  }

  lemma {:induction false} DeepTakes(xs: seq<string>, qs: seq<Seg>, ys: seq<string>)
    requires SegsMatch(qs, ys) && (qs == [] ==> xs != [])
    ensures SegsMatch([Deep] + qs, xs + ys)
  {
    assert ([Deep] + qs)[1..] == qs;
    if qs != [] {
      if xs == [] {
        assert xs + ys == ys;
      } else {
        assert (xs + ys)[1..] == xs[1..] + ys;
        DeepTakes(xs[1..], qs, ys);
      }
    }
  }

  predicate Plains(ps: seq<Seg>)
  {
    forall i :: 0 <= i < |ps| ==> ps[i].Plain?
  }

  lemma {:induction false} PlainsTakeOneEach(ps: seq<Seg>, xs: seq<string>)
    requires Plains(ps) && SegsMatch(ps, xs)
    ensures |xs| == |ps| && (ps != [] ==> SegGlob(ps[0].pattern, xs[0]))
  {
    if ps != [] { PlainsTakeOneEach(ps[1..], xs[1..]); }
  }

  /** Plain segments at the end of a pattern take the last segments of the path, one each. */
  lemma {:induction false} EndsAlign(ps: seq<Seg>, qs: seq<Seg>, xs: seq<string>)
    requires qs != [] && Plains(qs) && SegsMatch(ps + qs, xs)
    ensures |xs| >= |qs| && SegGlob(qs[0].pattern, xs[|xs| - |qs|])
    decreases |ps|, |xs|
  {
    if ps == [] {
      assert ps + qs == qs;
      PlainsTakeOneEach(qs, xs);
    } else {
      assert (ps + qs)[1..] == ps[1..] + qs;
      if ps[0].Plain? {
        EndsAlign(ps[1..], qs, xs[1..]);
      } else if SegsMatch(ps[1..] + qs, xs) {
        EndsAlign(ps[1..], qs, xs);
      } else {
        EndsAlign(ps, qs, xs[1..]);
      }
    }
  }

  function Copies(e: string, n: nat): (es: seq<string>)
    ensures |es| == n && forall i :: 0 <= i < n ==> es[i] == e
  {
    seq(n, _ => e)
  }

  /** Where the segments of stars at the end begin. */
  function StarsFrom(segments: seq<string>): (j: nat)
    ensures j <= |segments|
  {
    if segments == [] || !StarOnly(segments[|segments| - 1]) then |segments| else StarsFrom(segments[..|segments| - 1])
  }

  lemma {:induction false} StarsFromIs(segments: seq<string>)
    ensures var j := StarsFrom(segments);
      (forall i :: j <= i < |segments| ==> StarOnly(segments[i])) && (j > 0 ==> !StarOnly(segments[j - 1]))
  {
    if segments != [] && StarOnly(segments[|segments| - 1]) { StarsFromIs(segments[..|segments| - 1]); }
  }

  /** Stars at the end of a pattern that only the claim reader takes one segment each. */
  predicate Uncovered(tail: seq<string>)
  {
    && tail != [] && Wide(tail[|tail| - 1])
    && forall i :: 0 <= i < |tail| - 1 ==> StarOnly(tail[i]) && tail[i] != "**" && !Wide(tail[i])
  }

  lemma NoneSpansUpTo(segments: seq<string>, j: nat)
    requires segments != [] && OnlyLastWide(segments) && !Covered(segments)
    requires forall i :: j <= i < |segments| ==> StarOnly(segments[i])
    ensures forall i :: j <= i < |segments| - 1 ==> segments[i] != "**"
  {
    forall i | j <= i < |segments| - 1 && segments[i] == "**" ensures false { assert SpannedFrom(segments, i, |segments| - 1); }
  }

  lemma UncoveredTail(segments: seq<string>, j: nat, tail: seq<string>)
    requires segments != [] && OnlyLastWide(segments) && Wide(segments[|segments| - 1]) && !Covered(segments)
    requires j == StarsFrom(segments) && tail == segments[j..]
    ensures Uncovered(tail)
  {
    StarsFromIs(segments);
    NoneSpansUpTo(segments, j);
    assert forall i :: 0 <= i < |tail| ==> tail[i] == segments[j + i];
  }

  lemma UncoveredSegs(tail: seq<string>)
    requires Uncovered(tail)
    ensures Plains(ClaimsSegs(tail)) && StarSegs(PersonaSegs(tail)) && PersonaSegs(tail)[|tail| - 1].Deep?
    ensures Least(PersonaSegs(tail)) == |tail|
  {
    forall i | 0 <= i < |tail| - 1 ensures ClaimsSeg(tail[i]) == PersonaSeg(tail[i]) == Plain(tail[i]) { SameSeg(tail[i]); }
    PlainsButLast(PersonaSegs(tail));
  }

  lemma {:induction false} PlainsButLast(ps: seq<Seg>)
    requires ps != [] && ps[|ps| - 1].Deep? && forall i :: 0 <= i < |ps| - 1 ==> ps[i].Plain?
    ensures Least(ps) == |ps|
  {
    if |ps| > 1 { PlainsButLast(ps[1..]); }
  }

  /** Segments of stars that end with a spanning one match everything long enough. */
  lemma {:induction false} StarsReach(ps: seq<Seg>, xs: seq<string>)
    requires ps != [] && StarSegs(ps) && ps[|ps| - 1].Deep? && |xs| >= Least(ps)
    ensures SegsMatch(ps, xs)
    decreases |ps|
  {
    if ps[0].Deep? {
      StarsSpan(ps, xs);
    } else {
      StarsTakeAnything(ps[0].pattern, xs[0]);
      StarsReach(ps[1..], xs[1..]);
    }
  }

  /** A segment that such a pattern segment does not match. */
  function Unlike(q: string): string
  {
    if q == "" then "a" else ""
  }

  lemma {:induction false} EmptyNeedsStars(q: string)
    requires q != "" && SegGlob(q, "")
    ensures StarOnly(q)
  {
    if |q| > 1 { EmptyNeedsStars(q[1..]); }
  }

  lemma SplitSegs(segments: seq<string>, j: nat)
    requires j <= |segments|
    ensures ClaimsSegs(segments) == ClaimsSegs(segments[..j]) + ClaimsSegs(segments[j..])
    ensures PersonaSegs(segments) == PersonaSegs(segments[..j]) + PersonaSegs(segments[j..])
  {
  }

  /** The stars at the end are given one segment more than the claim reader takes. */
  lemma PersonaTakesMore(front: seq<string>, tail: seq<string>, e: string) returns (xs: seq<string>, head: seq<string>)
    requires AllProper(front) && Uncovered(tail) && Proper(e)
    ensures SegsMatch(PersonaSegs(front) + PersonaSegs(tail), xs) && AllProper(xs)
    ensures xs == head + Copies(e, |tail| + 1) && (front == [] ==> head == [])
  {
    head := Samples(PersonaSegs(front));
    var es := Copies(e, |tail| + 1);
    PersonaSegsProper(front);
    SamplesMatch(PersonaSegs(front));
    UncoveredSegs(tail);
    StarsReach(PersonaSegs(tail), es);
    Compose(PersonaSegs(front), head, PersonaSegs(tail), es);
    xs := head + es;
  }

  /** The claim reader finds one segment too many, or one that the segment before the stars does not match. */
  lemma ClaimsTakeLess(ps: seq<Seg>, q: string, ts: seq<Seg>, head: seq<string>, es: seq<string>)
    requires Plains(ts) && !StarOnly(q) && es == Copies(Unlike(q), |ts| + 1)
    ensures !SegsMatch(ps + ([Plain(q)] + ts), head + es)
  {
    var xs, qs := head + es, [Plain(q)] + ts;
    if SegsMatch(ps + qs, xs) {
      EndsAlign(ps, qs, xs);
      assert xs[|xs| - |qs|] == es[0];
      if q != "" { EmptyNeedsStars(q); }
    }
  }

  lemma LongerAfter(ps: seq<Seg>, front: seq<string>, q: string, tail: seq<string>) returns (xs: seq<string>)
    requires AllProper(front) && Uncovered(tail) && !StarOnly(q)
    ensures AllProper(xs) && SegsMatch(PersonaSegs(front) + PersonaSegs(tail), xs)
    ensures !SegsMatch(ps + ([Plain(q)] + ClaimsSegs(tail)), xs)
  {
    var head;
    UncoveredSegs(tail);
    xs, head := PersonaTakesMore(front, tail, Unlike(q));
    ClaimsTakeLess(ps, q, ClaimsSegs(tail), head, Copies(Unlike(q), |tail| + 1));
  }

  lemma LongerAlone(tail: seq<string>) returns (xs: seq<string>)
    requires Uncovered(tail)
    ensures AllProper(xs) && SegsMatch(PersonaSegs(tail), xs) && !SegsMatch(ClaimsSegs(tail), xs)
  {
    UncoveredSegs(tail);
    xs := Copies("", |tail| + 1);
    StarsReach(PersonaSegs(tail), xs);
    if SegsMatch(ClaimsSegs(tail), xs) { PlainsTakeOneEach(ClaimsSegs(tail), xs); }
  }

  /** The pattern around the last segment that is not all stars. */
  lemma CutBeforeStars(segments: seq<string>, j: nat) returns (before: seq<Seg>, front: seq<string>, q: string, tail: seq<string>)
    requires segments != [] && AllProper(segments)
    requires OnlyLastWide(segments) && Wide(segments[|segments| - 1]) && !Covered(segments) && j == StarsFrom(segments) > 0
    ensures AllProper(front) && Uncovered(tail) && !StarOnly(q)
    ensures PersonaSegs(segments) == PersonaSegs(front) + PersonaSegs(tail)
    ensures ClaimsSegs(segments) == before + ([Plain(q)] + ClaimsSegs(tail))
  {
    before, front, q, tail := ClaimsSegs(segments[..j - 1]), segments[..j], segments[j - 1], segments[j..];
    StarsFromIs(segments);
    UncoveredTail(segments, j, tail);
    SplitSegs(segments, j);
    SegsAround(segments, j, q, tail);
  }

  lemma LongerForPersona(segments: seq<string>) returns (xs: seq<string>)
    requires segments != [] && AllProper(segments)
    requires OnlyLastWide(segments) && Wide(segments[|segments| - 1]) && !Covered(segments)
    ensures AllProper(xs) && SegsMatch(PersonaSegs(segments), xs) && !SegsMatch(ClaimsSegs(segments), xs)
  {
    var j := StarsFrom(segments);
    if j == 0 {
      UncoveredTail(segments, j, segments);
      xs := LongerAlone(segments);
    } else {
      var before, front, q, tail := CutBeforeStars(segments, j);
      xs := LongerAfter(before, front, q, tail);
    }
  }

  lemma SegsAround(segments: seq<string>, j: nat, q: string, tail: seq<string>)
    requires 0 < j <= |segments| && q == segments[j - 1] && tail == segments[j..] && !StarOnly(q)
    ensures ClaimsSegs(segments) == ClaimsSegs(segments[..j - 1]) + ([Plain(q)] + ClaimsSegs(tail))
  {
    assert ClaimsSeg(q) == Plain(q);
  }

  // ----- A pattern with a line break matches no one-line path -----

  lemma {:induction false} MatchedPatternIsOneLine(p: string, x: string)
    requires SegGlob(p, x) && OneLine(x)
    ensures OneLine(p)
    decreases |p|, |x|
  {
    if p != "" {
      if p[0] == '*' && !SegGlob(p[1..], x) {
        MatchedPatternIsOneLine(p, x[1..]);
      } else {
        MatchedPatternIsOneLine(p[1..], if p[0] == '*' then x else x[1..]);
        assert forall i :: 1 <= i < |p| ==> p[i] == p[1..][i - 1];
      }
    }
  }

  lemma {:induction false} MatchedPlainsAreOneLine(ps: seq<Seg>, xs: seq<string>)
    requires SegsMatch(ps, xs) && forall i :: 0 <= i < |xs| ==> OneLine(xs[i])
    ensures forall i :: 0 <= i < |ps| && ps[i].Plain? ==> OneLine(ps[i].pattern)
    decreases |ps|, |xs|
  {
    if ps != [] {
      assert forall i :: 1 <= i < |ps| ==> ps[i] == ps[1..][i - 1];
      if ps[0].Plain? {
        MatchedPatternIsOneLine(ps[0].pattern, xs[0]);
        MatchedPlainsAreOneLine(ps[1..], xs[1..]);
      } else if |ps| > 1 {
        if SegsMatch(ps[1..], xs) { MatchedPlainsAreOneLine(ps[1..], xs); } else { MatchedPlainsAreOneLine(ps, xs[1..]); }
      }
    }
  }

  lemma {:induction false} PartsOfOneLine(parts: seq<string>)
    requires |parts| >= 1
    ensures OneLine(Join(parts, '/')) <==> forall i :: 0 <= i < |parts| ==> OneLine(parts[i])
  {
    if |parts| > 1 {
      PartsOfOneLine(parts[1..]);
      var s := Join(parts, '/');
      assert s == parts[0] + ['/'] + Join(parts[1..], '/');
      assert forall i :: 0 <= i < |parts[0]| ==> s[i] == parts[0][i];
      assert forall i :: 0 <= i < |Join(parts[1..], '/')| ==> s[|parts[0]| + 1 + i] == Join(parts[1..], '/')[i];
      assert forall i :: 1 <= i < |parts| ==> parts[i] == parts[1..][i - 1];
    }
  }

  /** Neither compiler's reading matches when some segment holds a line break. */
  lemma BrokenLineMatchesNothing(segments: seq<string>, xs: seq<string>)
    requires exists i :: 0 <= i < |segments| && !OneLine(segments[i])
    requires forall i :: 0 <= i < |xs| ==> OneLine(xs[i])
    ensures !SegsMatch(ClaimsSegs(segments), xs) && !SegsMatch(PersonaSegs(segments), xs)
  {
    var i :| 0 <= i < |segments| && !OneLine(segments[i]);
    assert !AllStars(segments[i]);
    if SegsMatch(ClaimsSegs(segments), xs) { SpanningIsWider(segments, xs); }
    if SegsMatch(PersonaSegs(segments), xs) { MatchedPlainsAreOneLine(PersonaSegs(segments), xs); }
  }

  // ----- The boundary -----

  /** The two compiled expressions give the same answer on this path. */
  ghost predicate SameAnswer(pattern: string, path: string)
    requires PersonaSource(pattern).Some?
  {
    RegexTest(ClaimsSource(pattern), path) <==> RegexTest(PersonaSource(pattern).value, path)
  }

  lemma AnswerIsMeaning(pattern: string, path: string)
    requires PersonaSource(pattern).Some? && OneLine(path)
    ensures var segments, xs := Split(pattern, '/'), Split(path, '/');
      SameAnswer(pattern, path) <==> (SegsMatch(ClaimsSegs(segments), xs) <==> SegsMatch(PersonaSegs(segments), xs))
  {
    ClaimsGlobMeaning(pattern, path);
    PersonaGlobMeaning(pattern, path);
  }

  lemma AgreeAt(pattern: string, path: string)
    requires PersonaSource(pattern).Some? && OneLine(path)
    requires OneLine(pattern) ==> Covered(Split(pattern, '/'))
    ensures SameAnswer(pattern, path)
  {
    var segments, xs := Split(pattern, '/'), Split(path, '/');
    AnswerIsMeaning(pattern, path);
    SplitSpec(pattern, '/');
    SplitSpec(path, '/');
    PartsOfOneLine(segments);
    PartsOfOneLine(xs);
    if OneLine(pattern) { CoveredAgree(segments, xs); } else { BrokenLineMatchesNothing(segments, xs); }
  }

  lemma PathOf(xs: seq<string>) returns (path: string)
    requires AllProper(xs) && xs != []
    ensures OneLine(path) && Split(path, '/') == xs
  {
    path := Join(xs, '/');
    SplitOfJoin(xs, '/');
    PartsOfOneLine(xs);
  }

  lemma DisagreeSomewhere(pattern: string) returns (path: string)
    requires PersonaSource(pattern).Some? && OneLine(pattern) && !Covered(Split(pattern, '/'))
    ensures OneLine(path) && !SameAnswer(pattern, path)
  {
    var segments := Split(pattern, '/');
    SplitSpec(pattern, '/');
    PartsOfOneLine(segments);
    var xs;
    if OnlyLastWide(segments) { xs := LongerForPersona(segments); } else { xs := ShorterForPersona(segments); }
    if xs == [] { NothingLeft(PersonaSegs(segments)); }
    path := PathOf(xs);
    AnswerIsMeaning(pattern, path);
  }

  /**
   * The compilers agree on all one-line paths exactly when the pattern holds a line break, so that neither matches
   * any, or every segment of three or more stars is the last one and a `**` before it spans up to it.
   */
  lemma GlobCompilersAgreeIff(pattern: string)
    requires PersonaSource(pattern).Some?
    ensures (forall path :: OneLine(path) ==> SameAnswer(pattern, path)) <==>
      (OneLine(pattern) ==> Covered(Split(pattern, '/')))
  {
    if OneLine(pattern) && !Covered(Split(pattern, '/')) {
      var path := DisagreeSomewhere(pattern);
    } else {
      forall path | OneLine(path) ensures SameAnswer(pattern, path) { AgreeAt(pattern, path); }
    }
  }
}
