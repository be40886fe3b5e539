/** The glob compiler of the claim reader, the one of the persona selector, and their agreement. */
module GlobCompilers {
  import opened Text
  import opened Globs

  const WILDCARD_RUNS := 16

  // ----- The claim reader's compiler: one segment at a time -----

  function ClaimsSeg(segment: string): Seg
  {
    if segment == "**" then Deep else Plain(segment)
  }

  function ClaimsSegs(segments: seq<string>): (ps: seq<Seg>)
    ensures |ps| == |segments|
    ensures forall i :: 0 <= i < |ps| ==> ps[i] == ClaimsSeg(segments[i])
  {
    seq(|segments|, i requires 0 <= i < |segments| => ClaimsSeg(segments[i]))
  }

  function ClaimsSource(pattern: string): string
  {
    "^" + Emit(Compiled(ClaimsSegs(Split(pattern, '/')), DirsStar)) + "$"
  }

  function SegmentItems(segment: string, last: bool): seq<Item>
  {
    if segment == "**" then [if last then AnyRun else DirsStar]
    else PlainItems(segment) + if last then [] else [Lit('/')]
  }

  lemma CompiledStep(segments: seq<string>, done: seq<Item>, index: nat)
    requires index < |segments|
    ensures done + Compiled(ClaimsSegs(segments[index..]), DirsStar)
         == done + SegmentItems(segments[index], index == |segments| - 1)
          + Compiled(ClaimsSegs(segments[index + 1..]), DirsStar)
  {
    assert ClaimsSegs(segments[index..])[1..] == ClaimsSegs(segments[index + 1..]);
  }

  /** The body of the segment loop. */
  method SegmentRegex(segment: string, last: bool, before: seq<Item>) returns (items: seq<Item>)
    ensures items == before + SegmentItems(segment, last)
  {
    items := before;
    ghost var plain := PlainItems(segment);
    if segment == "**" {
      items := items + [if last then AnyRun else DirsStar];
    } else {
      for k := 0 to |segment|
        invariant items == before + plain[..k]
      {
        items := items + [if segment[k] == '*' then RunInSegment
                          else if segment[k] == '?' then OneInSegment else Lit(segment[k])];
      }
      Assoc(before, plain, if last then [] else [Lit('/')]);
      if !last {
        items := items + [Lit('/')];
      }
    }
  }

  method GlobRegex(pattern: string) returns (source: string)
    ensures source == ClaimsSource(pattern)
  {
    var segments := Split(pattern, '/');
    var items: seq<Item> := [];
    assert segments[0..] == segments;
    var index := 0;
    while index < |segments|
      invariant 0 <= index <= |segments|
      invariant items + Compiled(ClaimsSegs(segments[index..]), DirsStar) == Compiled(ClaimsSegs(segments), DirsStar)
    {
      CompiledStep(segments, items, index);
      items := SegmentRegex(segments[index], index == |segments| - 1, items);
      index := index + 1;
    }
    assert Compiled(ClaimsSegs(segments[index..]), DirsStar) == [] && items + [] == items;
    source := "^" + Emit(items) + "$";
  }

  // ----- The persona selector's compiler: one character at a time -----

  function StarRun(s: string): (m: nat)
    ensures m <= |s|
    ensures forall i :: 0 <= i < m ==> s[i] == '*'
    ensures m < |s| ==> s[m] != '*'
  {
    if s != "" && s[0] == '*' then 1 + StarRun(s[1..]) else 0
  }

  /** The next item of a pattern and its width; `bounded` says that a segment starts here, `m` counts the stars. */
  function ScanOne(bounded: bool, s: string, m: nat): (r: (Item, nat))
    requires s != "" && m <= |s| && (s[0] == '*' <==> m > 0)
    ensures 1 <= r.1 <= |s|
  {
    if s[0] == '*' then
      if m >= 2 && bounded && m < |s| && s[m] == '/' then (DirsOpt, m + 1)
      else if m >= 2 && bounded && m == |s| then (AnyRun, m)
      else (RunInSegment, m)
    else if s[0] == '?' then (OneInSegment, 1)
    else (Lit(s[0]), 1)
  }

  predicate EndsSegment(item: Item)
  {
    item == DirsOpt || item == Lit('/')
  }

  function Scan(bounded: bool, s: string): seq<Item>
    decreases |s|
  {
    if s == "" then [] else
    var (item, width) := ScanOne(bounded, s, StarRun(s));
    [item] + Scan(EndsSegment(item), s[width..])
  }

  /** How many wildcards are spent: every `?` and every run of stars is one. */
  function Wildcards(items: seq<Item>): nat
  {
    if items == [] then 0
    else Wildcards(items[..|items| - 1]) + if items[|items| - 1].Lit? then 0 else 1
  }

  function PersonaSource(glob: string): Option<string>
  {
    var items := Scan(true, glob);
    if Wildcards(items) > WILDCARD_RUNS then None else Some("^" + Emit(items) + "$")
  }

  lemma StarRunIs(s: string, m: nat)
    requires m <= |s| && (forall i :: 0 <= i < m ==> s[i] == '*') && (m < |s| ==> s[m] != '*')
    ensures StarRun(s) == m
  {
  }

  /** The inner loop over a run of stars, from the first of them. */
  method SkipStars(glob: string, from: nat) returns (i: nat, deep: bool)
    requires from < |glob| && glob[from] == '*'
    ensures i == from + StarRun(glob[from..]) <= |glob|
    ensures deep <==> StarRun(glob[from..]) >= 2
  {
    i, deep := from, false;
    while i < |glob| && glob[i] == '*'
      invariant from <= i <= |glob|
      invariant forall k :: from <= k < i ==> glob[k] == '*'
      invariant deep <==> i > from && (i - from >= 2 || (i < |glob| && glob[i] == '*'))
    {
      if i + 1 < |glob| && glob[i + 1] == '*' {
        deep := true;
      }
      i := i + 1;
    }
    StarRunIs(glob[from..], i - from);
  }

  lemma ScanUnfold(bounded: bool, s: string, m: nat, item: Item, width: nat, rest: string)
    requires s != "" && m == StarRun(s) && (item, width) == ScanOne(bounded, s, m) && rest == s[width..]
    ensures Scan(bounded, s) == [item] + Scan(EndsSegment(item), rest)
  {
  }

  /** `ScanOne` read off the whole pattern at position `i`, where `m` stars begin. */
  ghost predicate OneItemAt(bounded: bool, glob: string, i: nat, m: nat, item: Item, next: nat)
    requires i < |glob|
  {
    if m >= 2 && bounded && i + m < |glob| && glob[i + m] == '/' then item == DirsOpt && next == i + m + 1
    else if m >= 2 && bounded && i + m == |glob| then item == AnyRun && next == i + m
    else if m > 0 then item == RunInSegment && next == i + m
    else item == (if glob[i] == '?' then OneInSegment else Lit(glob[i])) && next == i + 1
  }

  lemma OneItemIs(bounded: bool, glob: string, tail: string, i: nat, m: nat, item: Item, next: nat)
    requires i < |glob| && tail == glob[i..] && m <= |tail| && (m > 0 <==> glob[i] == '*')
    requires OneItemAt(bounded, glob, i, m, item, next)
    ensures (item, next - i) == ScanOne(bounded, tail, m)
  {
  }

  lemma ScanStep(done: seq<Item>, bounded: bool, glob: string, tail: string, i: nat, m: nat, item: Item, next: nat, rest: string)
    requires i < |glob| && tail == glob[i..] && m == StarRun(tail) && (m > 0 <==> glob[i] == '*')
    requires OneItemAt(bounded, glob, i, m, item, next) && next <= |glob| && rest == glob[next..]
    ensures done + Scan(bounded, tail) == done + [item] + Scan(EndsSegment(item), rest)
  {
    OneItemIs(bounded, glob, tail, i, m, item, next);
    DropDrop(glob, i, next - i);
    ScanUnfold(bounded, tail, m, item, next - i, rest);
    ItemFirst(done, item, Scan(bounded, tail), Scan(EndsSegment(item), rest));
  }

  lemma ItemFirst(done: seq<Item>, item: Item, whole: seq<Item>, rest: seq<Item>)
    requires whole == [item] + rest
    ensures done + whole == done + [item] + rest
  {
  }

  /** The item at `i`, where the next one starts, and how many wildcards it spends. */
  method ItemAt(glob: string, i: nat) returns (item: Item, next: nat, runs: nat)
    requires i < |glob|
    ensures i < next <= |glob| && OneItemAt(i == 0 || glob[i - 1] == '/', glob, i, StarRun(glob[i..]), item, next)
    ensures StarRun(glob[i..]) > 0 <==> glob[i] == '*'
    ensures EndsSegment(item) <==> glob[next - 1] == '/'
    ensures runs == if item.Lit? then 0 else 1
  {
    item, next, runs := Lit(glob[i]), i + 1, 0;
    if glob[i] == '*' {
      var boundedLeft := i == 0 || glob[i - 1] == '/';
      var deep;
      next, deep := SkipStars(glob, i);
      runs := 1;
      if deep && boundedLeft && next < |glob| && glob[next] == '/' {
        item := DirsOpt;
        next := next + 1;
      } else if deep && boundedLeft && next == |glob| {
        item := AnyRun;
      } else {
        item := RunInSegment;
      }
    } else if glob[i] == '?' {
      runs := 1;
      item := OneInSegment;
    }
  }

  lemma WildcardsSnoc(items: seq<Item>, item: Item)
    ensures Wildcards(items + [item]) == Wildcards(items) + if item.Lit? then 0 else 1
  {
    assert (items + [item])[..|items|] == items;
  }

  method GlobToRegExp(glob: string) returns (source: Option<string>)
    ensures source == PersonaSource(glob)
  {
    var items: seq<Item>, runs, i := [], 0, 0;
    ghost var all, bounded, tail := Scan(true, glob), true, glob;
    while i < |glob|
      invariant 0 <= i <= |glob|
      invariant bounded <==> i == 0 || glob[i - 1] == '/'
      invariant tail == glob[i..] && items + Scan(bounded, tail) == all
      invariant runs == Wildcards(items)
    {
      var item, next, more := ItemAt(glob, i);
      ghost var rest := glob[next..];
      ScanStep(items, bounded, glob, tail, i, StarRun(tail), item, next, rest);
      WildcardsSnoc(items, item);
      items, runs, i := items + [item], runs + more, next;
      bounded, tail := EndsSegment(item), rest;
    }
    assert items + [] == items;
    source := if runs > WILDCARD_RUNS then None else Some("^" + Emit(items) + "$");
  }

  // ----- What each compiler means, and where they agree -----

  predicate AllStars(s: string)
  {
    forall i :: 0 <= i < |s| ==> s[i] == '*'
  }

  /** A segment that is nothing but two or more stars spans segments for the persona selector. */
  function PersonaSeg(segment: string): Seg
  {
    if AllStars(segment) && |segment| >= 2 then Deep else Plain(segment)
  }

  function PersonaSegs(segments: seq<string>): (ps: seq<Seg>)
    ensures |ps| == |segments|
    ensures forall i :: 0 <= i < |ps| ==> ps[i] == PersonaSeg(segments[i])
  {
    seq(|segments|, i requires 0 <= i < |segments| => PersonaSeg(segments[i]))
  }

  /** One star for every run of stars, as the persona selector emits them. */
  function Collapse(p: string): string
    decreases |p|
  {
    if p == "" then ""
    else if p[0] == '*' then "*" + Collapse(p[StarRun(p)..])
    else [p[0]] + Collapse(p[1..])
  }

  function CollapseSeg(seg: Seg): Seg
  {
    if seg.Deep? then Deep else Plain(Collapse(seg.pattern))
  }

  function CollapseSegs(ps: seq<Seg>): (cs: seq<Seg>)
    ensures |cs| == |ps|
    ensures forall i :: 0 <= i < |ps| ==> cs[i] == CollapseSeg(ps[i])
  {
    seq(|ps|, i requires 0 <= i < |ps| => CollapseSeg(ps[i]))
  }

  lemma {:induction false} SecondStarAddsNothing(q: string, x: string)
    ensures SegGlob("**" + q, x) <==> SegGlob("*" + q, x)
    decreases |x|
  {
    var two, one := "**" + q, "*" + q;
    assert two[1..] == one && one[1..] == q;
    if x != "" { SecondStarAddsNothing(q, x[1..]); }
  }

  lemma {:induction false} StarRunIsOneStar(p: string, m: nat, x: string)
    requires 0 < m <= |p| && AllStars(p[..m])
    ensures SegGlob(p, x) <==> SegGlob("*" + p[m..], x)
    decreases m
  {
    assert p[0] == p[..m][0];
    if m == 1 {
      assert p == "*" + p[1..];
    } else {
      assert p[1] == p[..m][1];
      assert p == "**" + p[2..] && p[1..] == "*" + p[2..];
      SecondStarAddsNothing(p[2..], x);
      assert p[1..][..m - 1] == p[..m][1..] && p[1..][m - 1..] == p[m..];
      StarRunIsOneStar(p[1..], m - 1, x);
    }
  }

  lemma {:induction false} StarThen(a: string, b: string, x: string)
    requires forall y :: SegGlob(a, y) <==> SegGlob(b, y)
    ensures SegGlob("*" + a, x) <==> SegGlob("*" + b, x)
    decreases |x|
  {
    assert ("*" + a)[1..] == a && ("*" + b)[1..] == b;
    if x != "" { StarThen(a, b, x[1..]); }
  }

  lemma {:induction false} CollapseKeepsMeaning(p: string, x: string)
    ensures SegGlob(Collapse(p), x) <==> SegGlob(p, x)
    decreases |p|
  {
    if p != "" && p[0] == '*' {
      var m := StarRun(p);
      var rest := p[m..];
      forall y ensures SegGlob(Collapse(rest), y) <==> SegGlob(rest, y) { CollapseKeepsMeaning(rest, y); }
      StarThen(Collapse(rest), rest, x);
      assert AllStars(p[..m]);
      StarRunIsOneStar(p, m, x);
    } else if p != "" && x != "" {
      assert Collapse(p)[1..] == Collapse(p[1..]);
      CollapseKeepsMeaning(p[1..], x[1..]);
    }
  }

  lemma {:induction false} CollapseSegsKeepMeaning(ps: seq<Seg>, xs: seq<string>)
    ensures SegsMatch(CollapseSegs(ps), xs) <==> SegsMatch(ps, xs)
    decreases |ps|, |xs|
  {
    if ps != [] {
      assert CollapseSegs(ps)[1..] == CollapseSegs(ps[1..]);
      if ps[0].Plain? && xs != [] {
        CollapseKeepsMeaning(ps[0].pattern, xs[0]);
        CollapseSegsKeepMeaning(ps[1..], xs[1..]);
      } else if ps[0].Deep? && |ps| > 1 {
        CollapseSegsKeepMeaning(ps[1..], xs);
        if xs != [] { CollapseSegsKeepMeaning(ps, xs[1..]); }
      }
    }
  }

  function PlainHead(p: string): (Item, nat)
    requires p != ""
  {
    if p[0] == '*' then (RunInSegment, StarRun(p)) else (PlainItem(p[0]), 1)
  }

  lemma StarRunOfPlain(p: string, t: string)
    requires p != "" && '/' !in p && (t == "" || t[0] == '/')
    ensures StarRun(p + t) == StarRun(p)
    ensures StarRun(p) < |p + t| && (p + t)[StarRun(p)] == '/' ==> StarRun(p) == |p|
    ensures StarRun(p) == |p| ==> AllStars(p)
  {
    var m := StarRun(p);
    assert m < |p + t| ==> (p + t)[m] == if m < |p| then p[m] else t[0];
    StarRunIs(p + t, m);
  }

  lemma PlainHeadIs(bounded: bool, p: string, t: string, s: string, item: Item, width: nat)
    requires p != "" && '/' !in p && (t == "" || t[0] == '/') && s == p + t
    requires !(bounded && AllStars(p) && |p| >= 2) && (item, width) == PlainHead(p)
    ensures StarRun(s) == StarRun(p) && (s[0] == '*' <==> StarRun(p) > 0) && (item, width) == ScanOne(bounded, s, StarRun(p))
    ensures !EndsSegment(item)
  {
    StarRunOfPlain(p, t);
  }

  lemma ScanOfPlainHead(bounded: bool, p: string, t: string)
    requires p != "" && '/' !in p && (t == "" || t[0] == '/')
    requires !(bounded && AllStars(p) && |p| >= 2)
    ensures Scan(bounded, p + t) == [PlainHead(p).0] + Scan(false, p[PlainHead(p).1..] + t)
  {
    var (item, width) := PlainHead(p);
    PlainHeadIs(bounded, p, t, p + t, item, width);
    DropConcat(p, t, width);
    ScanUnfold(bounded, p + t, StarRun(p), item, width, p[width..] + t);
  }

  lemma CollapseHead(p: string)
    requires p != ""
    ensures PlainItems(Collapse(p)) == [PlainHead(p).0] + PlainItems(Collapse(p[PlainHead(p).1..]))
  {
    assert Collapse(p)[1..] == Collapse(p[PlainHead(p).1..]);
  }

  /** Away from a spanning segment, the character scan emits one item per character or run of stars. */
  lemma {:induction false} ScanOfPlain(bounded: bool, p: string, t: string)
    requires '/' !in p && (t == "" || t[0] == '/')
    requires !(bounded && AllStars(p) && |p| >= 2)
    ensures Scan(bounded, p + t) == PlainItems(Collapse(p)) + Scan(false, t)
    decreases |p|
  {
    if p == "" {
      assert p + t == t;
      if t != "" { ScanUnfold(bounded, t, 0, Lit('/'), 1, t[1..]); ScanUnfold(false, t, 0, Lit('/'), 1, t[1..]); }
    } else {
      var (item, width) := PlainHead(p);
      ScanOfPlainHead(bounded, p, t);
      ScanOfPlain(false, p[width..], t);
      CollapseHead(p);
      Assoc([item], PlainItems(Collapse(p[width..])), Scan(false, t));
    }
  }

  lemma ScanOfDeep(p: string, t: string)
    requires AllStars(p) && |p| >= 2 && (t == "" || t[0] == '/')
    ensures Scan(true, p + t) == if t == "" then [AnyRun] else [DirsOpt] + Scan(true, t[1..])
  {
    var s := p + t;
    StarRunIs(s, |p|);
    if t == "" {
      ScanUnfold(true, s, |p|, AnyRun, |p|, "");
    } else {
      assert s[|p|] == '/' && s[|p| + 1..] == t[1..];
      ScanUnfold(true, s, |p|, DirsOpt, |p| + 1, t[1..]);
    }
  }

  /** Scanning a pattern character by character compiles it segment by segment. */
  lemma {:induction false} ScanIsCompiled(segments: seq<string>)
    requires |segments| >= 1 && Free(segments, '/')
    ensures Scan(true, Join(segments, '/')) == Compiled(CollapseSegs(PersonaSegs(segments)), DirsOpt)
  {
    var p, cs := segments[0], CollapseSegs(PersonaSegs(segments));
    var t := if |segments| == 1 then "" else "/" + Join(segments[1..], '/');
    assert Join(segments, '/') == p + t;
    assert cs[1..] == CollapseSegs(PersonaSegs(segments[1..]));
    var rest := Compiled(cs[1..], DirsOpt);
    if |segments| > 1 {
      assert t[1..] == Join(segments[1..], '/');
      ScanIsCompiled(segments[1..]);
    }
    if cs[0].Deep? {
      ScanOfDeep(p, t);
      assert |segments| == 1 ==> [AnyRun] + rest == [AnyRun];
    } else {
      ScanOfPlain(true, p, t);
      var plain := PlainItems(Collapse(p));
      if |segments| == 1 {
        assert plain + [] + [] == plain + [];
      } else {
        ScanUnfold(false, t, 0, Lit('/'), 1, t[1..]);
        Assoc(plain, [Lit('/')], rest);
      }
    }
  }

  lemma ReadSource(items: seq<Item>, source: string)
    requires source == "^" + Emit(items) + "$"
    ensures |source| >= 2 && Read(source[1..|source| - 1]) == Some(items)
  {
    assert source[1..|source| - 1] == Emit(items);
    ReadOfEmit(items);
  }

  /** The claim reader's regex accepts a one-line path iff the segments match; only `**` itself spans. */
  lemma ClaimsGlobMeaning(pattern: string, path: string)
    requires OneLine(path)
    ensures |ClaimsSource(pattern)| >= 2
    ensures RegexTest(ClaimsSource(pattern), path)
       <==> SegsMatch(ClaimsSegs(Split(pattern, '/')), Split(path, '/'))
  {
    var ps := ClaimsSegs(Split(pattern, '/'));
    SplitSpec(pattern, '/');
    SplitSpec(path, '/');
    ReadSource(Compiled(ps, DirsStar), ClaimsSource(pattern));
    CompiledMeansSegments(DirsStar, ps, Split(path, '/'));
  }

  /** The persona selector's regex, when it is not refused, spans on every segment of two or more stars. */
  lemma PersonaGlobMeaning(glob: string, path: string)
    requires OneLine(path) && PersonaSource(glob).Some?
    ensures |PersonaSource(glob).value| >= 2
    ensures RegexTest(PersonaSource(glob).value, path)
       <==> SegsMatch(PersonaSegs(Split(glob, '/')), Split(path, '/'))
  {
    var segments := Split(glob, '/');
    var cs := CollapseSegs(PersonaSegs(segments));
    SplitSpec(glob, '/');
    SplitSpec(path, '/');
    ScanIsCompiled(segments);
    ReadSource(Scan(true, glob), PersonaSource(glob).value);
    CollapseIsSlashFree(segments);
    CompiledMeansSegments(DirsOpt, cs, Split(path, '/'));
    CollapseSegsKeepMeaning(PersonaSegs(segments), Split(path, '/'));
  }

  lemma {:induction false} CollapseOnlyDrops(p: string, c: char)
    requires c !in p && c != '*'
    ensures c !in Collapse(p)
    decreases |p|
  {
    if p != "" && p[0] == '*' {
      CollapseOnlyDrops(p[StarRun(p)..], c);
    } else if p != "" {
      CollapseOnlyDrops(p[1..], c);
    }
  }

  lemma CollapseIsSlashFree(segments: seq<string>)
    requires Free(segments, '/')
    ensures SlashFree(CollapseSegs(PersonaSegs(segments)))
  {
    forall i | 0 <= i < |segments| ensures '/' !in Collapse(segments[i]) { CollapseOnlyDrops(segments[i], '/'); }
  }

  lemma SegsAgree(segments: seq<string>)
    requires forall i :: 0 <= i < |segments| && AllStars(segments[i]) ==> |segments[i]| <= 2
    ensures ClaimsSegs(segments) == PersonaSegs(segments)
  {
    forall i | 0 <= i < |segments| ensures ClaimsSeg(segments[i]) == PersonaSeg(segments[i]) {
      if AllStars(segments[i]) && |segments[i]| == 2 { assert segments[i] == "**"; }
    }
  }

  /** The compilers agree on every one-line path unless a segment is a run of three or more stars. */
  lemma GlobCompilersAgree(pattern: string, path: string)
    requires OneLine(path) && PersonaSource(pattern).Some?
    requires forall i :: 0 <= i < |Split(pattern, '/')| && AllStars(Split(pattern, '/')[i]) ==> |Split(pattern, '/')[i]| <= 2
    ensures |ClaimsSource(pattern)| >= 2 && |PersonaSource(pattern).value| >= 2
    ensures RegexTest(ClaimsSource(pattern), path) <==> RegexTest(PersonaSource(pattern).value, path)
  {
    ClaimsGlobMeaning(pattern, path);
    PersonaGlobMeaning(pattern, path);
    SegsAgree(Split(pattern, '/'));
  }

  lemma {:induction false} SpanningIsWider(segments: seq<string>, xs: seq<string>)
    requires SegsMatch(ClaimsSegs(segments), xs)
    ensures SegsMatch(PersonaSegs(segments), xs)
    decreases |segments|, |xs|
  {
    if segments != [] {
      var cs, ps := ClaimsSegs(segments), PersonaSegs(segments);
      assert cs[1..] == ClaimsSegs(segments[1..]) && ps[1..] == PersonaSegs(segments[1..]);
      if cs[0].Plain? {
        SpanningIsWider(segments[1..], xs[1..]);
      } else if |segments| > 1 {
        if SegsMatch(cs[1..], xs) { SpanningIsWider(segments[1..], xs); } else { SpanningIsWider(segments, xs[1..]); }
      }
    }
  }

  /** Whatever the pattern, a one-line path the claim reader accepts is accepted by the persona selector too. */
  lemma ClaimsWithinPersona(pattern: string, path: string)
    requires OneLine(path) && PersonaSource(pattern).Some?
    ensures |ClaimsSource(pattern)| >= 2 && |PersonaSource(pattern).value| >= 2
    ensures RegexTest(ClaimsSource(pattern), path) ==> RegexTest(PersonaSource(pattern).value, path)
  {
    ClaimsGlobMeaning(pattern, path);
    PersonaGlobMeaning(pattern, path);
    if SegsMatch(ClaimsSegs(Split(pattern, '/')), Split(path, '/')) {
      SpanningIsWider(Split(pattern, '/'), Split(path, '/'));
    }
  }

  /** Three stars: one segment for the claim reader, any number of them for the persona selector. */
  lemma ThreeStarsDiffer()
    ensures |ClaimsSource("***")| >= 2 && !RegexTest(ClaimsSource("***"), "a/b")
    ensures PersonaSource("***").Some? && |PersonaSource("***").value| >= 2
    ensures RegexTest(PersonaSource("***").value, "a/b")
  {
    SplitOfJoin(["***"], '/');
    SplitOfJoin(["a", "b"], '/');
    assert Join(["a", "b"], '/') == "a/b";
    StarRunIs("***", 3);
    ScanUnfold(true, "***", 3, AnyRun, 3, "");
    ClaimsGlobMeaning("***", "a/b");
    PersonaGlobMeaning("***", "a/b");
    assert ClaimsSegs(["***"])[1..] == [];
  }
}
