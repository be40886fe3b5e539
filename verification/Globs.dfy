/** The two glob compilers: what a compiled pattern accepts, segment by segment, and where they agree. */
module Globs {
  import opened Text

  // ----- The fragment of regular expressions that both compilers emit -----

  datatype Item =
    | Lit(c: char)     // an escaped or plain character
    | OneInSegment     // [^/]
    | RunInSegment     // [^/]*
    | AnyRun           // .*
    | DirsStar         // (?:[^/]*/)*
    | DirsOpt          // (?:.*/)?

  const ONE := "[^/]"
  const RUN := "[^/]*"
  const ANY := ".*"
  const DIRS_STAR := "(?:[^/]*/)*"
  const DIRS_OPT := "(?:.*/)?"

  predicate Special(c: char)
  {
    c in "\\^$.*+?()[]{}|"
  }

  function EmitItem(item: Item): string
  {
    match item
    case Lit(c) => if Special(c) then ['\\', c] else [c]
    case OneInSegment => ONE
    case RunInSegment => RUN
    case AnyRun => ANY
    case DirsStar => DIRS_STAR
    case DirsOpt => DIRS_OPT
  }

  function Emit(items: seq<Item>): string
  {
    if items == [] then "" else EmitItem(items[0]) + Emit(items[1..])
  }

  /** The item a regular-expression reader sees first in `source`, and how many characters it takes. */
  function ReadItem(source: string): Option<(Item, nat)>
  {
    if source == "" then None
    else if DIRS_STAR <= source then Some((DirsStar, |DIRS_STAR|))
    else if DIRS_OPT <= source then Some((DirsOpt, |DIRS_OPT|))
    else if RUN <= source then Some((RunInSegment, |RUN|))
    else if ONE <= source then Some((OneInSegment, |ONE|))
    else if ANY <= source then Some((AnyRun, |ANY|))
    else if source[0] == '\\' && |source| >= 2 then Some((Lit(source[1]), 2))
    else if Special(source[0]) then None
    else Some((Lit(source[0]), 1))
  }

  function Read(source: string): Option<seq<Item>>
    decreases |source|
  {
    if source == "" then Some([]) else
    match ReadItem(source)
    case None => None
    case Some((item, width)) =>
      if 0 < width <= |source| then
        var rest := Read(source[width..]);
        if rest.Some? then Some([item] + rest.value) else None
      else None
  }

  lemma ReadItemOfEmit(item: Item, rest: string)
    requires rest != "" ==> rest[0] != '*'
    ensures ReadItem(EmitItem(item) + rest) == Some((item, |EmitItem(item)|))
  {
    var source := EmitItem(item) + rest;
    match item {
      case Lit(c) => assert source[0] == if Special(c) then '\\' else c;
      case OneInSegment => assert source[0] == '[' && (|source| > 4 ==> source[4] == rest[0]);
      case RunInSegment => assert source[0] == '[';
      case AnyRun => assert source[0] == '.';
      case DirsStar => assert source[..11] == DIRS_STAR;
      case DirsOpt => assert source[3] == '.';
    }
  }

  /** Escaping is right: reading the emitted source gives back exactly the items that were emitted. */
  lemma {:induction false} ReadOfEmit(items: seq<Item>)
    ensures Read(Emit(items)) == Some(items)
    ensures Emit(items) != "" ==> Emit(items)[0] != '*'
  {
    if items != [] {
      var item, rest := items[0], Emit(items[1..]);
      ReadOfEmit(items[1..]);
      ReadItemOfEmit(item, rest);
      assert Emit(items)[|EmitItem(item)|..] == rest;
      assert [item] + items[1..] == items;
    }
  }

  // ----- What an item list accepts -----

  predicate LineEnd(c: char)
  {
    c == '\n' || c == '\r' || c == '\U{2028}' || c == '\U{2029}'
  }

  /** The text holds no character that the dot of a regular expression refuses. */
  predicate OneLine(s: string)
  {
    forall i :: 0 <= i < |s| ==> !LineEnd(s[i])
  }

  ghost predicate Matches(items: seq<Item>, s: string)
    decreases |items|, |s|
  {
    if items == [] then s == "" else
    match items[0]
    case Lit(c) => s != "" && s[0] == c && Matches(items[1..], s[1..])
    case OneInSegment => s != "" && s[0] != '/' && Matches(items[1..], s[1..])
    case RunInSegment => Matches(items[1..], s) || (s != "" && s[0] != '/' && Matches(items, s[1..]))
    case AnyRun => Matches(items[1..], s) || (s != "" && !LineEnd(s[0]) && Matches(items, s[1..]))
    case DirsStar =>
      || Matches(items[1..], s)
      || exists k :: 0 <= k < |s| && s[k] == '/' && '/' !in s[..k] && Matches(items, s[k + 1..])
    case DirsOpt =>
      || Matches(items[1..], s)
      || exists k :: 0 <= k < |s| && s[k] == '/' && OneLine(s[..k]) && Matches(items[1..], s[k + 1..])
  }

  /** The whole-string test that both compilers ask for: an anchored source, read and matched. */
  ghost predicate RegexTest(source: string, s: string)
    requires |source| >= 2
  {
    var items := Read(source[1..|source| - 1]);
    items.Some? && Matches(items.value, s)
  }

  // ----- The meaning of a glob, segment by segment -----

  /** `*` stands for any run of characters of one segment and `?` for one of them. */
  ghost predicate SegGlob(p: string, x: string)
    decreases |p|, |x|
  {
    if p == "" then x == ""
    else if p[0] == '*' then SegGlob(p[1..], x) || (x != "" && SegGlob(p, x[1..]))
    else x != "" && (p[0] == '?' || p[0] == x[0]) && SegGlob(p[1..], x[1..])
  }

  datatype Seg = Deep | Plain(pattern: string)

  predicate SlashFree(ps: seq<Seg>)
  {
    forall i :: 0 <= i < |ps| && ps[i].Plain? ==> '/' !in ps[i].pattern
  }

  /** `Deep` spans zero or more segments, or one or more when it comes last. */
  ghost predicate SegsMatch(ps: seq<Seg>, xs: seq<string>)
    decreases |ps|, |xs|
  {
    if ps == [] then xs == []
    else if ps[0].Plain? then xs != [] && SegGlob(ps[0].pattern, xs[0]) && SegsMatch(ps[1..], xs[1..])
    else if |ps| == 1 then xs != []
    else SegsMatch(ps[1..], xs) || (xs != [] && SegsMatch(ps, xs[1..]))
  }

  function PlainItem(c: char): Item
  {
    if c == '*' then RunInSegment else if c == '?' then OneInSegment else Lit(c)
  }

  function PlainItems(p: string): (items: seq<Item>)
    ensures |items| == |p| && forall i :: 0 <= i < |p| ==> items[i] == PlainItem(p[i])
  {
    if p == "" then [] else [PlainItem(p[0])] + PlainItems(p[1..])
  }

  /** The items of a pattern's segments; `dirs` is what a spanning segment compiles to before a slash. */
  function Compiled(ps: seq<Seg>, dirs: Item): seq<Item>
  {
    if ps == [] then []
    else if ps[0].Deep? then [if |ps| == 1 then AnyRun else dirs] + Compiled(ps[1..], dirs)
    else PlainItems(ps[0].pattern) + (if |ps| == 1 then [] else [Lit('/')]) + Compiled(ps[1..], dirs)
  }

  // ----- A compiled segment list means what the segments mean -----

  /** A plain segment's items take exactly one segment of the text off. */
  lemma {:induction false} PlainTakesSegment(p: string, rest: seq<Item>, x: string, t: string)
    requires '/' !in p && '/' !in x
    requires t == "" || t[0] == '/'
    requires rest == [] || rest[0] == Lit('/')
    ensures Matches(PlainItems(p) + rest, x + t) <==> SegGlob(p, x) && Matches(rest, t)
    decreases |p|, |x|
  {
    var items := PlainItems(p) + rest;
    if p == "" {
      assert items == rest;
      if x == "" { assert x + t == t; } else { assert (x + t)[0] == x[0]; }
    } else {
      assert items[1..] == PlainItems(p[1..]) + rest;
      if x == "" {
        assert x + t == t;
        if p[0] == '*' { PlainTakesSegment(p[1..], rest, x, t); }
      } else {
        assert (x + t)[0] == x[0] && (x + t)[1..] == x[1..] + t;
        PlainTakesSegment(p[1..], rest, x[1..], t);
        if p[0] == '*' {
          PlainTakesSegment(p[1..], rest, x, t);
          PlainTakesSegment(p, rest, x[1..], t);
        }
      }
    }
  }

  lemma {:induction false} AnyRunTakesAll(s: string)
    requires OneLine(s)
    ensures Matches([AnyRun], s)
  {
    assert [AnyRun][1..] == [];
    if s != "" { AnyRunTakesAll(s[1..]); }
  }

  /** `x` is the first segment of `s` and `t` is what follows its slash. */
  predicate Cut(s: string, x: string, t: string)
  {
    s == x + ['/'] + t && '/' !in x
  }

  lemma JoinStep(xs: seq<string>)
    requires |xs| >= 2 && Free(xs, '/')
    ensures Cut(Join(xs, '/'), xs[0], Join(xs[1..], '/'))
    ensures Free(xs[1..], '/')
  {
  }

  lemma CutFacts(s: string, x: string, t: string)
    requires Cut(s, x, t)
    ensures |s| == |x| + 1 + |t| && s[|x|] == '/' && s[|x| + 1..] == t && s[..|x|] == x
    ensures forall i :: 0 <= i < |x| ==> s[i] == x[i] != '/'
    ensures forall i :: 0 <= i < |t| ==> s[|x| + 1 + i] == t[i] && s[|x| + 1 + i + 1..] == t[i + 1..]
    ensures OneLine(s) ==> OneLine(t)
  {
  }

  lemma StarStep(rest: seq<Item>, s: string, x: string, t: string)
    requires Cut(s, x, t)
    ensures Matches([DirsStar] + rest, s) <==> Matches(rest, s) || Matches([DirsStar] + rest, t)
  {
    CutFacts(s, x, t);
    assert ([DirsStar] + rest)[1..] == rest;
    forall k | 0 <= k < |s| && s[k] == '/' && '/' !in s[..k]
      ensures k == |x|
    {
      assert forall j :: 0 <= j < k ==> s[j] in s[..k];
    }
  }

  /** A slash at which an optional run of directories may end, with the rest matching after it. */
  ghost predicate EndsDirs(rest: seq<Item>, s: string, k: nat)
  {
    k < |s| && s[k] == '/' && OneLine(s[..k]) && Matches(rest, s[k + 1..])
  }

  lemma OptMatches(rest: seq<Item>, s: string)
    ensures Matches([DirsOpt] + rest, s) <==> Matches(rest, s) || exists k :: 0 <= k < |s| && EndsDirs(rest, s, k)
  {
    assert ([DirsOpt] + rest)[1..] == rest;
    assert forall k :: 0 <= k < |s| ==>
      (EndsDirs(rest, s, k) <==> s[k] == '/' && OneLine(s[..k]) && Matches(rest, s[k + 1..]));
  }

  lemma EndsDirsAt(rest: seq<Item>, s: string, x: string, t: string, k: nat)
    requires Cut(s, x, t) && OneLine(s) && k < |s|
    ensures EndsDirs(rest, s, k) <==> if k < |x| then false else if k == |x| then Matches(rest, t) else EndsDirs(rest, t, k - |x| - 1)
  {
    CutFacts(s, x, t);
  }

  lemma OptStep(rest: seq<Item>, s: string, x: string, t: string)
    requires Cut(s, x, t) && OneLine(s)
    ensures Matches([DirsOpt] + rest, s) <==> Matches(rest, s) || Matches([DirsOpt] + rest, t)
  {
    OptMatches(rest, s);
    OptMatches(rest, t);
    assert |s| == |x| + 1 + |t|;
    forall k | 0 <= k < |s|
      ensures EndsDirs(rest, s, k) <==> if k < |x| then false else if k == |x| then Matches(rest, t) else EndsDirs(rest, t, k - |x| - 1)
    {
      EndsDirsAt(rest, s, x, t, k);
    }
    if Matches(rest, t) { assert EndsDirs(rest, s, |x|); }
    if k :| 0 <= k < |t| && EndsDirs(rest, t, k) { assert EndsDirs(rest, s, |x| + 1 + k); }
  }

  /** Both directory items may stop here, or take the first segment and its slash and go on. */
  lemma DirsStep(dirs: Item, rest: seq<Item>, s: string, x: string, t: string)
    requires dirs == DirsStar || dirs == DirsOpt
    requires Cut(s, x, t) && OneLine(s)
    ensures Matches([dirs] + rest, s) <==> Matches(rest, s) || Matches([dirs] + rest, t)
  {
    if dirs == DirsStar { StarStep(rest, s, x, t); } else { OptStep(rest, s, x, t); }
  }

  /** The two directory items take off any number of leading segments, but never the last one. */
  lemma {:induction false} DirsTakeSegments(dirs: Item, rest: seq<Item>, xs: seq<string>)
    requires dirs == DirsStar || dirs == DirsOpt
    requires |xs| >= 1 && Free(xs, '/') && OneLine(Join(xs, '/'))
    ensures Matches([dirs] + rest, Join(xs, '/')) <==>
            exists j :: 0 <= j < |xs| && Matches(rest, Join(xs[j..], '/'))
  {
    var s := Join(xs, '/');
    assert xs[0..] == xs;
    if |xs| == 1 {
      assert ([dirs] + rest)[1..] == rest;
      assert forall k :: 0 <= k < |s| ==> s[k] != '/';
    } else {
      JoinStep(xs);
      CutFacts(s, xs[0], Join(xs[1..], '/'));
      DirsStep(dirs, rest, s, xs[0], Join(xs[1..], '/'));
      DirsTakeSegments(dirs, rest, xs[1..]);
      assert forall j :: 0 <= j < |xs[1..]| ==> xs[1..][j..] == xs[j + 1..];
      if Matches(rest, s) { assert Matches(rest, Join(xs[0..], '/')); }
      if j :| 0 <= j < |xs[1..]| && Matches(rest, Join(xs[1..][j..], '/')) {
        assert Matches(rest, Join(xs[j + 1..], '/'));
      }
      if j :| 0 <= j < |xs| && Matches(rest, Join(xs[j..], '/')) && j > 0 {
        assert Matches(rest, Join(xs[1..][j - 1..], '/'));
      }
    }
  }

  /** A spanning segment that is not last leaves any nonempty tail of the segments. */
  lemma {:induction false} DeepSpans(ps: seq<Seg>, xs: seq<string>)
    requires |ps| >= 2 && ps[0].Deep? && |xs| >= 1
    ensures SegsMatch(ps, xs) <==> exists j :: 0 <= j < |xs| && SegsMatch(ps[1..], xs[j..])
  {
    assert xs[0..] == xs;
    NothingLeft(ps[1..]);
    if |xs| == 1 {
      assert xs[1..] == [];
      NothingLeft(ps);
    } else {
      DeepSpans(ps, xs[1..]);
      assert forall j :: 0 <= j < |xs[1..]| ==> xs[1..][j..] == xs[j + 1..];
      if j :| 0 <= j < |xs| && SegsMatch(ps[1..], xs[j..]) && j > 0 {
        assert SegsMatch(ps[1..], xs[1..][j - 1..]);
      }
    }
  }

  lemma {:induction false} NothingLeft(ps: seq<Seg>)
    requires ps != []
    ensures !SegsMatch(ps, [])
  {
    if ps[0].Deep? && |ps| > 1 { NothingLeft(ps[1..]); }
  }

  /** Either way of compiling a spanning segment gives a regex with the segment-by-segment meaning. */
  lemma {:induction false} CompiledMeansSegments(dirs: Item, ps: seq<Seg>, xs: seq<string>)
    requires dirs == DirsStar || dirs == DirsOpt
    requires SlashFree(ps) && |ps| >= 1 && |xs| >= 1 && Free(xs, '/') && OneLine(Join(xs, '/'))
    ensures Matches(Compiled(ps, dirs), Join(xs, '/')) <==> SegsMatch(ps, xs)
    decreases |ps|
  {
    var s := Join(xs, '/');
    var rest := Compiled(ps[1..], dirs);
    if ps[0].Deep? {
      if |ps| == 1 {
        AnyRunTakesAll(s);
        assert Compiled(ps, dirs) == [AnyRun];
      } else {
        DirsTakeSegments(dirs, rest, xs);
        DeepSpans(ps, xs);
        forall j | 0 <= j < |xs|
          ensures Matches(rest, Join(xs[j..], '/')) <==> SegsMatch(ps[1..], xs[j..])
        {
          TailIsOneLine(xs, j);
          CompiledMeansSegments(dirs, ps[1..], xs[j..]);
        }
      }
    } else {
      var p := ps[0].pattern;
      var more := (if |ps| == 1 then [] else [Lit('/')]) + rest;
      assert Compiled(ps, dirs) == PlainItems(p) + more;
      if |xs| == 1 {
        assert s == xs[0] + "";
        PlainTakesSegment(p, more, xs[0], "");
        assert xs[1..] == [];
        if |ps| > 1 { NothingLeft(ps[1..]); }
      } else {
        JoinStep(xs);
        var t := "/" + Join(xs[1..], '/');
        Assoc(xs[0], "/", Join(xs[1..], '/'));
        PlainTakesSegment(p, more, xs[0], t);
        if |ps| > 1 {
          assert more[1..] == rest && t[1..] == Join(xs[1..], '/');
          TailIsOneLine(xs, 1);
          CompiledMeansSegments(dirs, ps[1..], xs[1..]);
        }
      }
    }
  }

  lemma {:induction false} TailIsOneLine(xs: seq<string>, j: nat)
    requires j < |xs| && Free(xs, '/') && OneLine(Join(xs, '/'))
    ensures OneLine(Join(xs[j..], '/'))
  {
    if j == 0 {
      assert xs[0..] == xs;
    } else {
      JoinStep(xs);
      CutFacts(Join(xs, '/'), xs[0], Join(xs[1..], '/'));
      TailIsOneLine(xs[1..], j - 1);
      assert xs[1..][j - 1..] == xs[j..];
    }
  }
}
