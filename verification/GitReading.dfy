/** What a plainly written git command line addresses, in its own terms. */
module GitReading {
  import opened Text
  import opened GitTargets

  // ----- Directories and how they are written -----

  datatype Segment = Down(name: string) | Up | Here | Gap

  /** A path as written: from the directory so far, or from the root. */
  datatype Written = Written(rooted: bool, segments: seq<Segment>)

  predicate PlainName(name: string)
  {
    Word(name) && '/' !in name && !Unexpanded(name) && name != "." && name != ".." && name != "~"
  }

  predicate PlainPath(w: Written)
  {
    && (forall i :: 0 <= i < |w.segments| && w.segments[i].Down? ==> PlainName(w.segments[i].name))
    && (!w.rooted ==> w.segments != [] && !w.segments[0].Gap?)
  }

  function SegmentText(s: Segment): string
  {
    match s
    case Down(name) => name
    case Up => ".."
    case Here => "."
    case Gap => ""
  }

  function SegmentTexts(segments: seq<Segment>): (r: seq<string>)
    ensures |r| == |segments| && forall i :: 0 <= i < |r| ==> r[i] == SegmentText(segments[i])
  {
    seq(|segments|, i requires 0 <= i < |segments| => SegmentText(segments[i]))
  }

  function TextOf(w: Written): string
  {
    (if w.rooted then "/" else "") + Join(SegmentTexts(w.segments), '/')
  }

  function Go(from: Path, s: Segment): Path
  {
    match s
    case Down(name) => from + [name]
    case Up => if from == [] then [] else from[..|from| - 1]
    case Here => from
    case Gap => from
  }

  function GoAll(from: Path, segments: seq<Segment>): Path
    decreases |segments|
  {
    if segments == [] then from else GoAll(Go(from, segments[0]), segments[1..])
  }

  /** Where a written path leads from a directory. */
  function Lead(from: Path, w: Written): Path
  {
    GoAll(if w.rooted then [] else from, w.segments)
  }

  lemma {:induction false} WalkGoes(from: Path, segments: seq<Segment>)
    requires forall i :: 0 <= i < |segments| && segments[i].Down? ==> PlainName(segments[i].name)
    ensures Walk(from, SegmentTexts(segments)) == GoAll(from, segments)
    decreases |segments|
  {
    if segments != [] {
      assert SegmentTexts(segments)[1..] == SegmentTexts(segments[1..]);
      assert segments[0] == segments[..1][0];
      WalkGoes(Go(from, segments[0]), segments[1..]);
    }
  }

  lemma TextsAreFree(segments: seq<Segment>)
    requires forall i :: 0 <= i < |segments| && segments[i].Down? ==> PlainName(segments[i].name)
    ensures Free(SegmentTexts(segments), '/')
  {
  }

  /** A rooted path splits into an empty part and its segments. */
  lemma RootedSplit(segments: seq<Segment>, text: string)
    requires forall i :: 0 <= i < |segments| && segments[i].Down? ==> PlainName(segments[i].name)
    requires text == "/" + Join(SegmentTexts(segments), '/')
    ensures forall base :: Walk(base, Split(text, '/')) == GoAll(base, segments)
  {
    var texts := if segments == [] then [""] else SegmentTexts(segments);
    TextsAreFree(segments);
    JoinCons("", texts, '/');
    assert "" + ['/'] + Join(texts, '/') == text;
    SplitOfJoin([""] + texts, '/');
    forall base ensures Walk(base, [""] + texts) == GoAll(base, segments) {
      assert ([""] + texts)[1..] == texts && [""][1..] == [];
      WalkGoes(base, segments);
    }
  }

  lemma {:induction false} JoinIsPlain(segments: seq<Segment>)
    requires forall i :: 0 <= i < |segments| && segments[i].Down? ==> PlainName(segments[i].name)
    ensures QuoteFree(Join(SegmentTexts(segments), '/')) && !Unexpanded(Join(SegmentTexts(segments), '/'))
  {
    var texts := SegmentTexts(segments);
    if segments != [] {
      var first := texts[0];
      assert QuoteFree(first) && !Unexpanded(first) by { assert segments[0].Down? ==> PlainName(segments[0].name); }
      JoinIsPlain(segments[1..]);
      assert SegmentTexts(segments[1..]) == texts[1..];
      if |segments| > 1 {
        PlainConcat(first, Join(texts[1..], '/'), Join(texts, '/'));
      } else {
        assert Join(texts, '/') == first;
      }
    }
  }

  lemma PlainConcat(a: string, b: string, s: string)
    requires s == a + ['/'] + b && QuoteFree(a) && !Unexpanded(a) && QuoteFree(b) && !Unexpanded(b)
    ensures QuoteFree(s) && !Unexpanded(s)
  {
  }

  /** How a relative path begins. */
  lemma FirstOfJoin(segments: seq<Segment>, text: string)
    requires segments != [] && !segments[0].Gap? && (segments[0].Down? ==> PlainName(segments[0].name))
    requires text == Join(SegmentTexts(segments), '/')
    ensures text != "" && !Rooted(text) && !StartsWithTilde(text)
  {
    var first, texts := SegmentText(segments[0]), SegmentTexts(segments);
    var more := if |segments| > 1 then ['/'] + Join(texts[1..], '/') else "";
    assert text == first + more by { if |segments| > 1 { Assoc(first, ['/'], Join(texts[1..], '/')); } }
    FirstChars(first, more, text);
  }

  lemma FirstChars(first: string, more: string, text: string)
    requires text == first + more && first != "" && '/' !in first && first != "~"
    ensures text != "" && !Rooted(text) && !StartsWithTilde(text)
  {
    assert text[0] == first[0] && first[0] in first;
    if |first| == 1 {
      assert first == [first[0]] && "~" == ['~'];
    } else {
      assert text[1] == first[1] && first[1] in first && "~/"[1] == '/';
    }
  }

  /** A plainly written path is a plain word, and resolves to where it leads. */
  lemma WrittenResolves(home: string, from: Path, w: Written)
    requires PlainPath(w)
    ensures Word(TextOf(w)) && !Unexpanded(TextOf(w))
    ensures Resolve(home, from, TextOf(w)) == Lead(from, w)
    ensures AbsoluteAsWritten(home, TextOf(w)) <==> w.rooted
  {
    JoinIsPlain(w.segments);
    if w.rooted { RootedResolves(home, from, w, TextOf(w)); } else { RelativeResolves(home, from, w, TextOf(w)); }
  }

  lemma RootedResolves(home: string, from: Path, w: Written, text: string)
    requires PlainPath(w) && w.rooted && text == TextOf(w)
    requires QuoteFree(Join(SegmentTexts(w.segments), '/')) && !Unexpanded(Join(SegmentTexts(w.segments), '/'))
    ensures Word(text) && !Unexpanded(text) && Resolve(home, from, text) == Lead(from, w) && AbsoluteAsWritten(home, text)
  {
    RootedSplit(w.segments, text);
    assert text[0] == '/' && forall i :: 1 <= i < |text| ==> text[i] == Join(SegmentTexts(w.segments), '/')[i - 1];
    assert Expand(home, text) == text && Rooted(text);
  }

  lemma RelativeResolves(home: string, from: Path, w: Written, text: string)
    requires PlainPath(w) && !w.rooted && text == TextOf(w)
    requires QuoteFree(Join(SegmentTexts(w.segments), '/')) && !Unexpanded(Join(SegmentTexts(w.segments), '/'))
    ensures Word(text) && !Unexpanded(text) && Resolve(home, from, text) == Lead(from, w) && !AbsoluteAsWritten(home, text)
  {
    assert text == Join(SegmentTexts(w.segments), '/');
    FirstOfJoin(w.segments, text);
    TextsAreFree(w.segments);
    SplitOfJoin(SegmentTexts(w.segments), '/');
    WalkGoes(from, w.segments);
  }

  // ----- Paths in the home directory, and quotes -----

  lemma {:induction false} GoConcat(from: Path, a: seq<Segment>, b: seq<Segment>)
    ensures GoAll(from, a + b) == GoAll(GoAll(from, a), b)
    decreases |a|
  {
    if a == [] {
      assert a + b == b;
    } else {
      assert (a + b)[1..] == a[1..] + b;
      GoConcat(Go(from, a[0]), a[1..], b);
    }
  }

  lemma {:induction false} JoinTexts(a: seq<Segment>, b: seq<Segment>)
    requires a != [] && b != []
    ensures Join(SegmentTexts(a + b), '/') == Join(SegmentTexts(a), '/') + ['/'] + Join(SegmentTexts(b), '/')
  {
    var first := SegmentText(a[0]);
    assert SegmentTexts(a + b) == [first] + SegmentTexts(a[1..] + b);
    JoinCons(first, SegmentTexts(a[1..] + b), '/');
    if |a| == 1 {
      assert a[1..] + b == b && SegmentTexts(a) == [first];
    } else {
      var rest := Join(SegmentTexts(a[1..]), '/');
      JoinTexts(a[1..], b);
      assert SegmentTexts(a) == [first] + SegmentTexts(a[1..]);
      JoinCons(first, SegmentTexts(a[1..]), '/');
      Assoc(first + ['/'], rest, ['/'] + Join(SegmentTexts(b), '/'));
      Assoc(first + ['/'], rest, ['/']);
      Assoc(rest, ['/'], Join(SegmentTexts(b), '/'));
      Assoc(first + ['/'] + rest, ['/'], Join(SegmentTexts(b), '/'));
    }
  }

  /** A rooted home directory and a path in it, put together. */
  function Under(home: Written, w: Written): Written
  {
    Written(true, (if home.segments == [] then [Gap] else home.segments) + w.segments)
  }

  lemma UnderText(home: Written, w: Written)
    requires PlainPath(home) && home.rooted && PlainPath(w) && !w.rooted
    ensures PlainPath(Under(home, w)) && TextOf(Under(home, w)) == TextOf(home) + "/" + TextOf(w)
    ensures Lead([], Under(home, w)) == Lead(Lead([], home), w)
  {
    var top := if home.segments == [] then [Gap] else home.segments;
    GoConcat([], top, w.segments);
    JoinTexts(top, w.segments);
    var texts, rest := Join(SegmentTexts(top), '/'), Join(SegmentTexts(w.segments), '/');
    assert texts == Join(SegmentTexts(home.segments), '/') by { if home.segments == [] { assert SegmentTexts(top) == [""]; } }
    assert TextOf(w) == rest;
    Assoc("/", texts, "/" + rest);
    Assoc(texts, "/", rest);
    Assoc("/", texts, "/");
    Assoc("/" + texts, "/", rest);
  }

  /** A tilde alone is the home directory, and a path after it leads on from there, whatever the directory so far. */
  lemma HomeResolves(home: Written, w: Written, from: Path)
    requires PlainPath(home) && home.rooted && PlainPath(w) && !w.rooted
    ensures Resolve(TextOf(home), from, "~/" + TextOf(w)) == Lead(Lead([], home), w)
    ensures Resolve(TextOf(home), from, "~") == Lead([], home)
    ensures AbsoluteAsWritten(TextOf(home), "~/" + TextOf(w)) && AbsoluteAsWritten(TextOf(home), "~")
  {
    var h, whole := TextOf(home), TextOf(Under(home, w));
    UnderText(home, w);
    WrittenResolves(h, from, home);
    WrittenResolves(h, from, Under(home, w));
    TildeExpands(h, TextOf(w));
    ExpandedResolves(h, from, "~/" + TextOf(w), whole);
    ExpandedResolves(h, from, "~", h);
  }

  lemma TildeExpands(home: string, rest: string)
    ensures Expand(home, "~/" + rest) == home + "/" + rest && Expand(home, "~") == home
    ensures StartsWithTilde("~/" + rest)
  {
    var p := "~/" + rest;
    assert "~/" <= p && p[1..] == "/" + rest;
    Assoc(home, "/", rest);
    assert "~"[1..] == "" && home + "" == home;
  }

  /** What expands to a rooted path resolves as that path. */
  lemma ExpandedResolves(home: string, from: Path, p: string, q: string)
    requires StartsWithTilde(p) && Expand(home, p) == q && Rooted(q) && Rooted(home)
    ensures Resolve(home, from, p) == Resolve(home, from, q) && AbsoluteAsWritten(home, p)
  {
    assert q[0] == '/' && Expand(home, q) == q;
  }

  /** An operand means the same in quotes. */
  lemma QuotesComeOff(v: string, q: char)
    requires Word(v) && Quote(q)
    ensures Unquote([q] + v + [q]) == v && Unquote([q] + v) == v && Unquote(v + [q]) == v
  {
    var t := v + [q];
    assert t[..|t| - 1] == v && StripTail(v) == v && StripLead(v) == v && StripLead(t) == t;
    assert ([q] + v)[1..] == v;
    var u := [q] + v + [q];
    assert u[1..] == t;
  }

  /** `joined` says that the operand follows an equals sign instead of being the next token. */
  // ----- Options before the subcommand -----

  datatype Option =
    | Directory(w: Written, joined: bool)
    | WorkTree(w: Written, joined: bool)
    | GitDir(w: Written, joined: bool)
    | Setting(name: string, operand: string)   // another option that takes the next token
    | Flag(name: string)                       // an option that takes nothing

  predicate PlainOption(o: Option)
  {
    match o
    case Setting(name, operand) => TakesOperand(name) && !Addresses(name)
    case Flag(name) => Word(name) && name[0] == '-' && '=' !in name && name !in OPTS_WITH_OPERAND
    case _ => PlainPath(o.w)
  }

  function NameOf(o: Option): string
  {
    match o
    case Directory(_, _) => "-C"
    case WorkTree(_, _) => "--work-tree"
    case GitDir(_, _) => "--git-dir"
    case Setting(name, _) => name
    case Flag(name) => name
  }

  function Tokens(o: Option): seq<string>
  {
    match o
    case Setting(name, operand) => [name, operand]
    case Flag(name) => [name]
    case _ => if o.joined then [NameOf(o) + "=" + TextOf(o.w)] else [NameOf(o), TextOf(o.w)]
  }

  function AllTokens(os: seq<Option>): seq<string>
  {
    if os == [] then [] else Tokens(os[0]) + AllTokens(os[1..])
  }

  // ----- What they address -----

  /** Each `-C` leads on from where the ones before it led. */
  function Destination(from: Path, os: seq<Option>): Path
    decreases |os|
  {
    if os == [] then from else Destination(if os[0].Directory? then Lead(from, os[0].w) else from, os[1..])
  }

  /** Whether the last `-C`, if there is one, is rooted. */
  function LastIsRooted(os: seq<Option>, before: bool): bool
    decreases |os|
  {
    if os == [] then before else LastIsRooted(os[1..], if os[0].Directory? then os[0].w.rooted else before)
  }

  function Trees(os: seq<Option>): seq<Written>
  {
    if os == [] then [] else (if os[0].WorkTree? then [os[0].w] else []) + Trees(os[1..])
  }

  function GitDirs(os: seq<Option>): seq<Written>
  {
    if os == [] then [] else (if os[0].GitDir? then [os[0].w] else []) + GitDirs(os[1..])
  }

  function RootedOnes(os: seq<Option>): seq<Written>
  {
    if os == [] then []
    else (if (os[0].WorkTree? || os[0].GitDir?) && os[0].w.rooted then [os[0].w] else []) + RootedOnes(os[1..])
  }

  function TextsOf(ws: seq<Written>): (r: seq<string>)
    ensures |r| == |ws| && forall i :: 0 <= i < |r| ==> r[i] == TextOf(ws[i])
  {
    seq(|ws|, i requires 0 <= i < |ws| => TextOf(ws[i]))
  }

  function LeadAll(from: Path, ws: seq<Written>): (r: seq<Path>)
    ensures |r| == |ws| && forall i :: 0 <= i < |r| ==> r[i] == Lead(from, ws[i])
  {
    seq(|ws|, i requires 0 <= i < |ws| => Lead(from, ws[i]))
  }

  predicate PlainOptions(os: seq<Option>)
  {
    forall i :: 0 <= i < |os| ==> PlainOption(os[i])
  }

  /** One option, read: what it adds to the addressing so far. */
  function Effect(a: Addressing, o: Option): Addressing
  {
    match o
    case Directory(w, _) => a.(repo := Lead(a.repo, w), absoluteBase := w.rooted)
    case WorkTree(w, _) =>
      a.(workTrees := a.workTrees + [TextOf(w)], absolute := a.absolute + if w.rooted then [TextOf(w)] else [])
    case GitDir(w, _) =>
      a.(gitDirs := a.gitDirs + [TextOf(w)], absolute := a.absolute + if w.rooted then [TextOf(w)] else [])
    case _ => a
  }

  lemma DesignatedAs(home: string, a: Addressing, o: Option)
    requires PlainOption(o) && !o.Setting? && !o.Flag?
    ensures Designate(home, a, NameOf(o), TextOf(o.w)) == Effect(a, o)
  {
    WrittenResolves(home, a.repo, o.w);
    assert a.absolute + [] == a.absolute;
  }

  lemma NamesTakeOperands()
    ensures TakesOperand("-C") && TakesOperand("--work-tree") && TakesOperand("--git-dir")
  {
    OperandNames();
    UnquoteKeeps("--git-dir");
  }

  lemma SettingIs(name: string, operand: string, args: seq<string>)
    requires TakesOperand(name) && |args| >= 2 && args[0] == name && args[1] == operand
    ensures IsOption(name) && HeadOption(args) == Opt(name, Unquote(operand), 2)
  {
    IndexOfIs(name, |name|, '=');
    assert args[1..][0] == operand;
  }

  lemma FlagIs(name: string, args: seq<string>)
    requires Word(name) && name[0] == '-' && '=' !in name && name !in OPTS_WITH_OPERAND && args != [] && args[0] == name
    ensures IsOption(name) && HeadOption(args) == Opt(name, "", 1)
  {
    UnquoteKeeps(name);
    IndexOfIs(name, |name|, '=');
  }

  /** The option at the head of its own tokens, whatever follows. */
  lemma HeadIs(o: Option, rest: seq<string>, args: seq<string>)
    requires PlainOption(o) && args == Tokens(o) + rest
    ensures args != [] && IsOption(args[0]) && HeadOption(args).width == |Tokens(o)|
    ensures HeadOption(args).name == NameOf(o)
    ensures HeadOption(args).value == if o.Setting? then Unquote(o.operand) else if o.Flag? then "" else TextOf(o.w)
  {
    NamesTakeOperands();
    match o {
      case Setting(name, operand) => SettingIs(name, operand, args);
      case Flag(name) => FlagIs(name, args);
      case _ =>
        WrittenResolves("", [], o.w);
        if o.joined {
          AssignedWord(args, NameOf(o), TextOf(o.w));
        } else {
          HeadWithOperand(args, NameOf(o), TextOf(o.w));
        }
    }
  }

  lemma ReadsOption(home: string, o: Option, rest: seq<string>, args: seq<string>, a: Addressing)
    requires PlainOption(o) && args == Tokens(o) + rest
    ensures ReadOptions(home, args, a) == ReadOptions(home, rest, Effect(a, o))
  {
    HeadIs(o, rest, args);
    var h := HeadOption(args);
    assert args[h.width..] == rest;
    ReadOption(home, args, a, h, rest);
    if !o.Setting? && !o.Flag? { DesignatedAs(home, a, o); }
  }

  function Final(os: seq<Option>, a: Addressing): Addressing
  {
    Addressing(Destination(a.repo, os), a.unresolved, LastIsRooted(os, a.absoluteBase), a.workTrees + TextsOf(Trees(os)),
               a.gitDirs + TextsOf(GitDirs(os)), a.absolute + TextsOf(RootedOnes(os)))
  }

  lemma FinalOfNone(a: Addressing)
    ensures Final([], a) == a
  {
    assert a.workTrees + [] == a.workTrees && a.gitDirs + [] == a.gitDirs && a.absolute + [] == a.absolute;
  }

  lemma TextsCons(before: seq<string>, here: seq<Written>, later: seq<Written>, all: seq<Written>, texts: seq<string>)
    requires all == here + later && texts == TextsOf(here)
    ensures before + TextsOf(all) == before + texts + TextsOf(later)
  {
    TextsConcat(here, later, all);
    Assoc(before, texts, TextsOf(later));
  }

  lemma TextsConcat(here: seq<Written>, later: seq<Written>, all: seq<Written>)
    requires all == here + later
    ensures TextsOf(all) == TextsOf(here) + TextsOf(later)
  {
  }

  lemma FinalStep(o: Option, os: seq<Option>, a: Addressing, all: seq<Option>)
    requires all == [o] + os
    ensures Final(all, a) == Final(os, Effect(a, o))
  {
    assert all[0] == o && all[1..] == os;
    var none: seq<Written> := [];
    var tree, dir := if o.WorkTree? then [o.w] else none, if o.GitDir? then [o.w] else none;
    var rooted := if (o.WorkTree? || o.GitDir?) && o.w.rooted then [o.w] else none;
    TextsCons(a.workTrees, tree, Trees(os), Trees(all), TextsOf(tree));
    TextsCons(a.gitDirs, dir, GitDirs(os), GitDirs(all), TextsOf(dir));
    TextsCons(a.absolute, rooted, RootedOnes(os), RootedOnes(all), TextsOf(rooted));
    EffectAdds(o, a, TextsOf(tree), TextsOf(dir), TextsOf(rooted));
  }

  lemma EffectAdds(o: Option, a: Addressing, tree: seq<string>, dir: seq<string>, rooted: seq<string>)
    requires tree == if o.WorkTree? then [TextOf(o.w)] else []
    requires dir == if o.GitDir? then [TextOf(o.w)] else []
    requires rooted == if (o.WorkTree? || o.GitDir?) && o.w.rooted then [TextOf(o.w)] else []
    ensures Effect(a, o).workTrees == a.workTrees + tree && Effect(a, o).gitDirs == a.gitDirs + dir
    ensures Effect(a, o).absolute == a.absolute + rooted
    ensures Effect(a, o).unresolved == a.unresolved
  {
    assert a.workTrees + [] == a.workTrees && a.gitDirs + [] == a.gitDirs && a.absolute + [] == a.absolute;
  }

  lemma {:induction false} ReadsOptions(home: string, os: seq<Option>, tail: seq<string>, args: seq<string>, a: Addressing)
    requires PlainOptions(os) && args == AllTokens(os) + tail && (tail == [] || !IsOption(tail[0]))
    ensures ReadOptions(home, args, a) == (Final(os, a), tail)
    decreases |os|
  {
    if os == [] {
      assert args == tail;
      FinalOfNone(a);
    } else {
      var rest := AllTokens(os[1..]) + tail;
      Assoc(Tokens(os[0]), AllTokens(os[1..]), tail);
      ReadsOption(home, os[0], rest, args, a);
      ReadsOptions(home, os[1..], tail, rest, Effect(a, os[0]));
      FinalStep(os[0], os[1..], a, os);
    }
  }

  lemma ResolvesAll(home: string, from: Path, ws: seq<Written>)
    requires forall i :: 0 <= i < |ws| ==> PlainPath(ws[i])
    ensures ResolveAll(home, from, TextsOf(ws)) == LeadAll(from, ws)
  {
    forall i | 0 <= i < |ws| ensures Resolve(home, from, TextOf(ws[i])) == Lead(from, ws[i]) { WrittenResolves(home, from, ws[i]); }
  }

  lemma {:induction false} PartsArePlain(os: seq<Option>)
    requires PlainOptions(os)
    ensures forall i :: 0 <= i < |Trees(os)| ==> PlainPath(Trees(os)[i])
    ensures forall i :: 0 <= i < |GitDirs(os)| ==> PlainPath(GitDirs(os)[i])
    ensures forall i :: 0 <= i < |RootedOnes(os)| ==> PlainPath(RootedOnes(os)[i])
  {
    if os != [] {
      assert PlainOption(os[0]);
      PartsArePlain(os[1..]);
    }
  }

  /**
   For every plainly written command line: the repository is where the `-C` operands lead one after the other, every work
   tree and git directory is where its operand leads from there, and absolute is what is rooted.
   */
  lemma PlainLineIsRead(home: string, os: seq<Option>, tail: seq<string>, base: Path)
    requires PlainOptions(os) && (tail == [] || !IsOption(tail[0]))
    ensures var t := Read(home, AllTokens(os) + tail, base);
      && t.sub == (if tail == [] then "" else Unquote(tail[0])) && !t.unresolved
      && t.repo == Destination(base, os)
      && t.workTrees == LeadAll(t.repo, Trees(os)) && t.gitDirs == LeadAll(t.repo, GitDirs(os))
      && (forall p :: p in t.absolute <==>
            || (LastIsRooted(os, false) && p == t.repo) || p in LeadAll(t.repo, RootedOnes(os))
            || (tail != [] && p in ResolveAll(home, t.repo, AbsoluteOnes(home, TreeOperands(t.sub, UnquoteAll(tail[1..]))))))
  {
    ReadsOptions(home, os, tail, AllTokens(os) + tail, Start(base));
    var a := Final(os, Start(base));
    assert [] + TextsOf(Trees(os)) == TextsOf(Trees(os)) && [] + TextsOf(GitDirs(os)) == TextsOf(GitDirs(os));
    assert [] + TextsOf(RootedOnes(os)) == TextsOf(RootedOnes(os));
    PartsArePlain(os);
    ResolvesAll(home, a.repo, Trees(os));
    ResolvesAll(home, a.repo, GitDirs(os));
    ResolvesAll(home, a.repo, RootedOnes(os));
  }

  // ----- The trees that a subcommand names, and the commands that change nothing -----

  /** Before the first bare `--`. */
  predicate BeforeDash(ops: seq<string>, i: nat)
  {
    i < |ops| && forall j :: 0 <= j <= i ==> ops[j] != "--"
  }

  predicate OperandAt(ops: seq<string>, i: nat)
  {
    i < |ops| && (ops[i] == "" || ops[i][0] != '-')
  }

  predicate FirstOperandAt(ops: seq<string>, i: nat)
  {
    OperandAt(ops, i) && forall j :: 0 <= j < i ==> !OperandAt(ops, j)
  }

  /** A literal spelling of a path and not of a name. */
  predicate SpellsPath(t: string)
  {
    !Unexpanded(t) && ('/' in t || t == "." || t == ".." || t == "~")
  }

  /** The verb of `worktree` and `stash`: the first operand, if it comes before the first bare `--`. */
  predicate VerbAt(ops: seq<string>, v: nat)
  {
    BeforeDash(ops, v) && FirstOperandAt(ops, v)
  }

  lemma {:induction false} BeforeDashesAre(ops: seq<string>)
    ensures BeforeDashes(ops) <= ops
    ensures forall i: nat :: i < |BeforeDashes(ops)| <==> BeforeDash(ops, i)
  {
    if ops != [] && ops[0] != "--" {
      var rest := ops[1..];
      BeforeDashesAre(rest);
      assert forall i: nat :: i < |rest| ==> rest[i] == ops[i + 1];
      forall i: nat ensures i < |BeforeDashes(ops)| <==> BeforeDash(ops, i) {
        if i > 0 {
          assert i - 1 < |BeforeDashes(rest)| <==> BeforeDash(rest, i - 1);
          assert BeforeDash(ops, i) <==> BeforeDash(rest, i - 1) by { BeforeDashTail(ops, rest, i); }
        }
      }
    } else {
      assert forall i: nat :: BeforeDash(ops, i) ==> ops[0] != "--";
    }
  }

  lemma BeforeDashTail(ops: seq<string>, rest: seq<string>, i: nat)
    requires ops != [] && rest == ops[1..] && ops[0] != "--" && i > 0
    ensures BeforeDash(ops, i) <==> BeforeDash(rest, i - 1)
  {
    assert forall j :: 0 <= j < |rest| ==> rest[j] == ops[j + 1];
    if BeforeDash(rest, i - 1) {
      forall j | 0 <= j <= i ensures ops[j] != "--" { if j > 0 { assert rest[j - 1] != "--"; } }
    }
  }

  /** The operands begin with the first one. */
  lemma {:induction false} FirstOperandIs(tokens: seq<string>, v: nat)
    requires FirstOperandAt(tokens, v)
    ensures Operands(tokens) == [tokens[v]] + Operands(tokens[v + 1..])
  {
    if v > 0 {
      var rest := tokens[1..];
      assert !OperandAt(tokens, 0);
      assert rest[v - 1] == tokens[v] && rest[v - 1 + 1..] == tokens[v + 1..];
      forall j | 0 <= j < v - 1 ensures !OperandAt(rest, j) { assert rest[j] == tokens[j + 1] && !OperandAt(tokens, j + 1); }
      FirstOperandIs(rest, v - 1);
    }
  }

  lemma {:induction false} NoOperands(tokens: seq<string>)
    requires forall i: nat :: !OperandAt(tokens, i)
    ensures Operands(tokens) == []
  {
    if tokens != [] {
      assert !OperandAt(tokens, 0);
      forall i: nat ensures !OperandAt(tokens[1..], i) { assert !OperandAt(tokens, i + 1); }
      NoOperands(tokens[1..]);
    }
  }

  lemma FindFirstOperand(tokens: seq<string>, i: nat) returns (v: nat)
    requires OperandAt(tokens, i)
    ensures v <= i && FirstOperandAt(tokens, v)
  {
    v := 0;
    while !OperandAt(tokens, v)
      invariant v <= i && forall j :: 0 <= j < v ==> !OperandAt(tokens, j)
      decreases i - v
    {
      v := v + 1;
    }
  }

  lemma {:induction false} OperandIn(tokens: seq<string>, t: string)
    ensures t in Operands(tokens) <==> exists i: nat :: OperandAt(tokens, i) && tokens[i] == t
  {
    if tokens != [] {
      var rest := tokens[1..];
      OperandIn(rest, t);
      assert forall i: nat :: i < |rest| ==> rest[i] == tokens[i + 1];
      if i: nat :| OperandAt(tokens, i) && tokens[i] == t { if i > 0 { assert OperandAt(rest, i - 1) && rest[i - 1] == t; } }
      if i: nat :| OperandAt(rest, i) && rest[i] == t { assert OperandAt(tokens, i + 1) && tokens[i + 1] == t; }
      if OperandAt(tokens, 0) && tokens[0] == t { assert t in Operands(tokens); }
    }
  }

  lemma {:induction false} PathishIn(tokens: seq<string>, t: string)
    ensures t in Pathish(tokens) <==> t in tokens && SpellsPath(t)
  {
    if tokens != [] { PathishIn(tokens[1..], t); }
  }

  /** The first operand before the first bare `--`, if there is one. */
  lemma VerbIs(ops: seq<string>, v: nat)
    requires VerbAt(ops, v)
    ensures FirstOperand(BeforeDashes(ops)) == ops[v]
  {
    var flags := BeforeDashes(ops);
    BeforeDashesAre(ops);
    assert forall i :: 0 <= i < |flags| ==> flags[i] == ops[i];
    assert v < |flags|;
    forall j | 0 <= j < v ensures !OperandAt(flags, j) { assert !OperandAt(ops, j); }
    FirstOperandIs(flags, v);
  }

  lemma NoVerb(ops: seq<string>)
    requires forall v: nat :: !VerbAt(ops, v)
    ensures FirstOperand(BeforeDashes(ops)) == ""
  {
    var flags := BeforeDashes(ops);
    BeforeDashesAre(ops);
    assert forall i :: 0 <= i < |flags| ==> flags[i] == ops[i];
    forall i: nat ensures !OperandAt(flags, i) {
      if OperandAt(flags, i) {
        var v := FindFirstOperand(flags, i);
        forall j | 0 <= j < v ensures !OperandAt(ops, j) { assert !OperandAt(flags, j); }
        assert VerbAt(ops, v);
      }
    }
    NoOperands(flags);
  }

  /** The subcommand is `worktree` and its verb removes or moves a tree. */
  ghost predicate NamesTrees(sub: string, ops: seq<string>)
  {
    sub == "worktree" && exists v: nat :: VerbAt(ops, v) && ops[v] in {"remove", "move"}
  }

  /** An operand after the first one spells this path. */
  ghost predicate NamedAfterVerb(ops: seq<string>, t: string)
  {
    exists v: nat, i: nat :: FirstOperandAt(ops, v) && v < i && OperandAt(ops, i) && ops[i] == t
  }

  lemma OperandsAfter(ops: seq<string>, v: nat, t: string)
    requires FirstOperandAt(ops, v)
    ensures Operands(ops) != []
    ensures t in Operands(ops)[1..] <==> exists i: nat :: v < i && OperandAt(ops, i) && ops[i] == t
  {
    var rest := ops[v + 1..];
    FirstOperandIs(ops, v);
    assert ([ops[v]] + Operands(rest))[1..] == Operands(rest);
    OperandIn(rest, t);
    assert forall i: nat :: i < |rest| ==> rest[i] == ops[v + 1 + i];
    if i: nat :| OperandAt(rest, i) && rest[i] == t { assert OperandAt(ops, v + 1 + i) && ops[v + 1 + i] == t; }
    if i: nat :| v < i && OperandAt(ops, i) && ops[i] == t { assert OperandAt(rest, i - v - 1) && rest[i - v - 1] == t; }
  }

  /** The trees named are the operands after the verb of `worktree remove` and `worktree move` that spell a path. */
  lemma TreesNamed(sub: string, ops: seq<string>, t: string)
    ensures t in TreeOperands(sub, ops) <==> NamesTrees(sub, ops) && NamedAfterVerb(ops, t) && SpellsPath(t)
  {
    if v: nat :| VerbAt(ops, v) {
      VerbIs(ops, v);
      assert forall w: nat :: VerbAt(ops, w) ==> w == v;
      assert forall w: nat :: FirstOperandAt(ops, w) ==> w == v;
      OperandsAfter(ops, v, t);
      PathishIn(Operands(ops)[1..], t);
    } else {
      NoVerb(ops);
    }
  }

  /** The places reported as paths are those trees, resolved from the repository. */
  lemma PathsAreNamedTrees(home: string, os: seq<Option>, sub: string, operands: seq<string>, base: Path, p: Path)
    requires PlainOptions(os) && !IsOption(sub)
    ensures var t := Read(home, AllTokens(os) + [sub] + operands, base);
      p in t.paths <==>
        exists raw :: NamesTrees(Unquote(sub), UnquoteAll(operands)) && NamedAfterVerb(UnquoteAll(operands), raw) && SpellsPath(raw)
          && p == Resolve(home, Destination(base, os), raw)
  {
    var tail, ops := [sub] + operands, UnquoteAll(operands);
    var args := AllTokens(os) + [sub] + operands;
    Assoc(AllTokens(os), [sub], operands);
    ReadsOptions(home, os, tail, args, Start(base));
    assert tail[1..] == operands;
    var raws, repo := TreeOperands(Unquote(sub), ops), Destination(base, os);
    forall raw ensures raw in raws <==> NamesTrees(Unquote(sub), ops) && NamedAfterVerb(ops, raw) && SpellsPath(raw) {
      TreesNamed(Unquote(sub), ops, raw);
    }
    if p in ResolveAll(home, repo, raws) {
      var i :| 0 <= i < |raws| && p == Resolve(home, repo, raws[i]);
      assert raws[i] in raws;
    }
    if raw :| raw in raws && p == Resolve(home, repo, raw) { ResolvedIn(home, repo, raws, raw); }
  }

  const READ_ONLY_VERBS: set<(string, string)> := {
    ("bisect", "log"), ("bisect", "view"), ("bisect", "visualize"), ("bisect", "help"), ("sparse-checkout", "list"),
    ("submodule", "status"), ("submodule", "summary"), ("stash", "list"), ("stash", "show")}

  /** A flag before the first bare `--` asks for a dry run, and no later one takes it back. */
  ghost predicate EndsDry(ops: seq<string>, clean: bool)
  {
    exists i: nat :: BeforeDash(ops, i) && SaysDry(ops[i], clean)
      && forall j: nat :: i < j && BeforeDash(ops, j) ==> ops[j] != "--no-dry-run"
  }

  ghost predicate HasFlag(ops: seq<string>, flag: string)
  {
    exists i: nat :: BeforeDash(ops, i) && ops[i] == flag
  }

  lemma FlagIn(ops: seq<string>, flag: string)
    ensures flag in BeforeDashes(ops) <==> HasFlag(ops, flag)
  {
    var flags := BeforeDashes(ops);
    BeforeDashesAre(ops);
    assert forall i :: 0 <= i < |flags| ==> flags[i] == ops[i];
    if i: nat :| BeforeDash(ops, i) && ops[i] == flag { assert flags[i] == flag; }
    if flag in flags {
      var i :| 0 <= i < |flags| && flags[i] == flag;
      assert BeforeDash(ops, i) && ops[i] == flag;
    }
  }

  lemma DryIs(ops: seq<string>, clean: bool)
    ensures DryRun(BeforeDashes(ops), clean) <==> EndsDry(ops, clean)
  {
    var flags := BeforeDashes(ops);
    BeforeDashesAre(ops);
    assert forall i :: 0 <= i < |flags| ==> flags[i] == ops[i];
    if i: nat :| i < |flags| && LastSaysDry(flags, clean, i) {
      assert BeforeDash(ops, i) && SaysDry(ops[i], clean);
      forall j: nat | i < j && BeforeDash(ops, j) ensures ops[j] != "--no-dry-run" { assert flags[j] == ops[j]; }
    }
    if i: nat :| BeforeDash(ops, i) && SaysDry(ops[i], clean) && forall j: nat :: i < j && BeforeDash(ops, j) ==> ops[j] != "--no-dry-run" {
      forall j | i < j < |flags| ensures flags[j] != "--no-dry-run" { assert BeforeDash(ops, j); }
      assert LastSaysDry(flags, clean, i);
    }
  }

  lemma VerbsAre(sub: string, ops: seq<string>, verb: string)
    requires verb == FirstOperand(BeforeDashes(ops))
    ensures (exists v: nat :: VerbAt(ops, v) && (sub, ops[v]) in READ_ONLY_VERBS) <==> (sub, verb) in READ_ONLY_VERBS
    ensures NamesTrees(sub, ops) <==> sub == "worktree" && verb in {"remove", "move"}
  {
    if v: nat :| VerbAt(ops, v) {
      VerbIs(ops, v);
      assert forall w: nat :: VerbAt(ops, w) ==> w == v;
    } else {
      NoVerb(ops);
    }
  }

  /** Which commands change nothing: by a reporting flag, a dry run, or a verb that only lists. */
  lemma ReadOnlyIff(sub: string, ops: seq<string>)
    ensures ReadOnly(sub, BeforeDashes(ops)) <==>
      || (sub == "apply" && !HasFlag(ops, "--apply") && exists f :: f in ["--check", "--stat", "--numstat", "--summary"] && HasFlag(ops, f))
      || (sub in {"mv", "rm"} && EndsDry(ops, false)) || (sub == "clean" && EndsDry(ops, true))
      || (exists v: nat :: VerbAt(ops, v) && (sub, ops[v]) in READ_ONLY_VERBS)
      || (sub == "worktree" && !NamesTrees(sub, ops))
  {
    var flags := BeforeDashes(ops);
    forall f ensures f in flags <==> HasFlag(ops, f) { FlagIn(ops, f); }
    DryIs(ops, false);
    DryIs(ops, true);
    var verb := FirstOperand(flags);
    VerbsAre(sub, ops, verb);
    VerbTable(sub, verb, (sub, verb) in READ_ONLY_VERBS);
    ReadOnlyByVerb(sub, flags, verb, (sub, verb) in READ_ONLY_VERBS);
    assert forall f :: f in ["--check", "--stat", "--numstat", "--summary"] <==>
      f == "--check" || f == "--stat" || f == "--numstat" || f == "--summary";
  }

  lemma VerbTable(sub: string, verb: string, listed: bool)
    requires listed <==> (sub, verb) in READ_ONLY_VERBS
    ensures listed <==>
      || (sub == "bisect" && verb in {"log", "view", "visualize", "help"}) || (sub == "sparse-checkout" && verb == "list")
      || (sub == "submodule" && verb in {"status", "summary"}) || (sub == "stash" && verb in {"list", "show"})
  {
  }

  lemma ReadOnlyByVerb(sub: string, flags: seq<string>, verb: string, listed: bool)
    requires verb == FirstOperand(flags)
    requires listed <==>
      || (sub == "bisect" && verb in {"log", "view", "visualize", "help"}) || (sub == "sparse-checkout" && verb == "list")
      || (sub == "submodule" && verb in {"status", "summary"}) || (sub == "stash" && verb in {"list", "show"})
    ensures ReadOnly(sub, flags) <==>
      || (sub == "apply" && "--apply" !in flags
          && ("--check" in flags || "--stat" in flags || "--numstat" in flags || "--summary" in flags))
      || (sub in {"mv", "rm"} && DryRun(flags, false)) || (sub == "clean" && DryRun(flags, true))
      || listed || (sub == "worktree" && verb !in {"remove", "move"})
  {
  }
}
