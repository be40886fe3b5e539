/** Which review personas join a fan-out: activation globs, the cap on spawns, and the order under it. */
module PersonaFanOut {
  import opened Text
  import opened Logs
  import opened Globs
  import opened GlobCompilers
  import opened ClaimTokens

  const SPAWN_CAP: nat := 5
  const GLOB_MAX_LENGTH: nat := 256

  /** A persona file: the stem of its name, and the name and activation it declares if it can be read. */
  datatype File = File(stem: string, declared: Option<(string, Option<string>)>)

  datatype Line = Spawn(name: string) | OverCap(name: string) | Malformed(stem: string) | NoMatch(name: string)

  // ----- Activation -----

  function Unquote(s: string): string
  {
    var t := if s != "" && (s[0] == '"' || s[0] == '\'') then s[1..] else s;
    if t != "" && (t[|t| - 1] == '"' || t[|t| - 1] == '\'') then t[..|t| - 1] else t
  }

  function Unquoted(parts: seq<string>): seq<string>
  {
    if parts == [] then []
    else (if Unquote(Trim(parts[0])) == "" then [] else [Unquote(Trim(parts[0]))]) + Unquoted(parts[1..])
  }

  function GlobsOf(csv: string): seq<string>
  {
    Unquoted(Split(csv, ','))
  }

  function WithoutSlashes(path: string): string
  {
    if path != "" && path[|path| - 1] == '/' then WithoutSlashes(path[..|path| - 1]) else path
  }

  function Basename(path: string): string
  {
    var parts := Split(WithoutSlashes(path), '/');
    parts[|parts| - 1]
  }

  /** What the regular expression engine answers for a source and a string. */
  type Engine = (string, string) -> bool

  predicate Accepts(glob: string, path: string, test: Engine)
  {
    |glob| <= GLOB_MAX_LENGTH && PersonaSource(glob).Some? &&
      (test(PersonaSource(glob).value, path) || ('/' !in glob && test(PersonaSource(glob).value, Basename(path))))
  }

  predicate Activates(csv: string, paths: seq<string>, test: Engine)
  {
    exists g :: g in GlobsOf(csv) && AcceptsSome(g, paths, test)
  }

  method MatchActivation(csv: string, paths: seq<string>, test: Engine) returns (joins: bool)
    ensures joins == Activates(csv, paths, test)
  {
    var globs := GlobsOf(csv);
    joins := false;
    for i := 0 to |globs|
      invariant joins <==> exists k :: 0 <= k < i && AcceptsSome(globs[k], paths, test)
    {
      var found := MatchGlob(globs[i], paths, test);
      if found { return true; }
    }
  }

  predicate AcceptsSome(glob: string, paths: seq<string>, test: Engine)
  {
    exists p :: p in paths && Accepts(glob, p, test)
  }

  /** The body of the loop: one glob against every path. */
  method MatchGlob(glob: string, paths: seq<string>, test: Engine) returns (found: bool)
    ensures found == AcceptsSome(glob, paths, test)
  {
    if |glob| > GLOB_MAX_LENGTH { return false; }
    var source := GlobToRegExp(glob);
    if source.None? { return false; }
    for j := 0 to |paths|
      invariant forall k :: 0 <= k < j ==> !Accepts(glob, paths[k], test)
    {
      if test(source.value, paths[j]) || ('/' !in glob && test(source.value, Basename(paths[j]))) {
        assert Accepts(glob, paths[j], test);
        return true;
      }
    }
    return false;
  }

  /** The engine decides membership as the regular expression prescribes. */
  ghost predicate Faithful(test: Engine)
  {
    forall source: string, s: string :: |source| >= 2 ==> (test(source, s) <==> RegexTest(source, s))
  }

  ghost predicate GlobMatches(glob: string, path: string)
  {
    SegsMatch(PersonaSegs(Split(glob, '/')), Split(path, '/'))
  }

  /** A glob accepts a path when it matches it segment by segment, or, written without a slash, its last segment. */
  lemma AcceptsMeaning(glob: string, path: string, test: Engine)
    requires Faithful(test) && OneLine(path) && OneLine(Basename(path))
    ensures Accepts(glob, path, test) <==>
      |glob| <= GLOB_MAX_LENGTH && PersonaSource(glob).Some? && (GlobMatches(glob, path) || ('/' !in glob && GlobMatches(glob, Basename(path))))
  {
    if PersonaSource(glob).Some? {
      PersonaGlobMeaning(glob, path);
      PersonaGlobMeaning(glob, Basename(path));
    }
  }

  // ----- The fan-out -----

  predicate NameChar(c: char)
  {
    'A' <= c <= 'Z' || 'a' <= c <= 'z' || '0' <= c <= '9' || c == '_' || c == '-'
  }

  const PREFIX: string := "zensu-review-"

  predicate NameShape(name: string)
  {
    |name| > |PREFIX| && name[..|PREFIX|] == PREFIX && forall i :: |PREFIX| <= i < |name| ==> NameChar(name[i])
  }

  function StemOf(f: File): string
  {
    if NameShape(f.stem) then f.stem else "invalid-filename"
  }

  predicate Proper(f: File)
  {
    f.declared.Some? && NameShape(f.declared.value.0) && f.declared.value.0 == StemOf(f)
  }

  predicate AlwaysJoins(f: File)
  {
    Proper(f) && f.declared.value.1.None?
  }

  function Matched(paths: seq<string>, test: Engine): File -> bool
  {
    (f: File) => Proper(f) && f.declared.value.1.Some? && Activates(f.declared.value.1.value, paths, test)
  }

  function Names(files: seq<File>): seq<string>
  {
    if files == [] then [] else Names(files[..|files| - 1]) + [StemOf(files[|files| - 1])]
  }

  function Rejections(files: seq<File>, paths: seq<string>, test: Engine): seq<Line>
  {
    if files == [] then []
    else
      var rest, f := Rejections(files[..|files| - 1], paths, test), files[|files| - 1];
      if !Proper(f) then rest + [Malformed(StemOf(f))]
      else if AlwaysJoins(f) || Matched(paths, test)(f) then rest
      else rest + [NoMatch(StemOf(f))]
  }

  /** The names in order of precedence: personas whose globs match, then those that always join. */
  function Queue(files: seq<File>, paths: seq<string>, test: Engine): seq<string>
  {
    Names(Select(files, Matched(paths, test))) + Names(Select(files, AlwaysJoins))
  }

  function Capped(names: seq<string>): (lines: seq<Line>)
    ensures |lines| == |names|
  {
    if names == [] then []
    else
      var n := |names| - 1;
      Capped(names[..n]) + [if n < SPAWN_CAP then Spawn(names[n]) else OverCap(names[n])]
  }

  method Decide(files: seq<File>, paths: seq<string>, test: Engine) returns (lines: seq<Line>)
    ensures lines == Capped(Queue(files, paths, test)) + Rejections(files, paths, test)
  {
    var matched, always, rejected := Sort(files, paths, test);
    lines := CapNames(matched + always);
    lines := lines + rejected;
  }

  method CapNames(queue: seq<string>) returns (lines: seq<Line>)
    ensures lines == Capped(queue)
  {
    lines := [];
    var spawned := 0;
    for i := 0 to |queue|
      invariant lines == Capped(queue[..i]) && spawned == (if i < SPAWN_CAP then i else SPAWN_CAP)
    {
      assert queue[..i + 1][..i] == queue[..i];
      if spawned >= SPAWN_CAP {
        lines := lines + [OverCap(queue[i])];
      } else {
        spawned := spawned + 1;
        lines := lines + [Spawn(queue[i])];
      }
    }
    assert queue[..|queue|] == queue;
  }

  method Sort(files: seq<File>, paths: seq<string>, test: Engine) returns (matched: seq<string>, always: seq<string>, rejected: seq<Line>)
    ensures matched == Names(Select(files, Matched(paths, test))) && always == Names(Select(files, AlwaysJoins))
    ensures rejected == Rejections(files, paths, test)
  {
    matched, always, rejected := [], [], [];
    ghost var done: seq<File> := [];
    for i := 0 to |files|
      invariant done == files[..i]
      invariant matched == Names(Select(done, Matched(paths, test))) && always == Names(Select(done, AlwaysJoins))
      invariant rejected == Rejections(done, paths, test)
    {
      var f := files[i];
      TakeSnoc(files, i);
      NamesStep(done, f, Matched(paths, test));
      NamesStep(done, f, AlwaysJoins);
      RejectionsStep(done, f, paths, test);
      done := done + [f];
      if f.declared.None? || !NameShape(f.declared.value.0) || f.declared.value.0 != StemOf(f) {
        rejected := rejected + [Malformed(StemOf(f))];
        continue;
      }
      var (name, activation) := f.declared.value;
      if activation.None? {
        always := always + [name];
        continue;
      }
      var joins := MatchActivation(activation.value, paths, test);
      if joins { matched := matched + [name]; } else { rejected := rejected + [NoMatch(name)]; }
    }
    assert done == files;
  }

  lemma NamesStep(files: seq<File>, f: File, p: File -> bool)
    ensures Names(Select(files + [f], p)) == Names(Select(files, p)) + if p(f) then [StemOf(f)] else []
  {
    var kept := Select(files, p);
    SelectSnoc(files, f, p);
    assert (kept + [f])[..|kept|] == kept;
    assert kept + [] == kept;
  }

  lemma RejectionsStep(files: seq<File>, f: File, paths: seq<string>, test: Engine)
    ensures Rejections(files + [f], paths, test) == Rejections(files, paths, test) +
      if !Proper(f) then [Malformed(StemOf(f))]
      else if AlwaysJoins(f) || Matched(paths, test)(f) then []
      else [NoMatch(StemOf(f))]
  {
    assert (files + [f])[..|files|] == files;
  }

  // ----- What the fan-out promises -----

  lemma {:induction false} NamesAre(files: seq<File>)
    ensures |Names(files)| == |files| && forall i :: 0 <= i < |files| ==> Names(files)[i] == StemOf(files[i])
  {
    if files != [] {
      var rest := files[..|files| - 1];
      NamesAre(rest);
      assert forall i :: 0 <= i < |rest| ==> rest[i] == files[i];
    }
  }

  lemma {:induction false} CappedAt(names: seq<string>, i: nat)
    requires i < |names|
    ensures Capped(names)[i] == if i < SPAWN_CAP then Spawn(names[i]) else OverCap(names[i])
  {
    var n := |names| - 1;
    if i < n { CappedAt(names[..n], i); }
  }

  function NameOf(line: Line): string
  {
    match line
    case Spawn(name) => name
    case OverCap(name) => name
    case NoMatch(name) => name
    case Malformed(name) => name
  }

  function NamesIn(lines: seq<Line>): seq<string>
  {
    if lines == [] then [] else NamesIn(lines[..|lines| - 1]) + [NameOf(lines[|lines| - 1])]
  }

  lemma NamesInSnoc(lines: seq<Line>, line: Line)
    ensures NamesIn(lines + [line]) == NamesIn(lines) + [NameOf(line)]
  {
    assert (lines + [line])[..|lines|] == lines;
  }

  lemma {:induction false} NamesInConcat(a: seq<Line>, b: seq<Line>)
    ensures NamesIn(a + b) == NamesIn(a) + NamesIn(b)
  {
    if b == [] {
      assert a + b == a;
    } else {
      var n := |b| - 1;
      assert a + b == a + b[..n] + [b[n]];
      NamesInConcat(a, b[..n]);
      NamesInSnoc(a + b[..n], b[n]);
    }
  }

  lemma {:induction false} CappedKeepsNames(names: seq<string>)
    ensures NamesIn(Capped(names)) == names
  {
    if names != [] {
      var n := |names| - 1;
      CappedKeepsNames(names[..n]);
      NamesInSnoc(Capped(names[..n]), if n < SPAWN_CAP then Spawn(names[n]) else OverCap(names[n]));
    }
  }

  /** The names of the files in the three lists they are sorted into. */
  function MatchedNames(files: seq<File>, paths: seq<string>, test: Engine): seq<string>
  {
    Names(Select(files, Matched(paths, test)))
  }

  function AlwaysNames(files: seq<File>): seq<string> { Names(Select(files, AlwaysJoins)) }

  function RejectedNames(files: seq<File>, paths: seq<string>, test: Engine): seq<string>
  {
    NamesIn(Rejections(files, paths, test))
  }

  function Sorted(files: seq<File>, paths: seq<string>, test: Engine): multiset<string>
  {
    multiset(MatchedNames(files, paths, test)) + multiset(AlwaysNames(files)) + multiset(RejectedNames(files, paths, test))
  }

  lemma RejectedStep(files: seq<File>, f: File, paths: seq<string>, test: Engine)
    ensures RejectedNames(files + [f], paths, test) == RejectedNames(files, paths, test) +
      if Proper(f) && (AlwaysJoins(f) || Matched(paths, test)(f)) then [] else [StemOf(f)]
  {
    var rejections := Rejections(files, paths, test);
    RejectionsStep(files, f, paths, test);
    NamesInSnoc(rejections, Malformed(StemOf(f)));
    NamesInSnoc(rejections, NoMatch(StemOf(f)));
    assert rejections + [] == rejections && NamesIn(rejections) + [] == NamesIn(rejections);
  }

  lemma OneMore(a: seq<string>, b: seq<string>, c: seq<string>, x: string, here: bool, there: bool)
    requires !(here && there)
    ensures multiset(a + if here then [x] else []) + multiset(b + if there then [x] else [])
      + multiset(c + if here || there then [] else [x]) == multiset(a) + multiset(b) + multiset(c) + multiset{x}
  {
    assert a + [] == a && b + [] == b && c + [] == c;
  }

  lemma SortedStep(files: seq<File>, f: File, paths: seq<string>, test: Engine)
    ensures Sorted(files + [f], paths, test) == Sorted(files, paths, test) + multiset{StemOf(f)}
  {
    NamesStep(files, f, Matched(paths, test));
    NamesStep(files, f, AlwaysJoins);
    RejectedStep(files, f, paths, test);
    OneMore(MatchedNames(files, paths, test), AlwaysNames(files), RejectedNames(files, paths, test), StemOf(f),
            Matched(paths, test)(f), AlwaysJoins(f));
  }

  lemma {:induction false} EveryFileIsSorted(files: seq<File>, paths: seq<string>, test: Engine)
    ensures Sorted(files, paths, test) == multiset(Names(files))
  {
    if files != [] {
      var rest, f := files[..|files| - 1], files[|files| - 1];
      assert files == rest + [f];
      EveryFileIsSorted(rest, paths, test);
      SortedStep(rest, f, paths, test);
    }
  }

  /** Every persona file is named in exactly one line, and no line names anything else. */
  lemma OneLinePerFile(files: seq<File>, paths: seq<string>, test: Engine)
    ensures multiset(NamesIn(Capped(Queue(files, paths, test)) + Rejections(files, paths, test))) == multiset(Names(files))
    ensures |Names(files)| == |files| && forall i :: 0 <= i < |files| ==> Names(files)[i] == StemOf(files[i])
  {
    var queue := Queue(files, paths, test);
    NamesAre(files);
    EveryFileIsSorted(files, paths, test);
    NamesInConcat(Capped(queue), Rejections(files, paths, test));
    CappedKeepsNames(queue);
  }

  /**
   * At most five personas are spawned; one that fits is turned away only when all five places are taken, and
   * one that always joins is spawned only when every persona whose globs match is.
   */
  lemma MatchedPersonasComeFirst(files: seq<File>, paths: seq<string>, test: Engine, i: nat, j: nat)
    requires i < |Queue(files, paths, test)| && j < |Queue(files, paths, test)|
    ensures var lines, m := Capped(Queue(files, paths, test)), |Select(files, Matched(paths, test))|;
      && (lines[i].Spawn? <==> i < SPAWN_CAP)
      && (i < m <= j && lines[j].Spawn? ==> lines[i].Spawn?)
      && (i < m ==> Queue(files, paths, test)[i] == StemOf(Select(files, Matched(paths, test))[i]))
  {
    NamesAre(Select(files, Matched(paths, test)));
    CappedAt(Queue(files, paths, test), i);
    CappedAt(Queue(files, paths, test), j);
  }

  // ----- Which line each file gets -----

  lemma {:induction false} NameIn(files: seq<File>, p: File -> bool, name: string)
    ensures name in Names(Select(files, p)) <==> exists f :: f in files && p(f) && StemOf(f) == name
  {
    var kept := Select(files, p);
    NamesAre(kept);
    SelectMembers(files, p);
    if name in Names(kept) {
      var i :| 0 <= i < |kept| && Names(kept)[i] == name;
      assert kept[i] in kept;
    }
    if f :| f in files && p(f) && StemOf(f) == name {
      assert f in kept;
      var i :| 0 <= i < |kept| && kept[i] == f;
      assert Names(kept)[i] == name;
    }
  }

  /** The line that a file which is not queued leaves. */
  predicate Rejects(f: File, paths: seq<string>, test: Engine, line: Line)
  {
    line == (if !Proper(f) then Malformed(StemOf(f)) else NoMatch(StemOf(f)))
    && !(Proper(f) && (AlwaysJoins(f) || Matched(paths, test)(f)))
  }

  lemma {:induction false} RejectionIn(files: seq<File>, paths: seq<string>, test: Engine, line: Line)
    ensures line in Rejections(files, paths, test) <==> exists f :: f in files && Rejects(f, paths, test, line)
    decreases |files|
  {
    if files != [] {
      var rest, f := files[..|files| - 1], files[|files| - 1];
      assert files == rest + [f];
      RejectionIn(rest, paths, test, line);
      RejectionsStep(rest, f, paths, test);
      assert line in Rejections(files, paths, test) <==> line in Rejections(rest, paths, test) || Rejects(f, paths, test, line);
      if g :| g in rest && Rejects(g, paths, test, line) { assert g in files; }
      assert f in files;
    }
  }

  /** A file of this name that joins: it declares no globs, or one of them accepts a path. */
  predicate Joins(f: File, name: string, paths: seq<string>, test: Engine)
  {
    StemOf(f) == name && Proper(f)
    && (f.declared.value.1.None? || Activates(f.declared.value.1.value, paths, test))
  }

  /** A file of this name that declares globs, none of which accepts a path. */
  predicate StaysOut(f: File, name: string, paths: seq<string>, test: Engine)
  {
    StemOf(f) == name && Proper(f) && f.declared.value.1.Some? && !Activates(f.declared.value.1.value, paths, test)
  }

  /**
   A name is queued for a place exactly when its file declares it properly and either declares no globs or one of them
   accepts a path; a file is reported as malformed or without a match exactly when it is.
   */
  lemma FilesGetTheirLines(files: seq<File>, paths: seq<string>, test: Engine, name: string)
    ensures name in Queue(files, paths, test) <==> exists f :: f in files && Joins(f, name, paths, test)
    ensures Malformed(name) in Rejections(files, paths, test) <==> exists f :: f in files && StemOf(f) == name && !Proper(f)
    ensures NoMatch(name) in Rejections(files, paths, test) <==> exists f :: f in files && StaysOut(f, name, paths, test)
    ensures forall n :: Spawn(n) !in Rejections(files, paths, test) && OverCap(n) !in Rejections(files, paths, test)
  {
    NameIn(files, Matched(paths, test), name);
    NameIn(files, AlwaysJoins, name);
    forall line ensures line in Rejections(files, paths, test) <==> exists f :: f in files && Rejects(f, paths, test, line) {
      RejectionIn(files, paths, test, line);
    }
    forall f | f in files
      ensures Rejects(f, paths, test, Malformed(name)) <==> StemOf(f) == name && !Proper(f)
      ensures Rejects(f, paths, test, NoMatch(name)) <==> StaysOut(f, name, paths, test)
    {
      RejectsAs(f, paths, test, name);
    }
  }

  lemma RejectsAs(f: File, paths: seq<string>, test: Engine, name: string)
    ensures Rejects(f, paths, test, Malformed(name)) <==> StemOf(f) == name && !Proper(f)
    ensures Rejects(f, paths, test, NoMatch(name)) <==> StaysOut(f, name, paths, test)
  {
  }

  // ----- Reading paths and lists of globs -----

  function Slashes(n: nat): string
  {
    seq(n, _ => '/')
  }

  lemma {:induction false} SlashesGo(s: string, n: nat)
    requires s != "" && s[|s| - 1] != '/'
    ensures WithoutSlashes(s + Slashes(n)) == s
  {
    var t := s + Slashes(n);
    if n == 0 {
      assert t == s;
    } else {
      assert t[..|t| - 1] == s + Slashes(n - 1) && t[|t| - 1] == '/';
      SlashesGo(s, n - 1);
    }
  }

  /** The last segment of a path, whatever slashes follow it. */
  lemma BasenameIs(dir: string, name: string, n: nat)
    requires name != "" && '/' !in name
    ensures Basename(dir + ['/'] + name + Slashes(n)) == name && Basename(name + Slashes(n)) == name
  {
    var path, parts := dir + ['/'] + name, Split(dir, '/');
    assert path[|path| - 1] == name[|name| - 1];
    SlashesGo(path, n);
    SlashesGo(name, n);
    SplitSpec(dir, '/');
    JoinSnoc(parts, name, '/');
    SplitOfJoin(parts + [name], '/');
    assert Join([name], '/') == name;
    SplitOfJoin([name], '/');
  }

  predicate QuoteChar(c: char) { c == '"' || c == '\'' }

  /** A glob that a list can hold. */
  predicate CleanGlob(g: string)
  {
    g != "" && ',' !in g && !QuoteChar(g[0]) && !QuoteChar(g[|g| - 1]) && !Space(g[0]) && !Space(g[|g| - 1])
  }

  /** How a glob may be written in a list: with or without quotes, with or without a space before it. */
  function WrittenGlob(g: string, quoted: bool, spaced: bool): string
  {
    (if spaced then " " else "") + if quoted then "\"" + g + "\"" else g
  }

  lemma QuotesComeOff(g: string, quoted: bool, inner: string)
    requires CleanGlob(g) && inner == if quoted then "\"" + g + "\"" else g
    ensures Unquote(inner) == g && ',' !in inner && inner != "" && !Space(inner[0]) && !Space(inner[|inner| - 1])
  {
    if quoted {
      var t := g + "\"";
      assert inner[0] == '"' && inner[1..] == t;
      assert t[|t| - 1] == '"' && t[..|t| - 1] == g;
    }
  }

  lemma SpaceComesOff(inner: string, s: string)
    requires inner != "" && !Space(inner[0]) && !Space(inner[|inner| - 1]) && (s == inner || s == [' '] + inner)
    ensures Trim(s) == inner
  {
    if s != inner { assert s[0] == ' ' && s[1..] == inner; }
    assert TrimStart(inner) == inner && TrimEnd(inner) == inner;
  }

  lemma UnquotesTo(g: string, quoted: bool, spaced: bool)
    requires CleanGlob(g)
    ensures Unquote(Trim(WrittenGlob(g, quoted, spaced))) == g && ',' !in WrittenGlob(g, quoted, spaced)
  {
    var inner := if quoted then "\"" + g + "\"" else g;
    QuotesComeOff(g, quoted, inner);
    SpaceComesOff(inner, WrittenGlob(g, quoted, spaced));
  }

  /** A list of globs, each written in any of these ways, is read as exactly these globs. */
  lemma {:induction false} WrittenGlobsAreRead(gs: seq<string>, written: seq<string>)
    requires |gs| == |written| >= 1
    requires forall k :: 0 <= k < |gs| ==> CleanGlob(gs[k]) && exists quoted, spaced :: written[k] == WrittenGlob(gs[k], quoted, spaced)
    ensures GlobsOf(Join(written, ',')) == gs
  {
    forall k | 0 <= k < |gs| ensures Unquote(Trim(written[k])) == gs[k] && ',' !in written[k] {
      var quoted, spaced :| written[k] == WrittenGlob(gs[k], quoted, spaced);
      UnquotesTo(gs[k], quoted, spaced);
    }
    SplitOfJoin(written, ',');
    AllUnquote(gs, written);
  }

  lemma {:induction false} AllUnquote(gs: seq<string>, written: seq<string>)
    requires |gs| == |written| && forall k :: 0 <= k < |gs| ==> gs[k] != "" && Unquote(Trim(written[k])) == gs[k]
    ensures Unquoted(written) == gs
  {
    if gs != [] {
      AllUnquote(gs[1..], written[1..]);
      assert gs == [gs[0]] + gs[1..];
    }
  }
}
