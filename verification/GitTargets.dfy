/** Reading a git command line's repository addressing, with tokens the shell has yet to expand. */
module GitTargets {
  import opened Text

  /** A resolved absolute path, as its segments; the root has none. */
  type Path = seq<string>

  // ----- Lexical path resolution on POSIX -----

  predicate StartsWithTilde(p: string)
  {
    p == "~" || "~/" <= p
  }

  function Expand(home: string, p: string): string
  {
    if StartsWithTilde(p) then home + p[1..] else p
  }

  predicate Rooted(p: string)
  {
    p != "" && p[0] == '/'
  }

  function Walk(base: Path, segments: seq<string>): Path
    decreases |segments|
  {
    if segments == [] then base else
    var s := segments[0];
    Walk(if s == "" || s == "." then base
         else if s == ".." then (if base == [] then [] else base[..|base| - 1])
         else base + [s], segments[1..])
  }

  function Resolve(home: string, base: Path, p: string): Path
  {
    var q := Expand(home, p);
    Walk(if Rooted(q) then [] else base, Split(q, '/'))
  }

  /** The probe for a raw spelling that is absolute as written. */
  predicate AbsoluteAsWritten(home: string, p: string)
  {
    Rooted(if StartsWithTilde(p) && home != "" then "/" else p)
  }

  /** A home directory for which the probe tells the truth. */
  predicate UsableHome(home: string)
  {
    home == "" || home[0] == '/'
  }

  // ----- Reading the options before the subcommand -----

  predicate Quote(c: char) { c == '\'' || c == '"' }

  function StripLead(t: string): string
  {
    if t != "" && Quote(t[0]) then StripLead(t[1..]) else t
  }

  function StripTail(t: string): string
  {
    if t != "" && Quote(t[|t| - 1]) then StripTail(t[..|t| - 1]) else t
  }

  function Unquote(t: string): string { StripTail(StripLead(t)) }

  predicate Unexpanded(t: string) { '$' in t || '`' in t }

  const OPTS_WITH_OPERAND: set<string> :=
    {"-C", "-c", "--git-dir", "--work-tree", "--namespace", "--super-prefix", "--exec-path", "--config-env", "--attr-source"}

  predicate Addresses(name: string) { name == "-C" || name == "--work-tree" || name == "--git-dir" }

  predicate IsOption(token: string) { Unquote(token) != "" && Unquote(token)[0] == '-' }

  datatype Opt = Opt(name: string, value: string, width: nat)

  /** The option at the head of the tokens: its name, its unquoted value, and how many tokens it takes. */
  function HeadOption(args: seq<string>): (o: Opt)
    requires args != [] && IsOption(args[0])
    ensures 1 <= o.width <= |args|
  {
    OptionOf(Unquote(args[0]), IndexOf(Unquote(args[0]), '='), args[1..])
  }

  /** The option in the token `t`, whose first `=` is at `eq`, before the tokens `rest`. */
  function OptionOf(t: string, eq: nat, rest: seq<string>): (o: Opt)
    ensures 1 <= o.width <= |rest| + 1
  {
    if eq < |t| then Opt(t[..eq], Unquote(t[eq + 1..]), 1)
    else if t in OPTS_WITH_OPERAND && rest != [] then Opt(t, Unquote(rest[0]), 2)
    else Opt(t, "", 1)
  }

  datatype Addressing = Addressing(
    repo: Path, unresolved: bool, absoluteBase: bool,
    workTrees: seq<string>, gitDirs: seq<string>, absolute: seq<string>)

  function Designate(home: string, a: Addressing, name: string, value: string): Addressing
  {
    if value == "" || !Addresses(name) then a
    else if Unexpanded(value) then (if name == "-C" then a.(unresolved := true, absoluteBase := false) else a)
    else if name == "-C" then a.(repo := Resolve(home, a.repo, value), absoluteBase := AbsoluteAsWritten(home, value))
    else
      var b := if name == "--work-tree" then a.(workTrees := a.workTrees + [value]) else a.(gitDirs := a.gitDirs + [value]);
      if AbsoluteAsWritten(home, value) then b.(absolute := a.absolute + [value]) else b
  }

  /** The addressing after every leading option, and the tokens from the subcommand on. */
  function ReadOptions(home: string, args: seq<string>, a: Addressing): (Addressing, seq<string>)
    decreases |args|
  {
    if args == [] || !IsOption(args[0]) then (a, args) else
    var o := HeadOption(args);
    ReadOptions(home, args[o.width..], Designate(home, a, o.name, o.value))
  }

  // ----- The operands of the subcommand -----

  function UnquoteAll(args: seq<string>): (r: seq<string>)
    ensures |r| == |args| && forall i :: 0 <= i < |args| ==> r[i] == Unquote(args[i])
  {
    seq(|args|, i requires 0 <= i < |args| => Unquote(args[i]))
  }

  function BeforeDashes(operands: seq<string>): seq<string>
  {
    if operands == [] || operands[0] == "--" then [] else [operands[0]] + BeforeDashes(operands[1..])
  }

  function Operands(tokens: seq<string>): seq<string>
  {
    if tokens == [] then []
    else (if tokens[0] == "" || tokens[0][0] != '-' then [tokens[0]] else []) + Operands(tokens[1..])
  }

  function FirstOperand(args: seq<string>): string
  {
    if Operands(args) == [] then "" else Operands(args)[0]
  }

  predicate Dry(arg: string) { arg == "-n" || arg == "--dry-run" }

  /** A cluster of flags of `clean` with an `n` among them. */
  predicate DryCluster(arg: string)
  {
    |arg| >= 2 && arg[0] == '-' && 'n' in arg[1..] && forall i :: 1 <= i < |arg| ==> arg[i] in {'d', 'f', 'n', 'q', 'x', 'X'}
  }

  predicate SaysDry(arg: string, clean: bool) { Dry(arg) || (clean && DryCluster(arg)) }

  predicate LastSaysDry(args: seq<string>, clean: bool, i: nat)
  {
    i < |args| && SaysDry(args[i], clean) && forall j :: i < j < |args| ==> args[j] != "--no-dry-run"
  }

  /** The last word on a dry run is that there is one. */
  predicate DryRun(args: seq<string>, clean: bool)
  {
    exists i: nat :: i < |args| && LastSaysDry(args, clean, i)
  }

  method IsDryRun(args: seq<string>, clean: bool) returns (dry: bool)
    ensures dry <==> DryRun(args, clean)
  {
    dry := false;
    ghost var done: seq<string> := [];
    for k := 0 to |args|
      invariant done == args[..k] && (dry <==> DryRun(done, clean))
    {
      DryRunSnoc(done, args[k], clean);
      if SaysDry(args[k], clean) {
        dry := true;
      } else if args[k] == "--no-dry-run" {
        dry := false;
      }
      TakeSnoc(args, k);
      done := done + [args[k]];
    }
    assert done == args;
  }

  lemma DryRunSnoc(args: seq<string>, arg: string, clean: bool)
    ensures DryRun(args + [arg], clean) <==> SaysDry(arg, clean) || (arg != "--no-dry-run" && DryRun(args, clean))
  {
    var more := args + [arg];
    if SaysDry(arg, clean) { assert LastSaysDry(more, clean, |args|); }
    if i: nat :| i < |args| && LastSaysDry(args, clean, i) && arg != "--no-dry-run" { assert LastSaysDry(more, clean, i); }
    if i: nat :| i < |more| && LastSaysDry(more, clean, i) {
      if i < |args| {
        assert args[i] == more[i] && more[|args|] == arg && forall j :: i < j < |args| ==> args[j] == more[j];
        assert LastSaysDry(args, clean, i);
      }
    }
  }

  /** The forms of the mutating subcommands that change nothing. */
  predicate ReadOnly(sub: string, flags: seq<string>)
  {
    if sub == "apply" then
      "--apply" !in flags && ("--check" in flags || "--stat" in flags || "--numstat" in flags || "--summary" in flags)
    else if sub == "bisect" then FirstOperand(flags) in {"log", "view", "visualize", "help"}
    else if sub == "mv" || sub == "rm" then DryRun(flags, false)
    else if sub == "clean" then DryRun(flags, true)
    else if sub == "sparse-checkout" then FirstOperand(flags) == "list"
    else if sub == "submodule" then FirstOperand(flags) in {"status", "summary"}
    else if sub == "stash" then FirstOperand(flags) in {"list", "show"}
    else sub == "worktree" && FirstOperand(flags) !in {"remove", "move"}
  }

  function Pathish(tokens: seq<string>): seq<string>
  {
    if tokens == [] then [] else
    var t := tokens[0];
    (if !Unexpanded(t) && ('/' in t || t == "." || t == ".." || t == "~") then [t] else []) + Pathish(tokens[1..])
  }

  /** The raw spellings of the trees that `worktree remove` and `worktree move` name. */
  function TreeOperands(sub: string, operands: seq<string>): seq<string>
  {
    var verb := FirstOperand(BeforeDashes(operands));
    var named := Operands(operands);
    if sub == "worktree" && (verb == "remove" || verb == "move") && named != [] then Pathish(named[1..]) else []
  }

  function ResolveAll(home: string, base: Path, raws: seq<string>): (r: seq<Path>)
    ensures |r| == |raws| && forall i :: 0 <= i < |raws| ==> r[i] == Resolve(home, base, raws[i])
  {
    seq(|raws|, i requires 0 <= i < |raws| => Resolve(home, base, raws[i]))
  }

  function AbsoluteOnes(home: string, raws: seq<string>): (r: seq<string>)
    ensures forall v :: v in r <==> v in raws && AbsoluteAsWritten(home, v)
  {
    if raws == [] then []
    else (if AbsoluteAsWritten(home, raws[0]) then [raws[0]] else []) + AbsoluteOnes(home, raws[1..])
  }

  datatype Targets = Targets(
    sub: string, repo: Path, paths: seq<Path>, unresolved: bool, absolute: seq<Path>,
    readOnly: bool, workTrees: seq<Path>, gitDirs: seq<Path>)

  function Start(base: Path): Addressing { Addressing(base, false, false, [], [], []) }

  function TargetsOf(home: string, a: Addressing, tail: seq<string>): Targets
  {
    var sub := if tail == [] then "" else Unquote(tail[0]);
    var operands := if tail == [] then [] else UnquoteAll(tail[1..]);
    var raws := TreeOperands(sub, operands);
    Targets(sub, a.repo, ResolveAll(home, a.repo, raws), a.unresolved,
            (if a.absoluteBase then [a.repo] else []) + ResolveAll(home, a.repo, a.absolute)
              + ResolveAll(home, a.repo, AbsoluteOnes(home, raws)),
            ReadOnly(sub, BeforeDashes(operands)),
            ResolveAll(home, a.repo, a.workTrees), ResolveAll(home, a.repo, a.gitDirs))
  }

  function ReadFrom(home: string, args: seq<string>, start: Addressing): Targets
  {
    var (a, tail) := ReadOptions(home, args, start);
    TargetsOf(home, a, tail)
  }

  function Read(home: string, args: seq<string>, base: Path): Targets
  {
    ReadFrom(home, args, Start(base))
  }

  method OptionAt(args: seq<string>, k: nat, ghost tail: seq<string>) returns (name: string, value: string, next: nat)
    requires k < |args| && IsOption(args[k]) && tail == args[k..]
    ensures k < next <= |args| && HeadOption(tail) == Opt(name, value, next - k)
  {
    var t := Unquote(args[k]);
    var eq := IndexOf(t, '=');
    ghost var rest := args[k + 1..];
    assert tail[0] == args[k] && tail[1..] == rest;
    name, value, next := if eq == |t| then t else t[..eq], if eq == |t| then "" else Unquote(t[eq + 1..]), k + 1;
    if eq == |t| && name in OPTS_WITH_OPERAND && k + 1 < |args| {
      assert rest[0] == args[k + 1];
      value := Unquote(args[k + 1]);
      next := k + 2;
    }
    assert OptionOf(t, eq, rest) == Opt(name, value, next - k);
  }

  lemma ReadStep(home: string, tail: seq<string>, more: seq<string>, a: Addressing, o: Opt)
    requires tail != [] && IsOption(tail[0]) && HeadOption(tail) == o && more == tail[o.width..]
    ensures ReadFrom(home, tail, a) == ReadFrom(home, more, Designate(home, a, o.name, o.value))
  {
  }

  method GitTargets(home: string, args: seq<string>, base: Path) returns (targets: Targets)
    ensures targets == Read(home, args, base)
  {
    var repo, unresolved, absoluteBase := base, false, false;
    var workTrees: seq<string>, gitDirs: seq<string>, absolute: seq<string> := [], [], [];
    ghost var a, tail := Start(base), args;
    var k := 0;
    while k < |args| && IsOption(args[k])
      invariant 0 <= k <= |args| && tail == args[k..]
      invariant a == Addressing(repo, unresolved, absoluteBase, workTrees, gitDirs, absolute)
      invariant ReadFrom(home, tail, a) == Read(home, args, base)
    {
      var name, value, next := OptionAt(args, k, tail);
      DropDrop(args, k, next - k);
      ReadStep(home, tail, args[next..], a, Opt(name, value, next - k));
      ghost var after := Designate(home, a, name, value);
      if value != "" && Addresses(name) {
        if Unexpanded(value) {
          if name == "-C" {
            unresolved, absoluteBase := true, false;
          }
        } else if name == "-C" {
          repo := Resolve(home, repo, value);
          absoluteBase := AbsoluteAsWritten(home, value);
        } else {
          if name == "--work-tree" {
            workTrees := workTrees + [value];
          } else {
            gitDirs := gitDirs + [value];
          }
          if AbsoluteAsWritten(home, value) {
            absolute := absolute + [value];
          }
        }
      }
      assert after == Addressing(repo, unresolved, absoluteBase, workTrees, gitDirs, absolute);
      a, tail, k := after, args[next..], next;
    }
    targets := TargetsOf(home, Addressing(repo, unresolved, absoluteBase, workTrees, gitDirs, absolute), args[k..]);
  }

  // ----- What the shell may yet make of the tokens -----

  predicate QuoteFree(v: string)
  {
    forall i :: 0 <= i < |v| ==> !Quote(v[i])
  }

  predicate Word(v: string) { v != "" && QuoteFree(v) }

  /** `after` is `before` with every unexpanded addressing operand replaced by some quote-free word. */
  ghost predicate Substitutes(before: seq<string>, after: seq<string>)
    decreases |before|
  {
    if before == [] || !IsOption(before[0]) then after == before else
    var o := HeadOption(before);
    && |after| >= o.width
    && Substitutes(before[o.width..], after[o.width..])
    && if Addresses(o.name) && Unexpanded(o.value) then
         if o.width == 2 then after[0] == before[0] && Word(after[1])
         else exists v :: Word(v) && after[0] == o.name + "=" + v
       else after[..o.width] == before[..o.width]
  }

  lemma {:induction false} UnquoteKeeps(v: string)
    requires v != "" && !Quote(v[0]) && !Quote(v[|v| - 1])
    ensures Unquote(v) == v
  {
  }

  lemma NameAndWord(name: string, v: string)
    requires name != "" && name[0] == '-' && '=' !in name && Word(v)
    ensures var t := name + "=" + v;
      Unquote(t) == t && IndexOf(t, '=') == |name| && t[..|name|] == name && t[|name| + 1..] == v && Unquote(v) == v
  {
    var t := name + "=" + v;
    UnquoteKeeps(t);
    UnquoteKeeps(v);
    IndexOfIs(t, |name|, '=');
  }

  lemma OptionName(args: seq<string>)
    requires args != [] && IsOption(args[0])
    ensures var o := HeadOption(args);
      && (o.width == 1 && o.value != "" ==> o.name != "" && o.name[0] == '-' && '=' !in o.name)
      && (o.width == 2 ==> |args| >= 2)
  {
    IndexOfSpec(Unquote(args[0]), '=');
  }

  /** With another operand in the next token, an option has that operand. */
  lemma OtherOperand(t: string, eq: nat, rest: seq<string>, other: seq<string>)
    requires |rest| == |other|
    ensures var o, p := OptionOf(t, eq, rest), OptionOf(t, eq, other);
      p.name == o.name && p.width == o.width && p.value == if o.width == 2 then Unquote(other[0]) else o.value
    ensures OptionOf(t, eq, rest).width == 2 ==> OptionOf(t, eq, rest).value == Unquote(rest[0])
  {
  }

  lemma SameToken(before: seq<string>, after: seq<string>)
    requires before != [] && |after| == |before| && after[0] == before[0] && IsOption(before[0])
    ensures var o, p := HeadOption(before), HeadOption(after);
      p.name == o.name && p.width == o.width
      && (o.width == 1 ==> p == o) && (o.width == 2 ==> |after| >= 2 && o.value == Unquote(before[1]) && p.value == Unquote(after[1]))
  {
    var rest, other := before[1..], after[1..];
    assert |before| >= 2 ==> rest[0] == before[1] && other[0] == after[1];
    OtherOperand(Unquote(before[0]), IndexOf(Unquote(before[0]), '='), rest, other);
  }

  lemma AssignedWord(after: seq<string>, name: string, v: string)
    requires after != [] && after[0] == name + "=" + v && name != "" && name[0] == '-' && '=' !in name && Word(v)
    ensures IsOption(after[0]) && HeadOption(after) == Opt(name, v, 1)
  {
    NameAndWord(name, v);
  }

  lemma SubstitutedOption(before: seq<string>, after: seq<string>)
    requires before != [] && IsOption(before[0]) && Substitutes(before, after)
    ensures after != [] && IsOption(after[0])
    ensures var o, p := HeadOption(before), HeadOption(after);
      && p.name == o.name && p.width == o.width
      && (if Addresses(o.name) && Unexpanded(o.value) then p.value != "" else p.value == o.value)
  {
    var o := HeadOption(before);
    SubstitutesLength(before, after);
    OptionName(before);
    if !(Addresses(o.name) && Unexpanded(o.value)) {
      SamePrefix(before, after, o.width);
      SameToken(before, after);
    } else if o.width == 2 {
      SameToken(before, after);
      UnquoteKeeps(after[1]);
    } else {
      var v :| Word(v) && after[0] == o.name + "=" + v;
      AssignedWord(after, o.name, v);
    }
  }

  lemma {:induction false} SubstitutesLength(before: seq<string>, after: seq<string>)
    requires Substitutes(before, after)
    ensures |after| == |before|
    decreases |before|
  {
    if before != [] && IsOption(before[0]) {
      var o := HeadOption(before);
      SubstitutesLength(before[o.width..], after[o.width..]);
    }
  }

  /** How the two readings stay related: what one run keeps of its addressing, the other has too. */
  ghost predicate Tracks(a: Addressing, b: Addressing)
  {
    && (!a.unresolved || a.absoluteBase ==> a.repo == b.repo)
    && (forall v :: v in a.workTrees ==> v in b.workTrees)
    && (forall v :: v in a.gitDirs ==> v in b.gitDirs)
    && (forall v :: v in a.absolute ==> v in a.workTrees || v in a.gitDirs)
  }

  ghost predicate AllAbsolute(home: string, raws: seq<string>)
  {
    forall v :: v in raws ==> AbsoluteAsWritten(home, v)
  }

  /** An absolute spelling resolves to one place from every base. */
  lemma AbsoluteIgnoresBase(home: string, p: string, b1: Path, b2: Path)
    requires UsableHome(home) && AbsoluteAsWritten(home, p)
    ensures Resolve(home, b1, p) == Resolve(home, b2, p)
  {
    assert Rooted(Expand(home, p));
  }

  lemma DesignateTracks(home: string, a: Addressing, b: Addressing, name: string, v: string, w: string)
    requires UsableHome(home) && Tracks(a, b)
    requires if Addresses(name) && Unexpanded(v) then w != "" else w == v
    ensures Tracks(Designate(home, a, name, v), Designate(home, b, name, w))
    ensures AllAbsolute(home, a.absolute) ==> AllAbsolute(home, Designate(home, a, name, v).absolute)
  {
    if name == "-C" && v == w && v != "" && !Unexpanded(v) && AbsoluteAsWritten(home, v) {
      AbsoluteIgnoresBase(home, v, a.repo, b.repo);
    }
  }

  lemma {:induction false} ReadTracks(home: string, before: seq<string>, after: seq<string>, a: Addressing, b: Addressing)
    requires UsableHome(home) && Substitutes(before, after) && Tracks(a, b) && AllAbsolute(home, a.absolute)
    ensures var (x, s) := ReadOptions(home, before, a); var (y, t) := ReadOptions(home, after, b);
      Tracks(x, y) && s == t && AllAbsolute(home, x.absolute)
    decreases |before|
  {
    if before != [] && IsOption(before[0]) {
      SubstitutedOption(before, after);
      var o, p := HeadOption(before), HeadOption(after);
      DesignateTracks(home, a, b, o.name, o.value, p.value);
      ReadTracks(home, before[o.width..], after[o.width..],
                 Designate(home, a, o.name, o.value), Designate(home, b, p.name, p.value));
    }
  }

  /** Every place a reading of the command line puts under judgement. */
  predicate Candidate(t: Targets, p: Path)
  {
    p == t.repo || p in t.workTrees || p in t.gitDirs || p in t.paths
  }

  lemma ResolvedIn(home: string, base: Path, raws: seq<string>, v: string)
    requires v in raws
    ensures Resolve(home, base, v) in ResolveAll(home, base, raws)
  {
    var i :| 0 <= i < |raws| && raws[i] == v;
    assert ResolveAll(home, base, raws)[i] == Resolve(home, base, v);
  }

  lemma AbsoluteDesignation(home: string, a: Addressing, b: Addressing, p: Path)
    requires UsableHome(home) && Tracks(a, b) && AllAbsolute(home, a.absolute)
    requires p in ResolveAll(home, a.repo, a.absolute)
    ensures p in ResolveAll(home, b.repo, b.workTrees) || p in ResolveAll(home, b.repo, b.gitDirs)
  {
    var i :| 0 <= i < |a.absolute| && p == Resolve(home, a.repo, a.absolute[i]);
    var v := a.absolute[i];
    AbsoluteIgnoresBase(home, v, a.repo, b.repo);
    if v in a.workTrees { ResolvedIn(home, b.repo, b.workTrees, v); } else { ResolvedIn(home, b.repo, b.gitDirs, v); }
  }

  lemma AbsoluteOperand(home: string, base1: Path, base2: Path, raws: seq<string>, p: Path)
    requires UsableHome(home) && p in ResolveAll(home, base1, AbsoluteOnes(home, raws))
    ensures p in ResolveAll(home, base2, raws)
  {
    var kept := AbsoluteOnes(home, raws);
    var i :| 0 <= i < |kept| && p == Resolve(home, base1, kept[i]);
    AbsoluteIgnoresBase(home, kept[i], base1, base2);
    ResolvedIn(home, base2, raws, kept[i]);
  }

  lemma SameDesignations(home: string, base: Path, raws: seq<string>, more: seq<string>, p: Path)
    requires (forall v :: v in raws ==> v in more) && p in ResolveAll(home, base, raws)
    ensures p in ResolveAll(home, base, more)
  {
    var i :| 0 <= i < |raws| && p == Resolve(home, base, raws[i]);
    ResolvedIn(home, base, more, raws[i]);
  }

  /** Non-interference: a place reported as absolute is judged whatever the shell makes of the unexpanded tokens. */
  lemma AbsoluteIsIndependent(home: string, before: seq<string>, after: seq<string>, base: Path, p: Path)
    requires UsableHome(home) && Substitutes(before, after)
    requires p in Read(home, before, base).absolute
    ensures Candidate(Read(home, after, base), p)
  {
    var (a, tail) := ReadOptions(home, before, Start(base));
    var (b, tail2) := ReadOptions(home, after, Start(base));
    ReadTracks(home, before, after, Start(base), Start(base));
    if p in ResolveAll(home, a.repo, a.absolute) {
      AbsoluteDesignation(home, a, b, p);
    } else if tail != [] {
      var raws := TreeOperands(Unquote(tail[0]), UnquoteAll(tail[1..]));
      if p in ResolveAll(home, a.repo, AbsoluteOnes(home, raws)) { AbsoluteOperand(home, a.repo, b.repo, raws, p); }
    }
  }

  /** When no `-C` is left unexpanded, the base and every reported candidate are those of every substitution. */
  lemma ResolvedBaseIsIndependent(home: string, before: seq<string>, after: seq<string>, base: Path, p: Path)
    requires UsableHome(home) && Substitutes(before, after)
    requires !Read(home, before, base).unresolved && Candidate(Read(home, before, base), p)
    ensures Candidate(Read(home, after, base), p) && Read(home, after, base).repo == Read(home, before, base).repo
  {
    var (a, tail) := ReadOptions(home, before, Start(base));
    var (b, tail2) := ReadOptions(home, after, Start(base));
    ReadTracks(home, before, after, Start(base), Start(base));
    if p in ResolveAll(home, a.repo, a.workTrees) { SameDesignations(home, a.repo, a.workTrees, b.workTrees, p); }
    if p in ResolveAll(home, a.repo, a.gitDirs) { SameDesignations(home, a.repo, a.gitDirs, b.gitDirs, p); }
  }

  // ----- Whether the command changes anything -----

  lemma {:induction false} SameTail(home: string, before: seq<string>, after: seq<string>, a: Addressing, b: Addressing)
    requires Substitutes(before, after)
    ensures ReadOptions(home, before, a).1 == ReadOptions(home, after, b).1
    decreases |before|
  {
    if before != [] && IsOption(before[0]) {
      SubstitutedOption(before, after);
      var o, p := HeadOption(before), HeadOption(after);
      SameTail(home, before[o.width..], after[o.width..], Designate(home, a, o.name, o.value), Designate(home, b, p.name, p.value));
    }
  }

  /** Whatever the shell makes of the unexpanded addressing, the subcommand is the same, and it changes something or not. */
  lemma ReadOnlyIsIndependent(home: string, before: seq<string>, after: seq<string>, base: Path)
    requires Substitutes(before, after)
    ensures Read(home, after, base).sub == Read(home, before, base).sub
    ensures Read(home, after, base).readOnly == Read(home, before, base).readOnly
  {
    SameTail(home, before, after, Start(base), Start(base));
  }

  lemma SameOperand(t: string, eq: nat, rest: seq<string>, other: seq<string>)
    requires rest != [] && other != [] && rest[0] == other[0]
    ensures OptionOf(t, eq, rest) == OptionOf(t, eq, other)
  {
  }

  lemma OptionWithMore(args: seq<string>, more: seq<string>, all: seq<string>, o: Opt, rest: seq<string>)
    requires |args| >= 2 && IsOption(args[0]) && all == args + more && o == HeadOption(args) && rest == args[o.width..]
    ensures all != [] && IsOption(all[0]) && HeadOption(all) == o && all[o.width..] == rest + more
  {
    var next, other := args[1..], all[1..];
    assert next[0] == args[1] && other[0] == args[1];
    SameOperand(Unquote(args[0]), IndexOf(Unquote(args[0]), '='), next, other);
    DropConcat(args, more, o.width);
  }

  lemma ReadOption(home: string, args: seq<string>, a: Addressing, o: Opt, rest: seq<string>)
    requires args != [] && IsOption(args[0]) && o == HeadOption(args) && rest == args[o.width..]
    ensures ReadOptions(home, args, a) == ReadOptions(home, rest, Designate(home, a, o.name, o.value))
    ensures rest == [] ==> ReadOptions(home, args, a).1 == []
    ensures rest != [] ==> |args| >= 2
  {
  }

  /** Tokens after a subcommand stay after it. */
  lemma {:induction false} TailWithMore(home: string, args: seq<string>, more: seq<string>, all: seq<string>, a: Addressing)
    requires ReadOptions(home, args, a).1 != [] && all == args + more
    ensures ReadOptions(home, all, a) == (ReadOptions(home, args, a).0, ReadOptions(home, args, a).1 + more)
    decreases |args|
  {
    if IsOption(args[0]) {
      var o := HeadOption(args);
      var rest := args[o.width..];
      var b := Designate(home, a, o.name, o.value);
      ReadOption(home, args, a, o, rest);
      OptionWithMore(args, more, all, o, rest);
      ReadOption(home, all, a, o, rest + more);
      TailWithMore(home, rest, more, rest + more, b);
    }
  }

  lemma {:induction false} BeforeDashesOf(operands: seq<string>, files: seq<string>)
    ensures BeforeDashes(operands + ["--"] + files) == BeforeDashes(operands)
  {
    var all := operands + ["--"] + files;
    if operands == [] {
      assert all[0] == "--";
    } else {
      assert all[0] == operands[0] && all[1..] == operands[1..] + ["--"] + files;
      BeforeDashesOf(operands[1..], files);
    }
  }

  lemma UnquoteAllWith(operands: seq<string>, files: seq<string>)
    ensures UnquoteAll(operands + (["--"] + files)) == UnquoteAll(operands) + ["--"] + UnquoteAll(files)
  {
    UnquoteAllConcat(operands, ["--"] + files);
    UnquoteAllConcat(["--"], files);
    UnquoteDashes();
    assert UnquoteAll(["--"]) == ["--"];
    assert UnquoteAll(operands) + (["--"] + UnquoteAll(files)) == UnquoteAll(operands) + ["--"] + UnquoteAll(files);
  }

  lemma UnquoteDashes()
    ensures Unquote("--") == "--"
  {
    UnquoteKeeps("--");
  }

  lemma UnquoteAllConcat(a: seq<string>, b: seq<string>)
    ensures UnquoteAll(a + b) == UnquoteAll(a) + UnquoteAll(b)
  {
  }

  lemma FilesAreNotFlags(home: string, a: Addressing, tail: seq<string>, operands: seq<string>, files: seq<string>, all: seq<string>)
    requires tail != [] && operands == tail[1..] && all == tail + (["--"] + files)
    ensures TargetsOf(home, a, all).sub == TargetsOf(home, a, tail).sub
    ensures TargetsOf(home, a, all).readOnly == TargetsOf(home, a, tail).readOnly
  {
    assert all[0] == tail[0] && all[1..] == operands + (["--"] + files);
    UnquoteAllWith(operands, files);
    BeforeDashesOf(UnquoteAll(operands), UnquoteAll(files));
  }

  /** A file named after `--` is no flag: it makes no dry run of a command, and no change of a dry run. */
  lemma PathspecsAreNotFlags(home: string, args: seq<string>, files: seq<string>, base: Path)
    requires ReadOptions(home, args, Start(base)).1 != []
    ensures Read(home, args + (["--"] + files), base).sub == Read(home, args, base).sub
    ensures Read(home, args + (["--"] + files), base).readOnly == Read(home, args, base).readOnly
  {
    var (a, tail) := ReadOptions(home, args, Start(base));
    TailWithMore(home, args, ["--"] + files, args + (["--"] + files), Start(base));
    FilesAreNotFlags(home, a, tail, tail[1..], files, tail + (["--"] + files));
  }

  // ----- A home directory that is not absolute defeats the probe -----

  lemma {:induction false} WalkKeepsFirst(base: Path, segments: seq<string>)
    requires |base| > |segments|
    ensures Walk(base, segments) != [] && Walk(base, segments)[0] == base[0]
    decreases |segments|
  {
    if segments != [] {
      var s := segments[0];
      WalkKeepsFirst(if s == "" || s == "." then base else if s == ".." then base[..|base| - 1] else base + [s], segments[1..]);
    }
  }

  lemma {:induction false} WalkAddsSegments(base: Path, segments: seq<string>, d: string)
    requires d in Walk(base, segments)
    ensures d in base || d in segments
    decreases |segments|
  {
    if segments != [] {
      var s := segments[0];
      var next := if s == "" || s == "." then base
                  else if s == ".." then (if base == [] then [] else base[..|base| - 1]) else base + [s];
      WalkAddsSegments(next, segments[1..], d);
    }
  }

  lemma {:induction false} PartsAreShort(parts: seq<string>, sep: char)
    ensures forall i :: 0 <= i < |parts| ==> |parts[i]| <= |Join(parts, sep)|
  {
    if |parts| > 1 {
      PartsAreShort(parts[1..], sep);
      assert forall i :: 1 <= i < |parts| ==> parts[i] == parts[1..][i - 1];
    }
  }

  /** An option name that takes its operand from the next token. */
  predicate TakesOperand(name: string)
  {
    name != "" && name[0] == '-' && '=' !in name && Unquote(name) == name && name in OPTS_WITH_OPERAND
  }

  lemma OperandNames()
    ensures TakesOperand("-C") && TakesOperand("--work-tree")
  {
    UnquoteKeeps("-C");
    UnquoteKeeps("--work-tree");
  }

  lemma HeadWithOperand(args: seq<string>, name: string, v: string)
    requires |args| >= 2 && args[0] == name && args[1] == v && Word(v) && TakesOperand(name)
    ensures IsOption(args[0]) && HeadOption(args) == Opt(name, v, 2)
  {
    UnquoteKeeps(v);
    IndexOfIs(name, |name|, '=');
  }

  /** The command line `-C <operand> --work-tree <tree>`, and no subcommand. */
  function TwoOptions(operand: string, tree: string): seq<string>
  {
    ["-C", operand] + ["--work-tree", tree]
  }

  lemma ReadTwoOptions(home: string, operand: string, tree: string, base: Path)
    requires Word(operand) && Word(tree) && !Unexpanded(tree)
    ensures var a := Designate(home, Start(base), "-C", operand);
      Read(home, TwoOptions(operand, tree), base) == TargetsOf(home, Designate(home, a, "--work-tree", tree), [])
  {
    var args, rest := TwoOptions(operand, tree), ["--work-tree", tree];
    var a := Designate(home, Start(base), "-C", operand);
    OperandNames();
    HeadWithOperand(args, "-C", operand);
    HeadWithOperand(rest, "--work-tree", tree);
    assert args[2..] == rest && rest[2..] == [];
    assert ReadOptions(home, args, Start(base)) == ReadOptions(home, rest, a);
    assert ReadOptions(home, rest, a) == ReadOptions(home, [], Designate(home, a, "--work-tree", tree));
  }

  lemma TwoOptionsSubstitute(operand: string, word: string, tree: string)
    requires Word(operand) && Unexpanded(operand) && Word(word) && Word(tree) && !Unexpanded(tree)
    ensures Substitutes(TwoOptions(operand, tree), TwoOptions(word, tree))
  {
    var before, after, rest := TwoOptions(operand, tree), TwoOptions(word, tree), ["--work-tree", tree];
    OperandNames();
    HeadWithOperand(before, "-C", operand);
    HeadWithOperand(rest, "--work-tree", tree);
    assert before[2..] == rest && after[2..] == rest && rest[2..] == [];
  }

  lemma ResolveHome(home: string, base: Path)
    requires !UsableHome(home)
    ensures Resolve(home, base, "~") == Walk(base, Split(home, '/'))
    ensures AbsoluteAsWritten(home, "~")
  {
    assert Expand(home, "~") == home + "" == home;
  }

  lemma ResolveRoot(home: string, base: Path)
    ensures Resolve(home, base, "/") == [] && !Unexpanded("/")
  {
    assert Join(["", ""], '/') == "/";
    SplitOfJoin(["", ""], '/');
    assert ["", ""][1..] == [""] && [""][1..] == [];
  }

  lemma FarBase(home: string) returns (base: Path)
    ensures Walk(base, Split(home, '/')) != [] && Walk(base, Split(home, '/')) != Walk([], Split(home, '/'))
  {
    var segments, far := Split(home, '/'), seq(|home| + 1, _ => 'x');
    SplitSpec(home, '/');
    base := seq(|segments| + 1, _ => far);
    WalkKeepsFirst(base, segments);
    PartsAreShort(segments, '/');
    if far in Walk([], segments) { WalkAddsSegments([], segments, far); }
  }

  lemma ReportsTilde(home: string, base: Path)
    requires !UsableHome(home)
    ensures Walk(base, Split(home, '/')) in Read(home, TwoOptions("$", "~"), base).absolute
  {
    ReadTwoOptions(home, "$", "~", base);
    ResolveHome(home, base);
    var a := Designate(home, Start(base), "-C", "$");
    assert a == Start(base).(unresolved := true);
    var b := Designate(home, a, "--work-tree", "~");
    assert b.absolute == ["~"] && b.repo == base;
    assert ResolveAll(home, base, ["~"])[0] == Resolve(home, base, "~");
  }

  lemma DesignateRoot(home: string, base: Path)
    ensures Designate(home, Start(base), "-C", "/") == Addressing([], false, AbsoluteAsWritten(home, "/"), [], [], [])
  {
    ResolveRoot(home, base);
  }

  lemma OneTree(home: string, a: Addressing, t: Targets, p: Path)
    requires a.workTrees == ["~"] && a.gitDirs == [] && t == TargetsOf(home, a, []) && Candidate(t, p)
    ensures p == a.repo || p == Resolve(home, a.repo, "~")
  {
  }

  lemma DesignateTree(home: string, a: Addressing)
    ensures Designate(home, a, "--work-tree", "~").workTrees == a.workTrees + ["~"]
    ensures Designate(home, a, "--work-tree", "~").gitDirs == a.gitDirs
    ensures Designate(home, a, "--work-tree", "~").repo == a.repo
  {
  }

  lemma JudgesRoot(home: string, base: Path, t: Targets, p: Path)
    requires !UsableHome(home) && t == Read(home, TwoOptions("/", "~"), base) && Candidate(t, p)
    ensures p == [] || p == Walk([], Split(home, '/'))
  {
    var a := Designate(home, Start(base), "-C", "/");
    var b := Designate(home, a, "--work-tree", "~");
    assert t == TargetsOf(home, b, []) by { ReadTwoOptions(home, "/", "~", base); }
    DesignateRoot(home, base);
    DesignateTree(home, a);
    OneTree(home, b, t, p);
    ResolveHome(home, []);
  }

  /** For every home that is neither empty nor absolute, some command line reports a place that a substitution moves. */
  lemma UnusableHomeMisleads(home: string) returns (before: seq<string>, after: seq<string>, base: Path, p: Path)
    requires !UsableHome(home)
    ensures Substitutes(before, after) && p in Read(home, before, base).absolute
    ensures !Candidate(Read(home, after, base), p)
  {
    before, after := TwoOptions("$", "~"), TwoOptions("/", "~");
    TwoOptionsSubstitute("$", "/", "~");
    base := FarBase(home);
    p := Walk(base, Split(home, '/'));
    ReportsTilde(home, base);
    if Candidate(Read(home, after, base), p) { JudgesRoot(home, base, Read(home, after, base), p); }
  }
}
