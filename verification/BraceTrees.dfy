/** Brace expansion computes the ordered cartesian product of the alternatives it is given. */
module BraceTrees {
  import opened Text
  import opened Braces
  import opened BraceRanges

  /** Text as its author means it: plain characters, ranges, braces that mean nothing, and alternations of two or more branches. */
  datatype Tree =
    | Done
    | Plain(c: char, rest: Tree)
    | Braced(inner: Inner, rest: Tree)
    | Alt(branches: Branches, after: Tree)

  /** Braces without a comma of their own: a range, or plain text that stays as it is. */
  datatype Inner = Span(range: Bounds) | Group(text: string)

  function InnerText(inner: Inner): string
  {
    match inner
    case Span(range) => Inside(range)
    case Group(text) => text
  }

  predicate WellFormedInner(inner: Inner)
  {
    match inner
    case Span(range) => WellFormedBounds(range)
    case Group(text) => PlainText(text) && !HasDots(text)
  }

  datatype Branches = Last(only: Tree) | More(first: Tree, others: Branches)

  function Print(t: Tree): string
  {
    match t
    case Done => ""
    case Plain(c, rest) => [c] + Print(rest)
    case Braced(inner, rest) => "{" + InnerText(inner) + "}" + Print(rest)
    case Alt(branches, after) => "{" + PrintBranches(branches) + "}" + Print(after)
  }

  function PrintBranches(bs: Branches): string
  {
    match bs
    case Last(t) => Print(t)
    case More(t, others) => Print(t) + "," + PrintBranches(others)
  }

  predicate WellFormed(t: Tree)
  {
    match t
    case Done => true
    case Plain(c, rest) => c != '{' && c != '}' && c != ',' && WellFormed(rest)
    case Braced(inner, rest) => WellFormedInner(inner) && WellFormed(rest)
    case Alt(branches, after) => branches.More? && WellFormedBranches(branches) && WellFormed(after)
  }

  predicate WellFormedBranches(bs: Branches)
  {
    match bs
    case Last(t) => WellFormed(t)
    case More(t, others) => WellFormed(t) && WellFormedBranches(others)
  }

  // ----- The words a tree stands for -----

  function Prefixed(u: string, vs: seq<string>): (r: seq<string>)
    ensures |r| == |vs| && forall i :: 0 <= i < |vs| ==> r[i] == u + vs[i]
  {
    if vs == [] then [] else [u + vs[0]] + Prefixed(u, vs[1..])
  }

  /** Every word of `us` followed by every word of `vs`, the left choice varying slowest. */
  function Cross(us: seq<string>, vs: seq<string>): seq<string>
  {
    if us == [] then [] else Prefixed(us[0], vs) + Cross(us[1..], vs)
  }

  function Words(t: Tree): seq<string>
  {
    match t
    case Done => [""]
    case Plain(c, rest) => Cross([[c]], Words(rest))
    case Braced(inner, rest) => Cross(InnerWords(inner), Words(rest))
    case Alt(branches, after) => Cross(BranchWords(branches), Words(after))
  }

  function InnerWords(inner: Inner): (r: seq<string>)
    ensures |r| >= 1
  {
    if inner.Span? && WellFormedInner(inner) then RangeWords(inner.range) else ["{" + InnerText(inner) + "}"]
  }

  function BranchWords(bs: Branches): seq<string>
  {
    match bs
    case Last(t) => Words(t)
    case More(t, others) => Words(t) + BranchWords(others)
  }

  lemma PrefixedTwice(u: string, v: string, ws: seq<string>)
    ensures Prefixed(u, Prefixed(v, ws)) == Prefixed(u + v, ws)
  {
    forall i | 0 <= i < |ws| ensures u + (v + ws[i]) == u + v + ws[i] { Assoc(u, v, ws[i]); }
  }

  lemma PrefixedConcat(u: string, vs: seq<string>, ws: seq<string>)
    ensures Prefixed(u, vs + ws) == Prefixed(u, vs) + Prefixed(u, ws)
  {
  }

  lemma {:induction false} CrossConcat(us: seq<string>, vs: seq<string>, ws: seq<string>)
    ensures Cross(us + vs, ws) == Cross(us, ws) + Cross(vs, ws)
  {
    if us == [] {
      assert us + vs == vs;
    } else {
      assert (us + vs)[1..] == us[1..] + vs;
      CrossConcat(us[1..], vs, ws);
      Assoc(Prefixed(us[0], ws), Cross(us[1..], ws), Cross(vs, ws));
    }
  }

  lemma {:induction false} CrossPrefixed(u: string, vs: seq<string>, ws: seq<string>)
    ensures Cross(Prefixed(u, vs), ws) == Prefixed(u, Cross(vs, ws))
  {
    if vs != [] {
      assert Prefixed(u, vs)[1..] == Prefixed(u, vs[1..]);
      CrossPrefixed(u, vs[1..], ws);
      PrefixedTwice(u, vs[0], ws);
      PrefixedConcat(u, Prefixed(vs[0], ws), Cross(vs[1..], ws));
    }
  }

  lemma {:induction false} CrossAssoc(us: seq<string>, vs: seq<string>, ws: seq<string>)
    ensures Cross(Cross(us, vs), ws) == Cross(us, Cross(vs, ws))
  {
    if us != [] {
      CrossConcat(Prefixed(us[0], vs), Cross(us[1..], vs), ws);
      CrossPrefixed(us[0], vs, ws);
      CrossAssoc(us[1..], vs, ws);
    }
  }

  lemma CrossOne(c: char, ws: seq<string>)
    ensures Cross([[c]], ws) == Prefixed([c], ws)
  {
    assert Cross([[c]][1..], ws) == [];
  }

  lemma CrossUnit(us: seq<string>)
    ensures Cross([""], us) == us
  {
    assert Cross([""][1..], us) == [];
    assert forall i :: 0 <= i < |us| ==> "" + us[i] == us[i];
  }

  // ----- Putting one tree after another -----

  function Append(t: Tree, u: Tree): Tree
  {
    match t
    case Done => u
    case Plain(c, rest) => Plain(c, Append(rest, u))
    case Braced(inner, rest) => Braced(inner, Append(rest, u))
    case Alt(branches, after) => Alt(branches, Append(after, u))
  }

  function Alts(t: Tree): nat
  {
    match t
    case Done => 0
    case Plain(c, rest) => Alts(rest)
    case Braced(_, rest) => 1 + Alts(rest)
    case Alt(branches, after) => 1 + BranchAlts(branches) + Alts(after)
  }

  function BranchAlts(bs: Branches): nat
  {
    match bs
    case Last(t) => Alts(t)
    case More(t, others) => Alts(t) + BranchAlts(others)
  }

  lemma {:induction false} AppendFacts(t: Tree, u: Tree)
    requires WellFormed(t) && WellFormed(u)
    ensures Print(Append(t, u)) == Print(t) + Print(u)
    ensures WellFormed(Append(t, u))
    ensures Alts(Append(t, u)) == Alts(t) + Alts(u)
    ensures Words(Append(t, u)) == Cross(Words(t), Words(u))
  {
    match t {
      case Done =>
        assert "" + Print(u) == Print(u);
        CrossUnit(Words(u));
      case Plain(c, rest) =>
        AppendFacts(rest, u);
        Assoc([c], Print(rest), Print(u));
        CrossAssoc([[c]], Words(rest), Words(u));
      case Braced(inner, rest) =>
        AppendFacts(rest, u);
        Assoc("{" + InnerText(inner) + "}", Print(rest), Print(u));
        CrossAssoc(InnerWords(inner), Words(rest), Words(u));
      case Alt(branches, after) =>
        AppendFacts(after, u);
        Assoc("{" + PrintBranches(branches) + "}", Print(after), Print(u));
        CrossAssoc(BranchWords(branches), Words(after), Words(u));
    }
  }

  lemma {:induction false} WordsExist(t: Tree)
    ensures |Words(t)| >= 1
  {
    match t {
      case Done =>
      case Plain(c, rest) => WordsExist(rest); CrossLength([[c]], Words(rest));
      case Braced(inner, rest) => WordsExist(rest); CrossLength(InnerWords(inner), Words(rest));
      case Alt(branches, after) => BranchWordsExist(branches); WordsExist(after); CrossLength(BranchWords(branches), Words(after));
    }
  }

  lemma {:induction false} BranchWordsExist(bs: Branches)
    ensures |BranchWords(bs)| >= 1
  {
    WordsExist(if bs.Last? then bs.only else bs.first);
  }

  /** A product has at least as many words as its first factor when the second has any. */
  lemma {:induction false} CrossLength(us: seq<string>, vs: seq<string>)
    requires |vs| >= 1
    ensures |Cross(us, vs)| >= |us|
  {
    if us != [] { CrossLength(us[1..], vs); }
  }

  // ----- The expander reads a printed tree back -----

  /** A printed tree is balanced: the search for a closing brace passes over it. */
  lemma {:induction false} CloseOver(s: string, i: nat, t: Tree, depth: nat)
    requires WellFormed(t) && depth >= 1 && At(s, i, Print(t))
    ensures CloseFrom(s, i, depth) == CloseFrom(s, i + |Print(t)|, depth)
    decreases t
  {
    match t {
      case Done =>
      case Plain(c, rest) =>
        AtConcat(s, i, [c], Print(rest));
        assert s[i + 0] == [c][0];
        CloseOver(s, i + 1, rest, depth);
      case Braced(inner, rest) =>
        InnerIsPlain(inner);
        var next := CloseOverInner(s, i, InnerText(inner), Print(rest), depth, |Print(t)|);
        CloseOver(s, next, rest, depth);
      case Alt(branches, after) =>
        var n := |PrintBranches(branches)|;
        AtAlternation(s, i, PrintBranches(branches), Print(after));
        CloseOverBranches(s, i + 1, branches, depth + 1);
        CloseOver(s, i + n + 2, after, depth);
        CloseChain(s, i, n, |Print(after)|, depth);
    }
  }

  lemma InnerIsPlain(inner: Inner)
    requires WellFormedInner(inner)
    ensures PlainText(InnerText(inner))
  {
    if inner.Span? { InsideIsPlain(inner.range); }
  }

  lemma {:induction false} CloseOverText(s: string, i: nat, text: string, depth: nat)
    requires PlainText(text) && depth >= 1 && At(s, i, text)
    ensures CloseFrom(s, i, depth) == CloseFrom(s, i + |text|, depth)
    decreases |text|
  {
    if text != "" {
      assert text == [text[0]] + text[1..] && s[i + 0] == text[0];
      AtConcat(s, i, [text[0]], text[1..]);
      CloseOverText(s, i + 1, text[1..], depth);
    }
  }

  lemma CloseOverInner(s: string, i: nat, inside: string, rest: string, depth: nat, width: nat) returns (next: nat)
    requires PlainText(inside) && depth >= 1 && At(s, i, "{" + inside + "}" + rest) && width == |"{" + inside + "}" + rest|
    ensures next == i + width - |rest| && At(s, next, rest) && CloseFrom(s, i, depth) == CloseFrom(s, next, depth)
  {
    AtAlternation(s, i, inside, rest);
    CloseOverText(s, i + 1, inside, depth + 1);
    next := i + |inside| + 2;
  }

  lemma AtAlternation(s: string, i: nat, inside: string, after: string)
    requires At(s, i, "{" + inside + "}" + after)
    ensures |"{" + inside + "}" + after| == |inside| + 2 + |after| <= |s| - i
    ensures s[i] == '{' && s[i + 1 + |inside|] == '}'
    ensures At(s, i + 1, inside) && At(s, i + |inside| + 2, after)
  {
    AtConcat(s, i, "{" + inside + "}", after);
    AtConcat(s, i, "{" + inside, "}");
    AtConcat(s, i, "{", inside);
    assert s[i + 0] == "{"[0] && s[i + 1 + |inside| + 0] == "}"[0];
  }

  lemma CloseChain(s: string, i: nat, n: nat, m: nat, depth: nat)
    requires depth >= 1 && i + n + 2 + m <= |s| && s[i] == '{' && s[i + 1 + n] == '}'
    requires CloseFrom(s, i + 1, depth + 1) == CloseFrom(s, i + 1 + n, depth + 1)
    requires CloseFrom(s, i + n + 2, depth) == CloseFrom(s, i + n + 2 + m, depth)
    ensures CloseFrom(s, i, depth) == CloseFrom(s, i + n + 2 + m, depth)
  {
  }

  lemma {:induction false} CloseOverBranches(s: string, i: nat, bs: Branches, depth: nat)
    requires WellFormedBranches(bs) && depth >= 1 && At(s, i, PrintBranches(bs))
    ensures CloseFrom(s, i, depth) == CloseFrom(s, i + |PrintBranches(bs)|, depth)
    decreases bs
  {
    match bs {
      case Last(t) => CloseOver(s, i, t, depth);
      case More(t, others) =>
        AtConcat(s, i, Print(t) + ",", PrintBranches(others));
        AtConcat(s, i, Print(t), ",");
        assert s[i + |Print(t)| + 0] == ","[0];
        CloseOver(s, i, t, depth);
        CloseOverBranches(s, i + |Print(t)| + 1, others, depth);
    }
  }

  /** No comma of a printed tree is a top-level one, so it joins the current part whole. */
  lemma {:induction false} PartsOver(t: Tree, tail: string, depth: nat, current: string)
    requires WellFormed(t)
    ensures PartsFrom(Print(t) + tail, depth, current) == PartsFrom(tail, depth, current + Print(t))
  {
    var s := Print(t) + tail;
    match t {
      case Done => assert s == tail && current + "" == current;
      case Plain(c, rest) =>
        assert s[1..] == Print(rest) + tail;
        PartsOver(rest, tail, depth, current + [c]);
        Assoc(current, [c], Print(rest));
      case Braced(inner, rest) =>
        var group := "{" + InnerText(inner) + "}";
        InnerIsPlain(inner);
        PartsOverGroup(InnerText(inner), group, Print(rest), tail, s, depth, current);
        PartsOver(rest, tail, depth, current + group);
        Assoc(current, group, Print(rest));
      case Alt(branches, after) =>
        var more := Print(after) + tail;
        var seen := current + ['{'] + PrintBranches(branches);
        assert s[0] == '{' && s[1..] == PrintBranches(branches) + ("}" + more);
        PartsOverBranches(branches, "}" + more, depth + 1, current + ['{']);
        assert ("}" + more)[1..] == more;
        PartsOver(after, tail, depth, seen + ['}']);
        assert seen + ['}'] + Print(after) == current + Print(t);
    }
  }

  lemma {:induction false} PartsOverText(text: string, tail: string, s: string, depth: nat, current: string)
    requires PlainText(text) && s == text + tail
    ensures PartsFrom(s, depth, current) == PartsFrom(tail, depth, current + text)
    decreases |text|
  {
    if text == "" {
      assert s == tail && current + text == current;
    } else {
      assert s[0] == text[0] && s[1..] == text[1..] + tail;
      PartsOverText(text[1..], tail, s[1..], depth, current + [text[0]]);
      assert current + [text[0]] + text[1..] == current + text;
    }
  }

  lemma PartsOverGroup(inside: string, group: string, rest: string, tail: string, s: string, depth: nat, current: string)
    requires PlainText(inside) && group == "{" + inside + "}" && s == group + rest + tail
    ensures PartsFrom(s, depth, current) == PartsFrom(rest + tail, depth, current + group)
  {
    var after := rest + tail;
    var more := ['}'] + after;
    var all, seen := inside + more, current + ['{'];
    GroupText(inside, group, rest, tail, after, s);
    PartsOverBrace('{', all, s, depth, current);
    PartsOverText(inside, more, all, depth + 1, seen);
    PartsOverBrace('}', after, more, depth + 1, seen + inside);
    SeenGroup(current, inside, group);
  }

  lemma GroupText(inside: string, group: string, rest: string, tail: string, after: string, s: string)
    requires group == "{" + inside + "}" && s == group + rest + tail && after == rest + tail
    ensures s == ['{'] + (inside + (['}'] + after))
  {
    Assoc(group, rest, tail);
    Assoc("{" + inside, "}", after);
    Assoc("{", inside, "}" + after);
  }

  lemma SeenGroup(current: string, inside: string, group: string)
    requires group == "{" + inside + "}"
    ensures current + ['{'] + inside + ['}'] == current + group
  {
  }

  lemma PartsOverBrace(brace: char, rest: string, s: string, depth: nat, current: string)
    requires (brace == '{' || (brace == '}' && depth >= 1)) && s == [brace] + rest
    ensures PartsFrom(s, depth, current) == PartsFrom(rest, if brace == '{' then depth + 1 else depth - 1, current + [brace])
  {
    assert s[1..] == rest;
  }

  lemma {:induction false} PartsOverBranches(bs: Branches, tail: string, depth: nat, current: string)
    requires WellFormedBranches(bs) && depth >= 1
    ensures PartsFrom(PrintBranches(bs) + tail, depth, current) == PartsFrom(tail, depth, current + PrintBranches(bs))
  {
    match bs {
      case Last(t) => PartsOver(t, tail, depth, current);
      case More(t, others) =>
        var more := "," + (PrintBranches(others) + tail);
        assert PrintBranches(bs) + tail == Print(t) + more;
        PartsOver(t, more, depth, current);
        assert more[1..] == PrintBranches(others) + tail;
        PartsOverBranches(others, tail, depth, current + Print(t) + [',']);
        assert current + Print(t) + [','] + PrintBranches(others) == current + PrintBranches(bs);
    }
  }

  function Texts(bs: Branches): seq<string>
  {
    match bs
    case Last(t) => [Print(t)]
    case More(t, others) => [Print(t)] + Texts(others)
  }

  lemma {:induction false} PartsOfBranches(bs: Branches)
    requires WellFormedBranches(bs)
    ensures PartsFrom(PrintBranches(bs), 0, "") == Texts(bs)
  {
    match bs {
      case Last(t) =>
        assert Print(t) + "" == Print(t) && "" + Print(t) == Print(t);
        PartsOver(t, "", 0, "");
      case More(t, others) =>
        var more := "," + PrintBranches(others);
        assert PrintBranches(bs) == Print(t) + more && "" + Print(t) == Print(t);
        PartsOver(t, more, 0, "");
        assert more[1..] == PrintBranches(others);
        PartsOfBranches(others);
    }
  }

  // ----- The product, up to the budget -----

  /** The result holds exactly the words when they fit beside what is there, and is a refusal otherwise. */
  ghost predicate Expands(r: (bool, seq<string>), members: seq<string>, words: seq<string>)
  {
    if |members| + |words| <= BUDGET then r == (true, members + words) else !r.0
  }

  lemma TwoTexts(bs: Branches)
    requires WellFormedBranches(bs) && bs.More?
    ensures AlternativesOf(PrintBranches(bs)) == Choices(Texts(bs))
  {
    PartsOfBranches(bs);
    assert |Texts(bs.others)| >= 1;
  }

  lemma CutAlternation(text: string, pre: string, inside: string, tail: string)
    requires text == pre + ("{" + inside + "}" + tail)
    ensures var close := |pre| + 1 + |inside|;
      && close < |text| && text[|pre|] == '{' && text[close] == '}' && text[..|pre|] == pre
      && At(text, |pre| + 1, inside) && text[|pre| + 1..close] == inside && text[close + 1..] == tail
  {
  }

  /** The expander meets a printed alternation and goes on with each of its printed branches. */
  lemma ReadAlternation(text: string, pre: string, bs: Branches, tail: string, members: seq<string>)
    requires text == pre + ("{" + PrintBranches(bs) + "}" + tail) && WellFormedBranches(bs) && bs.More?
    ensures forall k :: 0 <= k < |Texts(bs)| ==> Opens(pre + Texts(bs)[k] + tail) < Opens(text)
    ensures ExpandFrom(text, |pre|, members) == ExpandEach(pre, Texts(bs), tail, members, Opens(text))
  {
    CutAlternation(text, pre, PrintBranches(bs), tail);
    CloseOverBranches(text, |pre| + 1, bs, 1);
    TwoTexts(bs);
    ExpandChoices(text, |pre|, |pre| + 1 + |PrintBranches(bs)|, pre, Texts(bs), tail, members);
  }

  lemma {:induction false} ExpandTree(pre: string, t: Tree, members: seq<string>)
    requires WellFormed(t) && |members| <= BUDGET
    ensures Expands(ExpandFrom(pre + Print(t), |pre|, members), members, Prefixed(pre, Words(t)))
    decreases Alts(t), 1, t
  {
    var text := pre + Print(t);
    match t {
      case Done =>
        assert text == pre && pre + "" == pre;
        assert Prefixed(pre, Words(t)) == [pre];
      case Plain(c, rest) =>
        Assoc(pre, [c], Print(rest));
        assert text[|pre|] == c;
        ExpandTree(pre + [c], rest, members);
        CrossOne(c, Words(rest));
        PrefixedTwice(pre, [c], Words(rest));
      case Braced(inner, rest) =>
        if inner.Span? {
          ExpandSpan(pre, inner.range, rest, members);
        } else {
          var group := "{" + inner.text + "}";
          ExpandTree(pre + group, rest, members);
          ExpandGroup(pre, inner, group, rest, members);
        }
      case Alt(branches, after) =>
        ReadAlternation(text, pre, branches, Print(after), members);
        ExpandTreeBranches(pre, branches, after, members, Opens(text));
    }
  }

  lemma ExpandGroup(pre: string, inner: Inner, group: string, rest: Tree, members: seq<string>)
    requires inner.Group? && WellFormedInner(inner) && group == "{" + inner.text + "}"
    requires Expands(ExpandFrom(pre + group + Print(rest), |pre + group|, members), members, Prefixed(pre + group, Words(rest)))
    ensures Expands(ExpandFrom(pre + Print(Braced(inner, rest)), |pre|, members), members, Prefixed(pre, Words(Braced(inner, rest))))
  {
    var text := pre + Print(Braced(inner, rest));
    Assoc(pre, group, Print(rest));
    ReadGroup(text, pre, inner.text, Print(rest), |pre + group|, members);
    CrossSingle(group, Words(rest));
    PrefixedTwice(pre, group, Words(rest));
  }

  lemma CrossSingle(u: string, ws: seq<string>)
    ensures Cross([u], ws) == Prefixed(u, ws)
  {
    assert Cross([u][1..], ws) == [];
  }

  lemma GroupIsLiteral(inside: string)
    requires PlainText(inside) && !HasDots(inside)
    ensures AlternativesOf(inside) == Literal
  {
    OnePart(inside);
    if !RangeItems(inside).NoRange? { RangeHasDots(inside); }
  }

  lemma OnePart(inside: string)
    requires PlainText(inside)
    ensures PartsFrom(inside, 0, "") == [inside]
  {
    assert inside + "" == inside && "" + inside == inside;
    PartsOverText(inside, "", inside, 0, "");
  }

  lemma RangeHasDots(inside: string)
    requires !RangeItems(inside).NoRange?
    ensures HasDots(inside)
  {
    var r := OnlyRangesAreRead(inside);
    var n := if r.Numbers? then |PrintNumeral(r.x)| else 1;
    assert inside[n] == '.' && inside[n + 1] == '.';
  }

  lemma {:induction false} ExpandOverText(s: string, i: nat, text: string, members: seq<string>)
    requires At(s, i, text) && '{' !in text
    ensures ExpandFrom(s, i, members) == ExpandFrom(s, i + |text|, members)
    decreases |text|
  {
    if text != "" {
      assert text == [text[0]] + text[1..] && s[i + 0] == text[0];
      AtConcat(s, i, [text[0]], text[1..]);
      ExpandOverText(s, i + 1, text[1..], members);
    }
  }

  /** The expander passes over braces that mean nothing. */
  lemma ReadGroup(text: string, pre: string, inside: string, tail: string, next: nat, members: seq<string>)
    requires text == pre + ("{" + inside + "}" + tail) && PlainText(inside) && !HasDots(inside)
    requires next == |pre| + 1 + |inside| + 1
    ensures next <= |text| && ExpandFrom(text, |pre|, members) == ExpandFrom(text, next, members)
  {
    CloseOfPlain(text, pre, inside, tail);
    GroupIsLiteral(inside);
    PassOver(text, |pre|, |pre| + 1, |pre| + 1 + |inside|, next, inside, members);
  }

  lemma PassOver(text: string, i: nat, start: nat, close: nat, next: nat, inside: string, members: seq<string>)
    requires start == i + 1 && close == start + |inside| && next == close + 1 <= |text| && PlainText(inside)
    requires At(text, start, inside) && text[i] == '{' && text[close] == '}' && CloseFrom(text, start, 1) == close
    requires text[start..close] == inside && AlternativesOf(inside) == Literal
    ensures ExpandFrom(text, i, members) == ExpandFrom(text, next, members)
  {
    ExpandLiteral(text, i, close, inside, members);
    ExpandOverText(text, start, inside, members);
    OverClose(text, close, next, members);
  }

  lemma OverClose(text: string, close: nat, next: nat, members: seq<string>)
    requires close < |text| && text[close] == '}' && next == close + 1
    ensures ExpandFrom(text, close, members) == ExpandFrom(text, next, members)
  {
  }

  lemma CloseOfPlain(text: string, pre: string, inside: string, tail: string)
    requires text == pre + ("{" + inside + "}" + tail) && PlainText(inside)
    ensures var close := |pre| + 1 + |inside|;
      && close < |text| && text[|pre|] == '{' && text[close] == '}' && CloseFrom(text, |pre| + 1, 1) == close
      && At(text, |pre| + 1, inside) && text[|pre| + 1..close] == inside && text[..|pre|] == pre && text[close + 1..] == tail
  {
    CutAlternation(text, pre, inside, tail);
    CloseOverText(text, |pre| + 1, inside, 1);
  }

  function Chars(s: string): Tree
  {
    if s == "" then Done else Plain(s[0], Chars(s[1..]))
  }

  lemma {:induction false} CharsPrint(s: string)
    requires PlainText(s)
    ensures Print(Chars(s)) == s && WellFormed(Chars(s)) && Words(Chars(s)) == [s] && Alts(Chars(s)) == 0
  {
    if s != "" {
      CharsPrint(s[1..]);
      CrossOne(s[0], [s[1..]]);
    }
  }

  /** Words as the branches of an alternation. */
  function BranchesOf(words: seq<string>): Branches
    requires words != []
  {
    if |words| == 1 then Last(Chars(words[0])) else More(Chars(words[0]), BranchesOf(words[1..]))
  }

  lemma {:induction false} BranchesAre(words: seq<string>)
    requires words != [] && forall k :: 0 <= k < |words| ==> PlainText(words[k])
    ensures var bs := BranchesOf(words);
      WellFormedBranches(bs) && Texts(bs) == words && BranchWords(bs) == words && BranchAlts(bs) == 0
  {
    CharsPrint(words[0]);
    if |words| > 1 {
      var rest := words[1..];
      BranchesAre(rest);
      FirstBranch(words[0], rest, BranchesOf(rest));
      assert words == [words[0]] + rest;
    }
  }

  lemma FirstBranch(word: string, rest: seq<string>, others: Branches)
    requires Print(Chars(word)) == word && Words(Chars(word)) == [word] && Alts(Chars(word)) == 0
    requires Texts(others) == rest && BranchWords(others) == rest && BranchAlts(others) == 0
    ensures var bs := More(Chars(word), others); Texts(bs) == [word] + rest && BranchWords(bs) == [word] + rest && BranchAlts(bs) == 0
  {
  }

  /** The expander meets braces with other words in them and goes on with each of the words, or refuses. */
  lemma ReadChoices(text: string, pre: string, inside: string, tail: string, words: seq<string>, members: seq<string>)
    requires text == pre + ("{" + inside + "}" + tail) && PlainText(inside)
    requires AlternativesOf(inside) == Choices(words)
    ensures forall k :: 0 <= k < |words| ==> Opens(pre + words[k] + tail) < Opens(text)
    ensures ExpandFrom(text, |pre|, members) == ExpandEach(pre, words, tail, members, Opens(text))
  {
    CloseOfPlain(text, pre, inside, tail);
    ExpandChoices(text, |pre|, |pre| + 1 + |inside|, pre, words, tail, members);
  }

  lemma ReadRefused(text: string, pre: string, inside: string, tail: string, members: seq<string>)
    requires text == pre + ("{" + inside + "}" + tail) && PlainText(inside)
    requires AlternativesOf(inside) == Unbounded
    ensures ExpandFrom(text, |pre|, members) == (false, members)
  {
    CloseOfPlain(text, pre, inside, tail);
    ExpandUnbounded(text, |pre|, |pre| + 1 + |inside|, inside, members);
  }

  lemma SpanAlternatives(range: Bounds, inside: string, words: seq<string>)
    requires WellFormedBounds(range) && inside == Inside(range) && words == RangeWords(range)
    ensures PlainText(inside) && AlternativesOf(inside) == if |words| <= BUDGET then Choices(words) else Unbounded
  {
    InsideIsPlain(range);
    OnePart(inside);
    RangeIsItsWords(range);
  }

  lemma {:induction false} ExpandWords(pre: string, words: seq<string>, rest: Tree, tail: string, members: seq<string>, opens: nat)
    requires words != [] && WellFormed(rest) && |members| <= BUDGET && tail == Print(rest)
    requires forall k :: 0 <= k < |words| ==> PlainText(words[k]) && Opens(pre + words[k] + tail) < opens
    ensures Expands(ExpandEach(pre, words, tail, members, opens), members, Prefixed(pre, Cross(words, Words(rest))))
    decreases Alts(rest), 4, Done
  {
    BranchesAre(words);
    ExpandTreeBranches(pre, BranchesOf(words), rest, members, opens);
  }

  lemma {:induction false} ExpandSpan(pre: string, range: Bounds, rest: Tree, members: seq<string>)
    requires WellFormedBounds(range) && WellFormed(rest) && |members| <= BUDGET
    ensures Expands(ExpandFrom(pre + Print(Braced(Span(range), rest)), |pre|, members), members,
                    Prefixed(pre, Words(Braced(Span(range), rest))))
    decreases 1 + Alts(rest), 0, Done
  {
    var words, text := RangeWords(range), pre + Print(Braced(Span(range), rest));
    SpanAlternatives(range, Inside(range), words);
    WordsExist(rest);
    CrossLength(words, Words(rest));
    if |words| <= BUDGET {
      ReadChoices(text, pre, Inside(range), Print(rest), words, members);
      WordsArePlain(range);
      ExpandWords(pre, words, rest, Print(rest), members, Opens(text));
    } else {
      ReadRefused(text, pre, Inside(range), Print(rest), members);
    }
  }

  /** Two expansions in a row give the words of both, if both fit. */
  lemma ExpandsInTurn(first: (bool, seq<string>), last: (bool, seq<string>), members: seq<string>, here: seq<string>, later: seq<string>)
    requires Expands(first, members, here)
    requires first.0 && |first.1| <= BUDGET ==> Expands(last, first.1, later)
    ensures Expands(if !first.0 || |first.1| > BUDGET then (false, first.1) else last, members, here + later)
  {
    Assoc(members, here, later);
  }

  lemma {:induction false} ExpandBranch(pre: string, first: Tree, after: Tree, members: seq<string>)
    requires WellFormed(first) && WellFormed(after) && |members| <= BUDGET
    ensures Expands(ExpandFrom(pre + Print(first) + Print(after), |pre|, members), members,
                    Prefixed(pre, Cross(Words(first), Words(after))))
    decreases Alts(first) + Alts(after), 2, Done
  {
    AppendFacts(first, after);
    Assoc(pre, Print(first), Print(after));
    ExpandTree(pre, Append(first, after), members);
  }

  lemma {:induction false} ExpandTreeBranches(pre: string, bs: Branches, after: Tree, members: seq<string>, opens: nat)
    requires WellFormedBranches(bs) && WellFormed(after) && |members| <= BUDGET
    requires forall k :: 0 <= k < |Texts(bs)| ==> Opens(pre + Texts(bs)[k] + Print(after)) < opens
    ensures Expands(ExpandEach(pre, Texts(bs), Print(after), members, opens), members,
                    Prefixed(pre, Cross(BranchWords(bs), Words(after))))
    decreases BranchAlts(bs) + Alts(after), 3, bs
  {
    match bs {
      case Last(t) =>
        ExpandBranch(pre, t, after, members);
        LastBranch(pre, Texts(bs), Print(t), Print(after), members, opens, Prefixed(pre, Cross(Words(t), Words(after))));
      case More(t, others) =>
        var r := ExpandFrom(pre + Print(t) + Print(after), |pre|, members);
        ExpandBranch(pre, t, after, members);
        EachStep(pre, Texts(bs), Print(t), Texts(others), Print(after), members, opens);
        if r.0 && |r.1| <= BUDGET { ExpandTreeBranches(pre, others, after, r.1, opens); }
        FirstAndOthers(pre, t, others, after, members, r, ExpandEach(pre, Texts(others), Print(after), r.1, opens));
    }
  }

  lemma LastBranch(pre: string, parts: seq<string>, first: string, tail: string, members: seq<string>, opens: nat, words: seq<string>)
    requires parts == [first] && forall k :: 0 <= k < |parts| ==> Opens(pre + parts[k] + tail) < opens
    requires Expands(ExpandFrom(pre + first + tail, |pre|, members), members, words)
    ensures Expands(ExpandEach(pre, parts, tail, members, opens), members, words)
  {
    EachStep(pre, parts, first, [], tail, members, opens);
  }

  /** The first branch and then the others give the words of all. */
  lemma FirstAndOthers(pre: string, t: Tree, others: Branches, after: Tree, members: seq<string>,
    first: (bool, seq<string>), last: (bool, seq<string>))
    requires Expands(first, members, Prefixed(pre, Cross(Words(t), Words(after))))
    requires first.0 && |first.1| <= BUDGET ==> Expands(last, first.1, Prefixed(pre, Cross(BranchWords(others), Words(after))))
    ensures Expands(if !first.0 || |first.1| > BUDGET then (false, first.1) else last, members,
                    Prefixed(pre, Cross(BranchWords(More(t, others)), Words(after))))
  {
    var here, later := Cross(Words(t), Words(after)), Cross(BranchWords(others), Words(after));
    CrossConcat(Words(t), BranchWords(others), Words(after));
    PrefixedConcat(pre, here, later);
    ExpandsInTurn(first, last, members, Prefixed(pre, here), Prefixed(pre, later));
  }

  lemma EachStep(pre: string, parts: seq<string>, first: string, rest: seq<string>, tail: string, members: seq<string>, opens: nat)
    requires parts == [first] + rest
    requires forall k :: 0 <= k < |parts| ==> Opens(pre + parts[k] + tail) < opens
    ensures forall k :: 0 <= k < |rest| ==> Opens(pre + rest[k] + tail) < opens
    ensures var r := ExpandFrom(pre + first + tail, |pre|, members);
      ExpandEach(pre, parts, tail, members, opens)
      == if !r.0 || |r.1| > BUDGET then (false, r.1) else ExpandEach(pre, rest, tail, r.1, opens)
  {
    assert parts[0] == first && parts[1..] == rest;
    assert forall k :: 0 <= k < |rest| ==> rest[k] == parts[k + 1];
  }

  /** Expanding a printed tree gives its words, in order, when there are at most 256 of them, and nothing otherwise. */
  lemma ExpandBracesIsProduct(t: Tree)
    requires WellFormed(t)
    ensures ExpandBraces(Print(t)) == if |Words(t)| <= BUDGET then Some(Words(t)) else None
  {
    ExpandTree("", t, []);
    assert "" + Print(t) == Print(t);
    assert [] + Words(t) == Words(t);
    assert forall i :: 0 <= i < |Words(t)| ==> "" + Words(t)[i] == Words(t)[i];
    assert Prefixed("", Words(t)) == Words(t);
  }

  // ----- Single braces in plain text -----

  function After(pre: string, t: Tree): Tree
  {
    if pre == "" then t else Plain(pre[0], After(pre[1..], t))
  }

  lemma {:induction false} AfterIs(pre: string, t: Tree)
    requires PlainText(pre) && WellFormed(t)
    ensures WellFormed(After(pre, t)) && Print(After(pre, t)) == pre + Print(t) && Words(After(pre, t)) == Prefixed(pre, Words(t))
  {
    if pre == "" {
      assert "" + Print(t) == Print(t) && forall k :: 0 <= k < |Words(t)| ==> "" + Words(t)[k] == Words(t)[k];
    } else {
      AfterIs(pre[1..], t);
      CrossOne(pre[0], Words(After(pre[1..], t)));
      PrefixedTwice([pre[0]], pre[1..], Words(t));
      assert [pre[0]] + pre[1..] == pre;
      Assoc([pre[0]], pre[1..], Print(t));
    }
  }

  lemma {:induction false} CrossWithOne(us: seq<string>, v: string)
    ensures |Cross(us, [v])| == |us| && forall k :: 0 <= k < |us| ==> Cross(us, [v])[k] == us[k] + v
  {
    if us != [] { CrossWithOne(us[1..], v); }
  }

  /** Every word with the text before and after it. */
  function Between(pre: string, words: seq<string>, post: string): (r: seq<string>)
    ensures |r| == |words| && forall k :: 0 <= k < |words| ==> r[k] == pre + words[k] + post
  {
    seq(|words|, k requires 0 <= k < |words| => pre + words[k] + post)
  }

  lemma CrossIsBetween(pre: string, words: seq<string>, post: string)
    ensures Prefixed(pre, Cross(words, [post])) == Between(pre, words, post)
  {
    CrossWithOne(words, post);
    forall k | 0 <= k < |words| ensures pre + (words[k] + post) == pre + words[k] + post { Assoc(pre, words[k], post); }
  }

  /** A range in plain text gives each of its words in place of the braces, in order, or nothing above 256. */
  lemma RangeExpands(pre: string, range: Bounds, post: string)
    requires PlainText(pre) && PlainText(post) && WellFormedBounds(range)
    ensures ExpandBraces(pre + ("{" + Inside(range) + "}" + post)) ==
      if |RangeWords(range)| > BUDGET then None
      else Some(Between(pre, RangeWords(range), post))
  {
    var t, words := Braced(Span(range), Chars(post)), RangeWords(range);
    CharsPrint(post);
    AfterIs(pre, t);
    ExpandBracesIsProduct(After(pre, t));
    CrossIsBetween(pre, words, post);
  }

  /** For all integers that are held exactly: the numbers from `a` to `b`, both included, one after the other. */
  lemma NumberRangeExpands(pre: string, a: int, b: int, post: string) returns (text: string, members: Option<seq<string>>)
    requires PlainText(pre) && PlainText(post) && Abs(a) <= MAX_SAFE_INTEGER && Abs(b) <= MAX_SAFE_INTEGER
    ensures text == pre + ("{" + (NumberWord(a, 0) + ".." + NumberWord(b, 0)) + "}" + post)
    ensures members == ExpandBraces(text) && (members.Some? <==> Abs(b - a) + 1 <= BUDGET)
    ensures members.Some? ==> |members.value| == Abs(b - a) + 1
    ensures members.Some? ==> forall k :: 0 <= k <= Abs(b - a) ==> members.value[k] == pre + NumberWord(Toward(a, b, k), 0) + post
  {
    var x, y := Numeral(a < 0, 0, Abs(a)), Numeral(b < 0, 0, Abs(b));
    assert Zeros(0) + Decimal(Abs(a)) == Decimal(Abs(a)) && Zeros(0) + Decimal(Abs(b)) == Decimal(Abs(b));
    assert PrintNumeral(x) == NumberWord(a, 0) && PrintNumeral(y) == NumberWord(b, 0);
    RangeExpands(pre, Numbers(x, y), post);
    text := pre + ("{" + (NumberWord(a, 0) + ".." + NumberWord(b, 0)) + "}" + post);
    members := ExpandBraces(text);
  }

  /** Plain braces with two dots in them that are no range, or one of numbers not held exactly, are refused. */
  lemma OtherDotsAreRefused(pre: string, inside: string, post: string)
    requires PlainText(pre) && PlainText(inside) && HasDots(inside)
    requires forall range :: WellFormedBounds(range) ==> inside != Inside(range)
    ensures ExpandBraces(pre + ("{" + inside + "}" + post)) == None
  {
    var text := pre + ("{" + inside + "}" + post);
    OnePart(inside);
    if !RangeItems(inside).NoRange? {
      var range := OnlyRangesAreRead(inside);
      InexactRangeIsRefused(range.x, range.y);
    }
    OverPrefix(text, pre, |pre|);
    ReadRefused(text, pre, inside, post, []);
  }

  /** From a brace that is never closed on, a text is left as it is. */
  lemma UnclosedIsLiteral(pre: string, rest: string)
    requires PlainText(pre) && CloseFrom(pre + ("{" + rest), |pre| + 1, 1) == -1
    ensures ExpandBraces(pre + ("{" + rest)) == Some([pre + ("{" + rest)])
  {
    var text := pre + ("{" + rest);
    OverPrefix(text, pre, |pre|);
    ExpandUnclosed(text, |pre|, []);
    assert [] + [text] == [text];
  }

  lemma OverPrefix(text: string, pre: string, n: nat)
    requires n == |pre| <= |text| && text[..n] == pre && PlainText(pre)
    ensures ExpandFrom(text, 0, []) == ExpandFrom(text, n, [])
  {
    assert forall k :: 0 <= k < n ==> text[0 + k] == text[..n][k];
    ExpandOverText(text, 0, pre, []);
  }
}
