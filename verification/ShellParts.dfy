/** Everything a word can be made of, and that it is read as what it stands for. */
module ShellParts {
  import opened Text
  import ShellAnsi
  import opened ShellWords
  import opened ShellBraces
  import opened ShellQuoting

  // ----- Inside double quotes -----

  predicate Special(c: char) { c in "$`\"\\" }

  /** A backslash before every character that means something between double quotes. */
  function Dq(w: string): string
  {
    if w == "" then "" else (if Special(w[0]) then "\\" else "") + [w[0]] + Dq(w[1..])
  }

  datatype Inner =
    | Text(w: string)        // with a backslash where one is needed
    | Loose(c: char)         // a backslash that escapes nothing
    | Joined                 // a backslash before a line end
    | Tick                   // a backquote without a backslash
    | Sigil(c: char)         // a dollar sign before anything else
    | Pid                    // two dollar signs
    | Braced(body: Body)

  function PrintInner(p: Inner): string
  {
    match p
    case Text(w) => Dq(w)
    case Loose(c) => "\\" + [c]
    case Joined => "\\\n"
    case Tick => "`"
    case Sigil(c) => "$" + [c]
    case Pid => "$$"
    case Braced(body) => Expansion(body)
  }

  function InnerValue(p: Inner): string
  {
    match p
    case Text(w) => w
    case Joined => "\n"
    case _ => PrintInner(p)
  }

  predicate WrittenInner(p: Inner, bashQuotes: bool)
  {
    match p
    case Loose(c) => !Special(c) && c != '\n'
    case Sigil(c) => !Special(c) && c != '{'
    case Braced(body) => AllowedBody(body, Quoted, bashQuotes)
    case _ => true
  }

  function PrintInners(ps: seq<Inner>): string
  {
    if ps == [] then "" else PrintInner(ps[0]) + PrintInners(ps[1..])
  }

  function InnersValue(ps: seq<Inner>): string
  {
    if ps == [] then "" else InnerValue(ps[0]) + InnersValue(ps[1..])
  }

  /** What is read up to the closing quote, from a position with some text in hand. */
  type QuoteReader = (nat, string) -> (string, nat)

  function QuoteReaderOf(text: string, bashQuotes: bool): QuoteReader
  {
    (k: nat, value: string) => if k <= |text| then DoubleQuoted(text, k, value, bashQuotes) else (value, k)
  }

  /** One step between double quotes: the text added, and where it goes on. */
  function QuoteStep(text: string, k: nat, bashQuotes: bool): (r: (string, nat))
    requires k < |text|
    ensures k < r.1 <= |text|
  {
    if text[k] == '\\' && k + 1 < |text| && text[k + 1] in "$`\"\\\n" then ([text[k + 1]], k + 2)
    else if text[k] == '$' && Is(text, k + 1, '$') then ("$$", k + 2)
    else if text[k] == '$' && Is(text, k + 1, '{') then
      (text[k..BraceEnd(text, k, true, bashQuotes)], BraceEnd(text, k, true, bashQuotes))
    else ([text[k]], k + 1)
  }

  predicate QuoteStepsAt(read: QuoteReader, text: string, bashQuotes: bool, k: nat, value: string)
  {
    && (k < |text| && text[k] != '"' ==>
          read(k, value) == read(QuoteStep(text, k, bashQuotes).1, value + QuoteStep(text, k, bashQuotes).0))
    && (k < |text| && text[k] == '"' ==> read(k, value) == (value, k))
  }

  ghost predicate QuoteSteps(read: QuoteReader, text: string, bashQuotes: bool)
  {
    forall k: nat, value :: QuoteStepsAt(read, text, bashQuotes, k, value)
  }

  lemma QuoteReaderSteps(text: string, bashQuotes: bool)
    ensures QuoteSteps(QuoteReaderOf(text, bashQuotes), text, bashQuotes)
  {
    forall k: nat, value ensures QuoteStepsAt(QuoteReaderOf(text, bashQuotes), text, bashQuotes, k, value) {
      if k < |text| && text[k] == '$' && Is(text, k + 1, '$') { assert text[k..k + 2] == "$$"; }
    }
  }

  lemma TakesStep(read: QuoteReader, text: string, bashQuotes: bool, k: nat, value: string, added: string, next: nat)
    requires QuoteSteps(read, text, bashQuotes) && k < |text| && text[k] != '"' && QuoteStep(text, k, bashQuotes) == (added, next)
    ensures read(k, value) == read(next, value + added)
  {
    assert QuoteStepsAt(read, text, bashQuotes, k, value);
  }

  /** A plain character is kept; a character with a backslash before it loses that. */
  lemma ReadsChar(read: QuoteReader, text: string, bashQuotes: bool, k: nat, value: string, c: char)
    requires QuoteSteps(read, text, bashQuotes) && At(text, k, (if Special(c) then "\\" else "") + [c])
    ensures read(k, value) == read(k + |(if Special(c) then "\\" else "") + [c]|, value + [c])
  {
    FirstTwo(text, k, (if Special(c) then "\\" else "") + [c]);
    if Special(c) {
      TakesStep(read, text, bashQuotes, k, value, [c], k + 2);
    } else {
      assert "" + [c] == [c];
      TakesStep(read, text, bashQuotes, k, value, [c], k + 1);
    }
  }

  lemma {:induction false} ReadsEscaped(read: QuoteReader, text: string, bashQuotes: bool, k: nat, value: string, w: string)
    requires QuoteSteps(read, text, bashQuotes) && At(text, k, Dq(w))
    ensures read(k, value) == read(k + |Dq(w)|, value + w)
    decreases |w|
  {
    if w == "" {
      assert value + w == value;
    } else {
      var first, rest := (if Special(w[0]) then "\\" else "") + [w[0]], Dq(w[1..]);
      AtConcat(text, k, first, rest);
      ReadsChar(read, text, bashQuotes, k, value, w[0]);
      ReadsEscaped(read, text, bashQuotes, k + |first|, value + [w[0]], w[1..]);
      assert value + [w[0]] + w[1..] == value + w;
    }
  }

  /** Two characters of which neither ends the quotes, taken one by one. */
  lemma ReadsTwo(read: QuoteReader, text: string, bashQuotes: bool, k: nat, value: string, a: char, c: char)
    requires QuoteSteps(read, text, bashQuotes) && At(text, k, [a] + [c])
    requires (a == '\\' && !Special(c) && c != '\n') || (a == '$' && !Special(c) && c != '{')
    ensures read(k, value) == read(k + 2, value + ([a] + [c]))
  {
    FirstTwo(text, k, [a] + [c]);
    TakesStep(read, text, bashQuotes, k, value, [a], k + 1);
    TakesStep(read, text, bashQuotes, k + 1, value + [a], [c], k + 2);
    Assoc(value, [a], [c]);
  }

  lemma ReadsBraced(read: QuoteReader, text: string, bashQuotes: bool, k: nat, value: string, body: Body)
    requires QuoteSteps(read, text, bashQuotes) && At(text, k, Expansion(body)) && AllowedBody(body, Quoted, bashQuotes)
    ensures read(k, value) == read(k + |Expansion(body)|, value + Expansion(body))
  {
    var s := Expansion(body);
    ExpansionEnds(text, k, body, true, bashQuotes);
    FirstTwo(text, k, s);
    assert s[0] == '$' && s[1] == '{';
    Slice(text, k, s);
    TakesStep(read, text, bashQuotes, k, value, s, k + |s|);
  }

  lemma ReadsInner(read: QuoteReader, text: string, bashQuotes: bool, k: nat, value: string, p: Inner)
    requires QuoteSteps(read, text, bashQuotes) && At(text, k, PrintInner(p)) && WrittenInner(p, bashQuotes)
    ensures read(k, value) == read(k + |PrintInner(p)|, value + InnerValue(p))
  {
    match p {
      case Text(w) => ReadsEscaped(read, text, bashQuotes, k, value, w);
      case Loose(c) => ReadsTwo(read, text, bashQuotes, k, value, '\\', c);
      case Sigil(c) => ReadsTwo(read, text, bashQuotes, k, value, '$', c);
      case Joined =>
        FirstTwo(text, k, "\\\n");
        TakesStep(read, text, bashQuotes, k, value, "\n", k + 2);
      case Tick =>
        FirstTwo(text, k, "`");
        TakesStep(read, text, bashQuotes, k, value, "`", k + 1);
      case Pid =>
        FirstTwo(text, k, "$$");
        TakesStep(read, text, bashQuotes, k, value, "$$", k + 2);
      case Braced(body) => ReadsBraced(read, text, bashQuotes, k, value, body);
    }
  }

  predicate WrittenInners(ps: seq<Inner>, bashQuotes: bool)
  {
    forall i :: 0 <= i < |ps| ==> WrittenInner(ps[i], bashQuotes)
  }

  /** What adds the text `v` wherever `s` stands between the quotes. */
  ghost predicate AddsAs(read: QuoteReader, text: string, s: string, v: string)
  {
    forall k: nat, value :: At(text, k, s) ==> read(k, value) == read(k + |s|, value + v)
  }

  lemma InnerAddsAs(read: QuoteReader, text: string, bashQuotes: bool, p: Inner)
    requires QuoteSteps(read, text, bashQuotes) && WrittenInner(p, bashQuotes)
    ensures AddsAs(read, text, PrintInner(p), InnerValue(p))
  {
    forall k: nat, value | At(text, k, PrintInner(p)) ensures read(k, value) == read(k + |PrintInner(p)|, value + InnerValue(p)) {
      ReadsInner(read, text, bashQuotes, k, value, p);
    }
  }

  lemma TwoAddAs(read: QuoteReader, text: string, s: string, v: string, t: string, u: string)
    requires AddsAs(read, text, s, v) && AddsAs(read, text, t, u)
    ensures AddsAs(read, text, s + t, v + u)
  {
    forall k: nat, value | At(text, k, s + t) ensures read(k, value) == read(k + |s + t|, value + (v + u)) {
      AtConcat(text, k, s, t);
      Assoc(value, v, u);
      assert read(k, value) == read(k + |s|, value + v);
      assert read(k + |s|, value + v) == read(k + |s| + |t|, value + v + u);
    }
  }

  lemma {:induction false} ReadsInners(read: QuoteReader, text: string, bashQuotes: bool, ps: seq<Inner>)
    requires QuoteSteps(read, text, bashQuotes) && WrittenInners(ps, bashQuotes)
    ensures AddsAs(read, text, PrintInners(ps), InnersValue(ps))
    decreases |ps|
  {
    if ps == [] {
      assert forall value: string :: value + "" == value;
    } else {
      var p, more := ps[0], ps[1..];
      InnerAddsAs(read, text, bashQuotes, p);
      ReadsInners(read, text, bashQuotes, more);
      TwoAddAs(read, text, PrintInner(p), InnerValue(p), PrintInners(more), InnersValue(more));
    }
  }

  /** Up to the closing quote, exactly what is meant is read. */
  lemma ReadsToQuote(text: string, k: nat, ps: seq<Inner>, bashQuotes: bool)
    requires At(text, k, PrintInners(ps)) && WrittenInners(ps, bashQuotes) && Is(text, k + |PrintInners(ps)|, '"')
    ensures k <= |text| && DoubleQuoted(text, k, "", bashQuotes) == (InnersValue(ps), k + |PrintInners(ps)|)
  {
    var read, n := QuoteReaderOf(text, bashQuotes), k + |PrintInners(ps)|;
    QuoteReaderSteps(text, bashQuotes);
    ReadsInners(read, text, bashQuotes, ps);
    assert read(k, "") == read(n, "" + InnersValue(ps));
    assert "" + InnersValue(ps) == InnersValue(ps);
    assert QuoteStepsAt(read, text, bashQuotes, n, InnersValue(ps));
    assert read(k, "") == DoubleQuoted(text, k, "", bashQuotes);
  }

  // ----- The parts of a word -----

  datatype Part =
    | BareWord(w: string)
    | Single(w: string)
    | Escape(c: char)
    | Double(ps: seq<Inner>, localized: bool)
    | VariableName(w: string)
    | ShellPid
    | Expanded(body: Body)
    | AnsiQuoted(cs: seq<AnsiChar>)

  function PrintPart(p: Part): string
  {
    match p
    case BareWord(w) => w
    case Single(w) => "'" + w + "'"
    case Escape(c) => "\\" + [c]
    case Double(ps, localized) => (if localized then "$\"" else "\"") + PrintInners(ps) + "\""
    case VariableName(w) => "$" + w
    case ShellPid => "$$"
    case Expanded(body) => Expansion(body)
    case AnsiQuoted(cs) => "$'" + PrintAnsi(cs) + "'"
  }

  function PartValue(p: Part, bashQuotes: bool): string
  {
    match p
    case Single(w) => w
    case Escape(c) => [c]
    case Double(ps, _) => InnersValue(ps)
    case AnsiQuoted(cs) => ShellAnsi.AnsiValue(PrintAnsi(cs))
    case _ => PrintPart(p)
  }

  predicate Written(p: Part, bashQuotes: bool)
  {
    match p
    case BareWord(w) => w != "" && OrdinaryText(w)
    case Single(w) => '\'' !in w
    case Escape(c) => true
    case Double(ps, _) => WrittenInners(ps, bashQuotes)
    case VariableName(w) => w != "" && OrdinaryText(w) && w[0] != '{'
    case ShellPid => true
    case Expanded(body) => AllowedBody(body, Brace, bashQuotes)
    case AnsiQuoted(cs) => AllowedAnsi(cs)
  }

  predicate OneStep(p: Part) { !p.BareWord? && !p.VariableName? }

  lemma DoubleStep(text: string, i: nat, ps: seq<Inner>, localized: bool, open: string, inside: string, bashQuotes: bool)
    requires open == (if localized then "$\"" else "\"") && inside == PrintInners(ps)
    requires At(text, i, open + inside + "\"") && WrittenInners(ps, bashQuotes)
    ensures i < |text| && text[i] == (if localized then '$' else '"')
    ensures WordStep(text, i, bashQuotes) == (InnersValue(ps), i + |open + inside + "\""|)
  {
    var k, end := i + |open|, i + |open| + |inside|;
    AtQuotes(text, i, open, inside, k, end);
    ReadsToQuote(text, k, ps, bashQuotes);
    DoubleWordStep(text, i, k, InnersValue(ps), end, localized, bashQuotes);
  }

  lemma AtQuotes(text: string, i: nat, open: string, inside: string, k: nat, end: nat)
    requires At(text, i, open + inside + "\"") && 1 <= |open| <= 2 && k == i + |open| && end == k + |inside|
    ensures k <= |text| && text[i] == open[0] && (|open| == 2 ==> text[i + 1] == open[1])
    ensures At(text, k, inside) && Is(text, end, '"') && |open + inside + "\""| == end + 1 - i
  {
    AtAround(text, i, open, inside, "\"");
    FirstTwo(text, i, open);
    FirstTwo(text, end, "\"");
  }

  lemma DoubleWordStep(text: string, i: nat, k: nat, value: string, end: nat, localized: bool, bashQuotes: bool)
    requires k == (if localized then i + 2 else i + 1) <= |text| && DoubleQuoted(text, k, "", bashQuotes) == (value, end)
    requires text[i] == (if localized then '$' else '"') && (localized ==> text[i + 1] == '"')
    ensures WordStep(text, i, bashQuotes) == (value, end + 1)
  {
  }

  lemma ExpandedStep(text: string, i: nat, body: Body, bashQuotes: bool)
    requires At(text, i, Expansion(body)) && AllowedBody(body, Brace, bashQuotes)
    ensures i < |text| && text[i] == '$' && WordStep(text, i, bashQuotes) == (Expansion(body), i + |Expansion(body)|)
  {
    var s := Expansion(body);
    ExpansionEnds(text, i, body, false, bashQuotes);
    FirstTwo(text, i, s);
    assert s[0] == '$' && s[1] == '{';
    Slice(text, i, s);
  }

  lemma AnsiStep(text: string, i: nat, cs: seq<AnsiChar>, bashQuotes: bool)
    requires At(text, i, "$'" + PrintAnsi(cs) + "'") && AllowedAnsi(cs)
    ensures i < |text| && text[i] == '$' && WordStep(text, i, bashQuotes) == (ShellAnsi.AnsiValue(PrintAnsi(cs)), i + |PrintAnsi(cs)| + 3)
  {
    AtAround(text, i, "$'", PrintAnsi(cs), "'");
    FirstTwo(text, i, "$'");
    FirstTwo(text, i + 2 + |PrintAnsi(cs)|, "'");
    AnsiEnds(text, i + 2, cs);
    Slice(text, i + 2, PrintAnsi(cs));
  }

  lemma OneStepIs(text: string, i: nat, p: Part, bashQuotes: bool)
    requires OneStep(p) && At(text, i, PrintPart(p)) && Written(p, bashQuotes)
    ensures i < |text| && text[i] in "\\'\"$" && WordStep(text, i, bashQuotes) == (PartValue(p, bashQuotes), i + |PrintPart(p)|)
  {
    match p {
      case Single(w) => PartStep(text, i, w, bashQuotes);
      case Escape(c) => FirstTwo(text, i, "\\" + [c]);
      case Double(ps, localized) => DoubleStep(text, i, ps, localized, if localized then "$\"" else "\"", PrintInners(ps), bashQuotes);
      case ShellPid => FirstTwo(text, i, "$$");
      case Expanded(body) => ExpandedStep(text, i, body, bashQuotes);
      case AnsiQuoted(cs) => AnsiStep(text, i, cs, bashQuotes);
    }
  }

  lemma ReadsVariable(read: Reader, text: string, i: nat, w: string, word: Word, bashQuotes: bool)
    requires Steps(read, text, bashQuotes) && At(text, i, "$" + w) && w != "" && OrdinaryText(w) && w[0] != '{'
    requires word.Open? ==> word.start <= i
    ensures read(i, word) == read(i + |w| + 1, Extend(word, i, "$" + w))
  {
    FirstTwo(text, i, "$" + w);
    AtConcat(text, i, "$", w);
    assert WordStep(text, i, bashQuotes) == ("$", i + 1);
    assert StepsAt(read, text, i, word, bashQuotes);
    ReadsOrdinary(read, text, i + 1, w, Extend(word, i, "$"), bashQuotes);
    ExtendTwice(word, i, i + 1, "$", w);
  }

  lemma ReadsOnePart(read: Reader, text: string, i: nat, p: Part, word: Word, bashQuotes: bool)
    requires Steps(read, text, bashQuotes) && At(text, i, PrintPart(p)) && Written(p, bashQuotes) && (word.Open? ==> word.start <= i)
    ensures read(i, word) == read(i + |PrintPart(p)|, Extend(word, i, PartValue(p, bashQuotes)))
  {
    if p.BareWord? {
      ReadsOrdinary(read, text, i, p.w, word, bashQuotes);
    } else if p.VariableName? {
      ReadsVariable(read, text, i, p.w, word, bashQuotes);
    } else {
      OneStepIs(text, i, p, bashQuotes);
      assert StepsAt(read, text, i, word, bashQuotes);
    }
  }

  function PrintParts(ps: seq<Part>): string
  {
    if ps == [] then "" else PrintPart(ps[0]) + PrintParts(ps[1..])
  }

  function PartsValue(ps: seq<Part>, bashQuotes: bool): string
  {
    if ps == [] then "" else PartValue(ps[0], bashQuotes) + PartsValue(ps[1..], bashQuotes)
  }

  predicate WrittenParts(ps: seq<Part>, bashQuotes: bool)
  {
    ps != [] && forall i :: 0 <= i < |ps| ==> Written(ps[i], bashQuotes)
  }

  /** What is read as the value `v` wherever the text `s` stands. */
  ghost predicate ReadsAs(read: Reader, text: string, s: string, v: string)
  {
    forall i: nat, word: Word :: At(text, i, s) && (word.Open? ==> word.start <= i) ==> read(i, word) == read(i + |s|, Extend(word, i, v))
  }

  lemma PartReadsAs(read: Reader, text: string, p: Part, bashQuotes: bool)
    requires Steps(read, text, bashQuotes) && Written(p, bashQuotes)
    ensures ReadsAs(read, text, PrintPart(p), PartValue(p, bashQuotes))
  {
    forall i: nat, word: Word | At(text, i, PrintPart(p)) && (word.Open? ==> word.start <= i)
      ensures read(i, word) == read(i + |PrintPart(p)|, Extend(word, i, PartValue(p, bashQuotes)))
    {
      ReadsOnePart(read, text, i, p, word, bashQuotes);
    }
  }

  lemma TwoReadAs(read: Reader, text: string, s: string, v: string, t: string, u: string)
    requires ReadsAs(read, text, s, v) && ReadsAs(read, text, t, u)
    ensures ReadsAs(read, text, s + t, v + u)
  {
    forall i: nat, word: Word | At(text, i, s + t) && (word.Open? ==> word.start <= i)
      ensures read(i, word) == read(i + |s + t|, Extend(word, i, v + u))
    {
      AtConcat(text, i, s, t);
      ExtendTwice(word, i, i + |s|, v, u);
      assert read(i, word) == read(i + |s|, Extend(word, i, v));
      assert read(i + |s|, Extend(word, i, v)) == read(i + |s| + |t|, Extend(Extend(word, i, v), i + |s|, u));
    }
  }

  /** Reading a word made of any parts adds exactly what the parts stand for. */
  lemma {:induction false} ReadsParts(read: Reader, text: string, ps: seq<Part>, bashQuotes: bool)
    requires Steps(read, text, bashQuotes) && WrittenParts(ps, bashQuotes)
    ensures ReadsAs(read, text, PrintParts(ps), PartsValue(ps, bashQuotes))
  {
    var p, more := ps[0], ps[1..];
    PartReadsAs(read, text, p, bashQuotes);
    PartsCons(p, more, ps, bashQuotes);
    if more == [] {
      OnePart(PrintPart(p), PartValue(p, bashQuotes));
    } else {
      assert forall j :: 0 <= j < |more| ==> more[j] == ps[j + 1];
      ReadsParts(read, text, more, bashQuotes);
      TwoReadAs(read, text, PrintPart(p), PartValue(p, bashQuotes), PrintParts(more), PartsValue(more, bashQuotes));
    }
  }

  lemma OnePart(s: string, v: string)
    ensures s + "" == s && v + "" == v
  {
  }

  lemma PartsCons(p: Part, ps: seq<Part>, all: seq<Part>, bashQuotes: bool)
    requires all == [p] + ps
    ensures PrintParts(all) == PrintPart(p) + PrintParts(ps) && PartsValue(all, bashQuotes) == PartValue(p, bashQuotes) + PartsValue(ps, bashQuotes)
    ensures Written(p, bashQuotes) && (ps == [] || WrittenParts(ps, bashQuotes)) ==> WrittenParts(all, bashQuotes)
  {
    assert all[0] == p && all[1..] == ps;
  }

  // ----- The printers -----

  /** Double quotes around the value, with a backslash wherever one is needed. */
  function DoubleQuote(w: string): string { "\"" + Dq(w) + "\"" }

  /** The text is a way to write the value. */
  ghost predicate Printed(w: string, s: string, bashQuotes: bool)
  {
    exists ps :: WrittenParts(ps, bashQuotes) && s == PrintParts(ps) && w == PartsValue(ps, bashQuotes)
  }

  lemma OnePrinted(p: Part, w: string, s: string, bashQuotes: bool)
    requires Written(p, bashQuotes) && s == PrintPart(p) && w == PartValue(p, bashQuotes)
    ensures Printed(w, s, bashQuotes)
  {
    PartsCons(p, [], [p], bashQuotes);
    assert s + "" == s && w + "" == w;
  }

  lemma {:induction false} QuotedIsPrinted(w: string, bashQuotes: bool)
    ensures Printed(w, ShellQuote(w), bashQuotes)
    decreases |w|
  {
    var q := IndexOf(w, '\'');
    IndexOfSpec(w, '\'');
    if q == |w| {
      EscapeOfPlain(w);
      OnePrinted(Single(w), w, ShellQuote(w), bashQuotes);
    } else {
      var x, rest := w[..q], w[q + 1..];
      QuotedIsPrinted(rest, bashQuotes);
      QuoteAtQuote(w, q);
      CutAround(w, q);
      QuoteThenRest(x, rest, ShellQuote(rest), w, ShellQuote(w), bashQuotes);
    }
  }

  lemma QuoteThenRest(x: string, rest: string, printed: string, w: string, s: string, bashQuotes: bool)
    requires '\'' !in x && Printed(rest, printed, bashQuotes)
    requires w == x + ['\''] + rest && s == "'" + x + "'" + "\\'" + printed
    ensures Printed(w, s, bashQuotes)
  {
    var ps :| WrittenParts(ps, bashQuotes) && printed == PrintParts(ps) && rest == PartsValue(ps, bashQuotes);
    TwoMoreParts(Single(x), Escape('\''), ps, w, s, bashQuotes);
  }

  lemma TwoMoreParts(a: Part, b: Part, ps: seq<Part>, w: string, s: string, bashQuotes: bool)
    requires WrittenParts(ps, bashQuotes) && Written(a, bashQuotes) && Written(b, bashQuotes)
    requires s == PrintPart(a) + PrintPart(b) + PrintParts(ps) && w == PartValue(a, bashQuotes) + PartValue(b, bashQuotes) + PartsValue(ps, bashQuotes)
    ensures Printed(w, s, bashQuotes)
  {
    var tail := [b] + ps;
    PartsCons(b, ps, tail, bashQuotes);
    PartsCons(a, tail, [a] + tail, bashQuotes);
    Assoc(PrintPart(a), PrintPart(b), PrintParts(ps));
    Assoc(PartValue(a, bashQuotes), PartValue(b, bashQuotes), PartsValue(ps, bashQuotes));
  }

  lemma OneInner(p: Inner, ps: seq<Inner>)
    requires ps == [p]
    ensures PrintInners(ps) == PrintInner(p) + "" && InnersValue(ps) == InnerValue(p) + ""
  {
    assert ps[1..] == [];
  }

  lemma DoubleQuotedIsPrinted(w: string, bashQuotes: bool)
    ensures Printed(w, DoubleQuote(w), bashQuotes)
  {
    var ps, text := [Text(w)], Dq(w);
    OneInner(Text(w), ps);
    assert text + "" == text && w + "" == w;
    OnePrinted(Double(ps, false), w, DoubleQuote(w), bashQuotes);
  }

  // ----- ANSI-C strings -----

  function PlainChars(s: string): seq<AnsiChar>
  {
    seq(|s|, i requires 0 <= i < |s| => AnsiChar(false, s[i]))
  }

  lemma {:induction false} PlainCharsPrint(s: string)
    ensures PrintAnsi(PlainChars(s)) == s
  {
    if s != "" {
      PlainCharsPrint(s[1..]);
      assert PlainChars(s) == [AnsiChar(false, s[0])] + PlainChars(s[1..]);
      assert "" + [s[0]] + s[1..] == s;
    }
  }

  lemma {:induction false} PrintAnsiConcat(a: seq<AnsiChar>, b: seq<AnsiChar>)
    ensures PrintAnsi(a + b) == PrintAnsi(a) + PrintAnsi(b)
  {
    if a == [] {
      assert a + b == b;
    } else {
      assert (a + b)[1..] == a[1..] + b;
      PrintAnsiConcat(a[1..], b);
      Assoc((if a[0].escaped then "\\" else "") + [a[0].c], PrintAnsi(a[1..]), PrintAnsi(b));
    }
  }

  lemma EscapeThen(c: char, rest: seq<AnsiChar>, s: string)
    requires PrintAnsi(rest) == s
    ensures PrintAnsi([AnsiChar(true, c)] + rest) == "\\" + [c] + s
  {
    assert ([AnsiChar(true, c)] + rest)[1..] == rest;
  }

  /** An escape as characters, none of which ends the string. */
  lemma CharsOfEscape(p: ShellAnsi.Ansi) returns (cs: seq<AnsiChar>)
    requires ShellAnsi.Writable(p)
    ensures AllowedAnsi(cs) && PrintAnsi(cs) == ShellAnsi.Write(p)
  {
    match p {
      case Plain(c) => cs := PlainChars([c]); PlainCharsPrint([c]);
      case Octal(digits) =>
        var more := PlainChars(digits[1..]);
        PlainCharsPrint(digits[1..]);
        EscapeThen(digits[0], more, digits[1..]);
        cs := [AnsiChar(true, digits[0])] + more;
        DigitsAreInside(digits, 8);
        assert "\\" + [digits[0]] + digits[1..] == "\\" + digits;
      case Hex(letter, digits) =>
        PlainCharsPrint(digits);
        EscapeThen(letter, PlainChars(digits), digits);
        DigitsAreInside(digits, 16);
        cs := [AnsiChar(true, letter)] + PlainChars(digits);
      case Control(c) =>
        var last := [AnsiChar(c == '\\', c)];
        assert last[1..] == [] && PrintAnsi(last) == (if c == '\\' then "\\\\" else [c]);
        EscapeThen('c', last, PrintAnsi(last));
        cs := [AnsiChar(true, 'c')] + last;
      case Letter(c) => cs := [AnsiChar(true, c)] + []; EscapeThen(c, [], "");
      case Other(c) => cs := [AnsiChar(true, c)] + []; EscapeThen(c, [], "");
    }
  }

  lemma DigitsAreInside(digits: string, base: nat)
    requires ShellAnsi.Digits(digits, base) && base <= 16
    ensures '\'' !in digits && '\\' !in digits
  {
  }

  lemma {:induction false} CharsOfEscapes(ps: seq<ShellAnsi.Ansi>) returns (cs: seq<AnsiChar>)
    requires ShellAnsi.AllWritable(ps)
    ensures AllowedAnsi(cs) && PrintAnsi(cs) == ShellAnsi.WriteAll(ps)
  {
    cs := [];
    if ps != [] {
      var first := CharsOfEscape(ps[0]);
      var rest := CharsOfEscapes(ps[1..]);
      cs := first + rest;
      PrintAnsiConcat(first, rest);
    }
  }

  /** A text written with any escapes between `$'` and a quote stands for what they stand for, up to a null character. */
  lemma EscapesArePrinted(ps: seq<ShellAnsi.Ansi>, bashQuotes: bool)
    requires ShellAnsi.AllWritable(ps)
    ensures Printed(ShellAnsi.UpToNul(ShellAnsi.MeansAll(ps)), "$'" + ShellAnsi.WriteAll(ps) + "'", bashQuotes)
  {
    var cs := CharsOfEscapes(ps);
    ShellAnsi.EscapesAreRead(ps);
    OnePrinted(AnsiQuoted(cs), ShellAnsi.AnsiValue(PrintAnsi(cs)), "$'" + PrintAnsi(cs) + "'", bashQuotes);
  }

  function AnsiQuote(w: string): string { "$'" + ShellAnsi.WriteAll(ShellAnsi.AllEscaped(w)) + "'" }

  lemma AnsiQuotedIsPrinted(w: string, bashQuotes: bool)
    requires '\0' !in w
    ensures Printed(w, AnsiQuote(w), bashQuotes)
  {
    ShellAnsi.AllEscapedAre(w);
    ShellAnsi.EscapesAreRead(ShellAnsi.AllEscaped(w));
    ShellAnsi.PrintedIsRead(w);
    EscapesArePrinted(ShellAnsi.AllEscaped(w), bashQuotes);
  }

  /** Every printer writes the value. */
  lemma PrintersWrite(w: string, bashQuotes: bool)
    ensures Printed(w, ShellQuote(w), bashQuotes) && Printed(w, QuoteIfNeeded(w), bashQuotes) && Printed(w, DoubleQuote(w), bashQuotes)
    ensures '\0' !in w ==> Printed(w, AnsiQuote(w), bashQuotes)
  {
    if '\0' !in w { AnsiQuotedIsPrinted(w, bashQuotes); }
    QuotedIsPrinted(w, bashQuotes);
    DoubleQuotedIsPrinted(w, bashQuotes);
    if Bare(w) {
      BareIsOrdinary(w);
      OnePrinted(BareWord(w), w, w, bashQuotes);
    }
  }
}
