/** Lines of words and redirections are read as they were written. */
module ShellLines {
  import opened Text
  import opened ShellWords
  import opened ShellQuoting
  import opened ShellParts

  // ----- Redirections -----

  /** `Output` is a `>`, with `&` before it, a second `>`, `&` after it, and `|` or `!` at the end, each or none. */
  datatype Operator =
    | Input(text: string)
    | Output(both: bool, append: bool, duplicate: bool, force: string)

  function PrintOperator(op: Operator): string
  {
    match op
    case Input(text) => text
    case Output(both, append, duplicate, force) =>
      (if both then "&" else "") + ">" + (if append then ">" else "") + (if duplicate then "&" else "") + force
  }

  predicate WrittenOperator(op: Operator)
  {
    match op
    case Input(text) => text in {"<", "<<", "<<-", "<<<", "<>", "<&"}
    case Output(_, _, _, force) => force in {"", "|", "!"}
  }

  /** The characters of a text that ends with it or before white space. */
  predicate Ends(text: string, i: nat, s: string)
  {
    At(text, i, s) && (i + |s| == |text| || Space(text[i + |s|]))
  }

  lemma CharsOf(text: string, i: nat, s: string, k: nat)
    requires Ends(text, i, s)
    ensures k < |s| ==> text[i + k] == s[k]
    ensures k == |s| ==> i + k == |text| || Space(text[i + k])
  {
  }

  lemma InputIsRead(text: string, i: nat, s: string)
    requires Ends(text, i, s) && s in {"<", "<<", "<<-", "<<<", "<>", "<&"}
    ensures Is(text, i, '<') && RedirectWidth(text, i) == |s|
  {
    CharsOf(text, i, s, 0);
    CharsOf(text, i, s, 1);
    CharsOf(text, i, s, 2);
  }

  lemma OutputIsRead(text: string, i: nat, both: bool, append: bool, duplicate: bool, force: string, s: string)
    requires force in {"", "|", "!"} && s == PrintOperator(Output(both, append, duplicate, force)) && Ends(text, i, s)
    ensures if both then Is(text, i, '&') && Is(text, i + 1, '>') else Is(text, i, '>')
    ensures RedirectWidth(text, i) == |s|
  {
    var a := if both then 1 else 0;
    var b := if append then a + 2 else a + 1;
    var c := if duplicate then b + 1 else b;
    assert |s| == c + |force|;
    assert (both ==> s[0] == '&') && s[a] == '>' && (append ==> s[a + 1] == '>') && (duplicate ==> s[b] == '&');
    assert force != "" ==> s[c] == force[0] && |force| == 1;
    CharsOf(text, i, s, 0);
    CharsOf(text, i, s, a);
    CharsOf(text, i, s, a + 1);
    CharsOf(text, i, s, b);
    CharsOf(text, i, s, c);
  }

  // ----- The items of a line -----

  datatype Item = Written(parts: seq<Part>) | Redirect(descriptor: string, op: Operator)

  function PrintItem(item: Item): string
  {
    match item
    case Written(parts) => PrintParts(parts)
    case Redirect(descriptor, op) => descriptor + PrintOperator(op)
  }

  predicate WrittenItem(item: Item, bashQuotes: bool)
  {
    match item
    case Written(parts) => WrittenParts(parts, bashQuotes)
    case Redirect(descriptor, op) =>
      WrittenOperator(op) && (descriptor == "" || (Descriptor(descriptor) && !(op.Output? && op.both)))
  }

  /** The variable of a descriptor written as a name in braces. */
  function FdName(descriptor: string): string
  {
    if descriptor != "" && descriptor[0] == '{' && |descriptor| >= 2 then descriptor[1..|descriptor| - 1] else ""
  }

  /** The token of an item that stands at `i`. */
  function TokenOf(item: Item, i: nat, bashQuotes: bool): Token
  {
    var end := i + |PrintItem(item)|;
    match item
    case Written(parts) => Token(i, end, PartsValue(parts, bashQuotes), "", "")
    case Redirect(descriptor, op) => Token(i, end, PrintItem(item), PrintOperator(op), FdName(descriptor))
  }

  /** From the start of an item, its token is read, and then what follows it. */
  ghost predicate ItemReads(read: Reader, i: nat, end: nat, token: Token)
  {
    read(i, NoWord) == [token] + read(end, NoWord)
  }

  lemma WordEnds(read: Reader, text: string, i: nat, s: string, v: string, bashQuotes: bool)
    requires Steps(read, text, bashQuotes) && Ends(text, i, s) && s != "" && ReadsAs(read, text, s, v)
    ensures read(i, NoWord) == [Token(i, i + |s|, v, "", "")]
      + if i + |s| == |text| then [] else read(i + |s| + 1, NoWord)
  {
    var n, word := i + |s|, Extend(NoWord, i, v);
    assert read(i, NoWord) == read(n, word);
    assert StepsAt(read, text, n, word, bashQuotes);
    if n == |text| { assert [Token(i, n, v, "", "")] + [] == [Token(i, n, v, "", "")]; }
  }

  lemma DescriptorIsOrdinary(d: string)
    requires Descriptor(d)
    ensures d != "" && OrdinaryText(d)
  {
  }

  lemma BareRedirectIs(text: string, i: nat, s: string)
    requires At(text, i, s) && s != "" && (Is(text, i, '<') || Is(text, i, '>')) && RedirectWidth(text, i) == |s|
    ensures RedirectStep(text, i, NoWord) == ShellWords.Step([Token(i, i + |s|, s, s, "")], i + |s|, NoWord)
  {
    Slice(text, i, s);
    assert [] + [Token(i, i + |s|, s, s, "")] == [Token(i, i + |s|, s, s, "")];
  }

  lemma NamedRedirectIs(text: string, i: nat, d: string, s: string, at: nat, next: nat)
    requires At(text, i, d + s) && s != "" && at == i + |d| && next == at + |s| && (Is(text, at, '<') || Is(text, at, '>'))
    requires RedirectWidth(text, at) == |s| && Descriptor(d)
    ensures RedirectStep(text, at, Open(i, d)) == ShellWords.Step([Token(i, next, d + s, s, FdName(d))], next, NoWord)
  {
    AtConcat(text, i, d, s);
    Slice(text, i, d);
    Slice(text, at, s);
    Slice(text, i, d + s);
    assert text[i..at] == d && text[at..next] == s && text[i..next] == d + s;
  }

  /** What a redirection step gives, after its descriptor, if it has one, has been taken for a word. */
  lemma RedirectStepIs(text: string, i: nat, d: string, s: string, at: nat, next: nat, word: Word)
    requires At(text, i, d + s) && s != "" && at == i + |d| && next == at + |s| && (Is(text, at, '<') || Is(text, at, '>'))
    requires RedirectWidth(text, at) == |s| && (d == "" || Descriptor(d))
    requires word == if d == "" then NoWord else Open(i, d)
    ensures RedirectStep(text, at, word) == ShellWords.Step([Token(i, next, d + s, s, FdName(d))], next, NoWord)
  {
    if d == "" {
      assert d + s == s;
      BareRedirectIs(text, i, s);
    } else {
      NamedRedirectIs(text, i, d, s, at, next);
    }
  }

  lemma ReadsRedirect(read: Reader, text: string, i: nat, d: string, s: string, bashQuotes: bool)
    requires Steps(read, text, bashQuotes) && At(text, i, d + s) && s != "" && (Is(text, i + |d|, '<') || Is(text, i + |d|, '>'))
    requires RedirectWidth(text, i + |d|) == |s| && (d == "" || Descriptor(d))
    ensures ItemReads(read, i, i + |d| + |s|, Token(i, i + |d| + |s|, d + s, s, FdName(d)))
  {
    var word, at := if d == "" then NoWord else Open(i, d), i + |d|;
    AtConcat(text, i, d, s);
    if d != "" {
      DescriptorIsOrdinary(d);
      ReadsOrdinary(read, text, i, d, NoWord, bashQuotes);
    }
    RedirectStepIs(text, i, d, s, at, at + |s|, word);
    TakesRedirect(read, text, at, word, bashQuotes);
  }

  lemma TakesRedirect(read: Reader, text: string, at: nat, word: Word, bashQuotes: bool)
    requires Steps(read, text, bashQuotes) && (Is(text, at, '<') || Is(text, at, '>')) && (word.Open? ==> word.start <= at)
    ensures var r := RedirectStep(text, at, word); read(at, word) == r.tokens + read(r.next, NoWord)
  {
    assert StepsAt(read, text, at, word, bashQuotes);
  }

  lemma ReadsBoth(read: Reader, text: string, i: nat, s: string, bashQuotes: bool)
    requires Steps(read, text, bashQuotes) && At(text, i, s) && s != "" && Is(text, i, '&') && Is(text, i + 1, '>')
    requires RedirectWidth(text, i) == |s|
    ensures ItemReads(read, i, i + |s|, Token(i, i + |s|, s, s, ""))
  {
    Slice(text, i, s);
    assert StepsAt(read, text, i, NoWord, bashQuotes);
    assert [] + [Token(i, i + |s|, s, s, "")] == [Token(i, i + |s|, s, s, "")];
  }

  lemma EndsAfter(text: string, i: nat, d: string, s: string, at: nat)
    requires Ends(text, i, d + s) && at == i + |d|
    ensures Ends(text, at, s) && At(text, i, d)
  {
    AtConcat(text, i, d, s);
  }

  lemma OperatorReads(read: Reader, text: string, i: nat, d: string, op: Operator, s: string, bashQuotes: bool)
    requires Steps(read, text, bashQuotes) && WrittenOperator(op) && s == PrintOperator(op) && Ends(text, i, d + s)
    requires d == "" || (Descriptor(d) && !(op.Output? && op.both))
    ensures ItemReads(read, i, i + |d| + |s|, Token(i, i + |d| + |s|, d + s, s, FdName(d)))
  {
    OperatorWidth(text, i, d, op, s, i + |d|);
    if op.Output? && op.both {
      assert d + s == s;
      ReadsBoth(read, text, i, s, bashQuotes);
    } else {
      ReadsRedirect(read, text, i, d, s, bashQuotes);
    }
  }

  lemma OperatorWidth(text: string, i: nat, d: string, op: Operator, s: string, at: nat)
    requires WrittenOperator(op) && s == PrintOperator(op) && Ends(text, i, d + s) && at == i + |d|
    ensures At(text, i, d + s) && At(text, at, s) && s != ""
    ensures if op.Output? && op.both then Is(text, at, '&') && Is(text, at + 1, '>') else Is(text, at, '<') || Is(text, at, '>')
    ensures RedirectWidth(text, at) == |s|
  {
    EndsAfter(text, i, d, s, at);
    match op {
      case Input(t) => InputIsRead(text, at, s);
      case Output(both, append, duplicate, force) => OutputIsRead(text, at, both, append, duplicate, force, s);
    }
  }

  /** An item at the end of the text, or before a space, gives its token and what comes after the space. */
  lemma ReadsItem(read: Reader, text: string, i: nat, item: Item, s: string, bashQuotes: bool)
    requires Steps(read, text, bashQuotes) && WrittenItem(item, bashQuotes) && s == PrintItem(item) && Ends(text, i, s)
    ensures read(i, NoWord) == [TokenOf(item, i, bashQuotes)] + if i + |s| == |text| then [] else read(i + |s| + 1, NoWord)
  {
    match item {
      case Written(parts) =>
        ReadsParts(read, text, parts, bashQuotes);
        PartsAreText(parts, bashQuotes);
        WordEnds(read, text, i, s, PartsValue(parts, bashQuotes), bashQuotes);
      case Redirect(d, op) => ReadsOperatorItem(read, text, i, d, op, PrintOperator(op), s, bashQuotes);
    }
  }

  lemma ReadsOperatorItem(read: Reader, text: string, i: nat, d: string, op: Operator, o: string, s: string, bashQuotes: bool)
    requires Steps(read, text, bashQuotes) && WrittenOperator(op) && o == PrintOperator(op) && s == d + o && Ends(text, i, s)
    requires d == "" || (Descriptor(d) && !(op.Output? && op.both))
    ensures read(i, NoWord) == [Token(i, i + |s|, s, o, FdName(d))] + if i + |s| == |text| then [] else read(i + |s| + 1, NoWord)
  {
    OperatorReads(read, text, i, d, op, o, bashQuotes);
    AfterItem(read, text, i + |s|, bashQuotes);
  }

  /** Between items only the space is read. */
  lemma AfterItem(read: Reader, text: string, at: nat, bashQuotes: bool)
    requires Steps(read, text, bashQuotes) && (at == |text| || (at < |text| && Space(text[at])))
    ensures read(at, NoWord) == if at == |text| then [] else read(at + 1, NoWord)
  {
    assert StepsAt(read, text, at, NoWord, bashQuotes);
    if at < |text| { assert [] + read(at + 1, NoWord) == read(at + 1, NoWord); }
  }

  lemma {:induction false} PartsAreText(ps: seq<Part>, bashQuotes: bool)
    requires WrittenParts(ps, bashQuotes)
    ensures PrintParts(ps) != ""
  {
    assert ShellParts.Written(ps[0], bashQuotes);
  }

  // ----- Whole lines -----

  function PrintItems(items: seq<Item>): (r: seq<string>)
    ensures |r| == |items| && forall k :: 0 <= k < |items| ==> r[k] == PrintItem(items[k])
  {
    seq(|items|, k requires 0 <= k < |items| => PrintItem(items[k]))
  }

  predicate WrittenItems(items: seq<Item>, bashQuotes: bool)
  {
    forall k :: 0 <= k < |items| ==> WrittenItem(items[k], bashQuotes)
  }

  /** A line of two or more items is the first, a space, and the line of the others. */
  lemma CutLine(text: string, i: nat, ss: seq<string>, line: string, first: string, rest: string)
    requires |ss| > 1 && line == Join(ss, ' ') && first == ss[0]
    requires rest == Join(ss[1..], ' ') && At(text, i, line) && i + |line| == |text|
    ensures Ends(text, i, first) && i + |first| < |text|
    ensures At(text, i + |first| + 1, rest) && i + |first| + 1 + |rest| == |text|
  {
    assert line == first + " " + rest;
    AtConcat(text, i, first + " ", rest);
    AtConcat(text, i, first, " ");
    FirstTwo(text, i + |first|, " ");
  }

  /** The token that a text gives, by where it stands. */
  type Maker = nat -> Token

  /** Wherever the text ends with `s` or white space follows it, its token is read, and then what follows the space. */
  ghost predicate Makes(read: Reader, text: string, s: string, make: Maker)
  {
    forall i: nat :: MakesAt(read, text, s, make, i)
  }

  predicate MakesAt(read: Reader, text: string, s: string, make: Maker, i: nat)
  {
    Ends(text, i, s) ==> read(i, NoWord) == [make(i)] + if i + |s| == |text| then [] else read(i + |s| + 1, NoWord)
  }

  function Made(makers: seq<Maker>, ss: seq<string>, i: nat): seq<Token>
    requires |makers| == |ss|
  {
    if ss == [] then [] else [makers[0](i)] + Made(makers[1..], ss[1..], i + |ss[0]| + 1)
  }

  lemma {:induction false} ReadsLine(read: Reader, text: string, i: nat, makers: seq<Maker>, ss: seq<string>, line: string, bashQuotes: bool)
    requires Steps(read, text, bashQuotes) && |makers| == |ss| && forall k :: 0 <= k < |ss| ==> Makes(read, text, ss[k], makers[k])
    requires line == Join(ss, ' ') && At(text, i, line) && i + |line| == |text|
    ensures read(i, NoWord) == Made(makers, ss, i)
    decreases |ss|
  {
    if ss == [] {
      AfterItem(read, text, i, bashQuotes);
    } else {
      var s, later, others := ss[0], ss[1..], makers[1..];
      assert Makes(read, text, s, makers[0]);
      if later == [] {
        assert ss == [s] && line == s;
        assert MakesAt(read, text, s, makers[0], i);
        assert Made(makers, ss, i) == [makers[0](i)] + [];
      } else {
        var rest := Join(later, ' ');
        CutLine(text, i, ss, line, s, rest);
        assert MakesAt(read, text, s, makers[0], i);
        assert forall k :: 0 <= k < |later| ==> later[k] == ss[k + 1] && others[k] == makers[k + 1];
        ReadsLine(read, text, i + |s| + 1, others, later, rest, bashQuotes);
      }
    }
  }

  function MakerOf(item: Item, bashQuotes: bool): Maker
  {
    (i: nat) => TokenOf(item, i, bashQuotes)
  }

  function MakersOf(items: seq<Item>, bashQuotes: bool): (r: seq<Maker>)
    ensures |r| == |items| && forall k :: 0 <= k < |items| ==> r[k] == MakerOf(items[k], bashQuotes)
  {
    seq(|items|, k requires 0 <= k < |items| => MakerOf(items[k], bashQuotes))
  }

  /** The tokens of items written one after the other with a space in between. */
  function TokensOf(items: seq<Item>, i: nat, bashQuotes: bool): seq<Token>
  {
    Made(MakersOf(items, bashQuotes), PrintItems(items), i)
  }

  /** Every token is what its item gives where it stands. */
  lemma {:induction false} MadeAt(makers: seq<Maker>, ss: seq<string>, i: nat, k: nat) returns (at: nat)
    requires |makers| == |ss| && k < |ss|
    ensures |Made(makers, ss, i)| == |ss| && Made(makers, ss, i)[k] == makers[k](at)
    ensures k == 0 ==> at == i
    decreases |ss|
  {
    var later, others, next := ss[1..], makers[1..], i + |ss[0]| + 1;
    if |ss| > 1 {
      var j := MadeAt(others, later, next, if k == 0 then 0 else k - 1);
      at := if k == 0 then i else j;
    } else {
      at := i;
    }
  }

  lemma ItemMakes(read: Reader, text: string, item: Item, bashQuotes: bool)
    requires Steps(read, text, bashQuotes) && WrittenItem(item, bashQuotes)
    ensures Makes(read, text, PrintItem(item), MakerOf(item, bashQuotes))
  {
    var s, make := PrintItem(item), MakerOf(item, bashQuotes);
    forall i: nat ensures MakesAt(read, text, s, make, i) {
      if Ends(text, i, s) { ReadsItem(read, text, i, item, s, bashQuotes); }
    }
  }

  /** Any line of words, made of parts in every kind of quotes, and of redirections is read as exactly its items. */
  lemma LineIsRead(items: seq<Item>, bashQuotes: bool)
    requires WrittenItems(items, bashQuotes)
    ensures Words(Join(PrintItems(items), ' '), bashQuotes) == TokensOf(items, 0, bashQuotes)
  {
    var text := Join(PrintItems(items), ' ');
    ReaderSteps(text, bashQuotes);
    var read, ss, makers := ReaderOf(text, bashQuotes), PrintItems(items), MakersOf(items, bashQuotes);
    forall k | 0 <= k < |ss| ensures Makes(read, text, ss[k], makers[k]) { ItemMakes(read, text, items[k], bashQuotes); }
    ReadsLine(read, text, 0, makers, ss, text, bashQuotes);
    assert read(0, NoWord) == Words(text, bashQuotes);
  }

  // ----- The round trip of the printers -----

  function Values(tokens: seq<Token>): (r: seq<string>)
    ensures |r| == |tokens| && forall k :: 0 <= k < |tokens| ==> r[k] == tokens[k].value
  {
    seq(|tokens|, k requires 0 <= k < |tokens| => tokens[k].value)
  }

  predicate AllWords(tokens: seq<Token>)
  {
    forall k :: 0 <= k < |tokens| ==> tokens[k].op == ""
  }

  ghost predicate AllPrinted(ws: seq<string>, ps: seq<string>, bashQuotes: bool)
  {
    |ws| == |ps| && forall k :: 0 <= k < |ws| ==> Printed(ws[k], ps[k], bashQuotes)
  }

  /** Some parts of which the printed value is made. */
  ghost function PartsOf(w: string, p: string, bashQuotes: bool): (parts: seq<Part>)
    requires Printed(w, p, bashQuotes)
    ensures WrittenParts(parts, bashQuotes) && p == PrintParts(parts) && w == PartsValue(parts, bashQuotes)
  {
    var parts :| WrittenParts(parts, bashQuotes) && p == PrintParts(parts) && w == PartsValue(parts, bashQuotes);
    parts
  }

  /** The items of printed values. */
  ghost function ItemsOf(ws: seq<string>, ps: seq<string>, bashQuotes: bool): (items: seq<Item>)
    requires AllPrinted(ws, ps, bashQuotes)
    ensures |items| == |ws|
    ensures forall k :: 0 <= k < |items| ==> items[k] == Item.Written(PartsOf(ws[k], ps[k], bashQuotes))
  {
    seq(|ws|, k requires 0 <= k < |ws| => Item.Written(PartsOf(ws[k], ps[k], bashQuotes)))
  }

  lemma ItemsAre(ws: seq<string>, ps: seq<string>, items: seq<Item>, bashQuotes: bool)
    requires AllPrinted(ws, ps, bashQuotes) && items == ItemsOf(ws, ps, bashQuotes)
    ensures WrittenItems(items, bashQuotes) && PrintItems(items) == ps
    ensures forall k :: 0 <= k < |items| ==> items[k].Written? && PartsValue(items[k].parts, bashQuotes) == ws[k]
  {
  }

  lemma TokensOfWords(items: seq<Item>, i: nat, bashQuotes: bool)
    requires forall k :: 0 <= k < |items| ==> items[k].Written?
    ensures var tokens := TokensOf(items, i, bashQuotes);
      |tokens| == |items| && AllWords(tokens) && forall k :: 0 <= k < |items| ==> tokens[k].value == PartsValue(items[k].parts, bashQuotes)
  {
    var tokens := TokensOf(items, i, bashQuotes);
    forall k: nat | k < |items| ensures |tokens| == |items| && tokens[k].op == "" && tokens[k].value == PartsValue(items[k].parts, bashQuotes) {
      var at := MadeAt(MakersOf(items, bashQuotes), PrintItems(items), i, k);
      assert tokens[k] == TokenOf(items[k], at, bashQuotes);
    }
  }

  /** Reading the space-joined prints of any values, by any of the printers, gives back exactly those values as words. */
  lemma SegmentWordsUndoesQuoting(ws: seq<string>, ps: seq<string>, bashQuotes: bool)
    requires AllPrinted(ws, ps, bashQuotes)
    ensures Values(Words(Join(ps, ' '), bashQuotes)) == ws && AllWords(Words(Join(ps, ' '), bashQuotes))
  {
    var items := ItemsOf(ws, ps, bashQuotes);
    ItemsAre(ws, ps, items, bashQuotes);
    LineIsRead(items, bashQuotes);
    TokensOfWords(items, 0, bashQuotes);
  }

  lemma PrintIsOneWord(w: string, s: string, bashQuotes: bool)
    requires Printed(w, s, bashQuotes)
    ensures |Words(s, bashQuotes)| == 1 && Words(s, bashQuotes)[0].value == w && Words(s, bashQuotes)[0].op == ""
  {
    SegmentWordsUndoesQuoting([w], [s], bashQuotes);
    assert Join([s], ' ') == s && |Values(Words(s, bashQuotes))| == 1;
  }

  /** What a printer prints for a value is read as one word, and that word is the value. */
  lemma PrintedIsOneWord(w: string, s: string, bashQuotes: bool)
    requires s == ShellQuote(w) || s == QuoteIfNeeded(w) || s == DoubleQuote(w) || ('\0' !in w && s == AnsiQuote(w))
    ensures |Words(s, bashQuotes)| == 1 && Words(s, bashQuotes)[0].value == w && Words(s, bashQuotes)[0].op == ""
  {
    PrintersWrite(w, bashQuotes);
    PrintIsOneWord(w, s, bashQuotes);
  }
}
