/** Where a braced expansion ends, whatever is nested in it. */
module ShellBraces {
  import opened Text
  import opened ShellWords

  /** What stands between the braces of an expansion, or in a double-quoted string inside them. */
  datatype Body = Nothing | Then(first: Piece, rest: Body)

  datatype Piece =
    | Letter(c: char)
    | Variable(c: char)         // a dollar sign and the first character of a name
    | Escaped(c: char)
    | Dollars                   // the number of the shell's process
    | Nested(body: Body)
    | InString(body: Body)
    | InQuotes(x: string)
    | Ansi(cs: seq<AnsiChar>)

  datatype AnsiChar = AnsiChar(escaped: bool, c: char)

  function PrintAnsi(x: seq<AnsiChar>): string
  {
    if x == [] then "" else (if x[0].escaped then "\\" else "") + [x[0].c] + PrintAnsi(x[1..])
  }

  predicate AllowedAnsi(x: seq<AnsiChar>)
  {
    forall i :: 0 <= i < |x| ==> x[i].escaped || (x[i].c != '\'' && x[i].c != '\\')
  }

  function PrintPiece(p: Piece): string
    decreases p
  {
    match p
    case Letter(c) => [c]
    case Variable(c) => "$" + [c]
    case Escaped(c) => "\\" + [c]
    case Dollars => "$$"
    case Nested(body) => "${" + PrintBody(body) + "}"
    case InString(body) => "\"" + PrintBody(body) + "\""
    case InQuotes(x) => "'" + x + "'"
    case Ansi(x) => "$'" + PrintAnsi(x) + "'"
  }

  function PrintBody(b: Body): string
    decreases b
  {
    match b
    case Nothing => ""
    case Then(p, rest) => PrintPiece(p) + PrintBody(rest)
  }

  /** A character that means itself directly inside this frame. */
  predicate AllowedLetter(c: char, top: Frame, bashQuotes: bool)
  {
    && c != '\\' && c != '$' && c != '"'
    && (top != Str ==> c != '}' && (c == '\'' ==> top == Quoted && !bashQuotes))
  }

  predicate Allowed(p: Piece, top: Frame, bashQuotes: bool)
    decreases p
  {
    match p
    case Letter(c) => AllowedLetter(c, top, bashQuotes)
    case Variable(c) => c != '{' && AllowedLetter(c, top, bashQuotes)
    case Escaped(c) => true
    case Dollars => true
    case Nested(body) => AllowedBody(body, if top == Str then Quoted else top, bashQuotes)
    case InString(body) => top != Str && AllowedBody(body, Str, bashQuotes)
    case InQuotes(x) => (top == Brace || (top == Quoted && bashQuotes)) && '\'' !in x
    case Ansi(x) => top == Brace && AllowedAnsi(x)
  }

  predicate AllowedBody(b: Body, top: Frame, bashQuotes: bool)
    decreases b
  {
    match b
    case Nothing => true
    case Then(p, rest) => Allowed(p, top, bashQuotes) && AllowedBody(rest, top, bashQuotes)
  }

  // ----- The scan passes over what is nested -----

  /** Where the scan ends from a position with some frames open. */
  type Scanner = (nat, seq<Frame>) -> nat

  function ScannerOf(text: string, bashQuotes: bool): Scanner
  {
    (k: nat, stack: seq<Frame>) => BraceScan(text, k, stack, bashQuotes)
  }

  predicate ScanStepsAt(scan: Scanner, text: string, bashQuotes: bool, k: nat, stack: seq<Frame>)
  {
    k < |text| && stack != [] ==> scan(k, stack) == scan(BraceStep(text, k, stack, bashQuotes).0, BraceStep(text, k, stack, bashQuotes).1)
  }

  ghost predicate ScanSteps(scan: Scanner, text: string, bashQuotes: bool)
  {
    forall k: nat, stack :: ScanStepsAt(scan, text, bashQuotes, k, stack)
  }

  lemma ScannerSteps(text: string, bashQuotes: bool)
    ensures ScanSteps(ScannerOf(text, bashQuotes), text, bashQuotes)
  {
    forall k: nat, stack ensures ScanStepsAt(ScannerOf(text, bashQuotes), text, bashQuotes, k, stack) {
    }
  }

  /** From `k` to `n` the scan leaves the frames as they are. */
  predicate Passes(scan: Scanner, k: nat, n: nat, stack: seq<Frame>)
  {
    scan(k, stack) == scan(n, stack)
  }

  lemma ScanStep(scan: Scanner, text: string, k: nat, stack: seq<Frame>, bashQuotes: bool, next: nat, more: seq<Frame>)
    requires ScanSteps(scan, text, bashQuotes)
    requires k < |text| && stack != [] && BraceStep(text, k, stack, bashQuotes) == (next, more)
    ensures scan(k, stack) == scan(next, more)
  {
    assert ScanStepsAt(scan, text, bashQuotes, k, stack);
  }

  lemma LetterPasses(scan: Scanner, text: string, k: nat, c: char, stack: seq<Frame>, top: Frame, bashQuotes: bool)
    requires ScanSteps(scan, text, bashQuotes)
    requires At(text, k, [c]) && stack != [] && stack[|stack| - 1] == top && AllowedLetter(c, top, bashQuotes)
    ensures Passes(scan, k, k + 1, stack)
  {
    FirstTwo(text, k, [c]);
    ScanStep(scan, text, k, stack, bashQuotes, k + 1, stack);
  }

  lemma VariablePasses(scan: Scanner, text: string, k: nat, c: char, stack: seq<Frame>, top: Frame, bashQuotes: bool)
    requires ScanSteps(scan, text, bashQuotes)
    requires At(text, k, "$" + [c]) && stack != [] && stack[|stack| - 1] == top
    requires c != '{' && AllowedLetter(c, top, bashQuotes)
    ensures Passes(scan, k, k + 2, stack)
  {
    FirstTwo(text, k, "$" + [c]);
    ScanStep(scan, text, k, stack, bashQuotes, k + 1, stack);
    ScanStep(scan, text, k + 1, stack, bashQuotes, k + 2, stack);
  }

  lemma TwoPass(scan: Scanner, text: string, k: nat, s: string, stack: seq<Frame>, bashQuotes: bool)
    requires ScanSteps(scan, text, bashQuotes)
    requires At(text, k, s) && |s| == 2 && stack != [] && (s[0] == '\\' || s == "$$")
    ensures Passes(scan, k, k + 2, stack)
  {
    FirstTwo(text, k, s);
    ScanStep(scan, text, k, stack, bashQuotes, k + 2, stack);
  }

  lemma {:induction false} AnsiEnds(text: string, i: nat, x: seq<AnsiChar>)
    requires AllowedAnsi(x) && At(text, i, PrintAnsi(x)) && Is(text, i + |PrintAnsi(x)|, '\'')
    ensures AnsiEnd(text, i) == i + |PrintAnsi(x)|
    decreases |x|
  {
    if x != [] {
      var first, rest := (if x[0].escaped then "\\" else "") + [x[0].c], PrintAnsi(x[1..]);
      AtConcat(text, i, first, rest);
      assert text[i + 0] == first[0];
      assert forall j :: 0 <= j < |x[1..]| ==> x[1..][j] == x[j + 1];
      AnsiEnds(text, i + |first|, x[1..]);
    }
  }

  lemma AnsiPasses(scan: Scanner, text: string, k: nat, x: seq<AnsiChar>, stack: seq<Frame>, bashQuotes: bool)
    requires ScanSteps(scan, text, bashQuotes)
    requires AllowedAnsi(x) && At(text, k, "$'" + PrintAnsi(x) + "'") && stack != [] && stack[|stack| - 1] == Brace
    ensures Passes(scan, k, k + |PrintAnsi(x)| + 3, stack)
  {
    AtConcat(text, k, "$'" + PrintAnsi(x), "'");
    AtConcat(text, k, "$'", PrintAnsi(x));
    FirstTwo(text, k, "$'");
    FirstTwo(text, k + 2 + |PrintAnsi(x)|, "'");
    AnsiEnds(text, k + 2, x);
    ScanStep(scan, text, k, stack, bashQuotes, k + |PrintAnsi(x)| + 3, stack);
  }

  lemma {:induction false} FindOver(text: string, i: nat, x: string, c: char)
    requires At(text, i, x) && c !in x && Is(text, i + |x|, c)
    ensures Find(text, i, c) == i + |x|
    decreases |x|
  {
    if x != "" {
      assert text[i + 0] == x[0] && x == [x[0]] + x[1..];
      AtConcat(text, i, [x[0]], x[1..]);
      FindOver(text, i + 1, x[1..], c);
    }
  }

  lemma QuotesPass(scan: Scanner, text: string, k: nat, x: string, stack: seq<Frame>, top: Frame, bashQuotes: bool)
    requires ScanSteps(scan, text, bashQuotes)
    requires At(text, k, "'" + x + "'") && stack != [] && stack[|stack| - 1] == top
    requires (top == Brace || (top == Quoted && bashQuotes)) && '\'' !in x
    ensures Passes(scan, k, k + |x| + 2, stack)
  {
    AtConcat(text, k, "'" + x, "'");
    AtConcat(text, k, "'", x);
    FirstTwo(text, k, "'");
    FirstTwo(text, k + 1 + |x|, "'");
    FindOver(text, k + 1, x, '\'');
    ScanStep(scan, text, k, stack, bashQuotes, k + |x| + 2, stack);
  }

  lemma OpensNested(scan: Scanner, text: string, k: nat, stack: seq<Frame>, top: Frame, inner: Frame, bashQuotes: bool)
    requires ScanSteps(scan, text, bashQuotes)
    requires At(text, k, "${") && stack != [] && stack[|stack| - 1] == top && inner == if top == Str then Quoted else top
    ensures scan(k, stack) == scan(k + 2, stack + [inner])
  {
    FirstTwo(text, k, "${");
    ScanStep(scan, text, k, stack, bashQuotes, k + 2, stack + [inner]);
  }

  lemma Closes(scan: Scanner, text: string, k: nat, close: char, stack: seq<Frame>, inner: Frame, bashQuotes: bool)
    requires ScanSteps(scan, text, bashQuotes)
    requires Is(text, k, close) && if inner == Str then close == '"' else close == '}'
    ensures scan(k, stack + [inner]) == scan(k + 1, stack)
  {
    var all := stack + [inner];
    assert all[|all| - 1] == inner && all[..|all| - 1] == stack;
    ScanStep(scan, text, k, all, bashQuotes, k + 1, stack);
  }

  lemma OpensString(scan: Scanner, text: string, k: nat, stack: seq<Frame>, bashQuotes: bool)
    requires ScanSteps(scan, text, bashQuotes)
    requires Is(text, k, '"') && stack != [] && stack[|stack| - 1] != Str
    ensures scan(k, stack) == scan(k + 1, stack + [Str])
  {
    ScanStep(scan, text, k, stack, bashQuotes, k + 1, stack + [Str]);
  }

  /** Around a body stand an opening and a closing text. */
  lemma AtAround(text: string, k: nat, open: string, body: string, close: string)
    requires At(text, k, open + body + close)
    ensures At(text, k, open) && At(text, k + |open|, body) && At(text, k + |open| + |body|, close)
  {
    AtConcat(text, k, open + body, close);
    AtConcat(text, k, open, body);
  }

  predicate Flat(p: Piece) { !p.Nested? && !p.InString? }

  lemma FlatPasses(scan: Scanner, text: string, k: nat, p: Piece, stack: seq<Frame>, top: Frame, bashQuotes: bool)
    requires ScanSteps(scan, text, bashQuotes)
    requires Flat(p) && At(text, k, PrintPiece(p)) && stack != [] && stack[|stack| - 1] == top && Allowed(p, top, bashQuotes)
    ensures Passes(scan, k, k + |PrintPiece(p)|, stack)
  {
    match p {
      case Letter(c) => LetterPasses(scan, text, k, c, stack, top, bashQuotes);
      case Variable(c) => VariablePasses(scan, text, k, c, stack, top, bashQuotes);
      case Escaped(c) => TwoPass(scan, text, k, "\\" + [c], stack, bashQuotes);
      case Dollars => TwoPass(scan, text, k, "$$", stack, bashQuotes);
      case InQuotes(x) => QuotesPass(scan, text, k, x, stack, top, bashQuotes);
      case Ansi(x) => AnsiPasses(scan, text, k, x, stack, bashQuotes);
    }
  }

  lemma {:induction false} PiecePasses(scan: Scanner, text: string, k: nat, p: Piece, stack: seq<Frame>, top: Frame, bashQuotes: bool)
    requires ScanSteps(scan, text, bashQuotes)
    requires At(text, k, PrintPiece(p)) && stack != [] && stack[|stack| - 1] == top && Allowed(p, top, bashQuotes)
    ensures Passes(scan, k, k + |PrintPiece(p)|, stack)
    decreases p
  {
    match p {
      case Nested(body) =>
        var inner := if top == Str then Quoted else top;
        AtAround(text, k, "${", PrintBody(body), "}");
        BodyPasses(scan, text, k + 2, body, stack + [inner], inner, bashQuotes);
        NestedPasses(scan, text, k, PrintBody(body), stack, top, inner, bashQuotes);
      case InString(body) =>
        AtAround(text, k, "\"", PrintBody(body), "\"");
        BodyPasses(scan, text, k + 1, body, stack + [Str], Str, bashQuotes);
        StringPasses(scan, text, k, PrintBody(body), stack, top, bashQuotes);
      case _ => FlatPasses(scan, text, k, p, stack, top, bashQuotes);
    }
  }

  lemma NestedPasses(scan: Scanner, text: string, k: nat, body: string, stack: seq<Frame>, top: Frame, inner: Frame, bashQuotes: bool)
    requires ScanSteps(scan, text, bashQuotes)
    requires At(text, k, "${" + body + "}") && stack != [] && stack[|stack| - 1] == top && inner == (if top == Str then Quoted else top)
    requires inner != Str && Passes(scan, k + 2, k + 2 + |body|, stack + [inner])
    ensures Passes(scan, k, k + |body| + 3, stack)
  {
    AtAround(text, k, "${", body, "}");
    OpensNested(scan, text, k, stack, top, inner, bashQuotes);
    FirstTwo(text, k + 2 + |body|, "}");
    Closes(scan, text, k + 2 + |body|, '}', stack, inner, bashQuotes);
  }

  lemma StringPasses(scan: Scanner, text: string, k: nat, body: string, stack: seq<Frame>, top: Frame, bashQuotes: bool)
    requires ScanSteps(scan, text, bashQuotes)
    requires At(text, k, "\"" + body + "\"") && stack != [] && stack[|stack| - 1] == top && top != Str
    requires Passes(scan, k + 1, k + 1 + |body|, stack + [Str])
    ensures Passes(scan, k, k + |body| + 2, stack)
  {
    AtAround(text, k, "\"", body, "\"");
    FirstTwo(text, k, "\"");
    OpensString(scan, text, k, stack, bashQuotes);
    FirstTwo(text, k + 1 + |body|, "\"");
    Closes(scan, text, k + 1 + |body|, '"', stack, Str, bashQuotes);
  }

  lemma {:induction false} BodyPasses(scan: Scanner, text: string, k: nat, b: Body, stack: seq<Frame>, top: Frame, bashQuotes: bool)
    requires ScanSteps(scan, text, bashQuotes)
    requires At(text, k, PrintBody(b)) && stack != [] && stack[|stack| - 1] == top && AllowedBody(b, top, bashQuotes)
    ensures Passes(scan, k, k + |PrintBody(b)|, stack)
    decreases b
  {
    if b.Then? {
      var first, rest := PrintPiece(b.first), PrintBody(b.rest);
      AtConcat(text, k, first, rest);
      PiecePasses(scan, text, k, b.first, stack, top, bashQuotes);
      BodyPasses(scan, text, k + |first|, b.rest, stack, top, bashQuotes);
    }
  }

  function Expansion(b: Body): string { "${" + PrintBody(b) + "}" }

  /** An expansion ends at its own closing brace, however expansions, strings and quotes are nested in it. */
  lemma ExpansionEnds(text: string, i: nat, b: Body, quoted: bool, bashQuotes: bool)
    requires At(text, i, Expansion(b)) && AllowedBody(b, if quoted then Quoted else Brace, bashQuotes)
    ensures i + |Expansion(b)| <= |text| && BraceEnd(text, i, quoted, bashQuotes) == i + |Expansion(b)|
  {
    var scan, top, n := ScannerOf(text, bashQuotes), if quoted then Quoted else Brace, |PrintBody(b)|;
    ScannerSteps(text, bashQuotes);
    AtAround(text, i, "${", PrintBody(b), "}");
    BodyPasses(scan, text, i + 2, b, [top], top, bashQuotes);
    FirstTwo(text, i + 2 + n, "}");
    assert [] + [top] == [top];
    Closes(scan, text, i + 2 + n, '}', [], top, bashQuotes);
  }
}
