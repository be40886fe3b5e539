/** Splitting the text of a files claim at the commas outside braces and parentheses. */
module ClaimTokens {
  import opened Text

  /** Open braces and parentheses, the token being read, and the tokens read before it. */
  datatype Scan = Scan(braces: nat, parens: nat, current: string, tokens: seq<string>)

  const START := Scan(0, 0, "", [])

  function TrimStart(s: string): string
  {
    if s != "" && Space(s[0]) then TrimStart(s[1..]) else s
  }

  function TrimEnd(s: string): string
  {
    if s != "" && Space(s[|s| - 1]) then TrimEnd(s[..|s| - 1]) else s
  }

  function Trim(s: string): string
  {
    TrimEnd(TrimStart(s))
  }

  function Step(s: Scan, ch: char): Scan
  {
    var braces := if ch == '{' then s.braces + 1 else if ch == '}' && s.braces > 0 then s.braces - 1 else s.braces;
    var parens := if ch == '(' then s.parens + 1 else if ch == ')' && s.parens > 0 then s.parens - 1 else s.parens;
    if ch == ',' && braces == 0 && parens == 0 then Scan(0, 0, "", s.tokens + [s.current])
    else Scan(braces, parens, s.current + [ch], s.tokens)
  }

  function Run(s: Scan, text: string): Scan
    decreases |text|
  {
    if text == "" then s else Run(Step(s, text[0]), text[1..])
  }

  /** The text between the separating commas. */
  function Pieces(text: string): seq<string>
  {
    var s := Run(START, text);
    s.tokens + [s.current]
  }

  function Cleaned(pieces: seq<string>): seq<string>
  {
    if pieces == [] then []
    else (if Trim(pieces[0]) == "" then [] else [Trim(pieces[0])]) + Cleaned(pieces[1..])
  }

  method SplitFiles(text: string) returns (tokens: seq<string>)
    ensures tokens == Cleaned(Pieces(text))
  {
    var pieces, braces, parens, current := [], 0, 0, "";
    ghost var todo := text;
    for i := 0 to |text|
      invariant todo == text[i..] && braces >= 0 && parens >= 0
      invariant Run(Scan(braces, parens, current, pieces), todo) == Run(START, text)
    {
      var ch := text[i];
      assert todo[0] == ch;
      todo := todo[1..];
      if ch == '{' { braces := braces + 1; }
      else if ch == '}' { braces := if braces > 0 then braces - 1 else 0; }
      else if ch == '(' { parens := parens + 1; }
      else if ch == ')' { parens := if parens > 0 then parens - 1 else 0; }
      if ch == ',' && braces == 0 && parens == 0 {
        pieces := pieces + [current];
        current := "";
      } else {
        current := current + [ch];
      }
    }
    pieces := pieces + [current];
    tokens := Cleaned(pieces);
  }

  // ----- Nothing is lost -----

  lemma {:induction false} JoinSnoc(parts: seq<string>, x: string, sep: char)
    requires parts != []
    ensures Join(parts + [x], sep) == Join(parts, sep) + [sep] + x
  {
    var all := parts + [x];
    assert all[1..] == parts[1..] + [x];
    if |parts| == 1 {
      assert parts[1..] + [x] == [x];
    } else {
      JoinSnoc(parts[1..], x, sep);
      Assoc(parts[0] + [sep], Join(parts[1..], sep) + [sep], x);
      Assoc(parts[0] + [sep], Join(parts[1..], sep), [sep]);
    }
  }

  lemma JoinGrow(parts: seq<string>, x: string, ch: char, sep: char)
    ensures Join(parts + [x + [ch]], sep) == Join(parts + [x], sep) + [ch]
  {
    if parts == [] {
      assert parts + [x + [ch]] == [x + [ch]] && parts + [x] == [x];
    } else {
      JoinSnoc(parts, x + [ch], sep);
      JoinSnoc(parts, x, sep);
      Assoc(Join(parts, sep) + [sep], x, [ch]);
    }
  }

  lemma JoinStart(parts: seq<string>, x: string, sep: char)
    ensures Join(parts + [x] + [""], sep) == Join(parts + [x], sep) + [sep]
  {
    JoinSnoc(parts + [x], "", sep);
    assert Join(parts + [x], sep) + [sep] + "" == Join(parts + [x], sep) + [sep];
  }

  function Joined(s: Scan): string
  {
    Join(s.tokens + [s.current], ',')
  }

  lemma {:induction false} RunKeepsText(s: Scan, text: string)
    ensures Joined(Run(s, text)) == Joined(s) + text
    decreases |text|
  {
    if text == "" {
      assert Joined(s) + "" == Joined(s);
    } else {
      var ch := text[0];
      JoinGrow(s.tokens, s.current, ch, ',');
      JoinStart(s.tokens, s.current, ',');
      RunKeepsText(Step(s, ch), text[1..]);
      Assoc(Joined(s), [ch], text[1..]);
      assert text == [ch] + text[1..];
    }
  }

  /** The pieces, joined by commas, are the text. */
  lemma PiecesAreLossless(text: string)
    ensures Join(Pieces(text), ',') == text
  {
    RunKeepsText(START, text);
    assert [] + [""] == [""];
    assert "" + text == text;
  }

  // ----- Splitting undoes joining -----

  /** Reading the token from outside all brackets ends outside all brackets, with every comma inside some. */
  predicate Closed(token: string)
  {
    Run(START, token) == Scan(0, 0, token, [])
  }

  predicate Clean(token: string)
  {
    token != "" && !Space(token[0]) && !Space(token[|token| - 1])
  }

  lemma {:induction false} RunAfter(s: Scan, before: string, tokens: seq<string>, text: string)
    requires Run(s, text).tokens == s.tokens
    ensures Run(Scan(s.braces, s.parens, before + s.current, tokens), text) ==
      Scan(Run(s, text).braces, Run(s, text).parens, before + Run(s, text).current, tokens)
    decreases |text|
  {
    if text != "" {
      var next := Step(s, text[0]);
      RunTokens(next, text[1..]);
      RunAfter(next, before, tokens, text[1..]);
      Assoc(before, s.current, [text[0]]);
    }
  }

  lemma {:induction false} RunTokens(s: Scan, text: string)
    ensures |Run(s, text).tokens| >= |s.tokens|
    decreases |text|
  {
    if text != "" { RunTokens(Step(s, text[0]), text[1..]); }
  }

  lemma {:induction false} RunConcat(s: Scan, a: string, b: string)
    ensures Run(s, a + b) == Run(Run(s, a), b)
    decreases |a|
  {
    if a == "" {
      assert a + b == b;
    } else {
      assert (a + b)[1..] == a[1..] + b;
      RunConcat(Step(s, a[0]), a[1..], b);
    }
  }

  function Preceded(token: string): string
  {
    [','] + ([' '] + token)
  }

  /** Tokens after the first, each preceded by a comma and a space. */
  function Rest(tokens: seq<string>): string
  {
    if tokens == [] then "" else Preceded(tokens[0]) + Rest(tokens[1..])
  }

  function Spaced(tokens: seq<string>): seq<string>
  {
    if tokens == [] then [] else [[' '] + tokens[0]] + Spaced(tokens[1..])
  }

  predicate AllClosed(tokens: seq<string>)
  {
    forall i :: 0 <= i < |tokens| ==> Closed(tokens[i]) && Clean(tokens[i])
  }

  lemma RunCons(s: Scan, ch: char, text: string)
    ensures Run(s, [ch] + text) == Run(Step(s, ch), text)
  {
    assert ([ch] + text)[1..] == text;
  }

  lemma ReadToken(s: Scan, token: string)
    requires s.braces == 0 && s.parens == 0 && Closed(token)
    ensures Run(s, Preceded(token)) == Scan(0, 0, [' '] + token, s.tokens + [s.current])
  {
    var tokens := s.tokens + [s.current];
    RunCons(s, ',', [' '] + token);
    RunCons(Scan(0, 0, "", tokens), ' ', token);
    StepSpace(tokens);
    RunAfter(START, [' '], tokens, token);
  }

  lemma StepSpace(tokens: seq<string>)
    ensures Step(Scan(0, 0, "", tokens), ' ') == Scan(0, 0, [' '] + "", tokens)
  {
  }

  lemma {:induction false} RunRest(s: Scan, tokens: seq<string>)
    requires s.braces == 0 && s.parens == 0 && AllClosed(tokens)
    decreases |tokens|
    ensures var r := Run(s, Rest(tokens)); r.tokens + [r.current] == s.tokens + [s.current] + Spaced(tokens)
  {
    if tokens == [] {
      assert s.tokens + [s.current] + [] == s.tokens + [s.current];
    } else {
      ReadToken(s, tokens[0]);
      RunConcat(s, Preceded(tokens[0]), Rest(tokens[1..]));
      var next := Scan(0, 0, [' '] + tokens[0], s.tokens + [s.current]);
      RunRest(next, tokens[1..]);
      Assoc(s.tokens + [s.current], [[' '] + tokens[0]], Spaced(tokens[1..]));
    }
  }

  lemma TrimClean(token: string)
    requires Clean(token)
    ensures Trim(token) == token && Trim([' '] + token) == token
  {
    assert ([' '] + token)[1..] == token;
  }

  lemma {:induction false} CleanedSpaced(tokens: seq<string>)
    requires AllClosed(tokens)
    ensures Cleaned(Spaced(tokens)) == tokens
  {
    if tokens != [] {
      TrimClean(tokens[0]);
      CleanedSpaced(tokens[1..]);
    }
  }

  /** Splitting gives back the tokens of a list that was joined with commas and spaces. */
  lemma SplitUndoesJoin(tokens: seq<string>)
    requires tokens != [] && AllClosed(tokens)
    ensures Cleaned(Pieces(tokens[0] + Rest(tokens[1..]))) == tokens
  {
    var first, rest := tokens[0], tokens[1..];
    RunConcat(START, first, Rest(rest));
    RunRest(Scan(0, 0, first, []), rest);
    var none: seq<string> := [];
    assert none + [first] + Spaced(rest) == [first] + Spaced(rest);
    assert ([first] + Spaced(rest))[1..] == Spaced(rest);
    TrimClean(first);
    CleanedSpaced(rest);
  }

  // ----- Tokens as they are written -----

  /** A part of a token: a character, or parts in a pair of braces or parentheses. */
  datatype Part = Letter(c: char) | InBraces(parts: seq<Part>) | InParens(parts: seq<Part>)

  function Print(parts: seq<Part>): string
  {
    if parts == [] then "" else PrintPart(parts[0]) + Print(parts[1..])
  }

  function PrintPart(p: Part): string
  {
    match p
    case Letter(c) => [c]
    case InBraces(parts) => ['{'] + (Print(parts) + ['}'])
    case InParens(parts) => ['('] + (Print(parts) + [')'])
  }

  /** Commas are in brackets, and every opening bracket is one of a pair; a closing one may be alone where none of its kind is open. */
  predicate Written(parts: seq<Part>, braces: nat, parens: nat)
  {
    parts == [] || (WrittenPart(parts[0], braces, parens) && Written(parts[1..], braces, parens))
  }

  predicate WrittenPart(p: Part, braces: nat, parens: nat)
  {
    match p
    case Letter(c) => c != '{' && c != '(' && (c == '}' ==> braces == 0) && (c == ')' ==> parens == 0) && (c == ',' ==> braces + parens > 0)
    case InBraces(parts) => Written(parts, braces + 1, parens)
    case InParens(parts) => Written(parts, braces, parens + 1)
  }

  /** Reading this text from `s` only adds it to the token. */
  predicate Adds(s: Scan, text: string)
  {
    Run(s, text) == s.(current := s.current + text)
  }

  lemma {:induction false} WrittenAdds(s: Scan, parts: seq<Part>)
    requires Written(parts, s.braces, s.parens)
    ensures Adds(s, Print(parts))
    decreases parts
  {
    if parts == [] {
      assert s.current + "" == s.current;
    } else {
      var first, rest := PrintPart(parts[0]), Print(parts[1..]);
      WrittenPartAdds(s, parts[0]);
      var next := s.(current := s.current + first);
      WrittenAdds(next, parts[1..]);
      RunConcat(s, first, rest);
      Assoc(s.current, first, rest);
    }
  }

  lemma {:induction false} WrittenPartAdds(s: Scan, p: Part)
    requires WrittenPart(p, s.braces, s.parens)
    ensures Adds(s, PrintPart(p))
    decreases p
  {
    match p {
      case Letter(c) => RunCons(s, c, ""); assert [c] + "" == [c];
      case InBraces(parts) =>
        var inner := s.(braces := s.braces + 1, current := s.current + ['{']);
        WrittenAdds(inner, parts);
        PairAdds(s, '{', Print(parts), '}', inner);
      case InParens(parts) =>
        var inner := s.(parens := s.parens + 1, current := s.current + ['(']);
        WrittenAdds(inner, parts);
        PairAdds(s, '(', Print(parts), ')', inner);
    }
  }

  lemma PairAdds(s: Scan, open: char, text: string, close: char, inner: Scan)
    requires (open == '{' && close == '}' && inner == s.(braces := s.braces + 1, current := s.current + ['{']))
          || (open == '(' && close == ')' && inner == s.(parens := s.parens + 1, current := s.current + ['(']))
    requires Adds(inner, text)
    ensures Adds(s, [open] + (text + [close]))
  {
    var last := inner.(current := inner.current + text);
    RunCons(s, open, text + [close]);
    RunConcat(inner, text, [close]);
    RunCons(last, close, "");
    assert [close] + "" == [close];
    Assoc(s.current, [open], text);
    Assoc(s.current, [open] + text, [close]);
    Assoc([open], text, [close]);
  }

  function PrintAll(tokens: seq<seq<Part>>): seq<string>
  {
    seq(|tokens|, i requires 0 <= i < |tokens| => Print(tokens[i]))
  }

  /** A list of written tokens is split at the commas between them and nowhere else. */
  lemma WrittenTokensAreSplit(tokens: seq<seq<Part>>)
    requires tokens != [] && forall i :: 0 <= i < |tokens| ==> Written(tokens[i], 0, 0) && Clean(Print(tokens[i]))
    ensures var all := PrintAll(tokens); Cleaned(Pieces(all[0] + Rest(all[1..]))) == all
  {
    var all := PrintAll(tokens);
    forall i | 0 <= i < |all| ensures Closed(all[i]) {
      WrittenAdds(START, tokens[i]);
      assert "" + all[i] == all[i];
    }
    SplitUndoesJoin(all);
  }
}
