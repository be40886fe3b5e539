/** Splitting a shell command segment into words, with quotes removed. */
module ShellWords {
  import opened Text
  import ShellAnsi

  /** A word or redirection of the text, from `start` up to `end`; `op` is empty for a word. */
  datatype Token = Token(start: nat, end: nat, value: string, op: string, fdName: string)

  /** The word being read, if any. */
  datatype Word = NoWord | Open(start: nat, value: string)

  /** Whether `c` stands at position `i`; nothing stands past the end. */
  predicate Is(text: string, i: nat, c: char) { i < |text| && text[i] == c }

  function Min(a: nat, b: nat): nat { if a < b then a else b }

  // ----- The four jumps -----

  /** The next `c` at or after `i`, or the end of the text. */
  function Find(text: string, i: nat, c: char): (k: nat)
    requires i <= |text|
    ensures i <= k <= |text| && (k < |text| ==> text[k] == c)
    decreases |text| - i
  {
    if i == |text| || text[i] == c then i else Find(text, i + 1, c)
  }

  /** The end of an ANSI-C string body: its closing quote, or the end of the text. */
  function AnsiEnd(text: string, i: nat): (k: nat)
    ensures Min(i, |text|) <= k <= |text|
    decreases |text| - i
  {
    if i >= |text| then |text|
    else if text[i] == '\'' then i
    else AnsiEnd(text, if text[i] == '\\' then i + 2 else i + 1)
  }

  datatype Frame = Quoted | Brace | Str

  /** One step of the brace scan: where it goes on, and the frames still open. */
  function BraceStep(text: string, k: nat, stack: seq<Frame>, bashQuotes: bool): (r: (nat, seq<Frame>))
    requires k < |text| && stack != []
    ensures r.0 > k
  {
    var c, top, below := text[k], stack[|stack| - 1], stack[..|stack| - 1];
    if c == '\\' then (k + 2, stack)
    else if top == Str then
      if c == '"' then (k + 1, below)
      else if c == '$' && Is(text, k + 1, '$') then (k + 2, stack)
      else if c == '$' && Is(text, k + 1, '{') then (k + 2, stack + [Quoted])
      else (k + 1, stack)
    else if c == '}' then (k + 1, below)
    else if c == '$' && Is(text, k + 1, '$') then (k + 2, stack)
    else if c == '$' && Is(text, k + 1, '{') then (k + 2, stack + [top])
    else if c == '"' then (k + 1, stack + [Str])
    else if c == '$' && Is(text, k + 1, '\'') && top == Brace then (AnsiEnd(text, k + 2) + 1, stack)
    else if c == '\'' && (top == Brace || (bashQuotes && top == Quoted)) then
      var close := Find(text, k + 1, '\'');
      (if close == |text| then |text| else close + 1, stack)
    else (k + 1, stack)
  }

  function BraceScan(text: string, k: nat, stack: seq<Frame>, bashQuotes: bool): (end: nat)
    ensures Min(k, |text|) <= end <= |text|
    decreases |text| - k
  {
    if k >= |text| || stack == [] then Min(k, |text|) else
    var (next, more) := BraceStep(text, k, stack, bashQuotes);
    BraceScan(text, next, more, bashQuotes)
  }

  function BraceEnd(text: string, start: nat, quoted: bool, bashQuotes: bool): (end: nat)
    requires start + 2 <= |text|
    ensures start + 2 <= end <= |text|
  {
    BraceScan(text, start + 2, [if quoted then Quoted else Brace], bashQuotes)
  }

  method FindBraceEnd(text: string, start: nat, quoted: bool, bashQuotes: bool) returns (end: nat)
    requires start + 2 <= |text|
    ensures end == BraceEnd(text, start, quoted, bashQuotes)
  {
    var stack := [if quoted then Quoted else Brace];
    var k := start + 2;
    while k < |text| && stack != []
      invariant BraceScan(text, k, stack, bashQuotes) == BraceEnd(text, start, quoted, bashQuotes)
    {
      k, stack := BraceStep(text, k, stack, bashQuotes).0, BraceStep(text, k, stack, bashQuotes).1;
    }
    end := Min(k, |text|);
  }

  /** The text up to the closing double quote, unescaped onto `value`, and where that quote stands. */
  function DoubleQuoted(text: string, k: nat, value: string, bashQuotes: bool): (r: (string, nat))
    requires k <= |text|
    ensures k <= r.1 <= |text|
    decreases |text| - k
  {
    if k == |text| || text[k] == '"' then (value, k)
    else if text[k] == '\\' && k + 1 < |text| && text[k + 1] in "$`\"\\\n" then
      DoubleQuoted(text, k + 2, value + [text[k + 1]], bashQuotes)
    else if text[k] == '$' && (Is(text, k + 1, '$') || Is(text, k + 1, '{')) then
      var stop := if text[k + 1] == '$' then k + 2 else BraceEnd(text, k, true, bashQuotes);
      DoubleQuoted(text, stop, value + text[k..stop], bashQuotes)
    else DoubleQuoted(text, k + 1, value + [text[k]], bashQuotes)
  }

  method ReadDoubleQuoted(text: string, from: nat, before: string, bashQuotes: bool) returns (value: string, k: nat)
    requires from <= |text|
    ensures (value, k) == DoubleQuoted(text, from, before, bashQuotes)
  {
    k, value := from, before;
    while k < |text| && text[k] != '"'
      invariant from <= k <= |text|
      invariant DoubleQuoted(text, k, value, bashQuotes) == DoubleQuoted(text, from, before, bashQuotes)
      decreases |text| - k
    {
      if text[k] == '\\' && k + 1 < |text| && text[k + 1] in "$`\"\\\n" {
        value := value + [text[k + 1]];
        k := k + 2;
      } else if text[k] == '$' && (Is(text, k + 1, '$') || Is(text, k + 1, '{')) {
        var stop := k + 2;
        if text[k + 1] == '{' {
          stop := FindBraceEnd(text, k, true, bashQuotes);
        }
        value := value + text[k..stop];
        k := stop;
      } else {
        value := value + [text[k]];
        k := k + 1;
      }
    }
  }

  // ----- Redirections -----

  /** How many characters the redirection operator at `i` takes. */
  function RedirectWidth(text: string, i: nat): (w: nat)
    requires Is(text, i, '<') || Is(text, i, '>') || (Is(text, i, '&') && Is(text, i + 1, '>'))
    ensures 1 <= w && i + w <= |text|
  {
    if text[i] == '<' then
      if Is(text, i + 1, '<') then (if Is(text, i + 2, '<') || Is(text, i + 2, '-') then 3 else 2)
      else if Is(text, i + 1, '>') || Is(text, i + 1, '&') then 2
      else 1
    else
      var a := if text[i] == '&' then 2 else 1;
      var b := if Is(text, i + a, '>') then a + 1 else a;
      var c := if Is(text, i + b, '&') then b + 1 else b;
      if Is(text, i + c, '|') || Is(text, i + c, '!') then c + 1 else c
  }

  predicate Digit(c: char) { '0' <= c <= '9' }

  predicate NameStart(c: char) { 'A' <= c <= 'Z' || 'a' <= c <= 'z' || c == '_' }

  /** A descriptor number, or a variable name in braces, written right before an operator. */
  predicate Descriptor(prefix: string)
  {
    || (prefix != "" && forall i :: 0 <= i < |prefix| ==> Digit(prefix[i]))
    || (|prefix| >= 3 && prefix[0] == '{' && prefix[|prefix| - 1] == '}' && NameStart(prefix[1])
        && forall i :: 2 <= i < |prefix| - 1 ==> NameStart(prefix[i]) || Digit(prefix[i]))
  }

  // ----- One step of the reader -----

  datatype Step = Step(tokens: seq<Token>, next: nat, word: Word)

  function Close(word: Word, to: nat): seq<Token>
  {
    if word.NoWord? then [] else [Token(word.start, to, word.value, "", "")]
  }

  function RedirectStep(text: string, i: nat, word: Word): Step
    requires Is(text, i, '<') || Is(text, i, '>')
    requires word.Open? ==> word.start <= i
  {
    var next := i + RedirectWidth(text, i);
    var prefix := if word.NoWord? then "" else text[word.start..i];
    if word.Open? && Descriptor(prefix) then
      Step([Token(word.start, next, text[word.start..next], text[i..next],
                  if prefix[0] == '{' then prefix[1..|prefix| - 1] else "")], next, NoWord)
    else Step(Close(word, i) + [Token(i, next, text[i..next], text[i..next], "")], next, NoWord)
  }

  /** What one word character, escape or quoted part adds to the word, and where reading goes on. */
  function WordStep(text: string, i: nat, bashQuotes: bool): (r: (string, nat))
    requires i < |text|
    ensures r.1 > i
  {
    var c := text[i];
    if c == '\\' then ([if i + 1 < |text| then text[i + 1] else c], i + 2)
    else if c == '\'' then
      var end := Find(text, i + 1, '\'');
      (text[i + 1..end], if end == |text| then |text| else end + 1)
    else if c == '$' && Is(text, i + 1, '$') then ("$$", i + 2)
    else if c == '$' && Is(text, i + 1, '\'') then
      var end := AnsiEnd(text, i + 2);
      (ShellAnsi.AnsiValue(text[i + 2..end]), end + 1)
    else if c == '"' || (c == '$' && Is(text, i + 1, '"')) then
      var (value, k) := DoubleQuoted(text, if c == '$' then i + 2 else i + 1, "", bashQuotes);
      (value, k + 1)
    else if c == '$' && Is(text, i + 1, '{') then
      var stop := BraceEnd(text, i, false, bashQuotes);
      (text[i..stop], stop)
    else ([c], i + 1)
  }

  function Extend(word: Word, i: nat, value: string): Word
  {
    if word.NoWord? then Open(i, value) else Open(word.start, word.value + value)
  }

  function ReadStep(text: string, i: nat, word: Word, bashQuotes: bool): (s: Step)
    requires i < |text| && (word.Open? ==> word.start <= i)
    ensures s.next > i && (s.word.Open? ==> s.word.start <= i)
  {
    var c := text[i];
    if Space(c) then Step(Close(word, i), i + 1, NoWord)
    else if c == '&' && Is(text, i + 1, '>') then
      var next := i + RedirectWidth(text, i);
      Step(Close(word, i) + [Token(i, next, text[i..next], text[i..next], "")], next, NoWord)
    else if c == '>' || c == '<' then RedirectStep(text, i, word)
    else
      var (value, next) := WordStep(text, i, bashQuotes);
      Step([], next, Extend(word, i, value))
  }

  function WordsFrom(text: string, i: nat, word: Word, bashQuotes: bool): seq<Token>
    requires word.Open? ==> word.start <= i
    decreases |text| - i
  {
    if i >= |text| then Close(word, |text|) else
    var s := ReadStep(text, i, word, bashQuotes);
    s.tokens + WordsFrom(text, s.next, s.word, bashQuotes)
  }

  function Words(text: string, bashQuotes: bool): seq<Token> { WordsFrom(text, 0, NoWord, bashQuotes) }

  /** One part of a word: a plain or escaped character, a quoted text, or an expansion. */
  method ReadWordPart(text: string, i: nat, bashQuotes: bool) returns (value: string, next: nat)
    requires i < |text|
    ensures (value, next) == WordStep(text, i, bashQuotes)
  {
    var c := text[i];
    value, next := [c], i + 1;
    if c == '\\' {
      value, next := [if i + 1 < |text| then text[i + 1] else c], i + 2;
    } else if c == '\'' {
      var end := Find(text, i + 1, '\'');
      value, next := text[i + 1..end], if end == |text| then |text| else end + 1;
    } else if c == '$' && Is(text, i + 1, '$') {
      value, next := "$$", i + 2;
    } else if c == '$' && Is(text, i + 1, '\'') {
      var end := AnsiEnd(text, i + 2);
      value := ShellAnsi.DecodeAnsi(text[i + 2..end]);
      next := end + 1;
    } else if c == '"' || (c == '$' && Is(text, i + 1, '"')) {
      value, next := ReadDoubleQuoted(text, if c == '$' then i + 2 else i + 1, "", bashQuotes);
      next := next + 1;
    } else if c == '$' && Is(text, i + 1, '{') {
      next := FindBraceEnd(text, i, false, bashQuotes);
      value := text[i..next];
    }
  }

  method SegmentWords(text: string, bashQuotes: bool) returns (words: seq<Token>)
    ensures words == Words(text, bashQuotes)
  {
    words := [];
    var word := NoWord;
    var i := 0;
    while i < |text|
      invariant word.Open? ==> word.start <= i
      invariant words + WordsFrom(text, i, word, bashQuotes) == Words(text, bashQuotes)
      decreases |text| - i
    {
      ghost var s, at := ReadStep(text, i, word, bashQuotes), i;
      var c := text[i];
      ghost var before := words;
      if Space(c) {
        words, word, i := words + Close(word, i), NoWord, i + 1;
      } else if c == '&' && Is(text, i + 1, '>') {
        var next := i + RedirectWidth(text, i);
        words := words + (Close(word, i) + [Token(i, next, text[i..next], text[i..next], "")]);
        word, i := NoWord, next;
      } else if c == '>' || c == '<' {
        var r := RedirectStep(text, i, word);
        words, word, i := words + r.tokens, NoWord, r.next;
      } else {
        var value, next := ReadWordPart(text, i, bashQuotes);
        word, i := Extend(word, i, value), next;
        assert s.tokens == [] && before + [] == before;
      }
      assert words == before + s.tokens && i == s.next && word == s.word;
      Assoc(before, s.tokens, WordsFrom(text, i, word, bashQuotes));
    }
    words := words + Close(word, |text|);
  }
}
