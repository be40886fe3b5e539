/** The word reader loses nothing, and undoes the two quoting printers. */
module ShellQuoting {
  import opened Text
  import opened ShellWords
  import opened ShellBraces

  // ----- Nothing is lost -----

  predicate Blank(text: string, from: nat, to: nat)
  {
    from <= to <= |text| && forall i :: from <= i < to ==> Space(text[i])
  }

  /** From `from` on, the text is nonempty tokens in order, with only whitespace before, between and after them. */
  predicate Tiles(text: string, from: nat, tokens: seq<Token>)
    decreases tokens
  {
    if tokens == [] then Blank(text, from, |text|)
    else
      && Blank(text, from, tokens[0].start)
      && tokens[0].start < tokens[0].end <= |text|
      && Tiles(text, tokens[0].end, tokens[1..])
  }

  /** Where the text not yet given out starts: at the word being read, or at the reader. */
  function Pending(i: nat, word: Word): nat { if word.Open? then word.start else i }

  lemma TilesCons(text: string, from: nat, t: Token, rest: seq<Token>)
    requires Blank(text, from, t.start) && t.start < t.end <= |text| && Tiles(text, t.end, rest)
    ensures Tiles(text, from, [t] + rest)
  {
    assert ([t] + rest)[1..] == rest;
  }

  lemma TilesBlank(text: string, from: nat, to: nat, tokens: seq<Token>)
    requires Blank(text, from, to) && Tiles(text, to, tokens)
    ensures Tiles(text, from, tokens)
  {
  }

  /** A redirection gives out everything pending, in one token or two. */
  lemma RedirectTiles(text: string, i: nat, word: Word, s: Step, rest: seq<Token>)
    requires Is(text, i, '<') || Is(text, i, '>')
    requires (word.Open? ==> word.start < i) && s == RedirectStep(text, i, word)
    requires Tiles(text, s.next, rest)
    ensures Tiles(text, Pending(i, word), s.tokens + rest)
  {
    if |s.tokens| == 1 {
      TilesCons(text, Pending(i, word), s.tokens[0], rest);
      assert [s.tokens[0]] + rest == s.tokens + rest;
    } else {
      CloseThenTiles(text, i, word, s.tokens[1], rest);
    }
  }

  lemma SpaceTiles(text: string, i: nat, word: Word, rest: seq<Token>)
    requires i < |text| && Space(text[i]) && (word.Open? ==> word.start < i) && Tiles(text, i + 1, rest)
    ensures Tiles(text, Pending(i, word), Close(word, i) + rest)
  {
    TilesBlank(text, i, i + 1, rest);
    if word.Open? {
      TilesCons(text, word.start, Close(word, i)[0], rest);
      assert [Close(word, i)[0]] + rest == Close(word, i) + rest;
    } else {
      assert [] + rest == rest;
    }
  }

  lemma CloseThenTiles(text: string, i: nat, word: Word, t: Token, rest: seq<Token>)
    requires i < |text| && (word.Open? ==> word.start < i)
    requires t.start == i < t.end <= |text| && Tiles(text, t.end, rest)
    ensures Tiles(text, Pending(i, word), Close(word, i) + [t] + rest)
  {
    TilesCons(text, i, t, rest);
    if word.Open? {
      var w := Close(word, i)[0];
      TilesCons(text, word.start, w, [t] + rest);
      assert [w] + ([t] + rest) == Close(word, i) + [t] + rest;
    } else {
      assert [] + [t] + rest == [t] + rest;
    }
  }

  lemma StepTiles(text: string, i: nat, word: Word, s: Step, rest: seq<Token>, bashQuotes: bool)
    requires i < |text| && (word.Open? ==> word.start < i) && s == ReadStep(text, i, word, bashQuotes)
    requires Tiles(text, Pending(s.next, s.word), rest)
    ensures Tiles(text, Pending(i, word), s.tokens + rest)
  {
    var c := text[i];
    if Space(c) {
      SpaceTiles(text, i, word, rest);
    } else if c == '&' && Is(text, i + 1, '>') {
      CloseThenTiles(text, i, word, s.tokens[|s.tokens| - 1], rest);
    } else if c == '>' || c == '<' {
      RedirectTiles(text, i, word, s, rest);
    } else {
      assert [] + rest == rest;
    }
  }

  lemma {:induction false} WordsTile(text: string, i: nat, word: Word, bashQuotes: bool)
    requires if word.Open? then word.start < i && word.start < |text| else i <= |text| + 1
    requires word.NoWord? ==> i <= |text|
    ensures Tiles(text, Pending(i, word), WordsFrom(text, i, word, bashQuotes))
    decreases |text| - i
  {
    if i >= |text| {
      if word.Open? {
        TilesCons(text, word.start, Close(word, |text|)[0], []);
        assert Close(word, |text|)[0..1] + [] == Close(word, |text|);
      }
    } else {
      var s := ReadStep(text, i, word, bashQuotes);
      WordsTile(text, s.next, s.word, bashQuotes);
      StepTiles(text, i, word, s, WordsFrom(text, s.next, s.word, bashQuotes), bashQuotes);
    }
  }

  lemma {:induction false} TiledCovers(text: string, from: nat, tokens: seq<Token>, i: nat)
    requires Tiles(text, from, tokens) && from <= i < |text| && !Space(text[i])
    ensures exists k :: 0 <= k < |tokens| && tokens[k].start <= i < tokens[k].end
    decreases tokens
  {
    if tokens != [] {
      if tokens[0].end <= i {
        TiledCovers(text, tokens[0].end, tokens[1..], i);
        var k :| 0 <= k < |tokens[1..]| && tokens[1..][k].start <= i < tokens[1..][k].end;
        assert tokens[k + 1].start <= i < tokens[k + 1].end;
      } else {
        assert tokens[0].start <= i < tokens[0].end;
      }
    }
  }

  /** The reader is lossless: its tokens are disjoint, in order, and leave out nothing but whitespace. */
  lemma SegmentWordsIsLossless(text: string, bashQuotes: bool)
    ensures Tiles(text, 0, Words(text, bashQuotes))
    ensures forall i :: 0 <= i < |text| && !Space(text[i]) ==>
      exists k :: 0 <= k < |Words(text, bashQuotes)| && Words(text, bashQuotes)[k].start <= i < Words(text, bashQuotes)[k].end
  {
    WordsTile(text, 0, NoWord, bashQuotes);
    forall i | 0 <= i < |text| && !Space(text[i])
      ensures exists k :: 0 <= k < |Words(text, bashQuotes)| && Words(text, bashQuotes)[k].start <= i < Words(text, bashQuotes)[k].end
    {
      TiledCovers(text, 0, Words(text, bashQuotes), i);
    }
  }

  // ----- The printers -----

  function Escape(w: string): string
  {
    if w == "" then "" else (if w[0] == '\'' then "'\\''" else [w[0]]) + Escape(w[1..])
  }

  /** Single quotes around the value, with every quote inside closed, escaped and reopened. */
  function ShellQuote(w: string): string { "'" + Escape(w) + "'" }

  predicate Safe(c: char)
  {
    'A' <= c <= 'Z' || 'a' <= c <= 'z' || '0' <= c <= '9' || c in "_/.,:=@%+-"
  }

  predicate Bare(w: string)
  {
    w != "" && forall i :: 0 <= i < |w| ==> Safe(w[i])
  }

  /** The printer of recovery commands leaves a plain word as it is. */
  function QuoteIfNeeded(w: string): string { if Bare(w) then w else ShellQuote(w) }

  lemma Slice(text: string, i: nat, x: string)
    requires At(text, i, x)
    ensures text[i..i + |x|] == x
  {
  }

  lemma {:induction false} EscapeOfPlain(w: string)
    requires '\'' !in w
    ensures Escape(w) == w
  {
    if w != "" { EscapeOfPlain(w[1..]); }
  }

  lemma {:induction false} EscapeAtQuote(w: string, q: nat)
    requires q < |w| && w[q] == '\'' && '\'' !in w[..q]
    ensures Escape(w) == w[..q] + "'\\''" + Escape(w[q + 1..])
  {
    if q > 0 {
      assert w[0] == w[..q][0] && w[1..][..q - 1] == w[..q][1..] && w[1..][q..] == w[q + 1..];
      EscapeAtQuote(w[1..], q - 1);
      assert w[..q] == [w[0]] + w[..q][1..];
    }
  }

  /** A value with a quote prints as its part before the quote, the escaped quote, and the rest again quoted. */
  lemma QuoteAtQuote(w: string, q: nat)
    requires q < |w| && w[q] == '\'' && '\'' !in w[..q]
    ensures ShellQuote(w) == "'" + w[..q] + "'" + "\\'" + ShellQuote(w[q + 1..])
  {
    EscapeAtQuote(w, q);
  }

  /** One single-quoted part is read in one step. */
  lemma PartStep(text: string, i: nat, x: string, bashQuotes: bool)
    requires At(text, i, "'" + x + "'") && '\'' !in x
    ensures text[i] == '\'' && WordStep(text, i, bashQuotes) == (x, i + |x| + 2)
  {
    AtConcat(text, i, "'" + x, "'");
    AtConcat(text, i, "'", x);
    assert text[i + 0] == "'"[0] && text[i + 1 + |x| + 0] == "'"[0];
    FindOver(text, i + 1, x, '\'');
    Slice(text, i + 1, x);
  }

  /** What is read from a position with a word in hand. */
  type Reader = (nat, Word) -> seq<Token>

  function ReaderOf(text: string, bashQuotes: bool): Reader
  {
    (i: nat, word: Word) => if word.Open? && word.start > i then [] else WordsFrom(text, i, word, bashQuotes)
  }

  /** What the reader gives after one step. */
  predicate After(read: Reader, i: nat, word: Word, s: ShellWords.Step)
  {
    read(i, word) == s.tokens + read(s.next, s.word)
  }

  /** Inside a word the reader only adds what one step reads; a space and the end of the text close the word. */
  predicate StepsAt(read: Reader, text: string, i: nat, word: Word, bashQuotes: bool)
  {
    (word.Open? ==> word.start <= i) ==>
      if i >= |text| then read(i, word) == Close(word, |text|)
      else if Space(text[i]) then read(i, word) == Close(word, i) + read(i + 1, NoWord)
      else if text[i] == '&' || text[i] == '<' || text[i] == '>' then After(read, i, word, ReadStep(text, i, word, bashQuotes))
      else read(i, word) == read(WordStep(text, i, bashQuotes).1, Extend(word, i, WordStep(text, i, bashQuotes).0))
  }

  ghost predicate Steps(read: Reader, text: string, bashQuotes: bool)
  {
    forall i: nat, word :: StepsAt(read, text, i, word, bashQuotes)
  }

  lemma ReaderSteps(text: string, bashQuotes: bool)
    ensures Steps(ReaderOf(text, bashQuotes), text, bashQuotes)
  {
    forall i: nat, word ensures StepsAt(ReaderOf(text, bashQuotes), text, i, word, bashQuotes) {
      if word.Open? ==> word.start <= i { ReaderStepsAt(text, i, word, bashQuotes); }
    }
  }

  lemma ReaderStepsAt(text: string, i: nat, word: Word, bashQuotes: bool)
    requires word.Open? ==> word.start <= i
    ensures StepsAt(ReaderOf(text, bashQuotes), text, i, word, bashQuotes)
  {
    var read := ReaderOf(text, bashQuotes);
    if i >= |text| {
      assert read(i, word) == Close(word, |text|);
    } else {
      var s := ReadStep(text, i, word, bashQuotes);
      ReaderTakes(read, text, i, word, s, bashQuotes);
      if !Space(text[i]) && text[i] != '&' && text[i] != '<' && text[i] != '>' {
        var (value, next) := WordStep(text, i, bashQuotes);
        assert s == ShellWords.Step([], next, Extend(word, i, value));
        assert [] + read(s.next, s.word) == read(s.next, s.word);
      }
    }
  }

  lemma ReaderTakes(read: Reader, text: string, i: nat, word: Word, s: ShellWords.Step, bashQuotes: bool)
    requires i < |text| && (word.Open? ==> word.start <= i) && read == ReaderOf(text, bashQuotes) && s == ReadStep(text, i, word, bashQuotes)
    ensures After(read, i, word, s)
  {
    assert WordsFrom(text, i, word, bashQuotes) == s.tokens + WordsFrom(text, s.next, s.word, bashQuotes);
  }

  lemma ReadsPart(read: Reader, text: string, i: nat, x: string, word: Word, bashQuotes: bool)
    requires Steps(read, text, bashQuotes) && At(text, i, "'" + x + "'") && '\'' !in x && (word.Open? ==> word.start <= i)
    ensures read(i, word) == read(i + |x| + 2, Extend(word, i, x))
  {
    PartStep(text, i, x, bashQuotes);
    assert StepsAt(read, text, i, word, bashQuotes);
  }

  lemma ReadsEscapedQuote(read: Reader, text: string, i: nat, word: Word, bashQuotes: bool)
    requires Steps(read, text, bashQuotes) && At(text, i, "\\'") && (word.Open? ==> word.start <= i)
    ensures read(i, word) == read(i + 2, Extend(word, i, "'"))
  {
    assert text[i + 0] == "\\'"[0] && text[i + 1] == "\\'"[1];
    assert WordStep(text, i, bashQuotes) == ("'", i + 2);
    assert StepsAt(read, text, i, word, bashQuotes);
  }

  lemma ReadsPartAndQuote(read: Reader, text: string, i: nat, x: string, word: Word, bashQuotes: bool)
    requires Steps(read, text, bashQuotes) && At(text, i, "'" + x + "'" + "\\'") && '\'' !in x && (word.Open? ==> word.start <= i)
    ensures read(i, word) == read(i + |x| + 4, Extend(word, i, x + "'"))
  {
    AtConcat(text, i, "'" + x + "'", "\\'");
    ReadsPart(read, text, i, x, word, bashQuotes);
    ReadsEscapedQuote(read, text, i + |x| + 2, Extend(word, i, x), bashQuotes);
    ExtendTwice(word, i, i + |x| + 2, x, "'");
  }

  lemma ExtendTwice(word: Word, i: nat, j: nat, x: string, y: string)
    ensures Extend(Extend(word, i, x), j, y) == Extend(word, i, x + y)
  {
    if word.Open? { Assoc(word.value, x, y); }
  }

  /** Where a quoted value with a quote in it is cut, and that the parts add up to the value. */
  lemma CutQuoted(text: string, i: nat, w: string, q: nat, x: string, rest: string, word: Word)
    requires At(text, i, ShellQuote(w)) && q < |w| && w[q] == '\'' && x == w[..q] && '\'' !in x && rest == w[q + 1..]
    ensures At(text, i, "'" + x + "'" + "\\'") && At(text, i + q + 4, ShellQuote(rest))
    ensures q + 4 + |ShellQuote(rest)| == |ShellQuote(w)|
    ensures Extend(Extend(word, i, x + "'"), i + q + 4, rest) == Extend(word, i, w)
  {
    QuoteAtQuote(w, q);
    AtConcat(text, i, "'" + x + "'" + "\\'", ShellQuote(rest));
    ExtendTwice(word, i, i + q + 4, x + "'", rest);
    CutAround(w, q);
  }

  /** Reading a quoted value adds exactly that value to the word. */
  lemma {:induction false} ReadsQuoted(read: Reader, text: string, i: nat, w: string, word: Word, bashQuotes: bool)
    requires Steps(read, text, bashQuotes) && At(text, i, ShellQuote(w)) && (word.Open? ==> word.start <= i)
    ensures read(i, word) == read(i + |ShellQuote(w)|, Extend(word, i, w))
    decreases |w|
  {
    var q := IndexOf(w, '\'');
    IndexOfSpec(w, '\'');
    if q == |w| {
      EscapeOfPlain(w);
      ReadsPart(read, text, i, w, word, bashQuotes);
    } else {
      var x, rest := w[..q], w[q + 1..];
      CutQuoted(text, i, w, q, x, rest, word);
      ReadsPartAndQuote(read, text, i, x, word, bashQuotes);
      ReadsQuoted(read, text, i + q + 4, rest, Extend(word, i, x + "'"), bashQuotes);
    }
  }

  /** A character that means itself outside quotes. */
  predicate Ordinary(c: char)
  {
    !Space(c) && c !in "\\'\"$&<>"
  }

  predicate OrdinaryText(w: string)
  {
    forall i :: 0 <= i < |w| ==> Ordinary(w[i])
  }

  lemma BareIsOrdinary(w: string)
    requires Bare(w)
    ensures OrdinaryText(w)
  {
  }

  /** Ordinary text is read one character at a time. */
  lemma OrdinaryStep(text: string, i: nat, w: string, bashQuotes: bool)
    requires At(text, i, w) && w != "" && OrdinaryText(w)
    ensures i < |text| && WordStep(text, i, bashQuotes) == ([w[0]], i + 1)
    ensures !Space(text[i]) && text[i] != '&' && text[i] != '<' && text[i] != '>'
  {
    assert text[i + 0] == w[0];
  }

  lemma CutOrdinary(text: string, i: nat, w: string, rest: string, word: Word)
    requires At(text, i, w) && w != "" && OrdinaryText(w) && rest == w[1..]
    ensures At(text, i + 1, rest) && OrdinaryText(rest)
    ensures Extend(Extend(word, i, [w[0]]), i + 1, rest) == Extend(word, i, w)
    ensures rest == "" ==> Extend(word, i, [w[0]]) == Extend(word, i, w)
  {
    assert forall k :: 0 <= k < |rest| ==> rest[k] == w[1 + k] && text[i + 1 + k] == text[i + (1 + k)];
    ExtendTwice(word, i, i + 1, [w[0]], rest);
    assert [w[0]] + rest == w;
    if rest == "" { assert [w[0]] == w; }
  }

  lemma {:induction false} ReadsOrdinary(read: Reader, text: string, i: nat, w: string, word: Word, bashQuotes: bool)
    requires Steps(read, text, bashQuotes) && At(text, i, w) && w != "" && OrdinaryText(w) && (word.Open? ==> word.start <= i)
    ensures read(i, word) == read(i + |w|, Extend(word, i, w))
    decreases |w|
  {
    var rest := w[1..];
    OrdinaryStep(text, i, w, bashQuotes);
    CutOrdinary(text, i, w, rest, word);
    assert StepsAt(read, text, i, word, bashQuotes);
    if rest != "" { ReadsOrdinary(read, text, i + 1, rest, Extend(word, i, [w[0]]), bashQuotes); }
  }
}
