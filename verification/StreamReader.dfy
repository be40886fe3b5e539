/** The chunked reader of the event stream: lines, oversized lines, and bounded output. */
module StreamReader {
  import opened Text

  const MAX_EVENT_BYTES: nat := 16 * 1024 * 1024
  const MAX_EVENTS: nat := 5000
  const MAX_OUTPUT_BYTES: nat := 3 * 1024 * 1024 - 128
  const OUTPUT_LIMIT: nat := 3 * 1024 * 1024

  // ----- UTF-8 sizes -----

  function CharBytes(c: char): (n: nat)
    ensures n >= 1
  {
    if c < '\U{80}' then 1 else if c < '\U{800}' then 2 else if c < '\U{10000}' then 3 else 4
  }

  function Bytes(s: string): nat
  {
    if s == "" then 0 else CharBytes(s[0]) + Bytes(s[1..])
  }

  lemma {:induction false} BytesConcat(a: string, b: string)
    ensures Bytes(a + b) == Bytes(a) + Bytes(b)
  {
    if a == "" {
      assert a + b == b;
    } else {
      assert (a + b)[1..] == a[1..] + b;
      BytesConcat(a[1..], b);
    }
  }

  // ----- Lines -----

  /** What the reader hands on: a line to process, or notice of one that is too long. */
  datatype Event = Line(text: string) | Oversized

  datatype State = State(buffer: string, dropping: bool)

  const START := State("", false)

  function StripCr(raw: string): string
  {
    if raw != "" && raw[|raw| - 1] == '\r' then raw[..|raw| - 1] else raw
  }

  function EventOf(raw: string): Event
  {
    if Bytes(StripCr(raw)) > MAX_EVENT_BYTES then Oversized else Line(StripCr(raw))
  }

  /** Every complete line of the text as an event, and what stays buffered. */
  function Lines(text: string): (State, seq<Event>)
    decreases |text|
  {
    var k := IndexOf(text, '\n');
    if k == |text| then (if Bytes(text) > MAX_EVENT_BYTES then State("", true) else State(text, false), [])
    else
      var (s, events) := Lines(text[k + 1..]);
      (s, [EventOf(text[..k])] + events)
  }

  function Feed(s: State, chunk: string): (State, seq<Event>)
  {
    if s.dropping then
      var k := IndexOf(chunk, '\n');
      if k == |chunk| then (s, [])
      else
        var (t, events) := Lines(chunk[k + 1..]);
        (t, [Oversized] + events)
    else Lines(s.buffer + chunk)
  }

  function Flush(s: State): seq<Event>
  {
    if s.dropping then [Oversized] else if s.buffer != "" then [Line(StripCr(s.buffer))] else []
  }

  function Concat(chunks: seq<string>): string
  {
    if chunks == [] then "" else chunks[0] + Concat(chunks[1..])
  }

  /** All events of a stream that arrives in these chunks. */
  function Events(s: State, chunks: seq<string>): seq<Event>
    decreases |chunks|
  {
    if chunks == [] then Flush(s)
    else
      var (t, events) := Feed(s, chunks[0]);
      events + Events(t, chunks[1..])
  }

  // ----- Where the chunks are cut does not matter -----

  /** The size check gives the same answer with and without the carriage return. */
  predicate Even(raw: string)
  {
    Bytes(raw) > MAX_EVENT_BYTES <==> Bytes(StripCr(raw)) > MAX_EVENT_BYTES
  }

  predicate AllEven(text: string)
    decreases |text|
  {
    var k := IndexOf(text, '\n');
    k == |text| || (Even(text[..k]) && AllEven(text[k + 1..]))
  }

  /** A complete line is uneven exactly when it has the maximal size before a trailing carriage return. */
  lemma UnevenLine(raw: string)
    ensures !Even(raw) <==> raw != "" && raw[|raw| - 1] == '\r' && Bytes(raw[..|raw| - 1]) == MAX_EVENT_BYTES
  {
    if raw != "" {
      var n := |raw| - 1;
      assert raw == raw[..n] + [raw[n]];
      BytesConcat(raw[..n], [raw[n]]);
      assert Bytes([raw[n]]) == CharBytes(raw[n]) by { assert [raw[n]][1..] == ""; }
    }
  }

  /** The state after an unfinished line: the reader drops it exactly when it is too long already. */
  function Canon(pending: string): State
  {
    if Bytes(pending) > MAX_EVENT_BYTES then State("", true) else State(pending, false)
  }

  /** The events of a text and its unfinished last line, without any buffer. */
  function Ideal(text: string): (string, seq<Event>)
    decreases |text|
  {
    var k := IndexOf(text, '\n');
    if k == |text| then (text, [])
    else
      var (tail, events) := Ideal(text[k + 1..]);
      (tail, [EventOf(text[..k])] + events)
  }

  lemma {:induction false} LinesAreIdeal(text: string)
    ensures Lines(text) == (Canon(Ideal(text).0), Ideal(text).1)
    ensures '\n' !in Ideal(text).0
    decreases |text|
  {
    var k := IndexOf(text, '\n');
    IndexOfSpec(text, '\n');
    if k < |text| { LinesAreIdeal(text[k + 1..]); }
  }

  /** The first line break of `p + c` when `p` has none. */
  lemma BreakAfter(p: string, c: string)
    requires '\n' !in p
    ensures IndexOf(p + c, '\n') == |p| + IndexOf(c, '\n')
    ensures var k := IndexOf(c, '\n');
      k < |c| ==> (p + c)[..|p| + k] == p + c[..k] && (p + c)[|p| + k + 1..] == c[k + 1..]
  {
    IndexOfSpec(c, '\n');
    var k := IndexOf(c, '\n');
    assert forall i :: 0 <= i < |p| ==> (p + c)[i] == p[i];
    assert forall i :: 0 <= i < |c| ==> (p + c)[|p| + i] == c[i];
    assert forall i :: |p| <= i < |p| + k ==> (p + c)[i] == c[i - |p|];
    IndexOfIs(p + c, |p| + k, '\n');
  }

  lemma IdealStep(text: string, k: nat, raw: string, rest: string)
    requires k < |text| && IndexOf(text, '\n') == k && raw == text[..k] && rest == text[k + 1..]
    ensures Ideal(text) == (Ideal(rest).0, [EventOf(raw)] + Ideal(rest).1)
    ensures AllEven(text) == (Even(raw) && AllEven(rest))
  {
  }

  /** From the state after an unfinished line, a chunk gives the ideal events of line and chunk together. */
  lemma FeedIsIdeal(p: string, c: string, pc: string)
    requires pc == p + c && '\n' !in p && AllEven(pc)
    ensures Feed(Canon(p), c) == (Canon(Ideal(pc).0), Ideal(pc).1)
  {
    LinesAreIdeal(pc);
    if Bytes(p) > MAX_EVENT_BYTES { DroppingIsIdeal(p, c, pc); }
  }

  lemma DroppingIsIdeal(p: string, c: string, pc: string)
    requires pc == p + c && '\n' !in p && AllEven(pc) && Bytes(p) > MAX_EVENT_BYTES
    ensures Feed(State("", true), c) == (Canon(Ideal(pc).0), Ideal(pc).1)
  {
    var k := IndexOf(c, '\n');
    BreakAfter(p, c);
    if k == |c| {
      BytesConcat(p, c);
      assert Ideal(pc) == (pc, []);
    } else {
      var first, rest := c[..k], c[k + 1..];
      IdealStep(pc, |p| + k, p + first, rest);
      LongLine(p, first);
      LinesAreIdeal(rest);
      DroppedTo(c, k, rest);
    }
  }

  lemma LongLine(p: string, first: string)
    requires Bytes(p) > MAX_EVENT_BYTES && Even(p + first)
    ensures EventOf(p + first) == Oversized
  {
    BytesConcat(p, first);
  }

  lemma DroppedTo(c: string, k: nat, rest: string)
    requires k < |c| && IndexOf(c, '\n') == k && rest == c[k + 1..]
    ensures Feed(State("", true), c) == (Lines(rest).0, [Oversized] + Lines(rest).1)
  {
  }

  /** The first line break of `a` is the first of `a + b`. */
  lemma BreakBefore(a: string, b: string, ab: string, k: nat)
    requires ab == a + b && k < |a| && IndexOf(a, '\n') == k
    ensures IndexOf(ab, '\n') == k && ab[..k] == a[..k] && ab[k + 1..] == a[k + 1..] + b
  {
    IndexOfSpec(a, '\n');
    assert forall i :: 0 <= i <= k ==> ab[i] == a[i];
    IndexOfIs(ab, k, '\n');
  }

  lemma {:induction false} IdealConcat(a: string, b: string, ab: string)
    requires ab == a + b
    ensures Ideal(ab) == (Ideal(Ideal(a).0 + b).0, Ideal(a).1 + Ideal(Ideal(a).0 + b).1)
    ensures AllEven(ab) == (AllEven(a) && AllEven(Ideal(a).0 + b))
    decreases |a|
  {
    var k := IndexOf(a, '\n');
    if k == |a| {
      assert [] + Ideal(ab).1 == Ideal(ab).1;
    } else {
      var raw, rest := a[..k], a[k + 1..];
      BreakBefore(a, b, ab, k);
      IdealStep(a, k, raw, rest);
      IdealStep(ab, k, raw, rest + b);
      IdealConcat(rest, b, rest + b);
      Assoc([EventOf(raw)], Ideal(rest).1, Ideal(Ideal(rest).0 + b).1);
    }
  }

  lemma {:induction false} EventsAreIdeal(p: string, chunks: seq<string>)
    requires '\n' !in p && AllEven(p + Concat(chunks))
    ensures Events(Canon(p), chunks) == Ideal(p + Concat(chunks)).1 + Flush(Canon(Ideal(p + Concat(chunks)).0))
    decreases |chunks|
  {
    if chunks == [] {
      assert p + "" == p;
      IndexOfIs(p, |p|, '\n');
      assert [] + Flush(Canon(p)) == Flush(Canon(p));
    } else {
      var c, rest := chunks[0], Concat(chunks[1..]);
      Assoc(p, c, rest);
      IdealConcat(p + c, rest, p + Concat(chunks));
      FeedIsIdeal(p, c, p + c);
      LinesAreIdeal(p + c);
      var q := Ideal(p + c).0;
      EventsAreIdeal(q, chunks[1..]);
      Assoc(Ideal(p + c).1, Ideal(q + rest).1, Flush(Canon(Ideal(q + rest).0)));
    }
  }

  /** Any two ways of cutting a text with even lines give the same events. */
  lemma ChunkingDoesNotMatter(chunks: seq<string>)
    requires AllEven(Concat(chunks))
    ensures Events(START, chunks) == Events(START, [Concat(chunks)])
  {
    var text := Concat(chunks);
    assert [text][1..] == [] && text + "" == text;
    assert Concat([text]) == text && "" + text == text;
    EventsAreIdeal("", chunks);
    EventsAreIdeal("", [text]);
  }

  // ----- ... and only then -----

  /** Two chunks, cut at `cut`. */
  function TwoChunks(text: string, cut: nat): seq<string>
    requires cut <= |text|
  {
    [text[..cut], text[cut..]]
  }

  function EventsOfTwo(text: string, cut: nat): seq<Event>
    requires cut <= |text|
  {
    var (s, first) := Lines(text[..cut]);
    var (t, second) := Feed(s, text[cut..]);
    first + (second + Flush(t))
  }

  function EventsOfOne(text: string): seq<Event>
  {
    var (s, events) := Lines(text);
    events + Flush(s)
  }

  lemma EventsUnfold(text: string, cut: nat)
    requires cut <= |text|
    ensures Events(START, TwoChunks(text, cut)) == EventsOfTwo(text, cut)
    ensures Events(START, [text]) == EventsOfOne(text)
  {
    var chunks := TwoChunks(text, cut);
    assert "" + text[..cut] == text[..cut] && "" + text == text;
    assert chunks[1..] == [text[cut..]] && [text[cut..]][1..] == [] && [text][1..] == [];
    var (s, first) := Lines(text[..cut]);
    assert Feed(START, chunks[0]) == (s, first);
    assert Events(s, [text[cut..]]) == Feed(s, text[cut..]).1 + Flush(Feed(s, text[cut..]).0);
  }

  /** Where the first uneven line is: after whole lines, before a line break. */
  lemma {:induction false} FirstUneven(text: string) returns (a: string, raw: string, rest: string)
    requires !AllEven(text)
    ensures text == a + (raw + (['\n'] + rest)) && '\n' !in raw && !Even(raw)
    ensures Ideal(a).0 == ""
    decreases |text|
  {
    var k := IndexOf(text, '\n');
    IndexOfSpec(text, '\n');
    CutAround(text, k);
    var first, after := text[..k], text[k + 1..];
    IdealStep(text, k, first, after);
    if Even(first) {
      var b;
      b, raw, rest := FirstUneven(after);
      a := first + ['\n'] + b;
      WholeLine(first, b, a);
      Assoc(first + ['\n'], b, raw + (['\n'] + rest));
    } else {
      a, raw, rest := "", first, after;
      Assoc(raw, ['\n'], rest);
      assert "" + text == text;
    }
  }

  lemma WholeLine(first: string, b: string, a: string)
    requires '\n' !in first && a == first + ['\n'] + b
    ensures Ideal(a).0 == Ideal(b).0
  {
    IndexOfIs(a, |first|, '\n');
    assert a[..|first|] == first && a[|first| + 1..] == b;
    IdealStep(a, |first|, first, b);
  }

  lemma DifferAt(a: seq<Event>, e: Event, f: Event, x: seq<Event>, y: seq<Event>)
    requires e != f
    ensures a + ([e] + x) != a + ([f] + y)
  {
    assert (a + ([e] + x))[|a|] == e && (a + ([f] + y))[|a|] == f;
  }

  lemma LinesAfter(a: string, b: string, ab: string)
    requires ab == a + b && Ideal(a).0 == ""
    ensures Lines(ab) == (Lines(b).0, Ideal(a).1 + Lines(b).1)
  {
    assert "" + b == b;
    IdealConcat(a, b, ab);
    LinesAreIdeal(ab);
    LinesAreIdeal(b);
  }

  /** What an uneven line and its rest are read as: whole, and cut right before the line break. */
  lemma ReadUneven(raw: string, rest: string, tail: string, line: string)
    requires '\n' !in raw && !Even(raw) && tail == ['\n'] + rest && line == raw + tail
    ensures Lines(raw) == (State("", true), [])
    ensures Feed(State("", true), tail) == (Lines(rest).0, [Oversized] + Lines(rest).1)
    ensures Lines(line) == (Lines(rest).0, [EventOf(raw)] + Lines(rest).1)
    ensures EventOf(raw) != Oversized
  {
    UnevenLine(raw);
    IndexOfIs(raw, |raw|, '\n');
    IndexOfIs(tail, 0, '\n');
    assert tail[1..] == rest;
    IndexOfIs(line, |raw|, '\n');
    assert line[..|raw|] == raw && line[|raw| + 1..] == rest;
  }

  lemma CutAfter(a: string, raw: string, tail: string, text: string)
    requires text == a + (raw + tail)
    ensures |a| + |raw| <= |text| && text[..|a| + |raw|] == a + raw && text[|a| + |raw|..] == tail
  {
  }

  /** Cutting right before the break of an uneven line turns that line from processed into oversized. */
  lemma ReadsApart(text: string, cut: nat, a: string, raw: string, rest: string, head: string, tail: string)
    requires tail == ['\n'] + rest && head == a + raw && text == a + (raw + tail)
    requires '\n' !in raw && !Even(raw) && Ideal(a).0 == ""
    requires cut <= |text| && head == text[..cut] && tail == text[cut..]
    ensures EventsOfTwo(text, cut) != EventsOfOne(text)
  {
    var before, e, events, s := ReadBothWays(a, raw, rest, head, tail, text);
    EventsDiffer(text, cut, head, tail, before, e, s, events);
  }

  lemma ReadBothWays(a: string, raw: string, rest: string, head: string, tail: string, text: string)
    returns (before: seq<Event>, e: Event, events: seq<Event>, s: State)
    requires tail == ['\n'] + rest && head == a + raw && text == a + (raw + tail)
    requires '\n' !in raw && !Even(raw) && Ideal(a).0 == ""
    ensures e != Oversized && Lines(head) == (State("", true), before)
    ensures Feed(State("", true), tail) == (s, [Oversized] + events) && Lines(text) == (s, before + ([e] + events))
  {
    before, e, s, events := Ideal(a).1, EventOf(raw), Lines(rest).0, Lines(rest).1;
    ReadUneven(raw, rest, tail, raw + tail);
    LinesAfter(a, raw, head);
    LinesAfter(a, raw + tail, text);
    assert before + [] == before;
  }

  lemma EventsDiffer(text: string, cut: nat, head: string, tail: string, before: seq<Event>, e: Event, s: State, events: seq<Event>)
    requires cut <= |text| && head == text[..cut] && tail == text[cut..] && e != Oversized
    requires Lines(head) == (State("", true), before) && Feed(State("", true), tail) == (s, [Oversized] + events)
    requires Lines(text) == (s, before + ([e] + events))
    ensures EventsOfTwo(text, cut) != EventsOfOne(text)
  {
    EventsAre(text, cut, head, tail, before, e, s, events);
    DifferAt(before, Oversized, e, events + Flush(s), events + Flush(s));
  }

  lemma EventsAre(text: string, cut: nat, head: string, tail: string, before: seq<Event>, e: Event, s: State, events: seq<Event>)
    requires cut <= |text| && head == text[..cut] && tail == text[cut..]
    requires Lines(head) == (State("", true), before) && Feed(State("", true), tail) == (s, [Oversized] + events)
    requires Lines(text) == (s, before + ([e] + events))
    ensures EventsOfTwo(text, cut) == before + ([Oversized] + (events + Flush(s)))
    ensures EventsOfOne(text) == before + ([e] + (events + Flush(s)))
  {
    Assoc([Oversized], events, Flush(s));
    Assoc(before, [e] + events, Flush(s));
    Assoc([e], events, Flush(s));
  }

  lemma ConcatTwo(text: string, cut: nat)
    requires cut <= |text|
    ensures Concat(TwoChunks(text, cut)) == text
  {
    var chunks := TwoChunks(text, cut);
    assert chunks[1..] == [text[cut..]] && [text[cut..]][1..] == [];
    assert Concat([text[cut..]]) == text[cut..] + "";
    assert text[..cut] + (text[cut..] + "") == text;
  }

  lemma UnevenChunks(text: string) returns (chunks: seq<string>)
    requires !AllEven(text)
    ensures Concat(chunks) == text && Events(START, chunks) != Events(START, [text])
  {
    var a, raw, rest := FirstUneven(text);
    var head, tail, cut := a + raw, ['\n'] + rest, |a| + |raw|;
    CutAfter(a, raw, tail, text);
    ReadsApart(text, cut, a, raw, rest, head, tail);
    EventsUnfold(text, cut);
    ConcatTwo(text, cut);
    chunks := TwoChunks(text, cut);
  }

  /** Chunking never matters for a text exactly when no complete line is uneven. */
  lemma ChunkingNeverMattersIff(text: string)
    ensures AllEven(text) <==> forall chunks :: Concat(chunks) == text ==> Events(START, chunks) == Events(START, [text])
  {
    if AllEven(text) {
      forall chunks | Concat(chunks) == text ensures Events(START, chunks) == Events(START, [text]) {
        ChunkingDoesNotMatter(chunks);
      }
    } else {
      var chunks := UnevenChunks(text);
    }
  }

  // ----- What a written stream is read as -----

  /** A line as it is written: its text, and whether a carriage return ends it. */
  datatype Ended = Ended(text: string, cr: bool)

  function Raw(l: Ended): string { l.text + if l.cr then "\r" else "" }

  function Shown(lines: seq<Ended>): string
  {
    if lines == [] then "" else Raw(lines[0]) + ("\n" + Shown(lines[1..]))
  }

  predicate Sound(l: Ended)
  {
    '\n' !in l.text && (l.text == "" || l.text[|l.text| - 1] != '\r' || l.cr)
  }

  ghost predicate AllSound(lines: seq<Ended>)
  {
    forall l :: l in lines ==> Sound(l)
  }

  /** No line is exactly of the maximal size right before its carriage return. */
  ghost predicate NoneUneven(lines: seq<Ended>)
  {
    forall l :: l in lines && l.cr ==> Bytes(l.text) != MAX_EVENT_BYTES
  }

  /** Every line is itself unless it is over sixteen mebibytes. */
  function Meant(lines: seq<Ended>): seq<Event>
  {
    seq(|lines|, i requires 0 <= i < |lines| => if Bytes(lines[i].text) > 16777216 then Oversized else Line(lines[i].text))
  }

  /** What is left at the end counts with its carriage return, and only if it is not empty. */
  function MeantLast(last: Ended): seq<Event>
  {
    if Raw(last) == "" then [] else if Bytes(Raw(last)) > 16777216 then [Oversized] else [Line(last.text)]
  }

  lemma RawIs(l: Ended)
    requires Sound(l)
    ensures StripCr(Raw(l)) == l.text && '\n' !in Raw(l)
    ensures Even(Raw(l)) <==> !(l.cr && Bytes(l.text) == MAX_EVENT_BYTES)
  {
    var raw := Raw(l);
    UnevenLine(raw);
    if l.cr { assert raw[|raw| - 1] == '\r' && raw[..|raw| - 1] == l.text; } else { assert raw == l.text; }
  }

  lemma {:induction false} LinesAreMeant(lines: seq<Ended>, tail: string, text: string)
    requires AllSound(lines) && '\n' !in tail && text == Shown(lines) + tail
    ensures Lines(text) == (Canon(tail), Meant(lines))
    ensures AllEven(text) <==> NoneUneven(lines)
    decreases |lines|
  {
    if lines == [] {
      assert text == tail && Meant(lines) == [];
      IndexOfIs(text, |text|, '\n');
    } else {
      var raw, rest := Raw(lines[0]), Shown(lines[1..]) + tail;
      ShownStep(lines, tail, raw, rest);
      RawIs(lines[0]);
      LineAtStart(text, raw, rest);
      LinesAreMeant(lines[1..], tail, rest);
      MeantStep(lines, raw);
    }
  }

  lemma ShownStep(lines: seq<Ended>, tail: string, raw: string, rest: string)
    requires lines != [] && raw == Raw(lines[0]) && rest == Shown(lines[1..]) + tail
    ensures Shown(lines) + tail == raw + ("\n" + rest)
  {
    Assoc(raw, "\n" + Shown(lines[1..]), tail);
    Assoc("\n", Shown(lines[1..]), tail);
  }

  lemma LineAtStart(text: string, raw: string, rest: string)
    requires text == raw + ("\n" + rest) && '\n' !in raw
    ensures Lines(text) == (Lines(rest).0, [EventOf(raw)] + Lines(rest).1)
    ensures AllEven(text) == (Even(raw) && AllEven(rest))
  {
    var c := "\n" + rest;
    assert c[0] == '\n' && c[1..] == rest;
    BreakAfter(raw, c);
    assert raw + c[..0] == raw;
  }

  lemma MeantStep(lines: seq<Ended>, raw: string)
    requires lines != [] && raw == Raw(lines[0]) && Sound(lines[0])
    ensures Meant(lines) == [EventOf(raw)] + Meant(lines[1..])
    ensures NoneUneven(lines) <==> Even(raw) && NoneUneven(lines[1..])
  {
    RawIs(lines[0]);
    assert forall l :: l in lines <==> l == lines[0] || l in lines[1..];
  }

  /**
   A stream is read as the lines it was written with: whatever ends them, in one chunk, and in any chunks when no line has
   exactly the maximal size before its carriage return. A last line without an end is read too.
   */
  lemma StreamIsItsLines(lines: seq<Ended>, last: Ended, chunks: seq<string>)
    requires AllSound(lines) && Sound(last) && Concat(chunks) == Shown(lines) + Raw(last)
    requires |chunks| == 1 || NoneUneven(lines)
    ensures Events(START, chunks) == Meant(lines) + MeantLast(last)
  {
    var text := Concat(chunks);
    RawIs(last);
    LinesAreMeant(lines, Raw(last), text);
    EventsUnfold(text, 0);
    if |chunks| == 1 {
      assert chunks[1..] == [] && chunks[0] + "" == chunks[0];
      assert chunks == [text];
    } else {
      ChunkingDoesNotMatter(chunks);
    }
  }

  // ----- UTF-8 sizes are those of the encoding -----

  function Utf8(c: char): seq<int>
  {
    var p := c as int;
    if p < 0x80 then [p]
    else if p < 0x800 then [0xC0 + p / 0x40, 0x80 + p % 0x40]
    else if p < 0x10000 then [0xE0 + p / 0x1000, 0x80 + p / 0x40 % 0x40, 0x80 + p % 0x40]
    else [0xF0 + p / 0x40000, 0x80 + p / 0x1000 % 0x40, 0x80 + p / 0x40 % 0x40, 0x80 + p % 0x40]
  }

  /** The value of the bytes after a leading one: six bits each. */
  function Tail(bytes: seq<int>, value: int): int
  {
    if bytes == [] then value else Tail(bytes[1..], value * 64 + bytes[0] - 0x80)
  }

  /** The code point that a leading byte and those after it stand for, when the leading byte announces as many. */
  function Utf8Value(bytes: seq<int>): Option<int>
  {
    if |bytes| == 1 && 0 <= bytes[0] < 0x80 then Some(bytes[0])
    else if |bytes| == 2 && 0xC0 <= bytes[0] < 0xE0 then Some(Tail(bytes[1..], bytes[0] - 0xC0))
    else if |bytes| == 3 && 0xE0 <= bytes[0] < 0xF0 then Some(Tail(bytes[1..], bytes[0] - 0xE0))
    else if |bytes| == 4 && 0xF0 <= bytes[0] < 0xF8 then Some(Tail(bytes[1..], bytes[0] - 0xF0))
    else None
  }

  lemma TailOf(b: int, c: int, d: int, v: int)
    ensures Tail([b] + [], v) == v * 64 + b - 0x80
    ensures Tail([b] + [c], v) == (v * 64 + b - 0x80) * 64 + c - 0x80
    ensures Tail([b] + [c, d], v) == ((v * 64 + b - 0x80) * 64 + c - 0x80) * 64 + d - 0x80
  {
    TailStep(b, [], v);
    TailStep(b, [c], v);
    assert [c] + [] == [c] && [d] + [] == [d];
    TailStep(c, [], v * 64 + b - 0x80);
    TailStep(b, [c, d], v);
    assert [c] + [d] == [c, d];
    TailStep(c, [d], v * 64 + b - 0x80);
    TailStep(d, [], (v * 64 + b - 0x80) * 64 + c - 0x80);
  }

  lemma TailStep(b: int, rest: seq<int>, v: int)
    ensures Tail([b] + rest, v) == Tail(rest, v * 64 + b - 0x80)
  {
    assert ([b] + rest)[1..] == rest;
  }

  /** A number in groups of six bits. */
  lemma Sixes(p: nat)
    ensures p / 0x40 * 64 + p % 0x40 == p
    ensures p / 0x1000 * 64 + p / 0x40 % 0x40 == p / 0x40
    ensures p / 0x40000 * 64 + p / 0x1000 % 0x40 == p / 0x1000
  {
    var q := p / 0x40;
    var r := q / 0x40;
    assert p / 0x1000 == r && p / 0x40000 == r / 0x40;
  }

  /** A character counts as many bytes as its encoding has, which is the one that reads back as it. */
  lemma CharBytesAreUtf8(c: char)
    ensures |Utf8(c)| == CharBytes(c) && Utf8Value(Utf8(c)) == Some(c as int)
  {
    var p, bytes := c as int, Utf8(c);
    Sixes(p);
    if |bytes| == 2 {
      TailOf(bytes[1], 0, 0, p / 0x40);
      assert bytes[1..] == [bytes[1]] + [];
    } else if |bytes| == 3 {
      TailOf(bytes[1], bytes[2], 0, p / 0x1000);
      assert bytes[1..] == [bytes[1]] + [bytes[2]];
    } else if |bytes| == 4 {
      TailOf(bytes[1], bytes[2], bytes[3], p / 0x40000);
      assert bytes[1..] == [bytes[1]] + [bytes[2], bytes[3]];
    }
  }
}
