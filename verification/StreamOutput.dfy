/** The stream renderer as a whole: the reader's events, rendered, and cut off at the output budget. */
module StreamOutput {
  import opened Text
  import opened StreamReader

  const OVERSIZED_NOTICE: string := "[stream_warning] oversized event omitted"
  const EVENT_LIMIT_NOTICE: string := "[stream_warning] event limit reached"
  const WARNING: string := "[stream_warning]"
  const RENDERED: string := " rendered output"
  const REACHED: string := " limit reached\n"
  const OUTPUT_NOTICE: string := WARNING + RENDERED + REACHED

  /**
   * What one line of the stream is rendered to, given the tool names seen so far: the values to
   * emit (of a malformed line, those before the fault and its notice) and the names seen after it.
   */
  type Render<!N> = (N, string) -> (N, seq<string>)

  /** The renderer's counters and everything it has written. */
  datatype Sink<N> = Sink(names: N, eventCount: nat, limitExceeded: bool, outputBytes: nat, capped: bool, written: string)

  function Fresh<N>(names: N): Sink<N>
  {
    Sink(names, 0, false, 0, false, "")
  }

  function Emit<N>(k: Sink<N>, value: string): Sink<N>
  {
    if value == "" || k.capped then k
    else
      var line := value + "\n";
      if k.outputBytes + Bytes(line) > MAX_OUTPUT_BYTES then k.(written := k.written + OUTPUT_NOTICE, capped := true)
      else k.(written := k.written + line, outputBytes := k.outputBytes + Bytes(line))
  }

  function EmitAll<N>(k: Sink<N>, values: seq<string>): Sink<N>
    decreases |values|
  {
    if values == [] then k else EmitAll(Emit(k, values[0]), values[1..])
  }

  function Process<N>(render: Render<N>, k: Sink<N>, line: string): Sink<N>
  {
    if line == "" then k
    else if k.eventCount >= MAX_EVENTS then k.(limitExceeded := true)
    else
      var (names, values) := render(k.names, line);
      EmitAll(k.(names := names, eventCount := k.eventCount + 1), values)
  }

  function Handle<N>(render: Render<N>, k: Sink<N>, e: Event): Sink<N>
  {
    match e
    case Line(text) => Process(render, k, text)
    case Oversized => Emit(k, OVERSIZED_NOTICE)
  }

  function HandleAll<N>(render: Render<N>, k: Sink<N>, events: seq<Event>): Sink<N>
    decreases |events|
  {
    if events == [] then k else HandleAll(render, Handle(render, k, events[0]), events[1..])
  }

  function Close<N>(k: Sink<N>): Sink<N>
  {
    if k.limitExceeded then Emit(k, EVENT_LIMIT_NOTICE) else k
  }

  /** Everything written for a stream that arrives in these chunks. */
  function Output<N>(render: Render<N>, names: N, chunks: seq<string>): string
  {
    Close(HandleAll(render, Fresh(names), Events(START, chunks))).written
  }

  // ----- The renderer itself -----

  class Renderer<N> {
    const render: Render<N>
    var names: N
    var eventCount: nat
    var eventLimitExceeded: bool
    var outputBytes: nat
    var outputCapped: bool
    var written: string
    var buffer: string
    var droppingOversizedEvent: bool

    function Out(): Sink<N>
      reads this
    {
      Sink(names, eventCount, eventLimitExceeded, outputBytes, outputCapped, written)
    }

    function In(): State
      reads this
    {
      State(buffer, droppingOversizedEvent)
    }

    constructor (render: Render<N>, names: N)
      ensures this.render == render && Out() == Fresh(names) && In() == START
    {
      this.render, this.names := render, names;
      eventCount, eventLimitExceeded, outputBytes, outputCapped := 0, false, 0, false;
      written, buffer, droppingOversizedEvent := "", "", false;
    }

    method EmitValue(value: string)
      modifies this
      ensures Out() == Emit(old(Out()), value) && In() == old(In())
    {
      if value == "" || outputCapped { return; }
      var line := value + "\n";
      var bytes := Bytes(line);
      if outputBytes + bytes > MAX_OUTPUT_BYTES {
        written := written + OUTPUT_NOTICE;
        outputCapped := true;
        return;
      }
      written := written + line;
      outputBytes := outputBytes + bytes;
    }

    method ProcessLine(line: string)
      modifies this
      ensures Out() == Process(render, old(Out()), line) && In() == old(In())
    {
      if line == "" { return; }
      if eventCount >= MAX_EVENTS {
        eventLimitExceeded := true;
        return;
      }
      eventCount := eventCount + 1;
      var rendered := render(names, line);
      names := rendered.0;
      var values := rendered.1;
      ghost var target := EmitAll(Out(), values);
      while values != []
        invariant EmitAll(Out(), values) == target && In() == old(In())
        decreases |values|
      {
        EmitValue(values[0]);
        values := values[1..];
      }
    }

    /** The complete lines of the buffer, one after the other. */
    method HandleLines()
      requires !droppingOversizedEvent
      modifies this
      ensures !droppingOversizedEvent && IndexOf(buffer, '\n') == |buffer|
      ensures Lines(buffer).0 == Lines(old(buffer)).0
      ensures Out() == HandleAll(render, old(Out()), Lines(old(buffer)).1)
    {
      ghost var whole := Lines(buffer);
      ghost var target := HandleAll(render, Out(), whole.1);
      var newline := IndexOf(buffer, '\n');
      while newline < |buffer|
        invariant newline == IndexOf(buffer, '\n') && !droppingOversizedEvent
        invariant Lines(buffer).0 == whole.0
        invariant HandleAll(render, Out(), Lines(buffer).1) == target
        decreases |buffer|
      {
        var raw := buffer[..newline];
        HandleCons(render, Out(), EventOf(raw), Lines(buffer[newline + 1..]).1);
        buffer := buffer[newline + 1..];
        var line := StripCr(raw);
        if Bytes(line) > MAX_EVENT_BYTES { EmitValue(OVERSIZED_NOTICE); } else { ProcessLine(line); }
        newline := IndexOf(buffer, '\n');
      }
    }

    /** A chunk of input: exactly the events of the reader, each handled in turn. */
    method Data(chunk: string)
      modifies this
      ensures In() == Feed(old(In()), chunk).0
      ensures Out() == HandleAll(render, old(Out()), Feed(old(In()), chunk).1)
    {
      var remaining := chunk;
      if droppingOversizedEvent {
        var newline := IndexOf(chunk, '\n');
        if newline == |chunk| { return; }
        remaining := chunk[newline + 1..];
        droppingOversizedEvent, buffer := false, "";
        EmitValue(OVERSIZED_NOTICE);
        HandleCons(render, old(Out()), Oversized, Lines(remaining).1);
        assert "" + remaining == remaining;
      }
      buffer := buffer + remaining;
      HandleLines();
      if Bytes(buffer) > MAX_EVENT_BYTES {
        buffer := "";
        droppingOversizedEvent := true;
      }
    }

    /** The end of the input. */
    method End()
      modifies this
      ensures Out() == Close(HandleAll(render, old(Out()), Flush(old(In()))))
    {
      if droppingOversizedEvent {
        HandleCons(render, Out(), Oversized, []);
        EmitValue(OVERSIZED_NOTICE);
      } else if buffer != "" {
        HandleCons(render, Out(), Line(StripCr(buffer)), []);
        ProcessLine(StripCr(buffer));
      }
      if eventLimitExceeded { EmitValue(EVENT_LIMIT_NOTICE); }
    }
  }

  lemma HandleCons<N>(render: Render<N>, k: Sink<N>, e: Event, events: seq<Event>)
    ensures HandleAll(render, k, [e] + events) == HandleAll(render, Handle(render, k, e), events)
  {
    assert ([e] + events)[1..] == events;
  }

  lemma {:induction false} HandleConcat<N>(render: Render<N>, k: Sink<N>, a: seq<Event>, b: seq<Event>)
    ensures HandleAll(render, k, a + b) == HandleAll(render, HandleAll(render, k, a), b)
    decreases |a|
  {
    if a == [] {
      assert a + b == b;
    } else {
      assert (a + b)[1..] == a[1..] + b;
      HandleConcat(render, Handle(render, k, a[0]), a[1..], b);
    }
  }

  /** A renderer fed chunk by chunk writes the output of the whole stream. */
  method RenderStream<N>(render: Render<N>, names: N, chunks: seq<string>) returns (written: string)
    ensures written == Output(render, names, chunks)
  {
    var r := new Renderer(render, names);
    var i := 0;
    ghost var k := Fresh(names);
    assert chunks[0..] == chunks;
    while i < |chunks|
      invariant 0 <= i <= |chunks| && r.render == render
      invariant HandleAll(render, r.Out(), Events(r.In(), chunks[i..])) == HandleAll(render, k, Events(START, chunks))
    {
      ghost var s := r.In();
      assert chunks[i..][1..] == chunks[i + 1..];
      HandleConcat(render, r.Out(), Feed(s, chunks[i]).1, Events(Feed(s, chunks[i]).0, chunks[i + 1..]));
      r.Data(chunks[i]);
      i := i + 1;
    }
    r.End();
    written := r.written;
  }

  // ----- What is written, without the state -----

  function Chars(values: seq<string>): string
  {
    if values == [] then "" else values[0] + "\n" + Chars(values[1..])
  }

  function LinesIn(events: seq<Event>): nat
  {
    if events == [] then 0 else (if events[0].Line? && events[0].text != "" then 1 else 0) + LinesIn(events[1..])
  }

  function Kept(values: seq<string>): seq<string>
  {
    if values == [] then [] else (if values[0] == "" then [] else [values[0]]) + Kept(values[1..])
  }

  /** The values to emit for these events when `room` more lines may be rendered. */
  function Values<N>(render: Render<N>, names: N, room: nat, events: seq<Event>): seq<string>
  {
    if events == [] then []
    else
      match events[0]
      case Oversized => [OVERSIZED_NOTICE] + Values(render, names, room, events[1..])
      case Line(text) =>
        if text == "" || room == 0 then Values(render, names, room, events[1..])
        else
          var (after, values) := render(names, text);
          Kept(values) + Values(render, after, room - 1, events[1..])
  }

  /** All the values of a stream: of its first lines, of every oversized line, and the notice that lines were left out. */
  function AllValues<N>(render: Render<N>, names: N, events: seq<Event>): seq<string>
  {
    Values(render, names, MAX_EVENTS, events) + if LinesIn(events) > MAX_EVENTS then [EVENT_LIMIT_NOTICE] else []
  }

  /** `written` is the longest start of the values that fits the budget, and the notice when that is not all of them. */
  predicate Clipped(written: string, values: seq<string>, n: nat)
  {
    && n <= |values|
    && Bytes(Chars(values[..n])) <= MAX_OUTPUT_BYTES
    && written == Chars(values[..n]) + (if n < |values| then OUTPUT_NOTICE else "")
    && (n < |values| ==> Bytes(Chars(values[..n + 1])) > MAX_OUTPUT_BYTES)
  }

  /** The sink after `values` were emitted, of which the first `n` were written. */
  predicate SinkOf<N>(k: Sink<N>, values: seq<string>, n: nat)
  {
    && Clipped(k.written, values, n)
    && k.capped == (n < |values|)
    && k.outputBytes == Bytes(Chars(values[..n]))
  }

  lemma {:induction false} CharsConcat(a: seq<string>, b: seq<string>)
    ensures Chars(a + b) == Chars(a) + Chars(b)
  {
    if a == [] {
      assert a + b == b;
    } else {
      assert (a + b)[1..] == a[1..] + b;
      CharsConcat(a[1..], b);
      Assoc(a[0] + "\n", Chars(a[1..]), Chars(b));
    }
  }

  lemma CharsSnoc(a: seq<string>, value: string)
    ensures Chars(a + [value]) == Chars(a) + (value + "\n")
    ensures Bytes(Chars(a + [value])) == Bytes(Chars(a)) + Bytes(value + "\n")
  {
    CharsConcat(a, [value]);
    assert [value][1..] == [];
    assert Chars([value]) == value + "\n" + "" == value + "\n";
    BytesConcat(Chars(a), value + "\n");
  }

  lemma EmitStep<N>(k: Sink<N>, values: seq<string>, n: nat, value: string) returns (m: nat)
    requires SinkOf(k, values, n) && value != ""
    ensures SinkOf(Emit(k, value), values + [value], m)
  {
    var next := values + [value];
    if n < |values| {
      m := n;
      assert next[..n] == values[..n] && next[..n + 1] == values[..n + 1];
    } else {
      assert values[..n] == values;
      CharsSnoc(values, value);
      assert next[..|values|] == values && next[..|values| + 1] == next;
      m := if k.outputBytes + Bytes(value + "\n") > MAX_OUTPUT_BYTES then |values| else |values| + 1;
      assert k.written == Chars(values) + "" == Chars(values);
      assert Chars(next) + "" == Chars(next);
    }
  }

  lemma {:induction false} EmitAllStep<N>(k: Sink<N>, values: seq<string>, n: nat, more: seq<string>) returns (m: nat)
    requires SinkOf(k, values, n)
    ensures SinkOf(EmitAll(k, more), values + Kept(more), m)
    ensures EmitAll(k, more).names == k.names && EmitAll(k, more).eventCount == k.eventCount
    ensures EmitAll(k, more).limitExceeded == k.limitExceeded
    decreases |more|
  {
    if more == [] {
      m := n;
      assert values + [] == values;
    } else if more[0] == "" {
      m := EmitAllStep(k, values, n, more[1..]);
      assert [] + Kept(more[1..]) == Kept(more[1..]);
    } else {
      m := EmitStep(k, values, n, more[0]);
      m := EmitAllStep(Emit(k, more[0]), values + [more[0]], m, more[1..]);
      Assoc(values, [more[0]], Kept(more[1..]));
    }
  }

  lemma {:induction false} HandleAllStep<N>(render: Render<N>, k: Sink<N>, values: seq<string>, n: nat, events: seq<Event>)
    returns (m: nat)
    requires SinkOf(k, values, n) && k.eventCount <= MAX_EVENTS
    ensures SinkOf(HandleAll(render, k, events), values + Values(render, k.names, MAX_EVENTS - k.eventCount, events), m)
    ensures HandleAll(render, k, events).limitExceeded == (k.limitExceeded || LinesIn(events) > MAX_EVENTS - k.eventCount)
    decreases |events|
  {
    var room := MAX_EVENTS - k.eventCount;
    if events == [] {
      m := n;
      assert values + [] == values;
    } else {
      var e, rest := events[0], events[1..];
      var next := Handle(render, k, e);
      if e.Oversized? {
        m := EmitStep(k, values, n, OVERSIZED_NOTICE);
        m := HandleAllStep(render, next, values + [OVERSIZED_NOTICE], m, rest);
        Assoc(values, [OVERSIZED_NOTICE], Values(render, k.names, room, rest));
      } else if e.text == "" || room == 0 {
        m := HandleAllStep(render, next, values, n, rest);
      } else {
        var (after, more) := render(k.names, e.text);
        m := LineStep(render, k, values, n, e.text, after, more, next);
        m := HandleAllStep(render, next, values + Kept(more), m, rest);
        Assoc(values, Kept(more), Values(render, after, room - 1, rest));
      }
    }
  }

  lemma LineStep<N>(render: Render<N>, k: Sink<N>, values: seq<string>, n: nat, line: string, names: N, more: seq<string>, next: Sink<N>)
    returns (m: nat)
    requires SinkOf(k, values, n) && line != "" && k.eventCount < MAX_EVENTS
    requires (names, more) == render(k.names, line) && next == Process(render, k, line)
    ensures SinkOf(next, values + Kept(more), m) && next.names == names
    ensures next.eventCount == k.eventCount + 1 && next.limitExceeded == k.limitExceeded
  {
    m := EmitAllStep(k.(names := names, eventCount := k.eventCount + 1), values, n, more);
  }

  /** What a stream writes is all its values, clipped to the budget. */
  lemma OutputIsClipped<N>(render: Render<N>, names: N, chunks: seq<string>) returns (n: nat)
    ensures Clipped(Output(render, names, chunks), AllValues(render, names, Events(START, chunks)), n)
  {
    var events := Events(START, chunks);
    var none: seq<string> := [];
    assert "" + "" == "" && none[..0] == none;
    n := HandleAllStep(render, Fresh(names), none, 0, events);
    var k := HandleAll(render, Fresh(names), events);
    var values := Values(render, names, MAX_EVENTS, events);
    assert none + values == values && values + [] == values;
    if k.limitExceeded { n := EmitStep(k, values, n, EVENT_LIMIT_NOTICE); }
  }

  predicate Ascii(s: string)
  {
    forall i :: 0 <= i < |s| ==> s[i] < '\U{80}'
  }

  lemma {:induction false} AsciiBytes(s: string)
    requires Ascii(s)
    ensures Bytes(s) == |s|
  {
    if s != "" { AsciiBytes(s[1..]); }
  }

  lemma WordsAreAscii()
    ensures Ascii(WARNING) && Ascii(RENDERED) && Ascii(REACHED)
    ensures |WARNING| == 16 && |RENDERED| == 16 && |REACHED| == 15
  {
  }

  lemma NoticeBytes()
    ensures Bytes(OUTPUT_NOTICE) == 47
  {
    WordsAreAscii();
    AsciiBytes(WARNING);
    AsciiBytes(RENDERED);
    AsciiBytes(REACHED);
    BytesConcat(WARNING, RENDERED);
    BytesConcat(WARNING + RENDERED, REACHED);
  }

  lemma NoticeFits(room: string, cut: bool)
    requires Bytes(room) <= MAX_OUTPUT_BYTES
    ensures Bytes(room + if cut then OUTPUT_NOTICE else "") <= OUTPUT_LIMIT
  {
    NoticeBytes();
    BytesConcat(room, if cut then OUTPUT_NOTICE else "");
  }

  /** The whole output, with the notice that it was cut, fits three mebibytes. */
  lemma OutputIsBounded<N>(render: Render<N>, names: N, chunks: seq<string>)
    ensures Bytes(Output(render, names, chunks)) <= OUTPUT_LIMIT
  {
    var n := OutputIsClipped(render, names, chunks);
    var values := AllValues(render, names, Events(START, chunks));
    NoticeFits(Chars(values[..n]), n < |values|);
  }

  /** For even lines the output does not depend on how the input was cut. */
  lemma OutputIgnoresChunks<N>(render: Render<N>, names: N, a: seq<string>, b: seq<string>)
    requires Concat(a) == Concat(b) && AllEven(Concat(a))
    ensures Output(render, names, a) == Output(render, names, b)
  {
    ChunkingDoesNotMatter(a);
    ChunkingDoesNotMatter(b);
  }
}
