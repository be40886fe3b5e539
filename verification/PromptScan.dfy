/** Finding a background agent's arrival in the lines of a prompt. */
module PromptScan {
  import opened Text

  datatype Kind = Handback | Notification

  datatype Scan = NoArrival | Arrived(kind: Kind, status: string)

  const COMPLETED := "completed"
  const OPEN_LINE := "<task-notification>"
  const CLOSE_LINE := "</task-notification>"
  const HANDBACK_LINE := "[Subagent hand-back]"

  predicate Done(scan: Scan) { scan.Arrived? && scan.status == COMPLETED }

  // ----- One line of a notification -----

  predicate BlankChar(c: char) { c == ' ' || c == '\t' }

  function TrimLead(s: string): string
  {
    if s != "" && BlankChar(s[0]) then TrimLead(s[1..]) else s
  }

  function TrimTail(s: string): string
  {
    if s != "" && BlankChar(s[|s| - 1]) then TrimTail(s[..|s| - 1]) else s
  }

  /** The text between the two tags, if the line is exactly that, with spaces and tabs trimmed. */
  function Tagged(line: string, open: string, close: string): Option<string>
  {
    if |line| >= |open| + |close| && open <= line && line[|line| - |close|..] == close then
      Some(TrimLead(TrimTail(line[|open|..|line| - |close|])))
    else None
  }

  predicate IsIdLine(line: string, agent: string)
  {
    Tagged(line, "<task-id>", "</task-id>") == Some(agent)
  }

  predicate StatusWord(s: string)
  {
    1 <= |s| <= 32 && 'a' <= s[0] <= 'z' && forall i :: 1 <= i < |s| ==> 'a' <= s[i] <= 'z' || s[i] == '_' || s[i] == '-'
  }

  predicate StatusLine(line: string)
  {
    var word := Tagged(line, "<status>", "</status>");
    word.Some? && forall i :: 0 <= i < |word.value| ==> word.value[i] != '<' && !Space(word.value[i])
  }

  /** The word of the first status line of a block, or `unknown`. */
  function StatusOf(entries: seq<string>): string
  {
    if entries == [] then "unknown"
    else if StatusLine(entries[0]) then
      var word := Tagged(entries[0], "<status>", "</status>").value;
      if StatusWord(word) then word else "unknown"
    else StatusOf(entries[1..])
  }

  predicate Names(entries: seq<string>, agent: string)
  {
    exists i :: 0 <= i < |entries| && IsIdLine(entries[i], agent)
  }

  // ----- The scan -----

  function Frame(agent: string): string { "<agent-message from=\"" + agent + "\">" }

  predicate HandbackAt(lines: seq<string>, agent: string, i: nat)
  {
    i + 1 < |lines| && lines[i] == Frame(agent) && HANDBACK_LINE <= lines[i + 1]
  }

  /** The scan of the notification blocks from line `i` on; `start` is the line that opened the current block. */
  function ScanBlocks(lines: seq<string>, agent: string, i: nat, start: Option<nat>, last: Option<string>): Scan
    requires i <= |lines| && (start.Some? ==> start.value < i)
    decreases |lines| - i
  {
    if i == |lines| then (if last.Some? then Arrived(Notification, last.value) else NoArrival)
    else if lines[i] == OPEN_LINE then ScanBlocks(lines, agent, i + 1, Some(i), last)
    else if start.None? || lines[i] != CLOSE_LINE then ScanBlocks(lines, agent, i + 1, start, last)
    else
      var entries := lines[start.value + 1..i];
      if !Names(entries, agent) then ScanBlocks(lines, agent, i + 1, None, last)
      else if StatusOf(entries) == COMPLETED then Arrived(Notification, COMPLETED)
      else ScanBlocks(lines, agent, i + 1, None, Some(StatusOf(entries)))
  }

  ghost predicate HandedBack(lines: seq<string>, agent: string)
  {
    exists i :: 0 <= i < |lines| && HandbackAt(lines, agent, i)
  }

  ghost function ScanOf(lines: seq<string>, agent: string): Scan
  {
    if HandedBack(lines, agent) then Arrived(Handback, COMPLETED) else ScanBlocks(lines, agent, 0, None, None)
  }

  method ScanLines(lines: seq<string>, agent: string) returns (scan: Scan)
    ensures scan == ScanOf(lines, agent)
  {
    var frame := Frame(agent);
    var index := 0;
    while index + 1 < |lines|
      invariant 0 <= index && (index < |lines| || lines == [])
      invariant forall i :: 0 <= i < index ==> !HandbackAt(lines, agent, i)
    {
      if lines[index] == frame && HANDBACK_LINE <= lines[index + 1] {
        assert HandbackAt(lines, agent, index);
        return Arrived(Handback, COMPLETED);
      }
      index := index + 1;
    }
    scan := ScanNotifications(lines, agent);
  }

  /** The loop over the notification blocks. */
  method ScanNotifications(lines: seq<string>, agent: string) returns (scan: Scan)
    ensures scan == ScanBlocks(lines, agent, 0, None, None)
  {
    var status: Option<string>, block: Option<seq<string>> := None, None;
    ghost var start: Option<nat>, all := None, ScanBlocks(lines, agent, 0, None, None);
    for i := 0 to |lines|
      invariant start.Some? <==> block.Some?
      invariant start.Some? ==> start.value < i && block.value == lines[start.value + 1..i]
      invariant ScanBlocks(lines, agent, i, start, status) == all
    {
      var line := lines[i];
      OneLine(lines, agent, i, start, status, if start.Some? then lines[start.value + 1..i] else []);
      if line == OPEN_LINE {
        block, start := Some([]), Some(i);
      } else if block.Some? && line != CLOSE_LINE {
        block := Some(block.value + [line]);
      } else if block.Some? {
        var entries := block.value;
        block, start := None, None;
        if Names(entries, agent) {
          if StatusOf(entries) == COMPLETED {
            return Arrived(Notification, COMPLETED);
          }
          status := Some(StatusOf(entries));
        }
      }
    }
    scan := if status.Some? then Arrived(Notification, status.value) else NoArrival;
  }

  /** What one line does to the scan. */
  lemma OneLine(lines: seq<string>, agent: string, i: nat, start: Option<nat>, last: Option<string>, entries: seq<string>)
    requires i < |lines| && (start.Some? ==> start.value < i && entries == lines[start.value + 1..i])
    ensures ScanBlocks(lines, agent, i, start, last) ==
      if lines[i] == OPEN_LINE then ScanBlocks(lines, agent, i + 1, Some(i), last)
      else if start.None? || lines[i] != CLOSE_LINE then ScanBlocks(lines, agent, i + 1, start, last)
      else if !Names(entries, agent) then ScanBlocks(lines, agent, i + 1, None, last)
      else if StatusOf(entries) == COMPLETED then Arrived(Notification, COMPLETED)
      else ScanBlocks(lines, agent, i + 1, None, Some(StatusOf(entries)))
  {
  }

  // ----- What the scan means -----

  /** A notification block: an opening line, its closing line, and neither of the two in between. */
  ghost predicate Block(lines: seq<string>, a: nat, b: nat)
  {
    && a < b < |lines| && lines[a] == OPEN_LINE && lines[b] == CLOSE_LINE
    && forall k :: a < k < b ==> lines[k] != OPEN_LINE && lines[k] != CLOSE_LINE
  }

  ghost predicate BlockSays(lines: seq<string>, agent: string, a: nat, b: nat, status: string)
  {
    Block(lines, a, b) && Names(lines[a + 1..b], agent) && StatusOf(lines[a + 1..b]) == status
  }

  /** The line that opened the block still open at line `i`, as the lines themselves show it. */
  ghost predicate OpenAt(lines: seq<string>, i: nat, start: Option<nat>)
    requires i <= |lines|
  {
    if start.Some? then
      start.value < i && lines[start.value] == OPEN_LINE
      && forall k :: start.value < k < i ==> lines[k] != OPEN_LINE && lines[k] != CLOSE_LINE
    else
      forall k :: 0 <= k < i && lines[k] == OPEN_LINE ==> exists m :: k < m < i && lines[m] == CLOSE_LINE
  }

  lemma OpenNext(lines: seq<string>, i: nat, start: Option<nat>)
    requires i < |lines| && OpenAt(lines, i, start)
    ensures OpenAt(lines, i + 1, if lines[i] == OPEN_LINE then Some(i) else if lines[i] == CLOSE_LINE then None else start)
  {
    assert OPEN_LINE != CLOSE_LINE;
    if lines[i] == CLOSE_LINE {
      forall k | 0 <= k < i + 1 && lines[k] == OPEN_LINE ensures exists m :: k < m < i + 1 && lines[m] == CLOSE_LINE {
        assert k < i;
      }
    } else if lines[i] != OPEN_LINE && start.None? {
      forall k | 0 <= k < i + 1 && lines[k] == OPEN_LINE ensures exists m :: k < m < i + 1 && lines[m] == CLOSE_LINE {
        assert k < i;
        var m :| k < m < i && lines[m] == CLOSE_LINE;
      }
    }
  }

  /** Only the block that is open can close at line `i`. */
  lemma BlockIsOpen(lines: seq<string>, i: nat, start: Option<nat>, a: nat)
    requires i < |lines| && OpenAt(lines, i, start) && Block(lines, a, i)
    ensures start == Some(a)
  {
    assert OPEN_LINE != CLOSE_LINE;
  }

  /** Some block ends at line `b` and says this. */
  ghost predicate EndsSaying(lines: seq<string>, agent: string, b: nat, status: string)
  {
    exists a :: BlockSays(lines, agent, a, b, status)
  }

  /** What the open block says if it closes at line `i`. */
  function Heard(lines: seq<string>, agent: string, i: nat, start: Option<nat>): Option<string>
    requires i < |lines| && (start.Some? ==> start.value < i)
  {
    if lines[i] == CLOSE_LINE && start.Some? && Names(lines[start.value + 1..i], agent)
    then Some(StatusOf(lines[start.value + 1..i])) else None
  }

  lemma HeardIs(lines: seq<string>, agent: string, i: nat, start: Option<nat>, heard: Option<string>)
    requires i < |lines| && OpenAt(lines, i, start) && heard == Heard(lines, agent, i, start)
    ensures forall status :: EndsSaying(lines, agent, i, status) <==> heard == Some(status)
  {
    forall a: nat, status ensures BlockSays(lines, agent, a, i, status) ==> start == Some(a) && heard == Some(status) {
      if Block(lines, a, i) { BlockIsOpen(lines, i, start, a); }
    }
    if heard.Some? { assert BlockSays(lines, agent, start.value, i, heard.value); }
  }

  lemma ScanStep(lines: seq<string>, agent: string, i: nat, start: Option<nat>, last: Option<string>, heard: Option<string>, next: Option<nat>)
    requires i < |lines| && OpenAt(lines, i, start) && heard == Heard(lines, agent, i, start)
    requires next == if lines[i] == OPEN_LINE then Some(i) else if lines[i] == CLOSE_LINE then None else start
    ensures ScanBlocks(lines, agent, i, start, last) ==
      if heard == Some(COMPLETED) then Arrived(Notification, COMPLETED)
      else ScanBlocks(lines, agent, i + 1, next, if heard.Some? then heard else last)
  {
    assert OPEN_LINE != CLOSE_LINE;
  }

  /** From line `i` on, the scan is done iff a block says completed, and arrives iff one says anything or one did before. */
  lemma {:induction false} ScanBlocksFinds(
    lines: seq<string>, agent: string, i: nat, start: Option<nat>, last: Option<string>, says: (nat, string) -> bool)
    requires i <= |lines| && OpenAt(lines, i, start) && last != Some(COMPLETED)
    requires forall b: nat, status :: says(b, status) <==> EndsSaying(lines, agent, b, status)
    ensures Done(ScanBlocks(lines, agent, i, start, last)) <==> exists b: nat :: i <= b && says(b, COMPLETED)
    ensures ScanBlocks(lines, agent, i, start, last).Arrived? <==> last.Some? || exists b: nat, status :: i <= b && says(b, status)
    decreases |lines| - i
  {
    if i < |lines| {
      var heard := Heard(lines, agent, i, start);
      var next := if lines[i] == OPEN_LINE then Some(i) else if lines[i] == CLOSE_LINE then None else start;
      OpenNext(lines, i, start);
      HeardIs(lines, agent, i, start, heard);
      ScanStep(lines, agent, i, start, last, heard, next);
      if heard != Some(COMPLETED) {
        ScanBlocksFinds(lines, agent, i + 1, next, if heard.Some? then heard else last, says);
      }
      if heard.Some? { assert says(i, heard.value); }
    }
  }

  /** A completed arrival is a hand-back frame or a closed notification block that names the agent and says completed. */
  lemma CompletedArrival(lines: seq<string>, agent: string)
    ensures Done(ScanOf(lines, agent)) <==>
            HandedBack(lines, agent) || exists b :: EndsSaying(lines, agent, b, COMPLETED)
    ensures ScanOf(lines, agent).Arrived? <==>
            HandedBack(lines, agent) || exists b, status :: EndsSaying(lines, agent, b, status)
  {
    var says := (b: nat, status: string) => EndsSaying(lines, agent, b, status);
    ScanBlocksFinds(lines, agent, 0, None, None, says);
    if b: nat :| EndsSaying(lines, agent, b, COMPLETED) { assert says(b, COMPLETED); }
    if b: nat, status :| EndsSaying(lines, agent, b, status) { assert says(b, status); }
  }

  // ----- What the scan reports -----

  /** The last block that says anything says this. */
  ghost predicate LastSays(lines: seq<string>, agent: string, status: string)
  {
    exists b :: EndsSaying(lines, agent, b, status) && forall c, other :: c > b ==> !EndsSaying(lines, agent, c, other)
  }

  /** What the scan of the blocks from line `i` on reports, if no block says completed. */
  lemma {:induction false} ScanBlocksReports(
    lines: seq<string>, agent: string, i: nat, start: Option<nat>, last: Option<string>, says: (nat, string) -> bool)
    requires i <= |lines| && OpenAt(lines, i, start) && last != Some(COMPLETED)
    requires forall b: nat, status :: says(b, status) <==> EndsSaying(lines, agent, b, status)
    ensures var scan := ScanBlocks(lines, agent, i, start, last);
      && (scan.Arrived? ==> scan.kind == Notification)
      && (scan.Arrived? && !Done(scan) ==>
            || (last == Some(scan.status) && forall c: nat, other :: c >= i ==> !says(c, other))
            || exists b: nat :: i <= b && says(b, scan.status) && forall c: nat, other :: c > b ==> !says(c, other))
    decreases |lines| - i
  {
    if i < |lines| {
      var heard := Heard(lines, agent, i, start);
      var next := if lines[i] == OPEN_LINE then Some(i) else if lines[i] == CLOSE_LINE then None else start;
      OpenNext(lines, i, start);
      HeardIs(lines, agent, i, start, heard);
      ScanStep(lines, agent, i, start, last, heard, next);
      if heard != Some(COMPLETED) {
        ScanBlocksReports(lines, agent, i + 1, next, if heard.Some? then heard else last, says);
      }
      if heard.Some? { assert says(i, heard.value); }
    }
  }

  /** A hand-back is reported as such; otherwise a status that is not completed is that of the last block about the agent. */
  lemma ReportedArrival(lines: seq<string>, agent: string)
    ensures var scan := ScanOf(lines, agent);
      && (scan.Arrived? ==> scan.kind == if HandedBack(lines, agent) then Handback else Notification)
      && (scan.Arrived? && !Done(scan) ==> LastSays(lines, agent, scan.status))
  {
    var says := (b: nat, status: string) => EndsSaying(lines, agent, b, status);
    ScanBlocksReports(lines, agent, 0, None, None, says);
    var scan := ScanBlocks(lines, agent, 0, None, None);
    if scan.Arrived? && !Done(scan) {
      var b: nat :| says(b, scan.status) && forall c: nat, other :: c > b ==> !says(c, other);
      forall c: nat, other ensures EndsSaying(lines, agent, c, other) == says(c, other) { }
    }
  }

  // ----- What the harness writes is read -----

  predicate Plain(s: string)
  {
    s != "" && !BlankChar(s[0]) && !BlankChar(s[|s| - 1])
  }

  function Blanks(n: nat): string
  {
    seq(n, _ => ' ')
  }

  lemma {:induction false} LeadTrimmed(n: nat, s: string)
    requires Plain(s)
    ensures TrimLead(Blanks(n) + s) == s
  {
    if n == 0 {
      assert Blanks(0) + s == s;
    } else {
      assert (Blanks(n) + s)[1..] == Blanks(n - 1) + s;
      LeadTrimmed(n - 1, s);
    }
  }

  lemma {:induction false} TailTrimmed(n: nat, s: string)
    requires s != "" && !BlankChar(s[|s| - 1])
    ensures TrimTail(s + Blanks(n)) == s
  {
    if n == 0 {
      assert s + Blanks(0) == s;
    } else {
      var padded := s + Blanks(n);
      assert padded[..|padded| - 1] == s + Blanks(n - 1) && padded[|padded| - 1] == ' ';
      TailTrimmed(n - 1, s);
    }
  }

  /** A tagged word is read without the blanks around it. */
  lemma TaggedIsRead(open: string, m: nat, word: string, n: nat, close: string, line: string)
    requires Plain(word) && line == open + (Blanks(m) + word + Blanks(n)) + close
    ensures Tagged(line, open, close) == Some(word)
  {
    var body := Blanks(m) + word + Blanks(n);
    assert line[|open|..|line| - |close|] == body && line[|line| - |close|..] == close;
    TailTrimmed(n, Blanks(m) + word);
    LeadTrimmed(m, word);
  }

  function IdLine(agent: string, m: nat, n: nat): string { "<task-id>" + (Blanks(m) + agent + Blanks(n)) + "</task-id>" }

  function StatusLineOf(status: string, m: nat, n: nat): string { "<status>" + (Blanks(m) + status + Blanks(n)) + "</status>" }

  lemma StatusIsRead(status: string, m: nat, n: nat, line: string)
    requires StatusWord(status) && line == StatusLineOf(status, m, n)
    ensures StatusLine(line) && Tagged(line, "<status>", "</status>") == Some(status)
  {
    TaggedIsRead("<status>", m, status, n, "</status>", line);
  }

  /** A block reports its agent and status, whatever blanks are around them. */
  lemma NotificationIsRead(agent: string, status: string, k: nat, l: nat, m: nat, n: nat)
    requires Plain(agent) && StatusWord(status)
    ensures var lines := [OPEN_LINE, IdLine(agent, k, l), StatusLineOf(status, m, n), CLOSE_LINE];
      EndsSaying(lines, agent, 3, status)
  {
    var id, word := IdLine(agent, k, l), StatusLineOf(status, m, n);
    var lines := [OPEN_LINE, id, word, CLOSE_LINE];
    TaggedIsRead("<task-id>", k, agent, l, "</task-id>", id);
    StatusIsRead(status, m, n, word);
    NoStatusInId(id);
    OrdinaryLine(id, word);
    assert lines[1..3] == [id, word];
    EntriesSay(id, word, agent, status);
    assert Block(lines, 0, 3);
    assert BlockSays(lines, agent, 0, 3, status);
  }

  lemma EntriesSay(id: string, word: string, agent: string, status: string)
    requires IsIdLine(id, agent) && !StatusLine(id) && StatusWord(status)
    requires StatusLine(word) && Tagged(word, "<status>", "</status>") == Some(status)
    ensures Names([id, word], agent) && StatusOf([id, word]) == status
  {
    var entries := [id, word];
    assert entries[1..] == [word] && entries[0] == id;
  }

  lemma OrdinaryLine(id: string, word: string)
    requires "<task-id>" <= id && "<status>" <= word
    ensures id != OPEN_LINE && id != CLOSE_LINE && word != OPEN_LINE && word != CLOSE_LINE
  {
    assert id[6] == "<task-id>"[6] && word[1] == "<status>"[1];
    assert OPEN_LINE[6] == 'n' && CLOSE_LINE[1] == '/' && OPEN_LINE[1] == 't';
    assert id[1] == "<task-id>"[1];
  }

  lemma NoStatusInId(line: string)
    requires "<task-id>" <= line
    ensures !StatusLine(line)
  {
    assert line[1] == 't' && "<status>"[1] == 's';
  }

  /** A hand-back frame is read as one, wherever it stands. */
  lemma HandbackIsRead(before: seq<string>, agent: string, more: string, after: seq<string>)
    ensures HandedBack(before + [Frame(agent), HANDBACK_LINE + more] + after, agent)
  {
    var lines := before + [Frame(agent), HANDBACK_LINE + more] + after;
    assert HandbackAt(lines, agent, |before|);
  }
}
