/** One session's background-review record and arrival note: launch, arrive, match, defer and retire. */
module ReviewSession {
  import opened Text
  import opened PromptScan

  const WAIT_TTL_MS := 3600000
  const MAX_ARRIVAL_HOLDS := 3

  datatype Record = Record(agent: string, ticket: string, launchedAt: int)

  datatype Note = Note(agent: string, ticket: string, arrival: Kind, arrivedAt: int, holds: nat)

  /** The record file; a file that does not validate is never consumed. */
  datatype RecordFile = NoRecord | Recorded(record: Record) | BadRecord

  /** The note file; text that does not validate can still be dropped, an unreadable file cannot. */
  datatype NoteFile = NoNote | Noted(note: Note) | Junk(text: string) | Unreadable

  datatype Session = Session(record: RecordFile, note: NoteFile)

  datatype Source = FromPrompt | FromNote

  datatype Verdict = Claim(arrival: Kind, source: Source, record: Record) | Ended(status: string, record: Record) | NoVerdict

  datatype Outcome =
    | Launched(recorded: bool)
    | Seen(pending: bool)
    | Judged(verdict: Verdict)
    | Released(deferred: bool, held: bool, holds: nat)
    | Retired(retired: bool)

  /**
   What the hooks are called with. `ticket` is the one read from a header that fits its envelope, `issued` the one the
   workflow state holds now, `stored` and `written` whether the store opens and the atomic write succeeds.
   */
  datatype Op =
    | Launch(agent: Option<string>, ticket: Option<string>, issued: Option<string>, now: int, stored: bool, written: bool)
    | Arrive(lines: seq<string>, accepted: bool, now: int, written: bool)
    | Match(prompt: Option<seq<string>>, issued: Option<string>, stored: bool)
    | Defer(now: int, held: bool, stored: bool, written: bool)
    | Retire(target: string, stored: bool)

  // ----- The operations on values -----

  predicate Belongs(note: NoteFile, record: RecordFile)
  {
    note.Noted? && record.Recorded? && note.note.agent == record.record.agent && note.note.ticket == record.record.ticket
  }

  /** A note that does not belong to the record is dropped, if it can be read at all. */
  function Sift(s: Session): Session
  {
    if Belongs(s.note, s.record) || s.note.Unreadable? then s else s.(note := NoNote)
  }

  function WithoutNote(s: Session): Session
  {
    if s.note.Unreadable? then s else s.(note := NoNote)
  }

  predicate Reaches(op: Op)
  {
    op.Launch? && op.agent.Some? && op.ticket.Some? && op.issued == op.ticket && op.stored
  }

  function DoLaunch(s: Session, op: Op): (Session, Outcome)
    requires op.Launch?
  {
    if !Reaches(op) then (s, Launched(false)) else
    var t := WithoutNote(s);
    if op.written then (t.(record := Recorded(Record(op.agent.value, op.ticket.value, op.now))), Launched(true))
    else (t, Launched(false))
  }

  ghost function DoArrive(s: Session, op: Op): (Session, Outcome)
    requires op.Arrive?
  {
    if !op.accepted then (s, Seen(false)) else
    var t := Sift(s);
    if !t.record.Recorded? then (t, Seen(false)) else
    var r := t.record.record;
    var scan := ScanOf(op.lines, r.agent);
    if Done(scan) then
      (if !t.note.Noted? && op.written then t.(note := Noted(Note(r.agent, r.ticket, scan.kind, op.now, 0))) else t, Seen(true))
    else (t, Seen(t.note.Noted? || scan.Arrived?))
  }

  ghost function DoMatch(s: Session, op: Op): (Session, Outcome)
    requires op.Match?
  {
    if op.prompt.None? || !op.stored then (s, Judged(NoVerdict)) else
    var t := Sift(s);
    if !t.record.Recorded? then (t, Judged(NoVerdict)) else
    var r := t.record.record;
    var scan := ScanOf(op.prompt.value, r.agent);
    if !scan.Arrived? && !t.note.Noted? then (t, Judged(NoVerdict))
    else if op.issued != Some(r.ticket) then
      (Session(NoRecord, if t.note.Noted? then NoNote else t.note), Judged(NoVerdict))
    else if Done(scan) then (t, Judged(Claim(scan.kind, FromPrompt, r)))
    else if t.note.Noted? then (t, Judged(Claim(t.note.note.arrival, FromNote, r)))
    else (t.(record := NoRecord), Judged(Ended(scan.status, r)))
  }

  function DoDefer(s: Session, op: Op): (Session, Outcome)
    requires op.Defer?
  {
    if !op.stored then (s, Released(false, op.held, 0)) else
    var t := Sift(s);
    if !t.record.Recorded? || !t.note.Noted? then (t, Released(false, op.held, 0)) else
    var holds := t.note.note.holds + if op.held then 1 else 0;
    if op.now - t.record.record.launchedAt >= WAIT_TTL_MS || holds > MAX_ARRIVAL_HOLDS then
      (Session(NoRecord, NoNote), Released(false, op.held, holds))
    else if op.held && !op.written then (t, Released(false, op.held, holds))
    else (if op.held then t.(note := Noted(t.note.note.(holds := holds))) else t, Released(true, op.held, holds))
  }

  function DoRetire(s: Session, op: Op): (Session, Outcome)
    requires op.Retire?
  {
    if !op.stored then (s, Retired(false)) else
    var t := if s.note.Noted? && s.note.note.agent != op.target then s else WithoutNote(s);
    if t.record.Recorded? && t.record.record.agent == op.target then (t.(record := NoRecord), Retired(true))
    else (t, Retired(false))
  }

  ghost function Apply(s: Session, op: Op): (Session, Outcome)
  {
    match op
    case Launch(_, _, _, _, _, _) => DoLaunch(s, op)
    case Arrive(_, _, _, _) => DoArrive(s, op)
    case Match(_, _, _) => DoMatch(s, op)
    case Defer(_, _, _, _) => DoDefer(s, op)
    case Retire(_, _) => DoRetire(s, op)
  }

  // ----- When each answer is given -----

  /** A hand-back frame, or a notification block that says completed. */
  ghost predicate SaysCompleted(lines: seq<string>, agent: string)
  {
    HandedBack(lines, agent) || exists b :: EndsSaying(lines, agent, b, COMPLETED)
  }

  ghost predicate SaysAnything(lines: seq<string>, agent: string)
  {
    HandedBack(lines, agent) || exists b, status :: EndsSaying(lines, agent, b, status)
  }

  function KindIn(lines: seq<string>, agent: string): Kind
  {
    if exists i :: 0 <= i < |lines| && HandbackAt(lines, agent, i) then Handback else Notification
  }

  /** A note that belongs to no record is gone, unless it cannot be read. */
  function NoteLeft(s: Session): NoteFile
  {
    if Belongs(s.note, s.record) || s.note.Unreadable? then s.note else NoNote
  }

  /** What a launch leaves, and when it says it recorded the agent. */
  ghost predicate LaunchAnswers(s: Session, op: Op, t: Session, outcome: Outcome)
    requires op.Launch?
  {
    var allowed := op.agent.Some? && op.ticket.Some? && op.ticket == op.issued && op.stored;
    && outcome == Launched(allowed && op.written)
    && t.record == (if outcome.recorded then Recorded(Record(op.agent.value, op.ticket.value, op.now)) else s.record)
    && t.note == if allowed && !s.note.Unreadable? then NoNote else s.note
  }

  /** A completed arrival of the recorded agent is noted once; the chain is pending iff there is a note or any arrival. */
  ghost predicate ArriveAnswers(s: Session, op: Op, t: Session, outcome: Outcome)
    requires op.Arrive?
  {
    && t.record == s.record && outcome.Seen?
    && (outcome.pending <==>
          op.accepted && s.record.Recorded? && (Belongs(s.note, s.record) || SaysAnything(op.lines, s.record.record.agent)))
    && t.note ==
         if !op.accepted then s.note
         else if s.record.Recorded? && !Belongs(s.note, s.record) && op.written && SaysCompleted(op.lines, s.record.record.agent)
         then Noted(Note(s.record.record.agent, s.record.record.ticket, KindIn(op.lines, s.record.record.agent), op.now, 0))
         else NoteLeft(s)
  }

  /** There is a record to match, under the ticket that is issued or under an older one. */
  predicate Matches(s: Session, op: Op)
    requires op.Match?
  {
    op.prompt.Some? && op.stored && s.record.Recorded?
  }

  ghost predicate MatchAnswers(s: Session, op: Op, t: Session, outcome: Outcome)
    requires op.Match?
  {
    var noted := Belongs(s.note, s.record);
    && outcome.Judged?
    && (outcome.verdict.Claim? && outcome.verdict.source == FromPrompt <==>
          Matches(s, op) && op.issued == Some(s.record.record.ticket) && SaysCompleted(op.prompt.value, s.record.record.agent))
    && (outcome.verdict.Claim? && outcome.verdict.source == FromNote <==>
          Matches(s, op) && op.issued == Some(s.record.record.ticket) && noted && !SaysCompleted(op.prompt.value, s.record.record.agent))
    && (outcome.verdict.Ended? <==>
          && Matches(s, op) && op.issued == Some(s.record.record.ticket) && !noted
          && SaysAnything(op.prompt.value, s.record.record.agent) && !SaysCompleted(op.prompt.value, s.record.record.agent))
    && (!outcome.verdict.NoVerdict? ==> Matches(s, op) && outcome.verdict.record == s.record.record)
    && (outcome.verdict.Claim? && outcome.verdict.source == FromPrompt ==>
          outcome.verdict.arrival == KindIn(op.prompt.value, s.record.record.agent))
    && (outcome.verdict.Claim? && outcome.verdict.source == FromNote ==> outcome.verdict.arrival == s.note.note.arrival)
    && (outcome.verdict.Ended? ==> LastSays(op.prompt.value, s.record.record.agent, outcome.verdict.status))
    && MatchLeaves(s, op, t, outcome.verdict)
  }

  /** The record goes when the agent ended, or when it arrived under a ticket that is no longer issued, and then its note too. */
  ghost predicate MatchLeaves(s: Session, op: Op, t: Session, verdict: Verdict)
    requires op.Match?
  {
    var stale := Matches(s, op) && op.issued != Some(s.record.record.ticket)
      && (Belongs(s.note, s.record) || SaysAnything(op.prompt.value, s.record.record.agent));
    && t.record == (if stale || verdict.Ended? then NoRecord else s.record)
    && t.note ==
         if op.prompt.None? || !op.stored then s.note
         else if stale && Belongs(s.note, s.record) then NoNote else NoteLeft(s)
  }

  /** How often a note will have been held. */
  function HoldsAfter(note: Note, op: Op): nat
    requires op.Defer?
  {
    note.holds + if op.held then 1 else 0
  }

  /** A note is deferred within its time and number of holds; beyond either, record and note are gone. */
  ghost predicate DeferAnswers(s: Session, op: Op, t: Session, outcome: Outcome)
    requires op.Defer?
  {
    var noted := op.stored && Belongs(s.note, s.record);
    var spent := noted && (op.now >= s.record.record.launchedAt + WAIT_TTL_MS || HoldsAfter(s.note.note, op) > MAX_ARRIVAL_HOLDS);
    && outcome.Released? && outcome.held == op.held
    && (outcome.deferred <==> noted && !spent && (op.held ==> op.written))
    && (spent <==> noted && t == Session(NoRecord, NoNote))
    && (outcome.deferred ==> t == s.(note := Noted(s.note.note.(holds := HoldsAfter(s.note.note, op)))))
    && (outcome.deferred ==> outcome.holds == HoldsAfter(s.note.note, op))
    && (!outcome.deferred && !spent ==> t == s.(note := if op.stored then NoteLeft(s) else s.note))
  }

  /** Only the record of the named agent is removed, and only a note that is not another agent's. */
  ghost predicate RetireAnswers(s: Session, op: Op, t: Session, outcome: Outcome)
    requires op.Retire?
  {
    && outcome.Retired?
    && (outcome.retired <==> op.stored && s.record.Recorded? && s.record.record.agent == op.target)
    && t.record == (if outcome.retired then NoRecord else s.record)
    && (t.note != s.note ==> t.note == NoNote)
    && (op.stored && s.note.Noted? ==> (t.note == NoNote <==> s.note.note.agent == op.target))
    && (op.stored && s.note.Junk? ==> t.note == NoNote) && (!op.stored ==> t.note == s.note)
  }

  lemma ScanMeans(lines: seq<string>, agent: string)
    ensures Done(ScanOf(lines, agent)) <==> SaysCompleted(lines, agent)
    ensures ScanOf(lines, agent).Arrived? <==> SaysAnything(lines, agent)
    ensures ScanOf(lines, agent).Arrived? ==> ScanOf(lines, agent).kind == KindIn(lines, agent)
    ensures ScanOf(lines, agent).Arrived? && !Done(ScanOf(lines, agent)) ==> LastSays(lines, agent, ScanOf(lines, agent).status)
  {
    CompletedArrival(lines, agent);
    ReportedArrival(lines, agent);
  }

  lemma ArriveIsAnswered(s: Session, op: Op)
    requires op.Arrive?
    ensures ArriveAnswers(s, op, DoArrive(s, op).0, DoArrive(s, op).1)
  {
    if s.record.Recorded? { ScanMeans(op.lines, s.record.record.agent); }
  }

  /**
   A claim is made from the prompt exactly when it completes the agent of the record under the issued ticket, from the
   note exactly when it does not and a note of the record is held, and the agent has ended exactly when it only arrived
   with another status.
   */
  lemma MatchIsAnswered(s: Session, op: Op)
    requires op.Match?
    ensures MatchAnswers(s, op, DoMatch(s, op).0, DoMatch(s, op).1)
  {
    if op.prompt.Some? && s.record.Recorded? { ScanMeans(op.prompt.value, s.record.record.agent); }
  }

  // ----- The operations on the files -----

  class Store {
    var record: RecordFile
    var note: NoteFile

    constructor (r: RecordFile, n: NoteFile)
      ensures Now() == Session(r, n)
    {
      record, note := r, n;
    }

    function Now(): Session
      reads this
    {
      Session(record, note)
    }

    /** Rename away, compare, and unlink or link back; alone, the link back always finds the path free. */
    method ConsumeRecord(expected: Record) returns (ok: bool)
      modifies this`record
      ensures ok <==> old(record) == Recorded(expected)
      ensures record == if ok then NoRecord else old(record)
    {
      if record.NoRecord? {
        return false;
      }
      var taken := record;
      record := NoRecord;
      if taken == Recorded(expected) {
        return true;
      }
      if record.NoRecord? {
        record := taken;
      }
      ok := false;
    }

    /** The same for the note, whose expected text is the one just read; nothing is expected of an unreadable file. */
    method DropNote(expected: NoteFile) returns (ok: bool)
      modifies this`note
      ensures ok <==> old(note) == expected && !expected.NoNote? && !expected.Unreadable?
      ensures note == if ok then NoNote else old(note)
    {
      if expected.NoNote? || expected.Unreadable? || note.NoNote? {
        return false;
      }
      var taken := note;
      note := NoNote;
      if taken == expected {
        return true;
      }
      if note.NoNote? {
        note := taken;
      }
      ok := false;
    }

    method HeldArrival() returns (held: Option<Note>)
      modifies this`note
      ensures Now() == Sift(old(Now()))
      ensures held == if note.Noted? then Some(note.note) else None
    {
      if Belongs(note, record) {
        return Some(note.note);
      }
      var _ := DropNote(note);
      held := None;
    }

    method RecordLaunch(op: Op) returns (outcome: Outcome)
      requires op.Launch?
      modifies this
      ensures (Now(), outcome) == DoLaunch(old(Now()), op)
      ensures LaunchAnswers(old(Now()), op, Now(), outcome)
    {
      if op.agent.None? || op.ticket.None? || op.issued != op.ticket || !op.stored {
        return Launched(false);
      }
      var _ := DropNote(note);
      if !op.written {
        return Launched(false);
      }
      record := Recorded(Record(op.agent.value, op.ticket.value, op.now));
      outcome := Launched(true);
    }

    method NoteArrival(op: Op) returns (outcome: Outcome)
      requires op.Arrive?
      modifies this
      ensures (Now(), outcome) == DoArrive(old(Now()), op)
      ensures ArriveAnswers(old(Now()), op, Now(), outcome)
    {
      ArriveIsAnswered(Now(), op);
      if !op.accepted {
        return Seen(false);
      }
      var held := HeldArrival();
      if !record.Recorded? {
        return Seen(false);
      }
      var scan := ScanLines(op.lines, record.record.agent);
      if scan.Arrived? && scan.status == COMPLETED {
        if held.None? && op.written {
          note := Noted(Note(record.record.agent, record.record.ticket, scan.kind, op.now, 0));
        }
        return Seen(true);
      }
      outcome := Seen(held.Some? || scan.Arrived?);
    }

    method MatchArrival(op: Op) returns (outcome: Outcome)
      requires op.Match?
      modifies this
      ensures (Now(), outcome) == DoMatch(old(Now()), op)
      ensures MatchAnswers(old(Now()), op, Now(), outcome)
    {
      MatchIsAnswered(Now(), op);
      if op.prompt.None? || !op.stored {
        return Judged(NoVerdict);
      }
      var held := HeldArrival();
      if !record.Recorded? {
        return Judged(NoVerdict);
      }
      var loaded := record.record;
      var scan := ScanLines(op.prompt.value, loaded.agent);
      if !scan.Arrived? && held.None? {
        return Judged(NoVerdict);
      }
      if op.issued != Some(loaded.ticket) {
        if held.Some? {
          var _ := DropNote(note);
        }
        var _ := ConsumeRecord(loaded);
        return Judged(NoVerdict);
      }
      if scan.Arrived? && scan.status == COMPLETED {
        return Judged(Claim(scan.kind, FromPrompt, loaded));
      }
      if held.Some? {
        return Judged(Claim(held.value.arrival, FromNote, loaded));
      }
      var consumed := ConsumeRecord(loaded);
      outcome := Judged(if consumed then Ended(scan.status, loaded) else NoVerdict);
    }

    method DeferArrival(op: Op) returns (outcome: Outcome)
      requires op.Defer?
      modifies this
      ensures (Now(), outcome) == DoDefer(old(Now()), op)
      ensures DeferAnswers(old(Now()), op, Now(), outcome)
    {
      if !op.stored {
        return Released(false, op.held, 0);
      }
      var held := HeldArrival();
      if !record.Recorded? || held.None? {
        return Released(false, op.held, 0);
      }
      var holds := held.value.holds + if op.held then 1 else 0;
      if op.now - record.record.launchedAt >= WAIT_TTL_MS || holds > MAX_ARRIVAL_HOLDS {
        var _ := DropNote(note);
        var _ := ConsumeRecord(record.record);
        return Released(false, op.held, holds);
      }
      if op.held {
        if !op.written {
          return Released(false, op.held, holds);
        }
        note := Noted(held.value.(holds := holds));
      }
      outcome := Released(true, op.held, holds);
    }

    method RetireRecord(op: Op) returns (outcome: Outcome)
      requires op.Retire?
      modifies this
      ensures (Now(), outcome) == DoRetire(old(Now()), op)
      ensures RetireAnswers(old(Now()), op, Now(), outcome)
    {
      if !op.stored {
        return Retired(false);
      }
      if !(note.Noted? && note.note.agent != op.target) {
        var _ := DropNote(note);
      }
      if !record.Recorded? || record.record.agent != op.target {
        return Retired(false);
      }
      var consumed := ConsumeRecord(record.record);
      outcome := Retired(consumed);
    }
  }

  // ----- Runs and their history -----

  /**
   The session after a run, with its history: the last recorded launch, the arrival that wrote the note, whether any
   launch reached the store, and the held deferrals that succeeded since the last one that did.
   */
  datatype Track = Track(s: Session, launch: Option<nat>, seen: Option<nat>, started: bool, defers: nat)

  ghost function Advance(t: Track, k: nat, op: Op): Track
  {
    var (s, outcome) := Apply(t.s, op);
    Track(
      s,
      if outcome == Launched(true) then Some(k) else t.launch,
      if op.Arrive? && s.note.Noted? && !Sift(t.s).note.Noted? then Some(k) else t.seen,
      t.started || Reaches(op),
      if Reaches(op) then 0 else if outcome.Released? && outcome.deferred && outcome.held then t.defers + 1 else t.defers)
  }

  ghost function After(s: Session, ops: seq<Op>): Track
  {
    if ops == [] then Track(s, None, None, false, 0)
    else Advance(After(s, ops[..|ops| - 1]), |ops| - 1, ops[|ops| - 1])
  }

  /** The operation recorded this record, under a ticket that was issued then. */
  predicate Records(op: Op, r: Record)
  {
    Reaches(op) && op.written && r == Record(op.agent.value, op.ticket.value, op.now) && op.issued == Some(r.ticket)
  }

  /** The operation saw the agent complete, in a way it reports as `arrival`. */
  ghost predicate Completes(lines: seq<string>, agent: string, arrival: Kind)
  {
    Done(ScanOf(lines, agent)) && ScanOf(lines, agent).kind == arrival
  }

  ghost predicate Inv(ops: seq<Op>, t: Track)
  {
    && (t.launch.Some? ==> t.started && t.launch.value < |ops|)
    && (t.launch.Some? && t.s.record.Recorded? ==> Records(ops[t.launch.value], t.s.record.record))
    && (t.started && t.s.note.Noted? ==>
          Belongs(t.s.note, t.s.record) && t.defers == t.s.note.note.holds <= MAX_ARRIVAL_HOLDS)
    && (t.started && !t.s.note.Noted? && t.s.record.Recorded? ==> t.defers == 0)
    && (t.started ==> t.defers <= MAX_ARRIVAL_HOLDS)
    && (t.launch.Some? && t.s.note.Noted? ==>
          t.seen.Some? && t.launch.value < t.seen.value < |ops| && ops[t.seen.value].Arrive?
          && Completes(ops[t.seen.value].lines, t.s.note.note.agent, t.s.note.note.arrival))
  }

  lemma AdvanceKeeps(ops: seq<Op>, t: Track, op: Op)
    requires Inv(ops, t)
    ensures Inv(ops + [op], Advance(t, |ops|, op))
  {
    assert forall k :: 0 <= k < |ops| ==> (ops + [op])[k] == ops[k];
    assert (ops + [op])[|ops|] == op;
  }

  lemma {:induction false} RunKeeps(s: Session, ops: seq<Op>)
    ensures Inv(ops, After(s, ops))
  {
    if ops != [] {
      var before := ops[..|ops| - 1];
      RunKeeps(s, before);
      AdvanceKeeps(before, After(s, before), ops[|ops| - 1]);
      assert before + [ops[|ops| - 1]] == ops;
    }
  }

  /**
   A claim is backed: the record was launched under a ticket issued then, the same ticket is issued now, and a completed
   arrival of its agent was seen after that launch, in the present prompt or in an earlier one.
   */
  lemma ClaimIsBacked(s: Session, ops: seq<Op>, op: Op)
    requires After(s, ops).launch.Some? && op.Match?
    requires Apply(After(s, ops).s, op).1.Judged? && Apply(After(s, ops).s, op).1.verdict.Claim?
    ensures var t := After(s, ops); var claim := Apply(t.s, op).1.verdict; var r := claim.record;
      && t.launch.value < |ops| && Records(ops[t.launch.value], r) && op.issued == Some(r.ticket)
      && (claim.source == FromPrompt ==> op.prompt.Some? && Completes(op.prompt.value, r.agent, claim.arrival))
      && (claim.source == FromNote ==>
            exists j :: t.launch.value < j < |ops| && ops[j].Arrive? && Completes(ops[j].lines, r.agent, claim.arrival))
  {
    RunKeeps(s, ops);
  }

  /** Since the last launch that reached the store, at most three held deferrals succeeded; a fourth removes record and note. */
  lemma HeldDefersAreBounded(s: Session, ops: seq<Op>, op: Op)
    requires After(s, ops).started
    ensures After(s, ops).defers <= MAX_ARRIVAL_HOLDS
    ensures var t := After(s, ops);
      t.defers == MAX_ARRIVAL_HOLDS && t.s.note.Noted? && op.Defer? && op.held && op.stored ==>
        Apply(t.s, op) == (Session(NoRecord, NoNote), Released(false, true, MAX_ARRIVAL_HOLDS + 1))
    ensures var t := After(s, ops);
      t.defers == MAX_ARRIVAL_HOLDS && !t.s.note.Noted? ==> !t.s.record.Recorded?
  {
    RunKeeps(s, ops);
  }

  /**
   The bound counts from the last launch that reached the store, recorded or not: one whose write fails still drops the
   note, so the record it leaves in place gets a fresh allowance with its next completed arrival.
   */
  lemma FailedLaunchRenewsAllowance(s: Session, launch: Op, arrive: Op)
    requires Belongs(s.note, s.record) && Reaches(launch) && !launch.written
    requires arrive.Arrive? && arrive.accepted && arrive.written && Done(ScanOf(arrive.lines, s.record.record.agent))
    ensures var t := Apply(Apply(s, launch).0, arrive).0;
      t.record == s.record && Belongs(t.note, t.record) && t.note.note.holds == 0
  {
    assert Apply(s, launch).0 == s.(note := NoNote);
  }

  // ----- A finished review is handed on -----

  lemma DoneIsNoted(s: Session, r: Record, arrive: Op)
    requires arrive.Arrive? && arrive.accepted && arrive.written && SaysCompleted(arrive.lines, r.agent)
    requires s == Session(Recorded(r), NoNote)
    ensures Apply(s, arrive).0 == Session(Recorded(r), Noted(Note(r.agent, r.ticket, KindIn(arrive.lines, r.agent), arrive.now, 0)))
  {
    ArriveIsAnswered(s, arrive);
  }

  /** The held deferrals of a note, all in time. */
  predicate Holdings(ops: seq<Op>, r: Record)
  {
    forall i :: 0 <= i < |ops| ==>
      ops[i].Defer? && ops[i].held && ops[i].stored && ops[i].written && ops[i].now < r.launchedAt + WAIT_TTL_MS
  }

  lemma {:induction false} HeldThrough(s: Session, first: seq<Op>, ops: seq<Op>, r: Record, note: Note)
    requires |ops| <= MAX_ARRIVAL_HOLDS && Holdings(ops, r)
    requires After(s, first).s == Session(Recorded(r), Noted(note)) && Belongs(Noted(note), Recorded(r)) && note.holds == 0
    ensures After(s, first + ops).s == Session(Recorded(r), Noted(note.(holds := |ops|)))
  {
    if ops == [] {
      assert first + ops == first;
    } else {
      var n := |ops| - 1;
      HeldThrough(s, first, ops[..n], r, note);
      assert (first + ops)[..|first + ops| - 1] == first + ops[..n];
    }
  }

  /**
   A review that was recorded and then seen to complete is claimed, after up to three held deferrals, by whatever prompt
   matches it while its ticket is issued.
   */
  lemma FinishedReviewIsClaimed(s: Session, launch: Op, arrive: Op, holds: seq<Op>, op: Op)
    requires !s.note.Unreadable? && Reaches(launch) && launch.written
    requires arrive.Arrive? && arrive.accepted && arrive.written && SaysCompleted(arrive.lines, launch.agent.value)
    requires |holds| <= MAX_ARRIVAL_HOLDS && Holdings(holds, Record(launch.agent.value, launch.ticket.value, launch.now))
    requires op.Match? && op.prompt.Some? && op.stored && op.issued == launch.ticket
    ensures var t := After(s, [launch, arrive] + holds).s;
      && Apply(t, op).0 == t && Apply(t, op).1.Judged? && Apply(t, op).1.verdict.Claim?
      && Apply(t, op).1.verdict.record == Record(launch.agent.value, launch.ticket.value, launch.now)
      && (SaysCompleted(op.prompt.value, launch.agent.value) || Apply(t, op).1.verdict.arrival == KindIn(arrive.lines, launch.agent.value))
  {
    var r := Record(launch.agent.value, launch.ticket.value, launch.now);
    var note := Note(r.agent, r.ticket, KindIn(arrive.lines, r.agent), arrive.now, 0);
    assert [launch, arrive][..1] == [launch] && [launch][..0] == [];
    assert After(s, [launch]).s == Session(Recorded(r), NoNote);
    DoneIsNoted(Session(Recorded(r), NoNote), r, arrive);
    assert After(s, [launch, arrive]).s == Session(Recorded(r), Noted(note));
    HeldThrough(s, [launch, arrive], holds, r, note);
    MatchIsAnswered(After(s, [launch, arrive] + holds).s, op);
  }
}
