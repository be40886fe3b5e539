/**
 * What `begin` and `checkpoint` do to the bytes of the active receipt. A legacy receipt, from before goals were scoped,
 * is archived under the name of its digest before a new one replaces it; a goal-scoped one is saved over in place. The
 * digest is any function of the bytes, so two receipts may share one; every step may be the last before a crash.
 */
module ReceiptArchive {
  import opened Text

  type Bytes = seq<int>

  type Digest = int

  /** How receipts are read: their digest, and whether they are legacy ones. */
  datatype Rules = Rules(hash: Bytes -> Digest, legacy: Bytes -> bool)

  /** The client under the session's lock, by the step it takes next. */
  datatype Pc =
    | Idle
    | HasRead(had: Option<Bytes>)      // save the paused mark on a goal-scoped receipt
    | Marked(had: Option<Bytes>)       // decide between the same task and another one
    | HaveRaw(raw: Bytes)              // look whether the digest is archived
    | Absent(raw: Bytes)               // create a private file
    | Writing(raw: Bytes, tmp: nat)    // write it, perhaps in pieces
    | Full(raw: Bytes, tmp: nat)       // link it under the digest
    | Linked(raw: Bytes, tmp: nat)     // unlink the private name
    | Archived(raw: Bytes)             // replace the legacy receipt
    | Detaching                        // replace a goal-scoped receipt, or write the first one
    | Begun                            // save the receipt without the mark

  datatype State = State(
    active: Option<Bytes>,
    archive: map<Digest, Bytes>,
    tmps: map<nat, Bytes>,
    pc: Pc,
    next: nat,
    owed: set<Bytes>)   // history: every legacy receipt that a `begin` found active

  datatype Step =
    | Older(receipt: Bytes)      // a client from before goal scopes leaves its receipt
    | Begin
    | Mark(receipt: Bytes)
    | SameTask
    | OtherTask
    | Look
    | Create
    | Write(n: nat)
    | Sync
    | Link
    | Unlink
    | Replace(receipt: Bytes)
    | Resume(receipt: Bytes)
    | Checkpoint(receipt: Bytes) // a submission is made pending, or was acknowledged
    | Fail                       // an exception: the private file is removed
    | Crash                      // the private file stays behind
    | Rival(bytes: Bytes)        // another archiver links a complete receipt

  const INIT := State(None, map[], map[], Idle, 0, {})

  function Cleanup(s: State): State
  {
    var t := if s.pc.Writing? || s.pc.Full? || s.pc.Linked? then s.(tmps := s.tmps - {s.pc.tmp}) else s;
    t.(pc := Idle)
  }

  predicate HasLegacy(rules: Rules, had: Option<Bytes>)
  {
    had.Some? && rules.legacy(had.value)
  }

  /** The steps of `begin` and `checkpoint` around the archive. */
  function DoSave(rules: Rules, s: State, step: Step): Option<State>
  {
    match step
    case Older(receipt) =>
      if !s.pc.Idle? || s.active.Some? || !rules.legacy(receipt) then None else Some(s.(active := Some(receipt)))
    case Begin =>
      if !s.pc.Idle? then None
      else Some(s.(pc := HasRead(s.active), owed := s.owed + if HasLegacy(rules, s.active) then {s.active.value} else {}))
    case Mark(receipt) =>
      if !s.pc.HasRead? || rules.legacy(receipt) then None
      else if s.pc.had.None? || HasLegacy(rules, s.pc.had) then Some(s.(pc := Marked(s.pc.had)))
      else Some(s.(active := Some(receipt), pc := Marked(Some(receipt))))
    case SameTask =>
      if !s.pc.Marked? || s.pc.had.None? || HasLegacy(rules, s.pc.had) then None else Some(s.(pc := Begun))
    case OtherTask =>
      if !s.pc.Marked? then None
      else Some(s.(pc := if HasLegacy(rules, s.pc.had) then HaveRaw(s.pc.had.value) else Detaching))
    case Replace(receipt) =>
      if (!s.pc.Archived? && !s.pc.Detaching?) || rules.legacy(receipt) then None
      else Some(s.(pc := Begun, active := Some(receipt)))
    case Resume(receipt) =>
      if !s.pc.Begun? || rules.legacy(receipt) then None else Some(s.(pc := Idle, active := Some(receipt)))
    case Checkpoint(receipt) =>
      if !s.pc.Idle? || s.active.None? || HasLegacy(rules, s.active) || rules.legacy(receipt) then None
      else Some(s.(active := Some(receipt)))
    case _ => None
  }

  /** The steps of the archive itself, and those that anything may be followed by. */
  function Do(rules: Rules, s: State, step: Step): Option<State>
  {
    match step
    case Look =>
      if !s.pc.HaveRaw? then None else
      var d := rules.hash(s.pc.raw);
      if d !in s.archive then Some(s.(pc := Absent(s.pc.raw)))
      else if s.archive[d] == s.pc.raw then Some(s.(pc := Archived(s.pc.raw)))
      else Some(s.(pc := Idle))
    case Create =>
      if !s.pc.Absent? then None
      else Some(s.(pc := Writing(s.pc.raw, s.next), tmps := s.tmps[s.next := []], next := s.next + 1))
    case Write(n) =>
      if !s.pc.Writing? || n > |s.pc.raw| then None else Some(s.(tmps := s.tmps[s.pc.tmp := s.pc.raw[..n]]))
    case Sync =>
      if !s.pc.Writing? || s.pc.tmp !in s.tmps || s.tmps[s.pc.tmp] != s.pc.raw then None
      else Some(s.(pc := Full(s.pc.raw, s.pc.tmp)))
    case Link =>
      if !s.pc.Full? || s.pc.tmp !in s.tmps then None
      else if rules.hash(s.pc.raw) in s.archive then Some(Cleanup(s))
      else Some(s.(pc := Linked(s.pc.raw, s.pc.tmp), archive := s.archive[rules.hash(s.pc.raw) := s.tmps[s.pc.tmp]]))
    case Unlink =>
      if !s.pc.Linked? then None else Some(s.(pc := Archived(s.pc.raw), tmps := s.tmps - {s.pc.tmp}))
    case Fail => if s.pc.Idle? then None else Some(Cleanup(s))
    case Crash => Some(s.(pc := Idle))
    case Rival(bytes) =>
      if rules.hash(bytes) in s.archive then Some(s) else Some(s.(archive := s.archive[rules.hash(bytes) := bytes]))
    case _ => DoSave(rules, s, step)
  }

  function Run(rules: Rules, steps: seq<Step>): Option<State>
  {
    if steps == [] then Some(INIT) else
    var s := Run(rules, steps[..|steps| - 1]);
    if s.None? then None else Do(rules, s.value, steps[|steps| - 1])
  }

  ghost predicate InArchive(rules: Rules, s: State, raw: Bytes)
  {
    rules.hash(raw) in s.archive && s.archive[rules.hash(raw)] == raw
  }

  /** The receipt is kept: still active, or archived under its own digest. */
  ghost predicate Kept(rules: Rules, s: State, raw: Bytes)
  {
    s.active == Some(raw) || InArchive(rules, s, raw)
  }

  /** What the client works on is what is active. */
  ghost predicate InStep(rules: Rules, s: State)
  {
    match s.pc
    case Idle => true
    case HasRead(had) => s.active == had
    case Marked(had) => s.active == had
    case HaveRaw(raw) => s.active == Some(raw)
    case Absent(raw) => s.active == Some(raw)
    case Writing(raw, _) => s.active == Some(raw)
    case Full(raw, tmp) => s.active == Some(raw) && tmp in s.tmps && s.tmps[tmp] == raw
    case Linked(raw, _) => s.active == Some(raw) && InArchive(rules, s, raw)
    case Archived(raw) => s.active == Some(raw) && InArchive(rules, s, raw)
    case Detaching => !HasLegacy(rules, s.active)
    case Begun => !HasLegacy(rules, s.active)
  }

  ghost predicate Inv(rules: Rules, s: State)
  {
    && (forall raw :: raw in s.owed ==> rules.legacy(raw) && Kept(rules, s, raw))
    && (forall d :: d in s.archive ==> rules.hash(s.archive[d]) == d)
    && InStep(rules, s)
  }

  /** A legacy receipt leaves the active file only when it is archived, and nothing archived is ever lost. */
  lemma DoKeepsBytes(rules: Rules, s: State, step: Step, t: State)
    requires InStep(rules, s) && Do(rules, s, step) == Some(t)
    ensures InStep(rules, t)
    ensures HasLegacy(rules, s.active) ==> t.active == s.active || InArchive(rules, t, s.active.value)
    ensures forall d :: d in s.archive ==> d in t.archive && t.archive[d] == s.archive[d]
    ensures s.owed <= t.owed
  {
  }

  lemma DoKeepsInv(rules: Rules, s: State, step: Step, t: State)
    requires Inv(rules, s) && Do(rules, s, step) == Some(t)
    ensures Inv(rules, t)
  {
    DoKeepsBytes(rules, s, step, t);
    forall raw | raw in t.owed ensures rules.legacy(raw) && Kept(rules, t, raw) {
      if raw in s.owed { assert Kept(rules, s, raw); }
    }
  }

  lemma {:induction false} RunKeepsInv(rules: Rules, steps: seq<Step>)
    requires Run(rules, steps).Some?
    ensures Inv(rules, Run(rules, steps).value)
  {
    if steps != [] {
      var before := steps[..|steps| - 1];
      RunKeepsInv(rules, before);
      DoKeepsInv(rules, Run(rules, before).value, steps[|steps| - 1], Run(rules, steps).value);
    }
  }

  lemma {:induction false} ArchiveOnlyGrows(rules: Rules, steps: seq<Step>, n: nat)
    requires Run(rules, steps).Some? && n <= |steps|
    ensures Run(rules, steps[..n]).Some?
    ensures var s, t := Run(rules, steps[..n]).value, Run(rules, steps).value;
      && (forall d :: d in s.archive ==> d in t.archive && t.archive[d] == s.archive[d])
      && s.owed <= t.owed
    decreases |steps|
  {
    if n == |steps| {
      assert steps[..n] == steps;
    } else {
      var before := steps[..|steps| - 1];
      assert before[..n] == steps[..n];
      ArchiveOnlyGrows(rules, before, n);
      RunKeepsInv(rules, before);
      DoKeepsBytes(rules, Run(rules, before).value, steps[|steps| - 1], Run(rules, steps).value);
    }
  }

  /** The state before step `n` of a run. */
  function StateAt(rules: Rules, steps: seq<Step>, n: nat): State
    requires Run(rules, steps).Some? && n <= |steps|
  {
    ArchiveOnlyGrows(rules, steps, n);
    Run(rules, steps[..n]).value
  }

  /** Through any crash, a legacy receipt that a `begin` found active is afterwards active or archived, byte for byte. */
  lemma ReceiptIsNeverLost(rules: Rules, steps: seq<Step>, n: nat, raw: Bytes)
    requires Run(rules, steps).Some? && n < |steps| && steps[n] == Begin
    requires StateAt(rules, steps, n).active == Some(raw) && rules.legacy(raw)
    ensures Kept(rules, Run(rules, steps).value, raw)
  {
    assert steps[..n + 1][..n] == steps[..n];
    ArchiveOnlyGrows(rules, steps, n);
    ArchiveOnlyGrows(rules, steps, n + 1);
    RunKeepsInv(rules, steps);
  }

  /** An archived name holds complete bytes with that digest, and never changes. */
  lemma ArchivedNamesAreComplete(rules: Rules, steps: seq<Step>, n: nat, d: Digest)
    requires Run(rules, steps).Some? && n <= |steps| && d in StateAt(rules, steps, n).archive
    ensures d in Run(rules, steps).value.archive
    ensures Run(rules, steps).value.archive[d] == StateAt(rules, steps, n).archive[d]
    ensures rules.hash(Run(rules, steps).value.archive[d]) == d
  {
    ArchiveOnlyGrows(rules, steps, n);
    RunKeepsInv(rules, steps);
  }

  /** A legacy receipt is detached only once its own bytes are archived; on a digest collision it stays active. */
  lemma DetachedOnlyAfterArchiving(rules: Rules, steps: seq<Step>, step: Step, t: State, raw: Bytes)
    requires Run(rules, steps).Some? && Do(rules, Run(rules, steps).value, step) == Some(t)
    requires Run(rules, steps).value.active == Some(raw) && rules.legacy(raw) && t.active != Some(raw)
    ensures InArchive(rules, t, raw) && !HasLegacy(rules, t.active)
  {
    RunKeepsInv(rules, steps);
    DoKeepsBytes(rules, Run(rules, steps).value, step, t);
  }

  // ----- What happens when nothing fails -----

  lemma Extend(rules: Rules, steps: seq<Step>, s: State, step: Step) returns (more: seq<Step>, t: State)
    requires Run(rules, steps) == Some(s) && Do(rules, s, step).Some?
    ensures more == steps + [step] && Do(rules, s, step) == Some(t) && Run(rules, more) == Some(t)
  {
    more, t := steps + [step], Do(rules, s, step).value;
    assert more[..|more| - 1] == steps;
  }

  function Looking(mark: Bytes): seq<Step> { [Begin, Mark(mark), OtherTask, Look] }

  function WritingSteps(raw: Bytes): seq<Step> { [Create, Write(|raw|), Sync, Link, Unlink] }

  function Replacing(receipt: Bytes, last: Bytes): seq<Step> { [Replace(receipt), Resume(last)] }

  /** What a `begin` for another task does alone, by what the archive holds under the digest. */
  function AloneSteps(rules: Rules, s: State, raw: Bytes, mark: Bytes, receipt: Bytes, last: Bytes): seq<Step>
  {
    var d := rules.hash(raw);
    Looking(mark) +
    if d !in s.archive then WritingSteps(raw) + Replacing(receipt, last)
    else if s.archive[d] == raw then Replacing(receipt, last) else []
  }

  /** A `begin` for another task looks for the digest of the legacy receipt it found. */
  lemma BeginLooks(rules: Rules, steps: seq<Step>, s: State, raw: Bytes, mark: Bytes) returns (t: State)
    requires Run(rules, steps) == Some(s) && s.pc.Idle? && s.active == Some(raw) && rules.legacy(raw) && !rules.legacy(mark)
    ensures Run(rules, steps + Looking(mark)) == Some(t)
    ensures t.active == Some(raw) && t.archive == s.archive && t.tmps == s.tmps && t.next == s.next
    ensures var d := rules.hash(raw);
      t.pc == if d !in s.archive then Absent(raw) else if s.archive[d] == raw then Archived(raw) else Idle
  {
    var more, u := Extend(rules, steps, s, Begin);
    more, u := Extend(rules, more, u, Mark(mark));
    more, u := Extend(rules, more, u, OtherTask);
    more, u := Extend(rules, more, u, Look);
    t := u;
    assert more == steps + Looking(mark);
  }

  /** When the digest is free, its bytes are written, linked under it, and the private name removed. */
  lemma WritesFile(rules: Rules, steps: seq<Step>, s: State, raw: Bytes) returns (more: seq<Step>, t: State)
    requires Run(rules, steps) == Some(s) && s.pc == Absent(raw) && s.next !in s.tmps
    ensures more == steps + [Create, Write(|raw|), Sync] && Run(rules, more) == Some(t)
    ensures t.pc == Full(raw, s.next) && t.tmps == s.tmps[s.next := raw] && t.archive == s.archive && t.active == s.active
  {
    more, t := Extend(rules, steps, s, Create);
    more, t := Extend(rules, more, t, Write(|raw|));
    assert raw[..|raw|] == raw;
    more, t := Extend(rules, more, t, Sync);
  }

  lemma WritesArchive(rules: Rules, steps: seq<Step>, s: State, raw: Bytes) returns (t: State)
    requires Run(rules, steps) == Some(s) && s.pc == Absent(raw) && rules.hash(raw) !in s.archive && s.next !in s.tmps
    ensures Run(rules, steps + WritingSteps(raw)) == Some(t)
    ensures t.pc == Archived(raw) && t.active == s.active && t.archive == s.archive[rules.hash(raw) := raw] && t.tmps == s.tmps
  {
    var more, u := WritesFile(rules, steps, s, raw);
    more, u := Extend(rules, more, u, Link);
    more, u := Extend(rules, more, u, Unlink);
    t := u;
    assert more == steps + WritingSteps(raw);
    assert s.tmps[s.next := raw] - {s.next} == s.tmps;
  }

  /** Then the new receipt takes the place of the legacy one. */
  lemma ReplacesArchived(rules: Rules, steps: seq<Step>, s: State, raw: Bytes, receipt: Bytes, last: Bytes) returns (t: State)
    requires Run(rules, steps) == Some(s) && s.pc == Archived(raw) && !rules.legacy(receipt) && !rules.legacy(last)
    ensures Run(rules, steps + Replacing(receipt, last)) == Some(t)
    ensures t.pc == Idle && t.active == Some(last) && t.archive == s.archive && t.tmps == s.tmps
  {
    var more, u := Extend(rules, steps, s, Replace(receipt));
    more, u := Extend(rules, more, u, Resume(last));
    t := u;
    assert more == steps + Replacing(receipt, last);
  }

  /**
   From every reachable state with a legacy receipt, a `begin` for another task that runs alone: when the digest is free,
   the receipt ends up archived under it and replaced, with no private file left; when it holds the same bytes, the
   receipt is replaced; when it holds others, it stays active.
   */
  lemma AloneArchivesAndReplaces(rules: Rules, steps: seq<Step>, s: State, raw: Bytes, mark: Bytes, receipt: Bytes, last: Bytes)
    returns (t: State)
    requires Run(rules, steps) == Some(s) && s.pc.Idle? && s.active == Some(raw)
    requires rules.legacy(raw) && !rules.legacy(mark) && !rules.legacy(receipt) && !rules.legacy(last)
    ensures Run(rules, steps + AloneSteps(rules, s, raw, mark, receipt, last)) == Some(t) && t.pc.Idle? && t.tmps == s.tmps
    ensures var d := rules.hash(raw);
      && t.active == Some(if d in s.archive && s.archive[d] != raw then raw else last)
      && t.archive == if d in s.archive then s.archive else s.archive[d := raw]
  {
    var d, first := rules.hash(raw), steps + Looking(mark);
    TmpsAreOld(rules, steps);
    var u := BeginLooks(rules, steps, s, raw, mark);
    if d !in s.archive {
      var written := WritesArchive(rules, first, u, raw);
      t := ReplacesArchived(rules, first + WritingSteps(raw), written, raw, receipt, last);
      Assoc(first, WritingSteps(raw), Replacing(receipt, last));
      Assoc(steps, Looking(mark), WritingSteps(raw) + Replacing(receipt, last));
    } else if s.archive[d] == raw {
      t := ReplacesArchived(rules, first, u, raw, receipt, last);
      Assoc(steps, Looking(mark), Replacing(receipt, last));
    } else {
      t := u;
      assert Looking(mark) + [] == Looking(mark);
    }
  }

  /** The names of private files are never used again. */
  lemma {:induction false} TmpsAreOld(rules: Rules, steps: seq<Step>)
    requires Run(rules, steps).Some?
    ensures forall tmp :: tmp in Run(rules, steps).value.tmps ==> tmp < Run(rules, steps).value.next
    ensures var pc := Run(rules, steps).value.pc; (pc.Writing? || pc.Full? || pc.Linked?) ==> pc.tmp < Run(rules, steps).value.next
  {
    if steps != [] {
      var before := steps[..|steps| - 1];
      TmpsAreOld(rules, before);
    }
  }
}
