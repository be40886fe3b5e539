/**
 The work-capture client: a receipt file under a lock, a pending submission saved before it is sent, and a server that
 keeps the first submission it gets for an event id. Any step may be the last one before a crash or an exception.
 */
module CaptureProtocol {
  import opened Text
  import ClaimTokens

  type Id = nat

  /** What a goal is scoped to: a product or a reason to cross products; older receipts have no goal in it. */
  datatype Scope = Scope(product: string, reason: string, goal: Option<string>)

  datatype Pending = Pending(event: Id, expectedVersion: nat, artifact: string, criteria: string)

  datatype Receipt = Receipt(
    id: Id, task: string, title: string, criteria: string, scope: Option<Scope>, kind: Option<string>, startHead: string,
    paused: bool, pending: Option<Pending>)

  predicate Legacy(r: Receipt) { r.scope.None? || r.scope.value.goal.None? }

  datatype Submit = Submit(unit: Id, payload: Pending)

  /** What `begin` is called with; the goal is missing when no feature or exception was chosen. */
  datatype Options = Options(
    task: string, title: string, criteria: string, goal: Option<string>, reason: Option<string>, kind: Option<string>)

  function ReasonOf(o: Options): string { if o.reason.Some? then o.reason.value else "" }

  function KindOf(o: Options): string { if o.kind.Some? then o.kind.value else "work" }

  /** What a unit is begun with: the options, the product that was confirmed, and the commit it starts from. */
  datatype Beginning = Beginning(o: Options, product: string, head: string)

  /** A result the server reports for a unit. */
  datatype Result = Result(artifact: string, criteria: string)

  /** The client that holds the lock, by the step it takes next. */
  datatype Client =
    | Idle
    | BeginStart(o: Options)                         // read the receipt
    | BeginRead(o: Options, had: Option<Receipt>)    // save the paused mark
    | BeginMarked(o: Options, had: Option<Receipt>)  // validate the goal
    | BeginNew(o: Options, had: Option<Receipt>)     // read the commit and have the scope confirmed
    | BeginConfirmed(b: Beginning, had: Option<Receipt>)   // archive a legacy receipt
    | BeginArchived(b: Beginning)                    // save a new receipt
    | BeginReady(o: Options, r: Receipt)             // declare the goal remotely, then save without the mark
    | BeginSaved                                     // clear the pause marker
    | CheckStart                                     // look at the marker and read the receipt
    | CheckLoaded(r: Receipt)                        // declare the goal remotely
    | CheckReady(r: Receipt, version: nat, latest: Option<Result>)   // make or keep the pending submission
    | CheckPending(r: Receipt)                       // send it
    | CheckSent(r: Receipt)                          // wait for the acknowledgement
    | CheckAcked(r: Receipt)                         // save without the pending submission
    | Ending                                         // release the lock

  datatype State = State(
    file: Option<Receipt>,
    lock: bool,
    marker: bool,
    archive: set<Receipt>,
    client: Client,
    nextId: Id,
    sent: seq<Submit>,
    acked: set<Id>,
    server: map<Id, Submit>,
    barred: set<Id>,              // history: goals whose paused mark was saved and not yet lifted
    begun: map<Id, Beginning>)    // history: what every goal-scoped unit was begun with

  const INIT := State(None, false, false, {}, Idle, 0, [], {}, map[], {}, map[])

  datatype Step =
    | Older(r: Receipt)          // a client from before goal scopes left its receipt
    | Begin(o: Options)
    | Checkpoint
    | Next                       // the client's next step, succeeding
    | Validate
    | Context(product: string, head: string)             // the scope is confirmed for this product, at this commit
    | Remote(version: nat, latest: Option<Result>)       // `start` and `get` succeed with this version and result
    | Commit(head: string)       // the work tree is clean at this commit
    | Fail                       // an exception or an early return: the lock is released
    | Crash                      // the lock file stays behind
    | Deliver(i: nat)            // the server handles a submission, perhaps long after it was sent or again
    | Pause
    | Recover                    // the command line tool archives the receipt
    | Unlock                     // an operator removes the lock of a crashed client

  function Release(s: State): State { s.(client := Idle, lock := false) }

  function Fresh(id: Id, b: Beginning): Receipt
  {
    var scope := Scope(if ReasonOf(b.o) != "" then "" else b.product, ReasonOf(b.o), b.o.goal);
    Receipt(id, b.o.task, b.o.title, b.o.criteria, Some(scope), Some(KindOf(b.o)), b.head, false, None)
  }

  predicate Control(c: char) { c < ' ' || c == '\U{7f}' }

  predicate IsText(v: string, max: nat)
  {
    ClaimTokens.Trim(v) != "" && |v| <= max && forall c :: c in v ==> !Control(c)
  }

  predicate IsReason(v: string)
  {
    IsText(v, 500) && forall c :: c in v ==> !('\U{7f}' <= c <= '\U{9f}')
  }

  predicate WellFormed(o: Options)
  {
    && KindOf(o) in {"work", "test"} && (o.reason.Some? ==> IsReason(o.reason.value))
    && IsText(o.task, 160) && IsText(o.title, 160) && IsText(o.criteria, 160)
  }

  /** A retry has to keep the goal, the scope, the objective, the criteria and the purpose. */
  predicate SameGoal(r: Receipt, o: Options)
  {
    && r.scope.Some? && r.scope.value.goal == o.goal && r.scope.value.reason == ReasonOf(o)
    && r.title == o.title && r.criteria == o.criteria
    && if r.kind.Some? then r.kind.value == KindOf(o) else o.kind.None?
  }

  /** What validation lets through, and to which step. */
  function Validated(o: Options, had: Option<Receipt>): Option<Client>
  {
    if !WellFormed(o) || o.goal.None? then None
    else if had.Some? && had.value.task == o.task then
      if SameGoal(had.value, o) then Some(BeginReady(o, had.value)) else None
    else if had.Some? && had.value.pending.Some? && !Legacy(had.value) then None
    else Some(BeginNew(o, had))
  }

  /** The next step of `begin`, where it needs no answer from outside. */
  function NextOfBegin(s: State): Option<State>
  {
    match s.client
    case BeginStart(o) => Some(s.(client := BeginRead(o, s.file)))
    case BeginRead(o, had) =>
      if had.Some? && !Legacy(had.value) then
        var r := had.value.(paused := true);
        Some(s.(file := Some(r), client := BeginMarked(o, Some(r)), barred := s.barred + {r.id}))
      else Some(s.(client := BeginMarked(o, had)))
    case BeginConfirmed(b, had) =>
      Some(s.(client := BeginArchived(b),
              archive := if had.Some? && Legacy(had.value) && s.file.Some? then s.archive + {s.file.value} else s.archive))
    case BeginArchived(b) =>
      var r := Fresh(s.nextId, b);
      Some(s.(file := Some(r), client := BeginReady(b.o, r), nextId := s.nextId + 1, begun := s.begun[r.id := b]))
    case BeginSaved => Some(s.(marker := false, client := Ending))
    case _ => None
  }

  /** The next step of `checkpoint`, and the release of the lock. */
  function NextOfCheckpoint(s: State): Option<State>
  {
    match s.client
    case CheckStart =>
      if s.marker || s.file.None? || s.file.value.paused then Some(s.(client := Ending))
      else Some(s.(client := CheckLoaded(s.file.value)))
    case CheckReady(r, _, _) =>
      if r.pending.None? then None else Some(s.(client := CheckPending(r)))
    case CheckPending(r) =>
      if r.pending.None? then None
      else Some(s.(client := CheckSent(r), sent := s.sent + [Submit(r.id, r.pending.value)]))
    case CheckSent(r) =>
      if r.pending.None? || r.pending.value.event !in s.server then None
      else Some(s.(client := CheckAcked(r), acked := s.acked + {r.pending.value.event}))
    case CheckAcked(r) => Some(s.(client := Ending, file := Some(r.(pending := None))))
    case Ending => Some(Release(s))
    case _ => None
  }

  predicate InBegin(c: Client)
  {
    c.BeginStart? || c.BeginRead? || c.BeginMarked? || c.BeginNew? || c.BeginConfirmed? || c.BeginArchived? || c.BeginReady?
    || c.BeginSaved?
  }

  function DoNext(s: State): Option<State>
  {
    if InBegin(s.client) then NextOfBegin(s) else NextOfCheckpoint(s)
  }

  function Do(s: State, step: Step): Option<State>
  {
    match step
    case Older(r) =>
      if s.lock || s.file.Some? || !Legacy(r) || r.id != s.nextId
         || (r.pending.Some? && r.pending.value.event != s.nextId + 1) then None
      else Some(s.(file := Some(r), nextId := s.nextId + 2))
    case Begin(o) => if s.lock then None else Some(s.(client := BeginStart(o), lock := true))
    case Checkpoint => if s.lock then None else Some(s.(client := CheckStart, lock := true))
    case Next => DoNext(s)
    case Context(product, head) =>
      if !s.client.BeginNew? then None
      else Some(s.(client := BeginConfirmed(Beginning(s.client.o, product, head), s.client.had)))
    case Remote(version, latest) =>
      if s.client.BeginReady? then
        var r := s.client.r.(paused := false);
        Some(s.(file := Some(r), client := BeginSaved, barred := s.barred - {r.id}))
      else if s.client.CheckLoaded? && !Legacy(s.client.r) then Some(s.(client := CheckReady(s.client.r, version, latest)))
      else None
    case Commit(head) =>
      if !s.client.CheckReady? || s.client.r.pending.Some? then None
      else if head == s.client.r.startHead || s.client.latest == Some(Result("commit:" + head, s.client.r.criteria)) then
        Some(s.(client := Ending))
      else
        var r := s.client.r.(pending := Some(Pending(s.nextId, s.client.version, "commit:" + head, s.client.r.criteria)));
        Some(s.(file := Some(r), client := CheckPending(r), nextId := s.nextId + 1))
    case Validate =>
      if !s.client.BeginMarked? then None else
      var next := Validated(s.client.o, s.client.had);
      if next.None? then Some(Release(s)) else Some(s.(client := next.value))
    case Fail => if s.client.Idle? then None else Some(Release(s))
    case Crash => if s.client.Idle? then None else Some(s.(client := Idle))
    case Deliver(i) =>
      if i >= |s.sent| then None
      else if s.sent[i].payload.event in s.server then Some(s)
      else Some(s.(server := s.server[s.sent[i].payload.event := s.sent[i]]))
    case Pause => if s.lock then None else Some(s.(marker := true))
    case Recover =>
      if s.lock || s.file.None? then None else Some(s.(archive := s.archive + {s.file.value}, file := None))
    case Unlock => if s.client.Idle? then Some(s.(lock := false)) else None
  }

  function Run(steps: seq<Step>): Option<State>
  {
    if steps == [] then Some(INIT) else
    var s := Run(steps[..|steps| - 1]);
    if s.None? then None else Do(s.value, steps[|steps| - 1])
  }

  // ----- The invariant -----

  /** A submission is settled once it was acknowledged or its receipt was archived with it still pending. */
  ghost predicate Settled(s: State, m: Submit)
  {
    m.payload.event in s.acked || exists r :: r in s.archive && r.id == m.unit && r.pending == Some(m.payload)
  }

  /** The receipt a client works on is the one in the file, as it last saved or read it. */
  ghost predicate InStep(s: State)
  {
    && (!s.client.Idle? ==> s.lock)
    && match s.client
       case BeginRead(_, had) => s.file == had
       case BeginMarked(_, had) => s.file == had && (had.Some? && !Legacy(had.value) ==> had.value.paused)
       case BeginNew(o, had) => s.file == had && o.goal.Some? && (had.Some? && had.value.pending.Some? ==> Legacy(had.value))
       case BeginConfirmed(b, had) =>
         s.file == had && b.o.goal.Some? && (had.Some? && had.value.pending.Some? ==> Legacy(had.value))
       case BeginArchived(b) => b.o.goal.Some? && (s.file.Some? && s.file.value.pending.Some? ==> s.file.value in s.archive)
       case BeginReady(o, r) => s.file == Some(r) && !Legacy(r) && r.task == o.task
       case CheckLoaded(r) => s.file == Some(r) && !r.paused && !s.marker
       case CheckReady(r, _, _) => s.file == Some(r) && !r.paused && !s.marker && !Legacy(r)
       case CheckPending(r) => s.file == Some(r) && !r.paused && !s.marker && !Legacy(r) && r.pending.Some?
       case CheckSent(r) => s.file == Some(r) && !r.paused && !s.marker && !Legacy(r) && r.pending.Some?
       case CheckAcked(r) =>
         s.file == Some(r) && !r.paused && !s.marker && !Legacy(r) && r.pending.Some? && r.pending.value.event in s.acked
       case _ => true
  }

  ghost predicate FreshIds(s: State)
  {
    && (s.file.Some? ==> s.file.value.id < s.nextId)
    && (s.file.Some? && s.file.value.pending.Some? ==> s.file.value.pending.value.event < s.nextId)
    && (forall i :: 0 <= i < |s.sent| ==> s.sent[i].payload.event < s.nextId)
    && (forall x :: x in s.barred ==> x < s.nextId)
  }

  ghost predicate OneIntent(s: State)
  {
    && (forall i, j :: 0 <= i < |s.sent| && 0 <= j < |s.sent| && s.sent[i].payload.event == s.sent[j].payload.event ==>
          s.sent[i] == s.sent[j])
    && (s.file.Some? && s.file.value.pending.Some? ==>
          forall i :: 0 <= i < |s.sent| && s.sent[i].payload.event == s.file.value.pending.value.event ==>
            s.sent[i] == Submit(s.file.value.id, s.file.value.pending.value))
    && (forall i :: 0 <= i < |s.sent| ==> Settled(s, s.sent[i]) || Outstanding(s, s.sent[i]))
  }

  /** The submission is the one the receipt in the file still has pending. */
  predicate Outstanding(s: State, m: Submit)
  {
    s.file.Some? && s.file.value.id == m.unit && s.file.value.pending == Some(m.payload)
  }

  ghost predicate ServerOk(s: State)
  {
    && (forall e :: e in s.server ==> exists i :: 0 <= i < |s.sent| && s.sent[i] == s.server[e] && s.sent[i].payload.event == e)
    && (forall e :: e in s.acked ==> e in s.server)
  }

  ghost predicate Barred(s: State)
  {
    s.file.Some? && s.file.value.id in s.barred ==> s.file.value.paused
  }

  /** The options of a retry agree with those that the unit was begun with. */
  predicate Agrees(o: Options, first: Options)
  {
    && o.task == first.task && o.title == first.title && o.criteria == first.criteria
    && o.goal == first.goal && ReasonOf(o) == ReasonOf(first) && KindOf(o) == KindOf(first)
  }

  /** The receipt is as it was first saved, except for the mark and what is pending. */
  ghost predicate AsBegun(s: State, r: Receipt)
  {
    && r.id in s.begun && r == Fresh(r.id, s.begun[r.id]).(paused := r.paused, pending := r.pending)
    && (r.pending.Some? ==> r.pending.value.criteria == r.criteria)
  }

  ghost predicate Faithful(s: State)
  {
    && (forall x :: x in s.begun ==> x < s.nextId)
    && (s.file.Some? && !Legacy(s.file.value) ==> AsBegun(s, s.file.value))
    && (s.client.BeginReady? ==> s.client.r.id in s.begun && Agrees(s.client.o, s.begun[s.client.r.id].o))
    && (forall i :: 0 <= i < |s.sent| ==>
          s.sent[i].unit in s.begun && s.sent[i].payload.criteria == s.begun[s.sent[i].unit].o.criteria)
  }

  ghost predicate Inv(s: State)
  {
    InStep(s) && FreshIds(s) && OneIntent(s) && ServerOk(s) && Barred(s) && Faithful(s)
  }

  lemma DoKeepsFaithful(s: State, step: Step, t: State)
    requires InStep(s) && FreshIds(s) && Faithful(s) && Do(s, step) == Some(t)
    ensures Faithful(t)
  {
    SentGrows(s, step, t);
    BegunGrows(s, step, t);
    FileIsAsBegun(s, step, t);
    if t.client.BeginReady? { ReadyAgrees(s, step, t); }
  }

  /** A unit is begun when its receipt is first saved, and what it was begun with stays. */
  lemma NextBegunGrows(s: State, t: State)
    requires DoNext(s) == Some(t)
    ensures (t.begun == s.begun && t.nextId == s.nextId)
      || (s.client.BeginArchived? && t.begun == s.begun[s.nextId := s.client.b] && t.nextId == s.nextId + 1)
  {
  }

  lemma BegunGrows(s: State, step: Step, t: State)
    requires Do(s, step) == Some(t)
    ensures (t.begun == s.begun && t.nextId >= s.nextId)
      || (step.Next? && s.client.BeginArchived? && t.begun == s.begun[s.nextId := s.client.b] && t.nextId == s.nextId + 1)
  {
    if step.Next? { NextBegunGrows(s, t); }
  }

  lemma BeginFileIsAsBegun(s: State, t: State)
    requires InStep(s) && Faithful(s) && InBegin(s.client) && NextOfBegin(s) == Some(t)
    ensures t.file.Some? && !Legacy(t.file.value) ==> AsBegun(t, t.file.value)
  {
  }

  lemma CheckpointFileIsAsBegun(s: State, t: State)
    requires InStep(s) && Faithful(s) && !InBegin(s.client) && NextOfCheckpoint(s) == Some(t)
    ensures t.file.Some? && !Legacy(t.file.value) ==> AsBegun(t, t.file.value)
  {
  }

  lemma NextFileIsAsBegun(s: State, t: State)
    requires InStep(s) && Faithful(s) && DoNext(s) == Some(t)
    ensures t.file.Some? && !Legacy(t.file.value) ==> AsBegun(t, t.file.value)
  {
    if InBegin(s.client) { BeginFileIsAsBegun(s, t); } else { CheckpointFileIsAsBegun(s, t); }
  }

  lemma FileIsAsBegun(s: State, step: Step, t: State)
    requires InStep(s) && Faithful(s) && Do(s, step) == Some(t)
    ensures t.file.Some? && !Legacy(t.file.value) ==> AsBegun(t, t.file.value)
  {
    if step.Next? { NextFileIsAsBegun(s, t); }
  }

  lemma NextReadyAgrees(s: State, t: State)
    requires InStep(s) && Faithful(s) && DoNext(s) == Some(t) && t.client.BeginReady?
    ensures t.client.r.id in t.begun && Agrees(t.client.o, t.begun[t.client.r.id].o)
  {
  }

  lemma ReadyAgrees(s: State, step: Step, t: State)
    requires InStep(s) && Faithful(s) && Do(s, step) == Some(t) && t.client.BeginReady?
    ensures t.client.r.id in t.begun && Agrees(t.client.o, t.begun[t.client.r.id].o)
  {
    if step.Next? { NextReadyAgrees(s, t); }
  }

  lemma NextKeepsInStep(s: State, t: State)
    requires InStep(s) && DoNext(s) == Some(t)
    ensures InStep(t)
  {
  }

  lemma DoKeepsInStep(s: State, step: Step, t: State)
    requires InStep(s) && Do(s, step) == Some(t)
    ensures InStep(t)
  {
    if step.Next? { NextKeepsInStep(s, t); }
  }

  lemma DoKeepsFresh(s: State, step: Step, t: State)
    requires InStep(s) && FreshIds(s) && Do(s, step) == Some(t)
    ensures FreshIds(t)
  {
    FreshFile(s, step, t);
    SentGrows(s, step, t);
    BarredGrows(s, step, t);
  }

  lemma BeginFreshFile(s: State, t: State)
    requires InStep(s) && FreshIds(s) && InBegin(s.client) && NextOfBegin(s) == Some(t)
    ensures t.nextId >= s.nextId
    ensures t.file.Some? ==> t.file.value.id < t.nextId
    ensures t.file.Some? && t.file.value.pending.Some? ==> t.file.value.pending.value.event < t.nextId
  {
  }

  lemma CheckpointFreshFile(s: State, t: State)
    requires InStep(s) && FreshIds(s) && !InBegin(s.client) && NextOfCheckpoint(s) == Some(t)
    ensures t.nextId >= s.nextId
    ensures t.file.Some? ==> t.file.value.id < t.nextId
    ensures t.file.Some? && t.file.value.pending.Some? ==> t.file.value.pending.value.event < t.nextId
  {
  }

  lemma NextFreshFile(s: State, t: State)
    requires InStep(s) && FreshIds(s) && DoNext(s) == Some(t)
    ensures t.nextId >= s.nextId
    ensures t.file.Some? ==> t.file.value.id < t.nextId
    ensures t.file.Some? && t.file.value.pending.Some? ==> t.file.value.pending.value.event < t.nextId
  {
    if InBegin(s.client) { BeginFreshFile(s, t); } else { CheckpointFreshFile(s, t); }
  }

  lemma FreshFile(s: State, step: Step, t: State)
    requires InStep(s) && FreshIds(s) && Do(s, step) == Some(t)
    ensures t.nextId >= s.nextId
    ensures t.file.Some? ==> t.file.value.id < t.nextId
    ensures t.file.Some? && t.file.value.pending.Some? ==> t.file.value.pending.value.event < t.nextId
  {
    if step.Next? { NextFreshFile(s, t); }
  }

  lemma BarredGrows(s: State, step: Step, t: State)
    requires InStep(s) && Do(s, step) == Some(t)
    ensures forall x :: x in t.barred ==> x in s.barred || (s.file.Some? && s.file.value.id == x)
  {
    if step.Next? { NextBarredGrows(s, t); }
  }

  lemma NextBarredGrows(s: State, t: State)
    requires InStep(s) && DoNext(s) == Some(t)
    ensures forall x :: x in t.barred ==> x in s.barred || (s.file.Some? && s.file.value.id == x)
  {
  }

  lemma NextKeepsBarred(s: State, t: State)
    requires InStep(s) && FreshIds(s) && Barred(s) && DoNext(s) == Some(t)
    ensures Barred(t)
  {
  }

  lemma DoKeepsBarred(s: State, step: Step, t: State)
    requires InStep(s) && FreshIds(s) && Barred(s) && Do(s, step) == Some(t)
    ensures Barred(t)
  {
    if step.Next? { NextKeepsBarred(s, t); }
  }

  /** Only the pending submission of the file is ever sent, and it is the one that was pending before. */
  lemma SentGrows(s: State, step: Step, t: State)
    requires InStep(s) && Do(s, step) == Some(t)
    ensures t.sent == s.sent
      || (s.file.Some? && !Legacy(s.file.value) && s.file.value.pending.Some? && t.file == s.file
          && t.sent == s.sent + [Submit(s.file.value.id, s.file.value.pending.value)])
  {
    if step.Next? { NextSentGrows(s, t); }
  }

  lemma NextSentGrows(s: State, t: State)
    requires InStep(s) && DoNext(s) == Some(t)
    ensures t.sent == s.sent
      || (s.file.Some? && !Legacy(s.file.value) && s.file.value.pending.Some? && t.file == s.file
          && t.sent == s.sent + [Submit(s.file.value.id, s.file.value.pending.value)])
  {
  }

  /** What is pending after the step was pending before it, or its event is new. */
  lemma PendingStays(s: State, step: Step, t: State)
    requires InStep(s) && Do(s, step) == Some(t) && t.file.Some? && t.file.value.pending.Some?
    ensures t.file.value.pending.value.event >= s.nextId
      || (s.file.Some? && s.file.value.id == t.file.value.id && s.file.value.pending == t.file.value.pending)
  {
    if step.Next? { NextPendingStays(s, t); }
  }

  lemma NextPendingStays(s: State, t: State)
    requires InStep(s) && DoNext(s) == Some(t) && t.file.Some? && t.file.value.pending.Some?
    ensures t.file.value.pending.value.event >= s.nextId
      || (s.file.Some? && s.file.value.id == t.file.value.id && s.file.value.pending == t.file.value.pending)
  {
  }

  /** Settled stays settled; what was outstanding stays so, or is settled by the step that ends it. */
  lemma DoKeepsOneIntent(s: State, step: Step, t: State)
    requires Inv(s) && Do(s, step) == Some(t)
    ensures OneIntent(t)
  {
    SentGrows(s, step, t);
    forall i | 0 <= i < |s.sent| ensures Settled(t, s.sent[i]) || Outstanding(t, s.sent[i]) {
      StaysSettled(s, step, t, s.sent[i]);
    }
    if t.file.Some? && t.file.value.pending.Some? { PendingStays(s, step, t); }
    OneIntentOf(s, t);
  }

  lemma OneIntentOf(s: State, t: State)
    requires OneIntent(s) && FreshIds(s)
    requires t.sent == s.sent
      || (s.file.Some? && s.file.value.pending.Some? && t.file == s.file
          && t.sent == s.sent + [Submit(s.file.value.id, s.file.value.pending.value)])
    requires forall i :: 0 <= i < |s.sent| ==> Settled(t, s.sent[i]) || Outstanding(t, s.sent[i])
    requires t.file.Some? && t.file.value.pending.Some? ==>
      t.file.value.pending.value.event >= s.nextId
      || (s.file.Some? && s.file.value.id == t.file.value.id && s.file.value.pending == t.file.value.pending)
    ensures OneIntent(t)
  {
  }

  lemma HistoryGrows(s: State, step: Step, t: State)
    requires Do(s, step) == Some(t)
    ensures s.acked <= t.acked && s.archive <= t.archive
  {
    if step.Next? { NextHistoryGrows(s, t); }
  }

  lemma NextHistoryGrows(s: State, t: State)
    requires DoNext(s) == Some(t)
    ensures s.acked <= t.acked && s.archive <= t.archive
  {
  }

  lemma StaysSettled(s: State, step: Step, t: State, m: Submit)
    requires Inv(s) && Do(s, step) == Some(t) && m in s.sent
    ensures Settled(t, m) || Outstanding(t, m)
  {
    HistoryGrows(s, step, t);
    if !Settled(s, m) {
      var i :| 0 <= i < |s.sent| && s.sent[i] == m;
      assert Outstanding(s, m);
      OutstandingStays(s, step, t, m);
    }
  }

  lemma OutstandingStays(s: State, step: Step, t: State, m: Submit)
    requires InStep(s) && Do(s, step) == Some(t) && Outstanding(s, m)
    ensures Settled(t, m) || Outstanding(t, m)
  {
    if step.Recover? { assert s.file.value in t.archive; }
  }

  lemma DoKeepsServer(s: State, step: Step, t: State)
    requires InStep(s) && ServerOk(s) && Do(s, step) == Some(t)
    ensures ServerOk(t)
  {
    SentGrows(s, step, t);
    ServerLearns(s, step, t);
    forall e | e in t.server ensures exists i :: 0 <= i < |t.sent| && t.sent[i] == t.server[e] && t.sent[i].payload.event == e {
      if e in s.server {
        var i :| 0 <= i < |s.sent| && s.sent[i] == s.server[e] && s.sent[i].payload.event == e;
        assert t.sent[i] == s.sent[i];
      } else {
        assert t.sent[step.i].payload.event == e;
      }
    }
  }

  /** The server keeps what it has and learns only from deliveries; only what it has is acknowledged. */
  lemma ServerLearns(s: State, step: Step, t: State)
    requires InStep(s) && Do(s, step) == Some(t)
    ensures forall e :: e in s.server ==> e in t.server && t.server[e] == s.server[e]
    ensures forall e :: e in t.server && e !in s.server ==>
      step.Deliver? && step.i < |s.sent| && s.sent[step.i].payload.event == e && t.server[e] == s.sent[step.i]
    ensures forall e :: e in t.acked ==> e in s.acked || e in s.server
  {
    if step.Next? { NextServerLearns(s, t); }
  }

  lemma NextServerLearns(s: State, t: State)
    requires InStep(s) && DoNext(s) == Some(t)
    ensures t.server == s.server && forall e :: e in t.acked ==> e in s.acked || e in s.server
  {
  }

  /** The invariant is inductive. */
  lemma {:induction false} RunKeepsInv(steps: seq<Step>)
    requires Run(steps).Some?
    ensures Inv(Run(steps).value)
  {
    if steps != [] {
      var before := steps[..|steps| - 1];
      var s, step, t := Run(before).value, steps[|steps| - 1], Run(steps).value;
      RunKeepsInv(before);
      DoKeepsInStep(s, step, t);
      DoKeepsFresh(s, step, t);
      DoKeepsOneIntent(s, step, t);
      DoKeepsServer(s, step, t);
      DoKeepsBarred(s, step, t);
      DoKeepsFaithful(s, step, t);
    }
  }

  // ----- What every run guarantees -----

  /** The step sends a submission of this receipt. */
  predicate Sends(s: State, step: Step, r: Receipt)
  {
    step.Next? && s.client == CheckPending(r)
  }

  /** All submissions made for one event are the same one, whatever crashed or got lost between them. */
  lemma SubmissionsAgree(steps: seq<Step>, i: nat, j: nat)
    requires Run(steps).Some? && i < |Run(steps).value.sent| && j < |Run(steps).value.sent|
    requires Run(steps).value.sent[i].payload.event == Run(steps).value.sent[j].payload.event
    ensures Run(steps).value.sent[i] == Run(steps).value.sent[j]
  {
    RunKeepsInv(steps);
  }

  /** When a submission is sent, every other event sent before was acknowledged or its receipt was archived. */
  lemma NextEventWaits(steps: seq<Step>, step: Step, r: Receipt, m: Submit)
    requires Run(steps).Some? && Sends(Run(steps).value, step, r) && m in Run(steps).value.sent
    ensures r.pending.Some?
    ensures m == Submit(r.id, r.pending.value) || Settled(Run(steps).value, m)
  {
    RunKeepsInv(steps);
  }

  /** The server holds each event once, exactly as it was submitted, and holds every event the client saw acknowledged. */
  lemma ServerStoresOnce(steps: seq<Step>, m: Submit)
    requires Run(steps).Some? && m in Run(steps).value.sent
    ensures var s := Run(steps).value;
      && (m.payload.event in s.server ==> s.server[m.payload.event] == m)
      && (m.payload.event in s.acked ==> m.payload.event in s.server)
      && (forall e :: e in s.server ==> s.server[e].payload.event == e && s.server[e] in s.sent)
  {
    RunKeepsInv(steps);
    var s := Run(steps).value;
    var i :| 0 <= i < |s.sent| && s.sent[i] == m;
    if m.payload.event in s.server {
      var j :| 0 <= j < |s.sent| && s.sent[j] == s.server[m.payload.event] && s.sent[j].payload.event == m.payload.event;
    }
  }

  /** A submission leaves only while reporting is not paused, and never from a legacy or barred receipt. */
  lemma SendsOnlyWhenAllowed(steps: seq<Step>, step: Step, r: Receipt)
    requires Run(steps).Some? && Sends(Run(steps).value, step, r)
    ensures var s := Run(steps).value; !s.marker && !Legacy(r) && r.id !in s.barred
  {
    RunKeepsInv(steps);
  }

  /** `begin` saves the paused mark of goal `x`. */
  predicate Marks(s: State, step: Step, x: Id)
  {
    step.Next? && s.client.BeginRead? && s.client.had.Some? && !Legacy(s.client.had.value) && s.client.had.value.id == x
  }

  /** `begin` completes for goal `x`: its remote calls succeeded and the receipt is saved without the mark. */
  predicate Lifts(s: State, step: Step, x: Id)
  {
    step.Remote? && s.client.BeginReady? && s.client.r.id == x
  }

  lemma RunPrefix(steps: seq<Step>, n: nat)
    requires Run(steps).Some? && n <= |steps|
    ensures Run(steps[..n]).Some?
    decreases |steps| - n
  {
    if n == |steps| {
      assert steps[..n] == steps;
    } else {
      RunPrefix(steps, n + 1);
      assert steps[..n + 1][..n] == steps[..n];
    }
  }

  /** The state before step `i` of a run. */
  function StateAt(steps: seq<Step>, i: nat): State
    requires Run(steps).Some? && i <= |steps|
  {
    RunPrefix(steps, i);
    Run(steps[..i]).value
  }

  ghost predicate NeverLifted(steps: seq<Step>, from: nat, x: Id)
    requires Run(steps).Some?
  {
    forall j :: from <= j < |steps| ==> !Lifts(StateAt(steps, j), steps[j], x)
  }

  lemma NextBarred(s: State, t: State, x: Id)
    requires DoNext(s) == Some(t) && (Marks(s, Next, x) || x in s.barred)
    ensures x in t.barred
  {
  }

  lemma BarredUntilLifted(s: State, step: Step, t: State, x: Id)
    requires Do(s, step) == Some(t) && (Marks(s, step, x) || (x in s.barred && !Lifts(s, step, x)))
    ensures x in t.barred
  {
    if step.Next? { NextBarred(s, t, x); }
  }

  lemma LastStep(steps: seq<Step>)
    requires steps != [] && Run(steps).Some?
    ensures Run(steps[..|steps| - 1]).Some?
    ensures Do(Run(steps[..|steps| - 1]).value, steps[|steps| - 1]) == Some(Run(steps).value)
  {
  }

  lemma {:induction false} MarkedStaysBarred(steps: seq<Step>, i: nat, x: Id)
    requires Run(steps).Some? && i < |steps| && Marks(StateAt(steps, i), steps[i], x)
    requires NeverLifted(steps, i + 1, x)
    ensures x in Run(steps).value.barred
    decreases |steps|
  {
    var n := |steps| - 1;
    var before := steps[..n];
    LastStep(steps);
    assert forall j :: 0 <= j <= n ==> before[..j] == steps[..j];
    if i < n {
      MarkedStaysBarred(before, i, x);
      assert !Lifts(StateAt(steps, n), steps[n], x);
    }
    BarredUntilLifted(Run(before).value, steps[n], Run(steps).value, x);
  }

  /**
   Once `begin` has saved the paused mark on a scoped goal, whatever fails or crashes after that, no submission leaves
   under the goal until a `begin` for the same task completes.
   */
  lemma PausedGoalIsSilent(steps: seq<Step>, i: nat, x: Id, step: Step, r: Receipt)
    requires Run(steps).Some? && i < |steps| && Marks(StateAt(steps, i), steps[i], x)
    requires NeverLifted(steps, i + 1, x)
    requires Sends(Run(steps).value, step, r)
    ensures r.id != x
  {
    MarkedStaysBarred(steps, i, x);
    SendsOnlyWhenAllowed(steps, step, r);
  }

  lemma OnlyTheSameTaskLifts(steps: seq<Step>, step: Step, x: Id)
    requires Run(steps).Some? && Lifts(Run(steps).value, step, x)
    ensures Run(steps).value.client.r.task == Run(steps).value.client.o.task
  {
    RunKeepsInv(steps);
  }

  // ----- What a retry and a submission must agree with -----

  /** `begin` saves the receipt of the new unit `x`. */
  predicate Saves(s: State, step: Step, x: Id, b: Beginning)
  {
    step.Next? && s.client == BeginArchived(b) && s.nextId == x
  }

  lemma SamePrefixStates(steps: seq<Step>, before: seq<Step>)
    requires steps != [] && before == steps[..|steps| - 1] && Run(steps).Some?
    ensures Run(before).Some? && forall i: nat :: i <= |before| ==> StateAt(before, i) == StateAt(steps, i)
  {
    LastStep(steps);
    forall i: nat | i <= |before| ensures StateAt(before, i) == StateAt(steps, i) { assert before[..i] == steps[..i]; }
  }

  /** What the history says a unit was begun with is what its receipt was first saved with. */
  lemma {:induction false} BegunWhenSaved(steps: seq<Step>, x: Id) returns (i: nat)
    requires Run(steps).Some? && x in Run(steps).value.begun
    ensures i < |steps| && Saves(StateAt(steps, i), steps[i], x, Run(steps).value.begun[x])
    decreases |steps|
  {
    var n := |steps| - 1;
    var before := steps[..n];
    SamePrefixStates(steps, before);
    LastStep(steps);
    RunKeepsInv(before);
    BegunGrows(Run(before).value, steps[n], Run(steps).value);
    if x in Run(before).value.begun { i := BegunWhenSaved(before, x); } else { i := n; }
  }

  /**
   In every run, the `begin` that lifts the mark of a unit agrees with the one that began it on the task, the goal and
   its scope, the objective, the criteria and the purpose.
   */
  lemma OnlyTheSameGoalLifts(steps: seq<Step>, step: Step, x: Id)
    requires Run(steps).Some? && Lifts(Run(steps).value, step, x)
    ensures var s := Run(steps).value; x in s.begun && Agrees(s.client.o, s.begun[x].o)
  {
    RunKeepsInv(steps);
  }

  /** In every run, a goal-scoped receipt is as it was first saved, but for the mark and what is pending. */
  lemma ReceiptStaysAsBegun(steps: seq<Step>)
    requires Run(steps).Some?
    ensures var s := Run(steps).value; s.file.Some? && !Legacy(s.file.value) ==> AsBegun(s, s.file.value)
  {
    RunKeepsInv(steps);
  }

  /** The last answer of the server to a `start` and a `get`. */
  function LastReport(steps: seq<Step>): Option<Step>
  {
    if steps == [] then None
    else if steps[|steps| - 1].Remote? then Some(steps[|steps| - 1]) else LastReport(steps[..|steps| - 1])
  }

  /**
   Step `i` makes this submission of the unit pending: for a new commit, at the version last reported, and not what the
   server reported as captured.
   */
  predicate CommitsAt(steps: seq<Step>, i: nat, unit: Id, p: Pending)
    requires Run(steps).Some?
  {
    && i < |steps| && steps[i].Commit?
    && var s, report := StateAt(steps, i), LastReport(steps[..i]);
    && unit in s.begun && steps[i].head != s.begun[unit].head && p.artifact == "commit:" + steps[i].head
    && p.criteria == s.begun[unit].o.criteria
    && report.Some? && report.value.Remote? && p.expectedVersion == report.value.version
    && report.value.latest != Some(Result(p.artifact, p.criteria))
  }

  ghost predicate Committed(steps: seq<Step>, unit: Id, p: Pending)
    requires Run(steps).Some?
  {
    exists i: nat :: CommitsAt(steps, i, unit, p)
  }

  /** Everything pending or sent was committed, and the client works with the last report. */
  ghost predicate AllCommitted(steps: seq<Step>)
    requires Run(steps).Some?
  {
    var s := Run(steps).value;
    && (s.client.CheckReady? ==> LastReport(steps) == Some(Remote(s.client.version, s.client.latest)))
    && (s.file.Some? && !Legacy(s.file.value) && s.file.value.pending.Some? ==>
          Committed(steps, s.file.value.id, s.file.value.pending.value))
    && (forall m :: m in s.sent ==> Committed(steps, m.unit, m.payload))
  }

  lemma CommittedStays(before: seq<Step>, steps: seq<Step>, unit: Id, p: Pending)
    requires steps != [] && before == steps[..|steps| - 1] && Run(steps).Some? && Run(before).Some? && Committed(before, unit, p)
    ensures Committed(steps, unit, p)
  {
    SamePrefixStates(steps, before);
    var i: nat :| CommitsAt(before, i, unit, p);
    assert before[..i] == steps[..i];
    assert CommitsAt(steps, i, unit, p);
  }

  lemma NextReportKept(s: State, t: State)
    requires DoNext(s) == Some(t)
    ensures !t.client.CheckReady?
  {
  }

  lemma ReportKept(s: State, step: Step, t: State)
    requires Do(s, step) == Some(t) && t.client.CheckReady?
    ensures if step.Remote? then step == Remote(t.client.version, t.client.latest) else s.client == t.client
  {
    if step.Next? { NextReportKept(s, t); }
  }

  predicate Makes(s: State, step: Step, unit: Id, p: Pending)
  {
    && step.Commit? && s.client.CheckReady? && s.client.r.id == unit && step.head != s.client.r.startHead
    && p == Pending(s.nextId, s.client.version, "commit:" + step.head, s.client.r.criteria)
    && s.client.latest != Some(Result(p.artifact, p.criteria))
  }

  predicate HasPending(file: Option<Receipt>, unit: Id, p: Pending)
  {
    file.Some? && !Legacy(file.value) && file.value.id == unit && file.value.pending == Some(p)
  }

  /** What a goal-scoped receipt has pending it had before, or the step made it pending. */
  lemma PendingFrom(s: State, step: Step, t: State, unit: Id, p: Pending)
    requires InStep(s) && Do(s, step) == Some(t) && HasPending(t.file, unit, p)
    ensures HasPending(s.file, unit, p) || Makes(s, step, unit, p)
  {
    if step.Next? { NextPendingFrom(s, t, unit, p); }
  }

  lemma NextPendingFrom(s: State, t: State, unit: Id, p: Pending)
    requires InStep(s) && DoNext(s) == Some(t) && HasPending(t.file, unit, p)
    ensures HasPending(s.file, unit, p)
  {
  }

  lemma MadeIsCommitted(before: seq<Step>, steps: seq<Step>, unit: Id, p: Pending)
    requires steps != [] && before == steps[..|steps| - 1] && Run(steps).Some? && Run(before).Some? && AllCommitted(before)
    requires Makes(Run(before).value, steps[|steps| - 1], unit, p)
    ensures Committed(steps, unit, p)
  {
    RunKeepsInv(before);
    SamePrefixStates(steps, before);
    assert before[..|before|] == before;
    assert CommitsAt(steps, |before|, unit, p);
  }

  lemma {:induction false} RunCommits(steps: seq<Step>)
    requires Run(steps).Some?
    ensures AllCommitted(steps)
    decreases |steps|
  {
    if steps != [] {
      var before := steps[..|steps| - 1];
      var step := steps[|steps| - 1];
      LastStep(steps);
      RunCommits(before);
      RunKeepsInv(before);
      StepCommits(before, steps, Run(before).value, step, Run(steps).value);
    }
  }

  lemma StepCommits(before: seq<Step>, steps: seq<Step>, s: State, step: Step, t: State)
    requires steps != [] && before == steps[..|steps| - 1] && step == steps[|steps| - 1]
    requires Run(before) == Some(s) && Run(steps) == Some(t) && Do(s, step) == Some(t)
    requires AllCommitted(before) && InStep(s)
    ensures AllCommitted(steps)
  {
    if t.client.CheckReady? { ReportKept(s, step, t); }
    if t.file.Some? && !Legacy(t.file.value) && t.file.value.pending.Some? {
      var unit, p := t.file.value.id, t.file.value.pending.value;
      PendingFrom(s, step, t, unit, p);
      if Makes(s, step, unit, p) { MadeIsCommitted(before, steps, unit, p); } else { CommittedStays(before, steps, unit, p); }
    }
    SentGrows(s, step, t);
    forall m | m in t.sent ensures Committed(steps, m.unit, m.payload) {
      assert m in s.sent || m == Submit(s.file.value.id, s.file.value.pending.value);
      CommittedStays(before, steps, m.unit, m.payload);
    }
  }

  /**
   In every run, a submission is for a commit other than the one its unit started from, carries the criteria its unit
   was begun with and the version the server had reported last, and was not yet captured by that report.
   */
  lemma SubmissionIsAsCommitted(steps: seq<Step>, m: Submit)
    requires Run(steps).Some? && m in Run(steps).value.sent
    ensures Committed(steps, m.unit, m.payload)
    ensures m.unit in Run(steps).value.begun && m.payload.criteria == Run(steps).value.begun[m.unit].o.criteria
  {
    RunCommits(steps);
    RunKeepsInv(steps);
  }

  // ----- What happens when nothing fails -----

  predicate Unlocked(s: State) { s.client.Idle? && !s.lock }

  lemma Extend(steps: seq<Step>, s: State, step: Step) returns (more: seq<Step>, t: State)
    requires Run(steps) == Some(s) && Do(s, step).Some?
    ensures more == steps + [step] && Do(s, step) == Some(t) && Run(more) == Some(t)
  {
    more, t := steps + [step], Do(s, step).value;
    assert more[..|more| - 1] == steps;
  }

  /** The receipt after `begin` has read it and saved the mark. */
  function MarkedFile(file: Option<Receipt>): Option<Receipt>
  {
    if file.Some? && !Legacy(file.value) then Some(file.value.(paused := true)) else file
  }

  lemma BeginValidates(steps: seq<Step>, s: State, o: Options) returns (more: seq<Step>, t: State)
    requires Run(steps) == Some(s) && Unlocked(s)
    ensures more == steps + [Begin(o), Next, Next] && Run(more) == Some(t)
    ensures t.client == BeginMarked(o, MarkedFile(s.file)) && t.file == MarkedFile(s.file) && t.begun == s.begun
    ensures t.barred == s.barred + if s.file.Some? && !Legacy(s.file.value) then {s.file.value.id} else {}
  {
    more, t := Extend(steps, s, Begin(o));
    more, t := Extend(more, t, Next);
    more, t := Extend(more, t, Next);
  }

  /**
   For every reachable receipt and every `begin` with its task: the mark is saved, and the retry goes on exactly when its
   options are well formed and agree with those that the unit was begun with.
   */
  lemma RetryGoesOnIff(steps: seq<Step>, r: Receipt, o: Options)
    requires Run(steps).Some? && Unlocked(Run(steps).value)
    requires Run(steps).value.file == Some(r) && !Legacy(r) && r.task == o.task
    ensures r.id in Run(steps).value.begun
    ensures var t, marked := Run(steps + [Begin(o), Next, Next, Validate]), r.(paused := true);
      && t.Some? && t.value.file == Some(marked) && r.id in t.value.barred
      && if WellFormed(o) && Agrees(o, Run(steps).value.begun[r.id].o) then t.value.client == BeginReady(o, marked) else Unlocked(t.value)
  {
    RunKeepsInv(steps);
    var more, t := BeginValidates(steps, Run(steps).value, o);
    more, t := Extend(more, t, Validate);
    assert more == steps + [Begin(o), Next, Next, Validate];
  }

  /** A `begin` for another task goes on exactly when it has a goal and leaves no submission of a scoped goal pending. */
  lemma NewGoalGoesOnIff(steps: seq<Step>, o: Options)
    requires Run(steps).Some? && Unlocked(Run(steps).value)
    requires var file := Run(steps).value.file; file.Some? ==> file.value.task != o.task
    ensures var file := Run(steps).value.file;
      var t := Run(steps + [Begin(o), Next, Next, Validate]);
      && t.Some? && t.value.file == MarkedFile(file)
      && if WellFormed(o) && o.goal.Some? && (file.Some? && file.value.pending.Some? ==> Legacy(file.value))
         then t.value.client == BeginNew(o, MarkedFile(file)) else Unlocked(t.value)
  {
    var more, t := BeginValidates(steps, Run(steps).value, o);
    more, t := Extend(more, t, Validate);
    assert more == steps + [Begin(o), Next, Next, Validate];
  }

  /** Then a new unit is saved with the options, the confirmed product and the commit, and a legacy receipt is archived. */
  lemma NewUnitIsSaved(steps: seq<Step>, o: Options, had: Option<Receipt>, product: string, head: string)
    requires Run(steps).Some? && Run(steps).value.client == BeginNew(o, had)
    ensures var s, t := Run(steps).value, Run(steps + [Context(product, head), Next, Next]);
      && t.Some? && t.value.file.Some? && t.value.client == BeginReady(o, t.value.file.value)
      && (s.file.Some? && Legacy(s.file.value) ==> s.file.value in t.value.archive)
      && var r := t.value.file.value;
      && r.id !in s.begun && r.task == o.task && r.title == o.title && r.criteria == o.criteria && r.startHead == head
      && r.pending.None? && r.kind == Some(KindOf(o)) && r.scope.Some? && r.scope.value.goal == o.goal && o.goal.Some?
      && r.scope.value.reason == ReasonOf(o) && r.scope.value.product == if ReasonOf(o) == "" then product else ""
  {
    var more, t := ThenArchives(steps, Run(steps).value, o, had, product, head);
    RunKeepsInv(more);
    more, t := Extend(more, t, Next);
    assert more == steps + [Context(product, head), Next, Next];
  }

  lemma ThenArchives(steps: seq<Step>, s: State, o: Options, had: Option<Receipt>, product: string, head: string)
    returns (more: seq<Step>, t: State)
    requires Run(steps) == Some(s) && s.client == BeginNew(o, had)
    ensures more == steps + [Context(product, head)] + [Next] && Run(more) == Some(t)
    ensures t.client == BeginArchived(Beginning(o, product, head)) && t.begun == s.begun && o.goal.Some?
    ensures s.file.Some? && Legacy(s.file.value) ==> s.file.value in t.archive
  {
    RunKeepsInv(steps);
    more, t := Extend(steps, s, Context(product, head));
    more, t := Extend(more, t, Next);
  }

  /** When its remote calls succeed, a `begin` ends with the receipt unmarked and reporting no longer paused. */
  lemma BeginCompletes(steps: seq<Step>, o: Options, r: Receipt, version: nat, latest: Option<Result>)
    requires Run(steps).Some? && Run(steps).value.client == BeginReady(o, r)
    ensures var t := Run(steps + [Remote(version, latest), Next, Next]);
      t.Some? && Unlocked(t.value) && t.value.file == Some(r.(paused := false)) && !t.value.marker && r.id !in t.value.barred
  {
    var more, t := Extend(steps, Run(steps).value, Remote(version, latest));
    assert t.client == BeginSaved && r.id !in t.barred;
    more, t := ThenReleases(more, t);
    assert more == steps + [Remote(version, latest), Next, Next];
  }

  /** The last two steps of `begin`: the marker is cleared and the lock released. */
  lemma ThenReleases(steps: seq<Step>, s: State) returns (more: seq<Step>, t: State)
    requires Run(steps) == Some(s) && s.client == BeginSaved
    ensures more == steps + [Next] + [Next] && Run(more) == Some(t)
    ensures t == s.(marker := false, client := Idle, lock := false)
  {
    more, t := Extend(steps, s, Next);
    more, t := Extend(more, t, Next);
  }

  /** A `checkpoint` asks the server exactly when reporting is not paused, neither by the marker nor in the receipt. */
  lemma CheckpointAsksIff(steps: seq<Step>, r: Receipt, version: nat, latest: Option<Result>)
    requires Run(steps).Some? && Unlocked(Run(steps).value) && Run(steps).value.file == Some(r) && !Legacy(r)
    ensures var s, t := Run(steps).value, Run(steps + [Checkpoint, Next]);
      t.Some? && t.value.client == if s.marker || r.paused then Ending else CheckLoaded(r)
    ensures var s, t := Run(steps).value, Run(steps + [Checkpoint, Next] + [Remote(version, latest)]);
      !s.marker && !r.paused ==> t.Some? && t.value.client == CheckReady(r, version, latest)
  {
    var more, t := Extend(steps, Run(steps).value, Checkpoint);
    more, t := Extend(more, t, Next);
    assert more == steps + [Checkpoint, Next];
    if !Run(steps).value.marker && !r.paused { more, t := Extend(more, t, Remote(version, latest)); }
  }

  /** The client is about to send a submission of the receipt for the commit, under an event the server has not seen. */
  predicate AboutToSend(t: State, r: Receipt, version: nat, head: string)
  {
    && t.file.Some? && t.client == CheckPending(t.file.value)
    && t.file.value.(pending := None) == r && t.file.value.pending.Some?
    && var p := t.file.value.pending.value;
    && p.artifact == "commit:" + head && p.expectedVersion == version && p.criteria == r.criteria && p.event !in t.server
  }

  /** With nothing pending, a clean commit becomes pending exactly when it is neither the first one nor already captured. */
  lemma CommitBecomesPendingIff(steps: seq<Step>, r: Receipt, version: nat, latest: Option<Result>, head: string)
    requires Run(steps).Some? && Run(steps).value.client == CheckReady(r, version, latest) && r.pending.None?
    ensures var s, t := Run(steps).value, Run(steps + [Commit(head)]);
      t.Some? &&
      if head == r.startHead || latest == Some(Result("commit:" + head, r.criteria)) then t.value == s.(client := Ending)
      else AboutToSend(t.value, r, version, head)
  {
    RunKeepsInv(steps);
    var more, t := Extend(steps, Run(steps).value, Commit(head));
    assert forall e :: e in t.server ==> e < Run(steps).value.nextId;
  }

  /** What the server holds under the event of a submission is that submission. */
  lemma ServerHolds(s: State, i: nat)
    requires Inv(s) && i < |s.sent| && s.sent[i].payload.event in s.server
    ensures s.server[s.sent[i].payload.event] == s.sent[i]
  {
  }

  lemma PendingIsDelivered(steps: seq<Step>, s: State, r: Receipt, p: Pending) returns (more: seq<Step>, t: State)
    requires Run(steps) == Some(s) && s.client == CheckPending(r) && r.pending == Some(p)
    ensures more == steps + [Next, Deliver(|s.sent|)] && Run(more) == Some(t) && t.client == CheckSent(r)
    ensures p.event in t.server && t.server[p.event] == Submit(r.id, p)
  {
    var n := |s.sent|;
    more, t := Extend(steps, s, Next);
    assert t.sent[n] == Submit(r.id, p);
    more, t := Extend(more, t, Deliver(n));
    RunKeepsInv(more);
    ServerHolds(t, n);
  }

  /** The last two steps of `checkpoint`: the receipt is saved without the submission and the lock released. */
  lemma ThenClears(steps: seq<Step>, s: State, r: Receipt) returns (more: seq<Step>, t: State)
    requires Run(steps) == Some(s) && s.client == CheckAcked(r)
    ensures more == steps + [Next] + [Next] && Run(more) == Some(t)
    ensures t == s.(file := Some(r.(pending := None)), client := Idle, lock := false)
  {
    more, t := Extend(steps, s, Next);
    more, t := Extend(more, t, Next);
  }

  /** What is pending, new or left by an earlier try, is sent, stored as it is, acknowledged and cleared. */
  lemma PendingIsSubmitted(steps: seq<Step>, r: Receipt, p: Pending)
    requires Run(steps).Some? && Run(steps).value.client == CheckPending(r) && r.pending == Some(p)
    ensures var t := Run(steps + [Next, Deliver(|Run(steps).value.sent|), Next, Next, Next]);
      && t.Some? && t.value.client.Idle? && !t.value.lock && t.value.file == Some(r.(pending := None))
      && p.event in t.value.server && t.value.server[p.event] == Submit(r.id, p) && p.event in t.value.acked
  {
    var more, t := PendingIsDelivered(steps, Run(steps).value, r, p);
    more, t := Extend(more, t, Next);
    more, t := ThenClears(more, t, r);
    assert more == steps + [Next, Deliver(|Run(steps).value.sent|), Next, Next, Next];
  }

  /** A checkpoint with something pending goes straight to sending it. */
  lemma RetryIsSent(steps: seq<Step>, r: Receipt, version: nat, latest: Option<Result>)
    requires Run(steps).Some? && Run(steps).value.client == CheckReady(r, version, latest) && r.pending.Some?
    ensures var t := Run(steps + [Next]); t.Some? && t.value.client == CheckPending(r)
  {
    var more, t := Extend(steps, Run(steps).value, Next);
  }
}
