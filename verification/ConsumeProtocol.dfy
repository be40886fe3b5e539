/**
 One record path shared by any number of consumers and atomic writers. A consumer renames the file away,
 compares its text, and then either drops it for good or links it back.
 */
module ConsumeProtocol {
  import opened Text

  /** A written file, numbered in the order of the writes. */
  type Version = nat

  type Caller = nat

  /** How far a consumer has come. */
  datatype Pc =
    | Called(expected: string)                 // about to rename the path away
    | Holding(expected: string, v: Version)    // renamed, not yet compared
    | Matched(expected: string, v: Version)    // compared equal, about to unlink and return true
    | Mismatched(v: Version)                   // compared unequal, about to link back
    | Restored                                 // linked back or given up, about to unlink the private name
    | Won(entry: nat)                          // returned true, with the departure it caused
    | Lost                                     // returned false
    | Crashed

  /** Why a version is gone. */
  datatype Cause =
    | Claimed(claimer: Caller, expected: string)
    | Replaced(newer: Version)
    | DroppedOver(at: Version)
    | DroppedByFault
    | LostInCrash

  /** Where a version is: history kept beside the files, which no step consults. */
  datatype Place = AtPath | InHands(c: Caller) | Gone(entry: nat)

  datatype State = State(
    texts: seq<string>,
    path: Option<Version>,
    callers: map<Caller, Pc>,
    places: seq<Place>,
    left: seq<(Version, Cause)>,
    faulted: bool)

  const INIT := State([], None, map[], [], [], false)

  /** The atomic steps; each names what the file system does, faults included. */
  datatype Step =
    | Write(text: string)
    | Call(c: Caller, expected: string)
    | Take(c: Caller)
    | TakeFails(c: Caller)
    | Compare(c: Caller, readable: bool)
    | Finish(c: Caller)
    | LinkBack(c: Caller)
    | LinkFails(c: Caller)
    | Unlink(c: Caller)
    | Crash(c: Caller)

  function HeldBy(pc: Pc): Option<Version>
  {
    if pc.Holding? || pc.Matched? || pc.Mismatched? then Some(pc.v) else None
  }

  function Goto(s: State, c: Caller, pc: Pc): State { s.(callers := s.callers[c := pc]) }

  function Put(s: State, v: Version, place: Place): State
  {
    if v < |s.places| then s.(places := s.places[v := place]) else s
  }

  function Leave(s: State, v: Version, cause: Cause): State
  {
    Put(s, v, Gone(|s.left|)).(left := s.left + [(v, cause)])
  }

  function Do(s: State, step: Step): Option<State>
  {
    match step
    case Write(text) =>
      var v := |s.texts|;
      var t := if s.path.Some? then Leave(s, s.path.value, Replaced(v)) else s;
      Some(t.(texts := t.texts + [text], places := t.places + [AtPath], path := Some(v)))
    case Call(c, expected) =>
      if c in s.callers then None else Some(Goto(s, c, Called(expected)))
    case _ =>
      if step.c !in s.callers then None else DoCaller(s, step, s.callers[step.c])
  }

  function DoCaller(s: State, step: Step, pc: Pc): Option<State>
    requires !step.Write? && !step.Call?
  {
    match step
    case Take(c) =>
      if !pc.Called? then None
      else if s.path.None? then Some(Goto(s, c, Lost))
      else Some(Put(Goto(s, c, Holding(pc.expected, s.path.value)), s.path.value, InHands(c)).(path := None))
    case TakeFails(c) =>
      if !pc.Called? then None else Some(Goto(s, c, Lost))
    case Compare(c, readable) =>
      if !pc.Holding? || pc.v >= |s.texts| then None
      else if readable && s.texts[pc.v] == pc.expected then Some(Goto(s, c, Matched(pc.expected, pc.v)))
      else Some(Goto(s, c, Mismatched(pc.v)))
    case Finish(c) =>
      if !pc.Matched? then None else Some(Leave(Goto(s, c, Won(|s.left|)), pc.v, Claimed(c, pc.expected)))
    case LinkBack(c) =>
      if !pc.Mismatched? then None
      else if s.path.None? then Some(Put(Goto(s, c, Restored), pc.v, AtPath).(path := Some(pc.v)))
      else Some(Leave(Goto(s, c, Restored), pc.v, DroppedOver(s.path.value)))
    case LinkFails(c) =>
      if !pc.Mismatched? then None
      else Some(Leave(Goto(s, c, Restored), pc.v, DroppedByFault).(faulted := true))
    case Unlink(c) =>
      if !pc.Restored? then None else Some(Goto(s, c, Lost))
    case Crash(c) =>
      if pc.Won? || pc.Lost? || pc.Crashed? then None
      else
        var t := Goto(s, c, Crashed).(faulted := true);
        Some(if HeldBy(pc).Some? then Leave(t, HeldBy(pc).value, LostInCrash) else t)
  }

  /** The state after a run, if every step of it was enabled. */
  function Run(steps: seq<Step>): Option<State>
  {
    if steps == [] then Some(INIT) else
    var s := Run(steps[..|steps| - 1]);
    if s.None? then None else Do(s.value, steps[|steps| - 1])
  }

  // ----- What every state keeps -----

  /** The recorded places are where the versions really are: at the path, held by one consumer, or departed once. */
  ghost predicate Placed(s: State)
  {
    && |s.places| == |s.texts|
    && (forall v :: 0 <= v < |s.places| ==> (s.places[v] == AtPath <==> s.path == Some(v)))
    && (forall v :: 0 <= v < |s.places| && s.places[v].InHands? ==>
          s.places[v].c in s.callers && HeldBy(s.callers[s.places[v].c]) == Some(v))
    && (forall v :: 0 <= v < |s.places| && s.places[v].Gone? ==>
          s.places[v].entry < |s.left| && s.left[s.places[v].entry].0 == v)
    && (s.path.Some? ==> s.path.value < |s.places|)
    && (forall c :: c in s.callers && HeldBy(s.callers[c]).Some? ==>
          HeldBy(s.callers[c]).value < |s.places| && s.places[HeldBy(s.callers[c]).value] == InHands(c))
    && (forall i :: 0 <= i < |s.left| ==> s.left[i].0 < |s.places| && s.places[s.left[i].0] == Gone(i))
  }

  /** What the recorded cause of the departure `entry` says is so. */
  ghost predicate CauseHolds(s: State, entry: nat)
    requires entry < |s.left|
  {
    var (v, cause) := s.left[entry];
    match cause
    case Claimed(c, expected) => c in s.callers && s.callers[c] == Won(entry) && v < |s.texts| && s.texts[v] == expected
    case Replaced(w) => v < w < |s.texts|
    case DroppedOver(w) => w != v && w < |s.texts|
    case DroppedByFault => s.faulted
    case LostInCrash => s.faulted
  }

  ghost predicate Caused(s: State)
  {
    && (forall i :: 0 <= i < |s.left| ==> CauseHolds(s, i))
    && (forall c :: c in s.callers && s.callers[c].Matched? ==>
          s.callers[c].v < |s.texts| && s.texts[s.callers[c].v] == s.callers[c].expected)
    && (forall c :: c in s.callers && s.callers[c].Won? ==>
          s.callers[c].entry < |s.left| && s.left[s.callers[c].entry].1.Claimed? && s.left[s.callers[c].entry].1.claimer == c)
  }

  ghost predicate Live(s: State, v: Version)
  {
    v < |s.places| && !s.places[v].Gone?
  }

  /** Without crash or fault, a version that leaves unclaimed leaves another one behind. */
  ghost predicate LastIsClaimed(s: State)
  {
    !s.faulted && s.left != [] && !s.left[|s.left| - 1].1.Claimed? ==> exists v :: Live(s, v)
  }

  ghost predicate Inv(s: State)
  {
    Placed(s) && Caused(s) && LastIsClaimed(s)
  }

  // ----- The five things a step does to the files -----

  lemma CausesCarry(s: State, t: State)
    requires t.left == s.left && t.texts == s.texts && (s.faulted ==> t.faulted)
    requires forall c :: c in s.callers && s.callers[c].Won? ==> c in t.callers && t.callers[c] == s.callers[c]
    ensures forall i :: 0 <= i < |s.left| && CauseHolds(s, i) ==> CauseHolds(t, i)
  {
  }

  /** A consumer moves on without touching what it holds. */
  lemma GotoKeeps(s: State, c: Caller, pc: Pc, t: State)
    requires Inv(s) && t == Goto(s, c, pc)
    requires c in s.callers ==> !s.callers[c].Won? && HeldBy(s.callers[c]) == HeldBy(pc)
    requires c !in s.callers ==> HeldBy(pc) == None
    requires !pc.Won? && (pc.Matched? ==> pc.v < |s.texts| && s.texts[pc.v] == pc.expected)
    ensures Inv(t)
  {
    CausesCarry(s, t);
    assert forall v :: Live(s, v) ==> Live(t, v);
  }

  /** A consumer lets go of its version for good. */
  lemma ReleaseKeeps(s: State, c: Caller, pc: Pc, v: Version, cause: Cause, faulted: bool, t: State)
    requires Inv(s) && c in s.callers && HeldBy(s.callers[c]) == Some(v)
    requires t == Leave(Goto(s, c, pc), v, cause).(faulted := faulted) && (s.faulted ==> faulted)
    requires HeldBy(pc) == None && (pc.Won? <==> cause.Claimed?)
    requires match cause
             case Claimed(d, expected) => d == c && pc == Won(|s.left|) && s.texts[v] == expected
             case Replaced(_) => false
             case DroppedOver(w) => s.path == Some(w)
             case _ => faulted
    ensures Inv(t)
  {
    assert s.places[v] == InHands(c);
    ReleasePlaced(s, c, pc, v, cause, t);
    forall i | 0 <= i < |t.left| ensures CauseHolds(t, i) {
      if i < |s.left| { assert t.left[i] == s.left[i] && CauseHolds(s, i); }
    }
    if cause.DroppedOver? { assert Live(t, cause.at); }
  }

  lemma ReleasePlaced(s: State, c: Caller, pc: Pc, v: Version, cause: Cause, t: State)
    requires Placed(s) && c in s.callers && HeldBy(s.callers[c]) == Some(v) && HeldBy(pc) == None
    requires t.callers == s.callers[c := pc] && t.places == s.places[v := Gone(|s.left|)]
    requires t.left == s.left + [(v, cause)] && t.path == s.path && t.texts == s.texts
    ensures Placed(t)
  {
    assert s.places[v] == InHands(c);
    assert forall i :: 0 <= i < |s.left| ==> t.left[i] == s.left[i];
  }

  lemma TakeKeeps(s: State, c: Caller, t: State)
    requires Inv(s) && c in s.callers && s.callers[c].Called? && s.path.Some?
    requires Do(s, Take(c)) == Some(t)
    ensures Inv(t)
  {
    TakePlaced(s, c, t);
    CausesCarry(s, t);
    assert forall v :: Live(s, v) ==> Live(t, v);
  }

  lemma TakePlaced(s: State, c: Caller, t: State)
    requires Placed(s) && c in s.callers && s.callers[c].Called? && s.path.Some?
    requires Do(s, Take(c)) == Some(t)
    ensures Placed(t)
  {
    assert s.places[s.path.value] == AtPath;
  }

  lemma LinkBackKeeps(s: State, c: Caller, t: State)
    requires Inv(s) && c in s.callers && s.callers[c].Mismatched? && s.path.None?
    requires Do(s, LinkBack(c)) == Some(t)
    ensures Inv(t)
  {
    LinkBackPlaced(s, c, t);
    CausesCarry(s, t);
    assert forall v :: Live(s, v) ==> Live(t, v);
  }

  lemma LinkBackPlaced(s: State, c: Caller, t: State)
    requires Placed(s) && c in s.callers && s.callers[c].Mismatched? && s.path.None?
    requires Do(s, LinkBack(c)) == Some(t)
    ensures Placed(t)
  {
    assert s.places[s.callers[c].v] == InHands(c);
  }

  lemma WriteKeeps(s: State, text: string, t: State)
    requires Inv(s) && Do(s, Write(text)) == Some(t)
    ensures Inv(t)
  {
    assert Live(t, |s.texts|);
    assert forall i :: 0 <= i < |s.left| ==> t.left[i] == s.left[i];
    forall i | 0 <= i < |t.left| ensures CauseHolds(t, i) {
      if i < |s.left| { assert CauseHolds(s, i); }
    }
    WritePlaces(s, text, t);
  }

  lemma WritePlaces(s: State, text: string, t: State)
    requires Placed(s) && Do(s, Write(text)) == Some(t)
    ensures Placed(t)
  {
    if s.path.Some? { assert s.places[s.path.value] == AtPath; }
  }

  /** The steps by which a consumer moves on or takes a version. */
  lemma MovesKeep(s: State, step: Step, t: State)
    requires Inv(s) && Do(s, step) == Some(t)
    requires step.Call? || step.Take? || step.TakeFails? || step.Compare? || step.Unlink?
    ensures Inv(t)
  {
    var c := step.c;
    if step.Take? && s.path.Some? {
      TakeKeeps(s, c, t);
    } else {
      GotoKeeps(s, c, t.callers[c], t);
    }
  }

  /** The steps by which a consumer lets go of its version. */
  lemma ReleasesKeep(s: State, step: Step, t: State)
    requires Inv(s) && Do(s, step) == Some(t)
    requires step.Finish? || step.LinkBack? || step.LinkFails?
    ensures Inv(t)
  {
    var c := step.c;
    var v := s.callers[c].v;
    if step.Finish? {
      ReleaseKeeps(s, c, Won(|s.left|), v, Claimed(c, s.callers[c].expected), s.faulted, t);
    } else if step.LinkFails? {
      ReleaseKeeps(s, c, Restored, v, DroppedByFault, true, t);
    } else if s.path.None? {
      LinkBackKeeps(s, c, t);
    } else {
      ReleaseKeeps(s, c, Restored, v, DroppedOver(s.path.value), s.faulted, t);
    }
  }

  lemma CrashKeeps(s: State, c: Caller, t: State)
    requires Inv(s) && Do(s, Crash(c)) == Some(t)
    ensures Inv(t)
  {
    var held := HeldBy(s.callers[c]);
    if held.Some? {
      ReleaseKeeps(s, c, Crashed, held.value, LostInCrash, true, t);
    } else {
      var u := s.(faulted := true);
      CausesCarry(s, u);
      GotoKeeps(u, c, Crashed, t);
    }
  }

  /** The invariant is inductive. */
  lemma DoKeepsInv(s: State, step: Step, t: State)
    requires Inv(s) && Do(s, step) == Some(t)
    ensures Inv(t)
  {
    match step {
      case Write(text) => WriteKeeps(s, text, t);
      case Crash(c) => CrashKeeps(s, c, t);
      case Finish(_) => ReleasesKeep(s, step, t);
      case LinkBack(_) => ReleasesKeep(s, step, t);
      case LinkFails(_) => ReleasesKeep(s, step, t);
      case _ => MovesKeep(s, step, t);
    }
  }

  lemma {:induction false} RunKeepsInv(steps: seq<Step>)
    requires Run(steps).Some?
    ensures Inv(Run(steps).value)
  {
    if steps != [] {
      RunKeepsInv(steps[..|steps| - 1]);
      DoKeepsInv(Run(steps[..|steps| - 1]).value, steps[|steps| - 1], Run(steps).value);
    }
  }

  // ----- What the invariant says about the files themselves -----

  ghost predicate Holds(s: State, c: Caller, v: Version)
  {
    c in s.callers && HeldBy(s.callers[c]) == Some(v)
  }

  /** The version is at the path or under some consumer's private name. */
  ghost predicate Present(s: State, v: Version)
  {
    s.path == Some(v) || exists c :: Holds(s, c, v)
  }

  lemma PresentIsLive(s: State, v: Version)
    requires Placed(s)
    ensures Present(s, v) <==> Live(s, v)
  {
    if v < |s.places| && s.places[v].InHands? { assert Holds(s, s.places[v].c, v); }
    if c :| Holds(s, c, v) { assert s.places[v] == InHands(c); }
  }

  /** In every run a version leaves at most once, so at most one consumer ever returns true for it, and only on equal text. */
  lemma ClaimedAtMostOnce(steps: seq<Step>)
    requires Run(steps).Some?
    ensures var s := Run(steps).value;
      && (forall i, j :: 0 <= i < j < |s.left| ==> s.left[i].0 != s.left[j].0)
      && (forall c :: c in s.callers && s.callers[c].Won? ==>
            s.callers[c].entry < |s.left|
            && s.left[s.callers[c].entry].0 < |s.texts|
            && s.left[s.callers[c].entry].1 == Claimed(c, s.texts[s.left[s.callers[c].entry].0]))
      && (forall c, d :: c in s.callers && d in s.callers && c != d && s.callers[c].Won? && s.callers[d].Won? ==>
            s.callers[c].entry != s.callers[d].entry)
  {
    RunKeepsInv(steps);
    var s := Run(steps).value;
    forall c | c in s.callers && s.callers[c].Won?
      ensures s.left[s.callers[c].entry].1 == Claimed(c, s.texts[s.left[s.callers[c].entry].0])
    {
      assert CauseHolds(s, s.callers[c].entry);
    }
  }

  /** Every written version is at the path, with exactly one consumer, or in the departure log; never in two of these. */
  lemma EveryVersionIsAccountedFor(steps: seq<Step>, v: Version)
    requires Run(steps).Some? && v < |Run(steps).value.texts|
    ensures var s := Run(steps).value;
      && (Present(s, v) <==> forall i :: 0 <= i < |s.left| ==> s.left[i].0 != v)
      && (forall c :: Holds(s, c, v) ==> s.path != Some(v) && forall d :: Holds(s, d, v) ==> d == c)
  {
    RunKeepsInv(steps);
    var s := Run(steps).value;
    PresentIsLive(s, v);
    if !Live(s, v) { assert s.left[s.places[v].entry].0 == v; }
    assert forall c :: Holds(s, c, v) ==> s.places[v] == InHands(c);
  }

  /** How a step may make a version vanish. */
  ghost predicate Vanishing(s: State, step: Step, t: State, v: Version)
  {
    match step
    case Finish(c) => c in s.callers && v < |s.texts| && s.callers[c] == Matched(s.texts[v], v) && Holds(s, c, v)
    case Write(_) => s.path == Some(v) && t.path == Some(|s.texts|)
    case LinkBack(c) => Holds(s, c, v) && s.callers[c].Mismatched? && s.path.Some? && s.path != Some(v) && t.path == s.path
    case LinkFails(c) => Holds(s, c, v)
    case Crash(c) => Holds(s, c, v)
    case _ => false
  }

  lemma LiveVanishes(s: State, step: Step, t: State, v: Version)
    requires Inv(s) && Do(s, step) == Some(t) && Live(s, v) && !Live(t, v)
    ensures Vanishing(s, step, t, v)
  {
  }

  /** A version vanishes only by a claim on equal text, a replacing write, a drop over another version, or a fault. */
  lemma VanishesOnlyBy(steps: seq<Step>, step: Step, t: State, v: Version)
    requires Run(steps).Some? && Do(Run(steps).value, step) == Some(t)
    requires Present(Run(steps).value, v) && !Present(t, v)
    ensures Vanishing(Run(steps).value, step, t, v)
  {
    var s := Run(steps).value;
    RunKeepsInv(steps);
    DoKeepsInv(s, step, t);
    PresentIsLive(s, v);
    PresentIsLive(t, v);
    LiveVanishes(s, step, t, v);
  }

  ghost predicate Quiet(s: State)
  {
    forall c :: c in s.callers ==> s.callers[c].Won? || s.callers[c].Lost?
  }

  /** After a run without crash or fault, once every consumer has returned, an empty path means a claim came last. */
  lemma EmptyPathMeansClaimed(steps: seq<Step>)
    requires Run(steps).Some?
    requires var s := Run(steps).value; Quiet(s) && !s.faulted && s.path == None && s.texts != []
    ensures var s := Run(steps).value; s.left != [] && s.left[|s.left| - 1].1.Claimed?
  {
    RunKeepsInv(steps);
    NothingPresent(Run(steps).value);
  }

  lemma NothingPresent(s: State)
    requires Inv(s) && Quiet(s) && !s.faulted && s.path == None && s.texts != []
    ensures s.left != [] && s.left[|s.left| - 1].1.Claimed?
  {
    forall v ensures !Live(s, v) { PresentIsLive(s, v); }
    assert s.places[0].Gone?;
  }

  /** The newest version is at the path, or it was claimed, or dropped over an older one. */
  ghost predicate NewestIsAccountedFor(s: State)
  {
    var newest := |s.texts| - 1;
    || s.path == Some(newest)
    || exists i :: 0 <= i < |s.left| && s.left[i].0 == newest
         && (s.left[i].1.Claimed? || (s.left[i].1.DroppedOver? && s.left[i].1.at < newest))
  }

  /** In such a state the newest version is at the path, was claimed, or was dropped over an older one that came back. */
  lemma FateOfTheNewest(steps: seq<Step>)
    requires Run(steps).Some?
    requires var s := Run(steps).value; Quiet(s) && !s.faulted && s.texts != []
    ensures NewestIsAccountedFor(Run(steps).value)
  {
    RunKeepsInv(steps);
    QuietNewest(Run(steps).value);
  }

  /** The departure of a version that is gone. */
  lemma Departed(s: State, v: Version) returns (i: nat)
    requires Placed(s) && v < |s.texts| && !Live(s, v)
    ensures i < |s.left| && s.left[i].0 == v
  {
    i := s.places[v].entry;
  }

  lemma QuietNewest(s: State)
    requires Inv(s) && Quiet(s) && !s.faulted && s.texts != []
    ensures NewestIsAccountedFor(s)
  {
    var newest := |s.texts| - 1;
    PresentIsLive(s, newest);
    if s.path != Some(newest) {
      var i := Departed(s, newest);
      assert CauseHolds(s, i);
      CauseOfNewest(s, i);
    }
  }

  lemma CauseOfNewest(s: State, i: nat)
    requires i < |s.left| && CauseHolds(s, i) && !s.faulted && s.left[i].0 == |s.texts| - 1
    ensures s.left[i].1.Claimed? || (s.left[i].1.DroppedOver? && s.left[i].1.at < |s.texts| - 1)
  {
  }

  // ----- When the newest version survives -----

  /** A consumer that has taken a version and may still link it back. */
  ghost predicate MayLinkBack(s: State, c: Caller)
  {
    c in s.callers && (s.callers[c].Holding? || s.callers[c].Mismatched?)
  }

  ghost predicate Undecided(s: State)
  {
    exists c :: MayLinkBack(s, c)
  }

  /** No write, no crash and no failing link. */
  predicate Calm(steps: seq<Step>)
  {
    forall i :: 0 <= i < |steps| ==> CalmStep(steps[i])
  }

  predicate CalmStep(step: Step) { !step.Write? && !step.Crash? && !step.LinkFails? }

  ghost predicate WasClaimed(s: State, v: Version)
  {
    exists i :: 0 <= i < |s.left| && s.left[i].0 == v && s.left[i].1.Claimed?
  }

  ghost predicate KeptOrClaimed(s: State, v: Version)
  {
    Present(s, v) || WasClaimed(s, v)
  }

  /** The path and every consumer that may link back hold this version or none, and it is there or was claimed. */
  ghost predicate Secure(s: State, v: Version)
  {
    && (s.path.Some? ==> s.path == Some(v))
    && (forall c :: MayLinkBack(s, c) ==> s.callers[c].v == v)
    && (Live(s, v) || WasClaimed(s, v))
  }

  lemma ClaimStays(s: State, step: Step, t: State, v: Version)
    requires WasClaimed(s, v) && Do(s, step) == Some(t)
    ensures WasClaimed(t, v)
  {
    var i :| 0 <= i < |s.left| && s.left[i].0 == v && s.left[i].1.Claimed?;
    assert t.left[i] == s.left[i];
  }

  /** Only a claim takes the version away. */
  lemma LiveStays(s: State, step: Step, t: State, v: Version)
    requires Placed(s) && Secure(s, v) && CalmStep(step) && Do(s, step) == Some(t) && Live(s, v)
    ensures Live(t, v) || WasClaimed(t, v)
  {
    if step.LinkBack? {
      assert MayLinkBack(s, step.c);
      assert s.places[v] == InHands(step.c);
    }
    if step.Finish? { assert t.left[|s.left|].1.Claimed?; }
  }

  lemma PathStays(s: State, step: Step, t: State, v: Version)
    requires Secure(s, v) && CalmStep(step) && Do(s, step) == Some(t)
    ensures t.path.Some? ==> t.path == Some(v)
  {
    if step.LinkBack? { assert MayLinkBack(s, step.c); }
  }

  lemma HandsStay(s: State, step: Step, t: State, v: Version)
    requires Secure(s, v) && CalmStep(step) && Do(s, step) == Some(t)
    ensures forall c :: MayLinkBack(t, c) ==> t.callers[c].v == v
  {
    forall c | MayLinkBack(t, c) ensures t.callers[c].v == v {
      assert MayLinkBack(s, c) || (step.Take? && step.c == c);
    }
  }

  lemma SecureStep(s: State, step: Step, t: State, v: Version)
    requires Placed(s) && Secure(s, v) && CalmStep(step) && Do(s, step) == Some(t)
    ensures Secure(t, v)
  {
    PathStays(s, step, t, v);
    HandsStay(s, step, t, v);
    if WasClaimed(s, v) { ClaimStays(s, step, t, v); } else { LiveStays(s, step, t, v); }
  }

  lemma SecureAfterWrite(s: State, text: string, t: State)
    requires Placed(s) && !Undecided(s) && Do(s, Write(text)) == Some(t)
    ensures Secure(t, |s.texts|)
  {
    assert t.callers == s.callers;
    assert forall c :: MayLinkBack(t, c) ==> MayLinkBack(s, c);
  }

  lemma Then(steps: seq<Step>, s: State, step: Step, t: State)
    requires Run(steps) == Some(s) && Do(s, step) == Some(t)
    ensures Run(steps + [step]) == Some(t)
  {
    assert (steps + [step])[..|steps|] == steps;
  }

  /** A run and what follows it. */
  lemma Continued(steps: seq<Step>, more: seq<Step>)
    requires more != [] && Run(steps + more).Some?
    ensures var n := |more| - 1;
      && Run(steps + more[..n]).Some?
      && Do(Run(steps + more[..n]).value, more[n]) == Run(steps + more)
  {
    assert (steps + more)[..|steps + more| - 1] == steps + more[..|more| - 1];
  }

  lemma {:induction false} StaysSecure(steps: seq<Step>, more: seq<Step>, v: Version)
    requires Run(steps).Some? && Secure(Run(steps).value, v) && Calm(more) && Run(steps + more).Some?
    ensures Secure(Run(steps + more).value, v)
    decreases |more|
  {
    if more == [] {
      assert steps + more == steps;
    } else {
      var n := |more| - 1;
      Continued(steps, more);
      StaysSecure(steps, more[..n], v);
      RunKeepsInv(steps + more[..n]);
      SecureStep(Run(steps + more[..n]).value, more[n], Run(steps + more).value, v);
    }
  }

  /** Written when no consumer may link back, a version leaves only by a claim, and is at the path when all is quiet. */
  lemma NewestSurvives(steps: seq<Step>, text: string, more: seq<Step>)
    requires Run(steps).Some? && !Undecided(Run(steps).value) && Calm(more)
    requires Run(steps + [Write(text)] + more).Some?
    ensures var v, t := |Run(steps).value.texts|, Run(steps + [Write(text)] + more).value;
      KeptOrClaimed(t, v) && (Quiet(t) ==> t.path == Some(v) || WasClaimed(t, v))
  {
    var s := Run(steps).value;
    var written := Do(s, Write(text)).value;
    RunKeepsInv(steps);
    Then(steps, s, Write(text), written);
    SecureAfterWrite(s, text, written);
    StaysSecure(steps + [Write(text)], more, |s.texts|);
    RunKeepsInv(steps + [Write(text)] + more);
    PresentIsLive(Run(steps + [Write(text)] + more).value, |s.texts|);
  }

  lemma FreshCaller(callers: map<Caller, Pc>) returns (d: Caller)
    ensures d !in callers
  {
    d := Above(callers.Keys);
    assert d !in callers.Keys;
  }

  lemma {:induction false} Above(used: set<Caller>) returns (d: Caller)
    ensures forall c :: c in used ==> c < d
  {
    if used == {} {
      d := 0;
    } else {
      var c :| c in used;
      d := Above(used - {c});
      if d <= c { d := c + 1; }
      assert forall x :: x in used ==> x == c || x in used - {c};
    }
  }

  /** A new consumer takes the version at the path and finds it is not the expected one. */
  lemma TakenByAnother(steps: seq<Step>, s: State, v: Version) returns (more: seq<Step>, t: State, d: Caller)
    requires Run(steps) == Some(s) && s.path == Some(v) && v < |s.texts|
    ensures Calm(more) && Run(steps + more) == Some(t)
    ensures d !in s.callers && t.callers == s.callers[d := Mismatched(v)]
    ensures t.path == None && t.texts == s.texts && t.left == s.left && |t.places| == |s.places|
  {
    d := FreshCaller(s.callers);
    more, t := [], s;
    assert steps + more == steps;
    more, t := Follow(steps, more, t, Call(d, ""));
    more, t := Follow(steps, more, t, Take(d));
    more, t := Follow(steps, more, t, Compare(d, false));
  }

  /** Then the stale consumer links its version back first, and the other one finds the path taken. */
  lemma Overtake(steps: seq<Step>, s: State, c: Caller, v: Version) returns (more: seq<Step>, t: State)
    requires Run(steps) == Some(s) && MayLinkBack(s, c) && s.path == Some(v) && s.callers[c].v != v
    requires s.callers[c].v < |s.texts| == |s.places| && v < |s.texts|
    ensures Calm(more) && Run(steps + more) == Some(t)
    ensures t.left == s.left + [(v, DroppedOver(s.callers[c].v))]
  {
    var d;
    more, t, d := TakenByAnother(steps, s, v);
    if t.callers[c].Holding? { more, t := Follow(steps, more, t, Compare(c, false)); }
    more, t := Follow(steps, more, t, LinkBack(c));
    more, t := Follow(steps, more, t, LinkBack(d));
  }

  lemma Follow(steps: seq<Step>, more: seq<Step>, s: State, step: Step) returns (longer: seq<Step>, t: State)
    requires Run(steps + more) == Some(s) && Calm(more) && CalmStep(step) && Do(s, step).Some?
    ensures longer == more + [step] && Calm(longer) && Do(s, step) == Some(t) && Run(steps + longer) == Some(t)
  {
    longer, t := more + [step], Do(s, step).value;
    Then(steps + more, s, step, t);
    assert steps + more + [step] == steps + longer;
  }

  /** Written while some consumer may link back, the newest version can be dropped without any fault or further write. */
  lemma NewestCanBeDropped(steps: seq<Step>, text: string) returns (more: seq<Step>)
    requires Run(steps).Some? && Undecided(Run(steps).value)
    ensures Calm(more) && Run(steps + [Write(text)] + more).Some?
    ensures !KeptOrClaimed(Run(steps + [Write(text)] + more).value, |Run(steps).value.texts|)
  {
    var s := Run(steps).value;
    var written, v := Do(s, Write(text)).value, |s.texts|;
    RunKeepsInv(steps);
    Then(steps, s, Write(text), written);
    RunKeepsInv(steps + [Write(text)]);
    var c :| MayLinkBack(s, c);
    assert s.places[s.callers[c].v] == InHands(c);
    var t;
    more, t := Overtake(steps + [Write(text)], written, c, v);
    RunKeepsInv(steps + [Write(text)] + more);
    PresentIsLive(t, v);
    DroppedOnce(t, v);
  }

  /** A version whose last departure was no claim was never claimed. */
  lemma DroppedOnce(t: State, v: Version)
    requires Inv(t) && t.left != [] && t.left[|t.left| - 1].0 == v && !t.left[|t.left| - 1].1.Claimed?
    ensures !WasClaimed(t, v)
  {
    assert t.places[v] == Gone(|t.left| - 1);
  }

  /**
   * In every reachable state, what is written next survives every continuation without fault or further write exactly
   * when no consumer may then still link an older version back.
   */
  lemma NewestSurvivesIff(steps: seq<Step>, text: string)
    requires Run(steps).Some?
    ensures !Undecided(Run(steps).value) <==>
      forall more :: Calm(more) && Run(steps + [Write(text)] + more).Some? ==>
        KeptOrClaimed(Run(steps + [Write(text)] + more).value, |Run(steps).value.texts|)
  {
    if Undecided(Run(steps).value) {
      var more := NewestCanBeDropped(steps, text);
    } else {
      forall more | Calm(more) && Run(steps + [Write(text)] + more).Some?
        ensures KeptOrClaimed(Run(steps + [Write(text)] + more).value, |Run(steps).value.texts|)
      {
        NewestSurvives(steps, text, more);
      }
    }
  }

  // ----- The newest version need not survive -----

  /** Two stale consumers overlap a write: the older version is linked back and the newer one is dropped over it. */
  const OVERTAKEN: seq<Step> := [
    Write("old"), Call(0, "x"), Take(0), Compare(0, true),
    Write("new"), Call(1, "x"), Take(1), Compare(1, true),
    LinkBack(0), LinkBack(1), Unlink(0), Unlink(1)]

  /** The first part of the overtaken run: both consumers have taken a version that is not theirs. */
  lemma BothHoldStale() returns (steps: seq<Step>, s: State)
    ensures steps == OVERTAKEN[..8] && Run(steps) == Some(s)
    ensures s.texts == ["old", "new"] && s.path == None && s.left == [] && !s.faulted
    ensures s.places == [InHands(0), InHands(1)] && s.callers == map[0 := Mismatched(0), 1 := Mismatched(1)]
  {
    steps, s := [], INIT;
    steps, s := Extend(steps, s, Write("old"));
    steps, s := Extend(steps, s, Call(0, "x"));
    steps, s := Extend(steps, s, Take(0));
    assert s.callers == map[0 := Holding("x", 0)];
    steps, s := Extend(steps, s, Compare(0, true));
    steps, s := Extend(steps, s, Write("new"));
    steps, s := Extend(steps, s, Call(1, "x"));
    steps, s := Extend(steps, s, Take(1));
    assert s.callers == map[0 := Mismatched(0), 1 := Holding("x", 1)];
    steps, s := Extend(steps, s, Compare(1, true));
    assert s.callers == map[0 := Mismatched(0), 1 := Mismatched(1)];
  }

  lemma Extend(steps: seq<Step>, s: State, step: Step) returns (more: seq<Step>, t: State)
    requires Run(steps) == Some(s) && Do(s, step).Some?
    ensures more == steps + [step] && Do(s, step) == Some(t) && Run(more) == Some(t)
  {
    more, t := steps + [step], Do(s, step).value;
    Then(steps, s, step, t);
  }

  /** The middle part: the older version came back first, so the newer one finds the path taken. */
  lemma StaleLinkedBack() returns (steps: seq<Step>, s: State)
    ensures steps == OVERTAKEN[..10] && Run(steps) == Some(s)
    ensures s.texts == ["old", "new"] && s.path == Some(0) && s.left == [(1, DroppedOver(0))] && !s.faulted
    ensures s.callers == map[0 := Restored, 1 := Restored]
  {
    steps, s := BothHoldStale();
    steps, s := Extend(steps, s, LinkBack(0));
    assert s.path == Some(0) && s.callers[1] == Mismatched(1);
    steps, s := Extend(steps, s, LinkBack(1));
    assert s.callers == map[0 := Restored, 1 := Restored];
  }

  /** A concrete run without a fault in which the newest version is dropped and an older one ends up at the path. */
  lemma NewestMayBeDropped()
    ensures Run(OVERTAKEN).Some?
    ensures var s := Run(OVERTAKEN).value;
      Quiet(s) && !s.faulted && s.path == Some(0) && |s.texts| == 2 && s.left == [(1, DroppedOver(0))]
  {
    var steps, s := StaleLinkedBack();
    steps, s := Extend(steps, s, Unlink(0));
    steps, s := Extend(steps, s, Unlink(1));
    assert s.callers == map[0 := Lost, 1 := Lost];
    assert steps == OVERTAKEN;
  }

  // ----- A consumer that nothing interferes with -----

  lemma TakesAlone(steps: seq<Step>, s: State, c: Caller, expected: string, v: Version) returns (more: seq<Step>, t: State)
    requires Run(steps) == Some(s) && c in s.callers && s.callers[c] == Called(expected) && s.path == Some(v)
    ensures more == steps + [Take(c)] + [Compare(c, true)] && Run(more) == Some(t) && v < |s.texts|
    ensures c in t.callers && t.callers[c] == if expected == s.texts[v] then Matched(expected, v) else Mismatched(v)
    ensures t.path == None && t.texts == s.texts && t.left == s.left && |t.places| == |s.texts|
  {
    RunKeepsInv(steps);
    more, t := Extend(steps, s, Take(c));
    more, t := Extend(more, t, Compare(c, true));
  }

  /** In every reachable state, a consumer that expects the text at the path and runs alone wins that version. */
  lemma AloneClaimsTheExpected(steps: seq<Step>, c: Caller, v: Version)
    requires Run(steps).Some? && Run(steps).value.path == Some(v) && v < |Run(steps).value.texts|
    requires c in Run(steps).value.callers && Run(steps).value.callers[c] == Called(Run(steps).value.texts[v])
    ensures var s, t := Run(steps).value, Run(steps + [Take(c), Compare(c, true), Finish(c)]);
      && t.Some? && t.value.path == None && t.value.callers[c] == Won(|s.left|)
      && t.value.left == s.left + [(v, Claimed(c, s.texts[v]))]
  {
    var s := Run(steps).value;
    var more, t := TakesAlone(steps, s, c, s.texts[v], v);
    more, t := Extend(more, t, Finish(c));
    assert more == steps + [Take(c), Compare(c, true), Finish(c)];
  }

  /** One that expects another text puts the version back and returns false. */
  lemma AloneRestoresTheUnexpected(steps: seq<Step>, c: Caller, expected: string, v: Version)
    requires Run(steps).Some? && Run(steps).value.path == Some(v) && v < |Run(steps).value.texts|
    requires c in Run(steps).value.callers && Run(steps).value.callers[c] == Called(expected) && expected != Run(steps).value.texts[v]
    ensures var s, t := Run(steps).value, Run(steps + [Take(c), Compare(c, true), LinkBack(c), Unlink(c)]);
      t.Some? && t.value.path == Some(v) && t.value.callers[c] == Lost && t.value.left == s.left && t.value.texts == s.texts
  {
    var s := Run(steps).value;
    var more, t := TakesAlone(steps, s, c, expected, v);
    more, t := Extend(more, t, LinkBack(c));
    assert t.callers[c] == Restored;
    more, t := Extend(more, t, Unlink(c));
    assert more == steps + [Take(c), Compare(c, true), LinkBack(c), Unlink(c)];
  }
}
