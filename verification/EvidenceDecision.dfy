/** The gates that judge a chain by its recorded test runs. */
module EvidenceDecision {
  import opened Text
  import opened Logs
  import opened RunRecords

  datatype Decision =
    | Pass(entry: Entry, earlierFailures: nat)
    | PassTreeUnverified(entry: Entry)
    | DeferredCi(entry: Entry, greenCommands: nat, unbound: bool)
    | RunInProgress(entry: Entry)
    | RunFailed(entry: Entry)
    | RunInterrupted(entry: Entry)
    | Stale(entry: Entry)
    | MutatedDuringRun(entry: Entry)
    | Missing
    | CommandMismatch(entry: Entry)
    | InvalidRecord(entry: Entry)

  function Last<T>(s: seq<T>): T
    requires s != []
  {
    s[|s| - 1]
  }

  // ----- Properties of one entry -----

  predicate FullOrInvalid(e: Entry) { e.Invalid? || e.record.scope == Full }
  predicate TestOrInvalid(e: Entry) { e.Invalid? || e.record.scope in {Full, Scoped} }
  predicate IsValid(e: Entry) { e.Valid? }

  function Running(w: World): Entry -> bool
  {
    (e: Entry) => e.Valid? && EffectiveState(e.record, w) == StillRunning
  }

  function Finished(w: World): Entry -> bool
  {
    (e: Entry) => e.Valid? && EffectiveState(e.record, w) != StillRunning
  }

  function EndsOn(t: string): Entry -> bool
  {
    (e: Entry) => e.Valid? && e.record.treeEnd == Some(t)
  }

  function NotClean(w: World): Entry -> bool
  {
    (e: Entry) => e.Valid? && (EffectiveState(e.record, w) != Completed || e.record.exitCode != Some(0))
  }

  predicate Matches(e: Entry, configured: Option<string>)
    requires e.Valid?
  {
    configured.None? || configured.value == "" || e.record.command == configured.value
  }

  // ----- The local gate -----

  function Decide(entries: seq<Entry>, tree: Option<string>, configured: Option<string>, w: World): Decision
  {
    var full := Select(entries, FullOrInvalid);
    if full != [] && Last(full).Invalid? then InvalidRecord(Last(full))
    else
      var valid := Select(full, IsValid);
      var running := Select(valid, Running(w));
      if running != [] then RunInProgress(Last(running))
      else
        var finished := Select(valid, Finished(w));
        if finished == [] then Missing
        else if tree.None? then Unverified(Last(finished), configured, w)
        else
          var onTree := Select(finished, EndsOn(tree.value));
          if onTree == [] then OffTree(Last(finished), w)
          else OnTree(Last(onTree), |Select(onTree[..|onTree| - 1], NotClean(w))|, configured, w)
  }

  function Unverified(last: Entry, configured: Option<string>, w: World): Decision
  {
    if last.Invalid? then InvalidRecord(last)
    else if EffectiveState(last.record, w) == Interrupted then RunInterrupted(last)
    else if last.record.exitCode != Some(0) then RunFailed(last)
    else if !Matches(last, configured) then CommandMismatch(last)
    else PassTreeUnverified(last)
  }

  function OffTree(last: Entry, w: World): Decision
  {
    if last.Invalid? then InvalidRecord(last)
    else if EffectiveState(last.record, w) == Interrupted then RunInterrupted(last)
    else if last.record.exitCode != Some(0) then RunFailed(last)
    else Stale(last)
  }

  function OnTree(last: Entry, earlierFailures: nat, configured: Option<string>, w: World): Decision
  {
    if last.Invalid? then InvalidRecord(last)
    else if EffectiveState(last.record, w) == Interrupted then RunInterrupted(last)
    else if last.record.treeStart != last.record.treeEnd then MutatedDuringRun(last)
    else if last.record.exitCode != Some(0) then RunFailed(last)
    else if !Matches(last, configured) then CommandMismatch(last)
    else Pass(last, earlierFailures)
  }

  // ----- What the local gate means -----

  predicate FullValid(e: Entry) { e.Valid? && e.record.scope == Full }

  function FullRunning(w: World): Entry -> bool
  {
    (e: Entry) => FullValid(e) && EffectiveState(e.record, w) == StillRunning
  }

  function FullFinished(w: World): Entry -> bool
  {
    (e: Entry) => FullValid(e) && EffectiveState(e.record, w) != StillRunning
  }

  function FullOnTree(w: World, t: string): Entry -> bool
  {
    (e: Entry) => FullValid(e) && EffectiveState(e.record, w) != StillRunning && e.record.treeEnd == Some(t)
  }

  /** The newest entry that is a full run or invalid is not invalid. */
  predicate Trusted(entries: seq<Entry>)
  {
    Newest(entries, FullOrInvalid).Some? ==> Newest(entries, FullOrInvalid).value.Valid?
  }

  /** Completed with exit code 0 and the configured command, without changing the tree. */
  predicate Green(e: Entry, configured: Option<string>, w: World)
  {
    && e.Valid?
    && EffectiveState(e.record, w) == Completed
    && e.record.treeStart == e.record.treeEnd
    && e.record.exitCode == Some(0)
    && Matches(e, configured)
  }

  lemma DecideFilters(entries: seq<Entry>, w: World)
    ensures var valid := Select(Select(entries, FullOrInvalid), IsValid);
      && Select(valid, Running(w)) == Select(entries, FullRunning(w))
      && Select(valid, Finished(w)) == Select(entries, FullFinished(w))
  {
    SelectSelect(entries, FullOrInvalid, IsValid, FullValid);
    SelectSelect(entries, FullValid, Running(w), FullRunning(w));
    SelectSelect(entries, FullValid, Finished(w), FullFinished(w));
  }

  /** The decision apart from the count of earlier failures, from the newest entries of each kind. */
  function ByNewest(newest: Option<Entry>, running: Option<Entry>, finished: Option<Entry>, onTree: Option<Entry>,
    earlierFailures: nat, tree: Option<string>, configured: Option<string>, w: World): Decision
  {
    if newest.Some? && newest.value.Invalid? then InvalidRecord(newest.value)
    else if running.Some? then RunInProgress(running.value)
    else if finished.None? then Missing
    else if tree.None? then Unverified(finished.value, configured, w)
    else if onTree.None? then OffTree(finished.value, w)
    else OnTree(onTree.value, earlierFailures, configured, w)
  }

  function NewestOnTree(entries: seq<Entry>, tree: Option<string>, w: World): Option<Entry>
  {
    if tree.None? then None else Newest(entries, FullOnTree(w, tree.value))
  }

  function LastOption(kept: seq<Entry>): Option<Entry>
  {
    if kept == [] then None else Some(Last(kept))
  }

  /** The newest entries are the last ones of the filtered logs. */
  lemma LastOf(entries: seq<Entry>, p: Entry -> bool, kept: seq<Entry>)
    requires kept == Select(entries, p)
    ensures Newest(entries, p) == LastOption(kept)
  {
    LastIsNewest(entries, p);
  }

  lemma DecideUnfold(entries: seq<Entry>, tree: Option<string>, configured: Option<string>, w: World,
    full: seq<Entry>, running: seq<Entry>, finished: seq<Entry>, onTree: seq<Entry>, k: nat)
    requires full == Select(entries, FullOrInvalid)
    requires running == Select(entries, FullRunning(w)) && finished == Select(entries, FullFinished(w))
    requires tree.Some? ==> onTree == Select(finished, EndsOn(tree.value))
    requires onTree != [] ==> k == |Select(onTree[..|onTree| - 1], NotClean(w))|
    ensures Decide(entries, tree, configured, w) == ByNewest(LastOption(full), LastOption(running), LastOption(finished),
      if tree.None? then None else LastOption(onTree), k, tree, configured, w)
  {
    DecideFilters(entries, w);
  }

  lemma DecideByNewest(entries: seq<Entry>, tree: Option<string>, configured: Option<string>, w: World) returns (k: nat)
    ensures Decide(entries, tree, configured, w) ==
      ByNewest(Newest(entries, FullOrInvalid), Newest(entries, FullRunning(w)), Newest(entries, FullFinished(w)),
        NewestOnTree(entries, tree, w), k, tree, configured, w)
  {
    var full, running, finished :=
      Select(entries, FullOrInvalid), Select(entries, FullRunning(w)), Select(entries, FullFinished(w));
    LastOf(entries, FullOrInvalid, full);
    LastOf(entries, FullRunning(w), running);
    LastOf(entries, FullFinished(w), finished);
    var onTree := if tree.None? then [] else Select(finished, EndsOn(tree.value));
    if tree.Some? { OnTreeFilter(entries, tree.value, w, finished, onTree); }
    k := if onTree == [] then 0 else |Select(onTree[..|onTree| - 1], NotClean(w))|;
    DecideUnfold(entries, tree, configured, w, full, running, finished, onTree, k);
  }

  lemma OnTreeFilter(entries: seq<Entry>, t: string, w: World, finished: seq<Entry>, onTree: seq<Entry>)
    requires finished == Select(entries, FullFinished(w)) && onTree == Select(finished, EndsOn(t))
    ensures Newest(entries, FullOnTree(w, t)) == LastOption(onTree)
  {
    SelectSelect(entries, FullFinished(w), EndsOn(t), FullOnTree(w, t));
    LastOf(entries, FullOnTree(w, t), onTree);
  }

  /** The gate passes exactly when it trusts the log, nothing runs, and the newest full run on the tree is green. */
  lemma PassIffNewestGreen(entries: seq<Entry>, t: string, configured: Option<string>, w: World)
    ensures Decide(entries, Some(t), configured, w).Pass? <==>
      && Trusted(entries)
      && Newest(entries, FullRunning(w)).None?
      && Newest(entries, FullOnTree(w, t)).Some?
      && Green(Newest(entries, FullOnTree(w, t)).value, configured, w)
    ensures Decide(entries, Some(t), configured, w).Pass? ==>
      Newest(entries, FullOnTree(w, t)) == Some(Decide(entries, Some(t), configured, w).entry)
  {
    var k := DecideByNewest(entries, Some(t), configured, w);
    NewestHas(entries, FullOnTree(w, t));
    NewestNarrower(entries, FullFinished(w), FullOnTree(w, t));
  }

  function DirtyOnTree(w: World, t: string): Entry -> bool
  {
    (e: Entry) => FullOnTree(w, t)(e) && NotClean(w)(e)
  }

  /** The earlier failures a pass reports are all full runs that ended on the tree and were not clean. */
  lemma EarlierFailuresAreCounted(entries: seq<Entry>, t: string, configured: Option<string>, w: World)
    requires Decide(entries, Some(t), configured, w).Pass?
    ensures Decide(entries, Some(t), configured, w).earlierFailures == |Select(entries, DirtyOnTree(w, t))|
  {
    DecideFilters(entries, w);
    var finished := Select(entries, FullFinished(w));
    var onTree := Select(finished, EndsOn(t));
    SelectSelect(entries, FullFinished(w), EndsOn(t), FullOnTree(w, t));
    SelectSelect(entries, FullOnTree(w, t), NotClean(w), DirtyOnTree(w, t));
    PassIffNewestGreen(entries, t, configured, w);
    LastOf(entries, FullOnTree(w, t), onTree);
    var n := |onTree| - 1;
    CountButLast(onTree, onTree[..n], onTree[n], NotClean(w));
  }

  lemma CountButLast(entries: seq<Entry>, init: seq<Entry>, last: Entry, p: Entry -> bool)
    requires entries == init + [last]
    ensures |Select(entries, p)| == |Select(init, p)| + if p(last) then 1 else 0
  {
    SelectSnoc(init, last, p);
  }

  /** The same in terms of positions in the log. */
  lemma PassIff(entries: seq<Entry>, t: string, configured: Option<string>, w: World)
    ensures Decide(entries, Some(t), configured, w).Pass? <==>
      && (forall i :: 0 <= i < |entries| && entries[i].Invalid? ==> exists j :: i < j < |entries| && FullValid(entries[j]))
      && (forall i :: 0 <= i < |entries| ==> !FullRunning(w)(entries[i]))
      && (exists i: nat, e :: IsNewest(entries, FullOnTree(w, t), i, e) && Green(e, configured, w))
  {
    PassIffNewestGreen(entries, t, configured, w);
    NewestAt(entries, FullRunning(w));
    NewestAt(entries, FullOnTree(w, t));
    TrustedAt(entries);
    var newest := Newest(entries, FullOnTree(w, t));
    if newest.Some? {
      assert exists i: nat :: IsNewest(entries, FullOnTree(w, t), i, newest.value);
    }
  }

  lemma TrustedAt(entries: seq<Entry>)
    ensures Trusted(entries) <==>
      forall i :: 0 <= i < |entries| && entries[i].Invalid? ==> exists j :: i < j < |entries| && FullValid(entries[j])
  {
    NewestAt(entries, FullOrInvalid);
    var newest := Newest(entries, FullOrInvalid);
    if newest.Some? {
      var e := newest.value;
      var k: nat :| IsNewest(entries, FullOrInvalid, k, e);
      if e.Valid? {
        assert FullValid(entries[k]);
        assert forall i :: 0 <= i < |entries| && entries[i].Invalid? ==> i < k || FullOrInvalid(entries[i]);
      } else {
        assert entries[k].Invalid?;
        assert forall j :: k < j < |entries| ==> !FullOrInvalid(entries[j]);
      }
    } else {
      assert forall i :: 0 <= i < |entries| && entries[i].Invalid? ==> FullOrInvalid(entries[i]);
    }
  }

  /** A pass outlives time and the end of processes, as long as no process is started and the log stays as it is. */
  lemma PassIsStable(entries: seq<Entry>, t: string, configured: Option<string>, w: World, later: World)
    requires later.alive <= w.alive && later.now >= w.now && later.maxRunMs == w.maxRunMs
    requires Decide(entries, Some(t), configured, w).Pass?
    ensures Decide(entries, Some(t), configured, later).Pass?
    ensures Decide(entries, Some(t), configured, later).entry == Decide(entries, Some(t), configured, w).entry
  {
    PassIffNewestGreen(entries, t, configured, w);
    PassIffNewestGreen(entries, t, configured, later);
    LastIsNewest(entries, FullRunning(w));
    SelectMembers(entries, FullRunning(w));
    assert forall e :: e in entries && FullRunning(w)(e) ==> e in Select(entries, FullRunning(w));
    SameStates(entries, w, later);
    forall e | e in entries
      ensures FullOnTree(w, t)(e) == FullOnTree(later, t)(e) && FullRunning(w)(e) == FullRunning(later)(e)
    {
      if FullValid(e) {
        assert EffectiveState(e.record, later) == EffectiveState(e.record, w);
      }
    }
    SameNewest(entries, FullOnTree(w, t), FullOnTree(later, t));
    SameNewest(entries, FullRunning(w), FullRunning(later));
  }

  lemma SameStates(entries: seq<Entry>, w: World, later: World)
    requires later.alive <= w.alive && later.now >= w.now && later.maxRunMs == w.maxRunMs
    requires forall e :: e in entries ==> !FullRunning(w)(e)
    ensures forall e :: e in entries && FullValid(e) ==> EffectiveState(e.record, later) == EffectiveState(e.record, w)
  {
    forall e | e in entries && FullValid(e) ensures EffectiveState(e.record, later) == EffectiveState(e.record, w) {
      assert !FullRunning(w)(e);
    }
  }

  lemma {:induction false} SameNewest(entries: seq<Entry>, p: Entry -> bool, q: Entry -> bool)
    requires forall e :: e in entries ==> p(e) == q(e)
    ensures Newest(entries, p) == Newest(entries, q)
  {
    if entries != [] {
      assert forall e :: e in entries[1..] ==> e in entries;
      SameNewest(entries[1..], p, q);
    }
  }

  // ----- What every other answer means -----

  /** Nothing invalid is newest, and no full run is in progress. */
  predicate Idle(entries: seq<Entry>, w: World)
  {
    Trusted(entries) && Newest(entries, FullRunning(w)).None?
  }

  /** The run that is judged: the newest one on the tree, or the newest one at all when the tree is unknown or has none. */
  function JudgedRun(entries: seq<Entry>, tree: Option<string>, w: World): Option<Entry>
  {
    if NewestOnTree(entries, tree, w).Some? then NewestOnTree(entries, tree, w) else Newest(entries, FullFinished(w))
  }

  /** For every answer, what the log says: the answers exclude each other, so each is given exactly when this holds. */
  ghost predicate Explained(d: Decision, entries: seq<Entry>, tree: Option<string>, configured: Option<string>, w: World)
  {
    match d
    case InvalidRecord(e) => Newest(entries, FullOrInvalid) == Some(e) && e.Invalid?
    case RunInProgress(e) => Trusted(entries) && Newest(entries, FullRunning(w)) == Some(e)
    case Missing => Idle(entries, w) && Newest(entries, FullFinished(w)).None?
    case RunInterrupted(e) => JudgedIs(e, entries, tree, w) && EffectiveState(e.record, w) == Interrupted
    case MutatedDuringRun(e) =>
      JudgedIs(e, entries, tree, w) && EffectiveState(e.record, w) == Completed
      && NewestOnTree(entries, tree, w).Some? && e.record.treeStart != e.record.treeEnd
    case RunFailed(e) =>
      JudgedIs(e, entries, tree, w) && EffectiveState(e.record, w) == Completed && e.record.exitCode != Some(0)
      && (NewestOnTree(entries, tree, w).Some? ==> e.record.treeStart == e.record.treeEnd)
    case Stale(e) =>
      JudgedIs(e, entries, tree, w) && EffectiveState(e.record, w) == Completed && e.record.exitCode == Some(0)
      && tree.Some? && NewestOnTree(entries, tree, w).None?
    case CommandMismatch(e) =>
      JudgedIs(e, entries, tree, w) && EffectiveState(e.record, w) == Completed && e.record.exitCode == Some(0)
      && !Matches(e, configured) && (tree.None? || (NewestOnTree(entries, tree, w).Some? && e.record.treeStart == e.record.treeEnd))
    case PassTreeUnverified(e) =>
      JudgedIs(e, entries, tree, w) && EffectiveState(e.record, w) == Completed && e.record.exitCode == Some(0)
      && Matches(e, configured) && tree.None?
    case Pass(e, _) => JudgedIs(e, entries, tree, w) && Green(e, configured, w) && NewestOnTree(entries, tree, w).Some?
    case DeferredCi(_, _, _) => false
  }

  ghost predicate JudgedIs(e: Entry, entries: seq<Entry>, tree: Option<string>, w: World)
  {
    Idle(entries, w) && JudgedRun(entries, tree, w) == Some(e) && FullFinished(w)(e)
  }

  lemma JudgedIsFinished(entries: seq<Entry>, tree: Option<string>, w: World)
    ensures JudgedRun(entries, tree, w).Some? ==> FullFinished(w)(JudgedRun(entries, tree, w).value)
    ensures NewestOnTree(entries, tree, w).Some? ==> Newest(entries, FullFinished(w)).Some?
  {
    NewestHas(entries, FullFinished(w));
    if tree.Some? {
      NewestHas(entries, FullOnTree(w, tree.value));
      NewestNarrower(entries, FullFinished(w), FullOnTree(w, tree.value));
    }
  }

  lemma OnTreeExplained(e: Entry, k: nat, entries: seq<Entry>, tree: Option<string>, configured: Option<string>, w: World)
    requires JudgedIs(e, entries, tree, w) && NewestOnTree(entries, tree, w).Some?
    ensures Explained(OnTree(e, k, configured, w), entries, tree, configured, w)
  {
  }

  lemma OffTreeExplained(e: Entry, entries: seq<Entry>, tree: Option<string>, configured: Option<string>, w: World)
    requires JudgedIs(e, entries, tree, w) && tree.Some? && NewestOnTree(entries, tree, w).None?
    ensures Explained(OffTree(e, w), entries, tree, configured, w)
  {
  }

  lemma UnverifiedExplained(e: Entry, entries: seq<Entry>, configured: Option<string>, w: World)
    requires JudgedIs(e, entries, None, w)
    ensures Explained(Unverified(e, configured, w), entries, None, configured, w)
  {
  }

  /** Every answer of the local gate is explained by the newest entries of the log. */
  lemma AnswerIsExplained(entries: seq<Entry>, tree: Option<string>, configured: Option<string>, w: World)
    ensures Explained(Decide(entries, tree, configured, w), entries, tree, configured, w)
  {
    var k := DecideByNewest(entries, tree, configured, w);
    JudgedIsFinished(entries, tree, w);
    if Idle(entries, w) && Newest(entries, FullFinished(w)).Some? {
      var e := JudgedRun(entries, tree, w).value;
      if tree.None? {
        UnverifiedExplained(e, entries, configured, w);
      } else if NewestOnTree(entries, tree, w).None? {
        OffTreeExplained(e, entries, tree, configured, w);
      } else {
        OnTreeExplained(e, k, entries, tree, configured, w);
      }
    }
  }

  /** No two answers have the same explanation. */
  lemma ExplanationIsUnique(d: Decision, other: Decision, entries: seq<Entry>, tree: Option<string>, configured: Option<string>, w: World)
    requires Explained(d, entries, tree, configured, w) && Explained(other, entries, tree, configured, w)
    ensures d == other || (d.Pass? && other.Pass? && d.entry == other.entry)
  {
    NewestNarrower(entries, FullOrInvalid, FullRunning(w));
    JudgedIsFinished(entries, tree, w);
  }
}
