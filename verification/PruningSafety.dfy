/** What pruning the record store can and cannot do to the gates. */
module PruningSafety {
  import opened Text
  import opened Logs
  import opened RunRecords
  import opened EvidenceDecision
  import opened EvidenceCi
  import opened RecordIds
  import opened GroupPruning
  import opened EvidencePruning

  // ----- The local gate -----

  /**
   * Without ids to keep, whatever is removed: a pass after pruning was a pass before, unless the newest
   * full or invalid entry was invalid or a full run was in progress.
   */
  lemma PassAfterPruning(entries: seq<Entry>, limit: nat, t: string, configured: Option<string>, w: World)
    requires Decide(Pruned(entries, ByScope(), limit, {}), Some(t), configured, w).Pass?
    ensures Decide(entries, Some(t), configured, w).Pass? <==>
      Trusted(entries) && Newest(entries, FullRunning(w)).None?
  {
    PassIffNewestGreen(entries, t, configured, w);
    PassIffNewestGreen(Pruned(entries, ByScope(), limit, {}), t, configured, w);
    NewestInGroup(entries, ByScope(), limit, {}, FullOnTree(w, t), Some(Full));
  }

  /** Pruning only valid finished records leaves the newest full or invalid entry and the runs in progress as they are. */
  lemma PruningKeepsStatus(entries: seq<Entry>, limit: nat, keep: set<string>, w: World)
    requires limit >= 1 && DropsOnly(entries, ByScope(), limit, keep, Finished(w))
    ensures Newest(Pruned(entries, ByScope(), limit, keep), FullOrInvalid) == Newest(entries, FullOrInvalid)
    ensures Newest(Pruned(entries, ByScope(), limit, keep), FullRunning(w)) == Newest(entries, FullRunning(w))
  {
    NewestOfGroups(entries, ByScope(), limit, keep, Finished(w), FullOrInvalid);
    NewestUntouched(entries, ByScope(), limit, keep, Finished(w), FullRunning(w));
  }

  /** Pruning valid finished records, with none to keep, never turns anything else into a pass. */
  lemma PruningNeverMakesAPass(entries: seq<Entry>, limit: nat, t: string, configured: Option<string>, w: World)
    requires limit >= 1 && DropsOnly(entries, ByScope(), limit, {}, Finished(w))
    requires Decide(Pruned(entries, ByScope(), limit, {}), Some(t), configured, w).Pass?
    ensures Decide(entries, Some(t), configured, w).Pass?
  {
    PassAfterPruning(entries, limit, t, configured, w);
    PruningKeepsStatus(entries, limit, {}, w);
    PassIffNewestGreen(Pruned(entries, ByScope(), limit, {}), t, configured, w);
  }

  /** Without a fingerprint, pruning valid finished records does not change the answer, whatever is kept. */
  lemma PruningKeepsUnverifiedAnswer(entries: seq<Entry>, limit: nat, keep: set<string>, configured: Option<string>, w: World)
    requires limit >= 1 && DropsOnly(entries, ByScope(), limit, keep, Finished(w))
    ensures Decide(Pruned(entries, ByScope(), limit, keep), None, configured, w) == Decide(entries, None, configured, w)
  {
    var pruned := Pruned(entries, ByScope(), limit, keep);
    PruningKeepsStatus(entries, limit, keep, w);
    FinishedIsNewest(entries, w);
    FinishedIsNewest(pruned, w);
    var k := DecideByNewest(entries, None, configured, w);
    var m := DecideByNewest(pruned, None, configured, w);
  }

  /** In a trusted log without a run in progress, the newest full or invalid entry is the newest finished full run. */
  lemma FinishedIsNewest(entries: seq<Entry>, w: World)
    ensures Trusted(entries) && Newest(entries, FullRunning(w)).None? ==>
      Newest(entries, FullFinished(w)) == Newest(entries, FullOrInvalid)
  {
    NewestHas(entries, FullOrInvalid);
    NewestNarrower(entries, FullOrInvalid, FullFinished(w));
    NewestNarrower(entries, FullOrInvalid, FullRunning(w));
  }

  /**
   * A green run on the tree that is to be kept has `limit` newer records of its scope, and every later run on the tree
   * is one that does not stay.
   */
  ghost predicate OldGreenIsLeft(entries: seq<Entry>, limit: nat, keep: set<string>, t: string, configured: Option<string>, w: World, i: nat)
  {
    && i < |entries| && FullOnTree(w, t)(entries[i]) && Green(entries[i], configured, w) && entries[i].id in keep
    && Count(entries[i + 1..], ByScope(), Some(Full)) >= limit
    && forall j :: i < j < |entries| && FullOnTree(w, t)(entries[j]) ==> !StaysAt(entries, ByScope(), limit, keep, j)
  }

  lemma FullGroup(w: World, t: string, e: Entry)
    requires FullOnTree(w, t)(e)
    ensures GroupOf(e) == Some(Full) && FullValid(e)
  {
  }

  /** What a green run left by pruning looks like before, when the newest run on the tree was not green. */
  lemma FindOldGreen(entries: seq<Entry>, limit: nat, keep: set<string>, t: string, configured: Option<string>, w: World) returns (i: nat)
    requires var after := Newest(Pruned(entries, ByScope(), limit, keep), FullOnTree(w, t));
      after.Some? && Green(after.value, configured, w)
    requires var before := Newest(entries, FullOnTree(w, t)); before.Some? && !Green(before.value, configured, w)
    ensures OldGreenIsLeft(entries, limit, keep, t, configured, w, i)
  {
    var p := FullOnTree(w, t);
    i := NewestLeft(entries, ByScope(), limit, keep, p);
    NewestAt(entries, p);
    var e := Newest(entries, p).value;
    var k: nat :| IsNewest(entries, p, k, e);
    FullGroup(w, t, entries[i]);
    FullGroup(w, t, e);
    assert k > i && !StaysAt(entries, ByScope(), limit, keep, k);
    FewerLater(entries, Some(Full), i, k);
  }

  lemma FewerLater(entries: seq<Entry>, g: Group, i: nat, k: nat)
    requires i <= k < |entries|
    ensures Count(entries[k + 1..], ByScope(), g) <= Count(entries[i + 1..], ByScope(), g)
    ensures entries[k..][1..] == entries[k + 1..] && entries[i..][1..] == entries[i + 1..]
  {
    assert entries[i + 1..][k - i..] == entries[k + 1..];
    CountOfTail(entries[i + 1..], ByScope(), g, k - i);
  }

  lemma OldGreenIsNewestLeft(entries: seq<Entry>, limit: nat, keep: set<string>, t: string, configured: Option<string>, w: World, i: nat)
    requires OldGreenIsLeft(entries, limit, keep, t, configured, w, i)
    ensures Newest(Pruned(entries, ByScope(), limit, keep), FullOnTree(w, t)) == Some(entries[i])
  {
    assert StaysAt(entries, ByScope(), limit, keep, i);
    LeftIsNewest(entries, ByScope(), limit, keep, FullOnTree(w, t), i);
  }

  /**
   * With ids to keep, pruning makes a pass of a log exactly when it is trusted with nothing running, its newest full run
   * on the tree is not green, and a kept green one has `limit` newer records of its scope and no later run on the tree
   * that stays.
   */
  lemma PassMadeByKeeping(entries: seq<Entry>, limit: nat, keep: set<string>, t: string, configured: Option<string>, w: World)
    requires limit >= 1 && DropsOnly(entries, ByScope(), limit, keep, Finished(w))
    ensures
      Decide(Pruned(entries, ByScope(), limit, keep), Some(t), configured, w).Pass?
      && !Decide(entries, Some(t), configured, w).Pass? <==>
        && Trusted(entries) && Newest(entries, FullRunning(w)).None?
        && Newest(entries, FullOnTree(w, t)).Some? && !Green(Newest(entries, FullOnTree(w, t)).value, configured, w)
        && exists i: nat :: OldGreenIsLeft(entries, limit, keep, t, configured, w, i)
  {
    var pruned := Pruned(entries, ByScope(), limit, keep);
    var before, after := Newest(entries, FullOnTree(w, t)), Newest(pruned, FullOnTree(w, t));
    PruningKeepsStatus(entries, limit, keep, w);
    PassIffNewestGreen(entries, t, configured, w);
    PassIffNewestGreen(pruned, t, configured, w);
    if before.None? {
      PrunedNone(entries, ByScope(), limit, keep, FullOnTree(w, t));
    } else if after.Some? && Green(after.value, configured, w) && !Green(before.value, configured, w) {
      var i := FindOldGreen(entries, limit, keep, t, configured, w);
    }
    if i: nat :| OldGreenIsLeft(entries, limit, keep, t, configured, w, i) {
      OldGreenIsNewestLeft(entries, limit, keep, t, configured, w, i);
    }
  }

  /** Keeping entries that stay anyway changes nothing. */
  lemma {:induction false} KeepingTheNewestIsHarmless(entries: seq<Entry>, limit: nat, keep: set<string>)
    requires forall i :: 0 <= i < |entries| && entries[i].id in keep ==> Count(entries[i + 1..], ByScope(), GroupOf(entries[i])) < limit
    ensures Pruned(entries, ByScope(), limit, keep) == Pruned(entries, ByScope(), limit, {})
  {
    if entries != [] {
      var rest := entries[1..];
      assert entries[0].id in keep ==> Count(entries[0 + 1..], ByScope(), GroupOf(entries[0])) < limit;
      forall i | 0 <= i < |rest| && rest[i].id in keep ensures Count(rest[i + 1..], ByScope(), GroupOf(rest[i])) < limit {
        assert rest[i] == entries[i + 1] && rest[i + 1..] == entries[i + 2..];
      }
      KeepingTheNewestIsHarmless(rest, limit, keep);
    }
  }

  // ----- Keeping an old id can make a pass -----

  function FullRun(id: string, command: string, scope: Scope, exit: nat, tree: string): Entry
  {
    Valid(id, Record(scope, command, Completed, 1, 0, Some(exit), Some(tree), Some(tree)))
  }

  function Id(n: nat): string
  {
    IdAt("er1_", n)
  }

  function Tree(c: char): (t: string)
    ensures |t| == 40 && forall i :: 0 <= i < 40 ==> t[i] == c
  {
    seq(40, _ => c)
  }

  /** `n` green runs of a command, one after the other from the time `start` on. */
  function Newer(n: nat, start: nat, command: string, scope: Scope, tree: string): seq<Entry>
  {
    if n == 0 then [] else [FullRun(Id(start), command, scope, 0, tree)] + Newer(n - 1, start + 1, command, scope, tree)
  }

  lemma {:induction false} NewerRuns(n: nat, start: nat, command: string, scope: Scope, tree: string)
    ensures var runs := Newer(n, start, command, scope, tree);
      && |runs| == n && Count(runs, ByScope(), Some(scope)) == n
      && forall e :: e in runs ==> e == FullRun(e.id, command, scope, 0, tree)
  {
    if n > 0 {
      NewerRuns(n - 1, start + 1, command, scope, tree);
      assert Newer(n, start, command, scope, tree)[1..] == Newer(n - 1, start + 1, command, scope, tree);
    }
  }

  lemma {:induction false} NewerStay(n: nat, start: nat, limit: nat, keep: set<string>, command: string, scope: Scope, tree: string)
    requires n <= limit
    ensures Pruned(Newer(n, start, command, scope, tree), ByScope(), limit, keep) == Newer(n, start, command, scope, tree)
  {
    if n > 0 {
      NewerRuns(n - 1, start + 1, command, scope, tree);
      assert Newer(n, start, command, scope, tree)[1..] == Newer(n - 1, start + 1, command, scope, tree);
      NewerStay(n - 1, start + 1, limit, keep, command, scope, tree);
    }
  }

  predicate Proper(e: Entry)
  {
    e.Valid? && e.record.treeStart == e.record.treeEnd && e.record.treeEnd.Some? && IsTree(e.record.treeEnd.value)
  }

  /** Runs recorded one after the other from the time `start` on. */
  predicate InTimeOrder(entries: seq<Entry>, start: nat)
  {
    forall i :: 0 <= i < |entries| ==> entries[i].id == Id(start + i) && Proper(entries[i])
  }

  lemma InTimeOrderCons(e: Entry, rest: seq<Entry>, start: nat)
    requires e.id == Id(start) && Proper(e) && InTimeOrder(rest, start + 1)
    ensures InTimeOrder([e] + rest, start)
  {
    var all := [e] + rest;
    forall i | 0 <= i < |all| ensures all[i].id == Id(start + i) && Proper(all[i]) {
      if i > 0 { assert all[i] == rest[i - 1] && start + 1 + (i - 1) == start + i; }
    }
  }

  lemma {:induction false} NewerInTime(n: nat, start: nat, command: string, scope: Scope, tree: string)
    requires IsTree(tree)
    ensures InTimeOrder(Newer(n, start, command, scope, tree), start)
  {
    if n > 0 {
      NewerInTime(n - 1, start + 1, command, scope, tree);
      InTimeOrderCons(FullRun(Id(start), command, scope, 0, tree), Newer(n - 1, start + 1, command, scope, tree), start);
    }
  }

  /** They are a log that the store yields. */
  lemma TimedIsStored(entries: seq<Entry>)
    requires |entries| <= TIMES && InTimeOrder(entries, 0)
    ensures Stored(entries)
  {
    forall i, j | 0 <= i < j < |entries| ensures Precedes(entries[i].id, entries[j].id) { EarlierIdFirst("er1_", i, j); }
    forall e | e in entries ensures Listed(e) {
      var i :| 0 <= i < |entries| && entries[i] == e;
      IdIsId("er1_", i);
    }
  }

  lemma TreesAreTrees()
    ensures IsTree(Tree('a')) && IsTree(Tree('b'))
  {
  }

  /** The log of the counterexample: an old green run on the tree, a newer failed one, and `limit` later runs elsewhere. */
  function KeptLog(limit: nat): seq<Entry>
  {
    [FullRun(Id(0), "test", Full, 0, Tree('a'))]
    + ([FullRun(Id(1), "test", Full, 1, Tree('a'))] + Newer(limit, 2, "test", Full, Tree('b')))
  }

  lemma NothingOf(runs: seq<Entry>, p: Entry -> bool)
    requires forall e :: e in runs ==> !p(e)
    ensures Newest(runs, p).None?
  {
    NewestHas(runs, p);
  }

  /**
   * In any log where a green run on the tree is kept, a later one that is not green is removed, and only runs
   * elsewhere follow, pruning makes a pass.
   */
  lemma KeepingMakesAPass(kept: Entry, failed: Entry, runs: seq<Entry>, limit: nat, keep: set<string>, t: string, w: World)
    requires FullOnTree(w, t)(kept) && FullOnTree(w, t)(failed) && Green(kept, None, w) && !Green(failed, None, w)
    requires kept.id in keep && failed.id !in keep
    requires Count(runs, ByScope(), Some(Full)) == limit && Pruned(runs, ByScope(), limit, keep) == runs
    requires forall e :: e in runs ==> FullFinished(w)(e) && !FullOnTree(w, t)(e)
    ensures !Decide([kept] + ([failed] + runs), Some(t), None, w).Pass?
    ensures Pruned([kept] + ([failed] + runs), ByScope(), limit, keep) == [kept] + runs
    ensures Decide([kept] + runs, Some(t), None, w).Pass?
  {
    var tail := [failed] + runs;
    NothingOf(runs, FullOnTree(w, t));
    NothingOf(runs, FullRunning(w));
    NewestCons(failed, runs, FullOnTree(w, t));
    NewestCons(kept, tail, FullOnTree(w, t));
    NewestCons(kept, runs, FullOnTree(w, t));
    NewestCons(kept, runs, FullRunning(w));
    PassIffNewestGreen([kept] + tail, t, None, w);
    PruneTwo(kept, failed, runs, limit, keep);
    PassIffNewestGreen([kept] + runs, t, None, w);
    NewestHas([kept] + runs, FullOrInvalid);
  }

  lemma PruneTwo(kept: Entry, failed: Entry, runs: seq<Entry>, limit: nat, keep: set<string>)
    requires kept.id in keep && failed.id !in keep && GroupOf(failed) == Some(Full)
    requires Count(runs, ByScope(), Some(Full)) == limit && Pruned(runs, ByScope(), limit, keep) == runs
    ensures Pruned([kept] + ([failed] + runs), ByScope(), limit, keep) == [kept] + runs
  {
    var tail := [failed] + runs;
    assert tail[1..] == runs && ([kept] + tail)[1..] == tail;
    assert [] + runs == runs;
  }

  /** Keeping the oldest run while the newer ones on the tree are removed turns a failed gate into a pass. */
  lemma KeepingAnOldRunMakesAPass(limit: nat, w: World)
    requires 1 <= limit <= TIMES - 2
    ensures Stored(KeptLog(limit))
    ensures !Decide(KeptLog(limit), Some(Tree('a')), None, w).Pass?
    ensures Decide(Pruned(KeptLog(limit), ByScope(), limit, {Id(0)}), Some(Tree('a')), None, w).Pass?
  {
    var a, b := Tree('a'), Tree('b');
    var kept, failed, runs := FullRun(Id(0), "test", Full, 0, a), FullRun(Id(1), "test", Full, 1, a), Newer(limit, 2, "test", Full, b);
    NewerRuns(limit, 2, "test", Full, b);
    NewerStay(limit, 2, limit, {Id(0)}, "test", Full, b);
    KeptLogIsStored(kept, failed, runs, limit);
    EarlierIdFirst("er1_", 0, 1);
    NotBeforeItself(Id(0));
    assert a[0] != b[0];
    KeepingMakesAPass(kept, failed, runs, limit, {Id(0)}, a, w);
  }

  lemma KeptLogIsStored(kept: Entry, failed: Entry, runs: seq<Entry>, limit: nat)
    requires limit <= TIMES - 2 && |runs| == limit && runs == Newer(limit, 2, "test", Full, Tree('b'))
    requires kept == FullRun(Id(0), "test", Full, 0, Tree('a')) && failed == FullRun(Id(1), "test", Full, 1, Tree('a'))
    ensures Stored([kept] + ([failed] + runs))
  {
    TreesAreTrees();
    NewerInTime(limit, 2, "test", Full, Tree('b'));
    InTimeOrderCons(failed, runs, 1);
    InTimeOrderCons(kept, [failed] + runs, 0);
    TimedIsStored([kept] + ([failed] + runs));
  }

  // ----- The gate of a chain that runs in CI -----

  lemma {:induction false} PrunedAmong(entries: seq<Entry>, limit: nat, keep: set<string>)
    ensures forall e :: e in Pruned(entries, ByScope(), limit, keep) ==> e in entries
  {
    if entries != [] {
      PrunedAmong(entries[1..], limit, keep);
      assert forall e :: e in entries[1..] ==> e in entries;
    }
  }

  lemma PruningKeepsPool(entries: seq<Entry>, limit: nat, keep: set<string>, treeOf: TreeOf, w: World)
    requires HasPool(Pruned(entries, ByScope(), limit, keep), treeOf, w)
    requires Newest(Pruned(entries, ByScope(), limit, keep), TestFinished(w)) == Newest(entries, TestFinished(w))
    ensures HasPool(entries, treeOf, w)
  {
    var pruned := Pruned(entries, ByScope(), limit, keep);
    var before, after := CiPool(entries, treeOf, w), CiPool(pruned, treeOf, w);
    PrunedAmong(entries, limit, keep);
    SelectMembers(entries, Pooled(treeOf, w));
    SelectMembers(pruned, Pooled(treeOf, w));
    assert after[0] in after && after[0] in before;
    var active := treeOf(Newest(entries, TestFinished(w)).value);
    if active.Some? {
      var bound := Select(after, EndsOn(active.value));
      SelectMembers(after, EndsOn(active.value));
      SelectMembers(before, EndsOn(active.value));
      assert bound[0] in bound && bound[0] in after && bound[0] in before;
      assert bound[0] in Select(before, EndsOn(active.value));
    }
  }

  lemma TestStatus(entries: seq<Entry>, limit: nat, keep: set<string>, w: World)
    requires limit >= 1 && DropsOnly(entries, ByScope(), limit, keep, Finished(w))
    ensures Newest(Pruned(entries, ByScope(), limit, keep), TestOrInvalid) == Newest(entries, TestOrInvalid)
    ensures Newest(Pruned(entries, ByScope(), limit, keep), TestRunning(w)) == Newest(entries, TestRunning(w))
    ensures CiTrusted(entries) && Newest(entries, TestRunning(w)).None? ==>
      Newest(Pruned(entries, ByScope(), limit, keep), TestFinished(w)) == Newest(entries, TestFinished(w))
  {
    NewestOfGroups(entries, ByScope(), limit, keep, Finished(w), TestOrInvalid);
    NewestUntouched(entries, ByScope(), limit, keep, Finished(w), TestRunning(w));
    TestFinishedIsNewest(entries, w);
    TestFinishedIsNewest(Pruned(entries, ByScope(), limit, keep), w);
  }

  lemma TestFinishedIsNewest(entries: seq<Entry>, w: World)
    ensures CiTrusted(entries) && Newest(entries, TestRunning(w)).None? ==>
      Newest(entries, TestFinished(w)) == Newest(entries, TestOrInvalid)
  {
    NewestHas(entries, TestOrInvalid);
    NewestNarrower(entries, TestOrInvalid, TestFinished(w));
    NewestNarrower(entries, TestOrInvalid, TestRunning(w));
  }

  /** The entry at `i` is the newest pooled run of the command, and it is not green. */
  ghost predicate RedAt(entries: seq<Entry>, treeOf: TreeOf, w: World, c: Command, i: nat)
  {
    i < |entries| && IsNewest(entries, PooledRunOf(treeOf, w, c), i, entries[i]) && !CiGreen(entries[i], w)
  }

  ghost predicate SomeCommandRed(entries: seq<Entry>, treeOf: TreeOf, w: World)
  {
    exists c, i: nat :: RedAt(entries, treeOf, w, c, i)
  }

  /** The newest pooled run of every red command has at least `limit` newer records of its scope. */
  ghost predicate RedCommandsGo(entries: seq<Entry>, limit: nat, treeOf: TreeOf, w: World)
  {
    forall c, i: nat :: RedAt(entries, treeOf, w, c, i) ==> Count(entries[i + 1..], ByScope(), Some(c.0)) >= limit
  }

  /** The newest pooled run of every red command has fewer. */
  ghost predicate RedCommandsStay(entries: seq<Entry>, limit: nat, treeOf: TreeOf, w: World)
  {
    forall c, i: nat :: RedAt(entries, treeOf, w, c, i) ==> Count(entries[i + 1..], ByScope(), Some(c.0)) < limit
  }

  /** A pooled run, on the tree of the newest finished run if that is known, has fewer than `limit` newer records of its scope. */
  ghost predicate PoolStays(entries: seq<Entry>, limit: nat, treeOf: TreeOf, w: World)
  {
    var finished := Newest(entries, TestFinished(w));
    finished.Some? &&
    exists i :: 0 <= i < |entries| && Judged(entries[i], treeOf(finished.value), treeOf, w)
                && Count(entries[i + 1..], ByScope(), GroupOf(entries[i])) < limit
  }

  predicate Judged(e: Entry, active: Option<string>, treeOf: TreeOf, w: World)
  {
    Pooled(treeOf, w)(e) && (active.Some? ==> EndsOn(active.value)(e))
  }

  lemma CiStatusAfterPruning(entries: seq<Entry>, limit: nat, treeOf: TreeOf, w: World)
    requires limit >= 1 && DropsOnly(entries, ByScope(), limit, {}, Finished(w))
    requires var pruned := Pruned(entries, ByScope(), limit, {});
      CiTrusted(pruned) && Newest(pruned, TestRunning(w)).None? && HasPool(pruned, treeOf, w)
    ensures CiTrusted(entries) && Newest(entries, TestRunning(w)).None? && HasPool(entries, treeOf, w)
  {
    TestStatus(entries, limit, {}, w);
    PruningKeepsPool(entries, limit, {}, treeOf, w);
  }

  lemma PooledGroup(treeOf: TreeOf, w: World, c: Command)
    ensures forall e :: PooledRunOf(treeOf, w, c)(e) ==> GroupOf(e) == Some(c.0)
  {
    forall e | PooledRunOf(treeOf, w, c)(e) ensures GroupOf(e) == Some(c.0) {
      assert TestValid(e) && CommandOf(e) == c;
    }
  }

  /** There is something to judge exactly when some entry is judged. */
  lemma PoolHasJudged(entries: seq<Entry>, treeOf: TreeOf, w: World)
    ensures HasPool(entries, treeOf, w) <==>
      Newest(entries, TestFinished(w)).Some?
      && exists e :: e in entries && Judged(e, treeOf(Newest(entries, TestFinished(w)).value), treeOf, w)
  {
    var pool, finished := CiPool(entries, treeOf, w), Newest(entries, TestFinished(w));
    SelectMembers(entries, Pooled(treeOf, w));
    if finished.Some? {
      var active := treeOf(finished.value);
      var bound := if active.Some? then Select(pool, EndsOn(active.value)) else pool;
      if active.Some? { SelectMembers(pool, EndsOn(active.value)); }
      if bound != [] { assert bound[0] in bound && Judged(bound[0], active, treeOf, w); }
      if e :| e in entries && Judged(e, active, treeOf, w) { assert e in pool && e in bound; }
    }
  }

  lemma PoolAfterPruning(entries: seq<Entry>, limit: nat, treeOf: TreeOf, w: World)
    requires Newest(Pruned(entries, ByScope(), limit, {}), TestFinished(w)) == Newest(entries, TestFinished(w))
    ensures HasPool(Pruned(entries, ByScope(), limit, {}), treeOf, w) <==> PoolStays(entries, limit, treeOf, w)
  {
    var finished := Newest(entries, TestFinished(w));
    PoolHasJudged(Pruned(entries, ByScope(), limit, {}), treeOf, w);
    PrunedMembers(entries, ByScope(), limit, {});
    forall i | 0 <= i < |entries|
      ensures StaysAt(entries, ByScope(), limit, {}, i) == (Count(entries[i + 1..], ByScope(), GroupOf(entries[i])) < limit)
    {
      StaysByCount(entries, limit, i);
    }
  }

  lemma StaysByCount(entries: seq<Entry>, limit: nat, i: nat)
    requires i < |entries|
    ensures StaysAt(entries, ByScope(), limit, {}, i) == (Count(entries[i + 1..], ByScope(), GroupOf(entries[i])) < limit)
  {
    assert entries[i..][1..] == entries[i + 1..];
  }

  /** After pruning a command is red exactly when its newest run was and stays. */
  lemma CommandAfterPruning(entries: seq<Entry>, limit: nat, treeOf: TreeOf, w: World, c: Command)
    ensures var after := Newest(Pruned(entries, ByScope(), limit, {}), PooledRunOf(treeOf, w, c));
      after.Some? && !CiGreen(after.value, w) <==>
        exists i: nat :: RedAt(entries, treeOf, w, c, i) && Count(entries[i + 1..], ByScope(), Some(c.0)) < limit
  {
    var p := PooledRunOf(treeOf, w, c);
    var after := Newest(Pruned(entries, ByScope(), limit, {}), p);
    PooledGroup(treeOf, w, c);
    NewestAt(entries, p);
    if after.Some? {
      NewestInGroup(entries, ByScope(), limit, {}, p, Some(c.0));
      var i := NewestLeft(entries, ByScope(), limit, {}, p);
      var k: nat :| IsNewest(entries, p, k, after.value);
      StaysNewest(entries, limit, p, Some(c.0), i, k);
      StaysByCount(entries, limit, k);
      if !CiGreen(after.value, w) { assert RedAt(entries, treeOf, w, c, k); }
    }
    if i: nat :| RedAt(entries, treeOf, w, c, i) && Count(entries[i + 1..], ByScope(), Some(c.0)) < limit {
      StaysByCount(entries, limit, i);
      LeftIsNewest(entries, ByScope(), limit, {}, p, i);
    }
  }

  /** If an entry of a kind within one group stays, a newer one does. */
  lemma StaysNewest(entries: seq<Entry>, limit: nat, p: Entry -> bool, g: Group, i: nat, k: nat)
    requires i <= k < |entries| && p(entries[i]) && p(entries[k]) && StaysAt(entries, ByScope(), limit, {}, i)
    requires forall e :: p(e) ==> GroupOf(e) == g
    ensures StaysAt(entries, ByScope(), limit, {}, k)
  {
    StaysByCount(entries, limit, i);
    StaysByCount(entries, limit, k);
    FewerLater(entries, g, i, k);
  }

  lemma GreenMeansNoRed(entries: seq<Entry>, treeOf: TreeOf, w: World)
    ensures EveryCommandGreen(entries, treeOf, w) <==> !SomeCommandRed(entries, treeOf, w)
  {
    forall c ensures Newest(entries, PooledRunOf(treeOf, w, c)).Some? && !CiGreen(Newest(entries, PooledRunOf(treeOf, w, c)).value, w) <==>
      exists i: nat :: RedAt(entries, treeOf, w, c, i)
    {
      RedIsNewest(entries, treeOf, w, c);
    }
  }

  lemma RedIsNewest(entries: seq<Entry>, treeOf: TreeOf, w: World, c: Command)
    ensures var newest := Newest(entries, PooledRunOf(treeOf, w, c));
      newest.Some? && !CiGreen(newest.value, w) <==> exists i: nat :: RedAt(entries, treeOf, w, c, i)
  {
    var p := PooledRunOf(treeOf, w, c);
    NewestAt(entries, p);
    if Newest(entries, p).Some? {
      var i: nat :| IsNewest(entries, p, i, Newest(entries, p).value);
      if !CiGreen(entries[i], w) { assert RedAt(entries, treeOf, w, c, i); }
    }
  }

  lemma GreenAfterPruning(entries: seq<Entry>, limit: nat, treeOf: TreeOf, w: World)
    ensures EveryCommandGreen(Pruned(entries, ByScope(), limit, {}), treeOf, w) <==> RedCommandsGo(entries, limit, treeOf, w)
  {
    forall c ensures
      var after := Newest(Pruned(entries, ByScope(), limit, {}), PooledRunOf(treeOf, w, c));
      after.Some? && !CiGreen(after.value, w) <==>
        exists i: nat :: RedAt(entries, treeOf, w, c, i) && Count(entries[i + 1..], ByScope(), Some(c.0)) < limit
    {
      CommandAfterPruning(entries, limit, treeOf, w, c);
    }
  }

  /**
   * Pruning valid finished records makes the gate let a chain through exactly when the log is trusted with nothing
   * running, something to judge stays, some command is red, and the newest run of every red one has `limit` newer
   * records of its scope.
   */
  lemma CiPassMadeByPruning(entries: seq<Entry>, limit: nat, treeOf: TreeOf, w: World)
    requires limit >= 1 && DropsOnly(entries, ByScope(), limit, {}, Finished(w))
    ensures CiPasses(CiDecision(Pruned(entries, ByScope(), limit, {}), treeOf, w)) && !CiPasses(CiDecision(entries, treeOf, w)) <==>
      && CiTrusted(entries) && Newest(entries, TestRunning(w)).None? && PoolStays(entries, limit, treeOf, w)
      && SomeCommandRed(entries, treeOf, w) && RedCommandsGo(entries, limit, treeOf, w)
  {
    CiPassesIff(Pruned(entries, ByScope(), limit, {}), treeOf, w);
    CiPassesIff(entries, treeOf, w);
    TestStatus(entries, limit, {}, w);
    GreenMeansNoRed(entries, treeOf, w);
    GreenAfterPruning(entries, limit, treeOf, w);
    if CiTrusted(entries) && Newest(entries, TestRunning(w)).None? {
      PoolAfterPruning(entries, limit, treeOf, w);
      if PoolStays(entries, limit, treeOf, w) { PruningKeepsPool(entries, limit, {}, treeOf, w); }
    }
  }

  /** A pass after pruning was one before exactly when the newest run of every red command has fewer than `limit` newer records of its scope. */
  lemma CiPassAfterPruning(entries: seq<Entry>, limit: nat, treeOf: TreeOf, w: World)
    requires limit >= 1 && DropsOnly(entries, ByScope(), limit, {}, Finished(w))
    requires CiPasses(CiDecision(Pruned(entries, ByScope(), limit, {}), treeOf, w))
    ensures CiPasses(CiDecision(entries, treeOf, w)) <==> RedCommandsStay(entries, limit, treeOf, w)
  {
    CiPassMadeByPruning(entries, limit, treeOf, w);
    CiPassesIff(Pruned(entries, ByScope(), limit, {}), treeOf, w);
    CiPassesIff(entries, treeOf, w);
    CiStatusAfterPruning(entries, limit, treeOf, w);
    GreenMeansNoRed(entries, treeOf, w);
    GreenAfterPruning(entries, limit, treeOf, w);
  }

  /** A failed command, followed by `limit` green runs of another command of the same scope. */
  function RedThenGreen(limit: nat): seq<Entry>
  {
    [FullRun(Id(0), "a", Scoped, 1, Tree('a'))] + Newer(limit, 1, "b", Scoped, Tree('a'))
  }

  /** Enough green runs of one command make the gate forget that another one failed. */
  lemma PruningUnblocksCi(limit: nat, w: World)
    requires 1 <= limit <= TIMES - 1
    ensures Stored(RedThenGreen(limit))
    ensures !CiPasses(CiDecision(RedThenGreen(limit), OneTree(Tree('a')), w))
    ensures CiPasses(CiDecision(Pruned(RedThenGreen(limit), ByScope(), limit, {}), OneTree(Tree('a')), w))
  {
    var t := Tree('a');
    var red, runs := FullRun(Id(0), "a", Scoped, 1, t), Newer(limit, 1, "b", Scoped, t);
    NewerRuns(limit, 1, "b", Scoped, t);
    NewerStay(limit, 1, limit, {}, "b", Scoped, t);
    RedLogIsStored(red, runs, limit);
    GreenRunsPass(limit, runs, t, w);
    PruneOne(red, runs, limit);
    assert "a"[0] != "b"[0];
    assert forall e :: e in runs ==> e.record.command == "b";
    RedBlocks(red, runs, (Scoped, "a"), t, w);
  }

  lemma RedLogIsStored(red: Entry, runs: seq<Entry>, limit: nat)
    requires limit <= TIMES - 1 && |runs| == limit && runs == Newer(limit, 1, "b", Scoped, Tree('a'))
    requires red == FullRun(Id(0), "a", Scoped, 1, Tree('a'))
    ensures Stored([red] + runs)
  {
    TreesAreTrees();
    NewerInTime(limit, 1, "b", Scoped, Tree('a'));
    InTimeOrderCons(red, runs, 0);
    TimedIsStored([red] + runs);
  }

  lemma PruneOne(red: Entry, runs: seq<Entry>, limit: nat)
    requires GroupOf(red) == Some(Scoped) && Count(runs, ByScope(), Some(Scoped)) == limit && Pruned(runs, ByScope(), limit, {}) == runs
    ensures Pruned([red] + runs, ByScope(), limit, {}) == runs
  {
    assert ([red] + runs)[1..] == runs;
    assert [] + runs == runs;
  }

  lemma RedBlocks(red: Entry, runs: seq<Entry>, c: Command, t: string, w: World)
    requires TestValid(red) && CommandOf(red) == c && red.record.treeEnd == Some(t)
    requires EffectiveState(red.record, w) == Completed && !CiGreen(red, w)
    requires forall e :: e in runs ==> e.Valid? && CommandOf(e) != c
    ensures !CiPasses(CiDecision([red] + runs, OneTree(t), w))
  {
    assert TestFinished(w)(red);
    NothingOf(runs, PooledRunOf(OneTree(t), w, c));
    NewestCons(red, runs, PooledRunOf(OneTree(t), w, c));
    CiPassesIff([red] + runs, OneTree(t), w);
  }

  lemma GreenRunsPass(limit: nat, runs: seq<Entry>, t: string, w: World)
    requires limit >= 1 && runs == Newer(limit, 1, "b", Scoped, t)
    ensures CiPasses(CiDecision(runs, OneTree(t), w))
  {
    NewerRuns(limit, 1, "b", Scoped, t);
    var treeOf := OneTree(t);
    assert runs[0] in runs;
    SelectMembers(runs, TestFinished(w));
    LastIsNewest(runs, TestFinished(w));
    assert runs[0] in Select(runs, TestFinished(w));
    SelectMembers(runs, Pooled(treeOf, w));
    var pool := CiPool(runs, treeOf, w);
    assert runs[0] in pool;
    SelectMembers(pool, EndsOn(t));
    assert runs[0] in Select(pool, EndsOn(t));
    NewestHas(runs, TestOrInvalid);
    NothingOf(runs, TestRunning(w));
    NewestHas(runs, TestFinished(w));
    forall c: Command ensures Newest(runs, PooledRunOf(treeOf, w, c)).Some? ==> CiGreen(Newest(runs, PooledRunOf(treeOf, w, c)).value, w) {
      NewestHas(runs, PooledRunOf(treeOf, w, c));
    }
    CiPassesIff(runs, treeOf, w);
  }
}
