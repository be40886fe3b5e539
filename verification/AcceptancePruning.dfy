/** Pruning the verdicts of a session: the newest of every criterion, and the newest of all. */
module AcceptancePruning {
  import opened Text
  import opened Logs
  import opened RecordIds
  import opened GroupPruning
  import opened Acceptance
  import opened AcceptanceGate

  /** Verdicts are counted by plan and criterion. */
  type Group = Option<(string, string)>

  function GroupOf(e: Entry): Group
  {
    if e.Valid? then Some((e.record.stem, e.record.ac)) else None
  }

  function ByGroup(): Reading<Entry, Group>
  {
    Reading((e: Entry) => e.id, (e: Entry) => GroupOf(e))
  }

  function InvalidIds(entries: seq<Entry>): set<string>
  {
    set e | e in entries && e.Invalid? :: e.id
  }

  /** The logs that the store yields: record files sorted by their names. */
  ghost predicate Stored(entries: seq<Entry>)
  {
    Ascending(entries, ByGroup()) && forall e :: e in entries ==> IsId("av1_", e.id)
  }

  /** The newest `n` entries. */
  function Tail(entries: seq<Entry>, n: nat): seq<Entry>
  {
    if |entries| <= n then entries else entries[|entries| - n..]
  }

  /** What stays: of every criterion the newest `perCriterion`, every invalid entry, and of these the newest `perSession`. */
  function Kept(entries: seq<Entry>, perCriterion: nat, perSession: nat): seq<Entry>
  {
    Tail(Survivors(entries, perCriterion), perSession)
  }

  /** What stays before the limit of the session is applied. */
  function Survivors(entries: seq<Entry>, perCriterion: nat): seq<Entry>
  {
    Pruned(entries, ByGroup(), perCriterion, InvalidIds(entries))
  }

  class Store {
    var entries: seq<Entry>

    constructor (entries: seq<Entry>)
      ensures this.entries == entries
    {
      this.entries := entries;
    }

    method Prune(perCriterion: nat, perSession: nat)
      requires Stored(entries)
      modifies this
      ensures Stored(entries)
      ensures entries == Kept(old(entries), perCriterion, perSession)
    {
      var valid := Select(entries, IsValid);
      var doomed := DoomedEntries(valid, perCriterion);
      var survivors := Without(entries, ByGroup(), doomed);
      var excess := if |survivors| > perSession then |survivors| - perSession else 0;
      var oldest := set e | e in survivors[..excess] :: e.id;
      WhatIsLeft(entries, perCriterion, perSession, valid, doomed, survivors, excess, oldest);
      entries := Without(entries, ByGroup(), doomed + oldest);
    }
  }

  lemma WhatIsLeft(entries: seq<Entry>, perCriterion: nat, perSession: nat, valid: seq<Entry>, doomed: set<string>,
    survivors: seq<Entry>, excess: nat, oldest: set<string>)
    requires Stored(entries) && valid == Select(entries, IsValid) && doomed == Doomed(valid, ByGroup(), perCriterion, {})
    requires survivors == Without(entries, ByGroup(), doomed)
    requires excess == if |survivors| > perSession then |survivors| - perSession else 0
    requires oldest == set e | e in survivors[..excess] :: e.id
    ensures Without(entries, ByGroup(), doomed + oldest) == Kept(entries, perCriterion, perSession)
    ensures Stored(Kept(entries, perCriterion, perSession))
  {
    var keep := InvalidIds(entries);
    KeptIsStored(entries, perCriterion, perSession);
    forall e | e in entries ensures e.id in keep <==> e.Invalid? {
      if e.Valid? { ValidIsNotKept(entries, e); }
    }
    DoomedOfValid(entries, perCriterion, keep);
    WithoutDoomed(entries, ByGroup(), perCriterion, keep);
    WithoutBoth(entries, doomed, survivors, excess, oldest);
  }

  lemma KeptIsStored(entries: seq<Entry>, perCriterion: nat, perSession: nat)
    requires Stored(entries)
    ensures UniqueIds(entries, ByGroup()) && Stored(Kept(entries, perCriterion, perSession))
  {
    AscendingIsUnique(entries, ByGroup());
    PrunedIsAscending(entries, ByGroup(), perCriterion, InvalidIds(entries));
    TailIsStored(entries, Survivors(entries, perCriterion), perSession);
  }

  lemma TailIsStored(entries: seq<Entry>, survivors: seq<Entry>, n: nat)
    requires Stored(entries) && Ascending(survivors, ByGroup()) && forall e :: e in survivors ==> e in entries
    ensures Stored(Tail(survivors, n))
  {
    var k := if |survivors| <= n then 0 else |survivors| - n;
    assert Tail(survivors, n) == survivors[k..];
    AscendingFrom(survivors, ByGroup(), k, survivors[k..]);
    forall e | e in survivors[k..] ensures IsId("av1_", e.id) { assert e in survivors; }
  }

  /** The ids of the oldest verdicts of every criterion beyond the limit. */
  method DoomedEntries(valid: seq<Entry>, limit: nat) returns (doomed: set<string>)
    ensures doomed == Doomed(valid, ByGroup(), limit, {})
  {
    var groups, byGroup := GroupIds(valid, ByGroup());
    doomed := {};
    for i := 0 to |groups|
      invariant doomed == DoomedIn(valid, ByGroup(), groups[..i], limit, {})
    {
      var ids := byGroup[groups[i]];
      var excess := if |ids| > limit then |ids| - limit else 0;
      ghost var before := doomed;
      for j := 0 to excess
        invariant doomed == before + DoomedIds(ids[..j], 0, {})
      {
        DoomedSnoc(ids, j, {});
        doomed := doomed + {ids[j]};
      }
      DoomedPrefix(ids, excess, limit, {});
      assert groups[..i + 1][..i] == groups[..i];
    }
    assert groups[..|groups|] == groups;
    AllGroupsDoomed(valid, ByGroup(), groups, limit, {});
  }

  lemma {:induction false} CountValid(entries: seq<Entry>, g: Group)
    requires g.Some?
    ensures Count(Select(entries, IsValid), ByGroup(), g) == Count(entries, ByGroup(), g)
  {
    if entries != [] {
      var rest := Select(entries[1..], IsValid);
      CountValid(entries[1..], g);
      assert [] + rest == rest;
      assert ([entries[0]] + rest)[1..] == rest;
    }
  }

  /** Dooming among the valid entries is dooming among all when the invalid ones are to be kept. */
  lemma {:induction false} DoomedOfValid(entries: seq<Entry>, limit: nat, keep: set<string>)
    requires forall e :: e in entries ==> (e.id in keep <==> e.Invalid?)
    ensures Doomed(Select(entries, IsValid), ByGroup(), limit, {}) == Doomed(entries, ByGroup(), limit, keep)
  {
    if entries != [] {
      var e, rest := entries[0], Select(entries[1..], IsValid);
      assert e in entries && forall x :: x in entries[1..] ==> x in entries;
      DoomedOfValid(entries[1..], limit, keep);
      if e.Valid? {
        CountValid(entries[1..], GroupOf(e));
        assert ([e] + rest)[1..] == rest;
      } else {
        assert [] + rest == rest;
      }
    }
  }

  lemma {:induction false} WithoutUnique(entries: seq<Entry>, gone: set<string>, rest: seq<Entry>)
    requires UniqueIds(entries, ByGroup()) && rest == Without(entries, ByGroup(), gone)
    ensures UniqueIds(rest, ByGroup())
    ensures forall e :: e in rest ==> e in entries
  {
    if entries != [] {
      var e, tail := entries[0], entries[1..];
      var left := Without(tail, ByGroup(), gone);
      assert forall i :: 0 <= i < |tail| ==> tail[i].id != e.id;
      WithoutUnique(tail, gone, left);
      assert forall i :: 0 <= i < |left| ==> left[i] in left && left[i] in tail;
      assert rest == left || rest == [e] + left;
    }
  }

  /** Removing the oldest entries by name leaves the others. */
  lemma {:induction false} WithoutOldest(entries: seq<Entry>, excess: nat, oldest: set<string>)
    requires UniqueIds(entries, ByGroup()) && excess <= |entries|
    requires oldest == set e | e in entries[..excess] :: e.id
    ensures Without(entries, ByGroup(), oldest) == entries[excess..]
  {
    if excess == 0 {
      assert oldest == {} && entries[0..] == entries;
      WithoutNone(entries, ByGroup());
    } else {
      var e, tail := entries[0], entries[1..];
      var older := OldestOfTail(entries, tail, excess, oldest);
      WithoutOldest(tail, excess - 1, older);
      WithoutMore(tail, ByGroup(), older, e.id);
      DropDrop(entries, 1, excess - 1);
      assert [] + tail[excess - 1..] == tail[excess - 1..];
    }
  }

  lemma OldestOfTail(entries: seq<Entry>, tail: seq<Entry>, excess: nat, oldest: set<string>) returns (older: set<string>)
    requires UniqueIds(entries, ByGroup()) && 0 < excess <= |entries| && tail == entries[1..]
    requires oldest == set e | e in entries[..excess] :: e.id
    ensures older == set e | e in tail[..excess - 1] :: e.id
    ensures oldest == older + {entries[0].id} && ByGroup().id(entries[0]) in oldest
    ensures UniqueIds(tail, ByGroup()) && forall i :: 0 <= i < |tail| ==> ByGroup().id(tail[i]) != entries[0].id
  {
    older := set e | e in tail[..excess - 1] :: e.id;
    assert entries[..excess] == [entries[0]] + tail[..excess - 1];
  }

  lemma WithoutBoth(entries: seq<Entry>, doomed: set<string>, survivors: seq<Entry>, excess: nat, oldest: set<string>)
    requires UniqueIds(entries, ByGroup()) && survivors == Without(entries, ByGroup(), doomed) && excess <= |survivors|
    requires oldest == set e | e in survivors[..excess] :: e.id
    ensures Without(entries, ByGroup(), doomed + oldest) == survivors[excess..]
  {
    WithoutTwice(entries, ByGroup(), doomed, oldest);
    WithoutUnique(entries, doomed, survivors);
    WithoutOldest(survivors, excess, oldest);
  }

  // ----- What pruning does to the gate -----

  lemma {:induction false} NewestOfTail(a: seq<Entry>, b: seq<Entry>, p: Entry -> bool)
    ensures Newest(a + b, p) == if Newest(b, p).Some? then Newest(b, p) else Newest(a, p)
  {
    if a == [] {
      assert a + b == b;
    } else {
      assert (a + b)[1..] == a[1..] + b;
      NewestOfTail(a[1..], b, p);
    }
  }

  lemma TailKeepsNewest(entries: seq<Entry>, n: nat, p: Entry -> bool)
    requires Newest(Tail(entries, n), p).Some?
    ensures Newest(entries, p) == Newest(Tail(entries, n), p)
  {
    if |entries| > n {
      var k := |entries| - n;
      assert entries == entries[..k] + entries[k..];
      NewestOfTail(entries[..k], entries[k..], p);
    }
  }

  /** If a kind of record of one criterion survives pruning, its newest one does. */
  lemma KeptNewest(entries: seq<Entry>, perCriterion: nat, perSession: nat, p: Entry -> bool, stem: string, id: string)
    requires UniqueIds(entries, ByGroup()) && forall e :: p(e) ==> OfCriterion(stem, id)(e)
    requires Newest(Kept(entries, perCriterion, perSession), p).Some?
    ensures Newest(entries, p) == Newest(Kept(entries, perCriterion, perSession), p)
  {
    var keep := InvalidIds(entries);
    TailKeepsNewest(Survivors(entries, perCriterion), perSession, p);
    forall e | e in entries && p(e) ensures GroupOf(e) == Some((stem, id)) && e.id !in keep {
      assert OfCriterion(stem, id)(e);
      ValidIsNotKept(entries, e);
    }
    NewestInGroup(entries, ByGroup(), perCriterion, keep, p, Some((stem, id)));
  }

  lemma ValidIsNotKept(entries: seq<Entry>, e: Entry)
    requires UniqueIds(entries, ByGroup()) && e in entries && e.Valid?
    ensures e.id !in InvalidIds(entries)
  {
    var i :| 0 <= i < |entries| && entries[i] == e;
    forall f | f in entries && f.Invalid? ensures f.id != e.id {
      var j :| 0 <= j < |entries| && entries[j] == f;
      assert i != j;
      assert ByGroup().id(entries[i]) != ByGroup().id(entries[j]);
    }
  }

  /** An active criterion passes after pruning only if it passed before. */
  lemma ActivePassSurvivesBackwards(
    entries: seq<Entry>, perCriterion: nat, perSession: nat, c: Criterion, stem: string, tree: Option<string>, digest: Digest)
    requires UniqueIds(entries, ByGroup()) && !c.deprecated
    requires Satisfied(c, Kept(entries, perCriterion, perSession), stem, tree, digest)
    ensures Satisfied(c, entries, stem, tree, digest)
  {
    KeptNewest(entries, perCriterion, perSession, Judging(stem, c, tree, digest), stem, c.id);
  }

  /** When the newest record of a plan survives, every invalid record newer than it does too. */
  lemma KeptTrust(entries: seq<Entry>, perCriterion: nat, perSession: nat, stem: string)
    requires UniqueIds(entries, ByGroup()) && perCriterion >= 1
    requires Newest(Kept(entries, perCriterion, perSession), StemOrInvalid(stem)).Some?
    ensures Newest(entries, StemOrInvalid(stem)) == Newest(Kept(entries, perCriterion, perSession), StemOrInvalid(stem))
  {
    var keep := InvalidIds(entries);
    TailKeepsNewest(Survivors(entries, perCriterion), perSession, StemOrInvalid(stem));
    DropsOnlyValid(entries, entries, perCriterion, keep);
    NewestOfGroups(entries, ByGroup(), perCriterion, keep, IsValid, StemOrInvalid(stem));
  }

  lemma {:induction false} DropsOnlyValid(all: seq<Entry>, entries: seq<Entry>, limit: nat, keep: set<string>)
    requires keep == InvalidIds(all) && forall e :: e in entries ==> e in all
    ensures DropsOnly(entries, ByGroup(), limit, keep, IsValid)
  {
    if entries != [] {
      assert entries[0] in entries && forall e :: e in entries[1..] ==> e in entries;
      DropsOnlyValid(all, entries[1..], limit, keep);
    }
  }

  predicate Inactive(criteria: seq<Criterion>, id: string)
  {
    !Planned(criteria, id) || exists c :: c in criteria && c.id == id && c.deprecated
  }

  /** Every deprecated or removed criterion that lost all its records was settled. */
  ghost predicate LostWereSettled(criteria: seq<Criterion>, entries: seq<Entry>, kept: seq<Entry>, stem: string)
  {
    forall id :: Inactive(criteria, id) && Newest(kept, OfCriterion(stem, id)).None? ==> Settled(entries, stem, id)
  }

  lemma SettledBefore(entries: seq<Entry>, perCriterion: nat, perSession: nat, stem: string, id: string)
    requires UniqueIds(entries, ByGroup()) && Settled(Kept(entries, perCriterion, perSession), stem, id)
    ensures Newest(Kept(entries, perCriterion, perSession), OfCriterion(stem, id)).Some? ==> Settled(entries, stem, id)
  {
    if Newest(Kept(entries, perCriterion, perSession), OfCriterion(stem, id)).Some? {
      KeptNewest(entries, perCriterion, perSession, OfCriterion(stem, id), stem, id);
    }
  }

  lemma TrustedBefore(entries: seq<Entry>, perCriterion: nat, perSession: nat, stem: string, c: Criterion, tree: Option<string>, digest: Digest)
    requires UniqueIds(entries, ByGroup()) && perCriterion >= 1 && !c.deprecated
    requires Satisfied(c, Kept(entries, perCriterion, perSession), stem, tree, digest)
    requires Trusted(Kept(entries, perCriterion, perSession), stem)
    ensures Trusted(entries, stem)
  {
    NewestNarrower(Kept(entries, perCriterion, perSession), StemOrInvalid(stem), Judging(stem, c, tree, digest));
    KeptTrust(entries, perCriterion, perSession, stem);
  }

  /** A pass after pruning was a pass before exactly when no deprecated or removed criterion lost a blocking record. */
  lemma GateAfterPruning(criteria: seq<Criterion>, entries: seq<Entry>, perCriterion: nat, perSession: nat,
    stem: string, tree: Option<string>, digest: Digest, precedes: Order)
    requires UniqueIds(entries, ByGroup()) && perCriterion >= 1
    requires GatePasses(Gate(criteria, Kept(entries, perCriterion, perSession), stem, tree, digest, precedes))
    ensures GatePasses(Gate(criteria, entries, stem, tree, digest, precedes)) <==>
      LostWereSettled(criteria, entries, Kept(entries, perCriterion, perSession), stem)
  {
    var kept := Kept(entries, perCriterion, perSession);
    GatePassesIff(criteria, entries, stem, tree, digest, precedes);
    GatePassesIff(criteria, kept, stem, tree, digest, precedes);
    var active :| active in criteria && !active.deprecated;
    TrustedBefore(entries, perCriterion, perSession, stem, active, tree, digest);
    forall c | c in criteria && !c.deprecated ensures Satisfied(c, entries, stem, tree, digest) {
      ActivePassSurvivesBackwards(entries, perCriterion, perSession, c, stem, tree, digest);
    }
    forall id | Inactive(criteria, id) && Newest(kept, OfCriterion(stem, id)).Some? ensures Settled(entries, stem, id) {
      InactiveSettled(criteria, kept, stem, tree, digest, id);
      SettledBefore(entries, perCriterion, perSession, stem, id);
    }
    forall id | Inactive(criteria, id) && GatePasses(Gate(criteria, entries, stem, tree, digest, precedes))
      ensures Settled(entries, stem, id)
    {
      InactiveSettled(criteria, entries, stem, tree, digest, id);
    }
    forall c | c in criteria && c.deprecated ensures Inactive(criteria, c.id) {
    }
  }

  lemma InactiveSettled(criteria: seq<Criterion>, entries: seq<Entry>, stem: string, tree: Option<string>, digest: Digest, id: string)
    requires Inactive(criteria, id)
    requires forall c :: c in criteria ==> Satisfied(c, entries, stem, tree, digest)
    requires forall x :: !Planned(criteria, x) ==> Settled(entries, stem, x)
    ensures Settled(entries, stem, id)
  {
    if Planned(criteria, id) {
      var c :| c in criteria && c.id == id && c.deprecated;
      assert Satisfied(c, entries, stem, tree, digest);
    }
  }

  // ----- The same, read off the log before pruning -----

  /** The entry at `i` is the newest record of a deprecated or removed criterion, and it is not a pass. */
  ghost predicate BlocksAt(criteria: seq<Criterion>, entries: seq<Entry>, stem: string, id: string, i: nat)
  {
    Inactive(criteria, id) && i < |entries| && IsNewest(entries, OfCriterion(stem, id), i, entries[i]) && !Passes(Some(entries[i]))
  }

  /** How many survivors come after the entry at `i`. */
  function SurvivorsAfter(entries: seq<Entry>, perCriterion: nat, i: nat): nat
    requires i < |entries|
  {
    |Pruned(entries[i + 1..], ByGroup(), perCriterion, InvalidIds(entries))|
  }

  /** Every blocking record has fewer than `perSession` survivors after it. */
  ghost predicate BlockersStay(criteria: seq<Criterion>, entries: seq<Entry>, perCriterion: nat, perSession: nat, stem: string)
  {
    forall id, i: nat :: BlocksAt(criteria, entries, stem, id, i) ==> SurvivorsAfter(entries, perCriterion, i) < perSession
  }

  lemma {:induction false} PrunedOfTail(entries: seq<Entry>, limit: nat, keep: set<string>, i: nat) returns (front: seq<Entry>)
    requires i <= |entries|
    ensures Pruned(entries, ByGroup(), limit, keep) == front + Pruned(entries[i..], ByGroup(), limit, keep)
  {
    if i == 0 {
      front := [];
      assert entries[0..] == entries;
    } else {
      front := PrunedOfTail(entries[1..], limit, keep, i - 1);
      assert entries[1..][i - 1..] == entries[i..];
      var first := if Stays(entries, ByGroup(), limit, keep) then [entries[0]] else [];
      Assoc(first, front, Pruned(entries[i..], ByGroup(), limit, keep));
      front := first + front;
    }
  }

  lemma {:induction false} CountNone(entries: seq<Entry>, g: Group)
    requires forall i :: 0 <= i < |entries| ==> GroupOf(entries[i]) != g
    ensures Count(entries, ByGroup(), g) == 0
  {
    if entries != [] { CountNone(entries[1..], g); }
  }

  lemma {:induction false} TailBeyond(a: seq<Entry>, b: seq<Entry>, n: nat)
    requires |b| >= n
    ensures Tail(a + b, n) == Tail(b, n)
  {
  }

  /** The newest record of a criterion is among the survivors, right before those that come after it. */
  lemma NewestSurvives(entries: seq<Entry>, perCriterion: nat, stem: string, id: string, i: nat) returns (front: seq<Entry>)
    requires perCriterion >= 1 && i < |entries| && IsNewest(entries, OfCriterion(stem, id), i, entries[i])
    ensures var later := Pruned(entries[i + 1..], ByGroup(), perCriterion, InvalidIds(entries));
      Survivors(entries, perCriterion) == front + ([entries[i]] + later) && Newest(later, OfCriterion(stem, id)).None?
  {
    var keep, rest := InvalidIds(entries), entries[i + 1..];
    front := PrunedOfTail(entries, perCriterion, keep, i);
    assert entries[i..][1..] == rest;
    assert OfCriterion(stem, id)(entries[i]);
    forall j | 0 <= j < |rest| ensures GroupOf(rest[j]) != GroupOf(entries[i]) && !OfCriterion(stem, id)(rest[j]) {
      assert rest[j] == entries[i + 1 + j];
    }
    CountNone(rest, GroupOf(entries[i]));
    NewestAt(rest, OfCriterion(stem, id));
    PrunedNone(rest, ByGroup(), perCriterion, keep, OfCriterion(stem, id));
  }

  lemma KeptByPosition(front: seq<Entry>, block: seq<Entry>, all: seq<Entry>, n: nat, p: Entry -> bool)
    requires all == front + block && |block| <= n && Newest(block, p).Some?
    ensures Newest(Tail(all, n), p).Some?
  {
    if |all| <= n {
      NewestOfTail(front, block, p);
    } else {
      var k := |all| - n;
      assert all[k..] == front[k..] + block;
      NewestOfTail(front[k..], block, p);
    }
  }

  lemma LostByPosition(front: seq<Entry>, later: seq<Entry>, all: seq<Entry>, n: nat, p: Entry -> bool)
    requires all == front + later && |later| >= n && Newest(later, p).None?
    ensures Newest(Tail(all, n), p).None?
  {
    TailBeyond(front, later, n);
    if Newest(Tail(later, n), p).Some? { TailKeepsNewest(later, n, p); }
  }

  lemma BlockerKept(criteria: seq<Criterion>, entries: seq<Entry>, perCriterion: nat, perSession: nat, stem: string, id: string, i: nat)
    requires perCriterion >= 1 && BlocksAt(criteria, entries, stem, id, i)
    ensures Newest(Kept(entries, perCriterion, perSession), OfCriterion(stem, id)).Some? <==>
      SurvivorsAfter(entries, perCriterion, i) < perSession
    ensures SurvivorsAfter(entries, perCriterion, i) < |Survivors(entries, perCriterion)|
  {
    var front := NewestSurvives(entries, perCriterion, stem, id, i);
    var e, p, all := entries[i], OfCriterion(stem, id), Survivors(entries, perCriterion);
    var later := Pruned(entries[i + 1..], ByGroup(), perCriterion, InvalidIds(entries));
    NewestCons(e, later, p);
    if |later| < perSession {
      KeptByPosition(front, [e] + later, all, perSession, p);
    } else {
      Assoc(front, [e], later);
      LostByPosition(front + [e], later, all, perSession, p);
    }
  }

  /** A criterion is not settled exactly when its newest record blocks. */
  lemma UnsettledBlocks(criteria: seq<Criterion>, entries: seq<Entry>, stem: string, id: string)
    requires Inactive(criteria, id)
    ensures !Settled(entries, stem, id) <==> exists i: nat :: BlocksAt(criteria, entries, stem, id, i)
  {
    var p := OfCriterion(stem, id);
    NewestAt(entries, p);
    if !Settled(entries, stem, id) {
      var i: nat :| IsNewest(entries, p, i, Newest(entries, p).value);
      assert BlocksAt(criteria, entries, stem, id, i);
    }
  }

  lemma LostOrStaying(criteria: seq<Criterion>, entries: seq<Entry>, perCriterion: nat, perSession: nat, stem: string)
    requires perCriterion >= 1
    ensures LostWereSettled(criteria, entries, Kept(entries, perCriterion, perSession), stem) <==>
      BlockersStay(criteria, entries, perCriterion, perSession, stem)
  {
    var kept := Kept(entries, perCriterion, perSession);
    forall id, i: nat | BlocksAt(criteria, entries, stem, id, i)
      ensures !Settled(entries, stem, id)
      ensures Newest(kept, OfCriterion(stem, id)).Some? <==> SurvivorsAfter(entries, perCriterion, i) < perSession
    {
      UnsettledBlocks(criteria, entries, stem, id);
      BlockerKept(criteria, entries, perCriterion, perSession, stem, id, i);
    }
    forall id | Inactive(criteria, id) && !Settled(entries, stem, id)
      ensures exists i: nat :: BlocksAt(criteria, entries, stem, id, i)
    {
      UnsettledBlocks(criteria, entries, stem, id);
    }
  }

  /**
   * A pass after pruning was a pass before exactly when the newest blocking record of every deprecated or removed
   * criterion has fewer than `perSession` survivors after it.
   */
  lemma PassAfterPruningIff(criteria: seq<Criterion>, entries: seq<Entry>, perCriterion: nat, perSession: nat,
    stem: string, tree: Option<string>, digest: Digest, precedes: Order)
    requires UniqueIds(entries, ByGroup()) && perCriterion >= 1
    requires GatePasses(Gate(criteria, Kept(entries, perCriterion, perSession), stem, tree, digest, precedes))
    ensures GatePasses(Gate(criteria, entries, stem, tree, digest, precedes)) <==>
      BlockersStay(criteria, entries, perCriterion, perSession, stem)
  {
    GateAfterPruning(criteria, entries, perCriterion, perSession, stem, tree, digest, precedes);
    LostOrStaying(criteria, entries, perCriterion, perSession, stem);
  }

  /** As long as the limit of the session removes nothing, pruning makes no pass. */
  lemma WithinTheSessionLimit(criteria: seq<Criterion>, entries: seq<Entry>, perCriterion: nat, perSession: nat,
    stem: string, tree: Option<string>, digest: Digest, precedes: Order)
    requires UniqueIds(entries, ByGroup()) && perCriterion >= 1 && |Survivors(entries, perCriterion)| <= perSession
    requires GatePasses(Gate(criteria, Kept(entries, perCriterion, perSession), stem, tree, digest, precedes))
    ensures GatePasses(Gate(criteria, entries, stem, tree, digest, precedes))
  {
    forall id, i: nat | BlocksAt(criteria, entries, stem, id, i) ensures SurvivorsAfter(entries, perCriterion, i) < perSession {
      BlockerKept(criteria, entries, perCriterion, perSession, stem, id, i);
    }
    PassAfterPruningIff(criteria, entries, perCriterion, perSession, stem, tree, digest, precedes);
  }

  // ----- A blocking record of a removed criterion can be pruned away -----

  /** Once `perSession` newer records that pass the gate follow it, a failed verdict on a removed criterion is forgotten. */
  lemma PruningForgetsRemovedCriterion(failed: Entry, later: seq<Entry>, criteria: seq<Criterion>, perCriterion: nat, perSession: nat,
    stem: string, tree: Option<string>, digest: Digest, precedes: Order)
    requires perCriterion >= 1 && UniqueIds([failed] + later, ByGroup())
    requires failed.Valid? && failed.record.stem == stem && failed.record.verdict == Fail
    requires !Planned(criteria, failed.record.ac)
    requires Newest(later, OfCriterion(stem, failed.record.ac)).None?
    requires |later| == perSession && Pruned(later, ByGroup(), perCriterion, InvalidIds([failed] + later)) == later
    requires GatePasses(Gate(criteria, later, stem, tree, digest, precedes))
    ensures Kept([failed] + later, perCriterion, perSession) == later
    ensures !GatePasses(Gate(criteria, [failed] + later, stem, tree, digest, precedes))
  {
    var all, keep, id := [failed] + later, InvalidIds([failed] + later), failed.record.ac;
    NewestCons(failed, later, OfCriterion(stem, id));
    DroppingCannotUnblock(criteria, id, all, stem, tree, digest, precedes);
    assert all[1..] == later;
    var pruned := Pruned(all, ByGroup(), perCriterion, keep);
    assert [] + later == later;
    assert pruned == [failed] + later || pruned == later;
    assert all[|all| - perSession..] == later;
  }

  // ----- ... and such logs exist for every limit -----

  function Ac(n: nat): string
  {
    "AC-" + Padded(n, TIME_WIDTH)
  }

  /** The verdict recorded at the time `n`, on a criterion of its own. */
  function VerdictAt(n: nat, verdict: Verdict, text: string, digest: Digest, t: string): Entry
  {
    Valid(IdAt("av1_", n), Record("plan", Ac(n), digest(text), text, verdict, Some(t)))
  }

  /** `n` passing verdicts, one after the other from the time `start` on. */
  function Passing(n: nat, start: nat, text: string, digest: Digest, t: string): seq<Entry>
  {
    if n == 0 then [] else [VerdictAt(start, Pass, text, digest, t)] + Passing(n - 1, start + 1, text, digest, t)
  }

  lemma {:induction false} PassingAre(n: nat, start: nat, text: string, digest: Digest, t: string)
    ensures var later := Passing(n, start, text, digest, t);
      |later| == n && forall i :: 0 <= i < n ==> later[i] == VerdictAt(start + i, Pass, text, digest, t)
  {
    if n > 0 { PassingAre(n - 1, start + 1, text, digest, t); }
  }

  lemma DifferentCriteria(n: nat, m: nat)
    requires n < m < TIMES
    ensures Ac(n) != Ac(m)
  {
    AllTimes();
    EarlierTimeFirst(n, m, TIME_WIDTH);
    NotBeforeItself(Padded(n, TIME_WIDTH));
    assert Ac(n)[3..] == Padded(n, TIME_WIDTH) && Ac(m)[3..] == Padded(m, TIME_WIDTH);
  }

  lemma FirstIsAlone(n: nat, start: nat, rest: seq<Entry>, g: Group, text: string, digest: Digest, t: string)
    requires start + 1 + n <= TIMES && rest == Passing(n, start + 1, text, digest, t) && g == Some(("plan", Ac(start)))
    ensures Count(rest, ByGroup(), g) == 0
  {
    PassingAre(n, start + 1, text, digest, t);
    forall i | 0 <= i < |rest| ensures GroupOf(rest[i]) != g {
      DifferentCriteria(start, start + 1 + i);
    }
    CountNone(rest, g);
  }

  lemma FirstStays(e: Entry, rest: seq<Entry>, limit: nat, keep: set<string>)
    requires limit >= 1 && Count(rest, ByGroup(), GroupOf(e)) == 0
    ensures Pruned([e] + rest, ByGroup(), limit, keep) == [e] + Pruned(rest, ByGroup(), limit, keep)
  {
    assert ([e] + rest)[1..] == rest;
  }

  lemma {:induction false} PassingStay(n: nat, start: nat, limit: nat, keep: set<string>, text: string, digest: Digest, t: string)
    requires start + n <= TIMES && limit >= 1
    ensures var later := Passing(n, start, text, digest, t); Pruned(later, ByGroup(), limit, keep) == later
  {
    if n > 0 {
      var rest := Passing(n - 1, start + 1, text, digest, t);
      PassingStay(n - 1, start + 1, limit, keep, text, digest, t);
      FirstIsAlone(n - 1, start, rest, Some(("plan", Ac(start))), text, digest, t);
      FirstStays(VerdictAt(start, Pass, text, digest, t), rest, limit, keep);
    }
  }

  /** Passing verdicts alone let the plan of the first of them pass. */
  lemma PassingPass(n: nat, start: nat, text: string, digest: Digest, t: string, precedes: Order)
    requires n >= 1
    ensures GatePasses(Gate([Criterion(Ac(start), text, false)], Passing(n, start, text, digest, t), "plan", Some(t), digest, precedes))
  {
    var later, c := Passing(n, start, text, digest, t), Criterion(Ac(start), text, false);
    PassingAre(n, start, text, digest, t);
    forall p: Entry -> bool ensures Newest(later, p).Some? ==> Passes(Newest(later, p)) { NewestHas(later, p); }
    var p := Judging("plan", c, Some(t), digest);
    NewestAt(later, p);
    assert later[0] == VerdictAt(start, Pass, text, digest, t) && p(later[0]);
    assert c in [c];
    NewestHas(later, StemOrInvalid("plan"));
    GatePassesIff([c], later, "plan", Some(t), digest, precedes);
  }

  lemma VerdictLogIsStored(failed: Entry, later: seq<Entry>, n: nat, text: string, digest: Digest, t: string)
    requires n <= TIMES - 1 && later == Passing(n, 1, text, digest, t) && failed.id == IdAt("av1_", 0)
    ensures Stored([failed] + later)
  {
    var log := [failed] + later;
    PassingAre(n, 1, text, digest, t);
    forall i | 0 <= i < |log| ensures log[i].id == IdAt("av1_", i) {
      if i > 0 { assert log[i] == later[i - 1]; }
    }
    forall i, j | 0 <= i < j < |log| ensures Precedes(log[i].id, log[j].id) { EarlierIdFirst("av1_", i, j); }
    forall e | e in log ensures IsId("av1_", e.id) {
      var i :| 0 <= i < |log| && log[i] == e;
      IdIsId("av1_", i);
    }
  }

  /** For all limits there is a stored log whose failed verdict on a removed criterion blocks the gate and is pruned away. */
  lemma SomeLogIsForgotten(perCriterion: nat, perSession: nat, text: string, digest: Digest, t: string, precedes: Order)
    returns (log: seq<Entry>, criteria: seq<Criterion>)
    requires perCriterion >= 1 && 1 <= perSession <= TIMES - 1
    ensures Stored(log) && !GatePasses(Gate(criteria, log, "plan", Some(t), digest, precedes))
    ensures GatePasses(Gate(criteria, Kept(log, perCriterion, perSession), "plan", Some(t), digest, precedes))
  {
    var failed, later := VerdictAt(0, Fail, text, digest, t), Passing(perSession, 1, text, digest, t);
    log, criteria := [failed] + later, [Criterion(Ac(1), text, false)];
    VerdictLogIsStored(failed, later, perSession, text, digest, t);
    AscendingIsUnique(log, ByGroup());
    PassingAre(perSession, 1, text, digest, t);
    PassingStay(perSession, 1, perCriterion, InvalidIds(log), text, digest, t);
    PassingPass(perSession, 1, text, digest, t, precedes);
    NotAmongPassing(perSession, later, text, digest, t);
    PruningForgetsRemovedCriterion(failed, later, criteria, perCriterion, perSession, "plan", Some(t), digest, precedes);
  }

  lemma NotAmongPassing(n: nat, later: seq<Entry>, text: string, digest: Digest, t: string)
    requires n <= TIMES - 1 && later == Passing(n, 1, text, digest, t)
    ensures Newest(later, OfCriterion("plan", Ac(0))).None?
    ensures !Planned([Criterion(Ac(1), text, false)], Ac(0))
  {
    var id, other := Ac(0), Ac(1);
    DifferentCriteria(0, 1);
    AnotherIsNotPlanned(id, other, text);
    PassingAre(n, 1, text, digest, t);
    forall i | 0 <= i < |later| ensures later[i].Valid? && later[i].record.ac != id { DifferentCriteria(0, 1 + i); }
    NoneOfCriterion(later, "plan", id);
  }

  lemma AnotherIsNotPlanned(id: string, other: string, text: string)
    requires id != other
    ensures !Planned([Criterion(other, text, false)], id)
  {
  }

  lemma {:induction false} NoneOfCriterion(entries: seq<Entry>, stem: string, id: string)
    requires forall i :: 0 <= i < |entries| ==> entries[i].Valid? && entries[i].record.ac != id
    ensures Newest(entries, OfCriterion(stem, id)).None?
  {
    if entries != [] {
      NoneOfCriterion(entries[1..], stem, id);
      assert !OfCriterion(stem, id)(entries[0]);
    }
  }
}
