/** The gate of a chain whose full suite runs in CI: the newest local run of every test command. */
module EvidenceCi {
  import opened Text
  import opened Logs
  import opened RunRecords
  import opened EvidenceDecision

  /** The current tree of the directory an entry ran in, if it could be fingerprinted. */
  type TreeOf = Entry -> Option<string>

  type Command = (Scope, string)

  function CommandOf(e: Entry): Command
    requires e.Valid?
  {
    (e.record.scope, e.record.command)
  }

  predicate TestValid(e: Entry) { e.Valid? && e.record.scope in {Full, Scoped} }

  function TestRunning(w: World): Entry -> bool
  {
    (e: Entry) => TestValid(e) && EffectiveState(e.record, w) == StillRunning
  }

  function TestFinished(w: World): Entry -> bool
  {
    (e: Entry) => TestValid(e) && EffectiveState(e.record, w) != StillRunning
  }

  /** Ended on the current tree of its directory, or that tree is unknown. */
  function InPool(treeOf: TreeOf): Entry -> bool
  {
    (e: Entry) => e.Valid? && (treeOf(e).None? || e.record.treeEnd == treeOf(e))
  }

  function Pooled(treeOf: TreeOf, w: World): Entry -> bool
  {
    (e: Entry) => TestValid(e) && EffectiveState(e.record, w) != StillRunning && (treeOf(e).None? || e.record.treeEnd == treeOf(e))
  }

  function Unbound(treeOf: TreeOf): Entry -> bool
  {
    (e: Entry) => treeOf(e).None?
  }

  function IsFull(): Entry -> bool
  {
    (e: Entry) => FullValid(e)
  }

  // ----- The newest run of every command -----

  predicate AllValid(s: seq<Entry>)
  {
    forall i :: 0 <= i < |s| ==> s[i].Valid?
  }

  /** The list with `e` in the place of the entry of its command, or at the end. */
  function Put(list: seq<Entry>, e: Entry): seq<Entry>
    requires AllValid(list) && e.Valid?
  {
    if list == [] then [e]
    else if CommandOf(list[0]) == CommandOf(e) then [e] + list[1..]
    else [list[0]] + Put(list[1..], e)
  }

  function Latest(pool: seq<Entry>): (r: seq<Entry>)
    requires AllValid(pool)
    ensures AllValid(r)
  {
    if pool == [] then []
    else
      var rest := Latest(pool[..|pool| - 1]);
      PutValid(rest, Last(pool));
      Put(rest, Last(pool))
  }

  lemma {:induction false} PutValid(list: seq<Entry>, e: Entry)
    requires AllValid(list) && e.Valid?
    ensures AllValid(Put(list, e))
  {
    if list != [] { PutValid(list[1..], e); }
  }

  predicate Distinct(list: seq<Entry>)
    requires AllValid(list)
  {
    forall i, j :: 0 <= i < j < |list| ==> CommandOf(list[i]) != CommandOf(list[j])
  }

  lemma {:induction false} PutMembers(list: seq<Entry>, e: Entry)
    requires AllValid(list) && e.Valid? && Distinct(list)
    ensures AllValid(Put(list, e)) && Distinct(Put(list, e))
    ensures forall x: Entry :: x in Put(list, e) <==> x == e || (x in list && CommandOf(x) != CommandOf(e))
  {
    if list != [] {
      var head, rest := list[0], list[1..];
      assert forall x :: x in list <==> x == head || x in rest;
      assert forall x :: x in rest ==> CommandOf(x) != CommandOf(head);
      if CommandOf(head) != CommandOf(e) {
        PutMembers(rest, e);
        var put := Put(rest, e);
        assert forall i :: 0 <= i < |put| ==> put[i] in put;
      }
    }
  }

  function HasCommand(c: Command): Entry -> bool
  {
    (e: Entry) => e.Valid? && CommandOf(e) == c
  }

  /** Exactly the newest entry of each command. */
  lemma {:induction false} LatestIsNewest(pool: seq<Entry>)
    requires AllValid(pool)
    ensures Distinct(Latest(pool))
    ensures forall x: Entry :: x in Latest(pool) <==> x.Valid? && Newest(pool, HasCommand(CommandOf(x))) == Some(x)
    decreases |pool|
  {
    if pool != [] {
      var rest, e := pool[..|pool| - 1], Last(pool);
      LatestIsNewest(rest);
      PutMembers(Latest(rest), e);
      assert pool == rest + [e];
      forall x: Entry | x.Valid?
        ensures Newest(pool, HasCommand(CommandOf(x))) ==
          if CommandOf(e) == CommandOf(x) then Some(e) else Newest(rest, HasCommand(CommandOf(x)))
      {
        NewestSnoc(rest, e, HasCommand(CommandOf(x)));
      }
    }
  }

  // ----- The decision -----

  function Trouble(e: Entry, w: World): Option<Decision>
    requires e.Valid?
  {
    if EffectiveState(e.record, w) == Interrupted then Some(RunInterrupted(e))
    else if e.record.treeStart.Some? && e.record.treeEnd.Some? && e.record.treeStart != e.record.treeEnd
      then Some(MutatedDuringRun(e))
    else if e.record.exitCode != Some(0) then Some(RunFailed(e))
    else None
  }

  function FirstTrouble(latest: seq<Entry>, w: World): Option<Decision>
    requires AllValid(latest)
  {
    if latest == [] then None
    else if Trouble(latest[0], w).Some? then Trouble(latest[0], w)
    else FirstTrouble(latest[1..], w)
  }

  function CiPool(entries: seq<Entry>, treeOf: TreeOf, w: World): seq<Entry>
  {
    Select(entries, Pooled(treeOf, w))
  }

  lemma PoolIsValid(entries: seq<Entry>, treeOf: TreeOf, w: World)
    ensures AllValid(CiPool(entries, treeOf, w))
  {
    var pool := CiPool(entries, treeOf, w);
    SelectMembers(entries, Pooled(treeOf, w));
    assert forall i :: 0 <= i < |pool| ==> pool[i] in pool;
  }

  /** What the gate says about a nonempty pool. */
  function PoolDecision(pool: seq<Entry>, treeOf: TreeOf, w: World): Decision
    requires AllValid(pool) && pool != []
  {
    var latest := Latest(pool);
    var full := Select(latest, IsFull());
    var unbound := Select(pool, Unbound(treeOf)) != [];
    if FirstTrouble(latest, w).Some? then FirstTrouble(latest, w).value
    else if !unbound && full != [] then Pass(Last(full), 0)
    else
      LatestNonempty(pool);
      DeferredCi(Last(latest), |latest|, unbound)
  }

  lemma LatestNonempty(pool: seq<Entry>)
    requires AllValid(pool) && pool != []
    ensures Latest(pool) != []
  {
    var rest := Latest(pool[..|pool| - 1]);
    assert Put(rest, Last(pool)) != [];
  }

  function CiDecision(entries: seq<Entry>, treeOf: TreeOf, w: World): Decision
  {
    var newest := Newest(entries, TestOrInvalid);
    var running := Newest(entries, TestRunning(w));
    var finished := Newest(entries, TestFinished(w));
    var pool := CiPool(entries, treeOf, w);
    if newest.Some? && newest.value.Invalid? then InvalidRecord(newest.value)
    else if running.Some? then RunInProgress(running.value)
    else if finished.None? then Missing
    else if ActiveMissing(pool, treeOf(finished.value)) then Stale(finished.value)
    else if pool == [] then Stale(finished.value)
    else
      PoolIsValid(entries, treeOf, w);
      PoolDecision(pool, treeOf, w)
  }

  predicate ActiveMissing(pool: seq<Entry>, active: Option<string>)
  {
    active.Some? && Select(pool, EndsOn(active.value)) == []
  }

  /** The gate, step by step: filters, then a map from command to newest entry, then its values in turn. */
  method DecideCi(entries: seq<Entry>, treeOf: TreeOf, w: World) returns (d: Decision)
    ensures d == CiDecision(entries, treeOf, w)
  {
    var tests := Select(entries, TestOrInvalid);
    LastIsNewest(entries, TestOrInvalid);
    if tests != [] && Last(tests).Invalid? { return InvalidRecord(Last(tests)); }
    var valid := Select(tests, IsValid);
    var running := Select(valid, Running(w));
    var finished := Select(valid, Finished(w));
    var pool := Select(finished, InPool(treeOf));
    TestFilters(entries, treeOf, w);
    LastIsNewest(entries, TestRunning(w));
    LastIsNewest(entries, TestFinished(w));
    PoolIsValid(entries, treeOf, w);
    if running != [] { return RunInProgress(Last(running)); }
    if finished == [] { return Missing; }
    var unbound := Select(pool, Unbound(treeOf)) != [];
    if ActiveMissing(pool, treeOf(Last(finished))) { return Stale(Last(finished)); }
    if pool == [] { return Stale(Last(finished)); }
    d := JudgePool(pool, unbound, treeOf, w);
  }

  method JudgePool(pool: seq<Entry>, unbound: bool, treeOf: TreeOf, w: World) returns (d: Decision)
    requires AllValid(pool) && pool != [] && unbound == (Select(pool, Unbound(treeOf)) != [])
    ensures d == PoolDecision(pool, treeOf, w)
  {
    var latest := NewestByCommand(pool);
    var i := 0;
    assert latest[0..] == latest;
    while i < |latest|
      invariant 0 <= i <= |latest| && FirstTrouble(latest[i..], w) == FirstTrouble(latest, w)
    {
      assert latest[i..][1..] == latest[i + 1..];
      var trouble := Trouble(latest[i], w);
      if trouble.Some? { return trouble.value; }
      i := i + 1;
    }
    var full := Select(latest, IsFull());
    if !unbound && full != [] { return Pass(Last(full), 0); }
    LatestNonempty(pool);
    return DeferredCi(Last(latest), |latest|, unbound);
  }

  lemma TestFilters(entries: seq<Entry>, treeOf: TreeOf, w: World)
    ensures var valid := Select(Select(entries, TestOrInvalid), IsValid);
      && Select(valid, Running(w)) == Select(entries, TestRunning(w))
      && Select(valid, Finished(w)) == Select(entries, TestFinished(w))
      && Select(Select(valid, Finished(w)), InPool(treeOf)) == CiPool(entries, treeOf, w)
  {
    SelectSelect(entries, TestOrInvalid, IsValid, TestValid);
    SelectSelect(entries, TestValid, Running(w), TestRunning(w));
    SelectSelect(entries, TestValid, Finished(w), TestFinished(w));
    SelectSelect(entries, TestFinished(w), InPool(treeOf), Pooled(treeOf, w));
  }

  /** A map that remembers the order in which its keys were first set. */
  function MapValues(keys: seq<Command>, values: map<Command, Entry>): seq<Entry>
    requires forall c :: c in keys ==> c in values
  {
    if keys == [] then [] else [values[keys[0]]] + MapValues(keys[1..], values)
  }

  ghost predicate KeyedByCommand(keys: seq<Command>, values: map<Command, Entry>)
  {
    && (forall c :: c in keys <==> c in values)
    && (forall c :: c in values ==> values[c].Valid? && CommandOf(values[c]) == c)
    && (forall i, j :: 0 <= i < j < |keys| ==> keys[i] != keys[j])
  }

  lemma {:induction false} SetIsPut(keys: seq<Command>, values: map<Command, Entry>, e: Entry)
    requires e.Valid? && forall c :: c in keys ==> c in values && values[c].Valid? && CommandOf(values[c]) == c
    requires forall i, j :: 0 <= i < j < |keys| ==> keys[i] != keys[j]
    ensures AllValid(MapValues(keys, values))
    ensures var c := CommandOf(e);
      MapValues(if c in keys then keys else keys + [c], values[c := e]) == Put(MapValues(keys, values), e)
  {
    var c := CommandOf(e);
    if keys == [] {
      assert keys + [c] == [c] && [c][1..] == [];
    } else {
      var rest := keys[1..];
      assert forall k :: k in rest ==> k in keys;
      assert keys == [keys[0]] + rest;
      SetIsPut(rest, values, e);
      if keys[0] == c {
        assert c !in rest;
        SameValues(rest, values, e);
      } else if c !in keys {
        assert (keys + [c])[1..] == rest + [c];
      }
    }
  }

  lemma {:induction false} SameValues(keys: seq<Command>, values: map<Command, Entry>, e: Entry)
    requires e.Valid? && CommandOf(e) !in keys && forall c :: c in keys ==> c in values
    ensures MapValues(keys, values[CommandOf(e) := e]) == MapValues(keys, values)
  {
    if keys != [] { SameValues(keys[1..], values, e); }
  }

  method NewestByCommand(pool: seq<Entry>) returns (latest: seq<Entry>)
    requires AllValid(pool)
    ensures latest == Latest(pool)
  {
    var keys: seq<Command> := [];
    var values: map<Command, Entry> := map[];
    for i := 0 to |pool|
      invariant KeyedByCommand(keys, values)
      invariant MapValues(keys, values) == Latest(pool[..i])
    {
      var e := pool[i];
      assert pool[..i + 1][..i] == pool[..i];
      SetIsPut(keys, values, e);
      var c := CommandOf(e);
      if c !in values { keys := keys + [c]; }
      values := values[c := e];
    }
    assert pool[..|pool|] == pool;
    latest := MapValues(keys, values);
  }

  // ----- What the gate means -----

  predicate CiPasses(d: Decision) { d.Pass? || d.DeferredCi? }

  predicate CiTrusted(entries: seq<Entry>)
  {
    Newest(entries, TestOrInvalid).Some? ==> Newest(entries, TestOrInvalid).value.Valid?
  }

  function PooledRunOf(treeOf: TreeOf, w: World, c: Command): Entry -> bool
  {
    (e: Entry) =>
      && TestValid(e)
      && EffectiveState(e.record, w) != StillRunning
      && (treeOf(e).None? || e.record.treeEnd == treeOf(e))
      && CommandOf(e) == c
  }

  predicate CiGreen(e: Entry, w: World)
  {
    && e.Valid?
    && EffectiveState(e.record, w) != Interrupted
    && (e.record.treeStart.None? || e.record.treeEnd.None? || e.record.treeStart == e.record.treeEnd)
    && e.record.exitCode == Some(0)
  }

  /** The newest pooled run of every command is green. */
  ghost predicate EveryCommandGreen(entries: seq<Entry>, treeOf: TreeOf, w: World)
  {
    forall c :: Newest(entries, PooledRunOf(treeOf, w, c)).Some? ==> CiGreen(Newest(entries, PooledRunOf(treeOf, w, c)).value, w)
  }

  /** There is something to judge: a finished run, a pooled run, and one on the tree of the newest finished run. */
  predicate HasPool(entries: seq<Entry>, treeOf: TreeOf, w: World)
  {
    var finished := Newest(entries, TestFinished(w));
    && finished.Some?
    && CiPool(entries, treeOf, w) != []
    && !ActiveMissing(CiPool(entries, treeOf, w), treeOf(finished.value))
  }

  lemma {:induction false} FirstTroubleNone(latest: seq<Entry>, w: World)
    requires AllValid(latest)
    ensures FirstTrouble(latest, w).None? <==> forall e :: e in latest ==> CiGreen(e, w)
    ensures FirstTrouble(latest, w).Some? ==> !CiPasses(FirstTrouble(latest, w).value)
  {
    if latest != [] {
      FirstTroubleNone(latest[1..], w);
      assert forall e :: e in latest <==> e == latest[0] || e in latest[1..];
      assert Trouble(latest[0], w).None? <==> CiGreen(latest[0], w);
    }
  }

  lemma NewestOfCommand(entries: seq<Entry>, treeOf: TreeOf, w: World, c: Command, pool: seq<Entry>)
    requires pool == CiPool(entries, treeOf, w)
    ensures Newest(pool, HasCommand(c)) == Newest(entries, PooledRunOf(treeOf, w, c))
    ensures Newest(pool, HasCommand(c)).Some? ==>
      Newest(pool, HasCommand(c)).value.Valid? && CommandOf(Newest(pool, HasCommand(c)).value) == c
  {
    SelectSelect(entries, Pooled(treeOf, w), HasCommand(c), PooledRunOf(treeOf, w, c));
    NewestHas(pool, HasCommand(c));
  }

  lemma LatestGreen(entries: seq<Entry>, treeOf: TreeOf, w: World, pool: seq<Entry>)
    requires pool == CiPool(entries, treeOf, w) && AllValid(pool)
    ensures EveryCommandGreen(entries, treeOf, w) <==> forall e :: e in Latest(pool) ==> CiGreen(e, w)
  {
    LatestIsNewest(pool);
    forall e | e in Latest(pool) ensures Newest(entries, PooledRunOf(treeOf, w, CommandOf(e))) == Some(e) {
      NewestOfCommand(entries, treeOf, w, CommandOf(e), pool);
    }
    forall c | Newest(entries, PooledRunOf(treeOf, w, c)).Some?
      ensures Newest(entries, PooledRunOf(treeOf, w, c)).value in Latest(pool)
    {
      NewestOfCommand(entries, treeOf, w, c, pool);
    }
  }

  lemma PoolGreen(entries: seq<Entry>, treeOf: TreeOf, w: World, pool: seq<Entry>)
    requires pool == CiPool(entries, treeOf, w) && pool != [] && AllValid(pool)
    ensures CiPasses(PoolDecision(pool, treeOf, w)) <==> EveryCommandGreen(entries, treeOf, w)
  {
    LatestGreen(entries, treeOf, w, pool);
    FirstTroubleNone(Latest(pool), w);
  }

  /** The gate lets a chain through exactly when the newest pooled run of every command is green. */
  lemma CiPassesIff(entries: seq<Entry>, treeOf: TreeOf, w: World)
    ensures CiPasses(CiDecision(entries, treeOf, w)) <==>
      && CiTrusted(entries)
      && Newest(entries, TestRunning(w)).None?
      && HasPool(entries, treeOf, w)
      && EveryCommandGreen(entries, treeOf, w)
  {
    PoolIsValid(entries, treeOf, w);
    if CiPool(entries, treeOf, w) != [] { PoolGreen(entries, treeOf, w, CiPool(entries, treeOf, w)); }
  }

  /** A pass, not just a deferral to CI, needs every pooled run bound to a tree and a full run among them. */
  lemma CiPassIff(entries: seq<Entry>, treeOf: TreeOf, w: World)
    ensures CiDecision(entries, treeOf, w).Pass? <==>
      && CiPasses(CiDecision(entries, treeOf, w))
      && (forall e :: e in CiPool(entries, treeOf, w) ==> treeOf(e).Some?)
      && (exists e :: e in CiPool(entries, treeOf, w) && FullValid(e))
  {
    var pool := CiPool(entries, treeOf, w);
    PoolIsValid(entries, treeOf, w);
    SelectMembers(pool, Unbound(treeOf));
    if pool != [] {
      FirstTroubleNone(Latest(pool), w);
      FullAmongLatest(pool);
      assert Select(pool, Unbound(treeOf)) == [] <==> forall e :: e in pool ==> treeOf(e).Some? by {
        var none := Select(pool, Unbound(treeOf));
        assert none != [] ==> none[0] in none;
      }
    }
  }

  /** Some command has a full run exactly when some entry is one. */
  lemma FullAmongLatest(pool: seq<Entry>)
    requires AllValid(pool)
    ensures Select(Latest(pool), IsFull()) != [] <==> exists e :: e in pool && FullValid(e)
  {
    var latest := Latest(pool);
    var full := Select(latest, IsFull());
    LatestIsNewest(pool);
    SelectMembers(latest, IsFull());
    if full != [] {
      var e := full[0];
      assert e in full;
      NewestHas(pool, HasCommand(CommandOf(e)));
    }
    if e :| e in pool && FullValid(e) {
      var c := CommandOf(e);
      LastIsNewest(pool, HasCommand(c));
      SelectMembers(pool, HasCommand(c));
      assert e in Select(pool, HasCommand(c));
      NewestHas(pool, HasCommand(c));
      var f := Newest(pool, HasCommand(c)).value;
      assert f in latest;
      assert f in full;
    }
  }

  /** The tree every entry is judged against when there is just one. */
  function OneTree(t: string): TreeOf
  {
    (e: Entry) => Some(t)
  }

  /**
   * On one fingerprinted tree, a CI pass is a local pass exactly when no invalid record follows the newest
   * full run, the newest full run on the tree was fingerprinted at its start, and it ran the configured command.
   */
  lemma CiPassIsLocalPass(entries: seq<Entry>, t: string, configured: Option<string>, w: World)
    requires CiDecision(entries, OneTree(t), w).Pass?
    ensures Newest(entries, FullOnTree(w, t)).Some?
    ensures Decide(entries, Some(t), configured, w).Pass? <==>
      var e := Newest(entries, FullOnTree(w, t)).value;
      Trusted(entries) && e.Valid? && e.record.treeStart.Some? && Matches(e, configured)
  {
    CiPassIff(entries, OneTree(t), w);
    CiPassesIff(entries, OneTree(t), w);
    PassIffNewestGreen(entries, t, configured, w);
    NewestNarrower(entries, TestRunning(w), FullRunning(w));
    var e := NewestFull(entries, t, w);
    var c := CommandOf(e);
    NewestNarrower(entries, FullOnTree(w, t), PooledRunOf(OneTree(t), w, c));
    assert Newest(entries, PooledRunOf(OneTree(t), w, c)) == Some(e);
  }

  lemma NewestFull(entries: seq<Entry>, t: string, w: World) returns (e: Entry)
    requires exists e :: e in CiPool(entries, OneTree(t), w) && FullValid(e)
    ensures Newest(entries, FullOnTree(w, t)) == Some(e) && FullOnTree(w, t)(e)
  {
    var f :| f in CiPool(entries, OneTree(t), w) && FullValid(f);
    SelectMembers(entries, Pooled(OneTree(t), w));
    SelectMembers(entries, FullOnTree(w, t));
    assert f in Select(entries, FullOnTree(w, t));
    LastIsNewest(entries, FullOnTree(w, t));
    NewestHas(entries, FullOnTree(w, t));
    e := Newest(entries, FullOnTree(w, t)).value;
  }

  /** The two gates agree on a pass when every record is valid and was fingerprinted at its start, and no command is configured. */
  lemma CiPassImpliesPass(entries: seq<Entry>, t: string, w: World)
    requires CiDecision(entries, OneTree(t), w).Pass?
    requires forall e :: e in entries ==> e.Valid? && e.record.treeStart.Some?
    ensures Decide(entries, Some(t), None, w).Pass?
  {
    CiPassIsLocalPass(entries, t, None, w);
    NewestHas(entries, FullOrInvalid);
    NewestHas(entries, FullOnTree(w, t));
  }

  // ----- What every other answer means -----

  ghost predicate CiIdle(entries: seq<Entry>, w: World)
  {
    CiTrusted(entries) && Newest(entries, TestRunning(w)).None?
  }

  /** The newest pooled run of its command. */
  ghost predicate NewestOfItsCommand(e: Entry, entries: seq<Entry>, treeOf: TreeOf, w: World)
  {
    e.Valid? && Newest(entries, PooledRunOf(treeOf, w, CommandOf(e))) == Some(e)
  }

  ghost predicate Changed(e: Entry)
    requires e.Valid?
  {
    e.record.treeStart.Some? && e.record.treeEnd.Some? && e.record.treeStart != e.record.treeEnd
  }

  /** For every answer, what the log says. */
  ghost predicate CiExplained(d: Decision, entries: seq<Entry>, treeOf: TreeOf, w: World)
  {
    match d
    case InvalidRecord(e) => Newest(entries, TestOrInvalid) == Some(e) && e.Invalid?
    case RunInProgress(e) => CiTrusted(entries) && Newest(entries, TestRunning(w)) == Some(e)
    case Missing => CiIdle(entries, w) && Newest(entries, TestFinished(w)).None?
    case Stale(e) => CiIdle(entries, w) && Newest(entries, TestFinished(w)) == Some(e) && !HasPool(entries, treeOf, w)
    case RunInterrupted(e) =>
      CiIdle(entries, w) && HasPool(entries, treeOf, w) && NewestOfItsCommand(e, entries, treeOf, w)
      && EffectiveState(e.record, w) == Interrupted
    case MutatedDuringRun(e) =>
      CiIdle(entries, w) && HasPool(entries, treeOf, w) && NewestOfItsCommand(e, entries, treeOf, w)
      && EffectiveState(e.record, w) == Completed && Changed(e)
    case RunFailed(e) =>
      CiIdle(entries, w) && HasPool(entries, treeOf, w) && NewestOfItsCommand(e, entries, treeOf, w)
      && EffectiveState(e.record, w) == Completed && !Changed(e) && e.record.exitCode != Some(0)
    case Pass(e, n) => CiIdle(entries, w) && HasPool(entries, treeOf, w) && NewestOfItsCommand(e, entries, treeOf, w) && FullValid(e) && n == 0
    case DeferredCi(e, n, unbound) =>
      CiIdle(entries, w) && HasPool(entries, treeOf, w) && NewestOfItsCommand(e, entries, treeOf, w)
      && n == |CommandsIn(CiPool(entries, treeOf, w))| && (unbound <==> exists x :: x in CiPool(entries, treeOf, w) && treeOf(x).None?)
    case _ => false
  }

  function CommandsIn(pool: seq<Entry>): set<Command>
  {
    set e | e in pool && e.Valid? :: CommandOf(e)
  }

  lemma {:induction false} TroubleIs(latest: seq<Entry>, w: World) returns (e: Entry)
    requires AllValid(latest) && FirstTrouble(latest, w).Some?
    ensures e in latest && FirstTrouble(latest, w) == Trouble(e, w)
  {
    if Trouble(latest[0], w).Some? { e := latest[0]; } else { e := TroubleIs(latest[1..], w); }
  }

  lemma InLatest(entries: seq<Entry>, treeOf: TreeOf, w: World, pool: seq<Entry>, e: Entry)
    requires pool == CiPool(entries, treeOf, w) && AllValid(pool) && e in Latest(pool)
    ensures NewestOfItsCommand(e, entries, treeOf, w) && e in pool && EffectiveState(e.record, w) != StillRunning
  {
    LatestIsNewest(pool);
    NewestOfCommand(entries, treeOf, w, CommandOf(e), pool);
    NewestHas(pool, HasCommand(CommandOf(e)));
    SelectMembers(entries, Pooled(treeOf, w));
  }

  lemma {:induction false} DistinctCount(latest: seq<Entry>)
    requires AllValid(latest) && Distinct(latest)
    ensures |CommandsIn(latest)| == |latest|
  {
    if latest != [] {
      var e, rest := latest[0], latest[1..];
      DistinctCount(rest);
      assert forall i :: 0 <= i < |rest| ==> CommandOf(rest[i]) != CommandOf(e);
      assert CommandsIn(latest) == {CommandOf(e)} + CommandsIn(rest);
      assert CommandOf(e) !in CommandsIn(rest);
    }
  }

  /** The latest entries have the commands of the pool, each once. */
  lemma LatestCommands(pool: seq<Entry>)
    requires AllValid(pool)
    ensures |Latest(pool)| == |CommandsIn(pool)|
  {
    var latest := Latest(pool);
    LatestIsNewest(pool);
    DistinctCount(latest);
    forall e | e in pool ensures CommandOf(e) in CommandsIn(latest) {
      var p := HasCommand(CommandOf(e));
      LastIsNewest(pool, p);
      SelectMembers(pool, p);
      assert e in Select(pool, p);
      NewestHas(pool, p);
      assert Newest(pool, p).value in latest;
    }
    forall e | e in latest ensures CommandOf(e) in CommandsIn(pool) { NewestHas(pool, HasCommand(CommandOf(e))); }
    assert CommandsIn(latest) == CommandsIn(pool);
  }

  lemma TroubleIsExplained(entries: seq<Entry>, treeOf: TreeOf, w: World, e: Entry)
    requires CiIdle(entries, w) && HasPool(entries, treeOf, w) && NewestOfItsCommand(e, entries, treeOf, w)
    requires EffectiveState(e.record, w) != StillRunning && Trouble(e, w).Some?
    ensures CiExplained(Trouble(e, w).value, entries, treeOf, w)
  {
  }

  lemma UnboundIs(pool: seq<Entry>, treeOf: TreeOf)
    ensures Select(pool, Unbound(treeOf)) != [] <==> exists x :: x in pool && treeOf(x).None?
  {
    var unbound := Select(pool, Unbound(treeOf));
    SelectMembers(pool, Unbound(treeOf));
    assert unbound != [] ==> unbound[0] in unbound;
    if x :| x in pool && treeOf(x).None? { assert Unbound(treeOf)(x) && x in unbound; }
  }

  lemma LastFull(latest: seq<Entry>, full: seq<Entry>)
    requires AllValid(latest) && full == Select(latest, IsFull()) && full != []
    ensures Last(full) in latest && FullValid(Last(full))
  {
    SelectMembers(latest, IsFull());
    assert Last(full) in full;
  }

  lemma GreenPoolIsExplained(entries: seq<Entry>, treeOf: TreeOf, w: World, pool: seq<Entry>, latest: seq<Entry>)
    requires pool == CiPool(entries, treeOf, w) && AllValid(pool) && pool != [] && latest == Latest(pool)
    requires CiIdle(entries, w) && HasPool(entries, treeOf, w) && FirstTrouble(latest, w).None?
    ensures CiExplained(PoolDecision(pool, treeOf, w), entries, treeOf, w)
  {
    var full := Select(latest, IsFull());
    LatestCommands(pool);
    LatestNonempty(pool);
    UnboundIs(pool, treeOf);
    if Select(pool, Unbound(treeOf)) == [] && full != [] {
      LastFull(latest, full);
      InLatest(entries, treeOf, w, pool, Last(full));
    } else {
      InLatest(entries, treeOf, w, pool, Last(latest));
    }
  }

  lemma PoolAnswerIsExplained(entries: seq<Entry>, treeOf: TreeOf, w: World, pool: seq<Entry>)
    requires pool == CiPool(entries, treeOf, w) && AllValid(pool) && pool != []
    requires CiIdle(entries, w) && HasPool(entries, treeOf, w)
    ensures CiExplained(PoolDecision(pool, treeOf, w), entries, treeOf, w)
  {
    var latest := Latest(pool);
    if FirstTrouble(latest, w).Some? {
      var e := TroubleIs(latest, w);
      InLatest(entries, treeOf, w, pool, e);
      TroubleIsExplained(entries, treeOf, w, e);
    } else {
      GreenPoolIsExplained(entries, treeOf, w, pool, latest);
    }
  }

  /** Every answer of the gate of a CI chain is explained by the newest entries of the log and of each command. */
  lemma CiAnswerIsExplained(entries: seq<Entry>, treeOf: TreeOf, w: World)
    ensures CiExplained(CiDecision(entries, treeOf, w), entries, treeOf, w)
  {
    var pool := CiPool(entries, treeOf, w);
    PoolIsValid(entries, treeOf, w);
    if CiIdle(entries, w) && HasPool(entries, treeOf, w) { PoolAnswerIsExplained(entries, treeOf, w, pool); }
  }

  // ----- Which trouble is reported -----

  function Commands(list: seq<Entry>): (r: seq<Command>)
    requires AllValid(list)
    ensures |r| == |list| && forall i :: 0 <= i < |r| ==> r[i] == CommandOf(list[i])
  {
    seq(|list|, i requires 0 <= i < |list| => CommandOf(list[i]))
  }

  lemma {:induction false} PutCommands(list: seq<Entry>, e: Entry)
    requires AllValid(list) && e.Valid?
    ensures AllValid(Put(list, e))
    ensures Commands(Put(list, e)) == if CommandOf(e) in Commands(list) then Commands(list) else Commands(list) + [CommandOf(e)]
  {
    if list != [] {
      var head, rest := list[0], list[1..];
      CommandsCons(head, rest, list);
      if CommandOf(head) != CommandOf(e) {
        PutCommands(rest, e);
        CommandsCons(head, Put(rest, e), Put(list, e));
        Assoc([CommandOf(head)], Commands(rest), [CommandOf(e)]);
      } else {
        CommandsCons(e, rest, Put(list, e));
      }
    }
  }

  lemma CommandsCons(e: Entry, rest: seq<Entry>, list: seq<Entry>)
    requires e.Valid? && AllValid(rest) && list == [e] + rest
    ensures AllValid(list) && Commands(list) == [CommandOf(e)] + Commands(rest)
  {
  }

  /** The commands are judged in the order of their first runs. */
  lemma {:induction false} LatestInOrder(pool: seq<Entry>)
    requires AllValid(pool)
    ensures Commands(Latest(pool)) == FirstSeen(Commands(pool))
    decreases |pool|
  {
    if pool != [] {
      var rest, e := pool[..|pool| - 1], Last(pool);
      LatestInOrder(rest);
      PutCommands(Latest(rest), e);
      var commands := Commands(pool);
      assert commands[..|commands| - 1] == Commands(rest);
    }
  }

  lemma {:induction false} FirstTroubleAt(latest: seq<Entry>, w: World) returns (k: nat)
    requires AllValid(latest) && FirstTrouble(latest, w).Some?
    ensures k < |latest| && FirstTrouble(latest, w) == Trouble(latest[k], w) && forall j :: 0 <= j < k ==> Trouble(latest[j], w).None?
  {
    if Trouble(latest[0], w).Some? {
      k := 0;
    } else {
      var i := FirstTroubleAt(latest[1..], w);
      k := i + 1;
      assert forall j :: 1 <= j < k ==> latest[j] == latest[1..][j - 1];
    }
  }

  /** The trouble reported is that of the command that ran first: every command with an earlier first run is green. */
  lemma TroubleIsTheFirst(entries: seq<Entry>, treeOf: TreeOf, w: World, c: Command) returns (e: Entry)
    requires CiIdle(entries, w) && HasPool(entries, treeOf, w) && AllValid(CiPool(entries, treeOf, w))
    requires FirstTrouble(Latest(CiPool(entries, treeOf, w)), w).Some?
    ensures NewestOfItsCommand(e, entries, treeOf, w) && Trouble(e, w).Some? && CiDecision(entries, treeOf, w) == Trouble(e, w).value
    ensures var pool := CiPool(entries, treeOf, w);
      c in Commands(pool) && c != CommandOf(e) && !SeenBefore(Commands(pool), CommandOf(e), c) ==>
        Newest(entries, PooledRunOf(treeOf, w, c)).Some? && CiGreen(Newest(entries, PooledRunOf(treeOf, w, c)).value, w)
  {
    var pool := CiPool(entries, treeOf, w);
    var latest := Latest(pool);
    var k := FirstTroubleAt(latest, w);
    e := latest[k];
    InLatest(entries, treeOf, w, pool, e);
    LatestInOrder(pool);
    FirstSeenMembers(Commands(pool), c);
    if c in Commands(pool) && c != CommandOf(e) && !SeenBefore(Commands(pool), CommandOf(e), c) {
      var j :| 0 <= j < |latest| && CommandOf(latest[j]) == c;
      InLatest(entries, treeOf, w, pool, latest[j]);
      if k < j { FirstSeenOrder(Commands(pool), k, j); }
      assert Trouble(latest[j], w).None?;
    }
  }
}
