/** Pruning the store of recorded runs. */
module EvidencePruning {
  import opened Text
  import opened RunRecords
  import opened RecordIds
  import opened GroupPruning

  /** The group a record file is counted in; files whose scope cannot be read share one. */
  type Group = Option<Scope>

  function GroupOf(e: Entry): Group
  {
    if e.Valid? then Some(e.record.scope) else e.rawScope
  }

  function ByScope(): Reading<Entry, Group>
  {
    Reading((e: Entry) => e.id, (e: Entry) => GroupOf(e))
  }

  predicate IsTree(t: string)
  {
    (|t| == 40 || |t| == 64) && forall i :: 0 <= i < |t| ==> Hex(t[i])
  }

  /** A file that is read as a record at all, by its name, and whose trees are ones if it is valid. */
  predicate Listed(e: Entry)
  {
    && IsId("er1_", e.id)
    && (e.Valid? && e.record.treeStart.Some? ==> IsTree(e.record.treeStart.value))
    && (e.Valid? && e.record.treeEnd.Some? ==> IsTree(e.record.treeEnd.value))
  }

  /** The logs that the store yields: record files sorted by their names. */
  ghost predicate Stored(entries: seq<Entry>)
  {
    Ascending(entries, ByScope()) && forall e :: e in entries ==> Listed(e)
  }

  function Ids(entries: seq<Entry>): set<string>
  {
    set e | e in entries :: e.id
  }

  class Store {
    var records: seq<Entry>
    var logs: set<string>

    constructor (records: seq<Entry>, logs: set<string>)
      ensures this.records == records && this.logs == logs
    {
      this.records, this.logs := records, logs;
    }

    method Unlink(id: string)
      modifies this
      ensures records == Without(old(records), ByScope(), {id}) && logs == old(logs) - {id}
    {
      records := Without(records, ByScope(), {id});
      logs := logs - {id};
    }

    /** Removes the oldest files of one group beyond the limit, but not those to be kept. */
    method RemoveOldest(group: seq<string>, limit: nat, keep: set<string>, ghost names: seq<Entry>, ghost gone: set<string>)
      requires records == Without(names, ByScope(), gone)
      modifies this
      ensures records == Without(names, ByScope(), gone + DoomedIds(group, limit, keep))
      ensures logs == old(logs) - DoomedIds(group, limit, keep)
    {
      var excess := if |group| > limit then |group| - limit else 0;
      ghost var removed: set<string> := {};
      assert gone + removed == gone;
      for j := 0 to excess
        invariant removed == DoomedIds(group[..j], 0, keep)
        invariant records == Without(names, ByScope(), gone + removed) && logs == old(logs) - removed
      {
        DoomedSnoc(group, j, keep);
        if group[j] !in keep {
          WithoutTwice(names, ByScope(), gone + removed, {group[j]});
          Unlink(group[j]);
          assert gone + removed + {group[j]} == gone + (removed + {group[j]});
          removed := removed + {group[j]};
        }
      }
      DoomedPrefix(group, excess, limit, keep);
    }

    /** Groups the files by scope, removes the oldest of each group beyond the limit, and then every log without a record. */
    method Prune(limit: nat, keep: set<string>)
      requires Stored(records)
      modifies this
      ensures Stored(records)
      ensures records == Pruned(old(records), ByScope(), limit, keep)
      ensures logs == old(logs) * Ids(records)
    {
      var names := records;
      var scopes, byScope := GroupIds(names, ByScope());
      ghost var gone: set<string> := {};
      WithoutNone(names, ByScope());
      for i := 0 to |scopes|
        invariant gone == DoomedIn(names, ByScope(), scopes[..i], limit, keep)
        invariant records == Without(names, ByScope(), gone) && logs == old(logs) - gone
      {
        RemoveOldest(byScope[scopes[i]], limit, keep, names, gone);
        gone := gone + DoomedIds(byScope[scopes[i]], limit, keep);
        assert scopes[..i + 1][..i] == scopes[..i];
      }
      assert scopes[..|scopes|] == scopes;
      AllGroupsDoomed(names, ByScope(), scopes, limit, keep);
      WhatIsLeft(names, limit, keep);
      KeptLogs(names, gone, records, old(logs));
      DropLogs();
    }

    /** Removes every log without a record. */
    method DropLogs()
      modifies this
      ensures records == old(records) && logs == old(logs) * Ids(records)
    {
      logs := set id | id in logs && id in Ids(records);
    }
  }

  lemma KeptLogs(names: seq<Entry>, gone: set<string>, left: seq<Entry>, logs: set<string>)
    requires left == Without(names, ByScope(), gone)
    ensures (logs - gone) * Ids(left) == logs * Ids(left)
  {
    GoneIds(names, ByScope(), gone);
  }

  lemma WhatIsLeft(names: seq<Entry>, limit: nat, keep: set<string>)
    requires Stored(names)
    ensures var left := Pruned(names, ByScope(), limit, keep);
      Without(names, ByScope(), Doomed(names, ByScope(), limit, keep)) == left && Stored(left)
  {
    AscendingIsUnique(names, ByScope());
    PrunedIsAscending(names, ByScope(), limit, keep);
    WithoutDoomed(names, ByScope(), limit, keep);
  }
}
