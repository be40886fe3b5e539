/** The acceptance gate: the newest verdict on every criterion of a plan, and the pruning of those verdicts. */
module Acceptance {
  import opened Text
  import opened Logs

  datatype Verdict = Pass | Fail | Partial

  datatype Record = Record(stem: string, ac: string, digest: string, text: string, verdict: Verdict, tree: Option<string>)

  datatype Entry = Valid(id: string, record: Record) | Invalid(id: string, problem: string)

  datatype Criterion = Criterion(id: string, text: string, deprecated: bool)

  datatype RowState = Judged(verdict: Verdict) | Stale | Missing | Deprecated | Dropped

  datatype Row = Row(id: string, state: RowState, record: Option<Entry>, earlierNonPass: nat)

  type Digest = string -> string

  /** Whether the first id comes before the second in a list of criteria. */
  type Order = (string, string) -> bool

  predicate IsValid(e: Entry) { e.Valid? }

  predicate AllValid(entries: seq<Entry>)
  {
    forall i :: 0 <= i < |entries| ==> entries[i].Valid?
  }

  // ----- The rows -----

  function OfId(id: string): Entry -> bool
  {
    (e: Entry) => e.Valid? && e.record.ac == id
  }

  function HasDigest(digest: string): Entry -> bool
  {
    (e: Entry) => e.Valid? && e.record.digest == digest
  }

  function OnTree(t: string): Entry -> bool
  {
    (e: Entry) => e.Valid? && e.record.tree == Some(t)
  }

  function NotPass(): Entry -> bool
  {
    (e: Entry) => e.Valid? && e.record.verdict != Pass
  }

  function LastOf(entries: seq<Entry>): Option<Entry>
  {
    if entries == [] then None else Some(entries[|entries| - 1])
  }

  predicate Passes(e: Option<Entry>)
  {
    e.Some? && e.value.Valid? && e.value.record.verdict == Pass
  }

  function Judge(last: Entry): RowState
  {
    if last.Valid? then Judged(last.record.verdict) else Missing
  }

  /** The row of a criterion from the records of that criterion, oldest first. */
  function RowOf(c: Criterion, records: seq<Entry>, tree: Option<string>, digest: Digest): Row
  {
    var latest := LastOf(records);
    if c.deprecated then Row(c.id, if latest.Some? && !Passes(latest) then Dropped else Deprecated, latest, 0)
    else if records == [] then Row(c.id, Missing, None, 0)
    else
      var matching := Select(records, HasDigest(digest(c.text)));
      if matching == [] then Row(c.id, Stale, latest, 0)
      else if tree.None? then Row(c.id, Judge(LastOf(matching).value), LastOf(matching), 0)
      else
        var onTree := Select(matching, OnTree(tree.value));
        if onTree == [] then Row(c.id, Stale, LastOf(matching), 0)
        else
          var last := LastOf(onTree);
          Row(c.id, Judge(last.value), last, if Passes(last) then |Select(onTree[..|onTree| - 1], NotPass())| else 0)
  }

  function CriterionRows(criteria: seq<Criterion>, entries: seq<Entry>, tree: Option<string>, digest: Digest): seq<Row>
  {
    if criteria == [] then []
    else [RowOf(criteria[0], Select(entries, OfId(criteria[0].id)), tree, digest)] + CriterionRows(criteria[1..], entries, tree, digest)
  }

  /** The rows of removed criteria whose newest verdict is not a pass. */
  function DroppedRows(removed: seq<string>, entries: seq<Entry>): seq<Row>
  {
    if removed == [] then []
    else
      var latest := LastOf(Select(entries, OfId(removed[0])));
      (if Passes(latest) then [] else [Row(removed[0], Dropped, latest, 0)]) + DroppedRows(removed[1..], entries)
  }

  /** The criterion ids of the entries, in the order in which they appear. */
  function FirstIds(entries: seq<Entry>): seq<string>
  {
    if entries == [] then []
    else
      var ids, last := FirstIds(entries[..|entries| - 1]), entries[|entries| - 1];
      if last.Invalid? || last.record.ac in ids then ids else ids + [last.record.ac]
  }

  function NotPlanned(criteria: seq<Criterion>): string -> bool
  {
    (id: string) => !Planned(criteria, id)
  }

  predicate Planned(criteria: seq<Criterion>, id: string)
  {
    exists c :: c in criteria && c.id == id
  }

  function Insert(sorted: seq<string>, id: string, precedes: Order): seq<string>
  {
    if sorted == [] || precedes(id, sorted[0]) then [id] + sorted else [sorted[0]] + Insert(sorted[1..], id, precedes)
  }

  /** The ids in order; ids that are equal for the order stay as they were. */
  function Sorted(ids: seq<string>, precedes: Order): seq<string>
  {
    if ids == [] then [] else Insert(Sorted(ids[..|ids| - 1], precedes), ids[|ids| - 1], precedes)
  }

  function Rows(criteria: seq<Criterion>, entries: seq<Entry>, tree: Option<string>, digest: Digest, precedes: Order): seq<Row>
  {
    CriterionRows(criteria, entries, tree, digest)
    + DroppedRows(Sorted(Select(FirstIds(entries), NotPlanned(criteria)), precedes), entries)
  }

  // ----- Evaluation step by step -----

  ghost predicate ByCriterion(entries: seq<Entry>, ids: seq<string>, byId: map<string, seq<Entry>>)
  {
    && ids == FirstIds(entries)
    && (forall id :: id in byId <==> id in ids)
    && (forall id :: Select(entries, OfId(id)) == if id in byId then byId[id] else [])
  }

  method GroupRecords(entries: seq<Entry>) returns (ids: seq<string>, byId: map<string, seq<Entry>>)
    requires AllValid(entries)
    ensures ByCriterion(entries, ids, byId)
  {
    ids, byId := [], map[];
    ghost var done: seq<Entry> := [];
    for i := 0 to |entries|
      invariant done == entries[..i]
      invariant ByCriterion(done, ids, byId)
    {
      var e := entries[i];
      var id := e.record.ac;
      var moreIds := if id in byId then ids else ids + [id];
      var more := byId[id := (if id in byId then byId[id] else []) + [e]];
      TakeSnoc(entries, i);
      ByCriterionStep(done, e, done + [e], ids, byId, moreIds, more);
      ids, byId, done := moreIds, more, done + [e];
    }
    assert done == entries;
  }

  lemma ByCriterionStep(entries: seq<Entry>, e: Entry, moreEntries: seq<Entry>,
    ids: seq<string>, byId: map<string, seq<Entry>>, moreIds: seq<string>, more: map<string, seq<Entry>>)
    requires ByCriterion(entries, ids, byId) && e.Valid? && moreEntries == entries + [e]
    requires moreIds == if e.record.ac in byId then ids else ids + [e.record.ac]
    requires more == byId[e.record.ac := (if e.record.ac in byId then byId[e.record.ac] else []) + [e]]
    ensures ByCriterion(moreEntries, moreIds, more)
  {
    FirstIdsSnoc(entries, e, moreEntries);
    forall id ensures Select(moreEntries, OfId(id)) == if id in more then more[id] else [] {
      OfIdSnoc(entries, e, moreEntries, id);
    }
  }

  lemma FirstIdsSnoc(entries: seq<Entry>, e: Entry, moreEntries: seq<Entry>)
    requires e.Valid? && moreEntries == entries + [e]
    ensures FirstIds(moreEntries) == if e.record.ac in FirstIds(entries) then FirstIds(entries) else FirstIds(entries) + [e.record.ac]
  {
    assert moreEntries[..|moreEntries| - 1] == entries;
  }

  lemma OfIdSnoc(entries: seq<Entry>, e: Entry, moreEntries: seq<Entry>, id: string)
    requires e.Valid? && moreEntries == entries + [e]
    ensures Select(moreEntries, OfId(id)) == if e.record.ac == id then Select(entries, OfId(id)) + [e] else Select(entries, OfId(id))
  {
    SelectSnoc(entries, e, OfId(id));
    assert Select(entries, OfId(id)) + [] == Select(entries, OfId(id));
  }

  method Evaluate(criteria: seq<Criterion>, entries: seq<Entry>, tree: Option<string>, digest: Digest, precedes: Order)
    returns (rows: seq<Row>)
    requires AllValid(entries)
    ensures rows == Rows(criteria, entries, tree, digest, precedes)
  {
    var ids, byId := GroupRecords(entries);
    var planned := PlannedRows(criteria, entries, ids, byId, tree, digest);
    var removed := Sorted(Select(ids, NotPlanned(criteria)), precedes);
    SortedMembers(Select(ids, NotPlanned(criteria)), precedes);
    SelectMembers(ids, NotPlanned(criteria));
    var dropped := RemovedRows(removed, entries, ids, byId);
    rows := planned + dropped;
  }

  method PlannedRows(criteria: seq<Criterion>, entries: seq<Entry>, ids: seq<string>, byId: map<string, seq<Entry>>,
    tree: Option<string>, digest: Digest) returns (rows: seq<Row>)
    requires ByCriterion(entries, ids, byId)
    ensures rows == CriterionRows(criteria, entries, tree, digest)
  {
    rows := [];
    ghost var todo := criteria;
    for i := 0 to |criteria|
      invariant todo == criteria[i..]
      invariant rows + CriterionRows(todo, entries, tree, digest) == CriterionRows(criteria, entries, tree, digest)
    {
      var c := criteria[i];
      var records := if c.id in byId then byId[c.id] else [];
      var row := RowOf(c, records, tree, digest);
      assert todo[0] == c && records == Select(entries, OfId(c.id));
      Assoc(rows, [row], CriterionRows(todo[1..], entries, tree, digest));
      rows := rows + [row];
      todo := todo[1..];
    }
    assert rows + [] == rows;
  }

  method RemovedRows(removed: seq<string>, entries: seq<Entry>, ids: seq<string>, byId: map<string, seq<Entry>>)
    returns (rows: seq<Row>)
    requires ByCriterion(entries, ids, byId) && forall id :: id in removed ==> id in byId
    ensures rows == DroppedRows(removed, entries)
  {
    rows := [];
    ghost var todo := removed;
    for i := 0 to |removed|
      invariant todo == removed[i..]
      invariant rows + DroppedRows(todo, entries) == DroppedRows(removed, entries)
    {
      var id := removed[i];
      assert todo[0] == id && id in removed;
      var latest := LastOf(byId[id]);
      assert byId[id] == Select(entries, OfId(id));
      var more := if Passes(latest) then [] else [Row(id, Dropped, latest, 0)];
      Assoc(rows, more, DroppedRows(todo[1..], entries));
      rows := rows + more;
      todo := todo[1..];
    }
    assert rows + [] == rows;
  }

  lemma {:induction false} InsertMembers(sorted: seq<string>, id: string, precedes: Order)
    ensures forall x: string :: x in Insert(sorted, id, precedes) <==> x == id || x in sorted
  {
    if sorted != [] && !precedes(id, sorted[0]) {
      InsertMembers(sorted[1..], id, precedes);
      assert forall x :: x in sorted <==> x == sorted[0] || x in sorted[1..];
    }
  }

  lemma {:induction false} SortedMembers(ids: seq<string>, precedes: Order)
    ensures forall x: string :: x in Sorted(ids, precedes) <==> x in ids
  {
    if ids != [] {
      var n := |ids| - 1;
      SortedMembers(ids[..n], precedes);
      InsertMembers(Sorted(ids[..n], precedes), ids[n], precedes);
      assert forall x :: x in ids <==> x == ids[n] || x in ids[..n];
    }
  }

  // ----- The order of the rows of removed criteria -----

  /** The order is a strict total one on these ids. */
  ghost predicate Orders(precedes: Order, ids: set<string>)
  {
    && (forall a, b :: a in ids && b in ids && precedes(a, b) ==> !precedes(b, a))
    && (forall a, b :: a in ids && b in ids && a != b ==> precedes(a, b) || precedes(b, a))
    && (forall a, b, c :: a in ids && b in ids && c in ids && precedes(a, b) && precedes(b, c) ==> precedes(a, c))
  }

  ghost predicate InOrder(ids: seq<string>, precedes: Order)
  {
    forall i, j :: 0 <= i < j < |ids| ==> precedes(ids[i], ids[j])
  }

  function Elements(ids: seq<string>): set<string>
  {
    set id | id in ids
  }

  lemma OrderCons(first: string, later: seq<string>, precedes: Order)
    requires InOrder(later, precedes) && forall x :: x in later ==> precedes(first, x)
    ensures InOrder([first] + later, precedes)
  {
    var all := [first] + later;
    forall i, j | 0 <= i < j < |all| ensures precedes(all[i], all[j]) {
      assert all[j] == later[j - 1] && later[j - 1] in later;
      if i > 0 { assert all[i] == later[i - 1]; }
    }
  }

  lemma RestInOrder(sorted: seq<string>, precedes: Order)
    requires sorted != [] && InOrder(sorted, precedes)
    ensures InOrder(sorted[1..], precedes) && forall x :: x in sorted[1..] ==> precedes(sorted[0], x)
  {
    var rest := sorted[1..];
    assert forall i :: 0 <= i < |rest| ==> rest[i] == sorted[i + 1];
  }

  lemma {:induction false} InsertKeepsOrder(sorted: seq<string>, id: string, precedes: Order, all: set<string>)
    requires Orders(precedes, all) && InOrder(sorted, precedes) && (forall x :: x in sorted ==> x in all) && id in all && id !in sorted
    ensures InOrder(Insert(sorted, id, precedes), precedes)
  {
    if sorted != [] {
      var first, rest := sorted[0], sorted[1..];
      RestInOrder(sorted, precedes);
      assert forall x :: x in sorted <==> x == first || x in rest;
      if precedes(id, first) {
        OrderCons(id, sorted, precedes);
      } else {
        InsertKeepsOrder(rest, id, precedes, all);
        InsertMembers(rest, id, precedes);
        OrderCons(first, Insert(rest, id, precedes), precedes);
      }
    } else {
      assert [id] + sorted == [id];
    }
  }

  lemma {:induction false} InsertAdds(sorted: seq<string>, id: string, precedes: Order)
    ensures multiset(Insert(sorted, id, precedes)) == multiset(sorted) + multiset{id}
  {
    if sorted != [] && !precedes(id, sorted[0]) {
      InsertAdds(sorted[1..], id, precedes);
      assert sorted == [sorted[0]] + sorted[1..];
    }
  }

  /** Distinct ids come out in their order, each once. */
  lemma {:induction false} SortedInOrder(ids: seq<string>, precedes: Order)
    requires Orders(precedes, Elements(ids)) && forall i, j :: 0 <= i < j < |ids| ==> ids[i] != ids[j]
    ensures InOrder(Sorted(ids, precedes), precedes) && multiset(Sorted(ids, precedes)) == multiset(ids)
  {
    if ids != [] {
      var n := |ids| - 1;
      var rest, last := ids[..n], ids[n];
      assert ids == rest + [last] && Elements(rest) <= Elements(ids) && last in Elements(ids);
      SortedInOrder(rest, precedes);
      SortedMembers(rest, precedes);
      assert last !in rest;
      InsertKeepsOrder(Sorted(rest, precedes), last, precedes, Elements(ids));
      InsertAdds(Sorted(rest, precedes), last, precedes);
    }
  }
}
