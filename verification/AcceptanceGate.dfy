/** What the acceptance gate requires, and what pruning can and cannot change about it. */
module AcceptanceGate {
  import opened Text
  import opened Logs
  import opened Acceptance

  datatype GateState = GatePass | PassTreeUnverified | Incomplete | NoCriteria | InvalidNewest(entry: Entry)

  function OfStem(stem: string): Entry -> bool
  {
    (e: Entry) => e.Valid? && e.record.stem == stem
  }

  /** A record of this plan, or one that cannot be trusted. */
  function StemOrInvalid(stem: string): Entry -> bool
  {
    (e: Entry) => e.Invalid? || e.record.stem == stem
  }

  predicate RowHolds(row: Row)
  {
    row.state == Judged(Pass) || row.state == Deprecated
  }

  /** The gate over all records of a session, oldest first. */
  function Gate(criteria: seq<Criterion>, entries: seq<Entry>, stem: string, tree: Option<string>, digest: Digest, precedes: Order)
    : GateState
  {
    var newest := Newest(entries, StemOrInvalid(stem));
    var rows := Rows(criteria, Select(entries, OfStem(stem)), tree, digest, precedes);
    if !exists c :: c in criteria && !c.deprecated then NoCriteria
    else if newest.Some? && newest.value.Invalid? then InvalidNewest(newest.value)
    else if exists row :: row in rows && !RowHolds(row) then Incomplete
    else if tree.Some? then GatePass
    else PassTreeUnverified
  }

  // ----- The newest records a row looks at -----

  function OfCriterion(stem: string, id: string): Entry -> bool
  {
    (e: Entry) => e.Valid? && e.record.stem == stem && e.record.ac == id
  }

  function OfText(stem: string, id: string, digest: string): Entry -> bool
  {
    (e: Entry) => e.Valid? && e.record.stem == stem && e.record.ac == id && e.record.digest == digest
  }

  function Verified(stem: string, id: string, digest: string, t: string): Entry -> bool
  {
    (e: Entry) => e.Valid? && e.record.stem == stem && e.record.ac == id && e.record.digest == digest && e.record.tree == Some(t)
  }

  function Judging(stem: string, c: Criterion, tree: Option<string>, digest: Digest): Entry -> bool
  {
    if tree.None? then OfText(stem, c.id, digest(c.text)) else Verified(stem, c.id, digest(c.text), tree.value)
  }

  lemma LastSelected(entries: seq<Entry>, p: Entry -> bool)
    ensures LastOf(Select(entries, p)) == Newest(entries, p)
    ensures forall e :: e in Select(entries, p) ==> p(e)
  {
    LastIsNewest(entries, p);
    SelectMembers(entries, p);
  }

  lemma RecordsOf(entries: seq<Entry>, stem: string, id: string)
    ensures Select(Select(entries, OfStem(stem)), OfId(id)) == Select(entries, OfCriterion(stem, id))
  {
    SelectSelect(entries, OfStem(stem), OfId(id), OfCriterion(stem, id));
  }

  /** The row of an active criterion holds exactly when the newest record that judges its text on the tree passes. */
  lemma ActiveRow(c: Criterion, entries: seq<Entry>, stem: string, tree: Option<string>, digest: Digest)
    requires !c.deprecated
    ensures RowHolds(RowOf(c, Select(entries, OfCriterion(stem, c.id)), tree, digest)) <==>
      Passes(Newest(entries, Judging(stem, c, tree, digest)))
  {
    var d := digest(c.text);
    var records := Select(entries, OfCriterion(stem, c.id));
    var matching := Select(records, HasDigest(d));
    SelectSelect(entries, OfCriterion(stem, c.id), HasDigest(d), OfText(stem, c.id, d));
    LastSelected(entries, OfText(stem, c.id, d));
    if tree.Some? {
      SelectSelect(entries, OfText(stem, c.id, d), OnTree(tree.value), Verified(stem, c.id, d, tree.value));
      LastSelected(entries, Verified(stem, c.id, d, tree.value));
    }
  }

  lemma DeprecatedRow(c: Criterion, entries: seq<Entry>, stem: string, tree: Option<string>, digest: Digest)
    requires c.deprecated
    ensures RowHolds(RowOf(c, Select(entries, OfCriterion(stem, c.id)), tree, digest)) <==> Settled(entries, stem, c.id)
  {
    LastSelected(entries, OfCriterion(stem, c.id));
  }

  /** A criterion that is no longer active does not block: it has no record, or its newest one is a pass. */
  predicate Settled(entries: seq<Entry>, stem: string, id: string)
  {
    var newest := Newest(entries, OfCriterion(stem, id));
    newest.None? || Passes(newest)
  }

  predicate Satisfied(c: Criterion, entries: seq<Entry>, stem: string, tree: Option<string>, digest: Digest)
  {
    if c.deprecated then Settled(entries, stem, c.id) else Passes(Newest(entries, Judging(stem, c, tree, digest)))
  }

  predicate AllHold(rows: seq<Row>)
  {
    forall row :: row in rows ==> RowHolds(row)
  }

  lemma {:induction false} CriterionRowsHold(
    criteria: seq<Criterion>, entries: seq<Entry>, stem: string, tree: Option<string>, digest: Digest, own: seq<Entry>)
    requires own == Select(entries, OfStem(stem))
    ensures AllHold(CriterionRows(criteria, own, tree, digest)) <==>
      forall c :: c in criteria ==> Satisfied(c, entries, stem, tree, digest)
  {
    if criteria != [] {
      var c, rest := criteria[0], criteria[1..];
      RecordsOf(entries, stem, c.id);
      if c.deprecated { DeprecatedRow(c, entries, stem, tree, digest); } else { ActiveRow(c, entries, stem, tree, digest); }
      CriterionRowsHold(rest, entries, stem, tree, digest, own);
      var row := RowOf(c, Select(own, OfId(c.id)), tree, digest);
      assert RowHolds(row) <==> Satisfied(c, entries, stem, tree, digest);
      HoldCons(row, CriterionRows(rest, own, tree, digest));
      assert forall x :: x in criteria <==> x == c || x in rest;
    }
  }

  lemma HoldCons(row: Row, rows: seq<Row>)
    ensures AllHold([row] + rows) <==> RowHolds(row) && AllHold(rows)
  {
    assert forall x :: x in [row] + rows <==> x == row || x in rows;
  }

  lemma {:induction false} DroppedRowsHold(removed: seq<string>, entries: seq<Entry>, stem: string, own: seq<Entry>)
    requires own == Select(entries, OfStem(stem))
    ensures AllHold(DroppedRows(removed, own)) <==> forall id :: id in removed ==> Passes(Newest(entries, OfCriterion(stem, id)))
  {
    if removed != [] {
      var id, rest := removed[0], removed[1..];
      RecordsOf(entries, stem, id);
      LastSelected(entries, OfCriterion(stem, id));
      DroppedRowsHold(rest, entries, stem, own);
      HoldCons(Row(id, Dropped, LastOf(Select(own, OfId(id))), 0), DroppedRows(rest, own));
      assert [] + DroppedRows(rest, own) == DroppedRows(rest, own);
      assert forall x :: x in removed <==> x == id || x in rest;
    }
  }

  lemma {:induction false} FirstIdsMembers(entries: seq<Entry>)
    ensures forall id :: id in FirstIds(entries) <==> Newest(entries, OfId(id)).Some?
    decreases |entries|
  {
    if entries != [] {
      var rest, last := entries[..|entries| - 1], entries[|entries| - 1];
      FirstIdsMembers(rest);
      assert entries == rest + [last];
      forall id ensures Newest(entries, OfId(id)).Some? <==> OfId(id)(last) || Newest(rest, OfId(id)).Some? {
        NewestSnoc(rest, last, OfId(id));
      }
    }
  }

  /** The removed criteria hold exactly when every criterion that is not in the plan is settled. */
  lemma RemovedHold(criteria: seq<Criterion>, entries: seq<Entry>, stem: string, precedes: Order, own: seq<Entry>)
    requires own == Select(entries, OfStem(stem))
    ensures AllHold(DroppedRows(Sorted(Select(FirstIds(own), NotPlanned(criteria)), precedes), own)) <==>
      forall id :: !Planned(criteria, id) ==> Settled(entries, stem, id)
  {
    var removed := Select(FirstIds(own), NotPlanned(criteria));
    SortedMembers(removed, precedes);
    SelectMembers(FirstIds(own), NotPlanned(criteria));
    FirstIdsMembers(own);
    DroppedRowsHold(Sorted(removed, precedes), entries, stem, own);
    forall id ensures Newest(own, OfId(id)) == Newest(entries, OfCriterion(stem, id)) {
      SelectSelect(entries, OfStem(stem), OfId(id), OfCriterion(stem, id));
    }
  }

  predicate Trusted(entries: seq<Entry>, stem: string)
  {
    var newest := Newest(entries, StemOrInvalid(stem));
    newest.Some? ==> newest.value.Valid?
  }

  predicate GatePasses(g: GateState) { g.GatePass? || g.PassTreeUnverified? }

  /**
   * The gate passes exactly when the plan has an active criterion, the newest record is trusted, every active
   * criterion's newest record for its text and tree passes, and every other criterion is settled.
   */
  lemma GatePassesIff(criteria: seq<Criterion>, entries: seq<Entry>, stem: string, tree: Option<string>, digest: Digest, precedes: Order)
    ensures GatePasses(Gate(criteria, entries, stem, tree, digest, precedes)) <==>
      && (exists c :: c in criteria && !c.deprecated)
      && Trusted(entries, stem)
      && (forall c :: c in criteria ==> Satisfied(c, entries, stem, tree, digest))
      && (forall id :: !Planned(criteria, id) ==> Settled(entries, stem, id))
    ensures tree.Some? ==> !Gate(criteria, entries, stem, tree, digest, precedes).PassTreeUnverified?
  {
    GateRows(criteria, entries, stem, tree, digest, precedes, Select(entries, OfStem(stem)));
  }

  lemma GateRows(criteria: seq<Criterion>, entries: seq<Entry>, stem: string, tree: Option<string>, digest: Digest, precedes: Order, own: seq<Entry>)
    requires own == Select(entries, OfStem(stem))
    ensures (exists row :: row in Rows(criteria, own, tree, digest, precedes) && !RowHolds(row)) <==>
      !((forall c :: c in criteria ==> Satisfied(c, entries, stem, tree, digest))
        && forall id :: !Planned(criteria, id) ==> Settled(entries, stem, id))
  {
    CriterionRowsHold(criteria, entries, stem, tree, digest, own);
    RemovedHold(criteria, entries, stem, precedes, own);
    assert AllHold(Rows(criteria, own, tree, digest, precedes)) <==>
      !exists row :: row in Rows(criteria, own, tree, digest, precedes) && !RowHolds(row);
    HoldConcat(CriterionRows(criteria, own, tree, digest),
      DroppedRows(Sorted(Select(FirstIds(own), NotPlanned(criteria)), precedes), own));
  }

  lemma HoldConcat(a: seq<Row>, b: seq<Row>)
    ensures AllHold(a + b) <==> AllHold(a) && AllHold(b)
  {
    assert forall x :: x in a + b <==> x in a || x in b;
  }

  /** A criterion with a newest record that is not a pass blocks the gate, however the plan is edited around it. */
  lemma DroppingCannotUnblock(
    criteria: seq<Criterion>, id: string, entries: seq<Entry>, stem: string, tree: Option<string>, digest: Digest, precedes: Order)
    requires Newest(entries, OfCriterion(stem, id)).Some? && !Passes(Newest(entries, OfCriterion(stem, id)))
    requires forall c :: c in criteria && c.id == id ==> c.deprecated
    ensures !GatePasses(Gate(criteria, entries, stem, tree, digest, precedes))
  {
    GatePassesIff(criteria, entries, stem, tree, digest, precedes);
    assert !Settled(entries, stem, id);
    if Planned(criteria, id) {
      var c :| c in criteria && c.id == id;
      assert !Satisfied(c, entries, stem, tree, digest);
    }
  }

  // ----- What every row says -----

  function NotPassed(stem: string, id: string, digest: string, t: string): Entry -> bool
  {
    (e: Entry) => Verified(stem, id, digest, t)(e) && NotPass()(e)
  }

  /** What the row of an active criterion says: no record, a verdict of the newest one that judges it, or a stale one. */
  ghost predicate ActiveExplained(row: Row, c: Criterion, entries: seq<Entry>, stem: string, tree: Option<string>, digest: Digest)
  {
    var any, ofText, judging :=
      Newest(entries, OfCriterion(stem, c.id)), Newest(entries, OfText(stem, c.id, digest(c.text))), Newest(entries, Judging(stem, c, tree, digest));
    && row.id == c.id
    && (row.state == Missing <==> any.None?)
    && (row.state.Judged? <==> judging.Some?)
    && (row.state.Judged? ==> row.record == judging && judging.value.Valid? && row.state.verdict == judging.value.record.verdict)
    && (row.state == Stale <==> any.Some? && judging.None?)
    && (row.state == Stale ==> row.record == if ofText.Some? then ofText else any)
    && (row.state == Missing ==> row.record == None)
    && row.earlierNonPass ==
         if tree.Some? && row.state == Judged(Pass) then |Select(entries, NotPassed(stem, c.id, digest(c.text), tree.value))| else 0
  }

  lemma ActiveRowIsExplained(c: Criterion, entries: seq<Entry>, stem: string, tree: Option<string>, digest: Digest)
    requires !c.deprecated
    ensures ActiveExplained(RowOf(c, Select(entries, OfCriterion(stem, c.id)), tree, digest), c, entries, stem, tree, digest)
  {
    var d := digest(c.text);
    var records := Select(entries, OfCriterion(stem, c.id));
    var matching := Select(records, HasDigest(d));
    LastSelected(entries, OfCriterion(stem, c.id));
    SelectSelect(entries, OfCriterion(stem, c.id), HasDigest(d), OfText(stem, c.id, d));
    LastSelected(entries, OfText(stem, c.id, d));
    NewestNarrower(entries, OfCriterion(stem, c.id), OfText(stem, c.id, d));
    NewestHas(entries, OfText(stem, c.id, d));
    if tree.Some? { RowOnTree(c, entries, stem, tree.value, d, matching); }
  }

  lemma RowOnTree(c: Criterion, entries: seq<Entry>, stem: string, t: string, d: string, matching: seq<Entry>)
    requires matching == Select(entries, OfText(stem, c.id, d))
    ensures var onTree := Select(matching, OnTree(t));
      && LastOf(onTree) == Newest(entries, Verified(stem, c.id, d, t))
      && (onTree != [] ==> Newest(entries, OfText(stem, c.id, d)).Some? && LastOf(onTree).value.Valid?)
      && (Passes(LastOf(onTree)) ==> |Select(onTree[..|onTree| - 1], NotPass())| == |Select(entries, NotPassed(stem, c.id, d, t))|)
  {
    var onTree := Select(matching, OnTree(t));
    SelectSelect(entries, OfText(stem, c.id, d), OnTree(t), Verified(stem, c.id, d, t));
    LastSelected(entries, Verified(stem, c.id, d, t));
    NewestNarrower(entries, OfText(stem, c.id, d), Verified(stem, c.id, d, t));
    NewestHas(entries, Verified(stem, c.id, d, t));
    SelectSelect(entries, Verified(stem, c.id, d, t), NotPass(), NotPassed(stem, c.id, d, t));
    if onTree != [] {
      var n := |onTree| - 1;
      assert onTree == onTree[..n] + [onTree[n]];
      SelectSnoc(onTree[..n], onTree[n], NotPass());
      assert Select(onTree[..n], NotPass()) + [] == Select(onTree[..n], NotPass());
    }
  }

  /** A deprecated criterion blocks, as dropped, exactly when its newest verdict is not a pass. */
  lemma DeprecatedRowIsExplained(c: Criterion, entries: seq<Entry>, stem: string, tree: Option<string>, digest: Digest)
    requires c.deprecated
    ensures var row, newest := RowOf(c, Select(entries, OfCriterion(stem, c.id)), tree, digest), Newest(entries, OfCriterion(stem, c.id));
      row == Row(c.id, if newest.Some? && !Passes(newest) then Dropped else Deprecated, newest, 0)
  {
    LastSelected(entries, OfCriterion(stem, c.id));
  }

  /** The rows are those of the planned criteria in their order, and then one for each removed one that blocks. */
  lemma RowsAre(criteria: seq<Criterion>, entries: seq<Entry>, stem: string, tree: Option<string>, digest: Digest, precedes: Order)
    returns (removed: seq<Row>)
    ensures var rows := Rows(criteria, Select(entries, OfStem(stem)), tree, digest, precedes);
      && |rows| == |criteria| + |removed| && rows[|criteria|..] == removed
      && (forall k :: 0 <= k < |criteria| ==> rows[k] == RowOf(criteria[k], Select(entries, OfCriterion(stem, criteria[k].id)), tree, digest))
    ensures forall row :: row in removed <==>
      && row == Row(row.id, Dropped, Newest(entries, OfCriterion(stem, row.id)), 0)
      && !Planned(criteria, row.id) && !Settled(entries, stem, row.id)
  {
    var own := Select(entries, OfStem(stem));
    var gone := Sorted(Select(FirstIds(own), NotPlanned(criteria)), precedes);
    removed := DroppedRows(gone, own);
    PlannedRowsAre(criteria, entries, stem, tree, digest, own);
    forall id ensures id in gone <==> !Planned(criteria, id) && Newest(entries, OfCriterion(stem, id)).Some? {
      RemovedIds(criteria, entries, stem, precedes, own, id);
    }
    forall row ensures row in removed <==>
      row == Row(row.id, Dropped, Newest(entries, OfCriterion(stem, row.id)), 0) && row.id in gone && !Passes(row.record)
    {
      DroppedRowIn(gone, entries, stem, own, row);
    }
  }

  lemma RemovedIds(criteria: seq<Criterion>, entries: seq<Entry>, stem: string, precedes: Order, own: seq<Entry>, id: string)
    requires own == Select(entries, OfStem(stem))
    ensures id in Sorted(Select(FirstIds(own), NotPlanned(criteria)), precedes) <==>
      !Planned(criteria, id) && Newest(entries, OfCriterion(stem, id)).Some?
  {
    SortedMembers(Select(FirstIds(own), NotPlanned(criteria)), precedes);
    SelectMembers(FirstIds(own), NotPlanned(criteria));
    FirstIdsMembers(own);
    SelectSelect(entries, OfStem(stem), OfId(id), OfCriterion(stem, id));
  }

  lemma {:induction false} PlannedRowsAre(criteria: seq<Criterion>, entries: seq<Entry>, stem: string, tree: Option<string>, digest: Digest, own: seq<Entry>)
    requires own == Select(entries, OfStem(stem))
    ensures var rows := CriterionRows(criteria, own, tree, digest);
      |rows| == |criteria| && forall k :: 0 <= k < |criteria| ==>
        rows[k] == RowOf(criteria[k], Select(entries, OfCriterion(stem, criteria[k].id)), tree, digest)
  {
    if criteria != [] {
      RecordsOf(entries, stem, criteria[0].id);
      PlannedRowsAre(criteria[1..], entries, stem, tree, digest, own);
      var rows := CriterionRows(criteria, own, tree, digest);
      assert forall k :: 1 <= k < |criteria| ==> criteria[k] == criteria[1..][k - 1] && rows[k] == rows[1..][k - 1];
    }
  }

  lemma {:induction false} DroppedRowIn(gone: seq<string>, entries: seq<Entry>, stem: string, own: seq<Entry>, row: Row)
    requires own == Select(entries, OfStem(stem))
    ensures row in DroppedRows(gone, own) <==>
      row == Row(row.id, Dropped, Newest(entries, OfCriterion(stem, row.id)), 0) && row.id in gone && !Passes(row.record)
  {
    if gone != [] {
      var id, rest := gone[0], gone[1..];
      RecordsOf(entries, stem, id);
      LastSelected(entries, OfCriterion(stem, id));
      DroppedRowIn(rest, entries, stem, own, row);
      assert row.id in gone <==> row.id == id || row.id in rest;
    }
  }

  /** Without a fingerprint a pass is reported as unverified, and only then. */
  lemma UnverifiedIff(criteria: seq<Criterion>, entries: seq<Entry>, stem: string, tree: Option<string>, digest: Digest, precedes: Order)
    ensures var g := Gate(criteria, entries, stem, tree, digest, precedes);
      && (GatePasses(g) ==> (g.GatePass? <==> tree.Some?))
      && (g.NoCriteria? <==> forall c :: c in criteria ==> c.deprecated)
      && (forall e :: g == InvalidNewest(e) <==>
            (exists c :: c in criteria && !c.deprecated) && Newest(entries, StemOrInvalid(stem)) == Some(e) && e.Invalid?)
  {
  }
}
