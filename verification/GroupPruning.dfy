/** Which records of a log are removed when only the newest of every group may stay. */
module GroupPruning {
  import opened Text
  import opened Logs
  import opened RecordIds

  /** How pruning reads an entry: the name it is removed by, and the group it is counted in. */
  datatype Reading<!E, !K> = Reading(id: E -> string, group: E -> K)

  function Count<E, K(==,!new)>(entries: seq<E>, r: Reading<E, K>, g: K): nat
  {
    if entries == [] then 0 else (if r.group(entries[0]) == g then 1 else 0) + Count(entries[1..], r, g)
  }

  /** Whether the first entry stays: fewer than `limit` of its group come after it, or it is to be kept. */
  predicate Stays<E, K(==,!new)>(entries: seq<E>, r: Reading<E, K>, limit: nat, keep: set<string>)
    requires entries != []
  {
    Count(entries[1..], r, r.group(entries[0])) < limit || r.id(entries[0]) in keep
  }

  /** The newest `limit` entries of every group, and those to be kept. */
  function Pruned<E, K(==,!new)>(entries: seq<E>, r: Reading<E, K>, limit: nat, keep: set<string>): seq<E>
  {
    if entries == [] then []
    else (if Stays(entries, r, limit, keep) then [entries[0]] else []) + Pruned(entries[1..], r, limit, keep)
  }

  ghost predicate UniqueIds<E, K>(entries: seq<E>, r: Reading<E, K>)
  {
    forall i, j :: 0 <= i < j < |entries| ==> r.id(entries[i]) != r.id(entries[j])
  }

  /** The log is sorted by the names of its files, and no two files share a name. */
  ghost predicate Ascending<E, K>(entries: seq<E>, r: Reading<E, K>)
  {
    forall i, j :: 0 <= i < j < |entries| ==> Precedes(r.id(entries[i]), r.id(entries[j]))
  }

  lemma AscendingIsUnique<E, K>(entries: seq<E>, r: Reading<E, K>)
    requires Ascending(entries, r)
    ensures UniqueIds(entries, r)
  {
    forall i, j | 0 <= i < j < |entries| ensures r.id(entries[i]) != r.id(entries[j]) { NotBeforeItself(r.id(entries[i])); }
  }

  lemma AscendingFrom<E, K>(entries: seq<E>, r: Reading<E, K>, k: nat, rest: seq<E>)
    requires k <= |entries| && rest == entries[k..] && Ascending(entries, r)
    ensures Ascending(rest, r)
  {
    forall i, j | 0 <= i < j < |rest| ensures Precedes(r.id(rest[i]), r.id(rest[j])) {
      assert rest[i] == entries[k + i] && rest[j] == entries[k + j];
    }
  }

  // ----- Removing by name -----

  function Without<E, K>(entries: seq<E>, r: Reading<E, K>, ids: set<string>): seq<E>
  {
    if entries == [] then []
    else (if r.id(entries[0]) in ids then [] else [entries[0]]) + Without(entries[1..], r, ids)
  }

  lemma {:induction false} WithoutNone<E, K>(entries: seq<E>, r: Reading<E, K>)
    ensures Without(entries, r, {}) == entries
  {
    if entries != [] { WithoutNone(entries[1..], r); }
  }

  lemma {:induction false} WithoutTwice<E, K>(entries: seq<E>, r: Reading<E, K>, gone: set<string>, more: set<string>)
    ensures Without(Without(entries, r, gone), r, more) == Without(entries, r, gone + more)
  {
    if entries != [] {
      var rest := Without(entries[1..], r, gone);
      WithoutTwice(entries[1..], r, gone, more);
      assert [] + rest == rest;
      assert ([entries[0]] + rest)[1..] == rest;
    }
  }

  lemma {:induction false} WithoutMore<E, K>(entries: seq<E>, r: Reading<E, K>, ids: set<string>, id: string)
    requires forall i :: 0 <= i < |entries| ==> r.id(entries[i]) != id
    ensures Without(entries, r, ids + {id}) == Without(entries, r, ids)
  {
    if entries != [] { WithoutMore(entries[1..], r, ids, id); }
  }

  lemma {:induction false} GoneIds<E, K>(entries: seq<E>, r: Reading<E, K>, gone: set<string>)
    ensures forall e :: e in Without(entries, r, gone) ==> r.id(e) !in gone && e in entries
  {
    if entries != [] {
      GoneIds(entries[1..], r, gone);
      assert forall e :: e in entries[1..] ==> e in entries;
    }
  }

  // ----- Group by group -----

  function IdsOf<E, K(==,!new)>(entries: seq<E>, r: Reading<E, K>, g: K): seq<string>
  {
    if entries == [] then []
    else (if r.group(entries[0]) == g then [r.id(entries[0])] else []) + IdsOf(entries[1..], r, g)
  }

  lemma {:induction false} IdsOfSnoc<E, K(!new)>(entries: seq<E>, r: Reading<E, K>, e: E, g: K)
    ensures IdsOf(entries + [e], r, g) == IdsOf(entries, r, g) + if r.group(e) == g then [r.id(e)] else []
  {
    if entries == [] {
      assert entries + [e] == [e] && [e][1..] == [];
    } else {
      assert (entries + [e])[1..] == entries[1..] + [e];
      IdsOfSnoc(entries[1..], r, e, g);
    }
  }

  ghost predicate Grouped<E, K(!new)>(entries: seq<E>, r: Reading<E, K>, groups: seq<K>, byGroup: map<K, seq<string>>)
  {
    && (forall g :: g in byGroup <==> g in groups)
    && (forall g :: IdsOf(entries, r, g) == if g in byGroup then byGroup[g] else [])
    && (forall e :: e in entries ==> r.group(e) in groups)
  }

  /** The ids of every group, oldest first, and the groups in the order in which they appear. */
  method GroupIds<E, K(==,!new)>(entries: seq<E>, r: Reading<E, K>) returns (groups: seq<K>, byGroup: map<K, seq<string>>)
    ensures Grouped(entries, r, groups, byGroup)
  {
    groups, byGroup := [], map[];
    ghost var done: seq<E> := [];
    for i := 0 to |entries|
      invariant done == entries[..i]
      invariant Grouped(done, r, groups, byGroup)
    {
      var e := entries[i];
      var g := r.group(e);
      var moreGroups := if g in byGroup then groups else groups + [g];
      var more := byGroup[g := (if g in byGroup then byGroup[g] else []) + [r.id(e)]];
      TakeSnoc(entries, i);
      GroupedStep(done, r, e, done + [e], g, groups, byGroup, moreGroups, more);
      groups, byGroup, done := moreGroups, more, done + [e];
    }
    assert done == entries;
  }

  lemma GroupedStep<E, K(!new)>(entries: seq<E>, r: Reading<E, K>, e: E, moreEntries: seq<E>, g: K,
    groups: seq<K>, byGroup: map<K, seq<string>>, moreGroups: seq<K>, more: map<K, seq<string>>)
    requires Grouped(entries, r, groups, byGroup) && moreEntries == entries + [e] && g == r.group(e)
    requires moreGroups == if g in byGroup then groups else groups + [g]
    requires more == byGroup[g := (if g in byGroup then byGroup[g] else []) + [r.id(e)]]
    ensures Grouped(moreEntries, r, moreGroups, more)
  {
    forall h ensures IdsOf(moreEntries, r, h) == if h in more then more[h] else [] {
      IdsOfSnoc(entries, r, e, h);
      assert IdsOf(entries, r, h) + [] == IdsOf(entries, r, h);
    }
  }

  // ----- The ids to remove -----

  /** Of the ids of one group, oldest first, those to remove. */
  function DoomedIds(ids: seq<string>, limit: nat, keep: set<string>): set<string>
  {
    if |ids| <= limit then {} else (if ids[0] in keep then {} else {ids[0]}) + DoomedIds(ids[1..], limit, keep)
  }

  function DoomedIn<E, K(==,!new)>(entries: seq<E>, r: Reading<E, K>, groups: seq<K>, limit: nat, keep: set<string>): set<string>
  {
    if groups == [] then {}
    else
      var last := |groups| - 1;
      DoomedIn(entries, r, groups[..last], limit, keep) + DoomedIds(IdsOf(entries, r, groups[last]), limit, keep)
  }

  /** The ids of all entries that do not stay. */
  function Doomed<E, K(==,!new)>(entries: seq<E>, r: Reading<E, K>, limit: nat, keep: set<string>): set<string>
  {
    if entries == [] then {}
    else (if Stays(entries, r, limit, keep) then {} else {r.id(entries[0])}) + Doomed(entries[1..], r, limit, keep)
  }

  lemma {:induction false} DoomedSnoc(ids: seq<string>, j: nat, keep: set<string>)
    requires j < |ids|
    ensures DoomedIds(ids[..j + 1], 0, keep) == DoomedIds(ids[..j], 0, keep) + if ids[j] in keep then {} else {ids[j]}
  {
    if j > 0 {
      assert ids[..j + 1][1..] == ids[1..][..j] && ids[..j][1..] == ids[1..][..j - 1];
      DoomedSnoc(ids[1..], j - 1, keep);
    } else {
      assert ids[..1] == [ids[0]] && [ids[0]][1..] == [];
    }
  }

  lemma {:induction false} DoomedPrefix(ids: seq<string>, excess: nat, limit: nat, keep: set<string>)
    requires excess == if |ids| > limit then |ids| - limit else 0
    ensures DoomedIds(ids[..excess], 0, keep) == DoomedIds(ids, limit, keep)
  {
    if excess > 0 {
      assert ids[..excess][1..] == ids[1..][..excess - 1];
      DoomedPrefix(ids[1..], excess - 1, limit, keep);
    }
  }

  lemma {:induction false} CountIsLength<E, K(!new)>(entries: seq<E>, r: Reading<E, K>, g: K)
    ensures |IdsOf(entries, r, g)| == Count(entries, r, g)
  {
    if entries != [] { CountIsLength(entries[1..], r, g); }
  }

  /** The removed ids of a group are those of its entries that do not stay. */
  lemma {:induction false} DoomedOfGroup<E, K(!new)>(entries: seq<E>, r: Reading<E, K>, g: K, limit: nat, keep: set<string>)
    requires entries != []
    ensures DoomedIds(IdsOf(entries, r, g), limit, keep) ==
      DoomedIds(IdsOf(entries[1..], r, g), limit, keep)
      + if r.group(entries[0]) == g && !Stays(entries, r, limit, keep) then {r.id(entries[0])} else {}
  {
    var ids := IdsOf(entries[1..], r, g);
    CountIsLength(entries[1..], r, g);
    if r.group(entries[0]) == g {
      assert ([r.id(entries[0])] + ids)[1..] == ids;
      if |ids| < limit { assert DoomedIds(ids, limit, keep) == {}; }
    } else {
      assert [] + ids == ids;
    }
  }

  lemma {:induction false} DoomedInNothing<E, K(!new)>(entries: seq<E>, r: Reading<E, K>, groups: seq<K>, limit: nat, keep: set<string>)
    requires entries == []
    ensures DoomedIn(entries, r, groups, limit, keep) == {}
  {
    if groups != [] { DoomedInNothing(entries, r, groups[..|groups| - 1], limit, keep); }
  }

  lemma {:induction false} DoomedInCons<E, K(!new)>(entries: seq<E>, r: Reading<E, K>, groups: seq<K>, limit: nat, keep: set<string>)
    requires entries != []
    ensures DoomedIn(entries, r, groups, limit, keep) ==
      DoomedIn(entries[1..], r, groups, limit, keep)
      + if r.group(entries[0]) in groups && !Stays(entries, r, limit, keep) then {r.id(entries[0])} else {}
  {
    if groups != [] {
      var g := groups[|groups| - 1];
      assert groups == groups[..|groups| - 1] + [g];
      DoomedInCons(entries, r, groups[..|groups| - 1], limit, keep);
      DoomedOfGroup(entries, r, g, limit, keep);
    }
  }

  /** Going through all groups dooms exactly the entries that do not stay. */
  lemma {:induction false} AllGroupsDoomed<E, K(!new)>(entries: seq<E>, r: Reading<E, K>, groups: seq<K>, limit: nat, keep: set<string>)
    requires forall e :: e in entries ==> r.group(e) in groups
    ensures DoomedIn(entries, r, groups, limit, keep) == Doomed(entries, r, limit, keep)
  {
    if entries == [] {
      DoomedInNothing(entries, r, groups, limit, keep);
    } else {
      assert entries[0] in entries && forall e :: e in entries[1..] ==> e in entries;
      AllGroupsDoomed(entries[1..], r, groups, limit, keep);
      DoomedInCons(entries, r, groups, limit, keep);
    }
  }

  lemma {:induction false} DoomedAmongIds<E, K(!new)>(entries: seq<E>, r: Reading<E, K>, limit: nat, keep: set<string>)
    ensures forall id :: id in Doomed(entries, r, limit, keep) ==> exists i :: 0 <= i < |entries| && r.id(entries[i]) == id
  {
    if entries != [] {
      var rest := entries[1..];
      DoomedAmongIds(rest, r, limit, keep);
      forall id | id in Doomed(entries, r, limit, keep) ensures exists i :: 0 <= i < |entries| && r.id(entries[i]) == id {
        if id in Doomed(rest, r, limit, keep) {
          var i :| 0 <= i < |rest| && r.id(rest[i]) == id;
          assert r.id(entries[i + 1]) == id;
        } else {
          assert r.id(entries[0]) == id;
        }
      }
    }
  }

  /** What remains when the doomed entries are removed is the pruned log. */
  lemma {:induction false} WithoutDoomed<E, K(!new)>(entries: seq<E>, r: Reading<E, K>, limit: nat, keep: set<string>)
    requires UniqueIds(entries, r)
    ensures Without(entries, r, Doomed(entries, r, limit, keep)) == Pruned(entries, r, limit, keep)
  {
    if entries != [] {
      var rest := entries[1..];
      var gone := Doomed(rest, r, limit, keep);
      assert forall i :: 0 <= i < |rest| ==> r.id(rest[i]) != r.id(entries[0]);
      WithoutDoomed(rest, r, limit, keep);
      DoomedAmongIds(rest, r, limit, keep);
      WithoutMore(rest, r, gone, r.id(entries[0]));
      assert {} + gone == gone && {r.id(entries[0])} + gone == gone + {r.id(entries[0])};
    }
  }

  // ----- What pruning keeps -----

  /** Every entry that pruning removes has the property. */
  predicate DropsOnly<E, K(==,!new)>(entries: seq<E>, r: Reading<E, K>, limit: nat, keep: set<string>, ok: E -> bool)
  {
    entries == [] ||
    ((Stays(entries, r, limit, keep) || ok(entries[0])) && DropsOnly(entries[1..], r, limit, keep, ok))
  }

  // ----- The newest entry of a kind before and after pruning -----

  lemma NewestCons<E>(x: E, rest: seq<E>, p: E -> bool)
    ensures Newest([x] + rest, p) == if Newest(rest, p).Some? then Newest(rest, p) else if p(x) then Some(x) else None
  {
    assert ([x] + rest)[1..] == rest;
  }

  lemma PrunedCons<E(!new), K(!new)>(entries: seq<E>, r: Reading<E, K>, limit: nat, keep: set<string>, p: E -> bool)
    requires entries != []
    ensures var rest := Pruned(entries[1..], r, limit, keep);
      Newest(Pruned(entries, r, limit, keep), p) ==
        if Stays(entries, r, limit, keep) then Newest([entries[0]] + rest, p) else Newest(rest, p)
  {
    var rest := Pruned(entries[1..], r, limit, keep);
    assert [] + rest == rest;
  }

  /** Pruning invents nothing. */
  lemma {:induction false} PrunedNone<E(!new), K(!new)>(entries: seq<E>, r: Reading<E, K>, limit: nat, keep: set<string>, p: E -> bool)
    requires Newest(entries, p).None?
    ensures Newest(Pruned(entries, r, limit, keep), p).None?
  {
    if entries != [] {
      PrunedNone(entries[1..], r, limit, keep, p);
      PrunedCons(entries, r, limit, keep, p);
      NewestCons(entries[0], Pruned(entries[1..], r, limit, keep), p);
    }
  }

  /** Entries of a kind that is never removed keep their newest one. */
  lemma {:induction false} NewestUntouched<E(!new), K(!new)>(entries: seq<E>, r: Reading<E, K>, limit: nat, keep: set<string>, ok: E -> bool, p: E -> bool)
    requires DropsOnly(entries, r, limit, keep, ok) && forall e :: ok(e) ==> !p(e)
    ensures Newest(Pruned(entries, r, limit, keep), p) == Newest(entries, p)
  {
    if entries != [] {
      NewestUntouched(entries[1..], r, limit, keep, ok, p);
      PrunedCons(entries, r, limit, keep, p);
      NewestCons(entries[0], Pruned(entries[1..], r, limit, keep), p);
    }
  }

  lemma {:induction false} CountedIsThere<E(!new), K(!new)>(entries: seq<E>, r: Reading<E, K>, g: K, p: E -> bool)
    requires Count(entries, r, g) > 0 && forall e :: r.group(e) == g ==> p(e)
    ensures Newest(entries, p).Some?
  {
    if r.group(entries[0]) != g { CountedIsThere(entries[1..], r, g, p); }
  }

  /** A kind made of whole groups keeps its newest entry. */
  lemma {:induction false} NewestOfGroups<E(!new), K(!new)>(entries: seq<E>, r: Reading<E, K>, limit: nat, keep: set<string>, ok: E -> bool, p: E -> bool)
    requires limit >= 1 && DropsOnly(entries, r, limit, keep, ok)
    requires forall e, f: E :: ok(e) && p(e) && r.group(f) == r.group(e) ==> p(f)
    ensures Newest(Pruned(entries, r, limit, keep), p) == Newest(entries, p)
  {
    if entries != [] {
      var x := entries[0];
      NewestOfGroups(entries[1..], r, limit, keep, ok, p);
      PrunedCons(entries, r, limit, keep, p);
      NewestCons(x, Pruned(entries[1..], r, limit, keep), p);
      if !Stays(entries, r, limit, keep) && p(x) {
        CountedIsThere(entries[1..], r, r.group(x), p);
      }
    }
  }

  /** When every entry of a kind was removed from one group, more than `limit` entries of the group were there. */
  lemma {:induction false} LostBecauseMany<E(!new), K(!new)>(
    entries: seq<E>, r: Reading<E, K>, limit: nat, keep: set<string>, p: E -> bool, g: K)
    requires forall e :: e in entries && p(e) ==> r.group(e) == g && r.id(e) !in keep
    requires Newest(entries, p).Some? && Newest(Pruned(entries, r, limit, keep), p).None?
    ensures Count(entries, r, g) > limit
  {
    assert forall e :: e in entries[1..] ==> e in entries;
    PrunedCons(entries, r, limit, keep, p);
    NewestCons(entries[0], Pruned(entries[1..], r, limit, keep), p);
    if Newest(entries[1..], p).Some? { LostBecauseMany(entries[1..], r, limit, keep, p, g); }
  }

  /** Within one group, and when no entry of the kind is to be kept, the newest entry left is the newest there was. */
  lemma {:induction false} NewestInGroup<E(!new), K(!new)>(
    entries: seq<E>, r: Reading<E, K>, limit: nat, keep: set<string>, p: E -> bool, g: K)
    requires forall e :: e in entries && p(e) ==> r.group(e) == g && r.id(e) !in keep
    requires Newest(Pruned(entries, r, limit, keep), p).Some?
    ensures Newest(entries, p) == Newest(Pruned(entries, r, limit, keep), p)
  {
    if entries != [] {
      var x, rest := entries[0], entries[1..];
      assert forall e :: e in rest ==> e in entries;
      PrunedCons(entries, r, limit, keep, p);
      NewestCons(x, Pruned(rest, r, limit, keep), p);
      if Newest(Pruned(rest, r, limit, keep), p).Some? {
        NewestInGroup(rest, r, limit, keep, p, g);
      } else if Newest(rest, p).Some? {
        LostBecauseMany(rest, r, limit, keep, p, g);
      }
    }
  }

  // ----- What is left, read off the log before pruning -----

  lemma {:induction false} CountOfTail<E(!new), K(!new)>(entries: seq<E>, r: Reading<E, K>, g: K, n: nat)
    requires n <= |entries|
    ensures Count(entries[n..], r, g) <= Count(entries, r, g)
    ensures n > 0 && r.group(entries[0]) == g ==> Count(entries[n..], r, g) < Count(entries, r, g)
  {
    if n > 0 {
      assert entries[1..][n - 1..] == entries[n..];
      CountOfTail(entries[1..], r, g, n - 1);
    } else {
      assert entries[0..] == entries;
    }
  }

  /** Whether the entry at `i` stays. */
  predicate StaysAt<E, K(==,!new)>(entries: seq<E>, r: Reading<E, K>, limit: nat, keep: set<string>, i: nat)
    requires i < |entries|
  {
    Stays(entries[i..], r, limit, keep)
  }

  /** The entry at `i` is of the kind and stays, and no later one of the kind does. */
  ghost predicate IsNewestLeft<E, K(!new)>(entries: seq<E>, r: Reading<E, K>, limit: nat, keep: set<string>, p: E -> bool, i: nat)
  {
    && i < |entries| && p(entries[i]) && StaysAt(entries, r, limit, keep, i)
    && forall j :: i < j < |entries| && p(entries[j]) ==> !StaysAt(entries, r, limit, keep, j)
  }

  lemma LeftOfTail<E(!new), K(!new)>(entries: seq<E>, rest: seq<E>, r: Reading<E, K>, limit: nat, keep: set<string>)
    requires entries != [] && rest == entries[1..]
    ensures forall i :: 0 <= i < |rest| ==> rest[i] == entries[i + 1]
    ensures forall i :: 0 <= i < |rest| ==> StaysAt(rest, r, limit, keep, i) == StaysAt(entries, r, limit, keep, i + 1)
    ensures StaysAt(entries, r, limit, keep, 0) == Stays(entries, r, limit, keep)
  {
    assert entries[0..] == entries;
    forall i | 0 <= i < |rest| ensures rest[i..] == entries[i + 1..] { }
  }

  /** The newest entry of a kind that pruning leaves, found in the log before pruning. */
  lemma {:induction false} NewestLeft<E(!new), K(!new)>(entries: seq<E>, r: Reading<E, K>, limit: nat, keep: set<string>, p: E -> bool)
    returns (i: nat)
    requires Newest(Pruned(entries, r, limit, keep), p).Some?
    ensures IsNewestLeft(entries, r, limit, keep, p, i) && Newest(Pruned(entries, r, limit, keep), p) == Some(entries[i])
  {
    var rest := entries[1..];
    PrunedCons(entries, r, limit, keep, p);
    NewestCons(entries[0], Pruned(rest, r, limit, keep), p);
    LeftOfTail(entries, rest, r, limit, keep);
    if Newest(Pruned(rest, r, limit, keep), p).Some? {
      var k := NewestLeft(rest, r, limit, keep, p);
      i := k + 1;
      forall j | i < j < |entries| && p(entries[j]) ensures !StaysAt(entries, r, limit, keep, j) {
        assert !StaysAt(rest, r, limit, keep, j - 1);
      }
    } else {
      i := 0;
      NoneLeft(rest, r, limit, keep, p);
      forall j | i < j < |entries| && p(entries[j]) ensures !StaysAt(entries, r, limit, keep, j) {
        assert !StaysAt(rest, r, limit, keep, j - 1);
      }
    }
  }

  lemma {:induction false} NoneLeft<E(!new), K(!new)>(entries: seq<E>, r: Reading<E, K>, limit: nat, keep: set<string>, p: E -> bool)
    requires Newest(Pruned(entries, r, limit, keep), p).None?
    ensures forall i :: 0 <= i < |entries| && p(entries[i]) ==> !StaysAt(entries, r, limit, keep, i)
  {
    if entries != [] {
      var rest := entries[1..];
      PrunedCons(entries, r, limit, keep, p);
      NewestCons(entries[0], Pruned(rest, r, limit, keep), p);
      LeftOfTail(entries, rest, r, limit, keep);
      NoneLeft(rest, r, limit, keep, p);
      forall i | 0 <= i < |entries| && p(entries[i]) ensures !StaysAt(entries, r, limit, keep, i) {
        if i > 0 { assert !StaysAt(rest, r, limit, keep, i - 1); }
      }
    }
  }

  lemma LeftIsNewest<E(!new), K(!new)>(entries: seq<E>, r: Reading<E, K>, limit: nat, keep: set<string>, p: E -> bool, i: nat)
    requires IsNewestLeft(entries, r, limit, keep, p, i)
    ensures Newest(Pruned(entries, r, limit, keep), p) == Some(entries[i])
  {
    if Newest(Pruned(entries, r, limit, keep), p).None? {
      NoneLeft(entries, r, limit, keep, p);
    } else {
      var k := NewestLeft(entries, r, limit, keep, p);
    }
  }

  lemma {:induction false} PrunedMembers<E(!new), K(!new)>(entries: seq<E>, r: Reading<E, K>, limit: nat, keep: set<string>)
    ensures forall e :: e in Pruned(entries, r, limit, keep) <==>
      exists i :: 0 <= i < |entries| && entries[i] == e && StaysAt(entries, r, limit, keep, i)
  {
    if entries != [] {
      var rest := entries[1..];
      PrunedMembers(rest, r, limit, keep);
      LeftOfTail(entries, rest, r, limit, keep);
      forall e ensures e in Pruned(entries, r, limit, keep) <==>
        exists i :: 0 <= i < |entries| && entries[i] == e && StaysAt(entries, r, limit, keep, i)
      {
        if i :| 0 <= i < |rest| && rest[i] == e && StaysAt(rest, r, limit, keep, i) {
          assert entries[i + 1] == e && StaysAt(entries, r, limit, keep, i + 1);
        }
        if i :| 0 <= i < |entries| && entries[i] == e && StaysAt(entries, r, limit, keep, i) {
          if i > 0 { assert rest[i - 1] == e && StaysAt(rest, r, limit, keep, i - 1); }
        }
      }
    }
  }

  /** Pruning keeps the order. */
  lemma {:induction false} PrunedIsAscending<E(!new), K(!new)>(entries: seq<E>, r: Reading<E, K>, limit: nat, keep: set<string>)
    requires Ascending(entries, r)
    ensures Ascending(Pruned(entries, r, limit, keep), r)
    ensures forall e :: e in Pruned(entries, r, limit, keep) ==> e in entries
  {
    if entries != [] {
      var x, rest := entries[0], entries[1..];
      var left := Pruned(rest, r, limit, keep);
      PrunedIsAscending(rest, r, limit, keep);
      assert forall e :: e in rest ==> e in entries;
      forall j | 0 <= j < |left| ensures Precedes(r.id(x), r.id(left[j])) {
        assert left[j] in rest;
        var k :| 0 <= k < |rest| && rest[k] == left[j];
        assert entries[k + 1] == left[j];
      }
      var pruned := Pruned(entries, r, limit, keep);
      assert pruned == left || pruned == [x] + left;
    }
  }
}
