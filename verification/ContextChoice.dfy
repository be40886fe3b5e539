/** Which nodes a packed message shows, and what of each: as much as the limits leave room for, and no less. */
module ContextChoice {
  import opened Text
  import opened ContextPack
  import opened ContextBudget
  import opened ContextSafety

  // ----- What a copy shows -----

  /** The value itself, or as many characters of it as an excerpt or another field may have. */
  predicate Start(shown: string, value: string, key: string)
  {
    var limit := if key == "excerpt" then 1200 else 512;
    shown <= value && |shown| <= limit && (shown == value || |shown| == limit)
  }

  predicate Starts(shown: Fields, whole: Fields)
  {
    |shown| == |whole| && forall i :: 0 <= i < |whole| ==> shown[i].0 == whole[i].0 && Start(shown[i].1, whole[i].1, whole[i].0)
  }

  /** The listed fields are exactly the strings under these keys. */
  lemma {:induction false} ListedMembers(strings: Strings, keys: seq<string>, key: string, value: string)
    ensures (key, value) in Listed(strings, keys) <==> key in keys && key in strings && strings[key] == value
  {
    if keys != [] {
      var rest := keys[..|keys| - 1];
      ListedMembers(strings, rest, key, value);
      assert keys == rest + [keys[|keys| - 1]];
    }
  }

  lemma {:induction false} FieldsAreStarts(strings: Strings, keys: seq<string>)
    ensures Starts(CopyStrings(strings, keys).0, Listed(strings, keys))
  {
    if keys != [] { FieldsAreStarts(strings, keys[..|keys| - 1]); }
  }

  /** The steps shown are those before the first one that is not valid, and six at most. */
  lemma {:induction false} StepsAreShown(steps: seq<PathStep>)
    ensures var shown := CopySteps(steps).0;
      && |shown| <= |steps| && (|shown| < |steps| ==> !steps[|shown|].valid)
      && forall i :: 0 <= i < |shown| ==> steps[i].valid && shown[i] == CopyStrings(steps[i].strings, STEP_FIELDS).0
  {
    if steps != [] {
      var rest := steps[..|steps| - 1];
      StepsAreShown(rest);
      CopiedSteps(rest);
    }
  }

  predicate PathShows(shown: seq<Fields>, steps: seq<PathStep>)
  {
    && |shown| <= |steps| && |shown| <= 6
    && (|shown| < |steps| ==> |shown| == 6 || !steps[|shown|].valid)
    && forall i :: 0 <= i < |shown| ==> steps[i].valid && Starts(shown[i], Listed(steps[i].strings, STEP_FIELDS))
  }

  /**
   A copy shows a start of every listed field, the depth, and the steps before the first invalid one, six at most;
   something that is no list gives a path without steps.
   */
  lemma CopyShowsStarts(o: Original, group: nat)
    ensures var node := Copy(o, group).0;
      && Starts(node.fields, Listed(o.strings, KeysOf(group))) && node.depth == o.depth
      && (node.path.None? <==> o.path.NoPath?)
      && (o.path.NotAList? ==> node.path == Some([]) && node.pathTruncated)
      && (o.path.Steps? ==> PathShows(node.path.value, o.path.steps))
  {
    FieldsAreStarts(o.strings, KeysOf(group));
    if o.path.Steps? {
      var first := FirstSteps(o.path.steps);
      StepsAreShown(first);
      forall i | 0 <= i < |first| ensures Starts(CopyStrings(first[i].strings, STEP_FIELDS).0, Listed(first[i].strings, STEP_FIELDS)) {
        FieldsAreStarts(first[i].strings, STEP_FIELDS);
      }
    }
  }

  // ----- The room that is left -----

  /** The message with one more node in a slot, the flag still off. */
  function With(r: Rendered, slot: nat, node: Node): Rendered
    requires slot < |r.lists| && GroupOf(slot) < |r.shown|
  {
    var g := GroupOf(slot);
    Rendered(false, r.lists[slot := r.lists[slot] + [node]], r.shown[g := r.shown[g] + 1], r.total)
  }

  /** There is no room for the node: 64 are shown, or the message would be too long with it. */
  predicate NoRoom(r: Rendered, slot: nat, node: Node, sizes: Sizes)
    requires slot < |r.lists| && GroupOf(slot) < |r.shown|
  {
    r.total >= 64 || Size(With(r, slot, node), sizes) > 24000
  }

  lemma {:induction false} ListsSizeAt(lists: seq<seq<Node>>, slot: nat, nodes: seq<Node>, sizes: Sizes)
    requires slot < |lists|
    ensures ListsSize(lists[slot := nodes], sizes) == ListsSize(lists, sizes) - NodesSize(lists[slot], sizes) + NodesSize(nodes, sizes)
  {
    var n := |lists| - 1;
    if slot < n {
      assert lists[slot := nodes][..n] == lists[..n][slot := nodes];
      ListsSizeAt(lists[..n], slot, nodes, sizes);
    } else {
      assert lists[slot := nodes][..n] == lists[..n];
    }
  }

  lemma {:induction false} CountsSizeAt(shown: seq<nat>, g: nat, k: nat)
    requires g < |shown|
    ensures CountsSize(shown[g := k]) == CountsSize(shown) - Digits(shown[g]) + Digits(k)
  {
    var n := |shown| - 1;
    if g < n {
      assert shown[g := k][..n] == shown[..n][g := k];
      CountsSizeAt(shown[..n], g, k);
    } else {
      assert shown[g := k][..n] == shown[..n];
    }
  }

  lemma {:induction false} DigitsGrow(n: nat)
    ensures Digits(n) <= Digits(n + 1)
  {
    if n >= 10 && n % 10 == 9 { DigitsGrow(n / 10); }
  }

  /** How many bytes one more node takes. */
  function Extra(r: Rendered, slot: nat, node: Node, sizes: Sizes): int
    requires slot < |r.lists| && GroupOf(slot) < |r.shown|
  {
    var count := r.shown[GroupOf(slot)];
    sizes.node(node) + (if r.lists[slot] != [] then 1 else 0) + Digits(count + 1) - Digits(count)
  }

  function Body(r: Rendered, sizes: Sizes): nat { ListsSize(r.lists, sizes) + CountsSize(r.shown) }

  lemma WithTakes(r: Rendered, slot: nat, node: Node, sizes: Sizes)
    requires slot < |r.lists| && GroupOf(slot) < |r.shown|
    ensures Body(With(r, slot, node), sizes) == Body(r, sizes) + Extra(r, slot, node, sizes)
  {
    var g := GroupOf(slot);
    var nodes := r.lists[slot] + [node];
    ListsSizeAt(r.lists, slot, nodes, sizes);
    CountsSizeAt(r.shown, g, r.shown[g] + 1);
    assert nodes[..|nodes| - 1] == r.lists[slot] && nodes[|nodes| - 1] == node;
  }

  /** After another node was placed, one more node takes no less room, and there is less of it. */
  lemma AnotherTakesRoom(r: Rendered, slot: nat, added: Node, at: nat, node: Node, next: Rendered, sizes: Sizes)
    requires slot < |r.lists| && GroupOf(slot) < |r.shown| && at < |r.lists| && GroupOf(at) < |r.shown|
    requires next.lists == With(r, slot, added).lists && next.shown == With(r, slot, added).shown
    ensures Body(With(next, at, node), sizes) >= Body(With(r, at, node), sizes)
  {
    var g := GroupOf(slot);
    assert Body(next, sizes) == Body(With(r, slot, added), sizes);
    WithTakes(r, slot, added, sizes);
    WithTakes(r, at, node, sizes);
    WithTakes(next, at, node, sizes);
    DigitsGrow(r.shown[g]);
    DigitsGrow(r.shown[g] + 1);
    assert r.lists[at] != [] ==> next.lists[at] != [];
  }

  /** Once there is no room for a node there never is again. */
  lemma RoomShrinks(r: Rendered, slot: nat, o: Original, at: nat, node: Node, next: Rendered, sizes: Sizes)
    requires slot < |r.lists| && GroupOf(slot) < |r.shown| && at < |r.lists| && GroupOf(at) < |r.shown|
    requires next == Place(r, GroupOf(slot), slot, o, sizes) && |next.lists| == |r.lists| && |next.shown| == |r.shown|
    requires NoRoom(r, at, node, sizes)
    ensures NoRoom(next, at, node, sizes)
  {
    if next.total == r.total {
      assert next.lists == r.lists && next.shown == r.shown;
    } else {
      AnotherTakesRoom(r, slot, Copy(o, GroupOf(slot)).0, at, node, next, sizes);
    }
  }

  // ----- What is chosen -----

  /** The nodes are copies of the originals in their order, leaving out only invalid ones and those in `no`. */
  predicate Chosen(nodes: seq<Node>, os: seq<Original>, group: nat, no: Node -> bool)
    decreases |os|
  {
    if os == [] then nodes == []
    else
      var n, m := |nodes| - 1, |os| - 1;
      || (os[m].valid && nodes != [] && nodes[n] == Copy(os[m], group).0 && Chosen(nodes[..n], os[..m], group, no))
      || ((os[m].valid ==> no(Copy(os[m], group).0)) && Chosen(nodes, os[..m], group, no))
  }

  lemma {:induction false} ChosenWithLess(nodes: seq<Node>, os: seq<Original>, group: nat, no: Node -> bool, more: Node -> bool)
    requires Chosen(nodes, os, group, no) && forall node :: no(node) ==> more(node)
    ensures Chosen(nodes, os, group, more)
    decreases |os|
  {
    if os != [] {
      var n, m := |nodes| - 1, |os| - 1;
      if os[m].valid && nodes != [] && nodes[n] == Copy(os[m], group).0 && Chosen(nodes[..n], os[..m], group, no) {
        ChosenWithLess(nodes[..n], os[..m], group, no, more);
      } else {
        ChosenWithLess(nodes, os[..m], group, no, more);
      }
    }
  }

  function Crowded(r: Rendered, slot: nat, sizes: Sizes): Node -> bool
    requires slot < |r.lists| && GroupOf(slot) < |r.shown|
  {
    node => NoRoom(r, slot, node, sizes)
  }

  predicate SlotChosen(r: Rendered, done: seq<seq<Original>>, s: nat, sizes: Sizes)
    requires s < |r.lists| == |done| && GroupOf(s) < |r.shown|
  {
    Chosen(r.lists[s], done[s], GroupOf(s), Crowded(r, s, sizes))
  }

  function Greedy(groups: nat, sizes: Sizes): Claim
  {
    (r: Rendered, done: seq<seq<Original>>) =>
      1 <= groups <= 2 && Shaped(r, groups) && |done| == |r.lists| && forall s :: 0 <= s < |done| ==> SlotChosen(r, done, s, sizes)
  }

  /** The slot into which a node was placed. */
  lemma PlacedIsChosen(r: Rendered, done: seq<seq<Original>>, slot: nat, o: Original, next: Rendered, sizes: Sizes)
    requires slot < |r.lists| == |done| && GroupOf(slot) < |r.shown| && SlotChosen(r, done, slot, sizes)
    requires next == Place(r, GroupOf(slot), slot, o, sizes) && |next.lists| == |r.lists| && |next.shown| == |r.shown|
    requires forall node :: Crowded(r, slot, sizes)(node) ==> Crowded(next, slot, sizes)(node)
    ensures Chosen(next.lists[slot], done[slot] + [o], GroupOf(slot), Crowded(next, slot, sizes))
  {
    var g, nodes, os, no := GroupOf(slot), r.lists[slot], done[slot] + [o], Crowded(next, slot, sizes);
    ChosenWithLess(nodes, done[slot], g, Crowded(r, slot, sizes), no);
    assert os[..|os| - 1] == done[slot];
    if next.total == r.total {
      if o.valid {
        var node := Copy(o, g).0;
        assert r.total >= 64 || Size(With(r, slot, node), sizes) > 24000 by { FlagShortens(With(r, slot, node), sizes); }
        assert Crowded(r, slot, sizes)(node);
      }
    } else {
      var more := next.lists[slot];
      assert more[..|more| - 1] == nodes;
    }
  }

  lemma GreedyIsStable(groups: nat, sizes: Sizes)
    ensures Stable(Greedy(groups, sizes), sizes)
  {
    forall r, done, slot: nat, o ensures StepKept(Greedy(groups, sizes), r, done, slot, o, sizes) {
      if Greedy(groups, sizes)(r, done) && slot < |done| {
        var next, more := Place(r, GroupOf(slot), slot, o, sizes), done[slot := done[slot] + [o]];
        forall s: nat | s < |done| ensures SlotChosen(next, more, s, sizes) {
          GreedyStep(r, done, slot, o, next, s, sizes);
        }
      }
    }
  }

  lemma GreedyStep(r: Rendered, done: seq<seq<Original>>, slot: nat, o: Original, next: Rendered, s: nat, sizes: Sizes)
    requires slot < |r.lists| == |done| && GroupOf(slot) < |r.shown| && s < |done| && GroupOf(s) < |r.shown|
    requires SlotChosen(r, done, s, sizes) && next == Place(r, GroupOf(slot), slot, o, sizes)
    requires |next.lists| == |r.lists| && |next.shown| == |r.shown|
    ensures SlotChosen(next, done[slot := done[slot] + [o]], s, sizes)
  {
    forall node | Crowded(r, s, sizes)(node) ensures Crowded(next, s, sizes)(node) {
      RoomShrinks(r, slot, o, s, node, next, sizes);
    }
    if s == slot {
      PlacedIsChosen(r, done, slot, o, next, sizes);
    } else {
      ChosenWithLess(r.lists[s], done[s], GroupOf(s), Crowded(r, s, sizes), Crowded(next, s, sizes));
    }
  }

  /**
   Every layer shows all its valid nodes but those for which the whole message has no room: 64 nodes are shown already,
   or with this node it would be over 24000 bytes.
   */
  lemma LeftOutOnlyWithoutRoom(pack: Pack, sizes: Sizes, g: nat, l: nat)
    requires ValidPack(pack) && g < |pack| && l < LAYERS
    ensures var r := PlaceGroups(pack, |pack|, sizes);
      Chosen(r.lists[SlotOf(g, l)], pack[g][l], g, Crowded(r, SlotOf(g, l), sizes))
  {
    var r, slot := PlaceGroups(pack, |pack|, sizes), SlotOf(g, l);
    MessageIsGreedy(pack, sizes, r);
    GreedySlot(r, Done(pack, SlotOf(|pack|, 0)), |pack|, slot, sizes);
    DoneAt(pack, g, l);
  }

  lemma DoneAt(pack: Pack, g: nat, l: nat)
    requires ValidPack(pack) && g < |pack| && l < LAYERS
    ensures SlotOf(g, l) < SlotOf(|pack|, 0) && Done(pack, SlotOf(|pack|, 0))[SlotOf(g, l)] == pack[g][l] && GroupOf(SlotOf(g, l)) == g
  {
  }

  lemma MessageIsGreedy(pack: Pack, sizes: Sizes, r: Rendered)
    requires ValidPack(pack) && r == PlaceGroups(pack, |pack|, sizes)
    ensures Greedy(|pack|, sizes)(r, Done(pack, SlotOf(|pack|, 0)))
  {
    GreedyIsStable(|pack|, sizes);
    EmptyIsGreedy(pack, sizes);
    PlaceGroupsKeeps(Greedy(|pack|, sizes), pack, |pack|, sizes);
  }

  lemma EmptyIsGreedy(pack: Pack, sizes: Sizes)
    requires ValidPack(pack)
    ensures Greedy(|pack|, sizes)(Empty(|pack|), Done(pack, 0))
  {
    var r, done := Empty(|pack|), Done(pack, 0);
    forall s: nat | s < |done| ensures SlotChosen(r, done, s, sizes) {
      assert r.lists[s] == [] && done[s] == [];
    }
  }

  lemma GreedySlot(r: Rendered, done: seq<seq<Original>>, groups: nat, slot: nat, sizes: Sizes)
    requires Greedy(groups, sizes)(r, done) && slot < SlotOf(groups, 0)
    ensures 1 <= groups <= 2 && Shaped(r, groups) && |done| == |r.lists|
    ensures Chosen(r.lists[slot], done[slot], GroupOf(slot), Crowded(r, slot, sizes))
  {
    assert SlotChosen(r, done, slot, sizes);
  }
}
