/** What a packed message promises: it fits, it keeps the order, and it says whether anything is missing. */
module ContextSafety {
  import opened Text
  import opened ContextPack
  import opened ContextBudget

  // ----- A node with nothing missing -----

  function WholeSteps(steps: seq<PathStep>): seq<Fields>
  {
    if steps == [] then [] else WholeSteps(steps[..|steps| - 1]) + [Listed(steps[|steps| - 1].strings, STEP_FIELDS)]
  }

  function WholePath(path: PathValue): Option<seq<Fields>>
  {
    match path
    case NoPath => None
    case NotAList => Some([])
    case Steps(steps) => Some(WholeSteps(steps))
  }

  /** The path is a list of valid steps, or there is none. */
  predicate ProperPath(path: PathValue)
  {
    !path.NotAList? && (path.Steps? ==> !Broken(path.steps))
  }

  /** The node shows every listed field, the depth and every step of the path in full. */
  predicate Whole(node: Node, o: Original, group: nat)
  {
    && o.valid && ProperPath(o.path)
    && node == Node(Listed(o.strings, KeysOf(group)), o.depth, WholePath(o.path), false)
  }

  lemma {:induction false} CopiedFields(strings: Strings, keys: seq<string>)
    ensures |CopyStrings(strings, keys).0| == |Listed(strings, keys)|
    ensures !CopyStrings(strings, keys).1 <==> CopyStrings(strings, keys).0 == Listed(strings, keys)
  {
    if keys != [] {
      var rest, key := keys[..|keys| - 1], keys[|keys| - 1];
      CopiedFields(strings, rest);
      if key in strings {
        CutShortens(strings[key], Limit(key));
        SameSnoc(CopyStrings(strings, rest).0, Listed(strings, rest), (key, Cut(strings[key], Limit(key))), (key, strings[key]));
      }
    }
  }

  lemma SameSnoc<T>(a: seq<T>, b: seq<T>, x: T, y: T)
    requires |a| == |b|
    ensures a + [x] == b + [y] <==> a == b && x == y
  {
    if a + [x] == b + [y] {
      assert a == (a + [x])[..|a|] && b == (b + [y])[..|b|];
      assert x == (a + [x])[|a|] && y == (b + [y])[|b|];
    }
  }

  lemma {:induction false} CopiedSteps(steps: seq<PathStep>)
    ensures CopySteps(steps).1 <== Broken(steps)
    ensures !CopySteps(steps).1 ==> CopySteps(steps).0 == WholeSteps(steps)
    ensures |CopySteps(steps).0| <= |steps| == |WholeSteps(steps)|
    ensures !Broken(steps) ==> |CopySteps(steps).0| == |steps|
    ensures CopySteps(steps).1 && !Broken(steps) ==> CopySteps(steps).0 != WholeSteps(steps)
  {
    if steps != [] {
      var rest, last := steps[..|steps| - 1], steps[|steps| - 1];
      CopiedSteps(rest);
      CopiedFields(last.strings, STEP_FIELDS);
      BrokenSnoc(steps);
      SameSnoc(WholeSteps(rest), WholeSteps(rest), CopyStrings(last.strings, STEP_FIELDS).0, Listed(last.strings, STEP_FIELDS));
      if |CopySteps(rest).0| == |WholeSteps(rest)| {
        SameSnoc(CopySteps(rest).0, WholeSteps(rest), CopyStrings(last.strings, STEP_FIELDS).0, Listed(last.strings, STEP_FIELDS));
      }
    }
  }

  lemma BrokenSnoc(steps: seq<PathStep>)
    requires steps != []
    ensures Broken(steps) <==> Broken(steps[..|steps| - 1]) || !steps[|steps| - 1].valid
  {
    var rest := steps[..|steps| - 1];
    assert forall i :: 0 <= i < |rest| ==> rest[i] == steps[i];
  }

  /** Copying a valid node loses nothing exactly when the copy is the whole node. */
  lemma CopyIsWhole(o: Original, group: nat)
    requires o.valid
    ensures !Copy(o, group).1 <==> Whole(Copy(o, group).0, o, group)
  {
    CopiedFields(o.strings, KeysOf(group));
    if o.path.Steps? {
      var steps := o.path.steps;
      CopiedSteps(FirstSteps(steps));
      if |steps| > MAX_STEPS { WholeLength(steps); }
    }
  }

  lemma {:induction false} WholeLength(steps: seq<PathStep>)
    ensures |WholeSteps(steps)| == |steps|
  {
    if steps != [] { WholeLength(steps[..|steps| - 1]); }
  }

  // ----- What is kept of a layer -----

  /** The nodes are copies of some of the originals, in their order. */
  predicate InOrder(nodes: seq<Node>, os: seq<Original>, group: nat)
  {
    if nodes == [] then true
    else if os == [] then false
    else
      var n, m := |nodes| - 1, |os| - 1;
      (os[m].valid && nodes[n] == Copy(os[m], group).0 && InOrder(nodes[..n], os[..m], group)) || InOrder(nodes, os[..m], group)
  }

  /** Every original is shown in full. */
  predicate AllWhole(nodes: seq<Node>, os: seq<Original>, group: nat)
  {
    |nodes| == |os| && forall i :: 0 <= i < |nodes| ==> Whole(nodes[i], os[i], group)
  }

  predicate Fits(r: Rendered, sizes: Sizes)
  {
    Size(r, sizes) <= MAX_CONTEXT_BYTES && r.total <= MAX_NODES
  }

  /** Every slot holds copies of some of the originals placed in it so far, in their order. */
  predicate Ordered(r: Rendered, done: seq<seq<Original>>)
  {
    && 1 <= |r.shown| <= 2 && |r.lists| == |done| == SlotOf(|r.shown|, 0)
    && forall s :: 0 <= s < |done| ==> |r.lists[s]| <= |done[s]| && InOrder(r.lists[s], done[s], GroupOf(s))
  }

  /** The flag is on exactly when some slot does not show all of its originals in full. */
  predicate Flagged(r: Rendered, done: seq<seq<Original>>)
    requires |r.lists| == |done|
  {
    r.truncated <==> exists s :: 0 <= s < |done| && !AllWhole(r.lists[s], done[s], GroupOf(s))
  }

  /** The state of the message when `done` originals of every slot have been placed. */
  predicate Kept(r: Rendered, done: seq<seq<Original>>, sizes: Sizes)
  {
    Fits(r, sizes) && Ordered(r, done) && Flagged(r, done)
  }

  lemma WholeSnoc(nodes: seq<Node>, node: Node, os: seq<Original>, o: Original, group: nat)
    requires |nodes| <= |os|
    ensures AllWhole(nodes + [node], os + [o], group) <==> AllWhole(nodes, os, group) && Whole(node, o, group)
    ensures !AllWhole(nodes, os + [o], group)
  {
    var more, all := nodes + [node], os + [o];
    if AllWhole(more, all, group) {
      assert forall i :: 0 <= i < |nodes| ==> more[i] == nodes[i] && all[i] == os[i];
      assert more[|nodes|] == node && all[|os|] == o;
    }
  }

  lemma OrderSnoc(nodes: seq<Node>, os: seq<Original>, o: Original, group: nat)
    requires InOrder(nodes, os, group)
    ensures InOrder(nodes, os + [o], group)
    ensures o.valid ==> InOrder(nodes + [Copy(o, group).0], os + [o], group)
  {
    assert (os + [o])[..|os|] == os;
    assert (nodes + [Copy(o, group).0])[..|nodes|] == nodes;
  }

  lemma PlaceFits(r: Rendered, group: nat, slot: nat, o: Original, sizes: Sizes)
    requires slot < |r.lists| && group < |r.shown| && Fits(r, sizes)
    ensures Fits(Place(r, group, slot, o, sizes), sizes)
  {
    FlagShortens(r, sizes);
  }

  lemma FlagShortens(r: Rendered, sizes: Sizes)
    ensures Size(r.(truncated := true), sizes) <= Size(r, sizes)
  {
    assert |"true"| == 4 && |"false"| == 5;
  }

  /** What placing does to the lists: nothing, or one more copy at the end of the slot. */
  lemma PlaceShape(r: Rendered, group: nat, slot: nat, o: Original, sizes: Sizes, next: Rendered)
    requires slot < |r.lists| && group < |r.shown| && next == Place(r, group, slot, o, sizes)
    ensures |next.shown| == |r.shown|
    ensures (next.lists == r.lists && next.truncated) ||
      (o.valid && next.lists == r.lists[slot := r.lists[slot] + [Copy(o, group).0]]
        && next.truncated == (r.truncated || Copy(o, group).1))
  {
  }

  lemma PlaceKeeps(r: Rendered, done: seq<seq<Original>>, slot: nat, o: Original, more: seq<seq<Original>>, sizes: Sizes)
    requires Kept(r, done, sizes) && slot < |done| && more == done[slot := done[slot] + [o]]
    ensures GroupOf(slot) < |r.shown|
    ensures Kept(Place(r, GroupOf(slot), slot, o, sizes), more, sizes)
  {
    var group := GroupOf(slot);
    var next := Place(r, group, slot, o, sizes);
    PlaceFits(r, group, slot, o, sizes);
    PlaceShape(r, group, slot, o, sizes, next);
    var nodes, os, copy := r.lists[slot], done[slot], Copy(o, group);
    OrderSnoc(nodes, os, o, group);
    WholeSnoc(nodes, copy.0, os, o, group);
    if o.valid { CopyIsWhole(o, group); }
    if next.lists == r.lists && next.truncated {
      SlotOrdered(r, done, slot, nodes, os + [o], more, next);
      SlotFlagged(r, done, slot, nodes, os + [o], more, next);
    } else {
      SlotOrdered(r, done, slot, nodes + [copy.0], os + [o], more, next);
      SlotFlagged(r, done, slot, nodes + [copy.0], os + [o], more, next);
    }
  }

  lemma SlotOrdered(r: Rendered, done: seq<seq<Original>>, slot: nat, nodes: seq<Node>, os: seq<Original>,
    more: seq<seq<Original>>, next: Rendered)
    requires Ordered(r, done) && slot < |done| && |next.shown| == |r.shown|
    requires more == done[slot := os] && next.lists == r.lists[slot := nodes]
    requires |nodes| <= |os| && InOrder(nodes, os, GroupOf(slot))
    ensures Ordered(next, more)
  {
  }

  lemma SlotFlagged(r: Rendered, done: seq<seq<Original>>, slot: nat, nodes: seq<Node>, os: seq<Original>,
    more: seq<seq<Original>>, next: Rendered)
    requires |r.lists| == |done| && Flagged(r, done) && slot < |done|
    requires more == done[slot := os] && next.lists == r.lists[slot := nodes]
    requires AllWhole(nodes, os, GroupOf(slot)) ==> AllWhole(r.lists[slot], done[slot], GroupOf(slot))
    requires next.truncated == (r.truncated || !AllWhole(nodes, os, GroupOf(slot)))
    ensures Flagged(next, more)
  {
    forall s | 0 <= s < |done| && s != slot ensures next.lists[s] == r.lists[s] && more[s] == done[s] {
    }
    if !AllWhole(nodes, os, GroupOf(slot)) { assert !AllWhole(next.lists[slot], more[slot], GroupOf(slot)); }
  }

  // ----- From one node to the whole message -----

  type Claim = (Rendered, seq<seq<Original>>) -> bool

  /** Placing this node keeps what is claimed of the message and the originals placed so far. */
  predicate StepKept(claim: Claim, r: Rendered, done: seq<seq<Original>>, slot: nat, o: Original, sizes: Sizes)
  {
    claim(r, done) && slot < |done| ==>
      slot < |r.lists| && GroupOf(slot) < |r.shown| && claim(Place(r, GroupOf(slot), slot, o, sizes), done[slot := done[slot] + [o]])
  }

  ghost predicate Stable(claim: Claim, sizes: Sizes)
  {
    forall r, done, slot: nat, o :: StepKept(claim, r, done, slot, o, sizes)
  }

  lemma {:induction false} PlaceAllKeeps(claim: Claim, r: Rendered, done: seq<seq<Original>>, slot: nat, os: seq<Original>, sizes: Sizes)
    requires Stable(claim, sizes) && claim(r, done) && slot < |done| && done[slot] == []
    requires slot < |r.lists| && GroupOf(slot) < |r.shown|
    ensures claim(PlaceAll(r, GroupOf(slot), slot, os, sizes), done[slot := os])
  {
    if os == [] {
      assert done[slot := os] == done;
    } else {
      var n := |os| - 1;
      var before := done[slot := os[..n]];
      PlaceAllKeeps(claim, r, done, slot, os[..n], sizes);
      DoneMore(done, slot, os, before, done[slot := os]);
      assert StepKept(claim, PlaceAll(r, GroupOf(slot), slot, os[..n], sizes), before, slot, os[n], sizes);
    }
  }

  lemma DoneMore(done: seq<seq<Original>>, slot: nat, os: seq<Original>, before: seq<seq<Original>>, after: seq<seq<Original>>)
    requires slot < |done| && os != [] && before == done[slot := os[..|os| - 1]] && after == done[slot := os]
    ensures after == before[slot := before[slot] + [os[|os| - 1]]]
  {
    assert os[..|os| - 1] + [os[|os| - 1]] == os;
  }

  /** The originals of every slot once the layers before this one have been placed. */
  function Done(pack: Pack, slots: nat): seq<seq<Original>>
    requires ValidPack(pack) && slots <= SlotOf(|pack|, 0)
  {
    seq(SlotOf(|pack|, 0), s requires 0 <= s < SlotOf(|pack|, 0) =>
      if s >= slots then [] else if s < 4 then pack[0][s] else pack[1][s - 4])
  }

  lemma DoneStep(pack: Pack, group: nat, layer: nat)
    requires ValidPack(pack) && group < |pack| && layer < LAYERS
    ensures var slot := SlotOf(group, layer);
      && slot < SlotOf(|pack|, 0) && GroupOf(slot) == group && Done(pack, slot)[slot] == []
      && Done(pack, slot + 1) == Done(pack, slot)[slot := pack[group][layer]]
  {
  }

  lemma {:induction false} PlaceLayersKeeps(claim: Claim, r: Rendered, pack: Pack, group: nat, layers: nat, sizes: Sizes)
    requires Stable(claim, sizes) && ValidPack(pack) && Shaped(r, |pack|) && group < |pack| && layers <= LAYERS
    requires claim(r, Done(pack, SlotOf(group, 0)))
    ensures claim(PlaceLayers(r, pack, group, layers, sizes), Done(pack, SlotOf(group, layers)))
  {
    if layers > 0 {
      PlaceLayersKeeps(claim, r, pack, group, layers - 1, sizes);
      DoneStep(pack, group, layers - 1);
      var slot := SlotOf(group, layers - 1);
      PlaceAllKeeps(claim, PlaceLayers(r, pack, group, layers - 1, sizes), Done(pack, slot), slot, pack[group][layers - 1], sizes);
    }
  }

  lemma {:induction false} PlaceGroupsKeeps(claim: Claim, pack: Pack, groups: nat, sizes: Sizes)
    requires Stable(claim, sizes) && ValidPack(pack) && groups <= |pack| && claim(Empty(|pack|), Done(pack, 0))
    ensures claim(PlaceGroups(pack, groups, sizes), Done(pack, SlotOf(groups, 0)))
  {
    if groups > 0 {
      PlaceGroupsKeeps(claim, pack, groups - 1, sizes);
      PlaceLayersKeeps(claim, PlaceGroups(pack, groups - 1, sizes), pack, groups - 1, LAYERS, sizes);
    }
  }

  // ----- The whole message -----

  /** Every count is the number of nodes shown in its group, and the total is their sum. */
  predicate Counted(r: Rendered, groups: nat)
  {
    && 1 <= groups <= 2 && Shaped(r, groups)
    && (forall g :: 0 <= g < groups ==>
      r.shown[g] == |r.lists[SlotOf(g, 0)]| + |r.lists[SlotOf(g, 1)]| + |r.lists[SlotOf(g, 2)]| + |r.lists[SlotOf(g, 3)]|)
    && r.total == r.shown[0] + if groups == 2 then r.shown[1] else 0
  }

  lemma PlaceCounts(r: Rendered, slot: nat, o: Original, groups: nat, sizes: Sizes)
    requires Counted(r, groups) && slot < SlotOf(groups, 0)
    ensures Counted(Place(r, GroupOf(slot), slot, o, sizes), groups)
  {
  }

  function Safe(groups: nat, sizes: Sizes): Claim
  {
    (r: Rendered, done: seq<seq<Original>>) => Kept(r, done, sizes) && Counted(r, groups)
  }

  lemma SafeIsStable(groups: nat, sizes: Sizes)
    ensures Stable(Safe(groups, sizes), sizes)
  {
    forall r, done, slot: nat, o ensures StepKept(Safe(groups, sizes), r, done, slot, o, sizes) {
      if Safe(groups, sizes)(r, done) && slot < |done| {
        assert Kept(r, done, sizes) && Counted(r, groups);
        PlaceKeeps(r, done, slot, o, done[slot := done[slot] + [o]], sizes);
        PlaceCounts(r, slot, o, groups, sizes);
      }
    }
  }

  lemma EmptyIsSafe(pack: Pack, sizes: Sizes)
    requires ValidPack(pack) && Size(Empty(|pack|), sizes) <= MAX_CONTEXT_BYTES
    ensures Safe(|pack|, sizes)(Empty(|pack|), Done(pack, 0))
  {
    assert Kept(Empty(|pack|), Done(pack, 0), sizes);
    assert Counted(Empty(|pack|), |pack|);
  }

  /** A layer of the message shows copies of some of its nodes in their order. */
  predicate LayerInOrder(r: Rendered, pack: Pack, g: nat, l: nat)
    requires ValidPack(pack) && Shaped(r, |pack|) && g < |pack| && l < LAYERS
  {
    InOrder(r.lists[SlotOf(g, l)], pack[g][l], g)
  }

  /** A layer of the message shows all of its nodes in full. */
  predicate LayerWhole(r: Rendered, pack: Pack, g: nat, l: nat)
    requires ValidPack(pack) && Shaped(r, |pack|) && g < |pack| && l < LAYERS
  {
    AllWhole(r.lists[SlotOf(g, l)], pack[g][l], g)
  }

  lemma LayerKept(r: Rendered, pack: Pack, g: nat, l: nat, s: nat)
    requires ValidPack(pack) && Shaped(r, |pack|) && g < |pack| && l < LAYERS && s == SlotOf(g, l)
    requires Ordered(r, Done(pack, SlotOf(|pack|, 0)))
    ensures s < |r.lists| && LayerInOrder(r, pack, g, l)
    ensures LayerWhole(r, pack, g, l) <==> AllWhole(r.lists[s], Done(pack, SlotOf(|pack|, 0))[s], GroupOf(s))
  {
  }

  lemma FlagIsExact(r: Rendered, pack: Pack, sizes: Sizes)
    requires ValidPack(pack) && Shaped(r, |pack|) && Kept(r, Done(pack, SlotOf(|pack|, 0)), sizes)
    ensures !r.truncated <==> forall g, l :: 0 <= g < |pack| && 0 <= l < LAYERS ==> LayerWhole(r, pack, g, l)
  {
    var done := Done(pack, SlotOf(|pack|, 0));
    if r.truncated {
      var s :| 0 <= s < |done| && !AllWhole(r.lists[s], done[s], GroupOf(s));
      LayerKept(r, pack, GroupOf(s), if s < 4 then s else s - 4, s);
    } else {
      forall g, l | 0 <= g < |pack| && 0 <= l < LAYERS ensures LayerWhole(r, pack, g, l) {
        LayerKept(r, pack, g, l, SlotOf(g, l));
      }
    }
  }

  /**
   * Given that the empty frame fits, the message fits, shows at most 64 nodes and counts them right; every layer
   * shows copies of some of its nodes in their order; and the flag is off exactly when every node of every layer
   * is shown in full.
   */
  lemma PackIsSafe(pack: Pack, sizes: Sizes)
    requires ValidPack(pack) && Size(Empty(|pack|), sizes) <= MAX_CONTEXT_BYTES
    ensures var r := PlaceGroups(pack, |pack|, sizes);
      && Size(r, sizes) <= MAX_CONTEXT_BYTES && r.total <= MAX_NODES && Counted(r, |pack|)
      && (forall g, l :: 0 <= g < |pack| && 0 <= l < LAYERS ==> LayerInOrder(r, pack, g, l))
      && (!r.truncated <==> forall g, l :: 0 <= g < |pack| && 0 <= l < LAYERS ==> LayerWhole(r, pack, g, l))
  {
    var r := PlaceGroups(pack, |pack|, sizes);
    SafeIsStable(|pack|, sizes);
    EmptyIsSafe(pack, sizes);
    PlaceGroupsKeeps(Safe(|pack|, sizes), pack, |pack|, sizes);
    assert Kept(r, Done(pack, SlotOf(|pack|, 0)), sizes) && Counted(r, |pack|);
    FlagIsExact(r, pack, sizes);
    forall g, l | 0 <= g < |pack| && 0 <= l < LAYERS ensures LayerInOrder(r, pack, g, l) {
      LayerKept(r, pack, g, l, SlotOf(g, l));
    }
  }

  /** The size limit holds after every node on the way. */
  lemma FitsAfterEveryNode(pack: Pack, group: nat, layer: nat, i: nat, sizes: Sizes)
    requires ValidPack(pack) && Size(Empty(|pack|), sizes) <= MAX_CONTEXT_BYTES
    requires group < |pack| && layer < LAYERS && i <= |pack[group][layer]|
    ensures var start := PlaceLayers(PlaceGroups(pack, group, sizes), pack, group, layer, sizes);
      Size(PlaceAll(start, group, SlotOf(group, layer), pack[group][layer][..i], sizes), sizes) <= MAX_CONTEXT_BYTES
  {
    var claim := Safe(|pack|, sizes);
    SafeIsStable(|pack|, sizes);
    EmptyIsSafe(pack, sizes);
    PlaceGroupsKeeps(claim, pack, group, sizes);
    var before := PlaceGroups(pack, group, sizes);
    PlaceLayersKeeps(claim, before, pack, group, layer, sizes);
    DoneStep(pack, group, layer);
    var slot, os := SlotOf(group, layer), pack[group][layer][..i];
    var start := PlaceLayers(before, pack, group, layer, sizes);
    PlaceAllKeeps(claim, start, Done(pack, slot), slot, os, sizes);
    assert Kept(PlaceAll(start, group, slot, os, sizes), Done(pack, slot)[slot := os], sizes);
  }

  lemma {:induction false} OtherSlotsStay(r: Rendered, group: nat, slot: nat, os: seq<Original>, sizes: Sizes, s: nat)
    requires slot < |r.lists| && group < |r.shown| && s < |r.lists| && s != slot
    ensures PlaceAll(r, group, slot, os, sizes).lists[s] == r.lists[s]
  {
    if os != [] { OtherSlotsStay(r, group, slot, os[..|os| - 1], sizes, s); }
  }

  lemma {:induction false} PrimaryStays(r: Rendered, pack: Pack, layers: nat, sizes: Sizes, s: nat)
    requires ValidPack(pack) && |pack| == 2 && Shaped(r, 2) && layers <= LAYERS && s < 4
    ensures PlaceLayers(r, pack, 1, layers, sizes).lists[s] == r.lists[s]
  {
    if layers > 0 {
      PrimaryStays(r, pack, layers - 1, sizes, s);
      OtherSlotsStay(PlaceLayers(r, pack, 1, layers - 1, sizes), 1, SlotOf(1, layers - 1), pack[1][layers - 1], sizes, s);
    }
  }

  /** Related nodes take no room from primary ones: a primary layer is shown as it was before any of them was placed. */
  lemma PrimaryComesFirst(pack: Pack, sizes: Sizes, s: nat)
    requires ValidPack(pack) && |pack| == 2 && s < 4
    ensures PlaceGroups(pack, 2, sizes).lists[s] == PlaceGroups(pack, 1, sizes).lists[s]
  {
    PrimaryStays(PlaceGroups(pack, 1, sizes), pack, LAYERS, sizes, s);
  }
}
