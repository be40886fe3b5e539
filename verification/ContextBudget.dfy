/** Filling the message: nodes in order, primary layers first, each one taken back if it does not fit. */
module ContextBudget {
  import opened ContextPack

  /** The layers of each group, primary group first; a layer that is missing is empty. */
  type Pack = seq<seq<seq<Original>>>

  /** Where a layer of a group is among all layers; there are four to a group. */
  function SlotOf(group: nat, layer: nat): nat
  {
    4 * group + layer
  }

  /** The group of a slot, of the two there can be. */
  function GroupOf(slot: nat): nat
  {
    if slot < 4 then 0 else 1
  }

  predicate ValidPack(pack: Pack)
  {
    1 <= |pack| <= 2 && forall g :: 0 <= g < |pack| ==> |pack[g]| == LAYERS
  }

  /** The message so far: the nodes of every layer of every group in turn, and the count of each group. */
  datatype Rendered = Rendered(truncated: bool, lists: seq<seq<Node>>, shown: seq<nat>, total: nat)

  /** The bytes of everything but the nodes, the counts and the flag; and the bytes of a node. */
  datatype Sizes = Sizes(frame: nat, node: Node -> nat)

  function Digits(n: nat): nat
  {
    if n < 10 then 1 else 1 + Digits(n / 10)
  }

  function NodesSize(nodes: seq<Node>, sizes: Sizes): nat
  {
    if nodes == [] then 0
    else NodesSize(nodes[..|nodes| - 1], sizes) + sizes.node(nodes[|nodes| - 1]) + if |nodes| > 1 then 1 else 0
  }

  function ListsSize(lists: seq<seq<Node>>, sizes: Sizes): nat
  {
    if lists == [] then 0 else ListsSize(lists[..|lists| - 1], sizes) + NodesSize(lists[|lists| - 1], sizes)
  }

  function CountsSize(shown: seq<nat>): nat
  {
    if shown == [] then 0 else CountsSize(shown[..|shown| - 1]) + Digits(shown[|shown| - 1])
  }

  /** The bytes of the message as it is written out. */
  function Size(r: Rendered, sizes: Sizes): nat
  {
    sizes.frame + (if r.truncated then |"true"| else |"false"|) + ListsSize(r.lists, sizes) + CountsSize(r.shown)
  }

  function Empty(groups: nat): Rendered
  {
    Rendered(false, seq(SlotOf(groups, 0), _ => []), seq(groups, _ => 0), 0)
  }

  predicate Shaped(r: Rendered, groups: nat)
  {
    |r.lists| == SlotOf(groups, 0) && |r.shown| == groups
  }

  // ----- One node after another -----

  function Place(r: Rendered, group: nat, slot: nat, o: Original, sizes: Sizes): Rendered
    requires slot < |r.lists| && group < |r.shown|
  {
    if !o.valid || r.total >= MAX_NODES then r.(truncated := true)
    else
      var (node, missing) := Copy(o, group);
      var more := Rendered(r.truncated || missing, r.lists[slot := r.lists[slot] + [node]], r.shown[group := r.shown[group] + 1], r.total);
      if Size(more, sizes) > MAX_CONTEXT_BYTES then r.(truncated := true) else more.(total := r.total + 1)
  }

  function PlaceAll(r: Rendered, group: nat, slot: nat, os: seq<Original>, sizes: Sizes): (s: Rendered)
    requires slot < |r.lists| && group < |r.shown|
    ensures |s.lists| == |r.lists| && |s.shown| == |r.shown|
  {
    if os == [] then r else Place(PlaceAll(r, group, slot, os[..|os| - 1], sizes), group, slot, os[|os| - 1], sizes)
  }

  /** The message after the first `layers` layers of a group. */
  function PlaceLayers(r: Rendered, pack: Pack, group: nat, layers: nat, sizes: Sizes): (s: Rendered)
    requires ValidPack(pack) && Shaped(r, |pack|) && group < |pack| && layers <= LAYERS
    ensures Shaped(s, |pack|)
  {
    if layers == 0 then r
    else
      PlaceAll(PlaceLayers(r, pack, group, layers - 1, sizes), group, SlotOf(group, layers - 1), pack[group][layers - 1], sizes)
  }

  function PlaceGroups(pack: Pack, groups: nat, sizes: Sizes): (s: Rendered)
    requires ValidPack(pack) && groups <= |pack|
    ensures Shaped(s, |pack|)
  {
    if groups == 0 then Empty(|pack|)
    else PlaceLayers(PlaceGroups(pack, groups - 1, sizes), pack, groups - 1, LAYERS, sizes)
  }

  /** Pushes the node, measures the message, and pops the node again if it has become too long. */
  method PlaceNode(r: Rendered, group: nat, slot: nat, o: Original, sizes: Sizes) returns (s: Rendered)
    requires slot < |r.lists| && group < |r.shown|
    ensures s == Place(r, group, slot, o, sizes)
  {
    if !o.valid { return r.(truncated := true); }
    if r.total >= MAX_NODES { return r.(truncated := true); }
    var node, missing := CopyNode(o, group);
    var lists := r.lists[slot := r.lists[slot] + [node]];
    var shown := r.shown[group := r.shown[group] + 1];
    s := Rendered(r.truncated || missing, lists, shown, r.total);
    if Size(s, sizes) > MAX_CONTEXT_BYTES {
      lists := lists[slot := lists[slot][..|lists[slot]| - 1]];
      shown := shown[group := shown[group] - 1];
      assert lists == r.lists && shown == r.shown;
      s := Rendered(true, lists, shown, r.total);
    } else {
      s := s.(total := r.total + 1);
    }
  }

  method BoundedPack(pack: Pack, sizes: Sizes) returns (r: Rendered)
    requires ValidPack(pack)
    ensures r == PlaceGroups(pack, |pack|, sizes)
  {
    r := Empty(|pack|);
    for g := 0 to |pack|
      invariant r == PlaceGroups(pack, g, sizes)
    {
      ghost var start := r;
      for l := 0 to LAYERS
        invariant r == PlaceLayers(start, pack, g, l, sizes)
      {
        ghost var before := r;
        var os := pack[g][l];
        for i := 0 to |os|
          invariant r == PlaceAll(before, g, SlotOf(g, l), os[..i], sizes)
        {
          assert os[..i + 1][..i] == os[..i];
          r := PlaceNode(r, g, SlotOf(g, l), os[i], sizes);
        }
        assert os[..|os|] == os;
      }
    }
  }
}
