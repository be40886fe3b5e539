/** Packing context nodes into a bounded message, with a flag that tells whether anything was left out. */
module ContextPack {
  import opened Text

  const MAX_CONTEXT_BYTES: nat := 24000
  const MAX_NODES: nat := 64
  const MAX_STEPS: nat := 6
  const LAYERS: nat := 4

  type Strings = map<string, string>
  type Fields = seq<(string, string)>

  datatype PathStep = PathStep(valid: bool, strings: Strings)

  /** A node's path as it came: none, something that is no list, or a list of steps. */
  datatype PathValue = NoPath | NotAList | Steps(steps: seq<PathStep>)

  /** A node as it came; valid when it is an object with a proper id. */
  datatype Original = Original(valid: bool, strings: Strings, depth: Option<int>, path: PathValue)

  datatype Node = Node(fields: Fields, depth: Option<int>, path: Option<seq<Fields>>, pathTruncated: bool)

  const FIELDS: seq<string> := [
    "item_id", "title", "source_type", "source_id", "uri", "product_id", "feature_id", "journey_id", "vision_id",
    "feature_doc_id", "component_id", "trust_level", "relation", "relevance", "reason"]
  const STEP_FIELDS: seq<string> := ["item_id", "title", "source_type", "relation", "direction"]

  /** The fields of a node: those of the primary layers carry an excerpt. */
  function KeysOf(group: nat): seq<string>
  {
    if group == 0 then FIELDS + ["excerpt"] else FIELDS
  }

  // ----- Copying a node -----

  function Limit(key: string): nat
  {
    if key == "excerpt" then 1200 else 512
  }

  function Cut(value: string, limit: nat): string
  {
    if |value| > limit then value[..limit] else value
  }

  /** The fields with these keys, cut to their limits, and whether any was cut. */
  function CopyStrings(strings: Strings, keys: seq<string>): (Fields, bool)
  {
    if keys == [] then ([], false)
    else
      var (rest, cut) := CopyStrings(strings, keys[..|keys| - 1]);
      var key := keys[|keys| - 1];
      if key !in strings then (rest, cut)
      else (rest + [(key, Cut(strings[key], Limit(key)))], cut || |strings[key]| > Limit(key))
  }

  /** The same fields in full. */
  function Listed(strings: Strings, keys: seq<string>): Fields
  {
    if keys == [] then []
    else
      var rest, key := Listed(strings, keys[..|keys| - 1]), keys[|keys| - 1];
      if key !in strings then rest else rest + [(key, strings[key])]
  }

  /** The steps up to the first one that is not valid, and whether anything of them is missing. */
  function CopySteps(steps: seq<PathStep>): (seq<Fields>, bool)
  {
    if steps == [] then ([], false)
    else
      var (before, missing) := CopySteps(steps[..|steps| - 1]);
      var last := steps[|steps| - 1];
      var (fields, cut) := CopyStrings(last.strings, STEP_FIELDS);
      if Broken(steps[..|steps| - 1]) || !last.valid then (before, true) else (before + [fields], missing || cut)
  }

  predicate Broken(steps: seq<PathStep>)
  {
    exists i :: 0 <= i < |steps| && !steps[i].valid
  }

  function FirstSteps(steps: seq<PathStep>): seq<PathStep>
  {
    if |steps| > MAX_STEPS then steps[..MAX_STEPS] else steps
  }

  function CopyPath(path: PathValue): (Option<seq<Fields>>, bool)
  {
    match path
    case NoPath => (None, false)
    case NotAList => (Some([]), true)
    case Steps(steps) => (Some(CopySteps(FirstSteps(steps)).0), |steps| > MAX_STEPS || CopySteps(FirstSteps(steps)).1)
  }

  /** The node to show, and whether anything of it is missing. */
  function Copy(o: Original, group: nat): (Node, bool)
  {
    var (fields, cut) := CopyStrings(o.strings, KeysOf(group));
    var (path, missing) := CopyPath(o.path);
    (Node(fields, o.depth, path, missing), cut || missing)
  }

  // ----- ... step by step -----

  method CopyFields(strings: Strings, keys: seq<string>) returns (fields: Fields, cut: bool)
    ensures (fields, cut) == CopyStrings(strings, keys)
  {
    fields, cut := [], false;
    for i := 0 to |keys|
      invariant (fields, cut) == CopyStrings(strings, keys[..i])
    {
      assert keys[..i + 1][..i] == keys[..i];
      var key := keys[i];
      if key in strings {
        var value := Cut(strings[key], Limit(key));
        fields := fields + [(key, value)];
        if value != strings[key] { cut := true; }
        CutShortens(strings[key], Limit(key));
      }
    }
    assert keys[..|keys|] == keys;
  }

  lemma CutShortens(value: string, limit: nat)
    ensures Cut(value, limit) != value <==> |value| > limit
  {
  }

  method CopyNode(o: Original, group: nat) returns (node: Node, missing: bool)
    ensures (node, missing) == Copy(o, group)
  {
    var fields, cut := CopyFields(o.strings, KeysOf(group));
    var path, lost := CopySomePath(o.path);
    node, missing := Node(fields, o.depth, path, lost), cut || lost;
  }

  method CopySomePath(p: PathValue) returns (path: Option<seq<Fields>>, missing: bool)
    ensures (path, missing) == CopyPath(p)
  {
    if p.NoPath? { return None, false; }
    if p.NotAList? { return Some([]), true; }
    var steps := FirstSteps(p.steps);
    var copied: seq<Fields> := [];
    missing := |p.steps| > MAX_STEPS;
    var i := 0;
    ghost var done: seq<PathStep> := [];
    while i < |steps| && steps[i].valid
      invariant 0 <= i <= |steps| && done == steps[..i] && !Broken(done)
      invariant copied == CopySteps(done).0
      invariant missing == (|p.steps| > MAX_STEPS || CopySteps(done).1)
    {
      var fields, cut := CopyFields(steps[i].strings, STEP_FIELDS);
      TakeSnoc(steps, i);
      CopyStepsSnoc(done, steps[i], done + [steps[i]]);
      copied := copied + [fields];
      missing := missing || cut;
      done := done + [steps[i]];
      i := i + 1;
    }
    if i < |steps| {
      missing := true;
      StopsAtBrokenStep(steps, i, |steps|);
    }
    assert steps[..|steps|] == steps;
    path := Some(copied);
  }

  lemma CopyStepsSnoc(done: seq<PathStep>, step: PathStep, more: seq<PathStep>)
    requires !Broken(done) && step.valid && more == done + [step]
    ensures !Broken(more)
    ensures CopySteps(more) ==
      (CopySteps(done).0 + [CopyStrings(step.strings, STEP_FIELDS).0], CopySteps(done).1 || CopyStrings(step.strings, STEP_FIELDS).1)
  {
    assert more[..|done|] == done;
  }

  lemma {:induction false} StopsAtBrokenStep(steps: seq<PathStep>, i: nat, n: nat)
    requires i < n <= |steps| && !steps[i].valid && !Broken(steps[..i])
    ensures CopySteps(steps[..n]) == (CopySteps(steps[..i]).0, true)
  {
    assert steps[..n][..n - 1] == steps[..n - 1];
    if n > i + 1 {
      StopsAtBrokenStep(steps, i, n - 1);
      assert !steps[..n - 1][i].valid;
    }
  }
}
