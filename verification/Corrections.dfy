/** Corrections of claims about changed files: when one applies, and what it must account for. */
module Corrections {
  import opened Text

  const GLOB_MATCH_BUDGET: nat := 500

  /** A part of a files claim: a path as it stands, a glob, words in which paths may be named, or another pattern. */
  datatype Unit = Literal(value: string) | Glob(value: string) | Prose(value: string) | Pattern(value: string)

  datatype Requirement = Path(value: string) | Opaque(value: string) | GlobEmpty(value: string) | GlobOver(value: string)

  /** What has to be accounted for, and the patterns whose paths may be listed for it. */
  datatype Needs = Needs(requirements: seq<Requirement>, accept: seq<string>)

  type Accepts = (string, string) -> bool

  /**
   * The files and the reading of tokens that a log is judged by: the paths a glob matches (none when no listing
   * is at hand), the paths named in prose, whether a pattern accepts a path, whether a token is a plain path,
   * and how white space is normalized.
   */
  datatype Context = Context(
    matches: string -> Option<seq<string>>,
    prose: string -> Needs,
    accepts: Accepts,
    isPath: string -> bool,
    normalize: string -> string,
    listingMissing: bool)

  datatype Line =
    | Files(tag: string, units: seq<Unit>)
    | Verified(tag: string)
    | Wired(tag: string)
    | Correction(tag: string, target: nat, listed: seq<string>, retracted: seq<string>)
    | MalformedCorrection
    | Other

  datatype Reason =
    | MalformedLine | TargetNotEarlier | TargetNotAClaim | LabelMismatch | NothingToCorrect
    | Incomplete | MalformedEntry | DuplicateEntry | NotACandidate | Superseded

  datatype Verdict = Applied(listed: seq<string>, retracted: seq<string>) | Rejected(reason: Reason)

  // ----- What the units of a claim need -----

  function UnitNeeds(u: Unit, ctx: Context): Needs
  {
    match u
    case Literal(_) => Needs([], [])
    case Pattern(value) => Needs([Opaque(ctx.normalize(value))], [])
    case Prose(value) => ctx.prose(value)
    case Glob(value) =>
      match ctx.matches(value)
      case None => Needs([Opaque(value)], [value])
      case Some(paths) =>
        if paths == [] then Needs([GlobEmpty(value)], [value])
        else if |paths| > GLOB_MATCH_BUDGET then Needs([GlobOver(value)], [value])
        else Needs(Paths(paths), [value])
  }

  function Paths(values: seq<string>): seq<Requirement>
  {
    seq(|values|, i requires 0 <= i < |values| => Path(values[i]))
  }

  function Correctable(units: seq<Unit>): seq<Unit>
  {
    if units == [] then [] else (if units[0].Literal? then [] else [units[0]]) + Correctable(units[1..])
  }

  function AllNeeds(units: seq<Unit>, ctx: Context): Needs
  {
    if units == [] then Needs([], [])
    else
      var rest := AllNeeds(units[..|units| - 1], ctx);
      var last := UnitNeeds(units[|units| - 1], ctx);
      Needs(rest.requirements + last.requirements, rest.accept + last.accept)
  }

  /** The requirements without repetitions. */
  function Dedupe(requirements: seq<Requirement>): seq<Requirement>
  {
    if requirements == [] then []
    else
      var rest, last := Dedupe(requirements[..|requirements| - 1]), requirements[|requirements| - 1];
      if last in rest then rest else rest + [last]
  }

  // ----- Whether a correction applies -----

  predicate Candidate(value: string, needs: Needs, ctx: Context)
  {
    Path(value) in needs.requirements || exists pattern :: pattern in needs.accept && ctx.accepts(pattern, value)
  }

  predicate Retractable(value: string, needs: Needs, ctx: Context)
  {
    exists r :: r in needs.requirements && ctx.normalize(r.value) == value
  }

  predicate Covered(r: Requirement, listed: set<string>, retracted: set<string>, ctx: Context)
  {
    match r
    case Path(value) => value in listed || value in retracted
    case Opaque(value) => ctx.normalize(value) in retracted
    case GlobOver(value) => value in retracted
    case GlobEmpty(value) => value in retracted || exists entry :: entry in listed && ctx.accepts(value, entry)
  }

  function ListedFault(values: seq<string>, seen: set<string>, needs: Needs, ctx: Context): Option<Reason>
  {
    if values == [] then None
    else if !ctx.isPath(values[0]) then Some(MalformedEntry)
    else if values[0] in seen then Some(DuplicateEntry)
    else if !Candidate(values[0], needs, ctx) then Some(NotACandidate)
    else ListedFault(values[1..], seen + {values[0]}, needs, ctx)
  }

  function RetractedFault(values: seq<string>, seen: set<string>, needs: Needs, ctx: Context): Option<Reason>
  {
    if values == [] then None
    else if values[0] in seen then Some(DuplicateEntry)
    else if !Retractable(values[0], needs, ctx) then Some(NotACandidate)
    else RetractedFault(values[1..], seen + {values[0]}, needs, ctx)
  }

  function Elements(values: seq<string>): set<string>
  {
    set v | v in values
  }

  function Check(c: Line, number: nat, claim: Option<Line>, ctx: Context): Verdict
    requires c.Correction? || c.MalformedCorrection?
  {
    if c.MalformedCorrection? then Rejected(MalformedLine)
    else if c.target >= number then Rejected(TargetNotEarlier)
    else if claim.None? || !claim.value.Files? then Rejected(TargetNotAClaim)
    else if claim.value.tag != c.tag then Rejected(LabelMismatch)
    else if Correctable(claim.value.units) == [] then Rejected(NothingToCorrect)
    else CheckEntries(c.listed, c.retracted, CorrectionNeeds(claim.value.units, ctx), ctx)
  }

  function CorrectionNeeds(units: seq<Unit>, ctx: Context): Needs
  {
    var needs := AllNeeds(Correctable(units), ctx);
    Needs(Dedupe(needs.requirements), needs.accept)
  }

  function CheckEntries(listed: seq<string>, retracted: seq<string>, needs: Needs, ctx: Context): Verdict
  {
    if |listed| + |retracted| == 0 then Rejected(Incomplete)
    else if ListedFault(listed, {}, needs, ctx).Some? then Rejected(ListedFault(listed, {}, needs, ctx).value)
    else if RetractedFault(retracted, Elements(listed), needs, ctx).Some? then
      Rejected(RetractedFault(retracted, Elements(listed), needs, ctx).value)
    else if exists r :: r in needs.requirements && !Covered(r, Elements(listed), Elements(retracted), ctx) then Rejected(Incomplete)
    else Applied(listed, retracted)
  }

  // ----- ... step by step -----

  method DedupeRequirements(requirements: seq<Requirement>) returns (kept: seq<Requirement>)
    ensures kept == Dedupe(requirements)
  {
    var seen: set<Requirement> := {};
    kept := [];
    for i := 0 to |requirements|
      invariant kept == Dedupe(requirements[..i])
      invariant forall r :: r in seen <==> r in kept
    {
      assert requirements[..i + 1][..i] == requirements[..i];
      if requirements[i] !in seen {
        seen := seen + {requirements[i]};
        kept := kept + [requirements[i]];
      }
    }
    assert requirements[..|requirements|] == requirements;
  }

  method CollectNeeds(correctable: seq<Unit>, ctx: Context) returns (needs: Needs)
    ensures needs == Needs(Dedupe(AllNeeds(correctable, ctx).requirements), AllNeeds(correctable, ctx).accept)
  {
    var requirements, accept := [], [];
    for i := 0 to |correctable|
      invariant Needs(requirements, accept) == AllNeeds(correctable[..i], ctx)
    {
      assert correctable[..i + 1][..i] == correctable[..i];
      var found := UnitNeeds(correctable[i], ctx);
      requirements := requirements + found.requirements;
      accept := accept + found.accept;
    }
    assert correctable[..|correctable|] == correctable;
    requirements := DedupeRequirements(requirements);
    needs := Needs(requirements, accept);
  }

  method CheckCorrection(c: Line, number: nat, claim: Option<Line>, ctx: Context) returns (v: Verdict)
    requires c.Correction? || c.MalformedCorrection?
    ensures v == Check(c, number, claim, ctx)
  {
    if c.MalformedCorrection? { return Rejected(MalformedLine); }
    if c.target >= number { return Rejected(TargetNotEarlier); }
    if claim.None? || !claim.value.Files? { return Rejected(TargetNotAClaim); }
    if claim.value.tag != c.tag { return Rejected(LabelMismatch); }
    var correctable := Correctable(claim.value.units);
    if correctable == [] { return Rejected(NothingToCorrect); }
    var needs := CollectNeeds(correctable, ctx);
    if |c.listed| + |c.retracted| == 0 { return Rejected(Incomplete); }
    var listed: set<string> := {};
    ghost var todo := c.listed;
    for i := 0 to |c.listed|
      invariant todo == c.listed[i..] && listed == Elements(c.listed[..i])
      invariant ListedFault(todo, listed, needs, ctx) == ListedFault(c.listed, {}, needs, ctx)
    {
      var value := c.listed[i];
      assert todo[0] == value;
      if !ctx.isPath(value) { return Rejected(MalformedEntry); }
      if value in listed { return Rejected(DuplicateEntry); }
      if !Candidate(value, needs, ctx) { return Rejected(NotACandidate); }
      TakeSnoc(c.listed, i);
      listed := listed + {value};
      todo := todo[1..];
    }
    assert c.listed[..|c.listed|] == c.listed;
    v := CheckRetracted(c, listed, needs, ctx);
  }

  method CheckRetracted(c: Line, listed: set<string>, needs: Needs, ctx: Context) returns (v: Verdict)
    requires c.Correction? && |c.listed| + |c.retracted| > 0
    requires listed == Elements(c.listed) && ListedFault(c.listed, {}, needs, ctx).None?
    ensures v == CheckEntries(c.listed, c.retracted, needs, ctx)
  {
    var retracted: set<string> := {};
    ghost var todo := c.retracted;
    assert listed + retracted == listed;
    for i := 0 to |c.retracted|
      invariant todo == c.retracted[i..] && retracted == Elements(c.retracted[..i])
      invariant RetractedFault(todo, listed + retracted, needs, ctx) == RetractedFault(c.retracted, listed, needs, ctx)
    {
      var value := c.retracted[i];
      assert todo[0] == value;
      if value in retracted || value in listed { return Rejected(DuplicateEntry); }
      if !Retractable(value, needs, ctx) { return Rejected(NotACandidate); }
      TakeSnoc(c.retracted, i);
      assert listed + retracted + {value} == listed + (retracted + {value});
      retracted := retracted + {value};
      todo := todo[1..];
    }
    assert c.retracted[..|c.retracted|] == c.retracted;
    for i := 0 to |needs.requirements|
      invariant forall k :: 0 <= k < i ==> Covered(needs.requirements[k], listed, retracted, ctx)
    {
      if !Covered(needs.requirements[i], listed, retracted, ctx) { return Rejected(Incomplete); }
    }
    return Applied(c.listed, c.retracted);
  }

  // ----- What an applied correction means -----

  predicate NoRepeats(values: seq<string>)
  {
    forall i, j :: 0 <= i < j < |values| ==> values[i] != values[j]
  }

  lemma {:induction false} ListedFaultNone(values: seq<string>, seen: set<string>, needs: Needs, ctx: Context)
    ensures ListedFault(values, seen, needs, ctx).None? <==>
      && NoRepeats(values)
      && forall v :: v in values ==> v !in seen && ctx.isPath(v) && Candidate(v, needs, ctx)
  {
    if values != [] {
      var v, rest := values[0], values[1..];
      ListedFaultNone(rest, seen + {v}, needs, ctx);
      assert forall x :: x in values <==> x == v || x in rest;
      RepeatsCons(values);
    }
  }

  lemma {:induction false} RetractedFaultNone(values: seq<string>, seen: set<string>, needs: Needs, ctx: Context)
    ensures RetractedFault(values, seen, needs, ctx).None? <==>
      && NoRepeats(values)
      && forall v :: v in values ==> v !in seen && Retractable(v, needs, ctx)
  {
    if values != [] {
      var v, rest := values[0], values[1..];
      RetractedFaultNone(rest, seen + {v}, needs, ctx);
      assert forall x :: x in values <==> x == v || x in rest;
      RepeatsCons(values);
    }
  }

  lemma RepeatsCons(values: seq<string>)
    requires values != []
    ensures NoRepeats(values) <==> values[0] !in values[1..] && NoRepeats(values[1..])
  {
    var rest := values[1..];
    assert forall j :: 1 <= j < |values| ==> values[j] == rest[j - 1];
    assert forall j :: 0 <= j < |rest| ==> rest[j] == values[j + 1];
    if NoRepeats(rest) && values[0] !in rest {
      forall i, j | 0 <= i < j < |values| ensures values[i] != values[j] {
        if i > 0 { assert rest[i - 1] != rest[j - 1]; }
      }
    }
  }

  lemma {:induction false} DedupeMembers(requirements: seq<Requirement>)
    ensures forall r :: r in Dedupe(requirements) <==> r in requirements
  {
    if requirements != [] {
      var n := |requirements| - 1;
      DedupeMembers(requirements[..n]);
      assert forall r :: r in requirements <==> r == requirements[n] || r in requirements[..n];
    }
  }

  lemma {:induction false} AllNeedsMembers(units: seq<Unit>, ctx: Context)
    ensures forall r :: r in AllNeeds(units, ctx).requirements <==> exists u :: u in units && r in UnitNeeds(u, ctx).requirements
    ensures forall p :: p in AllNeeds(units, ctx).accept <==> exists u :: u in units && p in UnitNeeds(u, ctx).accept
  {
    if units != [] {
      var n := |units| - 1;
      AllNeedsMembers(units[..n], ctx);
      assert forall u :: u in units <==> u == units[n] || u in units[..n];
    }
  }

  lemma {:induction false} CorrectableMembers(units: seq<Unit>)
    ensures forall u :: u in Correctable(units) <==> u in units && !u.Literal?
  {
    if units != [] {
      CorrectableMembers(units[1..]);
      assert forall u :: u in units <==> u == units[0] || u in units[1..];
    }
  }

  predicate RequiredBy(r: Requirement, units: seq<Unit>, ctx: Context)
  {
    exists u :: u in units && !u.Literal? && r in UnitNeeds(u, ctx).requirements
  }

  predicate AcceptedBy(value: string, units: seq<Unit>, ctx: Context)
  {
    exists u, p :: u in units && !u.Literal? && p in UnitNeeds(u, ctx).accept && ctx.accepts(p, value)
  }

  lemma NeedsOfUnits(units: seq<Unit>, ctx: Context)
    ensures var needs := CorrectionNeeds(units, ctx);
      && (forall r :: r in needs.requirements <==> RequiredBy(r, units, ctx))
      && (forall v :: Candidate(v, needs, ctx) <==> RequiredBy(Path(v), units, ctx) || AcceptedBy(v, units, ctx))
  {
    var correctable := Correctable(units);
    CorrectableMembers(units);
    AllNeedsMembers(correctable, ctx);
    DedupeMembers(AllNeeds(correctable, ctx).requirements);
  }

  /** Everything the correction names is named once and may be named, and everything the claim needs is named. */
  ghost predicate Accounts(listed: seq<string>, retracted: seq<string>, units: seq<Unit>, ctx: Context)
  {
    && NoRepeats(listed) && NoRepeats(retracted) && (forall v :: v in retracted ==> v !in listed)
    && (forall v :: v in listed ==> ctx.isPath(v) && (RequiredBy(Path(v), units, ctx) || AcceptedBy(v, units, ctx)))
    && (forall v :: v in retracted ==> exists r :: RequiredBy(r, units, ctx) && ctx.normalize(r.value) == v)
    && (forall r :: RequiredBy(r, units, ctx) ==> Covered(r, Elements(listed), Elements(retracted), ctx))
  }

  lemma EntriesApplyIff(listed: seq<string>, retracted: seq<string>, units: seq<Unit>, ctx: Context)
    ensures CheckEntries(listed, retracted, CorrectionNeeds(units, ctx), ctx).Applied? <==>
      listed + retracted != [] && Accounts(listed, retracted, units, ctx)
  {
    var needs := CorrectionNeeds(units, ctx);
    NeedsOfUnits(units, ctx);
    ListedFaultNone(listed, {}, needs, ctx);
    RetractedFaultNone(retracted, Elements(listed), needs, ctx);
  }

  /**
   * A correction applies exactly when it is well formed, follows a files claim of the same label that has
   * something to correct, names something, and accounts for everything that claim needs.
   */
  lemma AppliesIff(c: Line, number: nat, claim: Option<Line>, ctx: Context)
    requires c.Correction? || c.MalformedCorrection?
    ensures Check(c, number, claim, ctx).Applied? <==>
      && c.Correction? && c.target < number
      && claim.Some? && claim.value.Files? && claim.value.tag == c.tag
      && (exists u :: u in claim.value.units && !u.Literal?)
      && c.listed + c.retracted != []
      && Accounts(c.listed, c.retracted, claim.value.units, ctx)
    ensures Check(c, number, claim, ctx).Applied? ==>
      c.Correction? && Check(c, number, claim, ctx) == Applied(c.listed, c.retracted)
  {
    if c.Correction? && claim.Some? && claim.value.Files? {
      var units := claim.value.units;
      EntriesApplyIff(c.listed, c.retracted, units, ctx);
      CorrectableMembers(units);
      assert Correctable(units) != [] ==> Correctable(units)[0] in Correctable(units);
    }
  }

  // ----- Why a correction is refused -----

  /** What is wrong with the entry at `k`, when it comes after the entries before it and after `seen`. */
  predicate ListedFails(values: seq<string>, k: nat, seen: set<string>, needs: Needs, ctx: Context, reason: Reason)
    requires k < |values|
  {
    if !ctx.isPath(values[k]) then reason == MalformedEntry
    else if values[k] in seen || values[k] in values[..k] then reason == DuplicateEntry
    else !Candidate(values[k], needs, ctx) && reason == NotACandidate
  }

  predicate RetractedFails(values: seq<string>, k: nat, seen: set<string>, needs: Needs, ctx: Context, reason: Reason)
    requires k < |values|
  {
    if values[k] in seen || values[k] in values[..k] then reason == DuplicateEntry
    else !Retractable(values[k], needs, ctx) && reason == NotACandidate
  }

  /** The fault is that of the first entry that has one. */
  ghost predicate FirstListed(values: seq<string>, k: nat, seen: set<string>, needs: Needs, ctx: Context, reason: Reason)
  {
    && k < |values| && ListedFails(values, k, seen, needs, ctx, reason)
    && forall j, r :: 0 <= j < k ==> !ListedFails(values, j, seen, needs, ctx, r)
  }

  ghost predicate FirstRetracted(values: seq<string>, k: nat, seen: set<string>, needs: Needs, ctx: Context, reason: Reason)
  {
    && k < |values| && RetractedFails(values, k, seen, needs, ctx, reason)
    && forall j, r :: 0 <= j < k ==> !RetractedFails(values, j, seen, needs, ctx, r)
  }

  lemma TailFails(values: seq<string>, rest: seq<string>, seen: set<string>, more: set<string>, needs: Needs, ctx: Context, j: nat, r: Reason)
    requires values != [] && rest == values[1..] && more == seen + {values[0]} && j < |rest|
    ensures ListedFails(rest, j, more, needs, ctx, r) == ListedFails(values, j + 1, seen, needs, ctx, r)
    ensures RetractedFails(rest, j, more, needs, ctx, r) == RetractedFails(values, j + 1, seen, needs, ctx, r)
  {
    assert values[..j + 1] == [values[0]] + rest[..j];
  }

  lemma {:induction false} ListedFaultAt(values: seq<string>, seen: set<string>, needs: Needs, ctx: Context) returns (k: nat)
    requires ListedFault(values, seen, needs, ctx).Some?
    ensures FirstListed(values, k, seen, needs, ctx, ListedFault(values, seen, needs, ctx).value)
  {
    var v, rest, more := values[0], values[1..], seen + {values[0]};
    k := 0;
    if ctx.isPath(v) && v !in seen && Candidate(v, needs, ctx) {
      var i := ListedFaultAt(rest, more, needs, ctx);
      k := i + 1;
      TailFails(values, rest, seen, more, needs, ctx, i, ListedFault(values, seen, needs, ctx).value);
      forall j, r | 0 <= j < k ensures !ListedFails(values, j, seen, needs, ctx, r) {
        if j > 0 { TailFails(values, rest, seen, more, needs, ctx, j - 1, r); }
      }
    }
  }

  lemma {:induction false} RetractedFaultAt(values: seq<string>, seen: set<string>, needs: Needs, ctx: Context) returns (k: nat)
    requires RetractedFault(values, seen, needs, ctx).Some?
    ensures FirstRetracted(values, k, seen, needs, ctx, RetractedFault(values, seen, needs, ctx).value)
  {
    var v, rest, more := values[0], values[1..], seen + {values[0]};
    k := 0;
    if v !in seen && Retractable(v, needs, ctx) {
      var i := RetractedFaultAt(rest, more, needs, ctx);
      k := i + 1;
      TailFails(values, rest, seen, more, needs, ctx, i, RetractedFault(values, seen, needs, ctx).value);
      forall j, r | 0 <= j < k ensures !RetractedFails(values, j, seen, needs, ctx, r) {
        if j > 0 { TailFails(values, rest, seen, more, needs, ctx, j - 1, r); }
      }
    }
  }

  /** The correction reaches its claim: a files claim of an earlier line, with this label and something to correct. */
  predicate Reaches(c: Line, number: nat, claim: Option<Line>)
  {
    && c.Correction? && c.target < number && claim.Some? && claim.value.Files? && claim.value.tag == c.tag
    && exists u :: u in claim.value.units && !u.Literal?
  }

  /** Why a correction that reaches its claim is refused. */
  ghost predicate EntriesExplained(reason: Reason, listed: seq<string>, retracted: seq<string>, needs: Needs, ctx: Context)
  {
    if listed + retracted == [] then reason == Incomplete
    else if exists k: nat, r :: FirstListed(listed, k, {}, needs, ctx, r) then exists k: nat :: FirstListed(listed, k, {}, needs, ctx, reason)
    else if exists k: nat, r :: FirstRetracted(retracted, k, Elements(listed), needs, ctx, r) then
      exists k: nat :: FirstRetracted(retracted, k, Elements(listed), needs, ctx, reason)
    else reason == Incomplete && exists r :: r in needs.requirements && !Covered(r, Elements(listed), Elements(retracted), ctx)
  }

  lemma NoListedFault(values: seq<string>, seen: set<string>, needs: Needs, ctx: Context)
    ensures ListedFault(values, seen, needs, ctx).None? ==> forall k: nat, r :: !FirstListed(values, k, seen, needs, ctx, r)
    ensures RetractedFault(values, seen, needs, ctx).None? ==> forall k: nat, r :: !FirstRetracted(values, k, seen, needs, ctx, r)
  {
    ListedFaultNone(values, seen, needs, ctx);
    RetractedFaultNone(values, seen, needs, ctx);
  }

  lemma EntriesAreExplained(listed: seq<string>, retracted: seq<string>, needs: Needs, ctx: Context)
    requires CheckEntries(listed, retracted, needs, ctx).Rejected?
    ensures EntriesExplained(CheckEntries(listed, retracted, needs, ctx).reason, listed, retracted, needs, ctx)
  {
    NoListedFault(listed, {}, needs, ctx);
    NoListedFault(retracted, Elements(listed), needs, ctx);
    assert |listed + retracted| == |listed| + |retracted|;
    if listed + retracted != [] {
      if ListedFault(listed, {}, needs, ctx).Some? {
        var k := ListedFaultAt(listed, {}, needs, ctx);
      } else if RetractedFault(retracted, Elements(listed), needs, ctx).Some? {
        var k := RetractedFaultAt(retracted, Elements(listed), needs, ctx);
      }
    }
  }

  /** Every refusal names the first thing that is wrong, in the order of the checks. */
  lemma RefusalIsExplained(c: Line, number: nat, claim: Option<Line>, ctx: Context)
    requires (c.Correction? || c.MalformedCorrection?) && Check(c, number, claim, ctx).Rejected?
    ensures var reason := Check(c, number, claim, ctx).reason;
      && (reason == MalformedLine <==> c.MalformedCorrection?)
      && (reason == TargetNotEarlier <==> c.Correction? && c.target >= number)
      && (reason == TargetNotAClaim <==> c.Correction? && c.target < number && (claim.None? || !claim.value.Files?))
      && (reason == LabelMismatch <==> c.Correction? && c.target < number && claim.Some? && claim.value.Files? && claim.value.tag != c.tag)
      && (reason == NothingToCorrect <==>
            && c.Correction? && c.target < number && claim.Some? && claim.value.Files? && claim.value.tag == c.tag
            && forall u :: u in claim.value.units ==> u.Literal?)
      && (Reaches(c, number, claim) ==>
            EntriesExplained(reason, c.listed, c.retracted, CorrectionNeeds(claim.value.units, ctx), ctx))
  {
    if c.Correction? && claim.Some? && claim.value.Files? {
      var units := claim.value.units;
      CorrectableMembers(units);
      assert Correctable(units) != [] ==> Correctable(units)[0] in Correctable(units);
      if Reaches(c, number, claim) { EntriesAreExplained(c.listed, c.retracted, CorrectionNeeds(units, ctx), ctx); }
      EntriesReasons(c.listed, c.retracted, CorrectionNeeds(units, ctx), ctx);
    }
  }

  lemma {:induction false} ListedReasons(values: seq<string>, seen: set<string>, needs: Needs, ctx: Context)
    ensures ListedFault(values, seen, needs, ctx).Some? ==>
      ListedFault(values, seen, needs, ctx).value in {MalformedEntry, DuplicateEntry, NotACandidate}
    ensures RetractedFault(values, seen, needs, ctx).Some? ==>
      RetractedFault(values, seen, needs, ctx).value in {DuplicateEntry, NotACandidate}
  {
    if values != [] { ListedReasons(values[1..], seen + {values[0]}, needs, ctx); }
  }

  lemma EntriesReasons(listed: seq<string>, retracted: seq<string>, needs: Needs, ctx: Context)
    ensures var v := CheckEntries(listed, retracted, needs, ctx);
      v.Rejected? ==> v.reason in {Incomplete, MalformedEntry, DuplicateEntry, NotACandidate}
  {
    ListedReasons(listed, {}, needs, ctx);
    ListedReasons(retracted, Elements(listed), needs, ctx);
  }
}
