/** The rows of an audit: every claim of a log, and the corrections that apply to them. */
module LandingAudit {
  import opened Text
  import opened Corrections

  datatype Row =
    | NeedsListing
    | Graded(number: nat, tag: string, value: string)
    | Unlisted(number: nat, tag: string, value: string)
    | Manual(number: nat, tag: string, why: Why, value: string, complete: bool, paths: seq<string>)
    | VerifiedRow(number: nat)
    | WiredRow(number: nat, tag: string)
    | Taken(number: nat, tag: string, value: string)
    | Ignored(number: nat, reason: Reason)
    | Retracted(number: nat, tag: string, target: nat, value: string)

  datatype Why = GlobNone | GlobTooMany | InProse | AsPattern

  predicate IsClaim(l: Line) { l.Files? || l.Verified? || l.Wired? }
  predicate IsCorrection(l: Line) { l.Correction? || l.MalformedCorrection? }

  function PathValues(requirements: seq<Requirement>): seq<string>
  {
    if requirements == [] then []
    else (if requirements[0].Path? then [requirements[0].value] else []) + PathValues(requirements[1..])
  }

  function GradedAll(paths: seq<string>, number: nat, tag: string): seq<Row>
  {
    seq(|paths|, i requires 0 <= i < |paths| => Graded(number, tag, paths[i]))
  }

  function UnitRows(u: Unit, number: nat, tag: string, ctx: Context): seq<Row>
  {
    match u
    case Literal(value) => [Graded(number, tag, value)]
    case Pattern(value) => [Manual(number, tag, AsPattern, value, false, [])]
    case Prose(value) =>
      var paths := PathValues(ctx.prose(value).requirements);
      [Manual(number, tag, InProse, value, |paths| == |ctx.prose(value).requirements|, paths)]
    case Glob(value) =>
      match ctx.matches(value)
      case None => [Unlisted(number, tag, value)]
      case Some(paths) =>
        if paths == [] then [Manual(number, tag, GlobNone, value, false, [])]
        else if |paths| > GLOB_MATCH_BUDGET then [Manual(number, tag, GlobTooMany, value, false, [])]
        else GradedAll(paths, number, tag)
  }

  function ClaimUnitRows(units: seq<Unit>, number: nat, tag: string, corrected: bool, ctx: Context): seq<Row>
  {
    if units == [] then []
    else
      ClaimUnitRows(units[..|units| - 1], number, tag, corrected, ctx)
      + RowsOfUnit(units[|units| - 1], number, tag, corrected, ctx)
  }

  function RowsOfUnit(u: Unit, number: nat, tag: string, corrected: bool, ctx: Context): seq<Row>
  {
    if corrected && !u.Literal? then [Taken(number, tag, u.value)] else UnitRows(u, number, tag, ctx)
  }

  function RetractedAll(values: seq<string>, number: nat, tag: string, target: nat): seq<Row>
  {
    seq(|values|, i requires 0 <= i < |values| => Retracted(number, tag, target, values[i]))
  }

  // ----- Which corrections apply -----

  /** The line with this number, counted from 1. */
  function LineAt(lines: seq<Line>, number: nat): Line
  {
    if 1 <= number <= |lines| then lines[number - 1] else Other
  }

  function ClaimAt(lines: seq<Line>, number: nat): Option<Line>
  {
    if IsClaim(LineAt(lines, number)) then Some(LineAt(lines, number)) else None
  }

  /** The verdict on the correction in line `number` taken by itself. */
  function OwnVerdict(lines: seq<Line>, number: nat, ctx: Context): Verdict
    requires IsCorrection(LineAt(lines, number))
  {
    var c := LineAt(lines, number);
    Check(c, number, if c.Correction? then ClaimAt(lines, c.target) else None, ctx)
  }

  predicate Corrects(lines: seq<Line>, number: nat, target: nat, ctx: Context)
  {
    && LineAt(lines, number).Correction?
    && LineAt(lines, number).target == target
    && OwnVerdict(lines, number, ctx).Applied?
  }

  /** The last of the first `upto` lines that holds a valid correction of the claim in line `target`. */
  function LastCorrection(lines: seq<Line>, upto: nat, target: nat, ctx: Context): Option<nat>
    requires upto <= |lines|
  {
    if upto == 0 then None
    else if Corrects(lines, upto, target, ctx) then Some(upto)
    else LastCorrection(lines, upto - 1, target, ctx)
  }

  /** The verdict after the first `upto` lines: a valid correction gives way to a later one of the same claim. */
  function FinalVerdict(lines: seq<Line>, upto: nat, number: nat, ctx: Context): Verdict
    requires upto <= |lines| && IsCorrection(LineAt(lines, number))
  {
    var own := OwnVerdict(lines, number, ctx);
    if own.Applied? && LineAt(lines, number).Correction?
      && LastCorrection(lines, upto, LineAt(lines, number).target, ctx) != Some(number) then Rejected(Superseded)
    else own
  }

  // ----- All rows -----

  function LineRows(lines: seq<Line>, number: nat, ctx: Context): seq<Row>
  {
    match LineAt(lines, number)
    case Verified(_) => [VerifiedRow(number)]
    case Wired(tag) => [WiredRow(number, tag)]
    case Files(tag, units) => ClaimUnitRows(units, number, tag, LastCorrection(lines, |lines|, number, ctx).Some?, ctx)
    case Other => []
    case MalformedCorrection => VerdictRows(LineAt(lines, number), number, FinalVerdict(lines, |lines|, number, ctx))
    case Correction(_, _, _, _) => VerdictRows(LineAt(lines, number), number, FinalVerdict(lines, |lines|, number, ctx))
  }

  function VerdictRows(c: Line, number: nat, v: Verdict): seq<Row>
  {
    match v
    case Rejected(reason) => [Ignored(number, reason)]
    case Applied(listed, retracted) =>
      if c.Correction? then GradedAll(listed, number, c.tag) + RetractedAll(retracted, number, c.tag, c.target) else []
  }

  function RowsAt(lines: seq<Line>, ctx: Context): nat -> seq<Row>
  {
    (n: nat) => LineRows(lines, n, ctx)
  }

  function SumOf(at: nat -> seq<Row>, upto: nat): seq<Row>
  {
    if upto == 0 then [] else SumOf(at, upto - 1) + at(upto)
  }

  function RowsUpTo(lines: seq<Line>, upto: nat, ctx: Context): seq<Row>
  {
    SumOf(RowsAt(lines, ctx), upto)
  }

  predicate HasGlob(value: string) { '*' in value || '?' in value }

  predicate NeedsFiles(l: Line)
  {
    l.Files? && exists u :: u in l.units && (u.Glob? || (u.Prose? && HasGlob(u.value)))
  }

  function Audit(lines: seq<Line>, onDemand: bool, ctx: Context): seq<Row>
  {
    if ctx.listingMissing && onDemand && exists l :: l in lines && NeedsFiles(l) then [NeedsListing]
    else RowsUpTo(lines, |lines|, ctx)
  }

  // ----- ... step by step -----

  ghost predicate ReadLines(lines: seq<Line>, upto: nat, claims: map<int, Line>, corrections: map<int, Line>)
    requires upto <= |lines|
  {
    && (forall n: nat :: n in claims <==> n <= upto && IsClaim(LineAt(lines, n)))
    && (forall n: nat :: n in claims ==> claims[n] == LineAt(lines, n))
    && (forall n: nat :: n in corrections <==> n <= upto && IsCorrection(LineAt(lines, n)))
    && (forall n: nat :: n in corrections ==> corrections[n] == LineAt(lines, n))
  }

  ghost predicate Weighed(lines: seq<Line>, upto: nat, applied: map<int, int>, outcome: map<int, Verdict>, ctx: Context)
    requires upto <= |lines|
  {
    && (forall t: nat :: t in applied <==> LastCorrection(lines, upto, t, ctx).Some?)
    && (forall t: nat :: t in applied ==> LastCorrection(lines, upto, t, ctx) == Some(applied[t]))
    && (forall n: nat :: n in outcome <==> n <= upto && IsCorrection(LineAt(lines, n)))
    && (forall n: nat :: n in outcome ==> outcome[n] == FinalVerdict(lines, upto, n, ctx))
  }

  method ReadClaims(lines: seq<Line>) returns (claims: map<int, Line>, corrections: map<int, Line>)
    ensures ReadLines(lines, |lines|, claims, corrections)
  {
    claims, corrections := map[], map[];
    for i := 0 to |lines|
      invariant ReadLines(lines, i, claims, corrections)
    {
      if IsCorrection(lines[i]) {
        corrections := corrections[i + 1 := lines[i]];
      } else if IsClaim(lines[i]) {
        claims := claims[i + 1 := lines[i]];
      }
    }
  }

  lemma {:induction false} LastIsValid(lines: seq<Line>, upto: nat, target: nat, ctx: Context)
    requires upto <= |lines|
    ensures var last := LastCorrection(lines, upto, target, ctx);
      && (last.Some? ==> last.value <= upto && Corrects(lines, last.value, target, ctx))
      && forall n: nat :: n <= upto && Corrects(lines, n, target, ctx) ==> last.Some? && n <= last.value
  {
    if upto > 0 && !Corrects(lines, upto, target, ctx) { LastIsValid(lines, upto - 1, target, ctx); }
  }

  method WeighCorrections(lines: seq<Line>, claims: map<int, Line>, corrections: map<int, Line>, ctx: Context)
    returns (applied: map<int, int>, outcome: map<int, Verdict>)
    requires ReadLines(lines, |lines|, claims, corrections)
    ensures Weighed(lines, |lines|, applied, outcome, ctx)
  {
    applied, outcome := map[], map[];
    for i := 0 to |lines|
      invariant Weighed(lines, i, applied, outcome, ctx)
    {
      var number := i + 1;
      if number in corrections {
        var c := corrections[number];
        var claim := if c.Correction? && c.target in claims then Some(claims[c.target]) else None;
        var verdict := CheckCorrection(c, number, claim, ctx);
        var moreApplied, moreOutcome := applied, outcome;
        if verdict.Applied? && c.Correction? {
          if c.target in applied { moreOutcome := moreOutcome[applied[c.target] := Rejected(Superseded)]; }
          moreApplied := moreApplied[c.target := number];
        }
        moreOutcome := moreOutcome[number := verdict];
        WeighedStep(lines, i, c, verdict, applied, outcome, moreApplied, moreOutcome, ctx);
        applied, outcome := moreApplied, moreOutcome;
      } else {
        WeighedSkip(lines, i, applied, outcome, ctx);
      }
    }
  }

  lemma WeighedSkip(lines: seq<Line>, i: nat, applied: map<int, int>, outcome: map<int, Verdict>, ctx: Context)
    requires i < |lines| && !IsCorrection(LineAt(lines, i + 1)) && Weighed(lines, i, applied, outcome, ctx)
    ensures Weighed(lines, i + 1, applied, outcome, ctx)
  {
    forall t: nat ensures LastCorrection(lines, i + 1, t, ctx) == LastCorrection(lines, i, t, ctx) {
    }
  }

  lemma LastAfter(lines: seq<Line>, i: nat, c: Line, verdict: Verdict, t: nat, ctx: Context)
    requires i < |lines| && c == LineAt(lines, i + 1) && IsCorrection(c) && verdict == OwnVerdict(lines, i + 1, ctx)
    ensures LastCorrection(lines, i + 1, t, ctx) ==
      if verdict.Applied? && c.Correction? && c.target == t then Some(i + 1) else LastCorrection(lines, i, t, ctx)
  {
  }

  /** A new correction changes the verdict of the one it takes the place of, and no other. */
  lemma FinalAfter(lines: seq<Line>, i: nat, c: Line, verdict: Verdict, n: nat, ctx: Context)
    requires i < |lines| && c == LineAt(lines, i + 1) && IsCorrection(c) && verdict == OwnVerdict(lines, i + 1, ctx)
    requires n <= i && IsCorrection(LineAt(lines, n))
    ensures FinalVerdict(lines, i + 1, n, ctx) ==
      if verdict.Applied? && c.Correction? && LastCorrection(lines, i, c.target, ctx) == Some(n) then Rejected(Superseded)
      else FinalVerdict(lines, i, n, ctx)
  {
    var m := LineAt(lines, n);
    if m.Correction? {
      LastAfter(lines, i, c, verdict, m.target, ctx);
      LastIsValid(lines, i, m.target, ctx);
    }
    if c.Correction? { LastIsValid(lines, i, c.target, ctx); }
  }

  lemma WeighedStep(lines: seq<Line>, i: nat, c: Line, verdict: Verdict, applied: map<int, int>, outcome: map<int, Verdict>,
    moreApplied: map<int, int>, moreOutcome: map<int, Verdict>, ctx: Context)
    requires i < |lines| && c == LineAt(lines, i + 1) && IsCorrection(c) && Weighed(lines, i, applied, outcome, ctx)
    requires verdict == OwnVerdict(lines, i + 1, ctx)
    requires moreApplied == if verdict.Applied? && c.Correction? then applied[c.target := i + 1] else applied
    requires moreOutcome ==
      (if verdict.Applied? && c.Correction? && c.target in applied then outcome[applied[c.target] := Rejected(Superseded)] else outcome)
      [i + 1 := verdict]
    ensures Weighed(lines, i + 1, moreApplied, moreOutcome, ctx)
  {
    forall t: nat ensures LastCorrection(lines, i + 1, t, ctx) ==
      if verdict.Applied? && c.Correction? && c.target == t then Some(i + 1) else LastCorrection(lines, i, t, ctx)
    {
      LastAfter(lines, i, c, verdict, t, ctx);
    }
    if c.Correction? { LastIsValid(lines, i, c.target, ctx); }
    forall n: nat | n in moreOutcome ensures moreOutcome[n] == FinalVerdict(lines, i + 1, n, ctx) {
      if n <= i { FinalAfter(lines, i, c, verdict, n, ctx); }
    }
  }

  method ClaimRows(units: seq<Unit>, number: nat, tag: string, corrected: bool, ctx: Context) returns (rows: seq<Row>)
    ensures rows == ClaimUnitRows(units, number, tag, corrected, ctx)
  {
    rows := [];
    for i := 0 to |units|
      invariant rows == ClaimUnitRows(units[..i], number, tag, corrected, ctx)
    {
      assert units[..i + 1][..i] == units[..i];
      rows := rows + RowsOfUnit(units[i], number, tag, corrected, ctx);
    }
    assert units[..|units|] == units;
  }

  method AuditRows(lines: seq<Line>, onDemand: bool, ctx: Context) returns (rows: seq<Row>)
    ensures rows == Audit(lines, onDemand, ctx)
  {
    var claims, corrections := ReadClaims(lines);
    if ctx.listingMissing && onDemand {
      var needed := ListingNeeded(lines, claims, corrections);
      if needed { return [NeedsListing]; }
    }
    var applied, outcome := WeighCorrections(lines, claims, corrections, ctx);
    rows := RowsOfLines(lines, claims, corrections, applied, outcome, ctx);
  }

  method RowsOfLines(lines: seq<Line>, claims: map<int, Line>, corrections: map<int, Line>,
    applied: map<int, int>, outcome: map<int, Verdict>, ctx: Context) returns (rows: seq<Row>)
    requires ReadLines(lines, |lines|, claims, corrections) && Weighed(lines, |lines|, applied, outcome, ctx)
    ensures rows == RowsUpTo(lines, |lines|, ctx)
  {
    rows := [];
    for i := 0 to |lines|
      invariant rows == RowsUpTo(lines, i, ctx)
    {
      LineIsKnown(lines, i + 1, claims, corrections, applied, outcome, ctx);
      var more := RowsOfLine(lines, i + 1, claims, corrections, applied, outcome, ctx);
      rows := rows + more;
    }
  }

  method ListingNeeded(lines: seq<Line>, claims: map<int, Line>, corrections: map<int, Line>) returns (needed: bool)
    requires ReadLines(lines, |lines|, claims, corrections)
    ensures needed <==> exists l :: l in lines && NeedsFiles(l)
  {
    for i := 0 to |lines|
      invariant forall k :: 0 <= k < i ==> !NeedsFiles(lines[k])
    {
      assert LineAt(lines, i + 1) == lines[i];
      if i + 1 in claims && NeedsFiles(claims[i + 1]) { return true; }
    }
    return false;
  }

  /** What was read and weighed about one line. */
  ghost predicate Known(lines: seq<Line>, number: nat, claims: map<int, Line>, corrections: map<int, Line>,
    applied: map<int, int>, outcome: map<int, Verdict>, ctx: Context)
  {
    var l := LineAt(lines, number);
    && (number in claims <==> IsClaim(l)) && (number in claims ==> claims[number] == l)
    && (number in corrections <==> IsCorrection(l)) && (number in corrections ==> corrections[number] == l)
    && (number in applied <==> LastCorrection(lines, |lines|, number, ctx).Some?)
    && (IsCorrection(l) ==> number in outcome && outcome[number] == FinalVerdict(lines, |lines|, number, ctx))
  }

  lemma LineIsKnown(lines: seq<Line>, number: nat, claims: map<int, Line>, corrections: map<int, Line>,
    applied: map<int, int>, outcome: map<int, Verdict>, ctx: Context)
    requires number <= |lines|
    requires ReadLines(lines, |lines|, claims, corrections) && Weighed(lines, |lines|, applied, outcome, ctx)
    ensures Known(lines, number, claims, corrections, applied, outcome, ctx)
  {
  }

  method RowsOfLine(lines: seq<Line>, number: nat, claims: map<int, Line>, corrections: map<int, Line>,
    applied: map<int, int>, outcome: map<int, Verdict>, ctx: Context) returns (rows: seq<Row>)
    requires Known(lines, number, claims, corrections, applied, outcome, ctx)
    ensures rows == LineRows(lines, number, ctx)
  {
    rows := [];
    if number in claims {
      var claim := claims[number];
      if claim.Verified? { rows := [VerifiedRow(number)]; }
      else if claim.Wired? { rows := [WiredRow(number, claim.tag)]; }
      else if claim.Files? { rows := ClaimRows(claim.units, number, claim.tag, number in applied, ctx); }
    }
    if number in corrections { rows := rows + VerdictRows(corrections[number], number, outcome[number]); }
  }

  // ----- What the audit accounts for -----

  lemma {:induction false} LineRowsThere(lines: seq<Line>, upto: nat, number: nat, ctx: Context, row: Row)
    requires 1 <= number <= upto <= |lines| && row in LineRows(lines, number, ctx)
    ensures row in RowsUpTo(lines, upto, ctx)
  {
    InSum(row, RowsAt(lines, ctx), number, upto);
  }

  lemma {:induction false} InSum(row: Row, at: nat -> seq<Row>, n: nat, upto: nat)
    requires 1 <= n <= upto && row in at(n)
    ensures row in SumOf(at, upto)
  {
    if n < upto { InSum(row, at, n, upto - 1); }
  }

  /** The rows of a line are rows of the audit, unless the audit asks for a listing first. */
  lemma InAudit(lines: seq<Line>, onDemand: bool, ctx: Context, number: nat, row: Row, audit: seq<Row>)
    requires row in LineRows(lines, number, ctx) && audit == Audit(lines, onDemand, ctx) && audit != [NeedsListing]
    ensures row in audit
  {
    LineRowsThere(lines, |lines|, number, ctx, row);
  }

  lemma {:induction false} UnitRowsThere(units: seq<Unit>, k: nat, number: nat, tag: string, corrected: bool, ctx: Context, row: Row)
    requires k < |units| && row in RowsOfUnit(units[k], number, tag, corrected, ctx)
    ensures row in ClaimUnitRows(units, number, tag, corrected, ctx)
  {
    if k < |units| - 1 { UnitRowsThere(units[..|units| - 1], k, number, tag, corrected, ctx, row); }
  }

  predicate About(row: Row, number: nat, tag: string)
  {
    match row
    case Graded(n, t, _) => n == number && t == tag
    case Unlisted(n, t, _) => n == number && t == tag
    case Manual(n, t, _, _, _, _) => n == number && t == tag
    case Taken(n, t, _) => n == number && t == tag
    case _ => false
  }

  /** Every unit of every files claim is accounted for by a row of its own line. */
  lemma EveryUnitHasARow(lines: seq<Line>, onDemand: bool, ctx: Context, number: nat, k: nat, claim: Line, audit: seq<Row>)
    returns (row: Row)
    requires claim == LineAt(lines, number) && claim.Files? && k < |claim.units|
    requires audit == Audit(lines, onDemand, ctx) && audit != [NeedsListing]
    ensures row in audit && About(row, number, claim.tag)
    ensures row in RowsOfUnit(claim.units[k], number, claim.tag, LastCorrection(lines, |lines|, number, ctx).Some?, ctx)
  {
    var corrected := LastCorrection(lines, |lines|, number, ctx).Some?;
    row := RowsOfUnit(claim.units[k], number, claim.tag, corrected, ctx)[0];
    UnitRowsThere(claim.units, k, number, claim.tag, corrected, ctx, row);
    InAudit(lines, onDemand, ctx, number, row, audit);
  }

  /** Of all valid corrections of one claim exactly the last one keeps its verdict. */
  lemma LastCorrectionWins(lines: seq<Line>, number: nat, c: Line, ctx: Context)
    requires c == LineAt(lines, number) && c.Correction?
    ensures FinalVerdict(lines, |lines|, number, ctx).Applied? <==>
      Corrects(lines, number, c.target, ctx) && forall later: nat :: number < later ==> !Corrects(lines, later, c.target, ctx)
  {
    var corrects := (n: nat) => Corrects(lines, n, c.target, ctx);
    LastIsValid(lines, |lines|, c.target, ctx);
    assert forall n: nat :: corrects(n) == Corrects(lines, n, c.target, ctx);
    LastIsNumber(LastCorrection(lines, |lines|, c.target, ctx), number, corrects, |lines|);
  }

  lemma LastIsNumber(last: Option<nat>, number: nat, corrects: nat -> bool, upto: nat)
    requires last.Some? ==> last.value <= upto && corrects(last.value)
    requires forall n: nat :: n <= upto && corrects(n) ==> last.Some? && n <= last.value
    requires forall n: nat :: n > upto ==> !corrects(n)
    ensures last == Some(number) <==> corrects(number) && forall later: nat :: number < later ==> !corrects(later)
  {
  }

  /** A correction that applies follows its claim and accounts for what that claim needs. */
  lemma AppliedCorrection(lines: seq<Line>, number: nat, c: Line, ctx: Context)
    requires c == LineAt(lines, number) && c.Correction? && FinalVerdict(lines, |lines|, number, ctx).Applied?
    ensures var claim := LineAt(lines, c.target);
      c.target < number && claim.Files? && claim.tag == c.tag && Accounts(c.listed, c.retracted, claim.units, ctx)
    ensures LineRows(lines, number, ctx) == GradedAll(c.listed, number, c.tag) + RetractedAll(c.retracted, number, c.tag, c.target)
    ensures LastCorrection(lines, |lines|, c.target, ctx) == Some(number)
  {
    AppliesIff(c, number, ClaimAt(lines, c.target), ctx);
  }

  /** An applied correction has a row for everything it lists and retracts. */
  lemma CorrectionRows(lines: seq<Line>, onDemand: bool, ctx: Context, number: nat, c: Line, audit: seq<Row>)
    requires c == LineAt(lines, number) && c.Correction? && FinalVerdict(lines, |lines|, number, ctx).Applied?
    requires audit == Audit(lines, onDemand, ctx) && audit != [NeedsListing]
    ensures forall v :: v in c.listed ==> Graded(number, c.tag, v) in audit
    ensures forall v :: v in c.retracted ==> Retracted(number, c.tag, c.target, v) in audit
  {
    AppliedCorrection(lines, number, c, ctx);
    var graded, retracted := GradedAll(c.listed, number, c.tag), RetractedAll(c.retracted, number, c.tag, c.target);
    forall v | v in c.listed ensures Graded(number, c.tag, v) in audit {
      var i :| 0 <= i < |c.listed| && c.listed[i] == v;
      assert graded[i] == Graded(number, c.tag, v);
      InAudit(lines, onDemand, ctx, number, graded[i], audit);
    }
    forall v | v in c.retracted ensures Retracted(number, c.tag, c.target, v) in audit {
      var i :| 0 <= i < |c.retracted| && c.retracted[i] == v;
      assert retracted[i] == Retracted(number, c.tag, c.target, v);
      InAudit(lines, onDemand, ctx, number, retracted[i], audit);
    }
  }

  /** It takes over every unit of its claim that is not a plain path. */
  lemma CorrectedUnitsAreTaken(lines: seq<Line>, onDemand: bool, ctx: Context, number: nat, c: Line, u: Unit, audit: seq<Row>)
    requires c == LineAt(lines, number) && c.Correction? && FinalVerdict(lines, |lines|, number, ctx).Applied?
    requires audit == Audit(lines, onDemand, ctx) && audit != [NeedsListing]
    requires !u.Literal? && LineAt(lines, c.target).Files? && u in LineAt(lines, c.target).units
    ensures Taken(c.target, c.tag, u.value) in audit
  {
    AppliedCorrection(lines, number, c, ctx);
    var claim := LineAt(lines, c.target);
    var k :| 0 <= k < |claim.units| && claim.units[k] == u;
    var row := Taken(c.target, c.tag, u.value);
    assert RowsOfUnit(u, c.target, c.tag, true, ctx) == [row];
    UnitRowsThere(claim.units, k, c.target, c.tag, true, ctx, row);
    InAudit(lines, onDemand, ctx, c.target, row, audit);
  }

  /** Every path that a correctable unit of a corrected claim requires is listed or retracted by the correction, never both. */
  lemma RequiredPathIsListedOrRetracted(
    lines: seq<Line>, onDemand: bool, ctx: Context, number: nat, c: Line, u: Unit, path: string, audit: seq<Row>)
    requires c == LineAt(lines, number) && c.Correction? && FinalVerdict(lines, |lines|, number, ctx).Applied?
    requires audit == Audit(lines, onDemand, ctx) && audit != [NeedsListing]
    requires !u.Literal? && LineAt(lines, c.target).Files? && u in LineAt(lines, c.target).units
    requires Path(path) in UnitNeeds(u, ctx).requirements
    ensures (path in c.listed) != (path in c.retracted)
    ensures Graded(number, c.tag, path) in audit || Retracted(number, c.tag, c.target, path) in audit
  {
    AppliedCorrection(lines, number, c, ctx);
    CorrectionRows(lines, onDemand, ctx, number, c, audit);
    assert RequiredBy(Path(path), LineAt(lines, c.target).units, ctx);
    assert Covered(Path(path), Elements(c.listed), Elements(c.retracted), ctx);
  }

  /** Every path an applied correction lists was a candidate of its claim. */
  lemma ListedPathIsACandidate(lines: seq<Line>, ctx: Context, number: nat, c: Line, path: string)
    requires c == LineAt(lines, number) && c.Correction? && FinalVerdict(lines, |lines|, number, ctx).Applied? && path in c.listed
    ensures LineAt(lines, c.target).Files?
    ensures var units := LineAt(lines, c.target).units; RequiredBy(Path(path), units, ctx) || AcceptedBy(path, units, ctx)
  {
    AppliedCorrection(lines, number, c, ctx);
  }

  // ----- Exactly which rows there are -----

  /** The row that this unit of this line has to give, when no correction takes the unit over. */
  ghost predicate UnitDue(row: Row, u: Unit, number: nat, tag: string, ctx: Context)
  {
    match row
    case Graded(n, t, path) =>
      n == number && t == tag
      && (u == Literal(path)
          || (u.Glob? && ctx.matches(u.value).Some? && |ctx.matches(u.value).value| <= GLOB_MATCH_BUDGET && path in ctx.matches(u.value).value))
    case Unlisted(n, t, value) => n == number && t == tag && u == Glob(value) && ctx.matches(value).None?
    case Manual(n, t, GlobNone, value, complete, paths) =>
      n == number && t == tag && u == Glob(value) && ctx.matches(value) == Some([]) && !complete && paths == []
    case Manual(n, t, GlobTooMany, value, complete, paths) =>
      n == number && t == tag && u == Glob(value) && ctx.matches(value).Some? && |ctx.matches(value).value| > GLOB_MATCH_BUDGET
      && !complete && paths == []
    case Manual(n, t, InProse, value, complete, paths) =>
      n == number && t == tag && u == Prose(value) && paths == PathValues(ctx.prose(value).requirements)
      && (complete <==> forall r :: r in ctx.prose(value).requirements ==> r.Path?)
    case Manual(n, t, AsPattern, value, complete, paths) => n == number && t == tag && u == Pattern(value) && !complete && paths == []
    case _ => false
  }

  /** The row that some line has to give. */
  ghost predicate Due(row: Row, lines: seq<Line>, ctx: Context)
  {
    match row
    case NeedsListing => false
    case VerifiedRow(n) => LineAt(lines, n).Verified?
    case WiredRow(n, tag) => LineAt(lines, n) == Wired(tag)
    case Taken(n, tag, value) =>
      var claim := LineAt(lines, n);
      claim.Files? && claim.tag == tag && LastCorrection(lines, |lines|, n, ctx).Some?
      && exists u :: u in claim.units && !u.Literal? && u.value == value
    case Ignored(n, reason) => IsCorrection(LineAt(lines, n)) && FinalVerdict(lines, |lines|, n, ctx) == Rejected(reason)
    case Retracted(n, tag, target, value) =>
      var c := LineAt(lines, n);
      c.Correction? && c.tag == tag && c.target == target && FinalVerdict(lines, |lines|, n, ctx).Applied? && value in c.retracted
    case Graded(n, tag, path) =>
      UnitOfLineDue(row, n, tag, lines, ctx)
      || var c := LineAt(lines, n); c.Correction? && c.tag == tag && FinalVerdict(lines, |lines|, n, ctx).Applied? && path in c.listed
    case Unlisted(n, tag, _) => UnitOfLineDue(row, n, tag, lines, ctx)
    case Manual(n, tag, _, _, _, _) => UnitOfLineDue(row, n, tag, lines, ctx)
  }

  ghost predicate UnitOfLineDue(row: Row, number: nat, tag: string, lines: seq<Line>, ctx: Context)
  {
    var claim := LineAt(lines, number);
    claim.Files? && claim.tag == tag
    && exists u :: u in claim.units && (u.Literal? || LastCorrection(lines, |lines|, number, ctx).None?) && UnitDue(row, u, number, tag, ctx)
  }

  lemma {:induction false} AllPaths(requirements: seq<Requirement>)
    ensures |PathValues(requirements)| <= |requirements|
    ensures |PathValues(requirements)| == |requirements| <==> forall r :: r in requirements ==> r.Path?
  {
    if requirements != [] {
      AllPaths(requirements[1..]);
      assert forall r :: r in requirements <==> r == requirements[0] || r in requirements[1..];
    }
  }

  lemma GradedIn(paths: seq<string>, number: nat, tag: string, row: Row)
    ensures row in GradedAll(paths, number, tag) <==> row.Graded? && row.number == number && row.tag == tag && row.value in paths
  {
    var rows := GradedAll(paths, number, tag);
    if row.Graded? && row.number == number && row.tag == tag && row.value in paths {
      var i :| 0 <= i < |paths| && paths[i] == row.value;
      assert rows[i] == row;
    }
  }

  lemma RetractedIn(values: seq<string>, number: nat, tag: string, target: nat, row: Row)
    ensures row in RetractedAll(values, number, tag, target) <==>
      row.Retracted? && row.number == number && row.tag == tag && row.target == target && row.value in values
  {
    var rows := RetractedAll(values, number, tag, target);
    if row.Retracted? && row.number == number && row.tag == tag && row.target == target && row.value in values {
      var i :| 0 <= i < |values| && values[i] == row.value;
      assert rows[i] == row;
    }
  }

  lemma UnitRowsAreDue(row: Row, u: Unit, number: nat, tag: string, ctx: Context)
    ensures row in UnitRows(u, number, tag, ctx) <==> UnitDue(row, u, number, tag, ctx)
  {
    match u {
      case Literal(_) =>
      case Pattern(_) =>
      case Prose(value) => AllPaths(ctx.prose(value).requirements);
      case Glob(value) => if ctx.matches(value).Some? { GradedIn(ctx.matches(value).value, number, tag, row); }
    }
  }

  lemma {:induction false} ClaimRowIn(units: seq<Unit>, number: nat, tag: string, corrected: bool, ctx: Context, row: Row)
    ensures row in ClaimUnitRows(units, number, tag, corrected, ctx) <==>
      exists u :: u in units && row in RowsOfUnit(u, number, tag, corrected, ctx)
  {
    if units != [] {
      var n := |units| - 1;
      var rest, last := units[..n], units[n];
      ClaimRowIn(rest, number, tag, corrected, ctx, row);
      assert forall u :: u in units <==> u == last || u in rest;
    }
  }

  lemma FilesRowIn(lines: seq<Line>, number: nat, ctx: Context, row: Row)
    requires LineAt(lines, number).Files?
    ensures row in LineRows(lines, number, ctx) <==>
      || (row.Taken? && row.number == number && Due(row, lines, ctx))
      || UnitOfLineDue(row, number, LineAt(lines, number).tag, lines, ctx)
  {
    var claim, corrected := LineAt(lines, number), LastCorrection(lines, |lines|, number, ctx).Some?;
    ClaimRowIn(claim.units, number, claim.tag, corrected, ctx, row);
    forall u ensures row in UnitRows(u, number, claim.tag, ctx) <==> UnitDue(row, u, number, claim.tag, ctx) {
      UnitRowsAreDue(row, u, number, claim.tag, ctx);
    }
  }

  lemma VerdictRowIn(lines: seq<Line>, number: nat, ctx: Context, row: Row)
    requires IsCorrection(LineAt(lines, number))
    ensures row in LineRows(lines, number, ctx) <==>
      var c, v := LineAt(lines, number), FinalVerdict(lines, |lines|, number, ctx);
      || (v.Rejected? && row == Ignored(number, v.reason))
      || (v.Applied? && c.Correction? && row.Graded? && row.number == number && row.tag == c.tag && row.value in c.listed)
      || (v.Applied? && c.Correction? && row.Retracted? && row.number == number && row.tag == c.tag && row.target == c.target && row.value in c.retracted)
  {
    var c := LineAt(lines, number);
    if c.Correction? {
      AppliesIff(c, number, ClaimAt(lines, c.target), ctx);
      GradedIn(c.listed, number, c.tag, row);
      RetractedIn(c.retracted, number, c.tag, c.target, row);
    }
  }

  lemma UnitRowNumber(row: Row, number: nat, tag: string, lines: seq<Line>, ctx: Context)
    requires UnitOfLineDue(row, number, tag, lines, ctx)
    ensures (row.Graded? || row.Unlisted? || row.Manual?) && row.number == number && row.tag == tag
  {
  }

  lemma LineRowIsDue(lines: seq<Line>, number: nat, ctx: Context, row: Row)
    ensures row in LineRows(lines, number, ctx) <==> !row.NeedsListing? && row.number == number && Due(row, lines, ctx)
  {
    var l := LineAt(lines, number);
    if l.Files? {
      FilesRowIn(lines, number, ctx, row);
      if UnitOfLineDue(row, number, l.tag, lines, ctx) { UnitRowNumber(row, number, l.tag, lines, ctx); }
    } else if IsCorrection(l) {
      VerdictRowIn(lines, number, ctx, row);
    }
  }

  lemma {:induction false} InSumOf(row: Row, at: nat -> seq<Row>, upto: nat)
    ensures row in SumOf(at, upto) <==> exists n: nat :: 1 <= n <= upto && row in at(n)
  {
    if upto > 0 { InSumOf(row, at, upto - 1); }
  }

  /** An audit that does not ask for a listing first has exactly the rows that its lines have to give. */
  lemma RowsAreDue(lines: seq<Line>, onDemand: bool, ctx: Context, row: Row)
    requires Audit(lines, onDemand, ctx) != [NeedsListing]
    ensures row in Audit(lines, onDemand, ctx) <==> Due(row, lines, ctx)
  {
    var at := RowsAt(lines, ctx);
    InSumOf(row, at, |lines|);
    forall n: nat ensures row in at(n) <==> !row.NeedsListing? && row.number == n && Due(row, lines, ctx) { LineRowIsDue(lines, n, ctx, row); }
    if Due(row, lines, ctx) { assert 1 <= row.number <= |lines| && row in at(row.number); }
  }

  /** The rows come in the order of their lines. */
  predicate InLineOrder(rows: seq<Row>, last: nat)
  {
    && (forall i :: 0 <= i < |rows| ==> !rows[i].NeedsListing? && rows[i].number <= last)
    && forall i, j :: 0 <= i < j < |rows| ==> rows[i].number <= rows[j].number
  }

  lemma {:induction false} SumInLineOrder(at: nat -> seq<Row>, upto: nat)
    requires forall n: nat, row :: row in at(n) ==> !row.NeedsListing? && row.number == n
    ensures InLineOrder(SumOf(at, upto), upto)
  {
    if upto > 0 {
      SumInLineOrder(at, upto - 1);
      var rows := at(upto);
      assert forall i :: 0 <= i < |rows| ==> rows[i] in rows;
    }
  }

  /**
   An audit asks for a listing, and gives no other row, exactly when it was to be read on demand, is missing, and some
   files claim names a pattern; otherwise its rows come in the order of the lines.
   */
  lemma AsksForListingIff(lines: seq<Line>, onDemand: bool, ctx: Context)
    ensures NeedsListing in Audit(lines, onDemand, ctx) <==>
      onDemand && ctx.listingMissing && exists k, u :: 0 <= k < |lines| && lines[k].Files? && u in lines[k].units && Listable(u)
    ensures NeedsListing in Audit(lines, onDemand, ctx) ==> Audit(lines, onDemand, ctx) == [NeedsListing]
    ensures NeedsListing !in Audit(lines, onDemand, ctx) ==> InLineOrder(Audit(lines, onDemand, ctx), |lines|)
  {
    var at := RowsAt(lines, ctx);
    forall n: nat, row | row in at(n) ensures !row.NeedsListing? && row.number == n { LineRowIsDue(lines, n, ctx, row); }
    SumInLineOrder(at, |lines|);
    assert forall i :: 0 <= i < |SumOf(at, |lines|)| ==> SumOf(at, |lines|)[i] != NeedsListing;
    if l :| l in lines && NeedsFiles(l) {
      var u :| u in l.units && Listable(u);
      var k :| 0 <= k < |lines| && lines[k] == l;
      assert lines[k].Files? && u in lines[k].units && Listable(u);
    }
    if k, u :| 0 <= k < |lines| && lines[k].Files? && u in lines[k].units && Listable(u) { assert NeedsFiles(lines[k]); }
  }

  /** A unit that only a listing of files can resolve. */
  predicate Listable(u: Unit)
  {
    u.Glob? || (u.Prose? && exists c :: c in u.value && (c == '*' || c == '?'))
  }
}
