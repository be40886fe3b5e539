/** The scope of an edit-landing audit: what it inherits from the previous one, and what it passes on. */
module AuditScope {
  import opened Text
  import opened LogPrefix

  datatype Snapshot = Snapshot(present: bool, digest: string)

  /** A claimed file in a step of the log, as written and as a path; certified when an audit saw it landed. */
  datatype Claim = Claim(step: string, raw: string, path: Option<string>, certified: bool)

  datatype Scope = Scope(
    root: string,
    claimRoot: Option<string>,
    log: string,
    session: string,
    baseline: string,
    epoch: string,
    dirty: set<string>,
    prefix: Prefix,
    claims: seq<Claim>,
    snapshots: map<string, Snapshot>,
    observed: set<string>)

  /** What an audit finds in place of its receipt. */
  datatype Receipt =
    | Absent
    | Unreadable                 // not a readable regular file with JSON in it
    | Foreign                    // JSON of no known receipt schema
    | Legacy(unresolved: bool)   // a receipt from before scopes, and whether it left anything open
    | Strange                    // a scope of no known schema
    | Scoped(scope: Scope)

  /** The files that were dirty before the session, if they were passed in a file that can be read. */
  datatype DirtyBefore = NotGiven | NoFile | Listed(lines: seq<string>)

  datatype Options = Options(
    root: string,
    claimRoot: string,
    log: string,
    content: Bytes,
    session: string,
    baseline: Option<string>,
    epoch: Option<string>,
    dirtyBefore: DirtyBefore,
    gitFault: bool)

  datatype Fault =
    | ReceiptUnreadable | NotAReceipt | UnknownScope | OtherOwner | OtherLog | LogRewritten | LogShort
    | BaselineChanged | EpochChanged | DirtyUnreadable | DirtyOutside

  /** A scope being prepared; until claims are read it carries those of the scope it continues. */
  datatype Draft = Draft(scope: Scope, previous: Option<Scope>, legacyUnresolved: bool, rerootedFrom: Option<string>)

  datatype Outcome = Ready(draft: Draft) | Failed(fault: Fault)

  // ----- Preparing a scope -----

  function Inherited(persisted: string, supplied: Option<string>): Option<string>
  {
    if supplied.None? then Some(persisted)
    else if persisted != "" && supplied.value != persisted then None
    else supplied
  }

  function Previous(receipt: Receipt): Option<Scope>
  {
    if receipt.Scoped? then Some(receipt.scope) else None
  }

  function Names(lines: seq<string>): set<string>
  {
    set line | line in lines && line != "" :: line
  }

  lemma NamesSnoc(lines: seq<string>, line: string)
    ensures Names(lines + [line]) == Names(lines) + if line != "" then {line} else {}
  {
    var more := lines + [line];
    assert forall x :: x in more <==> x in lines || x == line;
    assert forall x :: x in Names(more) <==> x in more && x != "";
    assert forall x :: x in Names(lines) <==> x in lines && x != "";
  }

  /** A normalized path below the project, and not inside its git directory. */
  predicate RelativeFile(v: string)
  {
    && v != "" && |v| <= 4096
    && (forall i :: 0 <= i < |v| ==> v[i] >= ' ' && v[i] != '\U{7f}' && v[i] != '\\')
    && forall part :: part in Split(v, '/') ==> part !in {"", ".", "..", ".git"}
  }

  predicate Usable(line: string) { line == "" || RelativeFile(line) }

  /** The fault of the dirty files passed in, if they have one. */
  function DirtyFault(dirty: DirtyBefore): Option<Fault>
  {
    match dirty
    case NotGiven => None
    case NoFile => Some(DirtyUnreadable)
    case Listed(lines) => if exists line :: line in lines && !Usable(line) then Some(DirtyOutside) else None
  }

  /** The root that the claims of a scope are relative to; an empty one is the root of the project. */
  function ClaimRootOf(scope: Scope): Option<string>
  {
    if scope.claimRoot == Some("") then Some(scope.root) else scope.claimRoot
  }

  function Rerooted(o: Options, previous: Option<Scope>): Option<string>
  {
    if !o.gitFault && previous.Some? && ClaimRootOf(previous.value).Some? && ClaimRootOf(previous.value).value != o.claimRoot
    then ClaimRootOf(previous.value) else None
  }

  function ReceiptFault(receipt: Receipt): Option<Fault>
  {
    match receipt
    case Unreadable => Some(ReceiptUnreadable)
    case Foreign => Some(NotAReceipt)
    case Strange => Some(UnknownScope)
    case _ => None
  }

  function Prepared(o: Options, receipt: Receipt, hash: Hash): Outcome
  {
    var previous := Previous(receipt);
    var none := Scope("", None, "", "", "", "", {}, Prefix(0, ""), [], map[], {});
    var before := if previous.Some? then previous.value else none;
    var rerooted := Rerooted(o, previous);
    var kept := if rerooted.Some? then None else previous;
    var base := if kept.Some? then kept.value else none;
    if ReceiptFault(receipt).Some? then Failed(ReceiptFault(receipt).value)
    else if previous.Some? && (before.session != o.session || before.root != o.root) then Failed(OtherOwner)
    else if previous.Some? && before.log != o.log then Failed(OtherLog)
    else if !Extends(o.content, if previous.Some? then Some(before.prefix) else None, hash) then Failed(LogRewritten)
    else if Inherited(before.baseline, o.baseline).None? then Failed(BaselineChanged)
    else if Inherited(before.epoch, o.epoch).None? then Failed(EpochChanged)
    else if DirtyFault(o.dirtyBefore).Some? then Failed(DirtyFault(o.dirtyBefore).value)
    else
      Ready(Draft(
        Scope(o.root,
          if o.gitFault then (if kept.Some? then ClaimRootOf(kept.value) else None) else Some(o.claimRoot),
          o.log, o.session, Inherited(before.baseline, o.baseline).value, Inherited(before.epoch, o.epoch).value,
          base.dirty + (if o.dirtyBefore.Listed? then Names(o.dirtyBefore.lines) else {}),
          Recorded(o.content, hash), base.claims, base.snapshots, base.observed),
        kept, receipt.Legacy? && receipt.unresolved, rerooted))
  }

  method PrepareScope(o: Options, receipt: Receipt, hash: Hash, got: Reads) returns (r: Outcome)
    requires ReadsAtMost(got)
    ensures ReadsOn(got) ==> r == Prepared(o, receipt, hash)
    ensures r == Prepared(o, receipt, hash) || r == Failed(LogShort)
  {
    if receipt.Unreadable? { return Failed(ReceiptUnreadable); }
    if receipt.Foreign? { return Failed(NotAReceipt); }
    if receipt.Strange? { return Failed(UnknownScope); }
    var previous := Previous(receipt);
    if previous.Some? {
      if previous.value.session != o.session || previous.value.root != o.root { return Failed(OtherOwner); }
      if previous.value.log != o.log { return Failed(OtherLog); }
    }
    var read := ReadPrefix(o.content, if previous.Some? then Some(previous.value.prefix) else None, hash, got);
    if read.Rewritten? { return Failed(LogRewritten); }
    if read.ShortRead? { return Failed(LogShort); }
    var baseline := Inherited(if previous.Some? then previous.value.baseline else "", o.baseline);
    if baseline.None? { return Failed(BaselineChanged); }
    var epoch := Inherited(if previous.Some? then previous.value.epoch else "", o.epoch);
    if epoch.None? { return Failed(EpochChanged); }
    var rerooted := Rerooted(o, previous);
    if rerooted.Some? { previous := None; }
    var dirty := if previous.Some? then previous.value.dirty else {};
    if o.dirtyBefore.NoFile? { return Failed(DirtyUnreadable); }
    if o.dirtyBefore.Listed? {
      var names, ok := ReadDirty(o.dirtyBefore.lines);
      if !ok { return Failed(DirtyOutside); }
      dirty := dirty + names;
    }
    var scope := Scope(o.root, if o.gitFault then (if previous.Some? then ClaimRootOf(previous.value) else None) else Some(o.claimRoot),
      o.log, o.session, baseline.value, epoch.value, dirty, read.prefix,
      if previous.Some? then previous.value.claims else [],
      if previous.Some? then previous.value.snapshots else map[],
      if previous.Some? then previous.value.observed else {});
    return Ready(Draft(scope, previous, receipt.Legacy? && receipt.unresolved, rerooted));
  }

  /** The names in the lines, unless one of them leads outside the project. */
  method ReadDirty(lines: seq<string>) returns (names: set<string>, ok: bool)
    ensures ok <==> forall line :: line in lines ==> Usable(line)
    ensures ok ==> names == Names(lines)
  {
    names, ok := {}, true;
    ghost var done: seq<string> := [];
    for i := 0 to |lines|
      invariant done == lines[..i] && names == Names(done)
      invariant forall line :: line in done ==> Usable(line)
    {
      TakeSnoc(lines, i);
      NamesSnoc(done, lines[i]);
      if lines[i] != "" {
        if !RelativeFile(lines[i]) { assert lines[i] in lines; return names, false; }
        names := names + {lines[i]};
      }
      done := done + [lines[i]];
    }
    assert done == lines;
  }

  // ----- Matching claims with those of the previous audit -----

  type Key = (string, string)

  function KeyOf(c: Claim): Key
  {
    (c.step, c.raw)
  }

  /** How many of the first `i` claims have the same step and text as claim `i`. */
  function Rank(claims: seq<Claim>, i: nat, key: Key): nat
    requires i <= |claims|
  {
    if i == 0 then 0 else Rank(claims, i - 1, key) + if KeyOf(claims[i - 1]) == key then 1 else 0
  }

  /** Where the previous claims have this step and text, in order. */
  function Places(claims: seq<Claim>, upto: nat, key: Key): seq<nat>
    requires upto <= |claims|
  {
    if upto == 0 then []
    else Places(claims, upto - 1, key) + if KeyOf(claims[upto - 1]) == key then [upto - 1] else []
  }

  /** The previous claim that claim `i` continues: the one with as many equal ones before it. */
  function Prior(previous: seq<Claim>, claims: seq<Claim>, i: nat): Option<nat>
    requires i < |claims|
  {
    var places := Places(previous, |previous|, KeyOf(claims[i]));
    var rank := Rank(claims, i, KeyOf(claims[i]));
    if rank < |places| then Some(places[rank]) else None
  }

  ghost predicate Queued(previous: seq<Claim>, upto: nat, queues: map<Key, seq<nat>>)
    requires upto <= |previous|
  {
    forall key: Key :: Places(previous, upto, key) == if key in queues then queues[key] else []
  }

  /** What is left in a queue after `used` claims have taken from it. */
  function Drop(places: seq<nat>, used: nat): seq<nat>
  {
    if used <= |places| then places[used..] else []
  }

  method QueuePlaces(previous: seq<Claim>) returns (queues: map<Key, seq<nat>>)
    ensures Queued(previous, |previous|, queues)
  {
    queues := map[];
    for i := 0 to |previous|
      invariant Queued(previous, i, queues)
    {
      var key := KeyOf(previous[i]);
      var place: seq<nat> := [i];
      var more := queues[key := (if key in queues then queues[key] else []) + place];
      QueuedStep(previous, i, key, queues, more);
      queues := more;
    }
  }

  lemma QueuedStep(previous: seq<Claim>, i: nat, key: Key, queues: map<Key, seq<nat>>, more: map<Key, seq<nat>>)
    requires i < |previous| && Queued(previous, i, queues) && key == KeyOf(previous[i])
    requires more == queues[key := (if key in queues then queues[key] else []) + [i]]
    ensures Queued(previous, i + 1, more)
  {
    forall k: Key ensures Places(previous, i + 1, k) == Places(previous, i, k) + if k == key then [i] else [] {
    }
  }

  lemma DropStep(places: seq<nat>, used: nat)
    ensures Drop(places, used) != [] <==> used < |places|
    ensures used < |places| ==> Drop(places, used)[0] == places[used] && Drop(places, used)[1..] == Drop(places, used + 1)
    ensures used >= |places| ==> Drop(places, used + 1) == Drop(places, used)
  {
  }

  /** The queues after the first `i` claims have taken their priors. */
  ghost predicate Unused(previous: seq<Claim>, claims: seq<Claim>, i: nat, queues: map<Key, seq<nat>>)
    requires i <= |claims|
  {
    forall key: Key ::
      Drop(Places(previous, |previous|, key), Rank(claims, i, key)) == if key in queues then queues[key] else []
  }

  lemma UnusedStart(previous: seq<Claim>, claims: seq<Claim>, queues: map<Key, seq<nat>>)
    requires Queued(previous, |previous|, queues)
    ensures Unused(previous, claims, 0, queues)
  {
    forall key: Key ensures Drop(Places(previous, |previous|, key), Rank(claims, 0, key)) == Places(previous, |previous|, key) {
    }
  }

  lemma UnusedStep(previous: seq<Claim>, claims: seq<Claim>, i: nat, queues: map<Key, seq<nat>>, key: Key, queue: seq<nat>,
    left: map<Key, seq<nat>>)
    requires i < |claims| && Unused(previous, claims, i, queues) && key == KeyOf(claims[i])
    requires queue == if key in queues then queues[key] else []
    requires left == if queue != [] then queues[key := queue[1..]] else queues
    ensures Unused(previous, claims, i + 1, left)
    ensures Prior(previous, claims, i) == if queue != [] then Some(queue[0]) else None
  {
    DropStep(Places(previous, |previous|, key), Rank(claims, i, key));
    forall k: Key ensures Rank(claims, i + 1, k) == Rank(claims, i, k) + if k == key then 1 else 0 {
    }
  }

  function AllPriors(previous: seq<Claim>, claims: seq<Claim>, upto: nat): seq<Option<nat>>
    requires upto <= |claims|
  {
    if upto == 0 then [] else AllPriors(previous, claims, upto - 1) + [Prior(previous, claims, upto - 1)]
  }

  lemma {:induction false} PriorAt(previous: seq<Claim>, claims: seq<Claim>, upto: nat, i: nat)
    requires i < upto <= |claims|
    ensures |AllPriors(previous, claims, upto)| == upto
    ensures AllPriors(previous, claims, upto)[i] == Prior(previous, claims, i)
  {
    if upto > 1 { PriorAt(previous, claims, upto - 1, if i < upto - 1 then i else 0); }
  }

  method PriorClaims(previous: seq<Claim>, claims: seq<Claim>) returns (priors: seq<Option<nat>>)
    ensures priors == AllPriors(previous, claims, |claims|)
  {
    var unused := QueuePlaces(previous);
    UnusedStart(previous, claims, unused);
    priors := [];
    for i := 0 to |claims|
      invariant priors == AllPriors(previous, claims, i)
      invariant Unused(previous, claims, i, unused)
    {
      var prior, left := TakePrior(previous, claims, i, unused);
      priors := priors + [prior];
      unused := left;
    }
  }

  /** Takes the first place from the queue of claim `i`. */
  method TakePrior(previous: seq<Claim>, claims: seq<Claim>, i: nat, queues: map<Key, seq<nat>>)
    returns (prior: Option<nat>, left: map<Key, seq<nat>>)
    requires i < |claims| && Unused(previous, claims, i, queues)
    ensures prior == Prior(previous, claims, i) && Unused(previous, claims, i + 1, left)
  {
    var key := KeyOf(claims[i]);
    var queue := if key in queues then queues[key] else [];
    left := if queue != [] then queues[key := queue[1..]] else queues;
    UnusedStep(previous, claims, i, queues, key, queue, left);
    prior := if queue != [] then Some(queue[0]) else None;
  }

  // ----- A claim continues the right one -----

  lemma {:induction false} PlacesAre(claims: seq<Claim>, upto: nat, key: Key)
    requires upto <= |claims|
    ensures var places := Places(claims, upto, key);
      && |places| == Rank(claims, upto, key)
      && (forall k :: 0 <= k < |places| ==> places[k] < upto && KeyOf(claims[places[k]]) == key && Rank(claims, places[k], key) == k)
      && (forall i :: 0 <= i < upto && KeyOf(claims[i]) == key ==>
        Rank(claims, i, key) < |places| && places[Rank(claims, i, key)] == i)
  {
    if upto > 0 { PlacesAre(claims, upto - 1, key); }
  }

  /** The prior of a claim has its step and text and the same rank among those; there is one unless they have run out. */
  lemma PriorHasTheSameRank(previous: seq<Claim>, claims: seq<Claim>, i: nat)
    requires i < |claims|
    ensures var key, p := KeyOf(claims[i]), Prior(previous, claims, i);
      && (p.Some? ==> p.value < |previous| && KeyOf(previous[p.value]) == key && Rank(previous, p.value, key) == Rank(claims, i, key))
      && (p.None? <==> Rank(previous, |previous|, key) <= Rank(claims, i, key))
  {
    PlacesAre(previous, |previous|, KeyOf(claims[i]));
  }

  lemma {:induction false} RankGrows(claims: seq<Claim>, i: nat, j: nat, key: Key)
    requires i <= j <= |claims|
    ensures Rank(claims, i, key) <= Rank(claims, j, key)
    ensures i < j && KeyOf(claims[i]) == key ==> Rank(claims, i, key) < Rank(claims, j, key)
  {
    if i < j { RankGrows(claims, i, j - 1, key); }
  }

  /** No previous claim is continued twice. */
  lemma PriorsAreDistinct(previous: seq<Claim>, claims: seq<Claim>, i: nat, j: nat)
    requires i < j < |claims| && Prior(previous, claims, i).Some? && Prior(previous, claims, j).Some?
    ensures Prior(previous, claims, i) != Prior(previous, claims, j)
  {
    PriorHasTheSameRank(previous, claims, i);
    PriorHasTheSameRank(previous, claims, j);
    RankGrows(claims, i, j, KeyOf(claims[i]));
  }

  predicate SameKeys(previous: seq<Claim>, claims: seq<Claim>)
  {
    |previous| <= |claims| && forall i :: 0 <= i < |previous| ==> KeyOf(previous[i]) == KeyOf(claims[i])
  }

  lemma {:induction false} SameRanks(previous: seq<Claim>, claims: seq<Claim>, i: nat, key: Key)
    requires SameKeys(previous, claims) && i <= |previous|
    ensures Rank(previous, i, key) == Rank(claims, i, key)
  {
    if i > 0 { SameRanks(previous, claims, i - 1, key); }
  }

  /** When the log only added claims, every old claim continues itself and every new one is new. */
  lemma PriorsOfGrownLog(previous: seq<Claim>, claims: seq<Claim>, i: nat)
    requires SameKeys(previous, claims) && i < |claims|
    ensures Prior(previous, claims, i) == if i < |previous| then Some(i) else None
  {
    var key := KeyOf(claims[i]);
    PlacesAre(previous, |previous|, key);
    if i < |previous| {
      SameRanks(previous, claims, i, key);
    } else {
      SameRanks(previous, claims, |previous|, key);
      RankGrows(claims, |previous|, i, key);
    }
  }

  // ----- Reading the claims -----

  function PathsOf(claims: seq<Claim>): set<string>
  {
    set c | c in claims && c.path.Some? :: c.path.value
  }

  type Snap = string -> Snapshot

  /** Claim `i` continues a claim of the previous scope that named another file. */
  predicate Moved(before: Scope, claims: seq<Claim>, i: nat)
    requires i < |claims|
  {
    var p := Prior(before.claims, claims, i);
    p.Some? && p.value < |before.claims| && before.claims[p.value].path != claims[i].path
  }

  /** Claim `i` continues a certified claim of the same file, and the file is as it was. */
  predicate StillCertified(before: Scope, claims: seq<Claim>, i: nat, snap: Snap)
    requires i < |claims|
  {
    var p := Prior(before.claims, claims, i);
    && claims[i].path.Some? && p.Some? && p.value < |before.claims|
    && before.claims[p.value].path == claims[i].path
    && before.claims[p.value].certified
    && claims[i].path.value in before.snapshots
    && before.snapshots[claims[i].path.value] == snap(claims[i].path.value)
  }

  /** The files of the first `upto` claims that are dirty because they moved or were claimed before. */
  function DirtyFrom(before: Scope, claims: seq<Claim>, upto: nat): set<string>
    requires upto <= |claims|
  {
    if upto == 0 then {} else DirtyFrom(before, claims, upto - 1) + ClaimDirt(before, claims, upto - 1)
  }

  /** The file of claim `i` when it moved or was claimed before. */
  function ClaimDirt(before: Scope, claims: seq<Claim>, i: nat): set<string>
    requires i < |claims|
  {
    var c := claims[i];
    if c.path.Some? && (Moved(before, claims, i) || c.path.value in before.snapshots) then {c.path.value} else {}
  }

  function CertifiedFrom(before: Scope, claims: seq<Claim>, upto: nat, snap: Snap): set<int>
    requires upto <= |claims|
  {
    if upto == 0 then {}
    else CertifiedFrom(before, claims, upto - 1, snap) + if StillCertified(before, claims, upto - 1, snap) then {upto} else {}
  }

  function SnapshotsOf(claims: seq<Claim>, snap: Snap): map<string, Snapshot>
  {
    map p | p in PathsOf(claims) :: snap(p)
  }

  function ClaimsRead(d: Draft, claims: seq<Claim>, snap: Snap): Scope
  {
    d.scope.(
      dirty := d.scope.dirty + (if d.legacyUnresolved then PathsOf(claims) else {})
        + (if d.previous.Some? then DirtyFrom(d.previous.value, claims, |claims|) else {}),
      claims := claims,
      snapshots := SnapshotsOf(claims, snap),
      observed := d.scope.observed + PresentOf(claims, snap))
  }

  method PrepareClaims(d: Draft, claims: seq<Claim>, snap: Snap) returns (scope: Scope, certified: set<int>)
    ensures scope == ClaimsRead(d, claims, snap)
    ensures certified == if d.previous.Some? then CertifiedFrom(d.previous.value, claims, |claims|, snap) else {}
  {
    var snapshots, observed := TakeSnapshots(claims, snap, d.scope.observed);
    var dirty := d.scope.dirty;
    certified := {};
    if d.legacyUnresolved { dirty := dirty + PathsOf(claims); }
    if d.previous.Some? {
      var moved;
      moved, certified := ContinueClaims(d.previous.value, claims, snap);
      dirty := dirty + moved;
    }
    scope := d.scope.(dirty := dirty, claims := claims, snapshots := snapshots, observed := observed);
  }

  /** The files that become dirty because they were claimed before, and the claims whose certificate still holds. */
  method ContinueClaims(before: Scope, claims: seq<Claim>, snap: Snap) returns (dirty: set<string>, certified: set<int>)
    ensures dirty == DirtyFrom(before, claims, |claims|) && certified == CertifiedFrom(before, claims, |claims|, snap)
  {
    var priors := PriorClaims(before.claims, claims);
    dirty, certified := {}, {};
    for i := 0 to |claims|
      invariant dirty == DirtyFrom(before, claims, i)
      invariant certified == CertifiedFrom(before, claims, i, snap)
    {
      PriorAt(before.claims, claims, |claims|, i);
      var moved, still := ContinueClaim(before, claims, i, priors[i], snap);
      dirty := dirty + moved;
      if still { certified := certified + {i + 1}; }
    }
  }

  /** One claim: its file if it becomes dirty, and whether its certificate still holds. */
  method ContinueClaim(before: Scope, claims: seq<Claim>, i: nat, place: Option<nat>, snap: Snap) returns (dirty: set<string>, still: bool)
    requires i < |claims| && place == Prior(before.claims, claims, i)
    ensures dirty == ClaimDirt(before, claims, i) && still == StillCertified(before, claims, i, snap)
  {
    var c := claims[i];
    dirty, still := {}, false;
    if c.path.Some? {
      var prior := if place.Some? && place.value < |before.claims| then Some(before.claims[place.value]) else None;
      var moved := prior.Some? && prior.value.path != c.path;
      if moved { dirty := dirty + {c.path.value}; }
      if prior.Some? && !moved && prior.value.certified
        && c.path.value in before.snapshots && before.snapshots[c.path.value] == snap(c.path.value) {
        still := true;
      }
      if c.path.value in before.snapshots { dirty := dirty + {c.path.value}; }
    }
  }

  function PresentOf(claims: seq<Claim>, snap: Snap): set<string>
  {
    set p | p in PathsOf(claims) && snap(p).present
  }

  method TakeSnapshots(claims: seq<Claim>, snap: Snap, seen: set<string>)
    returns (snapshots: map<string, Snapshot>, observed: set<string>)
    ensures snapshots == SnapshotsOf(claims, snap)
    ensures observed == seen + PresentOf(claims, snap)
  {
    snapshots, observed := map[], seen;
    ghost var done: seq<Claim> := [];
    for i := 0 to |claims|
      invariant done == claims[..i]
      invariant snapshots == SnapshotsOf(done, snap) && observed == seen + PresentOf(done, snap)
    {
      TakeSnoc(claims, i);
      SnapshotsSnoc(done, claims[i], snap);
      done := done + [claims[i]];
      if claims[i].path.Some? {
        var p := claims[i].path.value;
        if p !in snapshots { snapshots := snapshots[p := snap(p)]; }
        if snap(p).present { observed := observed + {p}; }
      }
    }
    assert done == claims;
  }

  lemma PathsSnoc(claims: seq<Claim>, c: Claim)
    ensures PathsOf(claims + [c]) == PathsOf(claims) + if c.path.Some? then {c.path.value} else {}
  {
    var more := claims + [c];
    assert forall x :: x in more <==> x in claims || x == c;
  }

  lemma SnapshotsSnoc(claims: seq<Claim>, c: Claim, snap: Snap)
    ensures c.path.None? ==>
      SnapshotsOf(claims + [c], snap) == SnapshotsOf(claims, snap) && PresentOf(claims + [c], snap) == PresentOf(claims, snap)
    ensures c.path.Some? ==> var p := c.path.value;
      && SnapshotsOf(claims + [c], snap) == (if p in SnapshotsOf(claims, snap) then SnapshotsOf(claims, snap) else SnapshotsOf(claims, snap)[p := snap(p)])
      && PresentOf(claims + [c], snap) == PresentOf(claims, snap) + if snap(p).present then {p} else {}
  {
    PathsSnoc(claims, c);
  }

  // ----- Audit after audit -----

  /** One audit: its claims, if they were read, and the claims that landed, if it came to its end. */
  datatype Audit = Audit(o: Options, claims: Option<seq<Claim>>, snap: Snap, landed: Option<set<nat>>)

  function Certify(claims: seq<Claim>, landed: set<nat>): seq<Claim>
  {
    seq(|claims|, i requires 0 <= i < |claims| => claims[i].(certified := i + 1 in landed))
  }

  /** The scope an audit leaves in its receipt, if it gets that far. */
  function Persisted(a: Audit, receipt: Receipt, hash: Hash): Option<Scope>
  {
    match Prepared(a.o, receipt, hash)
    case Failed(_) => None
    case Ready(d) =>
      if a.claims.None? then Some(d.scope)
      else
        var scope := ClaimsRead(d, a.claims.value, a.snap);
        Some(if a.landed.None? then scope else scope.(claims := Certify(scope.claims, a.landed.value)))
  }

  /** What one audit makes of the receipt and of the log that the last audit to get through saw. */
  function Audited(a: Audit, last: (Receipt, Bytes), hash: Hash): (Receipt, Bytes)
  {
    var scope := Persisted(a, last.0, hash);
    if scope.None? then last else (Scoped(scope.value), a.o.content)
  }

  /** The receipt and that log after the first `n` audits of a generation. */
  function After(start: Receipt, audits: seq<Audit>, n: nat, hash: Hash): (Receipt, Bytes)
    requires n <= |audits|
  {
    if n == 0 then (start, []) else Audited(audits[n - 1], After(start, audits, n - 1, hash), hash)
  }

  /** The scope in the receipt records that log. */
  ghost predicate Records(last: (Receipt, Bytes), hash: Hash)
  {
    last.0.Scoped? ==> last.0.scope.prefix == Recorded(last.1, hash)
  }

  /** What one audit may change of a scope. */
  ghost predicate Continues(before: Scope, after: Scope, moved: bool)
  {
    && after.root == before.root && after.log == before.log && after.session == before.session
    && (before.baseline != "" ==> after.baseline == before.baseline)
    && (before.epoch != "" ==> after.epoch == before.epoch)
    && (!moved ==> before.dirty <= after.dirty)
  }

  lemma StepContinues(a: Audit, before: Scope, hash: Hash)
    requires Persisted(a, Scoped(before), hash).Some?
    ensures Continues(before, Persisted(a, Scoped(before), hash).value, Rerooted(a.o, Some(before)).Some?)
    ensures Extends(a.o.content, Some(before.prefix), hash)
  {
  }

  lemma StepRecords(a: Audit, receipt: Receipt, hash: Hash)
    requires Persisted(a, receipt, hash).Some?
    ensures Persisted(a, receipt, hash).value.prefix == Recorded(a.o.content, hash)
  {
  }

  /** An audit among these moved the root of the claims. */
  ghost predicate MovedBetween(start: Receipt, audits: seq<Audit>, m: nat, n: nat, hash: Hash)
    requires m <= n <= |audits|
  {
    exists k: nat :: m <= k < n && MovedAt(start, audits, k, hash)
  }

  predicate MovedAt(start: Receipt, audits: seq<Audit>, k: nat, hash: Hash)
    requires k < |audits|
  {
    Rerooted(audits[k].o, Previous(After(start, audits, k, hash).0)).Some?
  }

  lemma {:induction false} ScopeRecordsLog(start: Receipt, audits: seq<Audit>, n: nat, hash: Hash)
    requires n <= |audits| && !start.Scoped?
    ensures Records(After(start, audits, n, hash), hash)
  {
    if n > 0 {
      ScopeRecordsLog(start, audits, n - 1, hash);
      var receipt := After(start, audits, n - 1, hash).0;
      if Persisted(audits[n - 1], receipt, hash).Some? { StepRecords(audits[n - 1], receipt, hash); }
    }
  }

  lemma MovedLater(start: Receipt, audits: seq<Audit>, m: nat, n: nat, hash: Hash)
    requires m < n <= |audits|
    ensures MovedBetween(start, audits, m, n, hash) <==>
      MovedBetween(start, audits, m, n - 1, hash) || MovedAt(start, audits, n - 1, hash)
  {
  }

  lemma ContinuesTransitive(a: Scope, b: Scope, c: Scope, first: bool, second: bool)
    requires Continues(a, b, first) && Continues(b, c, second)
    ensures Continues(a, c, first || second)
  {
  }

  lemma NextKeeps(a: Audit, first: Scope, log: Bytes, receipt: Receipt, content: Bytes, moved: bool, next: Option<Scope>, hash: Hash)
    requires CollisionFree(hash) && receipt.Scoped? && receipt.scope.prefix == Recorded(content, hash)
    requires Continues(first, receipt.scope, moved) && Begins(log, content)
    requires next == Persisted(a, receipt, hash) && next.Some?
    ensures Continues(first, next.value, moved || Rerooted(a.o, Previous(receipt)).Some?) && Begins(log, a.o.content)
  {
    var scope := receipt.scope;
    StepContinues(a, scope, hash);
    AcceptedExactlyWhenItExtends(content, a.o.content, hash);
    BeginsTransitive(log, content, a.o.content);
    ContinuesTransitive(first, scope, next.value, moved, Rerooted(a.o, Some(scope)).Some?);
  }

  /** What a later scope keeps of an earlier one, and a later log of an earlier one. */
  ghost predicate Keeps(first: (Receipt, Bytes), last: (Receipt, Bytes), moved: bool)
  {
    first.0.Scoped? ==> last.0.Scoped? && Continues(first.0.scope, last.0.scope, moved) && Begins(first.1, last.1)
  }

  lemma OneMoreKeeps(a: Audit, first: (Receipt, Bytes), last: (Receipt, Bytes), moved: bool, hash: Hash)
    requires CollisionFree(hash) && Keeps(first, last, moved) && Records(last, hash)
    ensures Keeps(first, Audited(a, last, hash), moved || Rerooted(a.o, Previous(last.0)).Some?)
  {
    var next := Persisted(a, last.0, hash);
    if first.0.Scoped? && next.Some? {
      NextKeeps(a, first.0.scope, first.1, last.0, last.1, moved, next, hash);
    }
  }

  /**
   * Within a generation the scope stays the scope of one project, log and session, the log only grows, a baseline
   * or epoch once recorded never changes, and the dirty files only grow unless the root of the claims moves.
   */
  lemma {:induction false} GenerationKeeps(start: Receipt, audits: seq<Audit>, m: nat, n: nat, hash: Hash)
    requires m <= n <= |audits| && !start.Scoped? && CollisionFree(hash)
    ensures Keeps(After(start, audits, m, hash), After(start, audits, n, hash), MovedBetween(start, audits, m, n, hash))
  {
    if m < n {
      GenerationKeeps(start, audits, m, n - 1, hash);
      ScopeRecordsLog(start, audits, n - 1, hash);
      MovedLater(start, audits, m, n, hash);
      var first, last := After(start, audits, m, hash), After(start, audits, n - 1, hash);
      OneMoreKeeps(audits[n - 1], first, last, MovedBetween(start, audits, m, n - 1, hash), hash);
    }
  }

  // ----- When a scope is prepared, and what it carries -----

  /** What is supplied does not contradict what is recorded. */
  predicate Agrees(persisted: string, supplied: Option<string>)
  {
    supplied.None? || persisted == "" || supplied.value == persisted
  }

  /** The receipt can be continued with these options. */
  predicate Continuable(o: Options, receipt: Receipt, hash: Hash)
  {
    match receipt
    case Absent => true
    case Legacy(_) => true
    case Scoped(s) =>
      && s.session == o.session && s.root == o.root && s.log == o.log && Extends(o.content, Some(s.prefix), hash)
      && Agrees(s.baseline, o.baseline) && Agrees(s.epoch, o.epoch)
    case _ => false
  }

  predicate GoodDirty(dirty: DirtyBefore)
  {
    match dirty
    case NotGiven => true
    case NoFile => false
    case Listed(lines) => forall line :: line in lines ==> line == "" || RelativeFile(line)
  }

  /** A scope is prepared exactly when the receipt can be continued and the dirty files passed in are inside the project. */
  lemma PreparedIff(o: Options, receipt: Receipt, hash: Hash)
    ensures Prepared(o, receipt, hash).Ready? <==> Continuable(o, receipt, hash) && GoodDirty(o.dirtyBefore)
  {
  }

  /** Otherwise the first check that fails names the fault. */
  lemma FaultIsTheFirst(o: Options, receipt: Receipt, hash: Hash)
    requires Prepared(o, receipt, hash).Failed?
    ensures var fault := Prepared(o, receipt, hash).fault;
      match receipt
      case Unreadable => fault == ReceiptUnreadable
      case Foreign => fault == NotAReceipt
      case Strange => fault == UnknownScope
      case Absent => fault == (if o.dirtyBefore.NoFile? then DirtyUnreadable else DirtyOutside)
      case Legacy(_) => fault == (if o.dirtyBefore.NoFile? then DirtyUnreadable else DirtyOutside)
      case Scoped(s) =>
        && (fault == OtherOwner <==> s.session != o.session || s.root != o.root)
        && (fault == OtherLog <==> s.session == o.session && s.root == o.root && s.log != o.log)
        && (fault == BaselineChanged ==> !Agrees(s.baseline, o.baseline))
        && (fault == EpochChanged ==> Agrees(s.baseline, o.baseline) && !Agrees(s.epoch, o.epoch))
        && (fault == LogRewritten ==> !Extends(o.content, Some(s.prefix), hash))
        && (fault in {BaselineChanged, EpochChanged, DirtyUnreadable, DirtyOutside} ==> Extends(o.content, Some(s.prefix), hash))
        && (fault in {DirtyUnreadable, DirtyOutside} ==> Continuable(o, receipt, hash) && !GoodDirty(o.dirtyBefore))
  {
  }

  /** The value for this generation: what is supplied, or what is recorded, or nothing. */
  function Settled(receipt: Receipt, persisted: Scope -> string, supplied: Option<string>): string
  {
    if supplied.Some? then supplied.value else if receipt.Scoped? then persisted(receipt.scope) else ""
  }

  /** The claims' root moved: the recorded one is known and is another. */
  predicate RootMoved(o: Options, receipt: Receipt)
  {
    && receipt.Scoped? && !o.gitFault && receipt.scope.claimRoot.Some?
    && (if receipt.scope.claimRoot.value == "" then receipt.scope.root else receipt.scope.claimRoot.value) != o.claimRoot
  }

  /** What a prepared scope carries: everything of the scope it continues, or nothing of it when the claims' root moved. */
  lemma DraftCarries(o: Options, receipt: Receipt, hash: Hash)
    requires Prepared(o, receipt, hash).Ready?
    ensures var d := Prepared(o, receipt, hash).draft;
      && d.previous == (if receipt.Scoped? && !RootMoved(o, receipt) then Some(receipt.scope) else None)
      && d.legacyUnresolved == (receipt.Legacy? && receipt.unresolved)
      && (d.rerootedFrom.Some? <==> RootMoved(o, receipt))
      && d.scope.root == o.root && d.scope.log == o.log && d.scope.session == o.session
      && d.scope.prefix == Recorded(o.content, hash)
      && d.scope.baseline == Settled(receipt, (s: Scope) => s.baseline, o.baseline)
      && d.scope.epoch == Settled(receipt, (s: Scope) => s.epoch, o.epoch)
      && (!o.gitFault ==> d.scope.claimRoot == Some(o.claimRoot))
      && (forall f :: f in d.scope.dirty <==>
            (d.previous.Some? && f in d.previous.value.dirty) || (f != "" && o.dirtyBefore.Listed? && f in o.dirtyBefore.lines))
      && (d.previous.Some? ==>
            d.scope.claims == d.previous.value.claims && d.scope.snapshots == d.previous.value.snapshots
            && d.scope.observed == d.previous.value.observed)
      && (d.previous.None? ==> d.scope.claims == [] && d.scope.snapshots == map[] && d.scope.observed == {})
  {
  }

  // ----- Which files are dirty and which certificates hold -----

  /** The claim at `p` of the previous scope is the one that claim `i` continues: same step, same text, same rank. */
  predicate ContinuesAt(previous: seq<Claim>, claims: seq<Claim>, i: nat, p: nat)
    requires i < |claims|
  {
    p < |previous| && KeyOf(previous[p]) == KeyOf(claims[i]) && Rank(previous, p, KeyOf(claims[i])) == Rank(claims, i, KeyOf(claims[i]))
  }

  lemma PriorIs(previous: seq<Claim>, claims: seq<Claim>, i: nat, p: nat)
    requires i < |claims|
    ensures Prior(previous, claims, i) == Some(p) <==> ContinuesAt(previous, claims, i, p)
  {
    PriorHasTheSameRank(previous, claims, i);
    PlacesAre(previous, |previous|, KeyOf(claims[i]));
  }

  /** A certificate still holds exactly when the claim it continues had it, for the same file, and the file is unchanged. */
  lemma CertificateHoldsIff(before: Scope, claims: seq<Claim>, i: nat, snap: Snap)
    requires i < |claims|
    ensures i + 1 in CertifiedFrom(before, claims, |claims|, snap) <==>
      && claims[i].path.Some? && claims[i].path.value in before.snapshots
      && before.snapshots[claims[i].path.value] == snap(claims[i].path.value)
      && exists p: nat :: ContinuesAt(before.claims, claims, i, p) && before.claims[p].certified && before.claims[p].path == claims[i].path
  {
    CertifiedIn(before, claims, |claims|, snap, i);
    forall p: nat ensures Prior(before.claims, claims, i) == Some(p) <==> ContinuesAt(before.claims, claims, i, p) {
      PriorIs(before.claims, claims, i, p);
    }
  }

  lemma {:induction false} CertifiedIn(before: Scope, claims: seq<Claim>, upto: nat, snap: Snap, i: nat)
    requires upto <= |claims| && i < |claims|
    ensures i + 1 in CertifiedFrom(before, claims, upto, snap) <==> i < upto && StillCertified(before, claims, i, snap)
  {
    if upto > 0 { CertifiedIn(before, claims, upto - 1, snap, i); }
  }

  lemma {:induction false} DirtyIn(before: Scope, claims: seq<Claim>, upto: nat, f: string)
    requires upto <= |claims|
    ensures f in DirtyFrom(before, claims, upto) <==> exists i: nat :: i < upto && f in ClaimDirt(before, claims, i)
  {
    if upto > 0 { DirtyIn(before, claims, upto - 1, f); }
  }

  /** A claimed file that an earlier audit has seen, or whose claim named another file then. */
  ghost predicate Suspect(before: Scope, claims: seq<Claim>, i: nat, f: string)
  {
    && i < |claims| && claims[i].path == Some(f)
    && (f in before.snapshots || exists p: nat :: ContinuesAt(before.claims, claims, i, p) && before.claims[p].path != Some(f))
  }

  /** The dirty files are those of the draft, every claimed one when a legacy receipt left something open, and the suspect ones. */
  lemma DirtyIff(d: Draft, claims: seq<Claim>, snap: Snap, f: string)
    ensures f in ClaimsRead(d, claims, snap).dirty <==>
      || f in d.scope.dirty
      || (d.legacyUnresolved && exists c :: c in claims && c.path == Some(f))
      || (d.previous.Some? && exists i: nat :: Suspect(d.previous.value, claims, i, f))
  {
    if d.previous.Some? {
      var before := d.previous.value;
      DirtyIn(before, claims, |claims|, f);
      forall i: nat | i < |claims| ensures f in ClaimDirt(before, claims, i) <==> Suspect(before, claims, i, f) {
        forall p: nat ensures Prior(before.claims, claims, i) == Some(p) <==> ContinuesAt(before.claims, claims, i, p) {
          PriorIs(before.claims, claims, i, p);
        }
      }
    }
  }

  /** Every claimed file has its snapshot, and the files once seen present stay observed. */
  lemma SnapshotsAre(d: Draft, claims: seq<Claim>, snap: Snap, f: string)
    ensures var s := ClaimsRead(d, claims, snap);
      && s.claims == claims
      && (f in s.snapshots <==> exists c :: c in claims && c.path == Some(f)) && (f in s.snapshots ==> s.snapshots[f] == snap(f))
      && (f in s.observed <==> f in d.scope.observed || (f in s.snapshots && snap(f).present))
  {
  }
}
