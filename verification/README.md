# Verified models of the plugin's gates, protocols and readers

The plugin decides when a chain of agent work may close, hands the result of a background review to exactly one
consumer, records work units with a remote service, and reads shell commands, globs and run logs to do so. This project
models those parts in Dafny and proves what they keep.

`dafny verify dfyconfig.toml` checks everything.

## How the parts are modelled

**One-shot file protocols.** `ConsumeProtocol` lets any number of consumers and atomic writers interleave on one
record file, one step per rename, comparison, link and unlink, with crashes and faults; a log of departures says why
each version left. `ReviewSession` is the launch, arrival, match, defer and retire machine around it as a class over
the record and the arrival note, with the reader of prompts in `PromptScan`. `CaptureProtocol` is the work-capture
client: the receipt is saved before anything is sent, any step may be the last before a crash, replies get lost, a
server keeps the first submission of an event. `ReceiptArchive` is what `begin` and `checkpoint` do to the bytes of a
receipt under crashes: a legacy receipt is archived before it is replaced, a goal-scoped one is saved over.

**Small compilers.** `Globs` gives regular expression items a meaning and a printed form that reads back;
`GlobCompilers` holds the two compilers and proves both against one segment-by-segment meaning; `GlobAgreement` says
exactly on which patterns they agree; `PersonaFanOut` uses the second to choose review personas. `Braces` is the
bounded brace expander, `BraceRanges` the meaning of its ranges and `BraceTrees` that of printed trees. `ClaimTokens`,
`Corrections` and `LandingAudit` split claims, judge corrections and produce the audit rows.

**Shell reading.** `ShellWords` reads words with quotes, escapes, expansions and redirections, and `ShellAnsi` decodes
ANSI-C strings. `ShellBraces` proves where an expansion ends, `ShellParts` what every part of a word stands for,
`ShellLines` that whole lines are read as their items, and `ShellQuoting` that nothing is lost. `GitTargets` folds the
`-C`, `--work-tree` and `--git-dir` operands of a git command, tells the forms that change nothing, and proves which
of its answers the shell cannot change; `GitReading` says where written operands lead.

**Evidence gates.** `Logs` filters logs and finds newest entries, `GroupPruning` removes all but the newest of every
group, and `RecordIds` gives record names their order. `RunRecords`, `EvidenceDecision` and `EvidenceCi` judge
recorded test runs; `EvidencePruning` and `PruningSafety` prune them and say exactly when that changes the verdict.
`Acceptance`, `AcceptanceGate` and `AcceptancePruning` do the same for verdicts on acceptance criteria.

**Streams and budgets.** `StreamReader` and `StreamOutput` are the chunked line reader and its capped output.
`LogPrefix` hashes a growing log in chunks, `AuditScope` carries audit scopes from one audit to the next.
`ContextPack`, `ContextBudget`, `ContextSafety` and `ContextChoice` pack context nodes into a bounded message and say
which of them it shows.

## What the proofs found

- The newest version of a record need not survive: two consumers that both took stale versions can link the older one
  back first (`ConsumeProtocol.NewestMayBeDropped`). In every reachable state, what is written next survives every
  continuation without a fault or further write exactly when no consumer that has taken a version may still link it back
  (`ConsumeProtocol.NewestSurvivesIff`).
- A launch whose write fails still drops the arrival note, so the record it leaves behind gets a fresh allowance of
  held deferrals (`ReviewSession.FailedLaunchRenewsAllowance`); the bound counts from the last launch that reached the
  store.
- The two glob compilers do not always agree. On one-line paths, and within the bound on wildcards, a one-line pattern
  means the same to both exactly when every segment of three or more stars is the last one and some `**` comes before it
  with only segments of stars in between (`GlobAgreement.GlobCompilersAgreeIff`).
- `gitTargets` promises candidates that do not depend on unexpanded tokens; that needs a home directory that is empty
  or absolute, and fails for every other one (`GitTargets.UnusableHomeMisleads`).
- Where a stream is cut matters exactly when some complete line has the maximal size right before a carriage return
  (`StreamReader.ChunkingNeverMattersIff`).
- Pruning run records never makes a local pass by itself, but a run that is told to keep its own record can. Of a trusted
  log with nothing running and a red newest run on the tree it does exactly when some kept green run on the tree has
  enough newer records of its scope and every later run on the tree goes (`PruningSafety.PassMadeByKeeping`).
- In CI mode pruning makes a pass of a trusted, idle log exactly when something to judge stays, some command is red, and
  the newest run of every red command goes (`PruningSafety.CiPassMadeByPruning`).
- Pruning acceptance verdicts can drop the blocking verdict of a criterion that is no longer active, which happens only
  when the limit of the session removes something; a pass afterwards was one before exactly when the newest blocking
  record of every such criterion has fewer survivors after it than that limit (`AcceptancePruning.PassAfterPruningIff`).
  An active criterion never profits.
- Each of these three has, for every limit, a log in the order and with the record names of the store that shows the
  failure (`KeepingAnOldRunMakesAPass`, `PruningUnblocksCi`, `SomeLogIsForgotten`).

## Model

| member | source | states |
|---|---|---|
| Globs.ReadOfEmit | hooks/lib/edit-landing-claims-v1.js:218-235 | The printed source of any items reads back as exactly those items, so escaping never changes what a character means |
| Globs.CompiledMeansSegments | hooks/lib/edit-landing-claims-v1.js:218-235 | Over every pattern and path, compiled items match the joined path iff the segments match one by one, with deep segments spanning zero or more, or one or more when last |
| GlobCompilers.GlobRegex | hooks/lib/edit-landing-claims-v1.js:218-235 | The loop over segments emits exactly the compiled source |
| GlobCompilers.GlobToRegExp | hooks/lib/persona-activation.js:51-85 | The index loop emits exactly the source of the scanned items, or none above sixteen wildcard runs |
| GlobCompilers.SkipStars | hooks/lib/persona-activation.js:56-73 | A run of stars is skipped whole and is deep exactly when it is at least two stars filling a segment |
| GlobCompilers.ClaimsGlobMeaning | hooks/lib/edit-landing-claims-v1.js:218-235 | On one-line paths the compiled expression accepts iff the pattern matches segment by segment |
| GlobCompilers.PersonaGlobMeaning | hooks/lib/persona-activation.js:51-85 | The same for the second compiler, where any run of two or more stars is deep |
| GlobCompilers.GlobCompilersAgree | hooks/lib/persona-activation.js:51-85 | Both compilers accept the same one-line paths when no segment is a run of three or more stars and the wildcards fit |
| GlobCompilers.ClaimsWithinPersona | hooks/lib/persona-activation.js:51-85 | On every pattern that fits, whatever the first compiler accepts the second does too |
| GlobAgreement.GlobCompilersAgreeIff | hooks/lib/persona-activation.js:51-85 | On all one-line paths both give the same answer iff a one-line pattern has runs of three or more stars only as its last segment, behind a spanning `**` |
| GlobAgreement.DisagreeSomewhere | hooks/lib/edit-landing-claims-v1.js:218-235 | Every other one-line pattern within the bound has a path on which they differ |
| GlobAgreement.ShorterForPersona | hooks/lib/persona-activation.js:56-73 | A run of three or more stars before the last segment lets the second compiler accept a path with fewer segments than the first ever does |
| GlobAgreement.LongerForPersona | hooks/lib/persona-activation.js:56-73 | As last segment without a `**` before it, it lets the second compiler accept more segments at the end |
| GlobCompilers.ThreeStarsDiffer | hooks/lib/edit-landing-claims-v1.js:218-235 | A pattern of three stars and a path on which the two differ |
| PersonaFanOut.MatchActivation | hooks/lib/persona-activation.js:87-110 | True iff some listed glob of bounded length and cost accepts some path, or its last segment when the glob has no slash |
| PersonaFanOut.AcceptsMeaning | hooks/lib/persona-activation.js:92-106 | Acceptance in terms of the segment meaning of the glob |
| PersonaFanOut.Decide | hooks/lib/persona-activation.js:135-186 | Spawns and drops in queue order under the cap, then every rejection |
| PersonaFanOut.OneLinePerFile | hooks/lib/persona-activation.js:145-185 | The names over all lines are the names of all files, each as often as it occurs |
| PersonaFanOut.MatchedPersonasComeFirst | hooks/lib/persona-activation.js:175-185 | Five spawns at most, and no always-joining persona is spawned while a matched one is dropped |
| PersonaFanOut.FilesGetTheirLines | hooks/lib/persona-activation.js:145-173 | A name is queued iff its file declares it properly and declares no globs or one that accepts a path; malformed and unmatched files are reported as such, and nothing else is |
| PersonaFanOut.WrittenGlobsAreRead | hooks/lib/persona-activation.js:88-91 | A list of globs, quoted or not, with or without spaces, is read as exactly these globs |
| PersonaFanOut.BasenameIs | hooks/lib/persona-activation.js:104 | The basename of a path is its last segment, whatever slashes follow |
| Braces.MatchingBrace | hooks/lib/edit-landing-claims-v1.js:113-124 | Finds the closing brace at depth zero, or none |
| Braces.TopLevelParts | hooks/lib/edit-landing-claims-v1.js:125-142 | Cuts at exactly the commas outside inner braces |
| Braces.Expander.ExpandInto | hooks/lib/edit-landing-claims-v1.js:175-203 | The recursive in-place expansion computes the specified members and verdict; it ends because every call has fewer opening braces |
| Braces.ExpandToken | hooks/lib/edit-landing-claims-v1.js:204-208 | The expander as a whole returns the specified members or none |
| Braces.ReadRange | hooks/lib/edit-landing-claims-v1.js:144-173 | The two range forms with their loops give the specified items, refusal or no range |
| BraceRanges.RangeIsItsWords | hooks/lib/edit-landing-claims-v1.js:145-173 | A written range of numbers or letters stands for exactly its words, padded as its bounds ask, and is refused above 256 |
| BraceRanges.InexactRangeIsRefused | hooks/lib/edit-landing-claims-v1.js:149 | A bound that is not a safe integer refuses the range |
| BraceRanges.OnlyRangesAreRead | hooks/lib/edit-landing-claims-v1.js:145-172 | Whatever is read or refused as a range is written as two numbers or two letters with two dots between them |
| BraceTrees.ExpandBracesIsProduct | hooks/lib/edit-landing-claims-v1.js:113-207 | On the printed form of every well-formed tree of literals, single groups, alternations and ranges, exactly the ordered product of its alternatives, or nothing above 256 |
| BraceTrees.NumberRangeExpands | hooks/lib/edit-landing-claims-v1.js:145-159 | For all safe integers a and b: exactly the numbers from a to b, both included, each between prefix and suffix, or nothing above 256 |
| BraceTrees.RangeExpands | hooks/lib/edit-landing-claims-v1.js:144-207 | The same for every range, padded or of letters |
| BraceTrees.OtherDotsAreRefused | hooks/lib/edit-landing-claims-v1.js:184-189 | Braces with two dots that are no range refuse the token |
| BraceTrees.UnclosedIsLiteral | hooks/lib/edit-landing-claims-v1.js:177-179 | From a brace that is never closed on, the text stays as it is |
| ClaimTokens.SplitFiles | hooks/lib/edit-landing-claims-v1.js:92-111 | The loop with its two depths computes the specified pieces, trimmed and without empty ones |
| ClaimTokens.PiecesAreLossless | hooks/lib/edit-landing-claims-v1.js:92-111 | The pieces joined by commas are the text |
| ClaimTokens.SplitUndoesJoin | hooks/lib/edit-landing-claims-v1.js:92-111 | Splitting a comma-joined list of clean tokens whose commas are all bracketed gives those tokens back |
| ClaimTokens.WrittenTokensAreSplit | hooks/lib/edit-landing-claims-v1.js:92-111 | Tokens written with any nesting of braces and parentheses are split at the commas between them and nowhere else |
| Corrections.DedupeRequirements | hooks/lib/edit-landing-claims-v1.js:347-357 | Keeps the first of every requirement, in order |
| Corrections.CollectNeeds | hooks/lib/edit-landing-claims-v1.js:406-413 | Gathers requirements and accepted patterns of all correctable units |
| Corrections.CheckCorrection | hooks/lib/edit-landing-claims-v1.js:400-442 | The loops return the specified verdict and the reason of the first fault |
| Corrections.AppliesIff | hooks/lib/edit-landing-claims-v1.js:400-442 | A correction applies iff it is well formed, follows a files claim of its label with something to correct, names something, and accounts for everything that claim needs |
| Corrections.RefusalIsExplained | hooks/lib/edit-landing-claims-v1.js:400-442 | Every refusal names the first thing that is wrong, in the order of the checks |
| LandingAudit.AuditRows | hooks/lib/edit-landing-claims-v1.js:498-558 | The maps and loops over lines produce the specified rows in order |
| LandingAudit.WeighCorrections | hooks/lib/edit-landing-claims-v1.js:521-531 | The applied map holds the last valid correction of every claim, and earlier ones end as superseded |
| LandingAudit.EveryUnitHasARow | hooks/lib/edit-landing-claims-v1.js:444-474 | Every unit of every files claim has a row of its own line |
| LandingAudit.RowsAreDue | hooks/lib/edit-landing-claims-v1.js:444-558 | A row is there iff some line has to give it, read off the lines, their units and the last valid corrections |
| LandingAudit.AsksForListingIff | hooks/lib/edit-landing-claims-v1.js:513-518 | It asks for a listing instead iff that was to be read on demand, is missing and some claim has a pattern; otherwise rows follow the lines |
| LandingAudit.LastCorrectionWins | hooks/lib/edit-landing-claims-v1.js:521-531 | A correction keeps its verdict iff it is valid and no later valid one names the same claim |
| LandingAudit.AppliedCorrection | hooks/lib/edit-landing-claims-v1.js:400-442 | An applied correction follows its claim, is the only one for it and accounts for its needs |
| LandingAudit.CorrectionRows | hooks/lib/edit-landing-claims-v1.js:547-555 | Everything listed and everything retracted gets its row |
| LandingAudit.CorrectedUnitsAreTaken | hooks/lib/edit-landing-claims-v1.js:538-546 | Every correctable unit of the corrected claim is handed over to the correction |
| LandingAudit.RequiredPathIsListedOrRetracted | hooks/lib/edit-landing-claims-v1.js:433-440 | Every required path is in a listed or a retracted row, never both |
| LandingAudit.ListedPathIsACandidate | hooks/lib/edit-landing-claims-v1.js:416-424 | Every listed path was required by a unit or accepted by one of its patterns |
| ConsumeProtocol.DoKeepsInv | hooks/lib/background-review-v1.js:510-527 | Every atomic step of every consumer and writer keeps the invariant on where each version is |
| ConsumeProtocol.ClaimedAtMostOnce | hooks/lib/background-review-v1.js:510-527 | Over all interleavings with crashes, at most one consumer returns true for a version, and only on equal text |
| ConsumeProtocol.EveryVersionIsAccountedFor | hooks/lib/background-review-v1.js:176-197 | Every version is at the path, with one consumer, or departed, never two of these |
| ConsumeProtocol.VanishesOnlyBy | hooks/lib/background-review-v1.js:510-527 | A version vanishes only by a claim, a replacing write, a drop over another version, or a fault |
| ConsumeProtocol.EmptyPathMeansClaimed | hooks/lib/background-review-v1.js:510-527 | In a quiet state without faults an empty path means the last departure was a claim |
| ConsumeProtocol.FateOfTheNewest | hooks/lib/background-review-v1.js:510-527 | In such a state the newest version is there, was claimed, or was dropped over an older one |
| ConsumeProtocol.NewestSurvives | hooks/lib/background-review-v1.js:176-197 | Written when no consumer may link back, a version leaves only by a claim, and is at the path once all is quiet |
| ConsumeProtocol.NewestCanBeDropped | hooks/lib/background-review-v1.js:518-524 | From every reachable state in which one may, a continuation without fault or write drops what is written next |
| ConsumeProtocol.NewestSurvivesIff | hooks/lib/background-review-v1.js:510-527 | Both together: over all reachable states, the next version survives every such continuation iff no consumer may link back |
| ConsumeProtocol.NewestMayBeDropped | hooks/lib/background-review-v1.js:518-524 | A run in which the newest version is dropped without any fault |
| ConsumeProtocol.AloneClaimsTheExpected | hooks/lib/background-review-v1.js:510-527 | In every reachable state a consumer that expects the text at the path and runs alone wins exactly that version |
| ConsumeProtocol.AloneRestoresTheUnexpected | hooks/lib/background-review-v1.js:510-527 | One that expects another text puts the version back, and no version leaves |
| PromptScan.ScanLines | hooks/lib/background-review-v1.js:449-485 | The line loop returns the specified scan of frames and notification blocks |
| PromptScan.CompletedArrival | hooks/lib/background-review-v1.js:449-485 | A completed arrival is exactly a hand-back frame or a closed block that names the agent and says completed |
| PromptScan.ReportedArrival | hooks/lib/background-review-v1.js:449-485 | A hand-back is reported as such, and a status that is not completed is that of the last block about the agent |
| PromptScan.NotificationIsRead | hooks/lib/background-review-v1.js:463-481 | A written block names its agent and says its status, whatever blanks surround them |
| PromptScan.HandbackIsRead | hooks/lib/background-review-v1.js:457-462 | A hand-back frame is found wherever it stands |
| ReviewSession.Store.ConsumeRecord | hooks/lib/background-review-v1.js:510-527 | Run alone, removes the record iff it is the expected one and otherwise restores it |
| ReviewSession.Store.RecordLaunch | hooks/lib/background-review-v1.js:314-354 | The new record and note of a launch, on every failure path |
| ReviewSession.Store.NoteArrival | hooks/lib/background-review-v1.js:595-635 | Writes a note iff the lines complete the agent of the record and none of it is held yet |
| ReviewSession.Store.MatchArrival | hooks/lib/background-review-v1.js:637-670 | A claim from the prompt iff the store opens, a record is there under the issued ticket and the prompt completes its agent; a claim from the note iff the prompt does not and a note of that record is held; ended, with the record gone, iff the agent only arrived with another status |
| ReviewSession.Store.DeferArrival | hooks/lib/background-review-v1.js:692-724 | Deferred iff record and note belong together, the wait has not expired and the bound holds; on expiry both are removed |
| ReviewSession.Store.RetireRecord | hooks/lib/background-review-v1.js:672-690 | Removes the record iff it is that of the named agent, and the note unless it is another agent's |
| ReviewSession.Store.HeldArrival | hooks/lib/background-review-v1.js:550-558 | The note is held only when it belongs to the present record |
| ReviewSession.ClaimIsBacked | hooks/lib/background-review-v1.js:637-670 | Every claim has a launch under the ticket still issued now and a completed arrival of its agent seen after that launch |
| ReviewSession.MatchIsAnswered | hooks/lib/background-review-v1.js:637-670 | The three answers of a match and when each is given, for every session and prompt |
| ReviewSession.FinishedReviewIsClaimed | hooks/lib/background-review-v1.js:595-670 | A review that was recorded and seen to complete is claimed, after up to three held deferrals, by the next match under its ticket |
| ReviewSession.HeldDefersAreBounded | hooks/lib/background-review-v1.js:692-724 | Between launches at most the bound of held deferrals succeed, and the next removes record and note |
| ReviewSession.FailedLaunchRenewsAllowance | hooks/lib/background-review-v1.js:314-354 | For every held record, a launch that reaches the store but cannot write and a completed arrival start the count again |
| CaptureProtocol.RunKeepsInv | hooks/lib/ai-work-capture-v1.js:119-196 | The invariant of receipt, client, server and history over every run |
| CaptureProtocol.SubmissionsAgree | hooks/lib/ai-work-capture-v1.js:169-194 | All submissions for one event carry the same unit, version, artifact and criteria |
| CaptureProtocol.NextEventWaits | hooks/lib/ai-work-capture-v1.js:142-160 | A different event is sent only after every earlier one was acknowledged or its receipt archived |
| CaptureProtocol.ServerStoresOnce | hooks/lib/ai-work-capture-v1.js:169-194 | A server idempotent on the event id stores each event once, as submitted |
| CaptureProtocol.SendsOnlyWhenAllowed | hooks/lib/ai-work-capture-v1.js:71-74 | Nothing is sent while paused, from a legacy receipt, or under a barred goal |
| CaptureProtocol.PausedGoalIsSilent | hooks/lib/ai-work-capture-v1.js:126-128 | Once the paused mark is saved nothing is sent under that goal until a later begin for it completes |
| CaptureProtocol.OnlyTheSameTaskLifts | hooks/lib/ai-work-capture-v1.js:142-161 | Only a begin for the same task lifts the mark |
| CaptureProtocol.OnlyTheSameGoalLifts | hooks/lib/ai-work-capture-v1.js:136-139 | In every run the begin that lifts a mark agrees with the one that began the unit on task, goal, scope, objective, criteria and purpose |
| CaptureProtocol.RetryGoesOnIff | hooks/lib/ai-work-capture-v1.js:128-139 | Of every reachable receipt: a begin with its task saves the mark and goes on iff its options are well formed and agree with those the unit was begun with |
| CaptureProtocol.NewGoalGoesOnIff | hooks/lib/ai-work-capture-v1.js:128-144 | A begin for another task goes on iff it has a goal and no submission of a scoped goal is pending |
| CaptureProtocol.NewUnitIsSaved | hooks/lib/ai-work-capture-v1.js:145-160 | Then a new unit is saved with exactly these options, the confirmed product and the starting commit, and a legacy receipt is archived |
| CaptureProtocol.BeginCompletes | hooks/lib/ai-work-capture-v1.js:162-165 | After its remote calls a begin leaves the receipt unmarked and reporting resumed |
| CaptureProtocol.ReceiptStaysAsBegun | hooks/lib/ai-work-capture-v1.js:142-194 | In every run a goal-scoped receipt differs from what was first saved only in the mark and what is pending |
| CaptureProtocol.SubmissionIsAsCommitted | hooks/lib/ai-work-capture-v1.js:180-190 | In every run a submission is for a new commit, carries the criteria its unit was begun with and the version reported last, and was not captured yet |
| CaptureProtocol.CheckpointAsksIff | hooks/lib/ai-work-capture-v1.js:168-181 | A checkpoint asks the server iff neither the marker nor the receipt is paused |
| CaptureProtocol.CommitBecomesPendingIff | hooks/lib/ai-work-capture-v1.js:182-189 | A clean commit becomes pending iff it is neither the starting one nor already captured under the same criteria |
| CaptureProtocol.RetryIsSent | hooks/lib/ai-work-capture-v1.js:182-191 | What is pending already is sent again as it is |
| CaptureProtocol.PendingIsSubmitted | hooks/lib/ai-work-capture-v1.js:190-195 | What is pending is sent, stored as it is, acknowledged and then cleared |
| ReceiptArchive.ReceiptIsNeverLost | hooks/lib/ai-work-recovery-v1.js:29-50 | Through any crash the bytes of a legacy receipt that a `begin` found are in the active file or the archive |
| ReceiptArchive.ArchivedNamesAreComplete | hooks/lib/ai-work-recovery-v1.js:37-49 | An archived name holds complete bytes of its digest and never changes |
| ReceiptArchive.DetachedOnlyAfterArchiving | hooks/lib/ai-work-capture-v1.js:152-157 | A legacy receipt is replaced only when its own bytes are archived, also under a shared digest, and never by another legacy one |
| ReceiptArchive.AloneArchivesAndReplaces | hooks/lib/ai-work-recovery-v1.js:29-50 | From every reachable state, a begin that runs alone archives the legacy receipt under a free digest and replaces it, replaces it when it is archived already, and keeps it when other bytes hold the digest |
| ShellWords.SegmentWords | hooks/lib/bash-source-write-parse.js:453-531 | The index loop with its jumps computes the specified tokens and always progresses |
| ShellWords.FindBraceEnd | hooks/lib/bash-source-write-parse.js:407-443 | The loop finds the specified end of a braced expansion |
| ShellWords.ReadDoubleQuoted | hooks/lib/bash-source-write-parse.js:504-520 | The loop reads the specified double-quoted text |
| ShellAnsi.DecodeAnsi | hooks/lib/bash-source-write-parse.js:360-405 | The loop over escapes gives everything they stand for up to the first null character |
| ShellAnsi.EscapesAreRead | hooks/lib/bash-source-write-parse.js:360-405 | For every string written with letters, octal, hexadecimal, code point and control escapes: it is read as what they stand for |
| ShellAnsi.PrintedIsRead | hooks/lib/bash-source-write-parse.js:360-405 | Every text without null characters is read back from its escaped print |
| ShellBraces.ExpansionEnds | hooks/lib/bash-source-write-parse.js:407-443 | A braced expansion ends at its own closing brace, however expansions, strings and quotes are nested in it |
| ShellQuoting.SegmentWordsIsLossless | hooks/lib/bash-source-write-parse.js:453-531 | Tokens are disjoint and ordered, and everything outside them is white space |
| ShellQuoting.ReadsQuoted | hooks/lib/evidence-run-v1.js:572-574 | Reading a quoted value anywhere in a line adds exactly that value to the word |
| ShellParts.ReadsParts | hooks/lib/bash-source-write-parse.js:489-526 | Reading a word made of bare, escaped, single-quoted, double-quoted, ANSI-C and expanded parts adds exactly what the parts stand for |
| ShellLines.LineIsRead | hooks/lib/bash-source-write-parse.js:453-531 | Every line of such words and of redirections, with or without descriptors, is read as exactly its items |
| ShellLines.SegmentWordsUndoesQuoting | hooks/lib/evidence-run-v1.js:572-574 | For every list of values, each printed in any of the ways to quote it, reading the space-joined prints gives those values back |
| ShellLines.PrintedIsOneWord | hooks/lib/edit-landing-receipt-v1.js:748 | What any printer prints for any value is read as one word, whose value is that value |
| GitTargets.GitTargets | hooks/lib/bash-source-write-parse.js:961-1058 | The option loop and the operand loops compute the specified targets |
| GitTargets.IsDryRun | hooks/lib/bash-source-write-parse.js:947-954 | The loop finds a dry run iff some flag asks for one and no later flag takes it back |
| GitReading.PlainLineIsRead | hooks/lib/bash-source-write-parse.js:975-1036 | For every plainly written line: the repository is where the `-C` operands lead one after the other, and every work tree and git directory is where its operand leads from there |
| GitReading.WrittenResolves | hooks/lib/bash-source-write-parse.js:1008-1011 | A written path leads down its names, up at `..`, and anew from the root when it is rooted |
| GitReading.HomeResolves | hooks/lib/bash-source-write-parse.js:2399-2406 | A tilde is the home directory, and a path after it leads on from there |
| GitReading.PathsAreNamedTrees | hooks/lib/bash-source-write-parse.js:1019-1049 | The paths are the operands after the verb of `worktree remove` and `worktree move` that spell a path, resolved from the repository |
| GitReading.ReadOnlyIff | hooks/lib/bash-source-write-parse.js:180-201 | A command changes nothing iff it only reports, ends dry, or has a verb that only lists |
| GitTargets.ReadOnlyIsIndependent | hooks/lib/bash-source-write-parse.js:1054 | Subcommand and read-only verdict are those of every substitution of the unexpanded operands |
| GitTargets.PathspecsAreNotFlags | hooks/lib/bash-source-write-parse.js:1019-1022 | Files named after a bare `--` never change the read-only verdict |
| GitTargets.AbsoluteIsIndependent | hooks/lib/bash-source-write-parse.js:961-1058 | A place reported as absolute is a candidate under every substitution of the unexpanded operands |
| GitTargets.ResolvedBaseIsIndependent | hooks/lib/bash-source-write-parse.js:961-1058 | Without an unexpanded directory operand every candidate and the repository are those of every substitution |
| GitTargets.UnusableHomeMisleads | hooks/lib/bash-source-write-parse.js:2399-2406 | For every home neither empty nor absolute there is a command line that misleads |
| Logs.NewestAt | hooks/lib/evidence-run-v1.js:632-637 | The newest entry of a kind is the last position that holds one |
| EvidenceDecision.DecideByNewest | hooks/lib/evidence-run-v1.js:630-664 | The filtered lists decide only by the newest entry of each kind |
| EvidenceDecision.PassIffNewestGreen | hooks/lib/evidence-run-v1.js:630-664 | Pass iff the log is trusted, nothing runs, and the newest full run on the tree is completed, unmutated, exit 0 and of the configured command |
| EvidenceDecision.PassIff | hooks/lib/evidence-run-v1.js:630-664 | The same by positions: no invalid record after the last full one, no running full one, a last one on the tree that is green |
| EvidenceDecision.AnswerIsExplained | hooks/lib/evidence-run-v1.js:630-664 | Every answer, not only a pass, is explained by the newest entries of the log |
| EvidenceDecision.ExplanationIsUnique | hooks/lib/evidence-run-v1.js:630-664 | No two answers have the same explanation, so each is given iff its explanation holds |
| EvidenceDecision.EarlierFailuresAreCounted | hooks/lib/evidence-run-v1.js:656-657 | The reported count is that of all full runs on the tree that were not clean |
| EvidenceDecision.PassIsStable | hooks/lib/evidence-run-v1.js:556-561 | A pass stays one as time goes on and processes end |
| EvidenceCi.NewestByCommand | hooks/lib/evidence-run-v1.js:687-689 | The map keeps the newest entry of every command in the order of first insertion |
| EvidenceCi.LatestIsNewest | hooks/lib/evidence-run-v1.js:687-689 | Exactly the newest pooled entry of each command, once |
| EvidenceCi.DecideCi | hooks/lib/evidence-run-v1.js:666-700 | Filters, map and loop return the specified decision |
| EvidenceCi.CiPassesIff | hooks/lib/evidence-run-v1.js:666-700 | Pass or deferral iff trusted, idle, something pooled on the active tree, and the newest pooled run of every command green |
| EvidenceCi.CiAnswerIsExplained | hooks/lib/evidence-run-v1.js:666-700 | Every answer of the CI gate is explained by the newest entries of the log and of each command |
| EvidenceCi.TroubleIsTheFirst | hooks/lib/evidence-run-v1.js:687-696 | The trouble reported is that of the command that ran first among the red ones |
| EvidenceCi.CiPassIff | hooks/lib/evidence-run-v1.js:697-699 | A pass needs in addition that every pooled run is bound to a tree and one is a full run |
| EvidenceCi.CiPassIsLocalPass | hooks/lib/evidence-run-v1.js:630-700 | On one tree a CI pass is a local pass iff no invalid record follows the last full run and the newest full run has a start fingerprint and the configured command |
| EvidenceCi.CiPassImpliesPass | hooks/lib/evidence-run-v1.js:630-700 | With valid, fingerprinted records and no configured command a CI pass is a local pass |
| RecordIds.EarlierIdFirst | hooks/lib/evidence-run-v1.js:137 | Names made at an earlier time sort first |
| GroupPruning.GroupIds | hooks/lib/evidence-run-v1.js:979-985 | The grouping map holds the ids of every group, oldest first |
| GroupPruning.AllGroupsDoomed | hooks/lib/evidence-run-v1.js:986-993 | Going through the groups removes exactly the entries with enough newer ones of their group |
| GroupPruning.NewestInGroup | hooks/lib/evidence-run-v1.js:986-993 | Within a group the newest entry of a kind that is left is the newest there was |
| GroupPruning.NewestLeft | hooks/lib/evidence-run-v1.js:986-993 | The newest entry of a kind that pruning leaves is the last position of the log before that has the kind and stays |
| EvidencePruning.Store.Prune | hooks/lib/evidence-run-v1.js:972-1003 | The store afterwards holds exactly the newest records of every scope and those to keep, and no log without a record |
| PruningSafety.PassAfterPruning | hooks/lib/evidence-run-v1.js:972-994 | Whatever pruning removed, a pass afterwards was one before iff the log was trusted and nothing ran |
| PruningSafety.PruningNeverMakesAPass | hooks/lib/evidence-run-v1.js:972-994 | Removing valid finished records, with none to keep, never makes a pass |
| PruningSafety.PruningKeepsUnverifiedAnswer | hooks/lib/evidence-run-v1.js:641-648 | It never changes the answer on an unfingerprinted tree |
| PruningSafety.PassMadeByKeeping | hooks/lib/evidence-run-v1.js:990 | With ids to keep, a pass is made iff the log is trusted and idle, its newest run on the tree is red, and a kept green one has `limit` newer records of its scope and no later run on the tree that stays |
| PruningSafety.KeepingTheNewestIsHarmless | hooks/lib/evidence-run-v1.js:990 | Keeping entries that stay anyway changes nothing |
| PruningSafety.KeepingMakesAPass | hooks/lib/evidence-run-v1.js:990 | Every log of a kept green run, a removed red one and later runs elsewhere turns from blocked to passing |
| PruningSafety.KeepingAnOldRunMakesAPass | hooks/lib/evidence-run-v1.js:1286 | For every limit a stored log shows it |
| PruningSafety.CiPassMadeByPruning | hooks/lib/evidence-run-v1.js:972-994 | In CI mode a pass is made iff the log is trusted and idle, a judged run stays, some command is red, and the newest run of every red one has `limit` newer records of its scope |
| PruningSafety.CiPassAfterPruning | hooks/lib/evidence-run-v1.js:972-994 | A pass after pruning was one before iff the newest run of every red command has fewer |
| PruningSafety.PruningUnblocksCi | hooks/lib/evidence-run-v1.js:972-994 | For every limit a stored log shows a failed command that is forgotten |
| Acceptance.GroupRecords | hooks/lib/acceptance-verify-v1.js:559-563 | The map holds the records of every criterion, oldest first, its keys in order of appearance |
| Acceptance.Evaluate | hooks/lib/acceptance-verify-v1.js:558-608 | The loops produce the specified rows of planned and removed criteria |
| AcceptanceGate.ActiveRow | hooks/lib/acceptance-verify-v1.js:573-593 | An active row passes iff the newest record with the current digest on the current tree passes |
| AcceptanceGate.ActiveRowIsExplained | hooks/lib/acceptance-verify-v1.js:573-593 | What the row of an active criterion says, in terms of its newest records of any text, of its text, and on the tree |
| AcceptanceGate.DeprecatedRowIsExplained | hooks/lib/acceptance-verify-v1.js:568-572 | A deprecated criterion blocks iff its newest verdict is not a pass |
| AcceptanceGate.RowsAre | hooks/lib/acceptance-verify-v1.js:564-606 | The rows are those of the planned criteria in their order, and then one for each removed criterion that blocks |
| AcceptanceGate.UnverifiedIff | hooks/lib/acceptance-verify-v1.js:802-818 | A pass is reported as unverified iff there is no fingerprint, and when the gate has no criteria or an untrusted newest record |
| AcceptanceGate.GatePassesIff | hooks/lib/acceptance-verify-v1.js:802-818 | The gate passes iff the plan is active, the newest record trusted, every active criterion verified and every other one settled |
| AcceptanceGate.DroppingCannotUnblock | hooks/lib/acceptance-verify-v1.js:568-572 | Deprecating or deleting a criterion whose newest record is not a pass leaves the gate closed |
| AcceptancePruning.Store.Prune | hooks/lib/acceptance-verify-v1.js:217-242 | The store afterwards holds of every criterion the newest verdicts, every invalid entry, and of these the newest of the session |
| AcceptancePruning.ActivePassSurvivesBackwards | hooks/lib/acceptance-verify-v1.js:217-242 | After pruning an active criterion passes only if it did before |
| AcceptancePruning.GateAfterPruning | hooks/lib/acceptance-verify-v1.js:217-242 | A pass after pruning was one before iff no inactive criterion lost a blocking record |
| AcceptancePruning.PassAfterPruningIff | hooks/lib/acceptance-verify-v1.js:217-242 | The same read off the log before: iff the newest blocking record of every inactive criterion has fewer survivors after it than the limit of the session |
| AcceptancePruning.WithinTheSessionLimit | hooks/lib/acceptance-verify-v1.js:235-236 | As long as the survivors fit the limit of the session, pruning makes no pass |
| AcceptancePruning.PruningForgetsRemovedCriterion | hooks/lib/acceptance-verify-v1.js:235-236 | A failed verdict on a removed criterion is forgotten once enough newer records follow |
| AcceptancePruning.SomeLogIsForgotten | hooks/lib/acceptance-verify-v1.js:235-236 | For all limits a stored log shows it |
| StreamReader.LinesAreIdeal | scripts/claude-stream-render.js:158-171 | The buffer loop hands on exactly the complete lines and keeps the unfinished one |
| StreamReader.ChunkingDoesNotMatter | scripts/claude-stream-render.js:146-175 | Any cutting of a text with even lines gives the events of the whole |
| StreamReader.ChunkingNeverMattersIff | scripts/claude-stream-render.js:146-175 | Cutting never matters iff no complete line is uneven |
| StreamReader.StreamIsItsLines | scripts/claude-stream-render.js:146-175 | For every written stream, in one chunk or, without uneven lines, in any: the events are its lines, oversized ones by notice, and the unfinished last one |
| StreamReader.CharBytesAreUtf8 | scripts/claude-stream-render.js:161-166 | A character counts as many bytes as its UTF-8 encoding, which reads back as it |
| StreamReader.UnevenLine | scripts/claude-stream-render.js:161-163 | A line is uneven iff it ends in a carriage return and has exactly the maximal size before it |
| StreamOutput.Renderer.EmitValue | scripts/claude-stream-render.js:84-95 | One value is written, skipped, or replaced by the notice that ends all output |
| StreamOutput.Renderer.ProcessLine | scripts/claude-stream-render.js:130-139 | A line is rendered once within the limit of events |
| StreamOutput.Renderer.Data | scripts/claude-stream-render.js:146-169 | A chunk updates buffer and flag and handles exactly the events it completes |
| StreamOutput.Renderer.End | scripts/claude-stream-render.js:171-175 | The end flushes what is pending and reports the event limit |
| StreamOutput.RenderStream | scripts/claude-stream-render.js:146-175 | Chunk by chunk the renderer writes the output of the whole stream |
| StreamOutput.OutputIsClipped | scripts/claude-stream-render.js:84-95 | The output is the longest start of all values that fits, and the notice iff that is not all of them |
| StreamOutput.OutputIsBounded | scripts/claude-stream-render.js:84-95 | With the notice the output fits three mebibytes |
| StreamOutput.OutputIgnoresChunks | scripts/claude-stream-render.js:146-175 | Two cuttings of a text with even lines give the same output |
| LogPrefix.ReadPrefix | hooks/lib/edit-landing-receipt-v1.js:259-288 | For every length, chunking and short read: the hash of the whole log iff the recorded prefix hash is that of its first bytes |
| AuditScope.PrepareScope | hooks/lib/edit-landing-receipt-v1.js:328-391 | The prepared scope, or the first fault in the order of the checks, of every receipt, readable or not, and every set of options |
| AuditScope.PreparedIff | hooks/lib/edit-landing-receipt-v1.js:328-391 | A scope is prepared iff the receipt can be continued and the dirty files passed in lie inside the project |
| AuditScope.FaultIsTheFirst | hooks/lib/edit-landing-receipt-v1.js:328-391 | Otherwise the fault names the first check that fails |
| AuditScope.DraftCarries | hooks/lib/edit-landing-receipt-v1.js:328-391 | What a prepared scope carries over: everything of its predecessor, or nothing of it when the root moved |
| AuditScope.PriorClaims | hooks/lib/edit-landing-receipt-v1.js:573-587 | The queues give every claim the previous claim of the same step, text and rank |
| AuditScope.PriorHasTheSameRank | hooks/lib/edit-landing-receipt-v1.js:573-587 | A prior has the same key and rank, and is missing only when those have run out |
| AuditScope.PriorsAreDistinct | hooks/lib/edit-landing-receipt-v1.js:573-587 | No previous claim is continued twice |
| AuditScope.PriorsOfGrownLog | hooks/lib/edit-landing-receipt-v1.js:573-587 | When claims were only added, each old one continues itself and each new one is new |
| AuditScope.PrepareClaims | hooks/lib/edit-landing-receipt-v1.js:589-623 | Dirty files, snapshots, observed files and the certificates that still hold |
| AuditScope.CertificateHoldsIff | hooks/lib/edit-landing-receipt-v1.js:589-623 | A certificate still holds iff the claim it continues had it for the same file and the file is unchanged |
| AuditScope.DirtyIff | hooks/lib/edit-landing-receipt-v1.js:589-623 | The dirty files are those of the draft, the claimed ones of an unresolved legacy receipt, and the suspect ones |
| AuditScope.SnapshotsAre | hooks/lib/edit-landing-receipt-v1.js:589-623 | Every claimed file has its snapshot, and files once seen present stay observed |
| AuditScope.StepContinues | hooks/lib/edit-landing-receipt-v1.js:452-467 | What one persisted audit may change of its predecessor |
| AuditScope.GenerationKeeps | hooks/lib/edit-landing-receipt-v1.js:328-391 | Over every chain of audits the log only grows, owner, baseline and epoch stay, and dirty files only grow unless the root moved |
| ContextPack.CopyNode | hooks/lib/context-auto-load-v1.js:122-149 | The copied node and whether anything of it is missing |
| ContextBudget.PlaceNode | hooks/lib/context-auto-load-v1.js:133-154 | Push, measure and pop: the node stays iff the message still fits |
| ContextBudget.BoundedPack | hooks/lib/context-auto-load-v1.js:105-158 | The nested loops place every node of every layer in order |
| ContextSafety.CopyIsWhole | hooks/lib/context-auto-load-v1.js:122-149 | Nothing was cut iff the copy holds every field and step in full |
| ContextSafety.PackIsSafe | hooks/lib/context-auto-load-v1.js:105-158 | The message fits, shows at most 64 nodes, counts them right, keeps their order, and its flag is off iff nothing is missing |
| ContextSafety.FitsAfterEveryNode | hooks/lib/context-auto-load-v1.js:150-154 | The size limit holds after every node |
| ContextSafety.PrimaryComesFirst | hooks/lib/context-auto-load-v1.js:106-109 | Related nodes never take room from primary ones |
| ContextChoice.LeftOutOnlyWithoutRoom | hooks/lib/context-auto-load-v1.js:122-154 | Every layer shows all its valid nodes but those for which the whole message has no room, by count or by size |
| ContextChoice.CopyShowsStarts | hooks/lib/context-auto-load-v1.js:111-148 | A copy shows a start of every listed string, of the full limit when cut, and the path up to its first invalid step, six steps at most |

## Left out

- ConsumeProtocol and CaptureProtocol and ReceiptArchive are relations over states as values, one atomic step each,
  because crashes and interleavings fall between the statements of a method.
- Fan-out records, idle sweeps, `fsync`, file modes, inode and link checks, and directories that cannot be created.
- CaptureProtocol.CheckpointAsksIff: the remote calls of `start` and `detail`, with their checks of account, host and
  metadata, are one step that reports a version and the last result, or fails.
- The parsing of prompt envelopes beyond hand-back frames and notification blocks; a launch's header check is one input.
- ShellAnsi.DecodeAnsi: characters are Unicode scalar values, so one half of a surrogate pair decodes to the replacement
  character, and a control escape of a character outside the basic plane takes it whole.
- GitTargets.GitTargets: POSIX paths only; Windows spellings and the detectors around the function are not modelled.
- GlobCompilers.GlobToRegExp: paths are one line; on a path with line breaks the two expressions differ by design of `.`.
- PersonaFanOut.Decide: the parsing of front matter is an input, and so is the answer of the regular expression engine.
- Corrections.CheckCorrection: token classes, file listings, prose words and white space normalization are parameters.
- EvidencePruning.Store.Prune: every unlink succeeds; the count of removed files is not returned.
- EvidenceCi.DecideCi: the key of the map is the pair of scope and command instead of the two joined by a zero character.
- EvidenceDecision.PassIff: the tree, the live processes and the clock are inputs; texts of causes and remedies are left out.
- Acceptance.Evaluate: the digest and the order of criterion ids are parameters; causes and listed paths are left out.
- AcceptanceGate.GatePassesIff: reading the plan is an input, and ids are in the order of the log.
- StreamOutput.Renderer.ProcessLine: parsing and rendering a line is a parameter over the tool names seen so far.
- StreamReader.ChunkingDoesNotMatter: characters are Unicode scalar values and chunks end between them.
- LogPrefix.ReadPrefix: hashing is an uninterpreted function, collision-free only where the growth of a log is concluded.
- AuditScope.PrepareScope: resolving directories and the log is an input; field types in a scope of the known schema are as written.
- AuditScope.PrepareClaims: predicate proofs, snapshot budgets, malformed manifests and the measured tree are left out.
- ContextBudget.BoundedPack: the bytes of a node and of the fixed frame are parameters; the sum of them is modelled.
- Process spawning, signals, sockets, calls to other programs, redaction and secret scanning.
- Adoption of sessions, session control and chain state.
