# Verified model of the compose agent's stateful cores

The agent rewrites a compose project's files, runs updates and answers retries on
one docker host. This project models the parts of it that keep state others depend
on, in Dafny, and proves what they promise for every input and every run:

- **Image writes** (`Env*`, `TextEdits`, `WritePlan`, `PlanOutcome`, `PlanRun`,
  `PlanImage`, `PlanDisk`, `PlanLimits`, `PlanTagLimit`, `Disk`, `ImageCheck`, `ImageWrite`, `Position`). A byte-exact dotenv scanner, the planner
  that turns a new image into edits of env files, the rendering of those edits, the
  all-or-nothing write, and the revert of any of its services. The main results are a
  put-get and frame law over all env files of a project, under every partial revert
  (`PlanOutcome.PlanSetsVariables`, from the images in `PlanRuns.RunSetsVariables`, on
  disk in `PlanDisks.SettledSetsVariables`), its exact condition at the end of a file
  (`EnvTail.KeptEditsRewrite`), and the algebra of reverts on disk.
- **Idempotency keys** (`Idempotency*`, `Json`, `KeyFold`, `Fingerprint`, `SameBody`). The
  protocol over a durable table as a state machine in which any number of requests,
  background writers, failing statements and process deaths interleave: at most one
  execution, an exclusive claim, faithful replay. The body fingerprint and its
  key-collision scanner, and the bounds of the table.
- **Project lock** (`ProjectLock`): entries counted by reference, created and dropped
  while threads wait, over every interleaving.
- **Health gate and budgets** (`HealthWait`, `Budget`): what each exit of the polling
  loops has seen, and the clamp in 64-bit arithmetic.
- **Owner record** (`OwnerMark`): index and directory mark after a crash at any step.
- **Log lines** (`LineWriter`): an in-place buffer against the split of the stream.

A file is a `string` whose chars are its bytes. Recursive functions say what a loop
computes, the loops are methods proved against them, and the laws are lemmas about
the functions. Docker's reference grammar, Unicode's tables, compose's loader, the
clock, polls and the outcome of each write are parameters: everything holds for every
choice of them.

## Findings

- A write reported as failed may have taken effect: the directory sync after the
  rename can fail. Then the failing file keeps its new bytes although every other one
  is restored (`ImageWrites.ImageWrite.WriteAll`), and after such a revert the file is
  never touched again (`ImageWrites.UnsyncedIsLeftAlone`). The comment on
  `writeServiceImages` (tagwrite.go:107-109) promises otherwise.
- A declaration goes to the line start of the first use. When that line start lies in
  an earlier multi-line quoted value, nothing is declared; exactly then
  (`EnvPlacement.DeclaredExactlyOutsideQuotes`; such a file is
  `PlanLimits.UseBehindQuotes`).
- A tag variable may hold more than the tag. The planner takes the current image's tag
  for what the variable holds; when it holds the end of the repository too, the new tag
  is written over both and the image is another one, which only the check after the
  write finds (`PlanTagLimits.TagVariableHoldsMore`, exactly when in
  `PlanImages.ChainComesBack` and `PlanImages.SpeltExactly`).
- Declarations appended to a file are lost or spoil its last line exactly when
  `EnvTail.TailHolds` is false. Without a last line break in the file this happens in
  three ways: the first of several appends is reverted alone, which takes the line
  break with it (`PlanLimits.SecondAppendGlues`); an empty last value is set by the
  same plan, before or after (`PlanLimits.SetBeforeAppend`, `PlanLimits.SetAfterAppend`);
  or the file ends in a bare name (`PlanLimits.BareNameBreaks`), which is read as a
  value of the empty key until a line break follows it (`PlanLimits.UnendedBareName`).
- At most once holds over every run whose prunes spare the rows of requests that run,
  release their key or record a refusal (`IdempotencyRuns.AtMostOnce`). The code does
  not spare them, and any prune that takes such a row can end in two executions
  (`IdempotencyLimits.UnsparedActsTwice`). In one of the two runs given no claim in
  flight is pruned, only a recorded row (`IdempotencyLimits.AmbiguousRefusalActsTwice`).
- The fingerprint is of the body without the Unicode white space around it, and the
  handlers read the body as sent, where only a space, tab, carriage return and line
  feed may precede a value. A form feed before `{"force":true}` keeps the fingerprint
  and loses the meaning: DELETE /v1/containers/:id (handlers.go:82) then acts without
  force, and replays that to the valid body; other routes record and replay a final
  refusal (`Fingerprint.FormFeedIsLost`, exactly when in
  `Fingerprint.FingerprintPreservesMeaning`).
- An owner that was taken back can return. When the index could not be saved after the
  mark was removed and the process later dies before an index is saved, the next load
  takes the owner from the old index and writes it into the directory again
  (`OwnerMarks.OwnerComesBackInRun`, exactly when in `OwnerMarks.CrashedOwner`).
- A container new in an update counts as swapped, so an update with a new container
  passes the swap wait although no known container was replaced, while the header of
  healthwait.go (lines 9-11) says that no swap at the timeout is a failure
  (`HealthWait.NewContainerIsSwapped`).
- A clamped budget may exceed what is left of the operation's, exactly when less than
  30 seconds are (`Budgets.ClampFitsExactly`), and absurd seconds wrap into a small
  accepted budget (`Budgets.BudgetWraps`).

## Model

| member | source | states |
|---|---|---|
| EnvScan.Scanner.ScanEnvStatements | envscan.go:43-110 | the loop returns exactly the statements of the recursive reading `ScanFile`, offsets counted past a byte order mark, and the same first error; what that reading gives is said of the parts of a written file by `EnvLines.FileReadsBack` |
| EnvLines.FileReadsBack | envscan.go:43-110 | written text reads back: any sequence of comment and blank lines, bare names, unquoted values with what their line holds after them, and quoted values, with `export`, blanks and either separator, scans to exactly the statements of its pieces, also behind a byte order mark |
| EnvLines.PiecesRead | envscan.go:43-110 | the same before any other text, which then reads as it would alone |
| EnvLines.SaidIsWritten | envscan.go:85-104 | the token of a written value is the bytes it was written with |
| EnvLines.LineReadsExactly | envscan.go:85-97 | after a name, a separator and blanks, a line has the value of its first n bytes if and only if they are all there is before the first ` #` or the line's end but white space, and do not end in white space |
| EnvLines.CommentedReads | envscan.go:85-97 | `name=value #comment` before any rest has the value as its token, and the rest reads as it would alone |
| EnvLines.UnendedReads | envscan.go:85-97 | the last line of a file reads the same without its line break |
| EnvLines.QuotedExactly | envscan.go:182-208 | a quoted value ends at the first quote an even number of backslashes precedes, and has no end exactly when an odd number precedes each |
| EnvLines.UnclosedQuote | envscan.go:98-101 | a value whose every later quote is escaped makes the whole text an unterminated quote |
| EnvLines.UnexpectedByte | envscan.go:156-165 | any other visible ASCII byte before a separator is the unexpected-character error |
| EnvLines.SpaceInKey | envscan.go:68-71 | two words before a separator are a key with a space, unless the first is `export` |
| EnvLines.ExportOfNothing | envscan.go:141-168 | an `export` with nothing but blanks after it is the empty-text error |
| EnvScan.Scanner.EnvStatementStart | envscan.go:114-136 | the search stops at the first byte that is neither white space nor in a comment line, or finds nothing |
| EnvScan.Scanner.EnvLocateKey | envscan.go:140-171 | the key, the offset past its separator and whether the line is bare, with an `export` prefix skipped; the unexpected-character and empty-text errors |
| EnvScan.Scanner.EnvQuotedEnd | envscan.go:182-208 | the closing quote is the first one no backslash escapes |
| EnvLaws.ScanOrdered | envscan.go:43-110 | value tokens lie inside the file, in order, with a byte between any two |
| EnvLocal.FirstLocal | envscan.go:43-110 | a statement that ends in a line break or a closing quote is read from its own bytes alone |
| EnvEnd.FreeConcat | envscan.go:43-110 | after white space, a line break or a closing quote the scan starts over: what follows reads as it would alone, and so does its end |
| EnvEnd.Split | envscan.go:43-110 | any other text is a front with such an end and the part left open: a last comment, or a last statement, without a line break |
| PlanLimits.UnendedBareName | envscan.go:62-77 | a bare name that ends the file without a line break is read as a value of the empty key |
| EnvLaws.ReplaceScan | tagwrite.go:481-482 | replacing one value token leaves every statement in place: same keys, quotes and order, later offsets moved by the difference |
| EnvInsert.InsertScan | tagwrite.go:488-490 | a declaration at a line start where no statement is under way is one new statement, all others unchanged |
| EnvQuoted.InsertOkOutsideQuotes | tagwrite.go:518-526 | a line start is safe for a declaration exactly when no quoted value spans it |
| EnvQuoted.InsideQuotes | tagwrite.go:518-526 | a line written at a line start inside a quoted value declares nothing: every statement is the one it was, but for that value, which is longer by the line |
| EnvPlacement.DeclaredExactlyOutsideQuotes | tagwrite.go:488-526 | a declaration is one new statement with all others unchanged if and only if no quoted value spans its line start |
| EnvPlacement.AppendIsPlanned | tagwrite.go:491-494 | the end of a file that is empty or ends in a line break is a place for a declaration, after every statement |
| EnvPlacement.LineStartBefore | tagwrite.go:521-525 | the line start of an offset: past the last line break before it, or past the byte order mark |
| EnvAppend.Ended | tagwrite.go:593-605 | a line break after a file that does not end in a bare name changes none of its bindings, and frees its end |
| EnvAppend.AppendedExactly | tagwrite.go:593-605 | appended declarations are new last bindings, all others as they were, if and only if the end is free, or a line break comes first and the file does not end in a bare name |
| EnvAppend.EmptyTakes | envscan.go:43-110 | an empty last value takes the text that follows it on its line |
| PlanLimits.SetBeforeAppend | tagwrite.go:593-605 | `A=` given a value and then appended to: the append brings no line break and A takes its line |
| PlanLimits.SetAfterAppend | tagwrite.go:593-605 | `A=` appended to and then given a value: the value becomes a last line of its own |
| PlanLimits.SecondAppendGlues | tagwrite.go:841-879 | `A=1` with two appends, the first reverted: its line break goes with it and A takes the second line |
| PlanLimits.BareNameBreaks | tagwrite.go:593-605 | a file that ends in a bare name: the append turns that name into a line that inherits its value |
| PlanLimits.UseBehindQuotes | tagwrite.go:518-526 | a file whose first use of V is on the line on which a quoted value ends: the declaration goes to that line start, inside the quoted value, and is no statement |
| TextEdits.AddEdit | tagwrite.go:607-615 | an edit is added exactly when it overlaps none of the file's edits |
| TextEdits.OnePassExactly | tagwrite.go:660-672 | sorted by start, edits can be applied in one pass exactly when none overlap and no insertion follows a replacement at its offset |
| TextEdits.ApplyEdits | tagwrite.go:660-672 | one sorted pass over the buffer is the splice of every edit from the last to the first |
| TextEdits.RenderedLength | tagwrite.go:660-672 | the new length is the old one plus the sum of the edits' differences |
| TextEdits.RenderedKeeps | tagwrite.go:660-672 | every byte outside the edits is in the result, moved by the growth of the edits before it |
| TextEdits.RenderedKeepsOrder | tagwrite.go:660-672 | the bytes kept stay in order |
| TextEdits.KeptEdits | tagwrite.go:856-867 | the edits some service outside the reverted ones owns, in plan order |
| EnvRewrite.ChangesRender | tagwrite.go:660-672 | rendering any planned changes scans to the original bindings with exactly those changes applied |
| EnvTail.FrontsKeep | tagwrite.go:660-672 | changes before the end of a file leave its end as it was, and an empty last value too |
| EnvTail.PlannableNeverCollide | tagwrite.go:607-615 | the edits of planned changes to different statements, and of appends, neither overlap nor cross |
| EnvTail.ArrangedExactly | tagwrite.go:593-605 | a plan in text order gives the original bindings with exactly its changes if and only if the end holds what is appended (`TailHolds`): nothing is appended, or no empty last value is set, the file does not end in a bare name, and its end is free or a kept append brings the line break |
| EnvTail.FileRewritten | tagwrite.go:619-672 | a rewritten file, byte order mark included, reads as the original bindings with the plan's changes, whatever order they were planned in, if and only if its end holds what is appended |
| EnvTail.KeptEditsRewrite | tagwrite.go:841-879 | for every set of reverted services, the bytes rebuilt from the original can be rendered, and read as the original bindings with exactly the kept changes if and only if the file's end holds the appends kept |
| EnvEval.EvalSet | tagwrite.go:539-589 | setting the assignment a key is taken from changes that key and no other |
| EnvEval.EvalDeclare | tagwrite.go:484-494 | declaring a key nothing assigns adds that key and changes no other, wherever it stands |
| EnvEval.EvalAll | tagwrite.go:442-501 | any set of such changes to different keys sets exactly those keys |
| EnvProject.SoundPart | tagwrite.go:841-867 | dropping or reordering changes within files keeps a plan sound |
| EnvProject.ProjectLeft | tagwrite.go:841-879 | after a revert of any services, when each file's end holds the appends kept, all env files scan and their common environment is the original one with exactly the kept targets set |
| EnvTemplates.WholeVarExactly | tagwrite.go:365-380 | a value is followed as a whole-value reference exactly when it is `$NAME`, or `${NAME}` with at most one operator and a default without `$` or braces |
| EnvTemplates.TrailingTagExactly | tagwrite.go:365-388 | a value is followed as a trailing tag exactly when it is a repository without `@`, a colon, and one such reference |
| EnvTemplates.TagChangeExactly | tagwrite.go:392-418 | a tag change is accepted exactly when the two images share the spelling of the repository and the new tag is a plain one |
| EnvTemplates.TagIsSafe | tagwrite.go:392-418 | the tag of an image over docker's alphabet is a safe value |
| EnvTemplates.FollowedIsUse | tagwrite.go:506-529 | a template that is followed is one of the uses a declaration must precede |
| EnvTemplates.UsedExactly | tagwrite.go:507-507 | anywhere in a text `$NAME` is a use exactly when no name byte follows it, and `${NAME` exactly when the brace or an operator does |
| WritePlans.WritePlan.AssignmentFor | tagwrite.go:545-589 | the last statement over all env files that declares the name, bare lines counting when the process or an earlier line has it; the refusals for a missing or unparsable file, an inherited name, and no env file |
| WritePlans.WritePlan.FirstUse | tagwrite.go:506-529 | the first statement in load order whose value, not single-quoted, references the name, and the start of its line |
| WritePlans.WritePlan.AppendText | tagwrite.go:593-605 | a line break first exactly when the file has bytes, does not end in one, and no other edit is appended |
| WritePlans.WritePlan.AddEdit | tagwrite.go:607-615 | the plan gains the edit, or is refused unchanged when it overlaps |
| WritePlans.WritePlan.PlanVar | tagwrite.go:442-501 | ends at the variable the chain of templates leads to, at most eight deep; refuses exactly where the chain does or values differ; otherwise shares the variable's edit or adds the one edit it needs |
| EnvPlan.FollowedIsWritten | tagwrite.go:456-477 | a chain ends at a variable outside the process environment that is no template, with a value that can be written |
| EnvPlan.FollowedIsSafe | tagwrite.go:442-477 | an image in docker's alphabet is never refused for its bytes, and what a chain of templates makes of it stays in the alphabet |
| PlanImages.ChainComesBack | tagwrite.go:456-477 | put-get through the templates: with the planned value in the variable a chain ends at, the variable it starts at expands to the image asked for, if and only if no tag template is followed or the current image is that template's repository, a colon, and the image's own tag |
| PlanImages.SpeltExactly | tagwrite.go:392-418 | for an image its variable gives today, that is so exactly when the tag variable holds the image's tag and nothing more |
| PlanTagLimits.TagVariableHoldsMore | tagwrite.go:392-474 | `IMG=reg:${X}` and `X=5000/app:1.0`, asked for reg:5000/app:2.0: the plan writes 2.0 to X, and IMG is then reg:2.0 |
| PlanImages.WritableReadsBack | tagwrite.go:443-445 | an ASCII value the guard lets through reads back as itself, on a line of its own and between either quotes, before any rest |
| EnvPlan.LineEndingIs | tagwrite.go:531-536 | a file with a carriage return and line feed anywhere gets that line ending, one without a carriage return the plain one |
| EnvPlan.TakenIsLast | tagwrite.go:545-589 | the assignment a variable is taken from is the last mention of it, so setting it sets the variable |
| PlanOutcome.PlanIsSound | tagwrite.go:442-501 | every edit of a plan takes effect in the whole project, and no two set one variable |
| PlanOutcome.CleanIsSound | tagwrite.go:442-501 | with safe values and no declaration inside a quoted value, each file's edits are those of its planned changes |
| PlanOutcome.PlanSetsVariables | tagwrite.go:442-529 | put-get and frame law under every revert, when each file's end holds the appends kept: the files scan, each variable some kept service needs has its new value, and every other key keeps its bytes |
| PlanOutcome.LeftFileExactly | tagwrite.go:841-879 | what a revert leaves of a planned file reads as the original with exactly the kept changes if and only if its end holds the appends kept |
| PlanOutcome.TerminatedHolds | tagwrite.go:593-605 | the end of a file that is empty or ends in a line break holds whatever any revert keeps |
| PlanOutcome.WholePlanHolds | tagwrite.go:593-605 | with nothing reverted, the end of a file holds what is appended if and only if nothing is, or the file does not end in a bare name and no empty last value is set |
| PlanRuns.RunPlans | tagwrite.go:124-138 | planning images in docker's alphabet for services in turn keeps one safe change a variable, owned by planned services only, and sets each service's variable |
| PlanRuns.RunSetsVariables | tagwrite.go:107-141 | the put-get law from the target images: after any revert the variable each service not reverted takes its image from expands to that image through its templates, exactly when its current image is spelled as its tag template says, and no key changes but those the plan sets |
| PlanDisks.Render | tagwrite.go:619-638 | the states of the env files that have edits, in the order the planner first reads them, each with the text its edits make |
| PlanDisks.RenderedHolds | tagwrite.go:619-638 | a rendered plan is what the write may start with: distinct paths, edits that apply, owners among the targets |
| PlanDisks.SettledSetsVariables | tagwrite.go:841-896 | whenever the last write or revert left the files without a failure, the env files on disk scan and give the environment of the put-get law |
| PlanDisks.WriteThenRevert | tagwrite.go:107-166 | plan, write, verification and reverts composed: a commit and any run of reverts without a failure leave env files on disk that scan to the promised environment |
| PlanOutcome.EveryVariableStays | tagwrite.go:442-501 | with nothing reverted, every planned variable stays set |
| PlanOutcome.RevertedFileIsWritten | tagwrite.go:841-879 | the bytes a revert leaves of a planned file are those the put-get law reads, and can always be rendered |
| PlanOutcome.DeclarationPrecedesUses | tagwrite.go:436-441 | a declaration precedes, in load order, every value that references its variable |
| PlanOutcome.CleanNeverOverlaps | tagwrite.go:607-615 | adding a clean edit to a clean plan is never refused |
| PlanOutcome.PlanVarOwnsOne | tagwrite.go:446-453 | a planned service owns exactly one edit, and no other service's edits change |
| PlanOutcome.EveryServiceOwnsOne | tagwrite.go:124-138 | after planning distinct services in turn, each owns exactly one edit |
| ImageChecks.VerifyImages | tagwrite.go:713-755 | no problem is found exactly when the load is the earlier one with the targets' images and nothing else changed |
| Disks.Disk.RestoreFile | tagwrite.go:816-834 | the content is back, or the file gone, unless the write failed before it took effect; a file already gone is no failure |
| ImageWrites.ImageWrite.RestoreFiles | tagwrite.go:807-813 | every file is restored unless its own write has no effect, whatever else fails; success exactly when each write succeeds or its file is already gone |
| ImageWrites.ImageWrite.WriteAll | tagwrite.go:791-802 | all files are written exactly when every write succeeds; else the first failing write is named, the files before it are restored when their restores succeed, and the disk is as it was if and only if the failing write had no effect or wrote what was there |
| ImageWrites.ImageWrite.WriteVerified | tagwrite.go:142-165 | commits exactly when every write succeeds and the reload differs in the targets' images only; otherwise, when the restores succeed, the disk is as it was, but for a failing write that took effect |
| ImageWrites.ImageWrite.KeepEdits | tagwrite.go:856-867 | the kept edits, all their owners, and whether a service named now keeps its image because it shares one |
| ImageWrites.ImageWrite.Revert | tagwrite.go:841-896 | each file the agent left as it is becomes the original with the edits still needed, any other is untouched; reverted services accumulate; the four kinds of problem are reported exactly |
| ImageWrites.SharedExactly | tagwrite.go:856-867 | a revert reports a shared edit exactly when a target it names has an edit together with a service that keeps its new image |
| ImageWrites.KeptTargetsExactly | tagwrite.go:852-896 | the images a revert then asks the load for are those of exactly the targets that have an edit it keeps |
| ImageWrites.KeptCanApply | tagwrite.go:660-672 | edits that can be applied in one pass still can when some are dropped |
| ImageWrites.RevertsAccumulate | tagwrite.go:841-884 | the services a run of reverts leaves reverted are the targets any call named: order and grouping do not matter |
| ImageWrites.AllReverted | tagwrite.go:841-879 | once every target is reverted, a file has its original bytes, or is absent again |
| PlanDisks.RevertEach | tagwrite.go:841-896 | after any run of reverts without a failure each file is its original with the edits of services no call named; once every target was named the disk is as the write found it |
| ImageWrites.NothingReverted | tagwrite.go:841-879 | with nothing reverted, a file is what the write put there |
| ImageWrites.UnsyncedIsLeftAlone | tagwrite.go:869-882 | a revert whose write took effect and was reported failed makes every later revert leave that file alone |
| Positions.ByteOffset | tagwrite.go:675-692 | the loops find the offset of a line and rune column, or that there is none |
| Positions.PositionExactly | tagwrite.go:675-692 | an offset is found for a line and column exactly when it starts a rune, or ends the text, and stands there |
| IdempotencyStore.Store.Claim | idempotency.go:294-343 | an answer kept in memory decides first; a claim is taken only when an insert found the key free; a refusal is what was read, or three tries that found the key taken and then freed |
| IdempotencyStore.Store.RecordOn | idempotency.go:360-376 | the answer is stored when the key is free or holds this body's claim, and never over another answer |
| IdempotencyStore.Store.ReleaseKey | idempotency.go:379-384 | whatever is left under the key is a recorded answer, so no later claim of it is told that a request is in flight; no other row and no answer changes; it is the protocol's release step |
| IdempotencyStore.ReleaseUndoesClaim | idempotency.go:294-384 | a claim released is as if it had never been made |
| IdempotencyStore.ReleaseSparesAnswers | idempotency.go:360-384 | a release after the answer was recorded takes nothing away |
| IdempotencyStore.Store.KeepPending | idempotency.go:388-396 | an answer kept is what every later claim of its key is told, as a replay or as another body, other keys are told what they were, and never more than 1024 are kept; it is the protocol's step |
| IdempotencyStore.Store.Sweep | idempotency.go:427-433 | every claim in flight is gone, every answer is left as it was, and the claims are counted |
| IdempotencyStore.RecordedIsReplayed | idempotency.go:294-376 | a recorded answer is what the next request with its key and body is told, and one with another body is refused |
| IdempotencyStore.AloneClaimsFreeKeys | idempotency.go:294-343 | with nobody else writing, a claim is refused only for a row that is there, and says what that row says |
| Idempotency.StepKeepsExclusive | idempotency.go:294-384 | every step that spares the rows of unsettled requests keeps their rows and at most one of them a key |
| Idempotency.StepKeepsGripExclusive | idempotency.go:294-384 | every step that spares the rows of requests that run, release or record a refusal keeps their rows, and at most one of them a key |
| Idempotency.StepKeepsProtected | idempotency.go:660-757 | once a request has acted, every step keeps its row there and no request that may act for its key or release it, until a death or a prune of the row |
| IdempotencyRuns.AtMostOnce | idempotency.go:294-473 | over every run whose prunes spare the rows of requests that run, release or record a refusal, two executions below 400 with one key have a death or a prune of its row between them |
| IdempotencyLimits.UnsparedActsTwice | idempotency.go:445-473 | after any run, a prune that takes such a row can be continued to two executions with one key, with no death and no prune between them |
| IdempotencyRuns.ExclusiveClaim | idempotency.go:294-343 | at every point of a run whose prunes spare the rows of all unsettled requests, at most one request with a key is between claim and settlement, and its row is there |
| IdempotencyRuns.NoClaimAfterActing | idempotency.go:388-423 | from the moment a request acts, through every hand-over of its answer, no insert claims its key |
| IdempotencyRuns.RecordedStays | idempotency.go:360-384 | whatever the step, a recorded answer stays as it is or is deleted by a prune |
| IdempotencyRuns.FaithfulReplay | idempotency.go:294-343 | over every run, what is replayed was answered by an earlier execution with the same key and body |
| IdempotencyRuns.FaithfulReuse | idempotency.go:330-333 | a key is refused as reused only when it was claimed for a different body |
| IdempotencyAnswers.AnswersAreRecorded | idempotency.go:725-754 | over every run, the next thing a request does after a final answer is to record it; a statement that succeeds leaves it under the key unless another answer or another body's claim is there, and then changes nothing |
| IdempotencyAnswers.FailuresAreNotReplayed | idempotency.go:725-731 | over every run no retry is answered with a status of 500 or above |
| IdempotencyLimits.AgedClaimActsTwice | idempotency.go:445-452 | a run in which a claim pruned by age while its request runs lets two requests act |
| IdempotencyLimits.AmbiguousRefusalActsTwice | idempotency.go:735-752 | a run, with prunes of recorded rows only, in which a refusal stored by a failed statement is pruned before its release, and two requests act |
| IdempotencyPrune.BySizeExactly | idempotency.go:454-471 | the size stages remove exactly the oldest recorded rows beyond the longest newest run of at most 5000 rows and 2 MiB; rows in flight and the order stay |
| IdempotencyPrune.NewestIsLongest | idempotency.go:454-471 | no longer newest run is within both caps |
| IdempotencyPrune.BySizeTwice | idempotency.go:454-471 | repeating the size stages changes nothing, and no row in flight goes |
| IdempotencyPrune.ByAge | idempotency.go:446-453 | a row goes exactly when it is older than the window and not this process's, or the process has been up for longer |
| IdempotencyPrune.AgeTakesInFlight | idempotency.go:446-453 | the age stage does not exempt a claim in flight |
| Json.JsonKeysCollide | idempotency.go:559-613 | the loop over tokens computes the machine `Meets` |
| Json.MeetsValue | idempotency.go:559-613 | read from any parse position that expects a value, a whole value meets a repeat exactly when it has a collision, and then the enclosing object expects its next key |
| Json.CollideExactly | idempotency.go:556-613 | on the tokens of any JSON value the stack machine answers as the recursive definition does |
| KeyFold.FoldJSONKey | idempotency.go:619-641 | a key becomes the smallest runes of its runes' folding orbits |
| KeyFold.FoldedExactly | idempotency.go:615-641 | two keys fold to one exactly when they are equal rune by rune up to case folding |
| Fingerprint.NormalizeServiceSet | idempotency.go:531-554 | a top-level list of names becomes sorted and without duplicates; any other value is left alone |
| Fingerprint.SortedSetExactly | idempotency.go:546-553 | two lists of names are sorted and deduplicated to one exactly when they name the same services |
| Fingerprint.FingerprintPreservesMeaning | idempotency.go:510-525 | two bodies with one fingerprint bind to one request, fields by folded key with the last one winning and services read as a set, if and only if both or neither start with JSON's own white space alone, or they bind to nothing anyway |
| Fingerprint.TrimmedMeaningKept | idempotency.go:510-525 | without the white space around them, bodies with one fingerprint always bind to one request |
| Fingerprint.FormFeedIsLost | idempotency.go:511-512 | a form feed before a body: one fingerprint with the body alone, and the handler reads nothing, so a route that ignores the error acts without `force` |
| Fingerprint.HashedBytesExactly | idempotency.go:510-525 | equal hashed bytes come from equal forms, canonical or the trimmed bytes as sent |
| SameBodies.FingerprintExactly | idempotency.go:500-556 | two bodies have one fingerprint if and only if both are one JSON value without colliding keys and the values differ only in the order of members at any depth, and in the order and repetition of a top-level list of services; or neither is, and they are the same bytes but for the white space around them |
| SameBodies.DecodedExactly | idempotency.go:513-517 | two values without colliding keys decode to one exactly when they differ in the order of members alone |
| SameBodies.ReorderedIsOneRequest | idempotency.go:500-517 | one object with its members in another order, and other white space, has one fingerprint |
| Fingerprint.CollidingOrderMatters | idempotency.go:505-509 | two members whose keys fold to one decode alike in either order, and bind differently |
| ProjectLocks.StepKeepsInv | projectlock.go:58-112 | every step of any interleaving keeps entries current and counted, and at most one token out |
| ProjectLocks.AtMostOneHolder | projectlock.go:58-95 | at every point of every run at most one thread has a key's lock |
| ProjectLocks.WaitersAreCurrent | projectlock.go:58-112 | a thread's entry is the one in the map, and its count is the number of holders and waiters |
| ProjectLocks.HolderIsTrue | projectlock.go:84-104 | the name an entry has was given by a thread that has held the lock ever since |
| ProjectLocks.HolderIsNamed | projectlock.go:82-104 | a thread that holds a lock is named in its entry, by the name it gave |
| ProjectLocks.NothingLeft | projectlock.go:106-112 | when every thread has finished the map is empty |
| ProjectLocks.Table.CountIn | projectlock.go:59-66 | acquire's first section is the step, and the thread counts the entry in the map |
| ProjectLocks.Table.TryNow | projectlock.go:68-71 | the attempt that does not wait is the step, and says whether the lock was got |
| ProjectLocks.Table.DropOne | projectlock.go:106-112 | drop is the step; the entry stays in the map exactly when another thread counts it |
| HealthWait.Waiter.SwapPoll | healthwait.go:170-196 | one poll adds exactly the containers new, replaced, or back after missing, and dates the first known swap |
| HealthWait.Waiter.WaitForSwap | healthwait.go:158-232 | where it ends is a fact of the polls, and every exit with what it saw: all swapped, grace over, some or none at the deadline, or cancelled; polling ends with the deadline |
| HealthWait.SwappedExactly | healthwait.go:170-196 | a known container counts as swapped exactly when some poll saw another ID, or saw it again after missing |
| HealthWait.NewContainerIsSwapped | healthwait.go:175-179 | a container new in the update counts as swapped, so the wait cannot then fail for lack of swaps |
| HealthWait.Waiter.HealthPoll | healthwait.go:257-309 | one poll gives every container its status and says whether all are fine and whether one loops |
| HealthWait.Waiter.NotHealthyIn | healthwait.go:338-357 | the containers whose status is not fine, excluded or not |
| HealthWait.Waiter.WaitForHealth | healthwait.go:236-334 | it goes on exactly while no poll finds all fine or a crash loop against the first poll, the deadline has not passed and nothing cancels; it reports every status of the last poll, the containers not fine, and why it ended |
| HealthWait.SwapWaitsOnce | healthwait.go:158-232 | the polls, the clock and the cancellation leave one place for the swap wait to end |
| HealthWait.HealthWaitsOnce | healthwait.go:236-334 | and one for the health wait |
| HealthWait.CrashLoopFails | healthwait.go:257-313 | a crash loop any poll finds ends the wait there, and fails it |
| HealthWait.Waiter.Wait | healthwait.go:93-154 | the health wait starts, with its restart baseline, where the swap wait ended; no error exactly when the last poll inspected every container running, within baseline and threshold, and healthy or without a check unless excluded; a crash loop is an error |
| HealthWait.UnhealthyExactly | healthwait.go:302-345 | the containers reported are exactly those the last poll did not find up |
| Budgets.ClampBudget | stackengine.go:238-266 | the assignments compute `ClampOf`, the sum in 64 bits included |
| Budgets.ClampKeepsHealth | stackengine.go:232-266 | with 30 seconds of net budget the pair fits it, swap never grows or goes negative, and a health budget that can be kept is kept |
| Budgets.ClampTwice | stackengine.go:238-266 | clamping twice is clamping once |
| Budgets.SwapYieldsFirst | stackengine.go:232-266 | health is cut only when swap is down to 30 seconds at most, and then to what the net budget leaves beside 30 seconds |
| Budgets.ClampFitsExactly | stackengine.go:238-266 | a clamped pair fits exactly when the net budget is at least 30 seconds |
| Budgets.RollbackDeadline | stackengine.go:201-207 | the larger of ten minutes and swap, health and five minutes |
| Budgets.BudgetOf | stackengine.go:319-328 | whatever is accepted is in (0, 24h], also when the multiplication wraps; up to 24h seconds are exact |
| Budgets.BudgetOfExactly | stackengine.go:319-328 | which seconds are accepted, and as what duration, modulo 2^64 |
| Budgets.BudgetWraps | stackengine.go:323-325 | 20211507185753197 seconds are accepted as 512 nanoseconds |
| Budgets.EffectiveHealthTimeouts | stackengine.go:280-310 | for swap and for health separately, a usable request value, else a usable project value, else the host's; the pair is the result when it fits the net budget or there is no budget, and is the pair that is clamped otherwise |
| Budgets.RequestWins | stackengine.go:283-296 | 1 to 86400 seconds of the request are the budget whatever the project and host say; with none of the request's, the project's; with neither, the host's |
| Budgets.NetIs | stackengine.go:238-247 | what is kept back is five minutes of a long operation and a third of a short one |
| OwnerMarks.Registry.Load | projects.go:176-233 | each entry, in its turn, takes the owner its directory then names, an owner without a mark is written, also when entries share a directory; a mark or index that cannot be written is left; nothing else changes |
| OwnerMarks.Registry.Register | projects.go:357-397 | the states it goes through are mark, old mark, index, file, in that order; refused with nothing changed for no name or an owner that may not be written |
| OwnerMarks.CrashConsistent | projects.go:357-397 | after a crash at any step, however old the index on disk is, the next load makes index and directories agree, and every entry has the owner the register left named in its directory, or the one on disk when no mark is there |
| OwnerMarks.CrashedOwner | projects.go:357-397 | that is the owner before, the one asked for or the one on disk, and neither of the first two if and only if the mark is gone and the one on disk is neither |
| OwnerMarks.CrashAfterSave | projects.go:357-397 | when the index on disk was the one in memory, the entry has its owner from before or after and no other entry changes |
| OwnerMarks.RunAgrees | projects.go:176-397 | over every run, whatever step a process died in and whichever index could not be saved, index and directories agree whenever no register is under way |
| OwnerMarks.CrashInRun | projects.go:357-397 | in every run that saved each index so far, a crash in a register leaves the owner from before or the one asked for, which is the declared one, else the mark's, else the index's; and no other entry changes |
| OwnerMarks.CrashInAnyRun | projects.go:357-397 | in every run, whose owner the restart finds: the exact condition under which it is neither |
| OwnerMarks.RequestLeaves | compose_handlers.go:456-466 | a finished register request, in any state without the reserved owner, leaves nothing changed when it declares an invalid owner or finds a damaged mark and declares none; else the entry and its directory name the declared owner, the mark's without one, the index's without a mark, and every other entry stays, as does every mark but that of the directory the project left |
| OwnerMarks.SilentRequestKeepsOwner | compose_handlers.go:456-466 | over every run a finished request that names no owner leaves a mark as it is and gives the entry its owner; without a mark the entry keeps the index's owner or has none |
| OwnerMarks.OwnerComesBackInRun | projects.go:357-397 | a run in which an owner taken back twice returns: the first register could not save the index, the process died in the second |
| OwnerMarks.UnknownNeverEnters | ownermark.go:42-53 | the reserved owner never enters the index or a mark, by any request, adoption, removal, restart or damaged mark |
| LineWriters.LineWriter.Write | dockerclient.go:435-450 | emits the complete lines of what was held and what arrived, and holds exactly the bytes after the last line break |
| LineWriters.LineWriter.Compact | dockerclient.go:446-448 | copying overlapping bytes to the front keeps them |
| LineWriters.LineWriter.Pump | dockerclient.go:435-458 | however a stream is split into writes, the lines emitted are those of the whole stream |
| LineWriters.LinesConcat | dockerclient.go:435-450 | what is left of one part starts the next |
| LineWriters.LinesExactly | dockerclient.go:435-458 | lines each ended by a line break, and a rest without one, are the stream exactly when they are its split |

## Left out

- PlanOutcome.PlanSetsVariables: asks that no declaration goes to a line start inside a quoted value (`Clean`), where the law fails, and that the end of each file holds the appends kept (`EndsHold`), which is exact for what each file reads as. That values are over docker's alphabet follows from the images (`PlanRuns.RunSetsVariables`), given that docker's tag expression refuses the empty tag. Values are raw tokens; of compose's expansion the two forms a chain follows are modelled (`PlanImages.Expansion`), with what a repository expands to a parameter.
- EnvLines.FileReadsBack: names and the blanks around a name are ASCII; the letters of other alphabets a name may hold, and the blanks U+0085 and U+00A0, are covered by the scan's other laws alone.
- PlanImages.ChainComesBack: `current` is the caller's; that it is what the variable gives today is not assumed.
- PlanDisks.Render: the compose files the source renders among the env files; the planner first reads the env files in load order, so theirs is the source's.
- IdempotencyRuns.AtMostOnce: asks prunes to spare the rows of requests that may still release their key; the code does not, and `IdempotencyLimits.UnsparedActsTwice` shows that no such row can be given up.
- ImageWrites.ImageWrite.WriteAll: the failing file's own bytes are not restored when its write took effect; that is what the code does.
- OwnerMarks.RequestLeaves: the refusal of a write into an owned stack (compose_handlers.go:466-471) and of a directory that is taken.
- OwnerMarks.CrashConsistent: entries with distinct canonical directories, readable marks and successful repair writes of the load; the handlers refuse a directory that is taken (compose_handlers.go:452). Symlinks that alias a directory are not modelled.
- Fingerprint.HashedBytesExactly: that json.Marshal's output reads back as the value it was made of is a hypothesis (`ReadsBack`); the hash itself is left out, as injective.
- Fingerprint.FingerprintPreservesMeaning: the JSON decoder is a parameter, of which only its treatment of white space is assumed (`ReadsJson`).
- Budgets.BudgetOf: exact only up to 24 hours of seconds; beyond, `Budgets.BudgetOfExactly` says which values wrap into range.
- Json.JsonKeysCollide: a text of several top-level values is the concatenation of their tokens; the decoder that yields tokens, and its errors, are not part of the model.
- Locating the image in a compose file (YAML nodes, aliases, merge keys), rewriting a literal image, and the read-back check: the parser is not in the repository. The edits of compose files are covered where they are edits of a text.
- Line numbers in scan errors, and the text of every error and log line.
- Paths: the model names a file by one path. An env path listed twice is one file state in the source (tagwrite.go:194-210) and two independent files here, and two paths that a link leads to one file are excluded by `DistinctPaths`.
- Permissions, ownership and temporary files of an atomic write: a write has an effect or none, and succeeds or not.
- SQLite's locking and timeouts, and the bounded wait of the final writes on shutdown: a statement has its effect or none, and reports success or not; close is one more attempt at any pending answer.
- The random process id and the clock of the idempotency table: rows carry a creation time and a process, and time is a parameter of the age prune.
- The text of a container's docker status: a poll yields Docker's four health values.
- Concurrency of container inspections within one poll: a poll is one snapshot.
- The scope of a project's baseline containers, the update and rollback sequence, capability decisions and HTTP handlers, except where a handler fixes the order of steps.
- projectscan.go, discovery, registry clients, provenance, tag filtering and the log ring: easy, or dependent on code outside the repository.
