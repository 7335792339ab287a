# Verified models of FORGE's core protocols

This project models the parts of FORGE whose correctness depends on more than one function: the
write-ahead event log and what survives a crash, the payload redactor, the line diff shown for a conflicting generated
file, the rule-condition language, the git-state protocols of a lane (claims, joins, creation and recovery), and four
smaller machines (the session handle, the audit query, the overlay checksum, the fake adapter).

Code that works by changing state is a class or a method with loops, proved equal to a specification function. Some of
those functions follow the code case by case (git merges and joins, the session handle's steps, the parser's levels).
What the code promises is then proved of them in terms that do not mention the code, for every input, every run or
every reachable state: reachability of commits, walks in a graph, common subsequences, printed texts, file contents.

| files | component |
|---|---|
| `LogFormat`, `AppendProtocol`, `AppendGuarantees`, `RecoveryWindow`, `EventLog` | `packages/telemetry/src/events.ts` |
| `Redact` | `packages/telemetry/src/redact.ts` |
| `Audit` | `packages/telemetry/src/audit.ts` |
| `LineDiff` | `packages/cli/src/generated-header.ts` |
| `ExprTokens`, `ExprParser`, `ExprGrammar`, `ExprPrinter`, `ExprRoundTrip`, `ExprSoundness`, `ExprMisplaced`, `ExprEval` | `packages/methods/src/expr.ts` |
| `Claims` | `packages/vcs/src/claims.ts` |
| `CommitGraph`, `Join` | `packages/vcs/src/join.ts` |
| `LaneNames`, `LaneSteps`, `LaneRecovery` | `packages/vcs/src/lanes.ts` |
| `Checksum` | `packages/vcs/src/overlay-fetch.ts` |
| `SessionHandle` | `packages/adapter-claude-code/src/session-handle.ts` |
| `FakeAdapter` | `packages/testkit/src/fake-adapter.ts` |
| `Wrappers`, `Lines`, `Ordering` | Option and Result; `split` and `join`; code-unit order and sorting |

## What is assumed

- **Event log.** A codec: encoding an event gives a non-empty text without a newline that parses back to that event
  (section 7 of RFC 8259 has control characters escaped in strings). One process writes a run's log at a time, through
  one spelling of the project root. The disk is the content the operating system shows, plus every content a power loss
  could still leave: all contents the file has had since its last completed fsync. Killing the process keeps the shown
  content; losing power picks any of the others. Writes stop after any byte: what is there of a text reads back as its
  first characters and, where one was cut in two, any remnant without a newline. The rollback truncate may succeed,
  fail, or stop part way.
- **Redactor.** An object graph is a map from references to arrays and plain objects; regular expressions are
  predicates on the tested string. Everything copied unchanged (numbers, dates, class instances) is an opaque leaf.
- **Expression language.** Conditions read JSON-like data: no bigints, no symbols. The token regular expression is
  modelled alternative by alternative, in its order. Numerals stay text in the tree; how one rounds, and what a
  property access gives, are parameters of evaluation.
- **Git.** A base tree, an index and working files; branch refs, worktree registrations and directories; a commit graph
  in which parents are older than their children. A git command may fail for reasons of its own wherever it can, and
  those failures are inputs. Creating and removing a lane are steps on single entries, files, refs and directories,
  which git may take in any order its own dependencies allow, and a process may die between any two. Globs, hashes and
  JavaScript's lower-casing are parameters. Hashes are assumed collision-free only for the step ids or file contents
  being compared.
- **Session handle.** Any number of `events.next()` and `result()` calls interleave at the awaits; the generator answers
  queued `next()` calls in order and its own results are those of an arbitrary script.
- **Fake adapter.** Grants, path resolution and control-token parsing are parameters; the abort signal comes after any
  chosen number of events, or never. No file-system error.

## Where the code differs from what is said of it

- Strict claim enforcement is said to remove a changed file that did not exist at the base. `git rm -f` needs the file
  in the index, so a new file that was never staged is a reported failure and stays.
  `Claims.SucceedsExactlyWhenTracked` gives the exact condition and `Claims.UntrackedFileStays` the smallest instance.
- The expression parser takes any token but `(` as an operand, so `&&` parses, as a path. A text that parses gives a
  well-formed tree exactly when no binary operator or `)` stands where an operand has to start and no `!` directly
  follows a comparison operator (`ExprMisplaced.WellFormedExactlyWhenNothingMisplaced`). `true` and `false` come before
  identifiers in the token pattern, so `trueish` is two tokens; a dotted path parses as itself exactly when its first
  segment begins with neither (`ExprMisplaced.PathParsesExactly`).
- Torn-write recovery reopens the file with `'w'`, so a failure before its fsync completes can lose events that were
  acknowledged: `RecoveryWindow.AcknowledgedEventLost` is such a run. Some step can lose a held event exactly while a
  rewrite is under way (`RecoveryWindow.LostExactlyInsideRewrite`), and what then survives is proved to be a prefix.
- A join is documented never to leave the worktree stuck. It leaves its merge in progress exactly when git started one
  and listing the conflict fails, or staging or committing a resolved conflict fails, or aborting anything else does
  (`Join.LeftInProgressExactly`); `Join.FailedCommitLeavesMerge` is the failing final commit, where no abort is tried,
  and `Join.JoinLeftStuck` an instance.
- A join says `merge` also when git found the lane already up to date, and a join into a lane whose earlier merge was
  never concluded commits that other merge (`Join.StaleMergeConcluded`, with an instance in `Join.StaleMergeMisses`).
- A recovery is documented never to touch another run's lanes. Of the lanes that are listed and not prunable it takes,
  registration, directory and branch together, exactly those whose id begins with its run id and a hyphen and which it
  does not know (`LaneRecovery.ReclaimTakesExactly`); run `a` so takes the lanes of run `a-b`
  (`LaneRecovery.PrefixRunLosesLane`). Another run's lane without that prefix survives
  (`LaneRecovery.OtherRunsSurvive`).
- The audit comparator returns NaN for two malformed times, not 0; the sort treats both alike, and the tie-break by run
  and sequence number then comes from stability.

## Model

| member | source | states |
|---|---|---|
| LogFormat.ReadEvents | packages/telemetry/src/events.ts:440-475 | The reading loop, advancing the expected number, yields exactly the events before the first corrupt line or gap and reports which it was |
| LogFormat.ReadStopsExactly | packages/telemetry/src/events.ts:440-475 | Reading yields the longest run of lines that parse to events numbered from 1; a line left over is reported as corrupt if it does not parse, else as a gap with both numbers |
| LogFormat.CompleteLinesExactly | packages/telemetry/src/events.ts:191-194 | The complete lines of any text are the non-empty lines of it up to its last newline |
| LogFormat.UpToLastNewline | packages/telemetry/src/events.ts:281-306 | The text recovery keeps is the longest prefix that is empty or ends in a newline; what it drops has no newline |
| LogFormat.CompleteLinesOfLog | packages/telemetry/src/events.ts:191-194 | Splitting a log with any torn fragment gives one line per event, without the fragment |
| LogFormat.ReadLog | packages/telemetry/src/events.ts:440-475 | A log of events numbered 1..n plus any newline-free fragment reads back as those events, without error, and its last number is n |
| LogFormat.TruncatedLog | packages/telemetry/src/events.ts:342-385 | Cutting a log between any two characters gives a log of a prefix of its events; cutting inside the fragment loses none |
| LogFormat.CutGood | packages/telemetry/src/events.ts:281-306 | Cutting a log after any byte, inside a character too, still reads back as a log of a prefix of its events |
| LogFormat.ExtendedLog | packages/telemetry/src/events.ts:342-385 | Any cut of the next event's line keeps a whole log readable, and only the full line with its newline adds the event |
| LogFormat.RecoveredLog | packages/telemetry/src/events.ts:281-306 | What recovery keeps is exactly the complete lines: no event lost, none added, no torn tail left |
| AppendProtocol.InitialInv | packages/telemetry/src/events.ts:203-227 | The invariant holds of a run with no file, no cached number and no calls |
| AppendProtocol.StepKeepsInv | packages/telemetry/src/events.ts:203-432 | Every step (call, start, read, rewrite, partial write, fsync, failure, rollback, acknowledgement, kill, power loss) keeps the invariant of queue, disk, cache and the call in progress |
| AppendGuarantees.ReadAtAnyMoment | packages/telemetry/src/events.ts:191-475 | In every reachable state, mid-write included, a reader of the file or of anything a power loss could leave sees events 1..n, no gap, no corruption, and only events that were offered |
| AppendGuarantees.StepKeepsHeld | packages/telemetry/src/events.ts:281-432 | Every step outside the recovery-rewrite window keeps an event in every content the file could be found with |
| AppendGuarantees.AcknowledgedIsHeld | packages/telemetry/src/events.ts:342-432 | When `appendEvent` returns an event, that event is in every content the file could be found with |
| AppendGuarantees.AcknowledgedIsDurable | packages/telemetry/src/events.ts:281-432 | A returned event stays in the log at its number with its redacted payload through all later failures, kills, power losses and restarts outside the rewrite window |
| AppendGuarantees.LosingStepLeavesPrefix | packages/telemetry/src/events.ts:281-306 | A failure inside the rewrite leaves a prefix of the log being restored, or a content that still holds every held event |
| AppendGuarantees.AcknowledgedInOrder | packages/telemetry/src/events.ts:391-432 | Over a whole run with kills and power losses outside the window, acknowledged events are all still held and their numbers strictly increase |
| AppendGuarantees.CallsAreSequential | packages/telemetry/src/events.ts:203-227 | Whatever the interleaving, the acknowledged events of a process are its calls' events in call order, each with its own call's fields, and no call moves before every earlier one has settled |
| AppendGuarantees.NeverBlocked | packages/telemetry/src/events.ts:203-218 | However earlier calls ended, the first unsettled call can run to its end, and if the file system does not fail and its payload can be redacted it returns its event |
| AppendGuarantees.CacheIsExact | packages/telemetry/src/events.ts:227-340 | With no call in progress a cached number equals the number of complete lines of a file with no torn tail |
| RecoveryWindow.LostExactlyInsideRewrite | packages/telemetry/src/events.ts:281-306 | In any reachable state, some step can lose a held event if and only if a recovery rewrite is between its reopening and its completed fsync |
| RecoveryWindow.AcknowledgedEventLost | packages/telemetry/src/events.ts:281-306 | A run, for every codec and payload, that acknowledges an event, tears a second append, and loses the first to a power failure during recovery |
| EventLog.RunLog.EnqueueForRun | packages/telemetry/src/events.ts:203-218 | A call is chained behind all earlier ones and is one step of the protocol |
| EventLog.RunLog.TruncateTornTrailingWrite | packages/telemetry/src/events.ts:281-306 | A file with no torn tail is untouched; a torn one ends as its complete lines exactly when reopening, writing, syncing and closing work, else the call is rejected with a prefix left; every write is a step of the protocol |
| EventLog.RunLog.DetermineLastSeq | packages/telemetry/src/events.ts:311-340 | The cached number or that of the recovered file, exactly when nothing needed fails; recovery loses no event when it succeeds |
| EventLog.RunLog.AppendLineWithFsync | packages/telemetry/src/events.ts:342-385 | Succeeds exactly when opening, writing, syncing and closing work, the line then being the file's last and synced; a failed write or sync whose truncate works leaves the file as it was; a failed close leaves the line |
| EventLog.RunLog.RollBack | packages/telemetry/src/events.ts:342-385 | A truncate that works restores the file; however a failing one goes, the log is the old one, or the old one plus exactly the failed event |
| EventLog.RunLog.RunNext | packages/telemetry/src/events.ts:391-432 | One `appendEvent` under any plan of file faults: it returns its event exactly when its payload can be redacted and no operation it needs fails, with the next number, the redacted payload, as the synced last line; a rejected call leaves the log as it was, or with its own event if the truncate or the close failed, or a prefix if recovering a torn file failed |
| EventLog.RunLog.ReadBack | packages/telemetry/src/events.ts:440-475 | Between operations, reading never fails and gives the whole log numbered 1..n |
| EventLog.LineAddsAtMostOne | packages/telemetry/src/events.ts:342-385 | Any file between the old log and the old log plus one line holds the old events or those plus exactly the new one |
| Redact.RedactValue | packages/telemetry/src/redact.ts:86-129 | The key-by-key loop and the recursion compute the specified redaction on any closed graph and end on any graph, cyclic ones included |
| Redact.CycleBehindError | packages/telemetry/src/redact.ts:68-77 | Behind every circular error there is a walk through items and unmatched keys that revisits a node |
| Redact.SuccessForbidsRepeats | packages/telemetry/src/redact.ts:68-129 | After a successful walk no path from the value revisits a node or an ancestor |
| Redact.CircularExactly | packages/telemetry/src/redact.ts:68-144 | The circular error is raised exactly when a cycle is reachable from the root through array items and keys no pattern matches |
| Redact.SharingIsInvisible | packages/telemetry/src/redact.ts:60-144 | Shared but acyclic references never raise the error and give the redaction of the unfolded tree |
| Redact.UnfoldsExactlyWhenAcyclic | packages/telemetry/src/redact.ts:60-77 | A graph unfolds into a tree exactly when no walk from its root through any items and keys visits a node twice |
| Redact.AcyclicGraphRedacts | packages/telemetry/src/redact.ts:60-144 | Every acyclic graph, shared nodes and all, is redacted without error, as its unfolded tree |
| Redact.RedactedGuarantees | packages/telemetry/src/redact.ts:86-144 | Every string leaf is the marker or is neither a listed secret nor a value match; exactly the strings that are either become the marker, every matched key holds it, and array lengths, keys and opaque leaves are kept |
| Redact.UnchangedExactlyWhenClean | packages/telemetry/src/redact.ts:86-144 | The payload comes back unchanged exactly when nothing in it is sensitive |
| Redact.RedactionIdempotent | packages/telemetry/src/redact.ts:86-144 | Redacting any graph of an already redacted payload returns that payload |
| LineDiff.FillTable | packages/cli/src/generated-header.ts:231-277 | The nested loops fill every entry of the table with the optimum of its two suffixes |
| LineDiff.Backtrack | packages/cli/src/generated-header.ts:231-277 | The walk through the table prints exactly the marked edits of the script, removing first on a tie |
| LineDiff.LineDiff | packages/cli/src/generated-header.ts:231-277 | The whole function, with the line limit and its omission text |
| LineDiff.TableIsOptimal | packages/cli/src/generated-header.ts:231-277 | Every entry is the maximum length over all common subsequences of its suffixes, and is reached |
| LineDiff.ScriptEdits | packages/cli/src/generated-header.ts:231-277 | The printed script turns the one text into the other and keeps exactly as many lines as the top-left entry |
| LineDiff.ScriptIsMinimal | packages/cli/src/generated-header.ts:231-277 | No edit script between the two texts has fewer added plus removed lines |
| LineDiff.DiffLosesNothing | packages/cli/src/generated-header.ts:231-277 | Up to 4000 lines a side, decoding the printed text by its two-character marks gives back both original strings |
| LineDiff.RemovalsFirst | packages/cli/src/generated-header.ts:251-277 | In each changed block the removed lines come before the added ones |
| LineDiff.TooLongOmitted | packages/cli/src/generated-header.ts:229-242 | More than 4000 lines on either side are not compared, and the text printed names both counts |
| LineDiff.DigitsRead | packages/cli/src/generated-header.ts:229-242 | A printed count is decimal and reads back as that count |
| ExprTokens.Tokenize | packages/methods/src/expr.ts:31-48 | The loop over the global pattern gives the tokens of the text, or fails where no token starts |
| ExprTokens.ExecStep | packages/methods/src/expr.ts:31-48 | One `exec` finds the next token exactly when one starts after the spaces, and its index tells whether something was skipped |
| ExprTokens.CharactersExactly | packages/methods/src/expr.ts:31-32 | Which characters are spaces, digits and parts of names, by code point |
| ExprRoundTrip.TokensKeepText | packages/methods/src/expr.ts:31-48 | A tokenized text is its tokens in order with only spaces between them: nothing is lost |
| ExprRoundTrip.NumeralExactly | packages/methods/src/expr.ts:31-32 | A numeral is digits, or digits, a point and digits, with or without a minus sign |
| ExprParser.TokenStream.ParseOperand | packages/methods/src/expr.ts:74-120 | A parenthesised expression or any single token, leaving the index after it |
| ExprParser.TokenStream.ParseComparison | packages/methods/src/expr.ts:92-120 | At most one comparison, leaving the index after it |
| ExprParser.TokenStream.ParseNot | packages/methods/src/expr.ts:122-128 | Prefix negations over one comparison |
| ExprParser.TokenStream.ParseAnd | packages/methods/src/expr.ts:130-137 | The loop builds left-nested conjunctions of everything it can take |
| ExprParser.TokenStream.ParseOr | packages/methods/src/expr.ts:139-146 | The loop builds left-nested disjunctions of everything it can take |
| ExprParser.ParseExpression | packages/methods/src/expr.ts:151-162 | An expression that uses up every token, or nothing; it ends on every text |
| ExprGrammar.ParsesExactlyTheGrammar | packages/methods/src/expr.ts:74-162 | A text parses to a well-formed tree exactly when all its tokens are a way to write that tree, parentheses being allowed around anything |
| ExprGrammar.ParsedIsSpelled | packages/methods/src/expr.ts:74-162 | Whatever a text parses to, its tokens are a way to write it: none is lost or added |
| ExprGrammar.SpelledReads | packages/methods/src/expr.ts:74-146 | Wherever tokens spell a well-formed tree and the next token cannot extend it, the parser of that level reads exactly that tree |
| ExprPrinter.PrintReads | packages/methods/src/expr.ts:74-146 | Wherever the printed tokens of a tree occur and the next token cannot extend them, the parser of that level reads exactly that tree and stops after it |
| ExprPrinter.PrintedTokensParse | packages/methods/src/expr.ts:92-162 | Parsing a tree printed with only the parentheses its levels require gives the tree and uses up every token |
| ExprRoundTrip.RoundTrip | packages/methods/src/expr.ts:31-162 | Print a well-formed tree, put any spaces or none between the tokens, tokenize and parse: the same tree |
| ExprSoundness.ParsedExactlyWhenNoOperatorOperand | packages/methods/src/expr.ts:74-162 | A parsed tree is well-formed exactly when none of its operands is an operator token, and then it prints and parses back |
| ExprMisplaced.WellFormedExactlyWhenNothingMisplaced | packages/methods/src/expr.ts:74-162 | A text that parses gives a well-formed tree exactly when none of its tokens is an operator or `)` where an operand has to start, or `!` directly after a comparison |
| ExprMisplaced.PathParsesExactly | packages/methods/src/expr.ts:31-84 | A dotted path of identifiers parses as that path exactly when its first segment begins with neither `true` nor `false` |
| ExprSoundness.OperatorAccepted | packages/methods/src/expr.ts:74-84 | The text `&&` parses as a path |
| ExprSoundness.TruePrefixRejected | packages/methods/src/expr.ts:31-32 | The identifier `trueish` does not parse |
| ExprEval.ReadPath | packages/methods/src/expr.ts:164-174 | The loop gives what the segments lead to, undefined from the first value that is not an object on |
| ExprEval.EvaluateCondition | packages/methods/src/expr.ts:226-233 | True exactly when the text parses to an expression whose value is truthy |
| ExprEval.ConjunctionTrue | packages/methods/src/expr.ts:180-233 | A written conjunction is true exactly when both parts, written as conditions of their own, are |
| ExprEval.DisjunctionTrue | packages/methods/src/expr.ts:180-233 | A written disjunction is true exactly when one part, written as a condition of its own, is |
| ExprEval.NegationTrue | packages/methods/src/expr.ts:180-233 | A written negation is true exactly when its part, written as a condition of its own, is not |
| ExprEval.PathTrue | packages/methods/src/expr.ts:164-233 | A path alone is true exactly when what it leads to is neither undefined, null, false, zero, NaN nor the empty string |
| ExprEval.LiteralTrue | packages/methods/src/expr.ts:180-233 | Which literals alone are true |
| ExprEval.NumbersCompare | packages/methods/src/expr.ts:180-217 | A comparison of operands that are real numbers is the comparison of those numbers, for all six operators |
| ExprEval.InfinitiesCompare | packages/methods/src/expr.ts:180-217 | The infinities lie beyond every real number and equal only themselves |
| ExprEval.OthersCompare | packages/methods/src/expr.ts:180-217 | With NaN or anything but a number no ordering holds; `==` and `!=` tell values apart, NaN from itself too |
| ExprEval.FollowShort | packages/methods/src/expr.ts:164-174 | One segment is what an object has under it, and undefined of anything else |
| ExprEval.FollowConcat | packages/methods/src/expr.ts:164-174 | A path of two parts is the second followed from where the first leads |
| ExprEval.OnlyPathsMatter | packages/methods/src/expr.ts:164-217 | The value depends on nothing in the context but what the mentioned paths lead to |
| ExprEval.NegatedComparison | packages/methods/src/expr.ts:180-217 | A negated comparison means the opposite comparison exactly when it is one of identity or both sides are numbers other than NaN |
| Claims.Worktree.DiffLaneChanges | packages/vcs/src/claims.ts:72-93 | The changed paths, sorted and without duplicates: exactly those differing from the base and the untracked ones git does not ignore |
| Claims.ChangedExactly | packages/vcs/src/claims.ts:72-93 | A path is changed exactly when its content is not the base's or it left the index, unless only an ignored file is there |
| Claims.Worktree.EnforceClaim | packages/vcs/src/claims.ts:158-224 | Returns exactly when git can revert every revertable path; reverted and failed paths partition the revertable ones in order; exactly the reverted ones are back at their base and nothing else moved |
| Claims.EnforcedExactly | packages/vcs/src/claims.ts:111-224 | For every path, whether the call returns or throws: put back to the base, file and index, exactly when it is changed, no declared glob or some excluded one matches it, the policy is strict or an excluded glob matches it, git has it and its command works; else untouched |
| Claims.SucceedsExactly | packages/vcs/src/claims.ts:158-224 | A call throws exactly when some path it has to revert is unknown to git or its command fails |
| Claims.StrictRestoresBase | packages/vcs/src/claims.ts:158-224 | After a strict call that returns, every path outside the claim that git does not ignore is at its base, every path in it is untouched, and nothing is out of claim any more |
| Claims.WarnRestoresExcluded | packages/vcs/src/claims.ts:158-224 | Under warn the same holds of the excluded paths only, and every other path is untouched |
| Claims.RerunNeedsOnlyFailed | packages/vcs/src/claims.ts:158-224 | After a call that throws, what a rerun has to revert is exactly what failed |
| Claims.SucceedsExactlyWhenTracked | packages/vcs/src/claims.ts:158-224 | With no other fault, a call returns exactly when every revertable path is in the base or the index |
| Claims.UntrackedFileStays | packages/vcs/src/claims.ts:158-224 | One new, never staged file makes a strict call throw and stays |
| CommitGraph.NoCycles | packages/vcs/src/join.ts:175-182 | No two different commits are ancestors of each other, so a HEAD equal to the joined commit tells a fast-forward |
| Join.JoinOnce | packages/vcs/src/join.ts:102-183 | A successful join descends from the old HEAD and the joined commit and says fast-forward exactly when the old HEAD is an ancestor of it; a conflict, or a throw with HEAD unmoved and no merge in progress, leaves everything exactly as before; a merge stays in progress only after a failed listing, abort, staging or commit |
| Join.ConflictExactly | packages/vcs/src/join.ts:102-183 | `conflict` with these files is returned exactly when git left exactly them unmerged, listing and aborting work, and the policy is `abort` or a shown resolver did not resolve it |
| Join.SuccessExactly | packages/vcs/src/join.ts:102-183 | A join succeeds exactly when git merged, or a resolver's result was staged and committed, and HEAD can be read; it reports the lane's HEAD |
| Join.SuccessContent | packages/vcs/src/join.ts:102-183 | What the lane holds after a success: as before if up to date, the joined commit's content after a fast-forward, else the merge's, recorded by a commit on the old HEAD and the joined commit |
| Join.ThrowsExactly | packages/vcs/src/join.ts:102-183 | The faults, one by one, in exactly which a join throws |
| Join.LeftInProgressExactly | packages/vcs/src/join.ts:102-183 | A join leaves its merge in progress exactly when git started one and listing the conflict fails, or staging or committing a resolved conflict, or aborting anything else |
| Join.FailedCommitLeavesMerge | packages/vcs/src/join.ts:166-171 | A failing final commit throws and leaves the resolved merge in progress, HEAD where it was |
| Join.JoinLeftStuck | packages/vcs/src/join.ts:102-183 | A lane, a conflict and a rejecting commit hook after which the merge is still there although an abort would work |
| Join.AllPredecessorsJoined | packages/vcs/src/join.ts:102-183 | After joining any list of commits, HEAD descends from the original HEAD and every one of them, and no merge is in progress |
| Join.StaleMergeConcluded | packages/vcs/src/join.ts:102-183 | Where an earlier merge was still in progress, a join that succeeds has concluded that other merge instead |
| Join.StaleMergeMisses | packages/vcs/src/join.ts:102-183 | A lane where a join reports a merge and HEAD does not descend from the joined commit |
| Join.Worktree.RunMerge | packages/vcs/src/join.ts:113-116 | `git merge` step by step: refused, up to date, fast-forward, merge commit, conflict or failure |
| Join.Worktree.MergeIntoLane | packages/vcs/src/join.ts:102-183 | The imperative join with its abort and resolve paths does exactly what the specification says |
| LaneNames.SlugForm | packages/vcs/src/lanes.ts:92-105 | Every slug is alphanumeric words joined by single hyphens, ends in a hyphen and the 8-digit hash, and is at most 49 characters long |
| LaneNames.SlugSpells | packages/vcs/src/lanes.ts:92-105 | A slug spells the words of the lower-cased step id joined by hyphens, cut after 40 characters, or `step`, and then the hash |
| LaneNames.NamesInjective | packages/vcs/src/lanes.ts:111-121 | Lane ids, and branch names, are equal exactly when run and step are, if the hash does not confuse the two steps |
| LaneSteps.NamedLanesSeparate | packages/vcs/src/lanes.ts:111-121 | Lanes named from runs and steps share no id and no branch whenever the hash does not confuse their steps |
| LaneSteps.NewLanesSound | packages/vcs/src/lanes.ts:147-164 | Before a lane's branch exists, no worktree has it checked out |
| LaneSteps.CrashPointSound | packages/vcs/src/lanes.ts:147-273 | At every crash point of any interleaving of creations, removals and reclaims, no branch is checked out twice and every lane's branch is its own |
| LaneSteps.PartlyReached | packages/vcs/src/lanes.ts:147-164 | Every set of done parts git's dependencies allow (branch only, directory only, unreadable entry, locked entry without branch or pointer) is a crash point of creating the lane |
| LaneSteps.PartIsStep | packages/vcs/src/lanes.ts:147-164 | Doing one more part of a creation is one step, from any set of done parts that allows it |
| LaneRecovery.ReclaimEnablesCreate | packages/vcs/src/lanes.ts:441-603 | After clearing locks and the three passes, creating the lane is not refused if no other worktree has its branch |
| LaneRecovery.EveryCrashPointRecovers | packages/vcs/src/lanes.ts:147-603 | Wherever creations, removals and recoveries break off, clearing locks and the three passes lead to a state with no lock, no unreadable entry, and neither branch, directory nor registration of the lane, in which it can be created |
| LaneRecovery.OtherRunsUntouched | packages/vcs/src/lanes.ts:513-603 | The branch and directory passes leave another run's branch, directory and registration alone when its lane id does not begin with this run's id and a hyphen |
| LaneRecovery.ReclaimTakesExactly | packages/engine/src/resume/orchestrate.ts:96-147 | After all three passes a listed, not prunable lane keeps its registration, directory and branch, or loses all of them, the latter exactly when its id begins with the run's id and a hyphen and the run does not know it |
| LaneRecovery.BareDirectoryTaken | packages/vcs/src/lanes.ts:564-592 | A directory with no registration goes exactly when its name begins with the run's id and a hyphen |
| LaneRecovery.OtherRunsSurvive | packages/engine/src/resume/orchestrate.ts:96-147 | After all three passes another run's lane without that prefix has its directory and branch as before, and its registration unless that was unreadable or prunable |
| LaneRecovery.EqualLengthRunsSurvive | packages/engine/src/resume/orchestrate.ts:96-147 | A recovery of a run leaves every listed, not prunable lane of another run whose id is as long with its registration, directory and branch |
| LaneRecovery.BranchesTakenExactly | packages/vcs/src/lanes.ts:513-545 | The branch pass deletes exactly the branches no worktree has checked out that are named after this run and one more name without a slash |
| LaneRecovery.PrefixRunLosesLane | packages/engine/src/resume/orchestrate.ts:96-147 | A recovery of run `a` unregisters every listed lane of run `a-b` that it does not know, and deletes its directory |
| LaneRecovery.PrefixRunExists | packages/vcs/src/lanes.ts:564-584 | Run `a` owns the prefix of every lane of run `a-b` |
| LaneRecovery.Repository.CreateLaneWorktree | packages/vcs/src/lanes.ts:147-164 | The eight parts in any order git's dependencies allow, each under a lock file, end in the complete, unlocked lane; refused, with nothing changed, exactly when a lock, unreadable entry, branch, directory or registration is in the way |
| LaneRecovery.Repository.RepairUnlistableWorktreeAdminEntries | packages/vcs/src/lanes.ts:441-477 | The loop over the entries deletes exactly the unreadable ones, one step each, and the listing works again |
| LaneRecovery.Repository.Prune | packages/vcs/src/lanes.ts:229-273 | Exactly the unlocked entries whose directory, or the pointer in it, is gone are dropped, of any lane, file by file |
| LaneRecovery.Repository.RemoveLaneWorktree | packages/vcs/src/lanes.ts:229-273 | The worktree is unregistered; its directory is gone if it was registered, its branch if the call succeeds; no other registration is lost unless it was prunable; with no lock in the way and no other worktree on the branch the call succeeds |
| LaneRecovery.Repository.ReclaimWorktrees | packages/engine/src/resume/orchestrate.ts:103-117 | The loop over the listed lanes unregisters the unknown ones under this run's prefix and deletes the branches of those listed; beyond them it drops only unreadable and prunable entries, and no directory or branch |
| LaneRecovery.Repository.ReclaimBranches | packages/engine/src/resume/orchestrate.ts:127-132 | Of this run's branches exactly the checked-out ones are left |
| LaneRecovery.Repository.ReclaimDirectories | packages/engine/src/resume/orchestrate.ts:139-147 | Of this run's directories exactly the registered ones are left |
| LaneRecovery.Repository.RecreateAfterCrash | packages/vcs/src/lanes.ts:406-603 | From whatever crash point earlier processes left, the whole recovery followed by the creation succeeds and registers the lane on its own branch; every state on the way is again such a crash point |
| SessionHandle.StepKeepsInv | packages/adapter-claude-code/src/session-handle.ts:21-88 | Every step of every interleaving keeps the invariant of flags, drains and waiting calls |
| SessionHandle.EventsOnceInOrder | packages/adapter-claude-code/src/session-handle.ts:32-55 | Never two `next()` in flight; the generator's steps are handed out once each and in order; a returned result is the generator's |
| SessionHandle.EventsGoToAskers | packages/adapter-claude-code/src/session-handle.ts:32-70 | The k-th event goes to the k-th call that got to ask for one, whoever made it |
| SessionHandle.NextExactly | packages/adapter-claude-code/src/session-handle.ts:32-55 | What a consumer's `next()` gives in every state: nothing new when done or refused, else the next event, completion, the failure, or completion without an answer after a failure |
| SessionHandle.DrainFailsExactly | packages/adapter-claude-code/src/session-handle.ts:36-62 | A draining promise is rejected exactly when its pump finds another `next()` unanswered or the generator throws to it |
| SessionHandle.WakeExactly | packages/adapter-claude-code/src/session-handle.ts:72-87 | A woken `result()` throws exactly when its promise was rejected or there is no result; only a rejection is forgotten |
| SessionHandle.CompletionPermanent | packages/adapter-claude-code/src/session-handle.ts:32-87 | Once complete, always complete with the same result, and nothing delivered is taken back |
| SessionHandle.RetrySucceeds | packages/adapter-claude-code/src/session-handle.ts:57-87 | A `result()` call with nothing else in progress, after whatever was lost before, ends within a bound and returns the answer if the generator does not throw |
| SessionHandle.Handle.Next | packages/adapter-claude-code/src/session-handle.ts:32-70 | A consumer's `next()`: done, refused or in flight, and the invariant kept |
| SessionHandle.Handle.Result | packages/adapter-claude-code/src/session-handle.ts:72-77 | A `result()` call starts draining unless a draining promise is stored, and waits on it |
| SessionHandle.Handle.Answer | packages/adapter-claude-code/src/session-handle.ts:44-54 | The generator's answer and the rest of `pump`, for whoever was waiting |
| SessionHandle.Handle.ContinueDrain | packages/adapter-claude-code/src/session-handle.ts:57-62 | One more round of the draining loop |
| SessionHandle.Handle.WakeResult | packages/adapter-claude-code/src/session-handle.ts:72-87 | The rest of `result()`: forget a rejected promise and throw, or return the fixed result |
| Audit.ComparatorConsistent | packages/telemetry/src/audit.ts:227-302 | The comparator is consistent in the sense of section 23.1.3.30 of ECMA-262, NaN notwithstanding |
| Audit.SortedReportInOrder | packages/telemetry/src/audit.ts:253-302 | Any stable sort of a list gathered run by run is ordered by (time, run id, number), malformed times last |
| Audit.ReportUnique | packages/telemetry/src/audit.ts:253-302 | A report is determined by the set of its events, so it does not depend on how the engine sorts |
| Audit.GatheredInRunOrder | packages/telemetry/src/audit.ts:192-302 | The list gathered over ascending run ids is in order of run and number before it is sorted |
| Audit.Sort | packages/telemetry/src/audit.ts:253-302 | An insertion sort whose result is a rearrangement of its input, ascending by the comparator, equal elements in their old order |
| Audit.QueryAuditEvents | packages/telemetry/src/audit.ts:253-302 | The nested loops over every run, with failing runs recorded and their readable part kept |
| Audit.ReportIsExact | packages/telemetry/src/audit.ts:253-302 | The report is in order, each event once, and holds exactly the events of a wanted category, not before the cut-off, of every readable log and of the readable part of every other; exactly the runs with an unsafe id, an unopenable log or a reading error are named |
| Audit.CategoryExactly | packages/telemetry/src/audit.ts:91-116 | An event type has a category exactly when that category's list names it; no type is in two lists |
| Ordering.BelowIsCodeUnitOrder | packages/telemetry/src/audit.ts:290-299 | The string order used is that of UTF-16 code units |
| Checksum.EnumerationOrderInvisible | packages/vcs/src/overlay-fetch.ts:291-318 | Listing every directory in another order changes no path's content, so nothing the checksum can see |
| Checksum.ContentExactly | packages/vcs/src/overlay-fetch.ts:320-344 | A path has content exactly when it leads to a file without going through a `.git` |
| Checksum.SymlinkFreeExactly | packages/vcs/src/overlay-fetch.ts:320-344 | A tree is accepted exactly when no path outside `.git` leads to a symbolic link |
| Checksum.DecodeRender | packages/vcs/src/overlay-fetch.ts:368-382 | The manifest is uniquely decodable |
| Checksum.ManifestDecidesFiles | packages/vcs/src/overlay-fetch.ts:320-382 | Two trees have the same manifest exactly when they hold the same set of (relative path, content) outside `.git` |
| Checksum.Walk | packages/vcs/src/overlay-fetch.ts:320-344 | The recursive walk lists exactly the files outside `.git` under their relative paths and refuses exactly the trees with a symbolic link |
| Checksum.ContentManifest | packages/vcs/src/overlay-fetch.ts:368-382 | The hashed text is the manifest of the tree, or a refusal exactly for a symbolic link |
| FakeAdapter.TraceWellFormed | packages/testkit/src/fake-adapter.ts:578-890 | A fresh or resumed session starts with `session.started` once, ends with `session.ended` once and last, and answers every tool call under its own id before the next one |
| FakeAdapter.TurnLimitKept | packages/testkit/src/fake-adapter.ts:602-613 | Turns never exceed the limit; a session ended by it took exactly that many and had another left |
| FakeAdapter.AbortCompletesOneItem | packages/testkit/src/fake-adapter.ts:594-684 | Every item played began before the abort, the session ends as aborted exactly when the signal is there at its last look, and none with the signal there by the end of its phases ends normally |
| FakeAdapter.TraceReportsWrites | packages/testkit/src/fake-adapter.ts:638-662 | The trace reports as changed exactly the granted writes inside the working directory that were played |
| FakeAdapter.TraceAsGranted | packages/testkit/src/fake-adapter.ts:638-681 | Every answer belongs to a write, command or tool of the script and is ok exactly when that one was granted |
| FakeAdapter.FullSessionSays | packages/testkit/src/fake-adapter.ts:557-636 | A session nothing stopped says the remembered text, the script's turns, the stripped untrusted content and the skill text, in that order, and promotes exactly the control tokens of what the script says |
| FakeAdapter.EndExactly | packages/testkit/src/fake-adapter.ts:686-890 | How a session ends and what usage it reports, by what stopped it and what the script says |
| FakeAdapter.Session.RunScriptPhases | packages/testkit/src/fake-adapter.ts:578-684 | The seven phases with their looks at the signal and the limit yield and write exactly what the plan gives up to the item at which it must stop |
| FakeAdapter.Session.RunScript | packages/testkit/src/fake-adapter.ts:686-781 | A fresh session yields the specified trace, writes exactly the played writes, and its result agrees with its trace; an unknown model fails it first |
| FakeAdapter.Session.RunResumedScript | packages/testkit/src/fake-adapter.ts:792-890 | The same for a resumed session, which first repeats the remembered text |

## Left out

- Directory-entry durability: a power loss that drops a newly created log file's name is a file never created here.
- Several processes writing one run's log, and two spellings of one project root: the protocol assumes neither.
- EventLog: within one operation the class does not interleave the enqueueing of other calls; every such interleaving is
  a run of `AppendProtocol`, where the guarantees are proved.
- Expression numerals: kept as text in the tree; rounding is a parameter of evaluation, and getters that throw or have
  effects are not modelled.
- Claims: ignored files, submodules, clashes of a file with a directory, and `git cat-file` failing for reasons of its
  own are not modelled; nor are `ensureUnionMergeAttribute` and `applySharedPathStrategy`.
- Join: the text of commit messages and of conflict descriptions, and the check that a lane id is one line.
- Lanes: `resetLaneWorktree`, keeping a removed lane's branch on request, and porcelain parsing; the listing's result is
  modelled directly.
- Lanes: a person checking out a lane's branch in a worktree of their own between two processes is not modelled.
- Generated files: `resolveGeneratedConflict`, header drift and `sanitizeForTerminal`.
- Audit: the shape of an entry beyond its event and category, and the error for an unparseable `since`.
- Checksum: the final digest of the manifest is a hash of the modelled text.
- Fake adapter: injected failures, provisioning, structured output, costs and the memory of final texts between
  sessions.
- The ledger, version comparison, capability tables, templates and command-line dispatch would add only easy members.
