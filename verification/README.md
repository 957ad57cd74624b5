# Verified model of the agent runtime

This project models the parts of the agent runtime whose guarantees span several functions or a whole
run, and proves those guarantees in Dafny 4.11. Run `dafny verify dfyconfig.toml` to check everything.

Code that updates state is modelled as classes and methods with loops. Each method is proved against a
function on values, and what the code is for is proved about those functions: over every input, every
history of calls, every interleaving of steps or every way of cutting a stream.

| area | modules |
|---|---|
| execution evidence: check results that may be reused, reads and mutations, saving and restoring | `EvidenceState`, `EvidenceInvariant`, `EvidenceHistory`, `EvidenceReads`, `EvidenceAccess`, `EvidenceStory`, `EvidenceSnapshot`, `EvidenceStore`, `ReadRanges`, `ToolFacts`, `Untrusted` |
| the model's view of a conversation: projection, trimming, compaction | `Transcript`, `ToolProjection`, `ProjectionRules`, `ContextTrim`, `Compaction`, `OutputBudget`, `Utf8` |
| streams that arrive in pieces | `ThinkEmitter`, `TextWindow`, `SseStream`, `DeltaQueue` |
| the glob compiler | `GlobPattern`, `GlobLanguage` |
| the ZIP writer and reader, and its checksum | `Zip`, `ZipDirectory`, `Crc32` |
| protocols under crashes and concurrency, where every synchronous section is one step | `SideEffects`, `RunLifecycle`, `RunEnds`, `Toolchain`, `ToolchainResults`, `BackgroundJobs`, `JobHistory` |
| identity of repeated calls | `CanonicalJson`, `JsonStrings`, `RepeatCall` |
| budgets and lists | `Composer`, `ExecutionBudget`, `InlineImages`, `Plan` |
| proportional sampling | `Apportionment`, `Sampling` |
| helpers | `Optional`, `StableSort`, `TextSort` |

## Where code and comments differ

The model follows the code. In each case below a lemma states exactly what holds.

- `src/tools/glob-pattern.ts:10` lists `\x` as an escape; line 30 turns every backslash into a slash
  (`GlobPattern.BackslashIsNotAnEscape`). Line 7 says that `**` stands for whole segments; line 77 lets it stand
  for any text of one line, inside a segment too (`GlobLanguage.DeepMatches`).
- `src/host/zip.ts:119` writes the local header offset as two bytes where APPNOTE section 4.3.12 has
  four, so a file whose header starts at 65536 or later is read from the wrong place
  (`Zip.ReadsWhatIsFound`, `Zip.RoundTrip`, `Zip.OffsetsOutOfReachWrap`). The reader's text decoder also
  drops a leading U+FEFF of a name.
- `src/harness/tool-output-projection.ts:113-115` claims that the projected set only grows. It can
  shrink when a keep-constraint starts to bind (`ToolProjection.MovesBackIffConstraintStarts`,
  `ToolProjection.TwentiethResultUndoes`).
- `src/runtime/execution-evidence-store.ts:708-715` does not invalidate anything for a mutation that is
  still retained from an earlier report (`EvidenceHistory.ChangeBackAndForth`).
- `src/harness/context-harness.ts:1203-1204` says that the removed messages are the first ones after
  the system message. That fails when messages precede the system message
  (`Compaction.LeadingMessagesShiftTheSegment`).
- `src/tools/read-text-window.ts:45-48` looks for a byte order mark in the first chunk only, so the mark
  is missed when that chunk is shorter than three bytes (`TextWindow.ChunksDoNotMatterIff`,
  `TextWindow.SplitMarkIsMissed`).
- `src/sandbox/background-jobs.ts:142-144, 315` gives job numbers out again after a session was disposed
  of, so a late end can be announced for another job. It cannot exactly when no job was running or about
  to be announced (`BackgroundJobs.DisposalIsHarmlessIff`, `BackgroundJobs.LateEndIsMisattributed`).
- `src/llm/llm-sse.ts:113-116` records arguments by id only when a piece with arguments arrives at or after
  the id (`SseStream.ArgumentsKnownById`, `SseStream.LateIdLosesArguments`).
- `src/execution-evidence.ts:404, 493` cap the issues at eight, but never more than three are collected
  (`ToolFacts.AtMostThreeIssues`). Lines 430 and 450 refuse an item that is no object without naming an
  issue (`ToolFacts.NamelessIffNotAnObject`).
- `src/execution-evidence.ts:182-183` says that no backslash passes for a separator; line 190 splits at backslashes,
  so `a\b` is accepted (`ToolFacts.BackslashIsAccepted`).
- `src/harness/context-manager.ts:97-115` cuts inside the current turn in an emergency and can separate a
  tool result from its call (`ContextTrim.TrimKeepsPairsIff`, `ContextTrim.EmergencySplitsPair`).

## Model

| member | source | states |
|---|---|---|
| EvidenceHistory.RunKeepsInv | src/runtime/execution-evidence-store.ts:444-778 | in every history of calls, restarts included: at most 32 records, ids in the order of issue, distinct origins, `pending` in step with the records (same order, same states), read and mutation fingerprints distinct, sorted and within their caps |
| EvidenceHistory.ReuseIffEarned | src/runtime/execution-evidence-store.ts:560-583 | soundness and completeness of reuse over every history: a result is found for a check and an input exactly when the input is known, no invocation of that check is unresolved, and some retained record of both was settled by a call that earned it and that nothing has spoilt since |
| EvidenceHistory.ReusedConclusion | src/runtime/execution-evidence-store.ts:560-572 | the record found is one of the check and input asked for, and its conclusion is the passed or failed one reported by the call that earned it |
| EvidenceHistory.ReusableIffEarned | src/runtime/execution-evidence-store.ts:616-625 | a stored record is reusable exactly when some call settled it with a complete lint report of an unchanged input and no later call settled it again, gave it up, invalidated it or reported a new workspace change |
| EvidenceHistory.EarnedConclusion | src/runtime/execution-evidence-store.ts:611-615 | the stored conclusion of an earned record is the reported one |
| EvidenceHistory.InvocationEvicts | src/runtime/execution-evidence-store.ts:462-478 | a new invocation finds no room exactly when the table is full of unresolved records and records of the current iteration; otherwise only the least recently used of the others goes and every other record stays |
| EvidenceHistory.MutationsEffect | src/runtime/execution-evidence-store.ts:702-724 | a batch of mutation facts counts something new, and invalidates the settled records, exactly when one of its keys is not retained yet |
| EvidenceHistory.ChangeBackAndForth | src/runtime/execution-evidence-store.ts:708-716 | a change A to B, back to A and again to B is reported three times, and the third report invalidates nothing |
| EvidenceHistory.RestartKeepsRecords | src/runtime/execution-evidence-store.ts:220-283 | a restart keeps exactly the records with an origin and a check digest, in order, and the table stays in step |
| EvidenceStory.WhatARecordSays | src/runtime/execution-evidence-store.ts:594-659 | in every history a stored check is settled, uncertain or pending as the last word about it was; its conclusion is the one its last result reported, reusable or not, and none if that was not recognized; profile, process and diagnostics are those of the last recognized report |
| EvidenceStory.CallLeaves | src/runtime/execution-evidence-store.ts:509-724 | what any call of a history leaves of each record, field by field and told from what was reported: the new record, the report, completeness, reuse and the reason against reuse, the loss of reuse by a change, and nothing else |
| EvidenceStory.HandleSays | src/runtime/execution-evidence-store.ts:509-557 | an origin that has a check is answered with that check, as reused once it is settled or lost, and refused for another check; any other origin gets a new check under the next number |
| EvidenceStory.ResultIsAnswered | src/runtime/execution-evidence-store.ts:594-647 | a result is answered with the record it leaves, and an unknown check with nothing and no change |
| EvidenceStory.NumbersAreDrawn | src/runtime/execution-evidence-store.ts:530-712 | numbers are drawn one by one: for a new check, a check found again, a recognized result, and every read and mutation that is an object |
| EvidenceStory.IterationIsFloor | src/runtime/execution-evidence-store.ts:505-507 | the iteration is the whole part of a number that is not negative; anything else is ignored |
| EvidenceStory.OneMoreMutation | src/runtime/execution-evidence-store.ts:702-724 | a batch counts the mutations whose key is not retained at their turn |
| EvidenceStory.MutationsRetained | src/runtime/execution-evidence-store.ts:710-720 | a new mutation is retained among the latest 64, a known one becomes the latest |
| EvidenceInvariant.VictimIsLeastRecentlyUsed | src/runtime/execution-evidence-store.ts:464-473 | the record chosen for eviction is settled, older than the current iteration and least recently used of those; none is chosen exactly when there is none |
| EvidenceAccess.AccessOrder | src/runtime/execution-evidence-store.ts:543-627 | in every history the access numbers order the stored records by the last call that created, found or settled them |
| EvidenceAccess.EvictedWasUsedFirst | src/runtime/execution-evidence-store.ts:462-478 | so the record evicted was last used before every other record that could have gone |
| EvidenceInvariant.CreateKeepsInv | src/runtime/execution-evidence-store.ts:509-558 | creating or finding an invocation keeps the invariant, whether it evicts, refuses or answers from `pending` |
| EvidenceInvariant.RecordResultKeepsInv | src/runtime/execution-evidence-store.ts:594-647 | so does settling a record, with facts that are recognized or not, together with its reads and mutations |
| EvidenceInvariant.RecordReadsKeepInv | src/runtime/execution-evidence-store.ts:661-700 | recording reads keeps the invariant and touches neither records nor mutations |
| EvidenceInvariant.RecordMutationsKeepInv | src/runtime/execution-evidence-store.ts:702-724 | recording mutations keeps the invariant and loses no record |
| EvidenceInvariant.UncertainKeepsInv | src/runtime/execution-evidence-store.ts:649-659 | giving an invocation up keeps the invariant |
| EvidenceInvariant.ReuseKeepsInv | src/runtime/execution-evidence-store.ts:560-572 | looking for a reusable result keeps the invariant |
| EvidenceSnapshot.RestoreOwnSnapshot | src/runtime/execution-evidence-store.ts:394-425 | restoring the snapshot of a store gives the same store, but for the iteration, exactly when no record has an empty origin or check digest |
| EvidenceSnapshot.RestoredAnswersTheSame | src/runtime/execution-evidence-store.ts:495-507 | after the iteration is set again the restored store is the saved one, so every later call is answered alike |
| EvidenceSnapshot.RestoreInventsNoConclusion | src/runtime/execution-evidence-store.ts:220-283 | whatever is restored, every conclusion and every reusable record was stored as such |
| EvidenceSnapshot.RecordIsRestoredIff | src/runtime/execution-evidence-store.ts:220-283 | which stored records of any shape are restored, and as what: with the fields they have, defaults for the others, and open to reuse only with every claim that it needs |
| EvidenceSnapshot.RestoreSays | src/runtime/execution-evidence-store.ts:394-425 | a snapshot of another version restores nothing, the sequence number only when it is one, and the iteration is kept |
| EvidenceReads.NovelIffNewLine | src/runtime/execution-evidence-store.ts:667-679 | a read of lines counts as new exactly when it returns a line that is not retained for that file version |
| EvidenceReads.RetainedAfterRead | src/runtime/execution-evidence-store.ts:676-678 | afterwards exactly the lines known before and the ones just read are retained, but for the lowest ranges beyond 64 |
| EvidenceReads.ReadLeaves | src/runtime/execution-evidence-store.ts:661-700 | recording a read leaves a number and, if it is accepted, what it reports: its lines besides those known, or itself as the latest read; nothing else changes |
| EvidenceReads.CoveredIsRetained | src/runtime/execution-evidence-store.ts:668-669 | the merged ranges a read is compared with are exactly the retained lines of that version |
| EvidenceReads.OtherVersionsStay | src/runtime/execution-evidence-store.ts:676-680 | what is known of other file versions stays, but for the oldest fingerprint of a full table |
| EvidenceReads.OtherReadIsNewIff | src/runtime/execution-evidence-store.ts:683-697 | any other read is new exactly when no retained one has its key; a new one is retained as the latest, a known one becomes the latest |
| EvidenceReads.OneMoreRead | src/runtime/execution-evidence-store.ts:661-700 | a batch counts the facts that read something not retained at their turn |
| EvidenceReads.ReadKeyIdentifies | src/runtime/execution-evidence-store.ts:285-294 | the key of a read identifies path, version, query, returned text and completeness, for parts without NUL |
| EvidenceReads.MutationKeyIdentifies | src/runtime/execution-evidence-store.ts:297-301 | the key of a mutation identifies the file and both contents, for parts without NUL |
| EvidenceReads.KeptAsReported | src/runtime/execution-evidence-store.ts:303-336 | a read fact is kept exactly when it names a file and a version, with what it reported, and with the lines of its well-formed ranges |
| EvidenceReads.MutationKeptAsReported | src/runtime/execution-evidence-store.ts:359-371 | a mutation fact is kept exactly when it names a file and both contents or null, as reported |
| EvidenceStore.ExecutionEvidenceStore.GetOrCreateInvocation | src/runtime/execution-evidence-store.ts:509-558 | the update in place refines the invocation step of the specification and keeps the invariant |
| EvidenceStore.ExecutionEvidenceStore.FindReusableResult | src/runtime/execution-evidence-store.ts:560-572 | refines the reuse lookup, which refreshes the access number of the record found and nothing else |
| EvidenceStore.ExecutionEvidenceStore.InvalidateCompletedChecks | src/runtime/execution-evidence-store.ts:585-592 | the loop takes reuse and completeness from every settled record and leaves the others alone |
| EvidenceStore.ExecutionEvidenceStore.RecordCheckResult | src/runtime/execution-evidence-store.ts:594-647 | refines the step of which EvidenceStory tells what it leaves: refused facts an unknown record, recognized ones their report, reads and mutations |
| EvidenceStore.ExecutionEvidenceStore.RecordUncertainExit | src/runtime/execution-evidence-store.ts:649-659 | refines giving up: record and `pending` entry become uncertain together |
| EvidenceStore.ExecutionEvidenceStore.RecordReadFacts | src/runtime/execution-evidence-store.ts:661-700 | the loop over read facts refines the fold of single reads and answers the number of new ones |
| EvidenceStore.ExecutionEvidenceStore.RecordMutationFacts | src/runtime/execution-evidence-store.ts:702-724 | the loop over mutation facts refines the fold of single mutations and answers the number of new ones |
| EvidenceStore.ExecutionEvidenceStore.MakeRoomForOne | src/runtime/execution-evidence-store.ts:462-478 | eviction of one record and, with it, of its settled `pending` entry |
| EvidenceStore.ExecutionEvidenceStore.RestoreFrom | src/runtime/execution-evidence-store.ts:495-503 | restores from any value, field by field checked |
| ReadRanges.MergeReadRanges | src/runtime/execution-evidence-store.ts:339-348 | the sort-and-join loop computes the specified merge |
| ReadRanges.MergeCoversUnion | src/runtime/execution-evidence-store.ts:339-348 | a merge is sorted with gaps between neighbours, holds at most 64 ranges and covers exactly the union of its inputs, from its first kept line on when the cap bites |
| ReadRanges.MergeDependsOnLines | src/runtime/execution-evidence-store.ts:339-348 | it depends on the set of lines alone, not on order, overlap or repetition |
| ReadRanges.SeparatedIsCanonical | src/runtime/execution-evidence-store.ts:339-348 | two separated lists with the same lines are the same list |
| ReadRanges.CoveredByOne | src/runtime/execution-evidence-store.ts:670-675 | a run of lines is covered by merged ranges exactly when a single one of them holds it, which is what the code asks |
| ToolFacts.ValidIffRecognized | src/execution-evidence.ts:320-490 | facts are valid exactly when every present part has the required shape; invalid facts carry no conclusion at all |
| ToolFacts.ReusableIffCompleteLint | src/execution-evidence.ts:471-489 | reuse is allowed exactly for a lint that passed or failed in a complete, uncut report with complete logs; passing may be claimed exactly for such a report that says so |
| ToolFacts.FactsAreThoseReported | src/execution-evidence.ts:320-490 | recognized facts hold the process, check, diagnostics, reads and mutations that were reported, in order, but for the items past the capacities |
| ToolFacts.CompleteIffWhole | src/execution-evidence.ts:466-480 | a report is complete exactly when it has a check or a process, nothing in it is called incomplete and no list is too long, and then there is no issue |
| ToolFacts.IssuesAreJustified | src/execution-evidence.ts:320-490 | every issue is so: the part it names is missing, malformed, too long, or holds its first bad item there |
| ToolFacts.IssuesAreThoseReached | src/execution-evidence.ts:320-490 | an issue is named exactly when it is so and every part that is looked at before it is in order |
| ToolFacts.AtMostThreeIssues | src/execution-evidence.ts:404-408 | at most three issues are ever collected, so the caps of eight never take effect |
| ToolFacts.ThreeIssuesReached | src/execution-evidence.ts:404-425 | three are reached: one diagnostic too many, one read too many, and mutations that are no list |
| ToolFacts.NamelessIffNotAnObject | src/execution-evidence.ts:430 | invalid facts name no issue exactly when the first thing at fault is an item of reads or mutations that is no object, and no list before it was cut |
| ToolFacts.NullItemIsNameless | src/execution-evidence.ts:430-451 | the smallest such facts: reads or mutations holding one null |
| ToolFacts.ValidateReads | src/execution-evidence.ts:422-440 | the part for reads: what is kept, the issue it adds, and none for an item that is no object |
| ToolFacts.ValidateMutations | src/execution-evidence.ts:442-462 | the same for mutations |
| ToolFacts.AcceptedPathDescends | src/execution-evidence.ts:185-192 | resolving an accepted path from any directory ends strictly below that directory |
| ToolFacts.PathIsAcceptedIff | src/execution-evidence.ts:185-192 | a path is accepted exactly when it is not empty, holds no NUL, does not start with a slash, backslash or drive, and no stretch between separators is empty, `.` or `..` |
| ToolFacts.BackslashIsAccepted | src/execution-evidence.ts:182-191 | a backslash is taken for a separator, against the comment |
| ToolFacts.LineMarkerIff | src/execution-evidence.ts:205 | a fingerprint has a line marker exactly when it ends in a colon and digits, once or twice |
| ToolFacts.FingerprintIsAcceptedIff | src/execution-evidence.ts:199-208 | a fingerprint is accepted exactly when it has one to 128 characters, no separator, no whitespace and no line marker at its end |
| ToolFacts.PartsAreAcceptedIff | src/execution-evidence.ts:223-360 | what a diagnostic, a read, a mutation and a process must each hold to be accepted: paths below the workspace, a stable fingerprint, lines that are safe integers from one on in order, known kinds, texts that are not empty |
| ToolFacts.KeepItems | src/execution-evidence.ts:388-411 | the validating loop keeps the items up to the first bad one or the cap, and says which of the two ended it |
| ToolFacts.ValidateToolFacts | src/execution-evidence.ts:320-490 | the validator with its early returns computes the specified verdict |
| ThinkEmitter.StreamingEqualsBatch | src/llm/llm-messages.ts:256-292 | for every cutting of a text into pieces, and any pair of non-empty tags, the pieces pushed and a final flush output exactly the batch split of the whole text at alternating tags, and leave nothing in the buffer |
| ThinkEmitter.TagsSwitch | src/llm/llm-messages.ts:256-292 | outside a block everything up to the first opening tag is answer and what follows the tag is read inside the block, inside one everything up to the first closing tag is reasoning and what follows is read outside; the tags are not output, and without a tag all the text stays on its channel |
| ThinkEmitter.WithheldTextIsUndecided | src/llm/llm-messages.ts:280-291 | between pushes fewer characters are withheld than the tag looked for has, and they could not be released: one continuation makes them text, another (returned) makes them a tag |
| ThinkEmitter.DrainKeepsMeaning | src/llm/llm-messages.ts:264-291 | draining changes neither what was output nor what the rest of the stream will mean |
| ThinkEmitter.FinalDrainEmptiesBuffer | src/llm/llm-messages.ts:278-284 | the final flush outputs all that is left, as its own batch split |
| ThinkEmitter.ReleasedPartIsFreeOfTags | src/llm/llm-messages.ts:270-284 | no tag can start in what is released, whatever comes next |
| ThinkEmitter.InlineThinkEmitter.Push | src/llm/llm-messages.ts:262-291 | the loop over the buffer refines the push of the specification |
| TextWindow.ReadTextWindow | src/tools/read-text-window.ts:6-65 | for every cutting of a file into chunks the answer is that for the whole file, but that the byte order mark is looked for in the first chunk; the texts are the lines decoded, line one without its mark |
| TextWindow.ChunksDoNotMatterIff | src/tools/read-text-window.ts:43-48 | the answer is the same for the whole file exactly when the first chunk has three bytes or the file does not start with the mark; the lines and counts always are |
| TextWindow.SplitMarkIsMissed | src/tools/read-text-window.ts:45-48 | the mark is missed in the chunks EF and BB BF |
| TextWindow.ReadsText | src/tools/read-text-window.ts:28-41 | reading UTF-8 text: each text returned is that line of the text without its mark, cut to its longest prefix of whole characters within the limit (three bytes less for a marked line one), and is flagged exactly when the line is longer |
| TextWindow.SplitOfText | src/tools/read-text-window.ts:51-58 | splitting the bytes at 0x0A splits the text at its newline characters (RFC 3629 section 3) |
| TextWindow.CutText | src/tools/read-text-window.ts:30-33 | decoding a line cut inside a character gives its longest prefix of whole characters |
| TextWindow.WindowSize | src/tools/read-text-window.ts:22-29 | as many lines are returned as there are from the start line, up to the limit |
| TextWindow.WindowAt | src/tools/read-text-window.ts:22-29 | and line `k` of the window is line `start + k` of the file, cut |
| TextWindow.NumbersAreOfLongLines | src/tools/read-text-window.ts:22-37 | the numbers returned are, in rising order, those of exactly the lines in the window that have more bytes than the limit |
| TextWindow.BomOfText | src/tools/read-text-window.ts:45-48 | the mark is seen exactly when the text starts with U+FEFF |
| TextWindow.WindowReader.TakeChunk | src/tools/read-text-window.ts:49-60 | taking a chunk in place extends the bytes read so far by that chunk |
| SseStream.LinesOfChunks | src/llm/llm-sse.ts:133-142 | however a response is cut into chunks, also inside a CRLF, the lines handed on are those of the whole text |
| SseStream.FlatJoins | src/llm/llm-sse.ts:135-137 | the text of a response is its chunks one after the other |
| SseStream.NormalizeResponse | src/llm/llm-sse.ts:34-146 | so the events sent on depend on the whole text alone |
| SseStream.LinesMakeUpTheText | src/llm/llm-sse.ts:133-142 | the lines handed on with their ends, a newline with or without a carriage return, make up the text; only what is left at the end has none |
| SseStream.EveryLineIsSent | src/llm/llm-sse.ts:45-131 | every line is sent on in its turn: as it came with one line end or two, rewritten, or as the pieces of its calls, and the first delta without calls carries the names collected since the last one |
| SseStream.NamesAreCollected | src/llm/llm-sse.ts:95-107 | the name kept for a call is put together from its pieces, a piece that repeats the name so far taking its place |
| SseStream.CallsAreCollected | src/llm/llm-sse.ts:82-125 | over any response the arguments kept under an index are all its pieces in order, its id is the last that is not empty, and the pieces sent on are the ones that came without empty ids and names |
| SseStream.CleaningLeavesOutEmpty | src/llm/llm-sse.ts:85-95 | of a piece nothing but an empty id and an empty name is left out |
| SseStream.CleaningKeepsArguments | src/llm/llm-sse.ts:85-95 | leaving those out loses no argument text of any call |
| SseStream.ArgumentsKnownById | src/llm/llm-sse.ts:108-116 | when ids are neither shared nor changed, the diagnostics know a call completely under its id exactly when the id came by the last piece with arguments; otherwise they know nothing under it, although all arguments are kept under the index |
| SseStream.LateIdLosesArguments | src/llm/llm-sse.ts:113-116 | the smallest such loss: an id that comes in a piece of its own after the arguments |
| DeltaQueue.NothingIsLost | src/host/run-lifecycle-service.ts:773-800 | whatever the chunks and whenever the timer fires, every streamed character and every trace event is logged once and in order, except the one delta held back, and nothing is held back after a trace event, the timer or the end |
| DeltaQueue.CutsDoNotMatter | src/host/run-lifecycle-service.ts:782-799 | cutting a delta in two, with or without the timer in between, does not change what the queue has logged and holds back, taken together |
| DeltaQueue.Queue.OnTrace | src/host/run-lifecycle-service.ts:883-893 | a trace event flushes the held delta before it is logged |
| DeltaQueue.PutSays | src/host/run-lifecycle-service.ts:782-800 | each step adds exactly its own meaning to the log and the held delta, and only ever appends to the log |
| DeltaQueue.Queue.QueueDelta | src/host/run-lifecycle-service.ts:782-800 | the update in place refines that step |
| GlobPattern.CompiledMeansGlob | src/tools/glob-pattern.ts:29-105 | the emitted source, anchored and parsed as a regular expression, lies in the fragment and accepts exactly the paths that a direct recursive matcher of the glob accepts |
| GlobPattern.AcceptsIffGlobMatches | src/tools/glob-pattern.ts:108-110 | a path is accepted exactly when the pattern compiles and its normal form matches the normal form of the path |
| GlobPattern.CompileGlob | src/tools/glob-pattern.ts:29-105 | the compiler loop emits the specified source and fails exactly on a brace group that is unterminated or nested, with the error of the first such group |
| GlobPattern.ReadBraceGroup | src/tools/glob-pattern.ts:46-64 | the nested reader ends behind the closing brace with the group compiled, or tells unterminated from nested |
| GlobPattern.CompileAlternatives | src/tools/glob-pattern.ts:59-63 | splitting at commas, compiling each part and joining with `\|` gives the specified source |
| GlobPattern.ParseAnchored | src/tools/glob-pattern.ts:104 | the parser of regular expressions reads the anchored source back as the expression meant, so no literal character acts as an operator |
| GlobPattern.GlobMeaning | src/tools/glob-pattern.ts:66-102 | that expression matches from a position to the end of the path exactly when the glob does |
| GlobPattern.WellBracedInside | src/tools/glob-pattern.ts:46-62 | inside a group, being well braced is having the next brace close it |
| GlobPattern.BraceErrorIsError | src/tools/glob-pattern.ts:56-62 | a pattern that is not well braced is refused |
| GlobLanguage.CompilesOrSaysWhy | src/tools/glob-pattern.ts:46-64 | a pattern compiles exactly when every brace opened is closed before another one is opened; otherwise the first brace of which this is not so is called unterminated when the braces never balance from there on, and nested when they do |
| GlobLanguage.StarMatches | src/tools/glob-pattern.ts:82-84 | between literal texts, `*` stands for exactly the texts without a slash |
| GlobLanguage.QuestionMatches | src/tools/glob-pattern.ts:86-90 | and `?` for exactly one character that is no slash |
| GlobLanguage.DeepMatches | src/tools/glob-pattern.ts:68-81 | and `**` with no slash behind it for exactly the texts without a line terminator, slashes included |
| GlobLanguage.DeepDirMatches | src/tools/glob-pattern.ts:72-76 | and `**/` for any number of non-empty segments, each with its slash |
| GlobLanguage.GroupMatches | src/tools/glob-pattern.ts:57-64 | and a brace group for exactly its alternatives |
| GlobLanguage.NormalFormIs | src/tools/glob-pattern.ts:30 | of a pattern and a path one leading `./` is dropped and every backslash is a slash |
| GlobPattern.OrdinaryCharactersAreLiteral | src/tools/glob-pattern.ts:100 | a glob without `*`, `?` and `{` matches exactly itself |
| GlobPattern.BackslashIsNotAnEscape | src/tools/glob-pattern.ts:30 | `\x` never matches `x`, against the comment in line 10: every backslash becomes a slash first |
| Zip.ReadsWhatIsFound | src/host/zip.ts:149-183 | reading any archive within the format gives one file per stored one, in order, with the data found at the low 16 bits of its local offset, which is its own data whenever the offset is below 65536 |
| Zip.RoundTrip | src/host/zip.ts:72-183 | the files come back byte for byte exactly when no name starts with U+FEFF and each file whose offset is 65536 or more happens to equal what is found in its place; with all offsets in reach, the names alone decide |
| ZipDirectory.ReadIffReadable | src/host/zip.ts:149-183 | any bytes are read through their last end record, exactly when every header it counts is whole, of a stored file, with a readable name and a local header inside; the files are those headers describe, and otherwise the first bad header gives the error |
| ZipDirectory.EntryIsReadIff | src/host/zip.ts:162-180 | the same for one header: what it is read as, where the next one starts, and which of the reasons it is refused for |
| Zip.OffsetsOutOfReachWrap | src/host/zip.ts:119 | a second file whose header starts at 65536 is read as the start of the first file |
| Zip.ArchiveIsPacked | src/host/zip.ts:82-146 | an archive has no bytes but two headers for every file, its name twice, its data and the end record |
| Zip.LowByteFirst | src/host/zip.ts:37-45 | the bytes of a header field are the digits of its value in base 256, the low one first |
| Zip.CleanedIsLastDataFirstPlace | src/host/zip.ts:73-79 | of entries with one name the last data win and the first place is kept |
| Zip.CreateZip | src/host/zip.ts:72-146 | an archive is made exactly when no name is empty or has a backslash; it is a complete archive of the cleaned entries, header by header; otherwise the first bad name is reported |
| Zip.ReadZipEntries | src/host/zip.ts:149-183 | the backward search and the directory loop compute the specified reading of any bytes, errors included |
| Zip.ReadCentral | src/host/zip.ts:165-180 | one central header is read as the name written and the data at the offset written |
| Zip.MakeChunks | src/host/zip.ts:82-124 | the chunks hold every header field of APPNOTE sections 4.3.7 and 4.3.12, at running offsets |
| Zip.CopyChunks | src/host/zip.ts:129-137 | the chunks are laid end to end and nothing else is touched |
| Zip.MakeEocd | src/host/zip.ts:138-143 | the end record holds count, size and offset of the directory (APPNOTE section 4.3.16) |
| Zip.WriteU16 | src/host/zip.ts:42-45 | two bytes, low first, of the value modulo 65536; every other byte stays |
| Zip.WriteU32 | src/host/zip.ts:37-40 | four bytes, low first, of the value modulo 2^32; every other byte stays |
| Crc32.CrcIsPolynomialRemainder | src/host/zip.ts:17-23 | the checksum is the complemented remainder of polynomial long division over GF(2) by the generator of RFC 1952 section 8, bit for bit |
| Crc32.ComputeCrc32 | src/host/zip.ts:17-23 | one lookup and one shift per byte compute the bit-at-a-time checksum |
| Crc32.FillTable | src/host/zip.ts:5-15 | the table loop fills all 256 entries with eight register shifts each |
| Crc32.StepsByTable | src/host/zip.ts:20 | eight shifts of any register are one table lookup and one shift by eight |
| CanonicalJson.PrintIsCanonical | src/harness/repeat-call-policy.ts:126-133 | two JSON values print the same text exactly when they are equal up to field order, at every depth |
| CanonicalJson.PrintDecodes | src/harness/repeat-call-policy.ts:126-133 | equal texts are texts of equal canonical values: the printing of strings, numbers, lists and objects is uniquely readable |
| CanonicalJson.TextDecodes | src/harness/repeat-call-policy.ts:127-132 | a value and whatever is written behind it can be told apart |
| JsonStrings.QuotedIsRead | src/harness/repeat-call-policy.ts:127 | a printed string is a literal that a reader of RFC 8259 section 7 reads as that string |
| CanonicalJson.SortedKeysAgree | src/harness/repeat-call-policy.ts:129-131 | two objects with the same keys list them in the same places |
| CanonicalJson.UnitsAreUtf16 | src/harness/repeat-call-policy.ts:129-131 | keys are ordered by UTF-16 code units: one for a character up to U+FFFF, a high and a low surrogate for any other (RFC 2781 section 2.1) |
| CanonicalJson.NotFinitePrintsAsNull | src/harness/repeat-call-policy.ts:127 | a number that is not finite prints like null, which is why the statements speak of the plain form of a value |
| CanonicalJson.PlainOfFinite | src/harness/repeat-call-policy.ts:127 | without such numbers the plain form is the value itself |
| RepeatCall.KeyIdentifiesCall | src/harness/repeat-call-policy.ts:136-139 | two calls have one key exactly when tool and arguments agree up to field order |
| RepeatCall.CountIsLongestIdenticalSuffix | src/harness/repeat-call-policy.ts:280-327 | after any calls the count is the length of the longest suffix of identical calls, the level the one that belongs to it, and disposition and attempts are those of the last call |
| RepeatCall.LevelIsStrongestReached | src/harness/repeat-call-policy.ts:272-314 | the level of a streak of two or more is the strength of the strongest threshold it has reached; a single call has none |
| RepeatCall.ReminderIffLevelRises | src/harness/repeat-call-policy.ts:303-326 | a reminder is given exactly when the streak has just reached a higher level, with that level, the count, the tool and the attempts of the call |
| RepeatCall.RemindersOfStreakRise | src/harness/repeat-call-policy.ts:306-314 | within a streak the levels of the reminders strictly increase, so there are at most three |
| RepeatCall.LevelsGrow | src/harness/repeat-call-policy.ts:272-277 | levels never fall as the count grows |
| OutputBudget.HeadAndTailAreLongest | src/tool-output-budget.ts:81-96 | head and tail are the longest prefix and suffix of whole characters within the limit |
| OutputBudget.Utf8Head | src/tool-output-budget.ts:81-87 | backing off over continuation bytes ends at that head |
| OutputBudget.Utf8Tail | src/tool-output-budget.ts:90-96 | moving on over continuation bytes ends at that tail |
| OutputBudget.SlicedFits | src/tool-output-budget.ts:121-162 | a slice never exceeds its budget, its counts are right, and it is the text itself exactly when that fits |
| OutputBudget.MiddleIsOmitted | src/tool-output-budget.ts:138-161 | outside the hard cut the text is head, omitted middle and tail, and the omitted bytes are the size of the middle |
| OutputBudget.HardCutIsLongestPrefix | src/tool-output-budget.ts:145-153 | in the hard cut the result is the longest prefix of head, marker and tail that fits |
| OutputBudget.ResolvedBudgetNeverCutsHard | src/tool-output-budget.ts:59-69 | no setting of the environment leads to the hard cut; positive safe integers are used, and the defaults for all else, when head, marker and tail fit into the whole, otherwise all are the defaults |
| OutputBudget.SliceTwice | src/tool-output-budget.ts:121-162 | slicing a slice changes nothing |
| Utf8.DecodeIffEncode | src/tool-output-budget.ts:72-74 | decoding succeeds exactly on the encodings of texts and inverts them (RFC 3629 section 3) |
| Utf8.ByteInsideChar | src/tool-output-budget.ts:77-79 | inside an encoded text a byte is a continuation byte exactly when it is not the first of its character |
| ToolProjection.ProjectedPrefixStays | src/harness/tool-output-projection.ts:182-211 | once both keep-constraints bind, what was projected stays projected, byte for byte, whatever is appended |
| ToolProjection.BoundaryNeverMovesBack | src/harness/tool-output-projection.ts:106-177 | and the boundary never moves back |
| ToolProjection.QuietWhileBatchFills | src/harness/tool-output-projection.ts:120-137 | while no further batch is full, projecting and appending commute, so the request prefix does not change at all |
| ToolProjection.MovesBackIffConstraintStarts | src/harness/tool-output-projection.ts:113-115 | the exact exception to the monotonicity the comment claims: one more message moves the boundary back exactly when the constraint on its role starts to bind before the desired boundary and, with batches, fewer whole batches lie before that place |
| ToolProjection.BindsAtTheFirst | src/harness/tool-output-projection.ts:147-177 | that place is the first message with the role of the new one, the very first message of all excepted |
| ToolProjection.TwentiethResultUndoes | src/harness/tool-output-projection.ts:174-176 | with the default policy the twentieth tool result moves the boundary from 12 back to 0 |
| ToolProjection.ProjectTwice | src/harness/tool-output-projection.ts:195-207 | projecting changes nothing but the content of tool results, and projecting again changes nothing |
| ToolProjection.DegradeShrinks | src/harness/tool-output-projection.ts:200-206 | whatever is shortened gets strictly smaller, keeps its role and ids and is never shortened again |
| ProjectionRules.WhatIsShortened | src/harness/tool-output-projection.ts:189-206 | before the boundary exactly the tool results longer than their projection would be are shortened, to the longest head and the longest tail within their limits with the marker between them; every other message stays |
| ProjectionRules.DesiredIs | src/harness/tool-output-projection.ts:147-177 | the desired boundary is the last place behind which the latest turns and the latest tool results are, as many as are to be kept; it is 0 when neither number is reached behind the first message |
| ProjectionRules.BoundaryIs | src/harness/tool-output-projection.ts:120-137 | with batches the boundary is right behind the last of the most tool results before the desired one that are whole batches; without, it is the desired one |
| ToolProjection.ProjectStaleToolOutputs | src/harness/tool-output-projection.ts:182-211 | the loop computes the projection; the saved bytes are exactly the difference in size and the count the number of messages changed |
| ToolProjection.DesiredBoundary | src/harness/tool-output-projection.ts:147-177 | the two backward counts give the specified boundary |
| ToolProjection.QuantizeBoundary | src/harness/tool-output-projection.ts:120-137 | counting forward to a whole number of batches gives the specified boundary |
| ContextTrim.TrimIsLeast | src/harness/context-manager.ts:65-117 | over budget, the fewest whole leading turns that meet it go, or all history if none suffices; in an emergency the fewest messages of the current turn follow, down to the system message alone |
| ContextTrim.TurnsDroppedAreLeast | src/harness/context-manager.ts:89-95 | the cut falls on the start of a turn, and every earlier one is over budget |
| ContextTrim.TrimKeepsPairs | src/harness/context-manager.ts:58-59 | outside the emergency mode every kept tool result keeps the call it answers |
| ContextTrim.TrimKeepsPairsIff | src/harness/context-manager.ts:65-117 | in either mode, for the least cut, the result keeps all pairs exactly when no tool result at or after the cut has all its calls before it |
| ContextTrim.EmergencyKeepsPairs | src/harness/context-manager.ts:97-101 | whenever dropping history is enough, the emergency mode gives what the ordinary one gives and keeps all pairs |
| ContextTrim.EmergencySplitsPair | src/harness/context-manager.ts:102-115 | otherwise it can separate a pair: a conversation of four messages with room for two |
| ContextTrim.TurnsSplitTheWhole | src/harness/context-manager.ts:24-36 | the turns put together are the messages, and all but the first start with a user message |
| ContextTrim.TrimMessages | src/harness/context-manager.ts:65-117 | the loops compute the specified trimming |
| ContextTrim.SplitMessages | src/harness/context-manager.ts:72-81 | the first system message, the turns between it and the last user message, and the current turn are told apart |
| ContextTrim.DropFromCurrent | src/harness/context-manager.ts:97-115 | the three passes keeping two, one and no message end at the least cut that fits |
| Compaction.RunStaysAligned | src/harness/context-harness.ts:899-938 | over any run of appends and compactions from a new transcript, committed or not, with any prompt, costs and thresholds in each: the summarized segments follow each other without gap or overlap and are exactly the messages counted, up to shortened tool results; none is at or after the last user message; the view is the prompt of the moment and exactly the rest |
| Compaction.RemovedIsNext | src/harness/context-harness.ts:1199-1208 | what a compaction hands to the summarizer is what it removes: the messages right after the ones counted before |
| Compaction.CompressKeepsAligned | src/harness/context-harness.ts:1178-1268 | whatever the summarizer answers, the run stays aligned |
| Compaction.FailedCompactionChangesNothing | src/harness/context-harness.ts:1237-1266 | a compaction that fails or is refused leaves summary, segments and view as they were |
| Compaction.EffectIff | src/harness/context-harness.ts:1199-1250 | a compaction takes effect exactly when trimming removes something and the answer is not empty and cheaper than what is removed; then the answer is the summary and the removed messages are counted, else nothing but a count that is too large changes |
| Compaction.SummaryIsTheLast | src/harness/context-harness.ts:1236-1250 | after any run the summary is the text of the last compaction that took effect, and each of them handed over one segment |
| Compaction.RemovesLeast | src/harness/context-harness.ts:1194-1202 | a compaction removes nothing when the view fits with the tools, else the fewest whole turns, oldest first, after which the rest fits, or all but the current one |
| Compaction.ProjectedIffOver | src/harness/context-harness.ts:1015-1027 | it works on the view as it is up to the trigger, and beyond on the one with degraded tool results |
| Compaction.TranscriptIsAppended | src/harness/context-harness.ts:1172-1176 | the transcript itself is never rewritten |
| Compaction.CountSurvivesIff | src/harness/context-harness.ts:910-923 | the count survives the next view exactly when that many messages lie between the system message and the last user message; otherwise the counted messages from the last user message on come back into view, or all of them when it does not follow the system message |
| Compaction.LeadingMessagesShiftTheSegment | src/harness/context-harness.ts:1206-1208 | messages before the system message shift the segment, against the comment in lines 1203-1204 |
| Compaction.ContextHarness.BuildModelView | src/harness/context-harness.ts:899-938 | the update of the count and the view refine the specification |
| Compaction.ContextHarness.CompactConversation | src/harness/context-harness.ts:1178-1268 | refines the compaction step, in which summary and count change together and only when it takes effect |
| SideEffects.AtMostOnce | src/runtime/tool-invocation/process-manager.ts:438-473 | under any interleaving of calls, results, failures, saves that fail, crashes and resumes no operation is started twice, and a replay is the one result that came back |
| SideEffects.StartedIsNeverRerun | src/runtime/side-effect.ts:86-104 | an operation once started is answered from its record or called in doubt, before and after a restart |
| SideEffects.UnknownIsStarted | src/runtime/tool-invocation/process-manager.ts:438-473 | an unknown operation is started once its record is saved, a failed save starts nothing, and a second call meanwhile is in doubt |
| SideEffects.ResultIsReplayed | src/runtime/side-effect.ts:96-99 | a result that came back answers every later call until the process dies, and with one more checkpoint every later call whatever dies or resumes |
| SideEffects.InterruptedStaysInDoubt | src/runtime/side-effect.ts:100-102 | an operation that threw, or whose process died, is in doubt ever after; one that threw is saved as uncertain |
| SideEffects.OnlyTheCheckpointSurvives | src/runtime/side-effect.ts:66-84 | a process that dies leaves its last checkpoint, and the process that resumes waits for nothing |
| SideEffects.RunIsConsistent | src/runtime/tool-invocation/process-manager.ts:529-542 | the guard and its last checkpoint hold every operation ever started, and only results that came back |
| SideEffects.WithoutSavingItRunsTwice | src/runtime/tool-invocation/process-manager.ts:532-540 | without the save before the execution a crash lets it run twice |
| SideEffects.UnsavedOutcomes | src/runtime/side-effect.ts:96-103 | a failed save lets nothing run, and a success not saved before a crash is in doubt afterwards |
| SideEffects.OldEntriesAreSuccesses | src/runtime/side-effect.ts:54-58 | an entry of the oldest checkpoint format is replayed as a success |
| SideEffects.SideEffectGuard.Snapshot | src/runtime/side-effect.ts:66-71 | a guard made from a snapshot is in the same state |
| SideEffects.SideEffectGuard.Succeed | src/runtime/side-effect.ts:64 | a success replaces the state of its key and keeps the result |
| SideEffects.SideEffectGuard.MarkUncertain | src/runtime/side-effect.ts:65 | an uncertain end replaces the state of its key |
| SideEffects.SideEffectGuard.ResolveOperation | src/runtime/side-effect.ts:86-104 | refines the disposition of the specification without changing the guard |
| RunLifecycle.EveryRunKeepsInv | src/host/run-lifecycle-service.ts:281-505 | over every sequence of steps, with any writes failing and any restarts: a final status in memory is the stored one, the log in memory is the stored log, every epoch logs at most one end and with the stored status, and every live sink was sent the stored events from where it joined |
| RunLifecycle.AdvanceKeepsInv | src/host/run-lifecycle-service.ts:386-505 | each single step keeps that |
| RunLifecycle.FinalStatusStays | src/host/run-lifecycle-service.ts:398 | a final status changes only by a resume |
| RunLifecycle.StopIsHonoured | src/host/run-lifecycle-service.ts:896-923 | once an active run is stopped it can only end as stopped, whatever its execution answers or throws, until it is resumed or the process restarts |
| RunLifecycle.SinkReceivesExactly | src/host/event-stream-service.ts:28-63 | a live sink was sent exactly the stored events after `afterSeq`, once each and in order, exactly when `afterSeq` was no greater than the last number at the time or nothing has happened since |
| RunLifecycle.LiveSinkFollows | src/host/event-stream-service.ts:28-63 | a sink that joins stays connected and has been sent every event logged since, until it leaves, breaks or the host restarts; a reader that does not follow becomes no sink |
| RunLifecycle.BrokenSinkIsDropped | src/host/event-stream-service.ts:46-63 | a sink that leaves is gone, one that breaks is sent nothing more and dropped with the next event |
| RunEnds.LogIsTold | src/host/run-lifecycle-service.ts:281-505 | in every run, with any writes failing and any restarts, each epoch logs exactly the events its steps come to, and the stored status, the state of the process and everything in memory follow from the steps too |
| RunEnds.HowRunsEnd | src/host/run-lifecycle-service.ts:895-925 | an epoch logs `completed` exactly when its execution resolved and that was written before anything had stopped, closed or restarted it, and `failed` exactly when it threw, likewise |
| RunLifecycle.RunHost.FinalizeRun | src/host/run-lifecycle-service.ts:386-465 | status, log and memory change together or, when the write fails or the run has ended, not at all |
| RunLifecycle.RunHost.RecordEvent | src/host/run-lifecycle-service.ts:495-505 | store, then memory, then sinks; nothing when the store fails |
| RunLifecycle.RunHost.StopRun | src/host/run-lifecycle-service.ts:351-380 | an executing run becomes stopping and is aborted, one that never executed is finished |
| RunLifecycle.RunHost.AgentEnds | src/host/run-lifecycle-service.ts:895-925 | the end of an execution is one attempt to finish the run, as stopped after a stop or an abort, else as completed or failed |
| RunLifecycle.RunHost.SubscribeSink | src/host/event-stream-service.ts:28-45 | a sink is sent the stored events after its number and, if live, joins at the end of the log |
| RunLifecycle.RunHost.ResumeRun | src/host/run-lifecycle-service.ts:281-341 | a new epoch over the stored log, unless the run is still active |
| RunLifecycle.RunHost.RestartHost | src/host/run-lifecycle-service.ts:125-144 | runs that seemed to execute are marked interrupted, first the row and then the log |
| RunLifecycle.RunHost.CloseHost | src/host/run-lifecycle-service.ts:597-634 | active executions are aborted and what has not ended is finished |
| RunLifecycle.RunHost.PublishEvent | src/host/event-stream-service.ts:52-63 | every open sink is sent the event once; closed ones are dropped |
| RunLifecycle.Replay | src/host/event-stream-service.ts:35-38 | a subscriber is sent the stored events after `afterSeq` with their numbers |
| Toolchain.EverySchedule | src/host/toolchain-preparation-coordinator.ts:110-294 | for any schedule of requests, answers, cancels, timeouts, aborts and callbacks: no two preparers work on one package, each starts at most once and only after its own request was approved, and every unmerged request logs one requested and, once finished, one resolved event |
| Toolchain.MergedShareTheResult | src/host/toolchain-preparation-coordinator.ts:160-169 | in every schedule a merged request is answered with the result of the install it was merged into, or as aborted after its own signal was given |
| ToolchainResults.ResolvedAsDecided | src/host/toolchain-preparation-coordinator.ts:221-285 | in every schedule a request is resolved as its first accepted decision says, denied, aborted or timed out, and after an approval with exactly what its preparer ended with, which was started before |
| ToolchainResults.PreparedWasApproved | src/host/toolchain-preparation-coordinator.ts:68-75 | so a request resolved as prepared was approved by its own run, granted and started |
| ToolchainResults.OpenTakesTheOffer | src/host/toolchain-preparation-coordinator.ts:176-219 | an open request takes the first approval, denial, cancel, signal, timeout or close that is offered to it |
| ToolchainResults.AbortedIffAsked | src/host/toolchain-preparation-coordinator.ts:77-108 | a preparer is told to give up exactly when, between approval and result, its run cancelled, its signal was given or the host closed |
| ToolchainResults.AskMergesIff | src/host/toolchain-preparation-coordinator.ts:153-169 | a request joins the install of its package that has not been cleaned up, of which there is at most one, and else opens its own |
| ToolchainResults.WaiterIsAnsweredIff | src/host/toolchain-preparation-coordinator.ts:298-312 | a merged request is answered with the shared status exactly once that is there, and as aborted exactly once its own signal was given |
| Toolchain.DeleteRemovesOwnEntry | src/host/toolchain-preparation-coordinator.ts:286-292 | clearing the merge table by package name removes the entry of the finished install and no other |
| Toolchain.OpenRequestsStayOpen | src/host/toolchain-preparation-coordinator.ts:177-219 | a request still open still has its entry, so an approval or its timeout decides it |
| Toolchain.RunKeepsInv | src/host/toolchain-preparation-coordinator.ts:68-338 | the invariant behind it over any run |
| Toolchain.Coordinator.ResolveRequest | src/host/toolchain-preparation-coordinator.ts:68-75 | only a waiting request of that run is decided, and an approval is what grants it |
| Toolchain.Coordinator.CancelRequest | src/host/toolchain-preparation-coordinator.ts:77-95 | a waiting request is decided, a running preparer is signalled, anything else is refused and unchanged |
| Toolchain.Coordinator.AbortAllRequests | src/host/toolchain-preparation-coordinator.ts:98-108 | every open request is decided or signalled and the table is emptied |
| Toolchain.Coordinator.RequestPackage | src/host/toolchain-preparation-coordinator.ts:160-219 | a package in work gets a waiter, any other a request of its own |
| Toolchain.Coordinator.OnDecision | src/host/toolchain-preparation-coordinator.ts:221-278 | the callback of a decision starts the preparer or resolves the request |
| BackgroundJobs.EveryHistory | src/sandbox/background-jobs.ts:133-317 | in every history at most four known jobs run, every buffer is the beginning of its stream, all of it unless marked truncated, and at most 64 completions wait |
| BackgroundJobs.LaunchedIffRoom | src/sandbox/background-jobs.ts:133-159 | a launch is accepted exactly when fewer than four known jobs are running, and gives the next number |
| JobHistory.HowJobsEnd | src/sandbox/background-jobs.ts:180-192 | in every history a job runs until its first end; then it succeeded exactly when it exited with success, was killed exactly when it ended with an error after a kill, a disposal or an abort of its parent, and failed otherwise; while it runs the signal of its executor is aborted exactly when one of these happened |
| JobHistory.WholeChunksAreKept | src/sandbox/background-jobs.ts:171-178 | the buffer is the longest run of whole first chunks that fits, and marked truncated exactly when all the output together does not |
| JobHistory.AnnouncedOnceInOrder | src/sandbox/background-jobs.ts:121-127 | every job is announced once, after its end and with its status; what was drained and what waits are exactly these announcements in order, exactly when none met a full queue or a disposal |
| BackgroundJobs.PollingLosesNothing | src/sandbox/background-jobs.ts:219-232 | polling from the offset returned last, whenever and however often, puts together exactly the buffer: nothing lost, nothing twice |
| BackgroundJobs.BufferGrowsAlong | src/sandbox/background-jobs.ts:171-178 | what a job has shown it never takes back |
| BackgroundJobs.AnnouncementsAreTrueIff | src/sandbox/background-jobs.ts:180-198 | short of a disposal all waiting announcements are and stay true exactly when they are now, every running job has its number in the table, and every ended job not yet announced will be announced as what its number says |
| BackgroundJobs.DisposalIsHarmlessIff | src/sandbox/background-jobs.ts:304-317 | after a disposal all later announcements are true exactly when no job was running or about to be announced |
| BackgroundJobs.AnnouncementsAreTrue | src/sandbox/background-jobs.ts:193-198 | in every history whose disposals find no such job, every waiting announcement names a job that ended that way |
| BackgroundJobs.LateEndIsMisattributed | src/sandbox/background-jobs.ts:142-144 | a history with another disposal: numbers start anew, and the late end of a disposed job is announced as that of a new one still running |
| BackgroundJobs.JobRegistry.OnExit | src/sandbox/background-jobs.ts:182-192 | the executor ends: by its exit code, or as killed or failed with an error |
| BackgroundJobs.JobRegistry.OnFinally | src/sandbox/background-jobs.ts:193-198 | a later callback announces the end under the number the job was given, unless 64 wait already |
| BackgroundJobs.JobRegistry.DrainNotifications | src/sandbox/background-jobs.ts:235-240 | what waits is handed out in order and the queue is empty |
| BackgroundJobs.JobRegistry.DisposeSession | src/sandbox/background-jobs.ts:304-317 | every running job of the session is signalled and all are forgotten |
| BackgroundJobs.JobRegistry.StartJob | src/sandbox/background-jobs.ts:133-159 | a fifth concurrent job is refused, any other is known under a fresh number |
| BackgroundJobs.JobRegistry.KillJobById | src/sandbox/background-jobs.ts:289-297 | a running job is marked and signalled, a known one that ended is left alone, and an unknown number is refused |
| BackgroundJobs.JobRegistry.OnParentAbort | src/sandbox/background-jobs.ts:161-165 | the signal of the parent reaches the job |
| BackgroundJobs.JobRegistry.OnOutput | src/sandbox/background-jobs.ts:171-178 | a chunk that does not fit ends the buffer for good |
| BackgroundJobs.JobRegistry.ReadOutput | src/sandbox/background-jobs.ts:219-232 | any offset is clamped; unknown jobs answer nothing |
| Composer.ComposedWithinLimit | src/harness/instruction-composer.ts:115-158 | a composed prompt that keeps any segment but the kernel is estimated within its limit |
| Composer.DroppedTailIsMinimal | src/harness/instruction-composer.ts:131-140 | what is dropped is a tail of the segments that are not the kernel, in priority order, and dropping less would exceed the limit |
| Composer.TruncationMeetsBudget | src/harness/instruction-composer.ts:53-72 | a cut text keeps its longest prefix that leaves room for the marker, and meets its budget exactly when it was not cut or the budget holds the marker |
| Composer.EstimateJoin | src/harness/model-context.ts:191-199 | the estimate is monotone and subadditive under joining |
| Composer.EstimateCounts | src/harness/model-context.ts:191-199 | the estimate is one token for every character beyond U+007F and a third, rounded up, for the others |
| Composer.LongestPrefix | src/harness/instruction-composer.ts:63-69 | the binary search ends at the longest prefix within the limit |
| Composer.ComposePrompt | src/harness/instruction-composer.ts:115-158 | sorting, cutting, dropping and joining compute the specified prompt, for any kernel id |
| Composer.PromptReads | src/harness/instruction-composer.ts:115-144 | the prompt is the texts of the first segments by priority, as many as the limit has room for, and of the kernel, each cut to its own budget, with blank lines between them |
| StableSort.SortIsStable | src/harness/instruction-composer.ts:116 | segments of equal priority stay in the order they were added |
| Composer.DropTail | src/harness/instruction-composer.ts:133-140 | the loop from the end drops exactly the segments behind the cut point |
| Composer.HarnessKeepsMore | src/harness/context-harness.ts:886-897 | the second cutter of the harness keeps at least as much, and meets every budget that holds the marker |
| Composer.HarnessCutIsLongest | src/harness/context-harness.ts:886-897 | it leaves a text within the limit alone and else keeps the longest beginning with which the marker still fits |
| Composer.TruncateForHarness | src/harness/context-harness.ts:886-897 | its binary search ends at the longest prefix that fits together with the marker |
| Composer.EstimateTextTokens | src/harness/model-context.ts:191-199 | the counting loop computes the estimate |
| Sampling.SampleIsProportional | eval/sampling.ts:18-58 | nothing is selected for a total of zero or less or from no instances; otherwise quotas add up to the total, each is the exact share rounded down or up, larger repositories get no fewer, and for a total of at most all instances exactly that many are selected |
| Sampling.EachGivesItsLeast | eval/sampling.ts:48-56 | every repository gives its first instances by id, as many as its quota or all it has, and exactly its quota when the total does not exceed all instances |
| Sampling.LeastComeFirst | eval/sampling.ts:52-55 | none of a repository that is left out comes before one that is selected |
| Sampling.SelectedAreDistinct | eval/sampling.ts:48-57 | with distinct ids nothing is selected twice, all of it was given, and it is in id order |
| Sampling.OrderDoesNotMatter | eval/sampling.ts:18-58 | with distinct ids any two orders of the input give the same result |
| Sampling.PilotIsPrefix | eval/sampling.ts:61-63 | the pilot is the beginning of the selection |
| Sampling.StratifiedSample | eval/sampling.ts:18-58 | the grouping, rounding and picking loops compute the specified selection |
| Apportionment.Apportion | eval/sampling.ts:33-46 | the two loops compute the specified quotas |
| Apportionment.FloorShares | eval/sampling.ts:29-34 | the first loop rounds every share down |
| Apportionment.HandOut | eval/sampling.ts:42-46 | the second hands out what remains, one each in the order given |
| Apportionment.QuotasAddUp | eval/sampling.ts:35-46 | they add up to the total |
| Apportionment.QuotaIsRoundedShare | eval/sampling.ts:34-46 | each is its share rounded down, or up when the share is not whole |
| Apportionment.QuotaWithinSize | eval/sampling.ts:42-55 | none exceeds its group when the total does not exceed them all |
| Apportionment.LargerGetNoFewer | eval/sampling.ts:37-46 | a larger group never gets fewer, though larger remainders go first |
| Plan.TrimTakesOffWhitespace | src/harness/plan.ts:97-121 | trimming takes whitespace off both ends and nothing else |
| Plan.DigitsAreDecimal | src/harness/plan.ts:120 | the number in a generated id is decimal, without leading zeros |
| Plan.NormalizedIsNormal | src/harness/plan.ts:91-141 | an accepted list has distinct trimmed ids, titles within the limit and at most one item in progress |
| Plan.RefusedForFirstFault | src/harness/plan.ts:95-118 | a submission is refused exactly when it is too long or some item has no title, too long a title or no valid status, and for the first such reason |
| Plan.AcceptedKeepsContent | src/harness/plan.ts:102-140 | an accepted list keeps order, trimmed titles, statuses (of several items in progress only the last stays so) and ids, unless an earlier item has the id |
| Plan.AcceptedIds | src/harness/plan.ts:120-127 | the id of an accepted item is the one given, trimmed, or its number behind a `t`; if an earlier item has it, with the least number from two on that makes it new |
| Plan.ResubmittingChangesNothing | src/harness/plan.ts:155-162 | submitting an accepted plan again changes nothing, not even the revision |
| Plan.RestoreIsIdentity | src/harness/plan.ts:217-235 | restoring a saved plan gives back every plan that can be reached, exactly while its revision is a safe integer |
| Plan.ItemIsRestoredIff | src/harness/plan.ts:225-232 | which stored items are restored, and as what |
| Plan.PlanIsRestored | src/harness/plan.ts:217-235 | of any stored value the first twelve of those items are restored, with its revision if that is a safe integer from zero on |
| Plan.ApplyStaysReachable | src/harness/plan.ts:155-162 | applying stays among those plans and counts a revision exactly for a change |
| Plan.FindFreeId | src/harness/plan.ts:123-127 | the suffix search terminates and gives an unused id, the wanted one when that is free |
| Plan.NormalizeItems | src/harness/plan.ts:91-141 | the loop with its growing id set computes the specified list or the first refusal |
| ExecutionBudget.LevelIsTierOfUse | src/harness/execution-policy.ts:226-280 | over every run of a new bucket the sticky level is the tier of its accumulated use and never falls, and each tier is reported at most once, in rising order |
| ExecutionBudget.ObservationReportsNew | src/harness/execution-policy.ts:226-272 | one observation adds to the capped use, raises at most the flag of the tier it is in, and reports that tier exactly when the flag is new |
| ExecutionBudget.LevelOfSum | src/harness/execution-policy.ts:250-269 | so the sum of all uses tells the level: exhausted from the limit on, then converging and warned from their shares of it on |
| ExecutionBudget.RanksAre | src/harness/execution-policy.ts:99-104 | exhausted ranks above converging, that above warned, and that above none |
| ExecutionBudget.TierRises | src/harness/execution-policy.ts:250-269 | more use never belongs to a lower tier |
| ExecutionBudget.AdvanceBudget | src/harness/execution-policy.ts:226-280 | each bucket advances by itself, the level is the highest of them and the buckets reported are those that reached a new tier |
| InlineImages.StartIsLeast | src/runtime/image-materialize.ts:190-204 | the images sent are the longest run of the newest that the count admits and the bytes hold |
| InlineImages.OmittedIsLeastPairs | src/runtime/image-materialize.ts:191-196 | the count leaves out the least number of pairs of the oldest images after which the rest is within it, but never the newest |
| InlineImages.CostIsRoundedUp | src/runtime/image-materialize.ts:200 | an image counts with four thirds of its size, rounded up |
| InlineImages.StartNeverMovesBack | src/runtime/image-materialize.ts:187-204 | one more image never brings an omitted one back |
| InlineImages.SelectInline | src/runtime/image-materialize.ts:196-204 | the loop selects exactly that run |

## Left out

- The file system, SQLite, HTTP, process spawning and timers: they are parameters or steps that may come at any time and may fail.
- Digests: SHA-256 is taken as injective, so a call key is modelled by the text that is digested.
- IEEE floating point: shares, ratios and the base64 factor are exact fractions.
- UTF-16: a character is a Unicode scalar value; lone surrogates and a cut between two surrogates are not modelled.
- Wording: prompts, reminders, error messages and rendered reports are not modelled, only which of them is produced.
- The engine of JavaScript regular expressions outside the fragment the glob compiler emits.
- Evidence store: times, log references, `view()` and `hasUnresolved()`; an id `inv-<n>` or `chk-<n>` is its number, and record fields restored from a snapshot are whole numbers or of another type.
- Evidence store: a returned record is a value, so that callers can change the stored record through it is not captured.
- ToolFacts.ValidateToolFacts: issue texts are an enumeration with the index of the item; which of its fields is at fault is not told.
- Zip.RoundTrip: a file beyond the first 65536 bytes is characterized by what is found in its place, which only the archive shows; whether it equals the file cannot be decided from sizes alone.
- Zip.ReadZipEntries: a malformed UTF-8 name is an error of the model, where the decoder would put replacement characters.
- Zip.CreateZip: the DOS time and date are two given 16-bit numbers.
- TextWindow.ReadTextWindow: a line that is malformed UTF-8 has no text; replacement characters are not modelled.
- SseStream.NormalizeResponse: the names the diagnostics keep by id and the JSON text of a line are not modelled; reading a line is a parameter.
- RepeatCall.RepeatCallKey: argument values are JSON values; numbers are identified by their shortest text.
- ContextTrim.TrimIsLeast: messages before the system message are dropped by any trimming, so the transcript starts with it or has none; the estimate of a message is any function.
- Compaction.RunStaysAligned: the transcript starts with a system message and has a user message after it, as the harness creates it; other transcripts are covered by CountSurvivesIff and LeadingMessagesShiftTheSegment.
- Compaction: attachment manifests, the dynamic context message, the usage numbers of `process` and the prefix handed to the summarizer.
- RunLifecycle: result texts, stop reasons, workspaces, deletion of runs and the waiting times of `close`.
- Toolchain.EverySchedule: the checks before a request is admitted, progress events, messages and capability snapshots.
- BackgroundJobs: `waitForBackgroundJob`, the final output of a job and `capOutput`; other sessions.
- Sampling.StratifiedSample: both text orders of the source are the order of UTF-16 code units; locale collation is not modelled.
- Plan.NormalizeItems: titles are measured in characters.
- InlineImages: loading the images and the notes left in their place.
- ExecutionBudget: normalizing a stored state and rendering.
- Shell command effects, path containment on disk, provider catalogues, model resolution and the CLI.
