# Codex Gate: a verified model

Codex Gate puts an approval gate, sealed evidence capsules, a copy-and-paste bridge to a planning
chat, a file catalogue and a model router around a coding agent. This project models the algorithms
and state machines of its `app/` package in Dafny and proves what they promise over all inputs or
all runs.

`dafny verify dfyconfig.toml` checks everything.

## How the model is built

One module per component. Code that updates objects or runs loops is a class or a method, proved
against a specification function or predicate; what the component promises is then proved about
that specification. Code made of expressions is functions.

| modules | component |
|---|---|
| `Utf8`, `TextInspection`, `SourceScan`, `EvidenceRanges` | capturing the requested line ranges of a source: incremental decoding, the bounded line reader, range merging |
| `Capsule` | writing a capsule directory and verifying it later |
| `Permissions`, `Approvals` | an approval whose answers, timeout, server resolution, disconnect and turn end interleave at suspension points |
| `RunGuard` | budgets, failure counters and the file allow list of a run, under interleaved event handlers |
| `Bridge` | the twelve-state bridge protocol with sealed packets and single-use nonces |
| `Catalog` | the worklist traversal that catalogues a tree in batches |
| `CanonicalJson`, `Base64Url`, `FrameCodec`, `ChildSchema`, `ChildMeaning`, `IdleChild` | canonical JSON, base64url and the child control frame with its schema, what the schema demands in terms of JSON values, and payloads of a child that did nothing |
| `Jsonl`, `JsonlMeaning` | the JSONL lifecycle acceptor, and what it accepts in terms of JSON values |
| `Sse` | printing and parsing server-sent events |
| `GitPorcelain` | reading `git status --porcelain=v2 -z` |
| `Router` | choosing a model and an effort |
| `FormatProbe` | the format detectors |

Conventions:

- SHA-256 has no collisions: a digest is a datatype around what was hashed.
- A Python exception that the source raises on purpose, and one that escapes from a library call,
  are different outcomes (`Rejected` and `Crashed`).
- Clocks, fresh nonces, text-safety screening, the operating system's answers and library calls are
  parameters. `IsFaithful` and `EncodesAll` say what is required of a JSON codec under the limits of
  the interpreter, and `FrameCodec.PlainCodecIsFaithful` proves both of a concrete printer and reader,
  whatever the limits are; `IsSane` says that a text folding to
  "ultra" has no blanks around it and that the empty text stays empty.
- Steps of asynchronous code are cut at `await`: everything between two suspension points is one
  step, and steps of different tasks come in any order.
- JSON values keep booleans, integers and floats apart. A finite float is its `repr`; NaN, the
  infinities and strings with an unpaired surrogate are values of their own.

## What the proofs found

- A resolution by the server, a disconnect or the end of a turn does not always last: if a user's answer
  is being sent at that moment and the send fails, `app/gateway.py:684-688` sets the approval back to
  pending. It lasts exactly when no answer of a user's call is in flight
  (`Approvals.SettlingIsFinalIffNoUserAnswers`); `Approvals.ServerResolutionCanBeUndone` reaches such a
  state. The timeout's own answer is cancelled with its timer, so it cannot undo anything, and after a
  successful send a resolution always lasts.
- A payload can pass the child schema and still make the encoder raise an error that is no policy error:
  exactly when a field of unbounded size cannot be written under the limits of the interpreter
  (`ChildSchema.ValidPayloadFrames`). The counters have no upper bound
  (`app/codex_process_executor_wsl.py:664-670`), so a count with more digits than the interpreter prints
  does it, and so does a NaN, an infinity, an unpaired surrogate or deep nesting in `request_hash` or
  `sensitive_headers_removed`, whose values the schema requires and does not look at
  (`IdleChild.ValidPayloadsThatCrash`).
- An Ultra effort can be routed without the conditions for Ultra: `_is_ultra` compares the text without
  stripping it and only for three families, while `_effort_stage` strips it and serves all
  (`app/router.py:73-75`, `115-116`). `Router.UltraRouteIff` says exactly when, and
  `Router.UltraWithoutItsConditions` gives two such requests.
- The fallback of Ultra is announced as the highest advertised effort below it and is the last one
  listed (`app/router.py:147-152`). They agree exactly when every listed effort below Ultra is the last
  such one or is followed by one of at least its stage (`Router.FallbackIsHighestIff`); a model that
  lists "max" before "low" gets "low" (`Router.FallbackCanBeLowest`).
- The frame decoder ignores the unused bits of the last base64url symbol. A frame is the canonical one
  exactly when those bits are zero (`FrameCodec.AcceptedFrame`), a payload has further frames exactly
  when its canonical JSON fills no whole groups of three octets (`FrameCodec.OtherFrameIff`), and some
  valid payload has (`IdleChild.TwoFrames`).
- For an unmerged path, git prints ten columns before the path and the parser cuts after eight, so the
  last two object names stay in front of the path (`GitPorcelain.TrueUnlessUnmerged`).
- A catalogue flush holds at most 500 records, but rejections skip the size test
  (`app/catalog.py:131-134`, `143-150`, `169-170`). Records and rejections together stay within 500
  exactly when no rejection is the 500th, 1000th, ... entry handed over, unless it is the last one
  (`Catalog.BoundedIff`, a part of what `Catalog.Scan` promises). A directory of nothing but links,
  however many, is one flush (`Catalog.LinksAreFlushedAtOnce`).
- The file limit is compared only after a file was counted, with counters a resumed scan takes over
  (`app/catalog.py:93-94`, `160-168`). So a scan resumed under a limit it had reached counts one new file
  beyond it (`Catalog.ResumedScanOverruns`), and never more than one (`Catalog.Scan`).
- The JSONL acceptor and the host parser of frames can end in an error that is no policy error, by an
  unhashable name, a load that runs out of stack, or a payload that loads and has no canonical form
  (`Jsonl.AcceptCrashesIff`, `FrameCodec.ParseCrashesIff`). The one line `{"type":[]}` does it to the
  acceptor (`Jsonl.ListTypeCrashes`), and the canonical frame of a payload whose `stage` is an empty
  list to the parser (`IdleChild.ListStageCrashes`).
- The glTF detector catches only a JSONDecodeError, so a load that runs out of stack ends the whole
  probe; this concerns only samples no other detector claims (`FormatProbe.RunDetectors`,
  `FormatProbe.EscapeOwner`).

## Model

| member | source | states |
|---|---|---|
| Utf8.EncodeAllRoundTrips | app/capsule.py:696-708 | every sequence of scalar values encodes to well-formed UTF-8 octets (section 4 of RFC 3629) that decode to it |
| Utf8.DecodeRoundTrips | app/capsule.py:696-708 | every well-formed octet sequence is the encoding of what it decodes to |
| Utf8.WellFormedIffEncoding | app/capsule.py:696-708 | the grammar accepts exactly the encodings of sequences of scalar values |
| Utf8.ConsumeAppend | app/capsule.py:685-695 | decoding in two steps, keeping the unfinished tail, is decoding the concatenation at once |
| Utf8.WellFormedIffConsumed | app/capsule.py:685-708 | incremental decoding ends without error and without a tail exactly on well-formed octets |
| Utf8.FailsIffUnrepairable | app/capsule.py:685-695 | the incremental decoder fails exactly on octets no continuation can make well-formed |
| TextInspection.TextInspector.Feed | app/capsule.py:685-695 | feeding a piece is appending it to what was fed, in every field the verdict depends on |
| TextInspection.TextInspector.Finish | app/capsule.py:696-708 | the verdict is a function of the concatenated octets alone, however they were cut |
| TextInspection.TextMeaning | app/capsule.py:696-708 | text is exactly NUL-free octets that encode some scalar values |
| TextInspection.AsciiMeaning | app/capsule.py:696-708 | `ascii` is exactly NUL-free seven-bit octets |
| TextInspection.SigMeaning | app/capsule.py:696-708 | `utf-8-sig` is exactly NUL-free text whose first scalar value is the byte order mark |
| SourceScan.SplitLinesIsPartition | app/capsule.py:396-420 | lines lose no octet and are cut exactly after newlines |
| SourceScan.SplitLinesUnique | app/capsule.py:396-420 | there is only one way to cut a source into lines |
| SourceScan.LinesDecode | app/capsule.py:477-485 | every line of well-formed UTF-8 is well-formed, so a captured line always decodes |
| SourceScan.SelectedExactly | app/capsule.py:442-444 | the selected lines are, in order and with all their octets, exactly the lines inside some range |
| SourceScan.SourceFile.ReadLine | app/capsule.py:395-412 | a bounded read returns the next octets up to a newline or the limit and moves on by them |
| SourceScan.ReadContinuations | app/capsule.py:403-412 | pieces that fill the limit are continued until the line ends, every piece hashed and inspected |
| SourceScan.StreamLines | app/capsule.py:388-424 | the range loop hashes and inspects the whole source, counts its lines and keeps exactly the selected ones, at every buffer boundary |
| SourceScan.ScanRangeSource | app/capsule.py:372-435 | the outcome of a range scan, for every content, list of ranges and set of status calls |
| SourceScan.RangeOutcomeParts | app/capsule.py:372-474 | a range scan is good exactly when the request is small enough, all four status calls agree, hash and size match, the content is text, no line or capture is too long and no range ends outside; its line count, encoding and captured lines are then the true ones |
| SourceScan.ScanFullSource | app/capsule.py:342-370 | the 64 KB scan gives the verdict and content of the whole source, the same verdict as the line scan |
| SourceScan.FullOutcomeParts | app/capsule.py:342-370 | a whole-file scan is good exactly when all four status calls agree, hash and size match, the size is within the limit and the content is text; a capture then holds the whole content |
| SourceScan.ScansAgree | app/capsule.py:446-474 | a whole-file scan and a range scan of one text report the same hash, size and encoding |
| SourceScan.ReasonsAreTrue | app/capsule.py:446-474 | the reason a scan is refused for is true of the content, the status calls or the ranges, and no test before it fails |
| EvidenceRanges.MergeGroup | app/policy.py:487-497 | merging sorted ranges keeps the selected lines and the joins between neighbours, in increasing disjoint ranges |
| EvidenceRanges.MergeEvidenceRanges | app/policy.py:471-498 | the same for all paths, ordered by canonical path, each under its first spelling |
| EvidenceRanges.MergeOfUnique | app/policy.py:471-498 | for valid ranges these conditions determine the merged list |
| EvidenceRanges.MergeIdempotent | app/policy.py:471-498 | merging a merged list changes nothing |
| EvidenceRanges.RequestedIsLineCount | app/capsule.py:380-382 | the sum compared with the cap is the number of distinct lines requested of a path |
| EvidenceRanges.CaptureCountsRequest | app/capsule.py:380-382 | a scan of merged ranges holds for too many lines exactly above a thousand distinct lines, and a good capture returns exactly the requested line numbers |
| Capsule.MakeParents | app/capsule.py:629 | creating parents fails exactly where a file stands in the way, and otherwise adds exactly the missing directories |
| Capsule.WriteCapsule | app/capsule.py:626-632 | writing succeeds exactly for paths without conflicts, and then leaves exactly the files and the directories they need |
| Capsule.CapsuleTree | app/capsule.py:559-583 | the worklist walk returns all files and directories of a tree, or an error exactly when it holds a link or special file |
| Capsule.ExpectedDirectories | app/capsule.py:536-541 | the collected parents are the ancestor closure of the manifest's paths |
| Capsule.VerifyContents | app/capsule.py:532-557 | the walk and hash comparison accept exactly the trees with the manifest's files, hashes and directories |
| Capsule.VerifyExistingCapsule | app/capsule.py:487-557 | verification succeeds exactly when manifest, record, plan and contents all agree |
| Capsule.CountBytes | app/capsule.py:187 | the byte total is the sum over all files in any order |
| Capsule.CreateCapsule | app/capsule.py:158-206 | a capsule is ready exactly within the file and byte limits and without path conflicts; left untouched, it verifies |
| Capsule.LayoutIffMatch | app/capsule.py:532-557 | a tree matches the content hashes exactly when it is the created layout |
| Capsule.VerifiesIffUnchanged | app/capsule.py:487-582 | a directory verifies against a created record exactly when its files and directories are those of creation and its manifest still reads as the created one |
| Capsule.OneClaimVerifies | app/capsule.py:487-531 | an untouched capsule verifies for exactly one claim: its own plan, fingerprint and stored record |
| Permissions.SubsetReflexive | app/protocol.py:117-126 | a permission value is contained in itself exactly when it holds no NaN |
| Permissions.SubsetTransitive | app/protocol.py:117-126 | narrowing a narrowed permission is narrowing |
| Permissions.SubsetAllowsNoMore | app/protocol.py:117-126 | a contained permission allows no flag, list member or exact value the requested one does not |
| Permissions.SubsetIffFits | app/protocol.py:117-126 | a permission value is contained exactly when, wherever it grants something, that fits what was requested in the same place |
| Approvals.StepKeepsInv | app/gateway.py:659-738 | every step of any task keeps: one lock holder, only legal answers under way, at most one delivery, a delivered approval resolved, and a running timeout's answer only in an answering approval |
| Approvals.AnswerOfDecision | app/gateway.py:671-708 | the checks pass exactly for an offered decision with permissions it may grant, and what each decision is answered with: `accept` for the turn, `acceptForSession` for the session, `decline` and `cancel` with nothing granted, a command or file change with the decision itself |
| Approvals.NothingRequested | app/gateway.py:705-707 | a request whose permissions are null or another empty value can only be granted an empty object |
| Approvals.CallCan | app/gateway.py:671-697 | where a call is suspended decides what it can do next, and it can be cancelled anywhere |
| Approvals.CallKeepsAnswer | app/gateway.py:671-697 | no step of another task changes an answer under way, except the cancelling of the timeout's own |
| Approvals.ExpiresOnce | app/gateway.py:710-718 | the timeout expires at most once in a run |
| Approvals.TimeoutCancels | app/gateway.py:710-718 | an approval nobody answers is cancelled by its timeout, and nothing is granted |
| Approvals.LateTimeoutDoesNothing | app/gateway.py:710-718 | a timeout that expires after an answer or a settlement changes nothing |
| Approvals.Approval.CallResolve | app/gateway.py:659-671 | a call joins the queue for the lock and changes nothing else |
| Approvals.Approval.Expire | app/gateway.py:710-718 | an expired timer queues a cancel exactly when the approval still waits |
| Approvals.Approval.BeginAnswer | app/gateway.py:671-681 | under the lock, the checks and the announcement of an answer are one step of the state machine |
| Approvals.Approval.BeginSend | app/gateway.py:681-683 | the send starts with the announced answer, whatever the status has become meanwhile |
| Approvals.Approval.SendReturned | app/gateway.py:690-692 | a returned send resolves the approval and cancels the timeout task unless it is the caller |
| Approvals.Approval.SendRaised | app/gateway.py:684-688 | a failed send makes the approval wait again |
| Approvals.Approval.SettleAs | app/gateway.py:720-738 | server resolution, disconnect and turn end settle a waiting or answering approval, cancel the timeout task with the call it may be in, and change nothing else |
| Approvals.Approval.Leave | app/gateway.py:671-697 | a call that returns or is cancelled gives the lock back if it held it, and leaves the status alone |
| Approvals.ReopensOnlyAfterFailure | app/gateway.py:684-688 | a step makes an approval wait again exactly when it is a failed send, and never after a delivery |
| Approvals.UndisturbedCallDelivers | app/gateway.py:671-697 | whoever takes the lock with an accepted decision can deliver exactly that answer and free the lock |
| Approvals.DeliveredOnce | app/gateway.py:659-697 | over every interleaving at most one answer is delivered, it is legal, and from then on the approval stays resolved |
| Approvals.DeliveredWasDecided | app/gateway.py:699-708 | over every run, a session grant delivered was decided by a user's `acceptForSession`, a turn grant by a user's `accept`, each with that call's permissions, and any other answer by a decision of that name or the timeout |
| Approvals.SettledForGood | app/gateway.py:720-738 | a settled approval with no answer in flight never waits again and delivers nothing more |
| Approvals.SettledIsFinalIffNothingInFlight | app/gateway.py:680-688 | a settled approval can come to wait again exactly when an answer is in flight that was not cancelled |
| Approvals.Approval.CancelTimer | app/gateway.py:857-865 | cancelling the timeout task stops it, and a call it is suspended in can only end from then on |
| Approvals.SettlingIsFinalIffNoUserAnswers | app/gateway.py:720-738 | settling from outside is final exactly when no answer of a call other than the timeout's is in flight |
| Approvals.TimeoutAnswerIsCancelled | app/gateway.py:710-738 | settled while the timeout's own answer is in flight, an approval stays settled over every run and nothing is delivered |
| Approvals.ServerResolutionCanBeUndone | app/gateway.py:857-865 | a run that resolves an approval by the server while the user's answer is being sent |
| RunGuard.EnforceGuards | app/gateway.py:794-807 | enforcing leaves a run running only under every limit, warns at most once, and never leaves `interrupting` |
| RunGuard.RunObject.HandleChanges | app/gateway.py:771-792 | recording changed files in place is the step of the specification, stopping at the first one off the allow list |
| RunGuard.RunObject.ItemArrives | app/gateway.py:740-769 | an item handler up to its suspension point is the step of the specification |
| RunGuard.RunObject.ItemResumes | app/gateway.py:757-769 | a suspended item handler goes on as the step of the specification, whatever happened meanwhile |
| RunGuard.RunObject.TokensReported | app/gateway.py:582-584 | a token report replaces the count and is enforced |
| RunGuard.RecordGuards | app/gateway.py:771-792 | recorded files are allowed as long as the run is running, for any list of changes |
| RunGuard.StepGuards | app/gateway.py:740-807 | one handler step keeps the limits, and a running run goes on exactly when the event is no stop and every counter stays under its limit |
| RunGuard.SlashesAt | app/gateway.py:781 | a path is recorded with each backslash turned into a slash |
| RunGuard.CountersAreTrue | app/gateway.py:740-807 | over every interleaving, the counters of a running run are the numbers of started items that are no message, of failed commands and failed test commands, its tokens the last total, its files all paths reported, and the warning came exactly if four fifths of the budget were reported |
| RunGuard.RunningWithinBudget | app/gateway.py:794-807 | a running run was told fewer items, tokens and failures, and no more files, than its budget allows |
| RunGuard.StepSuspends | app/gateway.py:757-760 | while a run goes on, exactly the handlers of file changes wait until they are resumed |
| RunGuard.StopIsExplained | app/gateway.py:740-807 | the reason a running run is stopped for is true of the event or the counters, and the first one tested |
| RunGuard.RunStaysGuarded | app/gateway.py:534-541 | over every interleaving until the turn completes: running implies all limits and only allowed files, interrupting is never left, one warning at most |
| RunGuard.StartedRunIsGuarded | app/policy.py:17-22 | for every budget level, from the first event on: a running run is guarded and was told less than that level's items, tokens and files |
| Bridge.StepIsSound | app/bridge.py:200-352 | every operation keeps the invariant, no packet fails its integrity check, and the nonce table never refuses |
| Bridge.ImportIsSound | app/bridge.py:263-306 | claiming and ending a nonce around an import keep the invariant in every branch, also when the program stops in between |
| Bridge.ReachableIsSound | app/bridge.py:430-457 | in every reachable state action, phase and packet kind fit the status, a nonce is pending exactly in the ready, waiting and processing states, and the sealed hash is that of the packet rebuilt from the record |
| Bridge.SameNonceSamePacket | app/bridge.py:83-92 | however often a packet is handed out, equal nonces mean equal packets |
| Bridge.ImportChangesIffConsumes | app/storage.py:1536-1770 | an import changes a bridge task exactly when it consumes its nonce, which was not consumed before |
| Bridge.ImportsUseNoncesOnce | app/bridge.py:263-306 | two advancing imports carry different nonces, and replaying a recorded response changes nothing, whatever happened in between |
| Bridge.AcceptedImport | app/bridge.py:319-352 | where each kind of accepted response takes a task, with every stored field: the five verdicts, a previewed, other or failed plan, more evidence, safe or not; and how its nonce ends |
| Bridge.OtherImport | app/bridge.py:263-306 | what every other import answers and leaves behind: repeated, unmatched, late, unsupported or cut off |
| Bridge.CopiedMoves | app/bridge.py:240-248 | marking as copied leads from a ready to the waiting state of the same phase, and does nothing anywhere else |
| Bridge.PrepareMoves | app/bridge.py:250-261 | a review request opens exactly from a ready route with a result and a validation, sealed under a new nonce |
| Bridge.RestartMoves | app/bridge.py:308-317 | a new cycle opens exactly from the four final states; only a redesign passes its feedback on |
| Bridge.EvidenceMoves | app/bridge.py:430-439 | complete evidence opens a new architect request that keeps the cycle's knowledge |
| Bridge.RecoverMoves | app/bridge.py:193-198 | recovery holds exactly a task whose import was cut off and fails its nonce |
| Bridge.EmitMoves | app/bridge.py:200-238 | a packet is given out exactly in the four states with a request, in time, safe and within the size limit; otherwise the task is held or nothing happens |
| Bridge.PacketTells | app/bridge.py:83-92 | a packet carries the question with its evidence and feedback, or the plan, result and validation under review |
| Bridge.StatusTellsLastChange | app/bridge.py:263-352 | over every run, a task is in SUCCESS exactly when the last operation that changed its record was the import of a review with that verdict, and so for REDESIGN, ROLLBACK, a ready route and more evidence |
| Bridge.BridgeTask.SealRequest | app/bridge.py:446-452 | the sealed record expires a fixed time after the given one, carries the hash of its own envelope, times included, and is otherwise the record given |
| Bridge.SealedPacketIff | app/bridge.py:83-92 | a packet under a seal is given out before it expires and is the sealed one; its integrity check fails exactly when the envelope rebuilt from the record has become another |
| Bridge.BridgeTask.Packet | app/bridge.py:200-238 | handing out a packet in place is the step of the specification and never fails its integrity check |
| Bridge.BridgeTask.Copied | app/bridge.py:240-248 | marking as copied in place is the step of the specification and keeps the invariant |
| Bridge.BridgeTask.PrepareReviewRequest | app/bridge.py:250-261 | preparing a review in place is the step of the specification and keeps the invariant |
| Bridge.BridgeTask.ImportResponse | app/bridge.py:263-306 | importing in place is the step of the specification, keeps the invariant and is never refused by the nonce table |
| Bridge.BridgeTask.RestartTask | app/bridge.py:308-317 | restarting in place is the step of the specification and keeps the invariant |
| Bridge.BridgeTask.AdvanceIfEvidenceReady | app/bridge.py:430-439 | completing evidence in place is the step of the specification and keeps the invariant |
| Bridge.BridgeTask.RecoverProcessing | app/bridge.py:193-198 | recovery after a stop holds the bridge task and fails its nonce |
| Catalog.WalkMeetsEachOnce | app/catalog.py:112-138 | the worklist traversal terminates and meets every entry of the tree exactly once |
| Catalog.RecordsExactly | app/catalog.py:129-170 | exactly the first spellings of regular files are recorded; exactly links, unreadable entries and later spellings are rejected |
| Catalog.OneRecordPerPath | app/catalog.py:146-151 | no two records share a case-folded path, and every file's folded path has a record |
| Catalog.EachEntryOnce | app/catalog.py:129-170 | every entry met is a record, a rejection, or a directory or special file |
| Catalog.RecordTells | app/catalog.py:151-158 | a record has its entry's size, time and identity, and is added, unchanged or modified exactly as the catalogue before says |
| Catalog.CountersTell | app/catalog.py:159-163 | each counter grows by the new records of its kind, the files seen by all of them, the bytes by their sizes |
| Catalog.FreshScan | app/catalog.py:98-175 | an uninterrupted fresh scan flushes each entry once; the counters are the record count, the size sum and a split of the records into added, unchanged and modified |
| Catalog.Flush | app/catalog.py:103-110 | flushing moves the waiting batch behind what was flushed and loses nothing |
| Catalog.ScanListing | app/catalog.py:120-172 | the loop over one directory accounts for exactly the entries it met, whatever stops it, flushes when a record fills the batch and only then, and breaks only on a directory that cannot be listed |
| Catalog.Scan | app/catalog.py:93-181 | from any cursor and any counters taken over: what is flushed at the end is exactly the result for the entries met, all of them if the scan completes; an interrupted scan leaves a cursor to every entry it has not met; every flush is within the batch size exactly when `Catalog.RecordsFill` holds; it completes only if every directory can be listed, fails only if one cannot, is interrupted only by the file limit or a cancellation, and exceeds the limit only by one file, and only if the counters had reached it |
| Catalog.BoundedIff | app/catalog.py:103-110 | the flushes of a scan hold at most 500 records and rejections each exactly when no rejection is at a position that fills a batch, the last entry excepted |
| Catalog.ResumedScanOverruns | app/catalog.py:160-168 | resumed under a limit its counters had reached, the scan of a directory with one new file counts it and only then stops |
| Catalog.LinksAreFlushedAtOnce | app/catalog.py:131-134 | a directory of nothing but links is one flush with all of them as rejections, however many there are |
| CanonicalJson.ReadPrint | app/policy.py:169-170 | reading canonical JSON gives the value back, for nested values with any strings, integers, finite floats and keys |
| CanonicalJson.PrintInjective | app/policy.py:169-178 | different values have different canonical JSON, so hashing it separates them |
| CanonicalJson.PrintPrintable | app/policy.py:169-170 | canonical JSON holds no control character, in particular no newline (section 7 of RFC 8259) |
| CanonicalJson.LoadCanonical | app/policy.py:169-178 | encoding canonical JSON as UTF-8 and loading it gives the value back |
| Base64Url.SextetsSpellBits | app/codex_process_executor_wsl.py:838-840 | encoding writes the bits of the octets, filled up with zeros to whole symbols (section 4 of RFC 4648) |
| Base64Url.OctetsReadBits | app/codex_process_executor_wsl.py:861 | decoding reads whole octets from the bits of the symbols and drops the rest |
| Base64Url.DecodeEncode | app/codex_process_executor_wsl.py:838-861 | decoding an unpadded encoding gives the octets back |
| Base64Url.EncodeDecode | app/codex_process_executor_wsl.py:861 | a text is the encoding of what it decodes to exactly when its unused bits are zero |
| Base64Url.OtherTextIff | app/codex_process_executor_wsl.py:861 | octets are decoded from another text than their encoding exactly when their number is no multiple of three |
| FrameCodec.FrameRoundTrip | app/codex_process_executor_wsl.py:833-872 | parsing the frame of a payload returns that payload |
| FrameCodec.AcceptedIff | app/codex_process_executor_wsl.py:844-872 | a frame is accepted exactly when it is one prefixed line whose text decodes to the canonical JSON of a valid payload |
| FrameCodec.AcceptedFrame | app/codex_process_executor_wsl.py:844-872 | an accepted frame carries the canonical JSON of the payload returned, and is that payload's own frame exactly when its unused bits are zero |
| FrameCodec.OtherFrameIff | app/codex_process_executor_wsl.py:861 | a payload has an accepted frame besides its own exactly when the length of its canonical JSON is no multiple of three |
| FrameCodec.ParseCrashesIff | app/codex_process_executor_wsl.py:844-872 | parsing a frame ends in an error that is no policy error exactly when its octets load to an object without canonical JSON, or to a canonical one the schema diagnostic raises for |
| FrameCodec.PlainCodecIsFaithful | app/policy.py:169-170 | under any limits, the concrete canonical JSON meets both requirements of the frame proofs: it round-trips, and it encodes exactly what the limits admit |
| ChildSchema.ValidEncodes | app/codex_process_executor_wsl.py:649-816 | a valid payload has canonical JSON exactly when its counters, usage, input shape and two unchecked fields do; every other field always has |
| ChildSchema.ValidPayloadFrames | app/codex_process_executor_wsl.py:833-872 | a valid payload is framed and parses back exactly when its fields of unbounded size can be encoded; otherwise encoding crashes |
| IdleChild.IsAccepted | app/codex_process_executor_wsl.py:649-816 | a concrete payload is valid whatever its request hash is and however large its count of removed headers |
| IdleChild.FrameOfIff | app/codex_process_executor_wsl.py:833-872 | under any limits and with the concrete codec, that payload is framed exactly when both values can be encoded, and encoding it crashes otherwise |
| IdleChild.ValidPayloadsThatCrash | app/codex_process_executor_wsl.py:664-670 | valid payloads whose encoding crashes: NaN, an infinity, an unpaired surrogate, nesting one level too deep, a count with one digit too many |
| IdleChild.ListStageCrashes | app/codex_process_executor_wsl.py:844-872 | the canonical frame of a payload with a list for its stage makes the host parser end in an error that is no policy error |
| IdleChild.TwoFrames | app/codex_process_executor_wsl.py:861 | some valid payload has two different frames the parser accepts |
| ChildSchema.AcceptedCountsAgree | app/codex_process_executor_wsl.py:775-785 | the event counts an accepted JSONL stream reports are the ones the schema recounts |
| ChildSchema.RequestReported | app/codex_process_executor_wsl.py:786-791 | the request fields are consistent exactly when accepted means validated, answered means accepted, validated means seen, and octets were sent exactly if answered |
| ChildSchema.MessageReported | app/codex_process_executor_wsl.py:792-814 | the message fields are consistent exactly when output is there just with an agent message, and a match names an existing regular file, its hash and a single message |
| ChildMeaning.TypedIff | app/codex_process_executor_wsl.py:664-697 | the tests of the plain fields pass exactly when each boolean is true or false, each counter a natural number, each flag 0 or 1, and each digest 64 lower-case hexadecimal digits or, where allowed, nothing |
| ChildMeaning.ShapeIff | app/codex_process_executor_wsl.py:626-646 | an input shape passes exactly when it is nothing or an object of its nine fields with a count, digests, words out of five and counts |
| ChildMeaning.RecountIff | app/codex_process_executor_wsl.py:775-785 | the counts and the digest of the events pass exactly when the counts are the histogram of the listed types and the digest is that of both |
| ChildMeaning.ValidIff | app/codex_process_executor_wsl.py:649-816 | the diagnostic finds nothing exactly in an object with all fields of the schema and no other, typed, named and counted so, with the expected implementation hash, and whose request and message fields agree |
| ChildMeaning.DiagnosisIsTrue | app/codex_process_executor_wsl.py:649-816 | a diagnosis, an escaping error included, names the first kind of thing that is wrong |
| Jsonl.NoFaultIffEvent | app/codex_process_executor_wsl.py:559-588 | the tests of one round pass exactly on an allowed event: known keys and type, no failure, a valid usage on completion, no forbidden item |
| Jsonl.StepCollects | app/codex_process_executor_wsl.py:558-601 | one round succeeds exactly on an allowed event whose message, if it is one, is the first and the expected one |
| Jsonl.RoundsCollect | app/codex_process_executor_wsl.py:558-601 | the loop gets through exactly the streams of such events, and collects their types, histogram, message and last usage |
| Jsonl.VerdictIff | app/codex_process_executor_wsl.py:602-613 | the checks after the loop are the declared order: thread.started first and once, turn.started once, turn.completed last and once, one message |
| Jsonl.LifecycleIff | app/codex_process_executor_wsl.py:558-613 | the loop and its checks accept exactly the declared lifecycles |
| Jsonl.AcceptIff | app/codex_process_executor_wsl.py:536-613 | outputs are accepted exactly when bounded, newline-terminated, UTF-8, without blank lines, and a lifecycle |
| Jsonl.AcceptedReport | app/codex_process_executor_wsl.py:614-623 | the report lists the types in order, their histogram, the valid usage of the last event and a message with the expected digest |
| Jsonl.ReadEvents | app/codex_process_executor_wsl.py:552-613 | the loop over mutable counters computes the specified outcome, the first fault deciding |
| Jsonl.AcceptCrashesIff | app/codex_process_executor_wsl.py:536-613 | the acceptor ends in an error that is no policy error exactly on bounded, newline-terminated UTF-8 without blank lines in which some line makes it and every line before it passes |
| Jsonl.ListTypeCrashes | app/codex_process_executor_wsl.py:558-588 | the output that consists of the line `{"type":[]}` does so |
| Jsonl.ParseJsonl | app/codex_process_executor_wsl.py:536-623 | the acceptor computes the specified outcome for every byte string, with the error code of the first fault |
| JsonlMeaning.LinesOfJoined | app/codex_process_executor_wsl.py:544 | texts without line breaks, each ended by a newline or by a carriage return and a newline, are what splitting gives back |
| JsonlMeaning.UsageIff | app/codex_process_executor_wsl.py:572-579 | a usage passes exactly when it holds five natural numbers under their names and nothing else |
| JsonlMeaning.EventIff | app/codex_process_executor_wsl.py:559-588 | an event may pass exactly when it is an object with known keys, of one of six types, with its usage and nothing else if it completes the turn, and with no item of a forbidden type |
| JsonlMeaning.AcceptsTurns | app/codex_process_executor_wsl.py:536-613 | an output is accepted exactly when it is of 1 to 16384 octets, UTF-8, ends with a newline, has no blank line, and its lines load to a whole turn: thread.started first and once, turn.started once, turn.completed last and once, and one agent message with the expected text |
| JsonlMeaning.NamesTurn | app/codex_process_executor_wsl.py:542 | what is searched before decoding is turn.completed at any place in the octets |
| JsonlMeaning.CodesAreTrue | app/codex_process_executor_wsl.py:536-613 | the code of a refusal is true of the octets, of the first line that is refused, or of what all lines amount to |
| Sse.SplitJoin | app/codex_wire_contract.py:378 | splitting joined parts returns them when no part holds or could start a separator |
| Sse.JoinSplit | app/codex_wire_contract.py:414 | joining the parts of a split text returns the text |
| Sse.ParseBlockIff | app/codex_wire_contract.py:377-391 | a block is parsed exactly when it is the printed block of an event of an allowed type |
| Sse.ParseBlocksIff | app/codex_wire_contract.py:414-417 | a list of blocks is parsed to exactly the events it prints |
| Sse.AcceptedReprints | app/codex_wire_contract.py:409-440 | every accepted text prints to itself again |
| Sse.AcceptedOctetsReprint | app/codex_wire_contract.py:394-440 | only octets and strings are accepted, and an accepted stream prints to exactly the octets it was given as |
| Sse.PrintedOctetsParse | app/codex_wire_contract.py:394-440 | printed events parse, as octets or as a string, with only the comparison with the expected events left to decide |
| Sse.PrintedParses | app/codex_wire_contract.py:342-347 | any list of events of the allowed types is found again in its printed text, and no events print the empty text |
| Sse.PrintedStreamParses | app/codex_wire_contract.py:394-440 | with its own types as expected order, only the comparison with the expected events decides on a printed stream; the empty one is incomplete |
| Sse.ParseBlockCrashesIff | app/codex_wire_contract.py:377-391 | a block crashes exactly when it has the shape of an allowed event and loading or reprinting its data raises past the handler |
| Sse.PlainCodecIsFaithful | app/policy.py:169-170 | the concrete canonical JSON meets what the stream proofs require |
| GitPorcelain.ParsePorcelain | app/policy.py:807-833 | the indexed loop returns the canonical form of the specified raw paths, in order |
| GitPorcelain.FieldsOfSpaced | app/policy.py:819-829 | splitting with a limit cuts off exactly that many columns, and blanks in the path stay |
| GitPorcelain.PrintThenParse | app/policy.py:807-833 | parsing printed records returns one path each, and the original right after a renamed path, never read as a record itself |
| GitPorcelain.CutRename | app/policy.py:822-828 | a renamed path whose original is missing is returned alone |
| GitPorcelain.TrueUnlessUnmerged | app/policy.py:818-821 | the returned paths are the true ones exactly when no record is unmerged |
| Router.BuildLadder | app/router.py:155-171 | the nested loops build the specified ladder |
| Router.LadderExactly | app/router.py:155-171 | the ladder holds exactly the models with a grade between the minimum of the task class and the recommended grade |
| Router.LadderOrdered | app/router.py:155-171 | the ladder lists each model once, the preferred families first, each family in the server's order |
| Router.MaxStage | app/router.py:119-126 | the highest advertised stage below Ultra, when there is one |
| Router.SelectEffort | app/router.py:136-144 | an advertised effort between minimum and ceiling, below Ultra; none exactly when there is none |
| Router.SelectIsFirst | app/router.py:136-144 | the effort selected is the first listed one within the bounds |
| Router.WordStages | app/router.py:26-38 | the words with a stage, in rising order |
| Router.DashedAt | app/router.py:73-75 | blanks and underlines count as dashes in a word, character by character |
| Router.GradesRise | app/router.py:22 | a family's grade is its place in the order of families |
| Router.Preferred | app/router.py:12-19 | the families each task class looks for first |
| Router.OthersFall | app/router.py:155-160 | the other families follow by falling grade |
| Router.LowerIsSafe | app/router.py:443-463 | a lowered model is a lower usable one within the downgrade limit, limited only if no available candidate is eligible |
| Router.LoweredIsFirst | app/router.py:453-463 | the lowered model is the first eligible one of the ladder with its status |
| Router.LowerIffPossible | app/router.py:446-463 | a model is lowered exactly when leave is given and some usable lower model in the grades advertises a fitting effort |
| Router.RouteIsSafe | app/router.py:304-484 | every route takes a usable model within the grades and an advertised effort between its own minimum and the recommended stage, and never Ultra for a lowered model |
| Router.MinimumMeans | app/router.py:119-126 | a stage is at least the minimum exactly when it is Medium for T0, High for T1 to T3, Very High for T3 from four files on and T4, and Max for T5, where family 5.5 may do with its highest advertised effort |
| Router.RouteMeetsMinimum | app/router.py:119-126 | every routed effort is at least Medium for T0, High for T1 to T3, Very High for T3 from four files on and T4, Max for T5, and under T5 on family 5.5 no listed effort below Ultra is above it; its model's family is strong enough |
| Router.ChecksPassIff | app/router.py:340-406 | the checks pass exactly for an admitted account, size and model whose efforts serve the recommended stage at or above the minimum; the literal is the first listed one of that stage |
| Router.FailureIsExplained | app/router.py:340-406 | the reason a check fails for is true, and the checks before it pass |
| Router.UltraRouteIff | app/router.py:405-484 | a route has an effort of stage Ultra exactly when the checks pass with that stage, the model is usable, and either the request counts as one for Ultra and meets all its conditions, or it does not count as one and nothing may be lowered |
| Router.UltraWithoutItsConditions | app/router.py:115-116 | a recommended effort with a blank before the word, or a model of a family not meant for Ultra, is routed at stage Ultra without the conditions for it |
| Router.FallbackIsHighestIff | app/router.py:147-152 | the fallback of Ultra has the highest listed stage below Ultra exactly when each listed effort below Ultra is the last such one or has a later one of at least its stage |
| Router.RisingFallbackIsHighest | app/router.py:147-152 | it has the highest stage whenever the server lists efforts by rising stage |
| Router.FallbackCanBeLowest | app/router.py:147-152 | a model that lists "max" before "low" falls back to "low" |
| Router.RouteIffPossible | app/router.py:304-484 | a known recommendation is held exactly when a check fails or no choice is left |
| Router.AddFamilyFilters | app/router.py:161-170 | adding a family to the ladder looks at the models of that family only |
| Router.OrderAcrossFamilies | app/router.py:155-171 | with unique ids the preview depends on the server's order only inside each family |
| FormatProbe.Mp3HeaderBytes | app/format_probe.py:59-75 | the bit fields of the MPEG header in terms of its bytes |
| FormatProbe.RunDetectors | app/format_probe.py:343-349 | the loop over the registry ends in an error exactly when the load of the glTF detector escapes, and otherwise collects all candidates, at most one |
| FormatProbe.EscapeOwner | app/format_probe.py:132-145 | a sample whose load escapes is owned by the glTF detector, and no detector has a candidate for it |
| FormatProbe.FbxIsNotGltf | app/format_probe.py:106-145 | no sample is FBX text in its small window and starts with a brace in the large one |
| FormatProbe.GltfStart | app/format_probe.py:132-145 | a sample read as brace text does not start with a signature, not even gzip's, whose first byte counts as white space |
| FormatProbe.DetectorClaims | app/format_probe.py:78-229 | a detector returns at most one candidate, and only for samples it owns |
| FormatProbe.AtMostOne | app/format_probe.py:343-349 | for every sample and size the registry returns at most one candidate |
| FormatProbe.PickIsTheCandidate | app/format_probe.py:352-362 | the chosen format is the candidate's exactly when there is one and it is of high confidence, so the branch for several never fires |
| FormatProbe.SignatureDecides | app/format_probe.py:78-241 | each of eighteen formats known by its beginning alone is chosen exactly for samples with one of its beginnings |
| FormatProbe.StructureDecides | app/format_probe.py:86-241 | each of the ten other formats is chosen exactly for samples with its structure: declared sizes, versions, offsets and headers |
| FormatProbe.InspectorFits | app/format_probe.py:375-378 | the next inspector is the one for the detector that owns the sample, and there is one exactly when a candidate is of high confidence |

## Left out

- Files, directories, links and junctions of the operating system: a tree, a file's content and the status calls are inputs; an error of the system ends what it interrupts and is not modelled.
- Resolving and canonicalising paths: canonical keys are a parameter.
- The plan checks, evidence gathering, rendering of snippets and the second capture in `create`; `Capsule.CreateCapsule` covers its sealing part.
- `Approvals`: the text shown to the user, persistence, and the interrupt a cancelled permission request triggers after its answer was sent.
- `RunGuard`: starting a run, `turn/completed` and what follows it, events that change no counter, and the paths found by git after the turn.
- `Bridge`: several processes on one store, text-safety patterns, field-level validation of packets and bodies, evidence jobs, and bridge tasks of the first version.
- Catalog.FreshScan: a resumed scan re-reads its last directory and queues its subdirectories again, so it is not claimed to meet entries once.
- Catalog.Scan: errors of the store, the cursor stored with a flush in mid-scan, and a tree that changes between an interruption and the resumed scan.
- CanonicalJson.ReadPrint: the literals NaN and Infinity, floats in a spelling that is no repr, blanks, surrogate pairs written as escapes and other spellings json.loads also reads are not modelled; the limits of the interpreter are limits of what is written, not of the reader.
- FrameCodec.FrameRoundTrip: a payload whose encoding raises has no frame, see `ChildSchema.ValidPayloadFrames` for when that is.
- Permissions.SubsetReflexive: Python also finds a NaN in a list that holds the very same object; values are compared by what they hold here, and `1` and `1.0` are different.
- `ChildSchema`: the sealed lists of stages, error codes, categories and reject reasons are parameters.
- Jsonl.AcceptedReport: the stream hash, a digest over the reported types, counts and message hash, is not part of the report.
- Sse.PrintedStreamParses: which events Python finds equal to the expected ones is a parameter, since it takes `1` and `True` for equal; so equality of an accepted stream with the fixture is not claimed.
- `Router`: reading the model list and the recommendation into records, account evidence, the displayed list of candidates, and the texts of reasons and warnings.
- FormatProbe.DetectorClaims: parsing the text of a glTF candidate is a parameter.
- Isolation, subprocesses, sockets, the supervisor, egress and canary code, the token ledger, the web routes and the index: mostly input and output or one-shot field checks.
