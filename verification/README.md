# ccctl: a verified model of the control plane

`ccctl` runs coding-agent sessions on a developer's machine and lets a phone watch and steer them. This project
models the parts of it in which order, timing or untrusted text decide the outcome, and proves what they promise.
Nothing in it is an excerpt: every definition restates the program's behaviour in Dafny, and
`dafny verify dfyconfig.toml` checks all of it.

## What is modelled

| module | part of the program |
|---|---|
| `Framing`, `Json`, `JsonGrammar`, `ControlChannel` | the NDJSON control channel: the printer, the reader with the grammar it reads, and the chunk decoder |
| `EventStream` | the downstream event stream: the printer, the block parser and the reader |
| `Detail` | the one-line normal form of every display string a worker supplies |
| `SessionModel`, `StatusOrder` | the session, its transitions, the ordered two-leg status feed, and when its order shows |
| `Enrichment`, `Shapes`, `Answers`, `Decisions` | the questions attached to a block, the operator's answer, and a whole run of both |
| `Serve` | `serve --tunnel`: the race between establishing the tunnel and shutting down |
| `IdleHold`, `Soak` | the polled liveness monitor; the paced soak drive and its leak detectors |
| `Residual`, `RapidTeardown` | what a torn-down pty leaves behind, once and under rapid cycling |
| `Network` | loopback hosts and authorities |
| `Wrappers`, `Seqs`, `Text`, `Decimal` | optional values, sequence laws, character classes, decimal spellings |

Conventions. A class stands where the program keeps fields and updates them, a method with a loop where it runs one,
and a function where it computes a value; every such method is specified by a function or an independent predicate, and the
theorems are about those. `None` stands for `null` and `undefined`. Strings are sequences of Unicode scalar values.
Time is a rational number of milliseconds; a clock never goes back and a sleep lasts at least as long as asked.
Promise reactions run from one first-in-first-out job queue, in the order in which they were registered (section
27.2.1.8 of ECMA-262). JSON follows RFC 8259 and section 25.5 of ECMA-262, the event stream section 9.2 of the WHATWG HTML
standard.

## What the proofs found

- **A bare report can show an older question.** The status always converges, whatever the order, duplication or loss of legs
  (`SessionModel.TwoLegsConverge`). What a session shows does not always. Among the deliveries of an epoch that get the rich
  leg of the latest report through, all end in the same activity if and only if that report is `running` or `idle`, or
  states a usable detail, or no earlier report changes the line on show; for a session that was not waiting, the last
  means that no earlier question showed anything but the default line. Losing nothing does not help
  (`StatusOrder.OrderMattersExactly`, `StatusOrder.OrderFreeAtRest`). Among all deliveries that get either leg of it
  through, they do if and only if it is `running` or `idle`, or no report up to and including it changes the line on show: a
  usable detail is then no longer enough, because it may itself be lost (`StatusOrder.LossMattersExactly`). The frames of a
  question, a `running` and a bare `requires_action` end at the default line, and at the old question when the last two
  change places (`StatusOrder.SwappedFramesShow`).
- **The event reader trims names and cursors**, where section 9.2 of the standard removes one leading space, so an event comes
  back as it was printed if and only if its name and cursor have no space around them (`EventStream.BlockSurvives`,
  `EventStream.SpacedNameIsLost`).
- **Normalising is idempotent exactly for bounds of at least 0** and keeps its bound exactly for bounds of at least 1
  (`Detail.IdempotentExactly`, `Detail.BoundIsKept`), because `slice(0, maxLength - 1)` counts a negative end from the
  back. Every caller passes 200.
- **One leak period is enough except in one phase.** A leak of one handle every `k` cycles over exactly `k` readings goes
  unseen exactly when its one step came just before the first reading and is within tolerance
  (`Soak.SlowLeakExactly`, `Soak.OnePeriodCanMiss`).
- **Stamps must be fresh.** Every stamp is answered at most once, in every run that raises given decisions, if and only if they
  carry different stamps (`Decisions.SingleUseExactly`). Two decisions under one stamp, alike or not, can always be answered
  twice, because every decision can be answered (`Decisions.ReusedStampIsAnsweredTwice`,
  `Decisions.EveryDecisionIsAnswerable`).

## Model

| member | source | states |
|---|---|---|
| Framing.IndexOfIsFirst | packages/core/src/index.ts:187-194 | the search the cutting loops rest on answers -1 exactly when the delimiter does not occur, and otherwise its first occurrence |
| Framing.CutsCompose | packages/core/src/index.ts:184-196 | cutting can stop after any prefix and resume on what was left: pieces and remainder of a stream do not depend on where the chunks end, also inside a delimiter |
| Framing.CutsAreLossless | packages/core/src/index.ts:184-196 | the pieces with their delimiters, followed by the remainder, are the stream: no character is lost, repeated or moved |
| Framing.RemainderIsUncut | packages/core/src/index.ts:184-196 | what is kept back after cutting holds no delimiter, so nothing complete is ever withheld |
| Framing.CutsRecover | packages/core/src/index.ts:184-196 | pieces that hold no early delimiter are recovered exactly from their concatenation |
| Json.ParsePrint | packages/core/src/index.ts:77-79 | reading the printed text of any value with unique keys and numbers in lowest terms gives back the value, escapes, decimals and nesting included |
| Json.PrintOneLine | packages/core/src/index.ts:77-79 | printed text never holds a raw newline, so one value is one line |
| Json.ParseIsSafe | packages/core/src/index.ts:146-164 | whatever the text, a value read from it holds no key twice at any depth, and its numbers are in lowest terms |
| Json.ParseRange | packages/core/src/index.ts:146-164 | the values that can be read are exactly those that can be held, and each is printed |
| Json.ReprintIsStable | packages/core/src/index.ts:146-164 | printing what was read, whatever its spacing, escapes, exponents and repeated keys, reads back as the same value |
| JsonGrammar.ParsesExactly | packages/core/src/index.ts:146-164 | a text is read as a value if and only if it spells that value by the grammar of RFC 8259: any space between tokens, plain, two-letter, `\u` and surrogate-pair characters, fractions, exponents, repeated keys with the last value in the first place; whatever spells nothing is refused |
| JsonGrammar.NumberIsItsDigits | packages/core/src/index.ts:146-164 | a spelled number stands for its digits, divided by ten for each place after the point and multiplied by ten to its exponent |
| JsonGrammar.PutExactly | packages/core/src/index.ts:146-164 | a repeated key takes the last value in its first place, a new key comes last, and no other member moves |
| ControlChannel.ControlFrameDecoder.constructor | packages/core/src/index.ts:174-175 | a decoder starts with nothing buffered |
| ControlChannel.ControlFrameDecoder.Push | packages/core/src/index.ts:184-196 | one push decodes exactly the newline-terminated lines that buffer and chunk complete, in order and without the blank ones, and keeps exactly the rest; whatever comes out is a frame with one of the three types or a failure of one whole line |
| ControlChannel.ControlFrameDecoder.Flush | packages/core/src/index.ts:205-209 | the last unterminated line is decoded, to a frame with one of the three types or to a failure that carries it, unless it is blank, and the buffer is emptied |
| ControlChannel.DecodeStream | packages/core/src/index.ts:184-209 | for every text and every chunking, all pushes and the flush together decode each non-blank newline-separated segment of the whole text once, in order, and give nothing but frames with one of the three types and failures |
| ControlChannel.DecodesExactly | packages/core/src/index.ts:146-164 | any line decodes to a value if and only if its text reads as that value and it is an object whose type is one of the three |
| ControlChannel.FailuresExactly | packages/core/src/index.ts:146-164 | every failure carries its own line; the reason is malformed text exactly when nothing can be read, otherwise not an object, no type, or unknown type, each exactly when it applies |
| ControlChannel.BlankExactly | packages/core/src/index.ts:184-196 | a line is skipped exactly when it holds nothing but space |
| ControlChannel.OneResultPerLine | packages/core/src/index.ts:178-196 | a stream has exactly one result for each line that is not blank, that line's decoding, in order |
| ControlChannel.FrameSurvives | packages/core/src/index.ts:146-164 | a printed frame occupies one line, is never blank, and decodes to itself |
| ControlChannel.PrintedValueDecodes | packages/core/src/index.ts:146-164 | a printed value decodes to itself exactly when it is a frame, and otherwise fails with the reason that applies: not an object, no type, unknown type |
| ControlChannel.FramesSurvive | packages/core/src/index.ts:77-210 | frames printed and cut into any chunks come back exactly, in order, with an empty buffer and nothing to flush |
| ControlChannel.BufferIsAfterLastNewline | packages/core/src/index.ts:184-196 | between calls the buffer is exactly the text after the last newline seen |
| ControlChannel.LinesAreIndependent | packages/core/src/index.ts:178-196 | a line is decoded as if its neighbours were not there, so a bad line never affects them |
| EventStream.ParseSseBlock | packages/e2e/src/one-session-harness.ts:461-478 | a block reads as its last name, its last cursor and all its data lines joined, comments skipped, or as nothing when it has no data line |
| EventStream.BlockExactly | packages/e2e/src/one-session-harness.ts:461-478 | the lines of any block make an event if and only if one of them is a data line; its name and cursor come from the last lines that carry them and its data from all data lines, joined |
| EventStream.LastFieldExactly | packages/e2e/src/one-session-harness.ts:467-472 | a field's value is what follows its name, trimmed, on line i if and only if line i is the last that carries the field |
| EventStream.DataLinesExactly | packages/e2e/src/one-session-harness.ts:473-476 | each data line adds its value in its place, and any other line adds nothing |
| EventStream.DataValueExactly | packages/e2e/src/one-session-harness.ts:473-476 | a data line gives what follows its name, without one space in front if there is one |
| EventStream.SseReader.OnData | packages/e2e/src/one-session-harness.ts:571-583 | a read emits exactly the events of the blocks that buffer and chunk complete, in order, and keeps exactly the rest |
| EventStream.ReadStream | packages/e2e/src/one-session-harness.ts:571-583 | for every text and every chunking the reader emits the events of the blocks of the whole text |
| EventStream.BlockSurvives | packages/e2e/src/one-session-harness.ts:461-478 | a printed block ends where it should and reads back with its name and cursor trimmed and its multi-line data restored exactly, or as nothing when it holds only comments; that is the event itself if and only if there was nothing to trim |
| EventStream.SpacedNameIsLost | packages/e2e/src/one-session-harness.ts:469-472 | an event named with a space in front reads back under another name |
| EventStream.EventsSurvive | packages/e2e/src/one-session-harness.ts:571-583 | events printed and cut anywhere, also inside the delimiter, come back once each and in order with names and cursors trimmed, keep-alives dropped, nothing left over; they come back unchanged if and only if there was nothing to trim |
| Detail.ResultIsDisplayable | packages/core/src/index.ts:1381-1396 | any result is non-empty, within the bound, free of control and format characters, trimmed, and has no whitespace but single spaces |
| Detail.DetailIsItsWords | packages/core/src/index.ts:1381-1396 | what is kept is the words left once format characters are dropped, in order and single-spaced, cut to the bound with an ellipsis in the last place, or nothing when there are none |
| Detail.OnlyFormatIsDropped | packages/core/src/index.ts:1381-1396 | of the characters of a text exactly the format characters are dropped, wherever they stand, and the others keep their order |
| Detail.FixedPoints | packages/core/src/index.ts:1381-1396 | a text is left as it is exactly when it is already one clean line within the bound |
| Detail.Idempotent | packages/core/src/index.ts:1381-1396 | normalising twice is normalising once, for every text and every bound of at least 0 |
| Detail.IdempotentExactly | packages/core/src/index.ts:1381-1396 | for every text normalising is idempotent if and only if the bound is not negative |
| Detail.BoundIsKept | packages/core/src/index.ts:1381-1396 | every result keeps the bound if and only if the bound leaves room for the ellipsis |
| SessionModel.ActivityStaysWellFormed | packages/core/src/index.ts:1429-1438 | whatever is reported, a captured detail is a displayable line |
| SessionModel.BareReaffirmation | packages/core/src/index.ts:1581-1625 | a `requires_action` without a usable detail leaves a captured one as it is, although it is normalised again |
| SessionModel.ReaffirmedAnyNumberOfTimes | packages/core/src/index.ts:1581-1625 | so do any number of them in a row |
| SessionModel.GainOrKeep | packages/core/src/index.ts:1617-1625 | reporting the same status again gains a stated detail and otherwise changes nothing |
| SessionModel.StatusChannel.RecordSequence | packages/server/src/worker-channel.ts:713-717 | the mark rises to a higher stamp and is left alone by a lower, equal or missing one |
| SessionModel.StatusChannel.PutStatus | packages/server/src/worker-channel.ts:1052-1092 | the status gate rejects only an unknown status; a stale one is answered and moves nothing; any other raises the mark and applies |
| SessionModel.StatusChannel.FoldFrame | packages/server/src/worker-channel.ts:947-997 | the event leg refuses exactly the stale status frames, applies the others with their detail, and is left unmoved by frames of another kind (`SessionModel.OtherFramesMoveNothing`) |
| SessionModel.ReportsExactly | packages/core/src/index.ts:1222-1262 | a frame reports a status if and only if its type is `control_event`, its subtype `worker_status` and its payload's status one of the three; it then reports that status, the payload's detail if it is text, and its stamp if it is usable |
| SessionModel.OtherFramesMoveNothing | packages/core/src/index.ts:1594-1599 | any other frame, a malformed status frame included, leaves session, mark and clock as they are, through the pure transition and through the feed |
| SessionModel.GateReadsExactly | packages/server/src/worker-channel.ts:1052-1092 | the gate knows exactly the three statuses, reads its stamp by the same rule and never a detail |
| SessionModel.LastAppliedWins | packages/core/src/index.ts:1533-1565 | after any run the session has the status and the time of the last delivery that applied |
| SessionModel.MarkIsHighest | packages/core/src/index.ts:1299-1301 | over any run of stamped, unstamped and malformed-stamp reports on either leg the mark is the highest stamp delivered |
| SessionModel.MarkNeverFalls | packages/server/src/worker-channel.ts:713-717 | the mark never falls within an epoch |
| SessionModel.RefusedExactly | packages/core/src/index.ts:1299-1301 | a report is refused if and only if a higher stamp came before it, and a refused one changes nothing |
| SessionModel.ConstantStampNeverRefused | packages/core/src/index.ts:1284-1298 | a worker that stamps a constant, or nothing, is never refused |
| SessionModel.ClockDecidesNothing | packages/core/src/index.ts:1533-1565 | runs that differ only in their clock readings, backward steps included, refuse the same reports and end in the same activity and lifecycle |
| SessionModel.TwoLegsConverge | packages/core/src/index.ts:1194-1214 | under the emitter contract, for every order, duplication and loss of legs, the session ends at the status of the latest report that got through, with that report's detail if its rich leg got through at all |
| SessionModel.OrderDoesNotMatter | packages/core/src/index.ts:1194-1214 | two deliveries with the same latest report end in the same activity and mark, whatever the sessions were before: always when it is `running` or `idle`, and when it is `requires_action` with a usable detail whose rich leg got through |
| StatusOrder.EndsAtLatest | packages/core/src/index.ts:1581-1625 | where the order cannot show, every delivery that gets the latest report's rich leg through ends as if that leg alone had arrived |
| StatusOrder.OrderMattersExactly | packages/core/src/index.ts:1533-1625 | at the start of an epoch, all deliveries that get the latest report's rich leg through end in the same activity if and only if that report moves on, states its own line, or no earlier report changes the line on show; the same holds for deliveries that lose nothing |
| StatusOrder.LossMattersExactly | packages/core/src/index.ts:1533-1625 | at the start of an epoch, all deliveries that get either leg of the latest report through end in the same activity if and only if that report moves on or no report up to and including it changes the line on show |
| StatusOrder.OrderFreeAtRest | packages/core/src/index.ts:1581-1585 | for a session that was not waiting, the condition read off the reports: no earlier `requires_action` showed anything but the default line |
| StatusOrder.FrameReadsBack | packages/core/src/index.ts:1222-1262 | the status frame of any report reads back as that report with its stamp, so every leg can be delivered |
| StatusOrder.SwappedFramesShow | packages/core/src/index.ts:1581-1585 | three frames that end at the default line in one order and at an older question in another |
| SessionModel.DimensionsAreIndependent | packages/core/src/index.ts:1594-1670 | after any run the session is the product of three separate folds, lifecycle, activity and heartbeat; id, birth time and permission marker never move |
| SessionModel.InterleavingsAgree | packages/core/src/index.ts:1594-1670 | interleavings with equal projections end in the same session |
| SessionModel.AwaitedIffLastStatus | packages/core/src/index.ts:1483-1487 | the needs-you signal holds if and only if the last worker status applied was `requires_action` |
| SessionModel.FromBirth | packages/core/src/index.ts:581-591 | over any run from its creation on, a session keeps its id and birth time, is marked exactly when its mode answers permissions unasked, is connecting, ready or closed exactly as the run moved it, and awaits input exactly when the last status said so |
| SessionModel.LifecycleIsGuarded | packages/core/src/index.ts:1647-1670 | closed and errored absorb; a session is ready exactly when it was or could become so and nothing closed it |
| Enrichment.IdGrammarIsExact | packages/core/src/index.ts:1893-1915 | the id grammar accepts exactly the strings the minter prints, each from one index |
| Enrichment.IdsAreUnique | packages/core/src/index.ts:1893-1895 | different indices have different ids |
| Enrichment.ParseOption | packages/core/src/index.ts:1946-1959 | an option is its normalised label and description, or nothing when it is no object or its label normalises to nothing |
| Enrichment.ParseOptions | packages/core/src/index.ts:1998-2007 | the options in order, or nothing when one fails or two normalised labels collide |
| Enrichment.ParseQuestion | packages/core/src/index.ts:1976-2011 | the question with the id of its index, or nothing when the prompt, the select mode, the option list or an option fails |
| Enrichment.ParseDecision | packages/core/src/index.ts:2033-2056 | the stamp and all questions in order, or nothing at the first that fails |
| Enrichment.ParseLabels | packages/core/src/index.ts:2122-2129 | the normalised labels of a selection, all of them or nothing |
| Enrichment.ParseEnvelope | packages/core/src/index.ts:2101-2133 | the answers under their ids, or nothing when the list is empty or too long or any id, selection or label fails |
| Enrichment.CheckAnswer | packages/core/src/index.ts:2204-2223 | one answer's first problem in the validator's own order |
| Enrichment.ValidateAnswer | packages/core/src/index.ts:2190-2225 | freshness first, then the first problem of the first answer that has one |
| Enrichment.LabelProblemIsFirst | packages/core/src/index.ts:2214-2222 | labels are offered and distinct up to the reported problem, and the problem is the one reported |
| Enrichment.LabelsFineExactly | packages/core/src/index.ts:2212-2222 | no label problem if and only if every label was offered and none repeats |
| Enrichment.NoProblemExactly | packages/core/src/index.ts:2203-2224 | no problem at all if and only if every answer is a legitimate selection of a question asked |
| Enrichment.AcceptedExactly | packages/core/src/index.ts:2135-2225 | an answer is accepted if and only if it carries the outstanding stamp and every selection is legitimate; it is stale if and only if the stamp differs, whatever it selects |
| Shapes.TextIsItsWords | packages/core/src/index.ts:1935-1937 | a text field counts exactly when it is text with words left, and is then normalised, not refused |
| Shapes.OptionExactly | packages/core/src/index.ts:1946-1959 | a value parses to an option if and only if the caption is its normalised label and the description its normalised description |
| Shapes.OptionsExactly | packages/core/src/index.ts:1998-2007 | a list parses to options if and only if each element parses to the one in its place and no two captions agree |
| Shapes.QuestionExactly | packages/core/src/index.ts:1976-2011 | a value parses to a question if and only if each of its four fields is what the question says: prompt, optional header, one to thirty-two options, select mode defaulting to single; the id is that of the index |
| Shapes.DecisionExactly | packages/core/src/index.ts:2033-2056 | a value parses to a decision if and only if it carries that safe stamp and one to sixteen questions, each parsing at its own index |
| Shapes.AnswerExactly | packages/core/src/index.ts:2113-2131 | an entry parses to an answer if and only if its key is a minted id and its one to thirty-two labels normalise to the answer's, in order |
| Shapes.EnvelopeExactly | packages/core/src/index.ts:2101-2133 | a value parses to an envelope if and only if it has one to sixteen entries, each parsing to the answer in its place |
| Shapes.RefusedExactly | packages/core/src/index.ts:2190-2225 | with a fresh stamp, an answer is refused for a reason if and only if all entries before some one are legitimate and that one has the reason: unknown question, a wrong number of labels, a first bad label that was never offered, or one that repeats |
| Answers.ParsedDecision | packages/core/src/index.ts:2033-2056 | a parsed decision has every question of the input, at its own index under that index's id, with distinct, normalised labels |
| Answers.ParsedExactly | packages/core/src/index.ts:1946-2056 | a decision is the parse of some value if and only if it is well formed: ids by index, counts within their limits, stamp safe, every text a displayable line, labels distinct |
| Answers.ParsedOptions | packages/core/src/index.ts:1976-2011 | a parsed question offers every option of the input, in order, under its normalised label |
| Answers.RejectedExactly | packages/core/src/index.ts:2033-2056 | parsing fails if and only if the stamp, the list or some question fails |
| Answers.NamedByIndex | packages/core/src/index.ts:2203-2208 | an id names the question at its index and nothing else |
| Answers.PicksFit | packages/core/src/index.ts:2101-2118 | no legitimate set of picks runs into the size limits of the answer |
| Answers.PicksAreAccepted | packages/core/src/index.ts:2033-2225 | the round trip: any legitimate picks from any parsed decision, printed as JSON and read back, parse to the same envelope and are accepted |
| Answers.AcceptedArePicks | packages/core/src/index.ts:2101-2225 | conversely, any envelope that parses and is accepted is a legitimate set of picks carrying exactly the outstanding stamp |
| Decisions.DecisionBuffer.Raise | packages/server/src/worker-channel.ts:732-741 | a well-formed question set becomes the outstanding decision; any other payload changes nothing |
| Decisions.DecisionBuffer.MoveOn | packages/server/src/worker-channel.ts:751-755 | the outstanding decision is dropped when the session moves on, whatever follows (`Decisions.OutstandingExactly`) |
| Decisions.DecisionBuffer.SubmitAnswer | packages/server/src/ui-command.ts:165-192 | an answer is accepted exactly when it parses, a decision is outstanding, the verdict accepts it and the worker is live; only then is it relayed and the decision consumed |
| Decisions.OutstandingExactly | packages/server/src/worker-channel.ts:732-774 | after any run, the decision outstanding is that of the last well-formed question set raised with no moving on and no relayed answer after it, and there is none exactly when there is no such raise |
| Decisions.RelayedWhileStanding | packages/server/src/worker-channel.ts:732-774 | every relayed answer carries the stamp of a decision raised before it with no moving on in between, and is accepted by it |
| Decisions.RelayableExactly | packages/server/src/ui-command.ts:165-192 | an answer can be relayed if and only if it is well formed and carries the stamp of the decision outstanding and only legitimate selections |
| Decisions.EveryRunIsSound | packages/server/src/ui-command.ts:165-192 | in every run, the decision outstanding was raised in the run, and every relayed answer is accepted by a decision raised in the run |
| Decisions.AnsweredAtMostOnce | packages/server/src/worker-channel.ts:757-774 | with stamps never reused, every decision is answered at most once |
| Decisions.RelayedIsOfTheMoment | packages/core/src/index.ts:2190-2225 | what is relayed is a legitimate set of picks of the decision outstanding at that moment; an answer stamped for another changes nothing |
| Decisions.EveryDecisionIsAnswerable | packages/core/src/index.ts:2033-2225 | every parsed decision, while outstanding, has an answer that is accepted and relayed under its stamp |
| Decisions.ReusedStampIsAnsweredTwice | packages/core/src/index.ts:2135-2150 | whenever two decisions are raised under one stamp, some run that raises just the same relays two answers under it |
| Decisions.SingleUseExactly | packages/core/src/index.ts:2135-2225 | every run that raises given decisions answers each stamp at most once if and only if their stamps differ |
| Serve.ServeAction.constructor | packages/cli/src/index.ts:464-575 | from arming the handler to the first await: nothing owned, the establish published, one reaction registered |
| Serve.ServeAction.AfterEstablish | packages/cli/src/index.ts:576-598 | after the await: the tunnel is kept on success, the release started on failure |
| Serve.ServeAction.AfterClose | packages/cli/src/index.ts:588-598 | after both cleanup steps the establish is no longer in flight and the establish error leaves |
| Serve.ServeAction.CallThunk | packages/cli/src/index.ts:509-528 | the thunk waits for an establish in flight and otherwise answers with what the daemon holds |
| Serve.ServeAction.TearDownHeld | packages/server/src/shutdown-signal.ts:242-249 | whatever is held is torn down; nothing held, nothing to do |
| Serve.ServeAction.RunNextJob | packages/cli/src/index.ts:464-599 | one turn of the job queue takes the step of the state machine and keeps its invariant |
| Serve.EveryStepKeeps | packages/cli/src/index.ts:464-599 | every enabled step, of either task or of the world, keeps the invariant |
| Serve.InvariantHolds | packages/cli/src/index.ts:464-599 | so the invariant holds at every moment of every execution; in particular the waiting releaser never overtakes the assignment it waits for |
| Serve.NothingGoesWrong | packages/cli/src/index.ts:464-599 | at every moment of every execution: no teardown before the establish settles, never two at once, at most one ever started and by the right task, and `serve` fails only with the establish error whatever the cleanup did |
| Serve.ExecutionsEnd | packages/cli/src/index.ts:464-599 | every execution ends within fourteen steps |
| Serve.RestPoints | packages/cli/src/index.ts:464-599 | where nothing more can happen, the establish has settled, the queue is empty and both tasks are finished, or the signal never came |
| Serve.EveryTunnelIsReleasedOnce | packages/cli/src/index.ts:464-599 | where an execution ends, a failed establish was torn down exactly once, by the catch, and its error left `serve`; a successful one exactly once if the signal came at any point after arming; the mapping is up only while it is served or when its teardown failed |
| Serve.FailedServeIsClosed | packages/cli/src/index.ts:578-598 | in every execution, a `serve` that has thrown has first waited for its one teardown, succeeded or not, and then for its one server close, and nothing else; where an execution ends after a failed establish, it has thrown |
| Serve.ServerIsClosedFirst | packages/server/src/shutdown-signal.ts:222-264 | in every execution, a shutdown starts its teardown, or ends without one, only after the signal and then the server close, once each |
| Serve.NothingElseIsAwaited | packages/cli/src/index.ts:509-528 | in every execution, once no establish is in flight, a shutdown that is not already waiting for it never waits |
| IdleHold.LivenessMonitor.OnPoll | packages/e2e/src/worker-idle-hold.ts:317-333 | the interval callback: growth resets the deadline, a lapse without growth records one drop and re-arms |
| IdleHold.DropsAreReal | packages/e2e/src/worker-idle-hold.ts:317-333 | sound: a recorded drop ends a real frame-free interval longer than the deadline |
| IdleHold.EveryDropCostsADeadline | packages/e2e/src/worker-idle-hold.ts:317-333 | with frames or without, every recorded drop has cost a whole deadline since the opening, so a poll that finds news records none |
| IdleHold.LongSilenceIsCaught | packages/e2e/src/worker-idle-hold.ts:317-333 | complete up to the poll period: a frame-free interval of the deadline plus two periods inside the polled window, one that begins at the opening included, holds a drop |
| IdleHold.ConsecutiveDrops | packages/e2e/src/worker-idle-hold.ts:326-332 | with no frames at all, consecutive drops are more than the deadline and at most the deadline plus one period apart |
| IdleHold.DropsAreCounted | packages/e2e/src/worker-idle-hold.ts:326-332 | so n drops mean a silent hold of at least n deadlines and at most n deadlines and periods plus one deadline, for a hold of any length |
| IdleHold.FirstLivenessIsFirst | packages/e2e/src/worker-idle-hold.ts:320-325 | the first liveness time is that of the first poll that found new frames with a liveness frame among them |
| IdleHold.HeldMeansHeard | packages/e2e/src/worker-idle-hold.ts:165-215 | a hold judged held on what the monitor observed over faithful polls had no silence of the deadline plus two periods, at its opening or later, and a liveness frame within the deadline |
| IdleHold.NoDropMeansHeard | packages/e2e/src/worker-idle-hold.ts:308-334 | faithful polls without a drop had no such silence |
| Soak.FindOverTotal | packages/e2e/src/daemon-soak.ts:586-615 | the first cycle over the baseline total, or none exactly when all are within tolerance |
| Soak.FindOverType | packages/e2e/src/daemon-soak.ts:586-615 | the first cycle over the baseline count of a resource type, or none exactly when all are within tolerance |
| Soak.FindGrowth | packages/e2e/src/daemon-soak.ts:586-615 | the total and each resource type are named exactly when they cross their baseline, each at its first crossing, so there is no violation exactly when all stay within tolerance |
| Soak.ClassifyDaemonSoak | packages/e2e/src/daemon-soak.ts:474-568 | drift exactly when a detector fires, otherwise inconclusive exactly when something is missing, otherwise verified |
| Soak.DriftExactly | packages/e2e/src/daemon-soak.ts:586-653 | with a baseline and at least four readings there is no drift if and only if all totals and, for every type held at the baseline or any reading, all counts are within tolerance of the baseline's and the totals step down somewhere or do not end above their first value |
| Soak.TypeLeakIsDrift | packages/e2e/src/daemon-soak.ts:599-612 | a reading that holds more of one type than the baseline did and the tolerance allows is drift, also for a type the baseline did not hold |
| Soak.SlowLeakIsCaught | packages/e2e/src/daemon-soak.ts:617-653 | a leak of one handle every k otherwise flat cycles is caught over at least max(4, k) readings, unless its one step came before the first of exactly k |
| Soak.SlowLeakExactly | packages/e2e/src/daemon-soak.ts:617-653 | and it is missed if and only if that is so and the first step is within tolerance |
| Soak.OnePeriodCanMiss | packages/e2e/src/daemon-soak.ts:617-653 | for every k of at least four there is a complete soak, of one leaked timer, whose leak is missed and which is verified |
| Soak.LeakUnderJitterIsCaught | packages/e2e/src/daemon-soak.ts:586-615 | under jitter of at most d handles the leak is caught over k * (tolerance + 1 + d) readings |
| Soak.SettleSample | packages/e2e/src/daemon-soak.ts:978-1002 | a settle ends after at most 250 sleeps and returns the very last reading it took, after three of its own in a row that agree or past its timeout unless the sampler failed; it returns nothing only when its first reading fails |
| Soak.DriveDaemonSoak | packages/e2e/src/daemon-soak.ts:901-966 | the baseline and each captured cycle are the very readings their own settles ended on, in order, after that cycle's lifecycle and before the next, no cycle before its slot; no reading taken is left out; a settled reading over the settled baseline by more than the tolerance makes the verdict drift; the span is the measured one. When nothing fails there is one reading per planned cycle, every lifecycle is counted, and with at least four cycles the verdict is never inconclusive; a failed lifecycle is never verified |
| Residual.SettledIsClean | packages/e2e/src/pty-handle-residual.ts:1309-1312 | the settle rule stops exactly on readings neither verdict calls a residual, except that without a launch identity it waits for the descriptor to close |
| Residual.WaitForResidualToSettle | packages/e2e/src/pty-handle-residual.ts:1282-1295 | the settle loop ends and returns the last of its own looks at that child and descriptor, the first settled one if there is one; unless settled it has used up its time, and a reading returned early is no leak |
| Residual.AttributableExactly | packages/e2e/src/pty-handle-residual.ts:1131-1150 | a reading is credited to the daemon if and only if it is timed and landed less than half a millisecond short of the worker's lifetime after the spawn, rounding being to the nearest |
| Residual.ClassifyPtyHandleResidual | packages/e2e/src/pty-handle-residual.ts:992-1120 | drift exactly when something contradicts, with each violation named exactly when it holds; otherwise verified exactly when everything was captured and can be credited to the daemon, with each gap named exactly when it is there |
| RapidTeardown.RunGaps | packages/e2e/src/teardown-timing-residual.ts:477-545 | no gap exactly when the planned cycles, at least one, were all answered |
| RapidTeardown.ClassifyTeardownTiming | packages/e2e/src/teardown-timing-residual.ts:331-373 | drift exactly when some cycle drifts, otherwise verified exactly when the run is answered |
| RapidTeardown.VerifiedExactly | packages/e2e/src/teardown-timing-residual.ts:331-545 | verified if and only if the planned cycles, at least one, ran and each was present at launch, stopped with `stopped` within the gap ceiling, and was gone or recycled after |
| RapidTeardown.DriveOneCycle | packages/e2e/src/teardown-timing-residual.ts:638-727 | a cycle takes the newest spawn that appeared during its launch and no other; launch, look, stop and looks after it happen in this order, each at most once, and every field of the cycle is what those requests answered and those looks read; the gap covers the look and no more than the time between the launch's answer and the stop |
| RapidTeardown.DriveTeardownTiming | packages/e2e/src/teardown-timing-residual.ts:617-635 | all that was done is its cycles one after the other, each telling what was done in it and none counting a spawn an earlier one saw; the drive breaks off early only on a cycle without a spawn; a verified run is exactly a full run of clean cycles |
| RapidTeardown.EarlyStopIsNoLeak | packages/e2e/src/teardown-timing-residual.ts:385-474 | whenever the settle loop stopped on a settled reading, neither classifier calls that reading a leak |
| Network.IsIpv4LoopbackHost | packages/core/src/index.ts:255-266 | the octet loop accepts exactly four canonical octets of at most 255 with 127 in front |
| Network.IsLoopbackHost | packages/core/src/index.ts:242-244 | loopback is the listed names and the IPv4 loopback block |
| Network.LoopbackExactly | packages/core/src/index.ts:255-266 | accepted are exactly the canonical dotted spellings of 127.a.b.c with octets of at most 255 (section 3.2.1.3 of RFC 1122) |
| Network.DottedIsInjective | packages/core/src/index.ts:255-266 | each accepted spelling names one address |
| Network.AuthorityExactly | packages/core/src/index.ts:275-278 | an address with a colon is put in brackets, in this order, and no colon of an authority stands outside them but the one in front of the port |
| Network.AuthorityIsInjective | packages/core/src/index.ts:275-278 | host and port can be recovered from an authority, for every host and port (section 3.2.2 of RFC 3986) |

## Left out

- Ill-formed UTF-16: strings are sequences of scalar values, and a lone surrogate spelled as an escape is rejected by the model's JSON reader where `JSON.parse` accepts it.
- Json.ParsePrint: a number is its exact decimal, printed without an exponent. Rounding to a double, the exponent form of very large and very small numbers, and `-0` are not part of this model.
- Member order: the program enumerates integer-like object keys first; the model keeps insertion order. The frames' own fields and the question ids are never such keys.
- The prose of error messages, verdict reasons and log lines; a decode failure keeps its reason and its line, a verdict its checks.
- Soak.FindGrowth: resource types are visited in any order, so the order among type violations is not stated.
- Residual.ClassifyPtyHandleResidual: shares one set of check labels with the rapid-teardown verdict, where the program has two.
- The time budget on the shutdown teardown, a second signal, process exit, and signal-handler installation; the server's own close is an abstract step.
- The job-queue turns inside `releaseFailedEstablish` and `closeFailedServe` are one turn each; a failed shutdown close continues as a successful one, as the handler does.
- `serve` without `--tunnel`, the tunnel adapters, and the pairing output printed after a successful establish, which is taken as part of it.
- The buffered decision's other reader, the hook handoff, and the storage keyed by session id: one session is modelled, and the calls to `reconcileEnrichmentBuffer` are the event of moving on.
- Liveness and staleness of sessions, idle timers and notifications.
- The single-run pty drive, warm-up of real processes, `ps`, descriptors and sockets: readings, clocks, samplers and lifecycles are abstract.
- Floating point: durations are rationals, also in `durationMs / cycles`.
- HTTP, the web UI, device tokens and `revoke-all`, bearer parsing, option parsing, QR rendering: plumbing or single-branch facts.
- The event-stream loop of the multi-session scenario, which is the one modelled here, and the other end-to-end classifiers.
