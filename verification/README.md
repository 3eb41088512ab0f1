# KIL: a verified model of the decision kernel and the boundaries around it

KIL decides whether a signed composite state still carries enough authority for an action, lets fresh local
evidence take authority away but never add it, and surrounds that decision with strict parsers, canonical
encoders, a one-shot request driver, an append-only ledger and evidence joins. This project models those parts in
Dafny and proves what they promise, over every input, every behaviour of the environment and every run.

`dafny verify dfyconfig.toml` checks everything. Nothing here executes the original program.

How the project is laid out:

| files | what they model |
|---|---|
| `Basics`, `Digits`, `Utf8`, `Json`, `Ordering`, `Sorting` | characters, bytes, numerals, compact JSON text and its reader, Python's string and tuple order |
| `Canonical`, `CanonicalForm`, `CanonicalWalk` | canonical JSON: one text for each meaning, its keys in code-point order, and the walk over an object graph that finds it |
| `ClosedYaml`, `YamlText`, `YamlLayouts`, `YamlPrinter`, `YamlExamples` | the closed YAML decoder, its text preparation, the layouts it reads, a printer, and one document in four layouts |
| `TreeWalk` | the explicit-stack tree walk over an arbitrary object graph |
| `Decision`, `DecisionLaws`, `Replay`, `ReplayMeaning` | `decide`, what its decay, losses and reasons mean over exact reals, the paired replay of a scenario, and what its tracks ask for |
| `Transport`, `RequestDriver`, `DriverProtocol`, `DriverInstruction`, `DriverAgreement`, `InstructionSize`, `DriverExample` | both ends of a driver session over byte pipes, their agreement, and one run in full |
| `LedgerRecord`, `Ledger`, `TargetHttp` | the target's ledger, its file, and the request handler in front of it |
| `RecordForms` | every line the driver and the target write, key by key, and that it is canonical text |
| `Ownership`, `OwnershipProof`, `OwnershipJoin`, `OwnershipMeaning` | the Deployment, ReplicaSet and Pod join, its records field by field, and one accepted cluster |
| `QDecimal`, `Base64Url`, `QClaims`, `QState` | signed-state tokens |
| `ClusterInfo` | chains of cluster-info proofs |
| `HeadingIds`, `HeadingWords` | unique heading ids, and their bases as words |
| `ApiRules`, `ApiDefaults`, `ApiEdit`, `ApiMeaning`, `ApiExamples` | the API default normaliser, what it does key by key, and one Pod in full |
| `Evidence`, `EvidenceOrder`, `EvidenceRun` | reduction, join, publication and independent verification of run evidence, and one nominal run |
| `Vectors` | known answers that fix encodings, decimals, tree costs and heading numbers |

Conventions. What the source raises is `None`, an `Err` or an explicit outcome. An object the source updates in place
is a class; its methods are proved against functions and predicates, and the properties are lemmas about those.
The environment (chunking of pipes, short writes, clocks, failing calls) is a script of events held by an object and
is universally quantified. Hashes, signatures, regular expressions that are not the point, calendars and scans for
sensitive text are function parameters, so a theorem holds for every such function meeting its stated hypotheses.
`hide` statements only keep proofs small. Where a result is about exact reals, the exponential is any function that is one at
zero, positive, strictly increasing and multiplicative over sums (`DecisionLaws.Exponential`).

Results worth knowing before reading the tables:

* The YAML decoder reads exactly the printed forms of one explicit family of layouts (`YamlLayouts.DecodesExactlyRenderedLayouts`).
* The ledger's loader also takes carriage returns as line ends, so a foreign file can load without being the canonical
  encodings of its records; the two coincide exactly when the file has no carriage return (`Ledger.HoldsExactly`).
* Appending does not look at the `invalid` flag, so a ledger goes on answering 200 after a failed append. Over any run of
  appends, failed ones included, its file reloads exactly when no append left a fragment of a line, the whole lines have
  distinct ids, and the record and size limits hold (`Ledger.RunReloadsExactly`). Two families of runs break that: those with a
  torn line, whatever is appended after it (`Ledger.TornFileNeverLoads`), and those where a request is sent again after its
  whole line was written but not flushed (`Ledger.RetryNeverLoads`). `TargetHttp.RetryIsAnswered` is the smallest such run for any request, and
  `TargetHttp.ExampleRetry` a concrete one. Failures that leave nothing in the file (a duplicate, the record limit, a clock
  or an open that fails) do no such harm (`Ledger.LedgerReloadsExactly`).
* With 63-bit clocks the size limit cannot be reached before the record limit (`Ledger.BoundedClocksReload`). No line
  the encoder accepts is over the line limit, so without that bound only the size of the file matters
  (`Ledger.ReloadsExactly`).
* A signed state may carry a validity window outside signed 64-bit time; verification then ends in a plain error rather
  than a verification error (`QClaims.StateIsValid`, `QState.VerifyOfIssued`; `QClaims.PlainClaimsOutsideTime` has such claims).
* The empty byte string is the one whose base64url text is refused on decoding (`Base64Url.EmptyIsRefused`).
* The evidence builder accepts source attestations in any order (`EvidenceOrder.BuiltForgetsOrder`), the independent
  verifier only track by track in the order of kinds (`Evidence.BuilderMeetsVerifier`). So of all the orders of what a
  bundle is built from exactly one verifies (`EvidenceOrder.OneOrderVerifies`), and `EvidenceOrder.IdleRunIsBuiltTwice` is
  a concrete bundle that is built and refused.
* Over exact reals the charge really decays: it is whole at issue, strictly lower with every later second or larger rate,
  and decaying twice is decaying once for the sum (`DecisionLaws.FallsWithTime`, `DecisionLaws.DecayComposes`), so that one
  state permits at once and denies ten seconds later (`DecisionLaws.PermittedThenDenied`).
* Every signed-only reason is also a local-mode reason, `permitted` included, exactly when a state good enough by itself
  is not brought down by missing, stale or costly local evidence (`Decision.ReasonsCarryOverExactly`, with
  `Decision.PermittedIsLost` as an input where it is). Reasons for refusal always carry over.

## Model

| member | source | states |
|---|---|---|
| Digits.NatTextOfValue | src/kil/canonical.py:37-55 | every digit string without superfluous zeros is the spelling of its value |
| Json.LoadsOfText | src/kil/canonical.py:113-123 | compact JSON text (string escapes of section 7 of RFC 8259) is read back as the value it was printed from |
| Json.TextInjective | src/kil/canonical.py:113-123 | two JSON values with one text are the same value |
| Ordering.SortForgetsOrder | src/kil/canonical.py:113-123 | sorting an object's members gives the same list exactly for the same set of members |
| Ordering.LessIsByCodePoint | src/kil/canonical.py:103-118 | one key comes before another exactly when it is a proper prefix of it, or has the smaller code point at the first place where they differ |
| Ordering.SortedStays | src/kil/canonical.py:113-118 | what is in that order is left as it is |
| Canonical.NormalizeDecimal | src/kil/canonical.py:37-55 | the digit-popping loop computes the reduced coefficient and exponent, and fails exactly when the coefficient's text is over the output limit |
| Canonical.DecimalNormalFormIsValue | src/kil/canonical.py:37-55 | two decimals have one normal form exactly when they are the same number: sign of zero and trailing zeros are collapsed and nothing else |
| CanonicalWalk.Traversal.Normalize | src/kil/canonical.py:58-110 | over any object graph, shared or cyclic, the walk with its `active` set succeeds exactly when the object has a finite unfolding that is encodable within the items left, gives its normal form, advances the counter by its cost and closes every container it opened |
| CanonicalWalk.UnfoldsUnique | src/kil/canonical.py:58-110 | an object has one unfolding at most |
| CanonicalWalk.ReachedCycleHasNoUnfolding | src/kil/canonical.py:84-88 | no object from which a cycle can be reached has an unfolding, so refusing an open container loses nothing |
| CanonicalWalk.CanonicalJson | src/kil/canonical.py:113-123 | encoding succeeds exactly for objects with an unfolding within the depth, item, integer, key and output limits, with the canonical text |
| CanonicalWalk.ObjectsOfOneText | src/kil/canonical.py:113-123 | two objects have one canonical text exactly when their unfoldings mean the same |
| Canonical.TagIsReserved | src/kil/canonical.py:95-110 | no encodable dictionary or record has the normal form of a decimal |
| Canonical.SameFormSameMeaning | src/kil/canonical.py:58-110 | normal forms agree up to key order exactly when the values mean the same |
| Canonical.CanonicalTextIsMeaning | src/kil/canonical.py:113-123 | two accepted values have the same canonical text exactly when they have the same meaning: key order, list or tuple, enum or value, record or object and the spelling of a decimal are all that is collapsed |
| Canonical.CanonicalTextReads | src/kil/canonical.py:113-123 | canonical text reads back as its own normal form with sorted keys |
| CanonicalForm.CanonicalTextAscends | src/kil/canonical.py:103-118 | canonical text reads back as JSON in which the keys of every object, at every level, stand in code-point order |
| CanonicalForm.InOrderIsCanonical | src/kil/canonical.py:113-123 | JSON whose keys are in that order is printed as the canonical text of the value it is |
| CanonicalForm.TwoKeys | src/kil/canonical.py:103-118 | one literal dictionary, given in either order of its keys, has the literal text with the smaller key first |
| CanonicalForm.EveryKind | src/kil/canonical.py:113-123 | literal texts of null, booleans, a negative integer, empty and filled lists, an empty dictionary and an escaped string |
| ClosedYaml.QuotedSingle | src/kil/v3b2_closed_yaml.py:110-136 | the quote scanner returns exactly what lies between balanced quotes with doubled quotes halved |
| ClosedYaml.Decoder.Parse | src/kil/v3b2_closed_yaml.py:210-218 | the whole parse succeeds exactly when every line belongs to one mapping within the node budget, and then `nodes` is the semantic size of the result |
| ClosedYaml.Decoder.Block | src/kil/v3b2_closed_yaml.py:220-228 | a block is parsed from its line on, stopping strictly later, with one node charged per container, key and scalar |
| ClosedYaml.Decoder.Entries | src/kil/v3b2_closed_yaml.py:253-262 | the mapping loop consumes exactly the entries at its indent and keeps their keys distinct |
| ClosedYaml.Decoder.Item | src/kil/v3b2_closed_yaml.py:264-295 | one sequence item, bare, scalar or with its first key inline, is parsed and charged as its meaning |
| YamlText.Prepare | src/kil/v3b2_closed_yaml.py:52-92 | preparation yields the line records of the text or refuses it, as the line-by-line conditions say |
| YamlText.PreparedIsRendered | src/kil/v3b2_closed_yaml.py:52-92 | a text prepares to given lines exactly when it is their rendering, with or without a final line feed |
| YamlLayouts.BlockPrints | src/kil/v3b2_closed_yaml.py:220-295 | every valid layout, printed at its indent, parses to its meaning |
| YamlLayouts.BlockReads | src/kil/v3b2_closed_yaml.py:220-295 | everything the parser accepts is the print of some valid layout with that meaning |
| YamlLayouts.DecodesExactlyLayouts | src/kil/v3b2_closed_yaml.py:210-295 | lines decode to a value exactly when they are the print of a layout of that value: sequences at their key's indent or two deeper, bare or inline items, scalars in any accepted spelling |
| YamlLayouts.DecodeClosedYaml | src/kil/v3b2_closed_yaml.py:298-300 | the decoder, preparation and parser together, refines the declarative decoding |
| YamlLayouts.DecodesExactlyRenderedLayouts | src/kil/v3b2_closed_yaml.py:298-300 | the same for whole texts, within the input, line, node and depth bounds |
| YamlLayouts.LayoutNeverChangesMeaning | src/kil/v3b2_closed_yaml.py:230-295 | two layouts that render to one text mean the same |
| YamlPrinter.RoundTrip | src/kil/v3b2_closed_yaml.py:110-136 | every in-bounds mapping tree, printed in any of the printer's styles with single-quoted strings, decodes to that same tree |
| YamlPrinter.DecodedIsBounded | src/kil/v3b2_closed_yaml.py:200-295 | whatever decodes has distinct keys at every level, containers no deeper than the limit plus two, and no more nodes than the limit |
| YamlExamples.FourLayouts | src/kil/v3b2_closed_yaml.py:220-295 | one literal document in four literal layouts, with or without a final line feed, decodes to one literal tree |
| TreeWalk.ValidateTree | src/kil/v3b2_component_configmaps.py:147-193 | the stack walk terminates on every graph and accepts exactly when the root unfolds to a finite tree within the item, depth and byte bounds |
| TreeWalk.MeasureDecidesUnfolding | src/kil/v3b2_component_configmaps.py:147-193 | the recursive measure accepts exactly when an acceptable finite unfolding exists |
| Vectors.CostOfThree | src/kil/v3b2_component_configmaps.py:171-193 | a list of three costs an item for each and its brackets, besides its elements |
| Vectors.LeafCosts | src/kil/v3b2_component_configmaps.py:147-193 | literal costs of constants, integers and strings |
| TreeWalk.CycleIsRefused | src/kil/v3b2_component_configmaps.py:165-170 | a node that reaches itself is refused by the recursive check at every depth |
| TreeWalk.ReachedCycleIsRefused | src/kil/v3b2_component_configmaps.py:165-170 | a graph with a cycle reachable from any root has no acceptable unfolding |
| TreeWalk.PushFrames | src/kil/v3b2_component_configmaps.py:171-193 | pushing a container's children keeps the stack's cost equal to what is left to measure |
| TreeWalk.ActiveIsAncestor | src/kil/v3b2_component_configmaps.py:165-170 | a child found in the active set is an ancestor still open, so it closes a cycle |
| Decision.Decide | src/kil/engine.py:19-121 | for any valid inputs and any arithmetic, failing or not, the result is the specified record and satisfies every record invariant |
| Decision.RecordIsValid | src/kil/domain.py:184-220 | the record's invariants hold whatever the arithmetic does |
| Decision.ChargesAreOrdered | src/kil/decay.py:75-145 | 0 <= effective <= decayed <= signed charge, even when arithmetic fails |
| Decision.PermittedExactlyWhen | src/kil/engine.py:44-121 | permit exactly when every listed condition holds and the effective charge reaches the threshold |
| Decision.LocalEvidenceOnlyReduces | src/kil/engine.py:44-121 | local mode keeps every signed-only ground for refusal, permits only where signed-only permits, and never has the larger charge |
| Decision.ReasonsCarryOverExactly | src/kil/engine.py:44-121 | all signed-only reasons are local-mode reasons if and only if a state that passes its own checks and threshold also has usable local evidence and reaches the threshold after reduction |
| Decision.PermittedIsLost | src/kil/engine.py:44-121 | a valid input whose signed-only reason does not carry over: permitted by itself, stale without local evidence |
| Decision.LossIsNonnegative | src/kil/decay.py:94-115 | the superlinear loss is never negative for sign-preserving arithmetic |
| Decision.AdverseEvidenceNeverHelps | src/kil/decay.py:94-145 | under monotone arithmetic more divergence or coupled loss never raises the effective charge nor turns a deny into a permit |
| Decision.ExactIsMonotone | src/kil/decay.py:94-145 | exact reals with any exponential are such arithmetic |
| DecisionLaws.DecaysExponentially | src/kil/decay.py:75-91 | over exact reals the recorded charge is the signed one times the exponential of minus rate times age |
| DecisionLaws.NoAgeNoDecay | src/kil/decay.py:75-91 | at issue, or without a rate, the recorded decayed charge is the signed charge |
| DecisionLaws.FallsWithTime | src/kil/decay.py:89-91 | a positive charge with a positive rate is strictly lower after issue, and strictly lower with every later request |
| DecisionLaws.FallsWithRate | src/kil/decay.py:89-91 | a larger rate strictly lowers a positive charge of positive age |
| DecisionLaws.DecayComposes | src/kil/decay.py:89-91 | decaying for one time and then for another is decaying for their sum |
| DecisionLaws.PermittedThenDenied | src/kil/engine.py:60-109 | a concrete state permitted when issued and, untouched, denied for insufficient charge alone ten seconds later |
| DecisionLaws.EvidenceTakesItsLosses | src/kil/decay.py:94-145 | with usable evidence the effective charge is what decay left less the superlinear loss and the coupled loss, and never below zero |
| DecisionLaws.NoEvidenceNoLoss | src/kil/engine.py:61-86 | without local reduction or usable evidence the effective charge is what decay left |
| DecisionLaws.DivergenceBites | src/kil/decay.py:112-115 | beyond the threshold more divergence strictly lowers an effective charge that is still positive |
| DecisionLaws.LossInFigures | src/kil/decay.py:94-115 | divergence of twice the threshold at exponent two costs four times the rate, as literal figures |
| DecisionLaws.ReasonsMean | src/kil/engine.py:44-109 | each of the ten reasons about identity, class, flags, window, history, charge and permission is given exactly for its own cause, whatever the arithmetic |
| DecisionLaws.ExactReasonsMean | src/kil/engine.py:59-91 | over exact reals arithmetic never fails, and stale evidence is reported exactly when evidence was to be used and none that is fresh, or no profile, was given |
| DecisionLaws.ConstrainedExactlyWhen | src/kil/engine.py:98-109 | an action is constrained exactly when stale evidence is all that stands against it and the caller asked for that |
| Replay.Replay | src/kil/replay.py:93-156 | the loop with its three incremental success sets reports, for every event, exactly the decisions and the transitive reachability of the scenario, and refuses exactly the ill-formed scenarios |
| Replay.ReachableFromParents | src/kil/replay.py:101-156 | permitting with all parents reachable is permitting with all transitive ancestors permitting |
| Replay.LocalSuccessIsSigned | src/kil/replay.py:101-156 | at every prefix the local-reduce success set lies inside the signed-only one |
| Replay.ReportOnlyReduces | src/kil/replay.py:101-156 | local reachability implies signed reachability, and signed denials never outnumber local denials |
| ReplayMeaning.TracksMean | src/kil/replay.py:113-127 | the baseline permits on credential and policy alone, the signed track on the checks of the state and its decayed charge, the local track only with fresh evidence and a charge that survives its losses |
| ReplayMeaning.ReachableByParents | src/kil/replay.py:108-112 | an event is reachable on a track exactly when each of its parents permits there and is reachable itself |
| ReplayMeaning.EventsReport | src/kil/replay.py:93-156 | the report on one scenario of five events, every permission and reachability written out, the three tracks parting company |
| Transport.DriverSession.ReadLine | tools/v3b1_driver_transport.py:193-229 | for every chunking, the line returned, what stays pending and what is unread are the stream, with the pending buffer within its bound |
| Transport.DriverSession.ReadReadinessRecord | tools/v3b1_driver_transport.py:232-249 | success is one newline-terminated line within the result bound; the framing error arises only for a line one byte over the bound that an earlier oversize refusal left pending |
| Transport.DriverSession.ReadDriverResult | tools/v3b1_driver_transport.py:292-309 | the same for the result line |
| Transport.DriverSession.WriteInstruction | tools/v3b1_driver_transport.py:262-289 | success means the driver received exactly the one-line payload and then end of file; an ill-framed payload sends nothing |
| Transport.DriverSession.AttestDriverResultExit | tools/v3b1_driver_transport.py:312-349 | success means the expected exit code reaped and polled alike, no byte beyond the lines taken, and an empty error stream |
| Transport.DriverSession.AttestCancelledExit | tools/v3b1_driver_transport.py:362-397 | the same for exit code 0 after cancellation |
| Transport.CommandedSession | tools/v3b1_driver_transport.py:232-349 | a session that passes every step saw exactly two bounded lines on its output and nothing else |
| Transport.CancelledSession | tools/v3b1_driver_transport.py:232-397 | a cancelled one saw exactly one line and sent nothing |
| Transport.FramingIsIsLine | tools/v3b1_driver_transport.py:240-249 | the framing tests say exactly that the bytes are one line |
| Transport.LinesAreDetermined | tools/v3b1_driver_transport.py:193-229 | a stream can be cut into lines in one way only |
| Transport.SameStreamSameLines | tools/v3b1_driver_transport.py:193-229 | two sessions over the same stream took the same lines, whatever the chunking |
| DriverProtocol.ParsesExactlyRecords | src/kil/v3b1_driver_protocol.py:677-703 | the result parser accepts exactly the canonical lines, within the byte limit, of records on its track whose facts hold and whose scan is clean |
| DriverProtocol.ParsesExactlyRecordBytes | src/kil/v3b1_driver_protocol.py:432-449 | the same on bytes, which must be the one UTF-8 spelling |
| DriverProtocol.RecordTextFits | src/kil/v3b1_driver_protocol.py:539-674 | every record whose facts hold fits the line bound and holds no control character |
| DriverProtocol.BuiltRecordIsAccepted | src/kil/v3b1_request_driver.py:37-38 | a built record is accepted by its own parser exactly when its facts hold and the scan is clean, and is never accepted as another |
| DriverProtocol.RecordTextInjective | src/kil/v3b1_driver_protocol.py:398-407 | a line determines its record |
| RecordForms.RecordTextIsCanonical | src/kil/v3b1_driver_protocol.py:398-407 | a record line is the canonical text of its fields, in whatever order they are given, and a newline |
| RecordForms.ReadinessLine | src/kil/v3b1_request_driver.py:41-56 | the literal readiness line: which clock reading stands under which key |
| RecordForms.CompleteLine | src/kil/v3b1_request_driver.py:235-253 | the same for the line of a whole response |
| RecordForms.TransportFailureLine | src/kil/v3b1_request_driver.py:134-161 | the same for a failed request |
| RecordForms.ControlFailureLine | src/kil/v3b1_driver_protocol.py:651-674 | the same for a control failure |
| DriverInstruction.ParsesExactlyInstructions | src/kil/v3b1_driver_protocol.py:464-521 | the instruction parser accepts exactly the canonical lines of valid instructions for its own track: everything but four values is fixed |
| DriverInstruction.ParsesExactlyInstructionBytes | src/kil/v3b1_driver_protocol.py:464-521 | the same on bytes |
| DriverInstruction.InstructionTextInjective | src/kil/v3b1_driver_protocol.py:464-521 | a line determines its instruction |
| RecordForms.InstructionTextIsCanonical | src/kil/v3b1_driver_protocol.py:464-521 | an instruction line is the canonical text of its fields |
| RecordForms.InstructionLine | src/kil/v3b1_driver_protocol.py:464-521 | the literal instruction: its headers, with the signed state if there is one, inside the fixed request |
| InstructionSize.InstructionFits | src/kil/v3b1_driver_protocol.py:464-471 | every valid instruction fits its line bound |
| RequestDriver.Host.WriteCanonicalRecord | src/kil/v3b1_request_driver.py:59-81 | whatever the short writes, success has written exactly the line, failure a prefix of it; with a working stream it fails only for a line over the limit |
| RequestDriver.Host.ReadBoundedSingleLine | src/kil/v3b1_request_driver.py:84-98 | nothing for no bytes, the payload exactly for one line within the limit, otherwise a failure |
| RequestDriver.Host.PerformOneRequest | src/kil/v3b1_request_driver.py:179-253 | one request is made and the record tells its outcome: the first stage that failed with its error, or status and digest of a whole response |
| RequestDriver.Host.ObservedMeans | src/kil/v3b1_request_driver.py:179-253 | the result in full: a failed request, failed or unusable headers, a failed or unusable body, or the status and digest, each with the reported class, number and stage |
| RequestDriver.ReportedClassIs | src/kil/v3b1_request_driver.py:101-124 | an exception is reported under its own name if that is one of the seven, else under the first of them in the fixed order that it is an instance of, else as an `OSError` |
| RequestDriver.Host.ObservedIsAccepted | src/kil/v3b1_request_driver.py:134-253 | a result record is accepted exactly when the clock readings are bounded and in order and the scan is clean |
| RequestDriver.Host.ReadinessIsAccepted | src/kil/v3b1_request_driver.py:41-56 | the same for the readiness record |
| RequestDriver.Host.Execute | src/kil/v3b1_request_driver.py:256-315 | whatever stdin, connection, writes and clock do: the events follow the protocol, output is the lines completed plus at most a prefix of the next, the exit code is 0 exactly for clean end of input or a written complete result, and with a working stream each step is reached exactly when its stated condition holds |
| RequestDriver.Host.TakeInstruction | src/kil/v3b1_request_driver.py:289-297 | an instruction is taken exactly when the whole input is a valid one for this track, and end of input exactly when there is none |
| RequestDriver.AtMostOneRequest | src/kil/v3b1_request_driver.py:256-315 | in every run of the protocol at most one request is sent, after the whole readiness line and for the one instruction read, and none when the input simply ended |
| RequestDriver.PhasesAreRuns | src/kil/v3b1_request_driver.py:256-315 | the event-by-event state machine allows exactly the prefixes of the two ways a run can go |
| RequestDriver.InstructionIsOneLine | src/kil/v3b1_request_driver.py:84-98 | a valid instruction always passes the framing test |
| DriverExample.OneRun | src/kil/v3b1_request_driver.py:256-315 | one run whose driver writes exactly its readiness and result lines, sends exactly the instruction it was given and exits with zero |
| DriverExample.NoOrder | src/kil/v3b1_request_driver.py:256-315 | the same driver without input: the readiness line, no request, and zero |
| DriverAgreement.TwoLinesAreTheRecords | tools/v3b1_driver_transport.py:232-349 | two lines read from a driver are, byte for byte, the readiness and result records of that run, which made exactly the one request it was sent |
| DriverAgreement.OneLineIsCancelled | tools/v3b1_driver_transport.py:362-397 | one line from a driver that exited with 0 is the readiness record of a run that saw its input end and made no request |
| Utf8.DecodesExactlyEncodings | src/kil/v3b1_driver_protocol.py:432-449 | decoding succeeds on exactly the encodings of strings and gives that string back |
| Vectors.Utf8Vectors | src/kil/v3b1_driver_protocol.py:432-449 | the examples of section 7 of RFC 3629 and characters of each width |
| LedgerRecord.DecodesExactlyMarkers | src/kil/target_http.py:334-370 | the decoder accepts exactly the canonical bytes of valid markers |
| LedgerRecord.MarkerBytesAreTame | src/kil/target_http.py:49-85 | a marker's bytes hold no line break and one opening brace, are within the line limit whatever integers the encoder accepts, and with 63-bit clocks are at most 570 |
| RecordForms.MarkerIsCanonical | src/kil/target_http.py:181-192 | the bytes of a marker are the canonical text of its fields |
| RecordForms.MarkerLineIs | src/kil/target_http.py:49-85 | the literal line of a marker: which value stands under which key |
| Ledger.SplitAppend | src/kil/target_http.py:123 | finished text splits into lines without regard to what follows it |
| Ledger.HoldsAppend | src/kil/target_http.py:181-192 | appending a marker's line to a file of markers gives the file of one more |
| Ledger.HoldsExactly | src/kil/target_http.py:113-134 | a file of markers is the concatenation of their encodings exactly when it holds no carriage return |
| Ledger.CarriageReturnsAreAccepted | src/kil/target_http.py:123 | a concrete file that loads although it is not the encodings of its records |
| Ledger.LoadsAreUnique | src/kil/target_http.py:113-134 | a file can be read as one ledger at most |
| Ledger.TargetLedger.Open | src/kil/target_http.py:96-111 | a ledger is opened exactly when its file can be loaded, in agreement with it |
| Ledger.TargetLedger.LoadExisting | src/kil/target_http.py:113-134 | loading succeeds exactly when some list of valid markers with distinct ids is within every bound and is what the file's lines say, and then gives that list |
| Ledger.Disk.AppendDurably | src/kil/target_http.py:182-198 | opening, the short-write loop and the flush leave exactly the prefix of the line that the run of events allows, and succeed exactly when all of it was written and flushed |
| Ledger.WorksAppends | src/kil/target_http.py:182-198 | with a file system whose every step succeeds, an append gets through however short its writes |
| Ledger.TargetLedger.AppendMarker | src/kil/target_http.py:150-201 | the class invariant holds after every append, failed or not: memory is what was loaded and what succeeded since, the file what was opened and whatever each append left in it; a success adds one record, its id and its line, and happens exactly when the marker is admissible and the file system lets its line through; a failure leaves memory alone and latches `invalid`; an inadmissible append leaves the file alone |
| Ledger.ReloadsExactly | src/kil/target_http.py:113-134 | a file of markers loads, as those markers, exactly when their ids are distinct and the record and size limits hold |
| Ledger.HeldSize | src/kil/target_http.py:23-25 | with 63-bit clocks a file of markers has at most 572 bytes a marker |
| Ledger.BoundedClocksReload | src/kil/target_http.py:23-25 | with 63-bit clocks every ledger it can write it can also reload |
| Ledger.TornFileNeverLoads | src/kil/target_http.py:186-201 | once a fragment of a line is in the file, no later appends, torn or whole, make its lines markers again |
| Ledger.RunHoldsExactly | src/kil/target_http.py:186-201 | after any run of appends the lines of the file are markers if and only if no append left a fragment, and then they are the whole lines in order |
| Ledger.RunReloadsExactly | src/kil/target_http.py:113-201 | after any run of appends the file loads if and only if no append left a fragment, the whole lines have distinct ids, and the record and size limits hold |
| Ledger.RetryNeverLoads | src/kil/target_http.py:192-201 | a run in which a request leaves bytes in the file twice never loads again, whatever happens between and after |
| Ledger.AgreesExactly | src/kil/target_http.py:150-201 | in every reachable state, invalid or not, the lines of the file are the records in memory if and only if every failed append left nothing in it |
| Ledger.LedgerReloadsExactly | src/kil/target_http.py:113-201 | the same condition for reloading as a run, in every reachable state; without residue of failures only the size limit matters |
| Ledger.FileIsEncodings | src/kil/target_http.py:150-201 | the file is the concatenated encodings of the records in memory if and only if it was opened without a carriage return and every failed append left nothing; so while such a ledger is not invalid |
| Ledger.UnsyncedFileIsAhead | src/kil/target_http.py:193-201 | without fragments the file holds the records in memory and whole lines whose flush failed, and nothing but the former exactly when every failed append left nothing |
| TargetHttp.Group | src/kil/target_http.py:251-256 | header values are grouped by lower-cased name, in order |
| TargetHttp.TargetHttpApp.JoinValues | src/kil/target_http.py:251-273 | a join is found exactly when each join header occurs once, names this track and valid values, and no body is declared |
| TargetHttp.TargetHttpApp.Create | src/kil/target_http.py:209-233 | a handler exists exactly for a ledger of its own run and track |
| TargetHttp.TargetHttpApp.Handle | src/kil/target_http.py:275-303 | a 200 on a target route adds exactly one durable marker for exactly that request, and is given if and only if the joined marker is admissible and the file system lets it through, `invalid` or not; a healthy 200, 400, 404 and 409 are each given exactly for their own requests, and 503 for the rest; every other answer adds no record; what a joined request leaves in the file is exact; `invalid` never resets |
| TargetHttp.RetryIsAnswered | src/kil/target_http.py:275-303 | any request whose append fails with bytes in the file is answered 503 `unavailable`, and sent again 200 `recorded`, after which the file never loads |
| TargetHttp.ExampleRetry | src/kil/target_http.py:275-303 | the same on one concrete request, its line written whole and not flushed |
| TargetHttp.FirstRequests | src/kil/target_http.py:275-303 | a fresh service asked six times, each status and body a literal: health, unknown path, no join headers, a request, the same again, another; the file is then the two markers |
| Ownership.NoOrphanReplicaSet | src/kil/v3b2_deployment_ownership.py:369-370 | twelve Deployments each owning one of twelve ReplicaSets leave none over, so that final check follows from counting |
| Ownership.NoOrphanPod | src/kil/v3b2_deployment_ownership.py:371-372 | exact replica counts adding up to the number of Pods leave no Pod over |
| Ownership.CountedOnce | src/kil/v3b2_deployment_ownership.py:339-352 | counting owner by owner counts each Pod at most once, and all of them only if each has its owner there |
| Ownership.OwnershipIsAPartition | src/kil/v3b2_deployment_ownership.py:246-373 | acceptance means a bijection of Deployments and ReplicaSets with every Pod under exactly one, with exact replica count and template |
| OwnershipMeaning.DeploymentsMean | src/kil/v3b2_deployment_ownership.py:246-277 | every accepted Deployment is one of the twelve expected, at its first revision, with its one replica, or two for coredns |
| OwnershipMeaning.ReplicaSetsMean | src/kil/v3b2_deployment_ownership.py:279-305 | every accepted ReplicaSet is of the first revision and controlled by the Deployment of its namespace that its name extends by a template hash |
| OwnershipMeaning.PodsMean | src/kil/v3b2_deployment_ownership.py:307-332 | every accepted Pod is controlled by the ReplicaSet of its namespace that its name extends by five characters, and is of its template |
| OwnershipMeaning.ExampleIsAccepted | src/kil/v3b2_deployment_ownership.py:246-373 | a concrete cluster of the twelve Deployments with their ReplicaSets and Pods is accepted |
| OwnershipProof.BindIsOk | src/kil/v3b2_deployment_ownership.py:155-189 | the binding constructor cannot fail once its join passes |
| OwnershipProof.ProofIsOk | src/kil/v3b2_deployment_ownership.py:198-228 | the proof constructor, with its 37 distinct uids, canonical order and exact inventory, cannot fail once the joins pass |
| OwnershipJoin.Validate | src/kil/v3b2_deployment_ownership.py:246-373 | the validator with its dictionaries, sets and loops accepts exactly what the declarative join accepts, orphan and constructor checks adding nothing, and returns the sorted bindings |
| OwnershipJoin.Join | src/kil/v3b2_deployment_ownership.py:336-372 | the join loop succeeds exactly for owned, counted, hash-matching records |
| OwnershipJoin.IndexReplicaSets | src/kil/v3b2_deployment_ownership.py:279-305 | the index answers exactly which ReplicaSet a Deployment owns |
| OwnershipJoin.GroupPods | src/kil/v3b2_deployment_ownership.py:307-332 | the groups are exactly the Pods of each owner, in order |
| OwnershipJoin.OrderDoesNotMatter | src/kil/v3b2_deployment_ownership.py:246-373 | permuting the three input lists changes neither acceptance nor the proof |
| QDecimal.DecimalWireLength | src/kil/q_state.py:73-87 | the loop returns the length of the wire text without printing it |
| QDecimal.WireReadsBack | src/kil/q_state.py:90-96 | the wire text is in the grammar and reads back as the same number |
| QDecimal.ParsedSpelling | src/kil/q_state.py:26 | every string of the grammar is the wire text of the number it reads as |
| QDecimal.WireIsUnique | src/kil/q_state.py:73-96 | the wire text is the one string of the grammar that reads as the number |
| QDecimal.WireOfNumber | src/kil/q_state.py:90-96 | numerically equal decimals have one wire text |
| Vectors.WireVectors | src/kil/q_state.py:90-96 | literal wire spellings: a fraction, a positive exponent, a leading zero, and zero |
| Base64Url.DecodesExactlyEncoded | src/kil/q_state.py:248-266 | the decoder accepts exactly the nonempty image of the encoder and inverts it |
| Base64Url.B64EncodeInjective | src/kil/q_state.py:248-249 | different byte strings never share their base64url text |
| Base64Url.EmptyIsRefused | src/kil/q_state.py:252-254 | a byte string survives encoding and decoding exactly when it is not empty |
| Base64Url.SymbolsAreTheTable | src/kil/q_state.py:248-249 | the symbols are those of table 2 in section 5 of RFC 4648, in its order |
| Base64Url.TestVectors | src/kil/q_state.py:248-249 | the test vectors of section 10 of RFC 4648 without padding, and one with both peculiar symbols |
| QClaims.ToPayload | src/kil/q_state.py:180-187 | the loop over the declared fields gives each field its wire form, and only those fields |
| QClaims.ClaimsMean | src/kil/q_state.py:130-178 | claims are valid exactly when they have the 26 fields, each named and of its own kind, and meet the window, horizon, history and charge conditions |
| QClaims.ClaimsReadBack | src/kil/q_state.py:180-217 | claims come back from their payload with every value equal |
| QClaims.AcceptsExactlyPayloads | src/kil/q_state.py:190-217 | a payload is accepted exactly when it is the payload of some valid claims, and then of those returned |
| QClaims.StateIsValid | src/kil/q_state.py:219-236 | valid claims make a valid kernel state exactly when their window lies within signed 64-bit time |
| QClaims.PlainClaimsOutsideTime | src/kil/q_state.py:219-236 | concrete valid claims for every starting second, with a valid state exactly when they expire within 64-bit time |
| QState.VerifyOfIssued | src/kil/q_state.py:276-375 | with an ideal signature and a registered key, an issued token verifies exactly for an expectation its claims fit inside their window and 64-bit time, returning the same claims; otherwise the first mismatch |
| QState.VerifiedStateMeans | src/kil/q_state.py:219-236 | every field of a verified state is the claim of its own name, and the state counts as authentic |
| QState.VerifiedStateDecides | src/kil/q_state.py:219-236 | deciding on a verified state reports history, veto, envelope, charge, identity, class and expiry exactly by the claims and the expectation, and never an unauthentic state |
| QState.IssuedTokenIs | src/kil/q_state.py:276-290 | an issued token is the base64url text of its literal header, of its payload with the field names in code-point order, and of the signature over the two joined by a dot |
| QState.VerifiedIsBound | src/kil/q_state.py:303-375 | whatever the token, a verified state is unrevoked, inside its window of at most ten seconds, bound to the expectation, and signed under a registered key |
| QState.PayloadSurvives | src/kil/q_state.py:239-245 | sorting and printing a payload loses nothing of it |
| QState.ReadObjectReadsBack | src/kil/q_state.py:293-300 | this project's own JSON reader satisfies the reader hypothesis of the token theorems |
| ClusterInfo.Nanos | src/kil/v3b2_cluster_info.py:63 | padding a fraction to nine digits gives exactly its value in nanoseconds |
| ClusterInfo.Ascii | src/kil/v3b2_cluster_info.py:63 | a fraction is read exactly when each character has a decimal digit value, ASCII or not, and by those values |
| ClusterInfo.AcceptedStep | src/kil/v3b2_cluster_info.py:382-414 | an accepted proof is well formed, active if it is the first, continues the earlier proof, and without a signature follows a strictly older signed proof that its own document derives again |
| ClusterInfo.ValidatesExactly | src/kil/v3b2_cluster_info.py:302-414 | a validation gives a proof exactly when the document proves it field by field, with exactly the kubeconfig and, while the token lives, its signature as data keys; when it follows the earlier proof; and, without a signature, when that was signed, strictly older and is what its own document proves |
| ClusterInfo.BeforeIsFewerTicks | src/kil/v3b2_cluster_info.py:63 | timestamps are compared as numbers of nanoseconds |
| ClusterInfo.NothingAfterRemoval | src/kil/v3b2_cluster_info.py:396-401 | a proof without a signature has no successor |
| ClusterInfo.ChainsAreSafe | src/kil/v3b2_cluster_info.py:302-414 | every chain starts active, keeps uid, server, authority, token, expiration and kubeconfig digest, never goes back in version or time, keeps the signature digest at equal versions and loses the signature only in its last proof |
| ClusterInfo.RederivationIsOneDeep | src/kil/v3b2_cluster_info.py:402-409 | without an earlier proof a validation is decided by the document alone, so the second derivation never starts a third |
| HeadingIds.BaseShape | tools/render_markdown.py:160-165 | a base is nonempty, without outer or doubled hyphens, and is `section` for want of anything alphanumeric |
| HeadingWords.BaseIsWords | tools/render_markdown.py:158-165 | a base is the maximal alphanumeric runs of the folded heading, all of them and in order, joined by single hyphens, or `section` if there is none |
| HeadingIds.RunIsBounded | tools/render_markdown.py:171-173 | a run of taken candidates is no longer than there are ids, which bounds the search loop |
| HeadingIds.Slugs.Slug | tools/render_markdown.py:158-176 | the id is new and is what plain search from two gives; the cached counter stays below the first free candidate |
| HeadingIds.PrepareHeadings | tools/render_markdown.py:287-296 | the ids of a document are pairwise distinct and each is the plain-search id after those before it |
| HeadingIds.IdsAreDetermined | tools/render_markdown.py:287-296 | the headings alone determine the ids |
| Vectors.HeadingVectors | tools/render_markdown.py:158-176 | the ids of four literal headings: numbers start at two and skip a number taken by name |
| ApiRules.EqualIsExact | src/kil/v3b2_api_defaults.py:37-44 | the comparison is exact typed structural equality, on values free of not-a-number |
| ApiRules.RewriteIsPointwise | src/kil/v3b2_api_defaults.py:127-171 | rewriting by a table treats each key by its own rule and leaves every other key alone |
| ApiRules.RewriteIdempotent | src/kil/v3b2_api_defaults.py:127-171 | rewriting by a sound table twice is rewriting once |
| ApiDefaults.ConfigurationIdempotent | src/kil/v3b2_api_defaults.py:174-212 | the configuration of a configuration is that configuration |
| ApiDefaults.ConfigurationKeepsKey | src/kil/v3b2_api_defaults.py:29-34 | the configuration has the object key of its document |
| ApiDefaults.MatchesIsSameConfiguration | src/kil/v3b2_api_defaults.py:215-220 | matching is having the same configuration, one that equals itself |
| ApiDefaults.MatchingIsAnEquivalence | src/kil/v3b2_api_defaults.py:215-220 | matching is symmetric and transitive, reflexive exactly on documents with a comparable configuration, relates such a document to its own defaulted form, and only relates equal keys |
| ApiDefaults.PodSpecIdempotent | src/kil/v3b2_api_defaults.py:156-171 | a Pod specification is settled after one pass, service account and container defaults included |
| ApiMeaning.ConfigurationExactly | src/kil/v3b2_api_defaults.py:174-212 | the configuration exists, and is a given document, exactly when the two are related key by key: present values stay, absent ones get the literal defaults written out, omitted falses and runtime metadata go, nothing else changes |
| ApiMeaning.PodSpecExactly | src/kil/v3b2_api_defaults.py:156-171 | the same for a Pod specification, its containers, probes, ports, environment and volumes |
| ApiMeaning.WorkloadExactly | src/kil/v3b2_api_defaults.py:174-212 | the same for a workload: history limit, progress deadline or rolling update, and its template |
| ApiMeaning.ServiceExactly | src/kil/v3b2_api_defaults.py:174-212 | the same for a Service |
| ApiMeaning.DefinitionExactly | src/kil/v3b2_api_defaults.py:174-212 | the same for a custom resource definition |
| ApiMeaning.FullMetadataExactly | src/kil/v3b2_api_defaults.py:88-124 | the same for root metadata |
| ApiExamples.ExplicitValuesMatter | src/kil/v3b2_api_defaults.py:127-220 | two documents that give one key of their specifications different explicit values never match |
| ApiExamples.ExplicitTemplateValuesMatter | src/kil/v3b2_api_defaults.py:127-220 | nor two workloads whose templates do so in their Pod specifications |
| ApiExamples.ExampleConfiguration | src/kil/v3b2_api_defaults.py:174-212 | one Pod and its configuration, both literal, whatever its restart policy says |
| ApiExamples.RestartPolicyMatters | src/kil/v3b2_api_defaults.py:127-129 | a Pod with restartPolicy `Never` and one with `Always` do not match |
| ApiEdit.EditContainer | src/kil/v3b2_api_defaults.py:137-153 | the step-by-step edit of a container is the rewriting by its table |
| ApiEdit.EditPodSpec | src/kil/v3b2_api_defaults.py:156-171 | the same for a Pod specification |
| ApiEdit.EditMetadata | src/kil/v3b2_api_defaults.py:88-124 | the edit of root metadata drops the runtime fields, settles namespace and annotations, and refuses exactly the malformed ones |
| ApiEdit.EditConfiguration | src/kil/v3b2_api_defaults.py:174-212 | the whole edit computes the configuration or refuses exactly where it does not exist |
| Evidence.AdaptIsSound | src/kil/v3b2_evidence.py:402-497 | producer records reduce to nothing, or to one decided request with one digest throughout and a marker exactly when permitted |
| Evidence.AdaptsExactly | src/kil/v3b2_evidence.py:402-497 | the producer records reduce to given rows exactly in three cases, each written out over the records: an idle run; one permitted request with a proven upstream and its marker; one denied request with neither |
| Evidence.Records | src/kil/v3b2_evidence.py:523-581 | the grouping loop accepts exactly twelve distinct sources with agreeing instructions whose rows their producer records reduce to |
| Evidence.JoinNominal | src/kil/v3b2_evidence.py:584-671 | the join succeeds exactly for the closed nominal cases and rows that meet them, and states them |
| Evidence.JoinDemandsOutcomes | src/kil/v3b2_evidence.py:584-671 | once the records pass, the join demands only that each track has the expected outcome |
| Evidence.Build | src/kil/v3b2_evidence.py:1046-1139 | a bundle is built exactly when the declarative conditions can be met, and meets them |
| Evidence.BuilderMeetsVerifier | src/kil/v3b2_evidence.py:1911-2009 | a built nominal or request-free bundle with its artifacts passes the independent source and join checks exactly when the attestations were in track-then-kind order |
| Evidence.VerifiedBundleMeans | src/kil/v3b2_evidence.py:1911-2009 | any nominal bundle that passes has one digest per track, a target marker exactly when permitted, and rows its published producer records reduce to |
| EvidenceRun.VerifiedRecordsMean | src/kil/v3b2_evidence.py:1911-2009 | in a verified nominal bundle the proxy record of a track proves an upstream exactly on permit, all producers agree on request and digest, and the target marker, there exactly on permit, has the run, request id, path and digest of the authorization |
| EvidenceRun.NominalRunIsBuilt | src/kil/v3b2_evidence.py:1046-1139 | the literal producer records of a nominal run, two tracks permitted and one denied, are built into the bundle written out, and it verifies |
| Evidence.FileOfTrack | src/kil/v3b2_evidence.py:1337-1346 | an artifact file holds under each track just that request's rows |
| EvidenceOrder.FindForgetsOrder | src/kil/v3b2_evidence.py:523-581 | the source of a kind and track is found in whatever order distinct sources stand |
| EvidenceOrder.BuiltForgetsOrder | src/kil/v3b2_evidence.py:1046-1139 | from permuted attestations the builder makes the same bundle with its sources permuted alike |
| EvidenceOrder.ReorderedVerifiesExactly | src/kil/v3b2_evidence.py:1911-2009 | a built bundle put in another order is built too, and verifies if and only if that order is track by track in the order of kinds |
| EvidenceOrder.OneOrderVerifies | src/kil/v3b2_evidence.py:1911-2009 | of all the orders of the attestations of a built bundle exactly one verifies |
| EvidenceOrder.SiblingIsRefused | src/kil/v3b2_evidence.py:1911-2009 | exchanging two sources of a verified bundle gives one that is built and refused |
| EvidenceOrder.IdleRunIsBuiltTwice | src/kil/v3b2_evidence.py:1046-1139 | the sources of an idle run, built in two orders, one bundle verifying and the other not |

## Left out

- Text: Python strings may hold lone surrogates and the encoders refuse them; a Dafny character is a Unicode scalar value, so those inputs do not arise here.
- Canonical encoding: members of a dictionary are visited in the order they stand, where the source visits them sorted, which can only change the error reported; the recursion limit of the interpreter and its limit on spelling long integers are not modelled.
- YAML scalars: the plain-scalar regular expressions and the double-quoted path through `json.loads` are an oracle on the body of a scalar; single quotes are modelled in full.
- Decision.AdverseEvidenceNeverHelps: stated for arithmetic that is monotone and sign-preserving, which exact reals are; rounding to 28 digits, the exponential and powers stay an open parameter.
- Decay: `weighted_diagonal_distance` and `logistic_squash` are not part of the decision path modelled here.
- Replay: the validators of report and paired-decision records beyond what the loop itself relies on.
- Transport: starting the process, the reader thread for streams without a file descriptor, and cleanup after failure.
- Driver records: the sensitive-text scan, the errno table and the compact-token test are parameters; a result whose stage or exception class is a list makes the source raise a different error than the one modelled as refusal.
- Request driver: the HTTP library, its one retained connection and its timeouts are represented by the outcome of each call; clock readings are integers that never fail.
- RequestDriver.Host.Execute: calls that raise something uncaught end the run as `Escaped`; `main` turns that into exit code 1.
- Ledger: file modes, symbolic links, locking between threads and the directory are reduced to an owner-only flag and a file that each step may refuse; the mutual exclusion of concurrent appends is not modelled.
- TargetHttp.TargetHttpApp.Handle: both clock readings are drawn before the append, where the source draws them inside it; stripping of a content-length value is a parameter.
- Target HTTP: the server, its configuration loader and response writing.
- Ownership: record dictionaries are closed datatypes, so the checks on key sets and exact types are not modelled; error messages are not distinguished.
- Signed state: Ed25519, SHA-256 and key ids are functions with an ideal-signature hypothesis; JSON that is not in compact form is left to the reader parameter.
- Base64Url.B64Decode: the library decoder is modelled on unpadded text over both alphabets; whatever else it tolerates is refused by re-encoding in any case.
- Cluster info: the kubeconfig reader, the X.509 and HMAC checks, the URL grammar, the calendar and the document's own tree walk are functions of the document; the tree walk of this kind is modelled once, in `TreeWalk`.
- Heading ids: Unicode normalization, case folding and the alphanumeric test are parameters; the rest of the renderer is not modelled.
- API defaults: documents are trees, so an object shared between two places of one document, which the source would edit in both, is not modelled; the forms of runtime metadata values are a parameter.
- Evidence: content, topology, policy, foreign-profile and teardown attestations are checked by the same functions on both sides and enter as given; bundles for a changed foreign state are left out; hashes are a function parameter; the exact-type checks that tell `True` from 1 are covered by typed rows; publication, files and checksums on disk are not modelled.
- Controller teardown and recovery, HTTP servers, Envoy and Kubernetes rendering, tool download and the fixed-table validators are not modelled.
