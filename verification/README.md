# Network drift observatory: a verified model

The observatory compares what network devices report with the intent that was
committed for them, and keeps a ledger of the differences. This project models
its core in Dafny and proves what that core promises, for all inputs and all runs.

* **The ledger and the evaluation protocol.** `LedgerState` says what each operation
  does to baselines, evidence windows, findings and streaks, `Ledger` is the class that
  does it in place, and `Engine` is the optimistic protocol around it: copy the inputs under the lock,
  compare without it, fence, apply. `Observatory` holds that protocol's steps as methods.
  The results are about every interleaving of steps (`EngineRuns`, `EngineSafety`, `EngineFences`, `EngineResults`,
  `Publication`) and every history of the ledger (`LedgerRuns`, `Resolution`, `Budget`); `Application` and
  `LedgerEffects` say what one operation leaves behind.
* **The comparison.** `Comparison` specifies one evaluation, `Comparator` computes it with
  the program's loops, `Compliance` says what compliant means, `Verdicts` and `Drifts` what is decided and drafted,
  by the raw facts of the snapshots, and `DraftIdentity` that drafts never share an identity. `PolicyRules`
  and `ValueRelations` do the same for the policy and for values.
* **Fencing.** `Fencing` is the concurrent protocol of sessions over one fence table, and `FenceHistory` says
  from the history alone what it lets through.
* **Codecs.** JSON (`Json*`, RFC 8259), field paths (`Paths`), RFC 3339 stamps over
  the civil calendar (`Time`, `Stamps`), UTF-8, and the wire frame (`Wire`). `JsonStrings`, `JsonGrammar`,
  `JsonDocuments`, `PathTexts`, `StampTexts` and `WireFormat` give the grammars and layouts that the readers
  are exact for, and `JsonLayout` relates the two writers.
* **Hashing.** SHA-256 (`Sha256`, FIPS 180-4, with the origin of its constants in `Sha256Roots` and its
  worked example in `Sha256Vector`), CRC-32 (`Crc32`), and the octet streams that
  identities are hashed from (`HashStreams`, `Digests`, `DigestWriters`), with the validation of values
  that keeps them apart (`Validation`).
* **Recovery.** `Recovery` saves a ledger as records and restores it conservatively;
  `RecoveryDecoder` does so imperatively; `RecoveryPayloads` says what any payload decodes to,
  `RecoveryResults`, `RecoveryFixpoint` and `RecoveryPasses` what comes back, and `SaveRefusals` which reachable ledgers do not.

Conventions. Octet strings are sequences of characters below 256. A `std::map` that is only
read and walked is a table, a sequence of pairs whose type makes its keys distinct; one that is updated is a
Dafny map, walked in an order the proofs do not depend on. SHA-256 is taken as collision-free above the octet
streams: a content digest is modelled by the content and a finding identity by its inputs, which `Digests`
justifies. Every engine step is atomic, as the mutex makes it. The outcome of a document's own
validation is a parameter (`validation`), and so are the clock and which target's regrouping is refused
(`refusedAt`).

Where the code does not do what its comments say:

* `FormatTime` does not borrow the day before 1970 (src/time.cpp:81-85). `Stamps.FormatParses`
  gives the exact result, `Stamps.StampDrifts` an instant, and `RecoveryPasses.FixedPoint` what
  it means for saved ledgers.
* `TryParseTime` accepts any day up to 31 and second 60, and its lower overflow test adds the
  fraction (src/time.cpp:122, 154). `Stamps.ParseFormats` says for every stamp that reads whether it is
  the one written for its instant, and `Stamps.GuardExact` which are refused for size.
* With a retention bound of zero the newest observation is evicted
  (src/ledger.cpp:377-390). `Window.AdmitTidy` has the exact condition.
* Clearing a suppression is meant to leave the finding as it was; one that was acknowledged, closed
  and reopened comes back acknowledged (src/ledger.cpp:1009-1011). `Findings.SuppressionUndone` is exact and
  `Findings.ReopenedComesBackAcknowledged` reaches such a finding.
* A saved ledger is meant to restore. `CommitIntent`, `Suppress`, `ClearSuppression`, `Acknowledge`,
  `ClearAcknowledgement` and `ExpireSuppressions` append to the global timeline without trimming it
  (src/ledger.cpp:154, 208, 279, 986, 1027, 1063, 1099, 1143), so a ledger at its timeline bound that is saved
  after one of them is refused (src/persistence.cpp:1327). `RecoveryResults.Restores` has the exact condition, the
  methods of `Ledger` say how many events each appends, and `SaveRefusals.CommitThenSave` and
  `SaveRefusals.CommitGenerations` carry them to the decoder.
* Every path that appends to a finding's history is said to finish by trimming it (src/ledger.cpp:1411-1412). A
  resolution trims first, and a reclassification and a regrouping do not trim
  (src/ledger.cpp:763-778, 743, 914), so a full history is left over its bound and its ledger saves but does not
  decode (src/persistence.cpp:645-647). See `SaveRefusals.ResolutionOverfills`.
* The hash stream of values stops telling them apart past its recursion guard (src/value.cpp:256-261).
  `HashStreams.ToldApartExactly` is the exact condition and `HashStreams.DepthCutsOff` two values hashed from the top.
  Validation under the same limit (src/value.cpp:391-393) refuses every such value, by
  `Validation.ValidatedIsToldApart`, so validated documents keep them away from the digests.

## Model

| member | source | states |
|---|---|---|
| Values.NumericsExact | src/value.cpp:546-600 | two numbers of any kinds relate as equal exactly when they are the same real number; no conversion invents or loses equality |
| Values.EqualMeans | src/value.cpp:602-684 | two values relate Equal exactly when they mean the same (numbers as reals, containers member by member) and neither nests past the recursion guard |
| Values.RelateValues | src/value.cpp:602-689 | the recursive comparison with its early exits computes the relation whose meaning EqualMeans gives |
| ValueRelations.RelationMeans | src/value.cpp:546-684 | two values differ exactly if a difference is found within the recursion guard, and are incomparable exactly if none is and unlike kinds meet or the guard is passed |
| Utf8.IsValidUtf8 | src/value.cpp:691-743 | the cursor loop decides validity |
| Utf8.ValidMeans | src/value.cpp:691-743 | accepted texts are exactly the encodings of scalar values: no overlong form, surrogate, truncation or stray continuation |
| Policy.SubsetMatches | src/policy.cpp:95-126 | a narrower selector matches only what the broader one matches |
| Policy.ClassifyField | src/policy.cpp:325-338 | the fold over the rules computes the classification |
| Policy.ClassifyIsStrictest | src/policy.cpp:325-338 | the classification is an upper bound of the intent's own and every matching rule's strictness, and is one of them |
| Policy.TtlFor | src/policy.cpp:279-294 | the loop finds the deciding rule's lifetime |
| Policy.DecidingIsMostSpecific | src/policy.cpp:279-294 | the deciding freshness rule matches, is most specific, and is the last among equals |
| Policy.SeverityFor | src/policy.cpp:296-323 | the loop computes the grade that SeverityDecided is about |
| Policy.SeverityDecided | src/policy.cpp:296-323 | the severity is that of the last most specific admitted rule, or the default if none is admitted; a rule is admitted if it names the drift and its threshold holds of the severity the rules before it give, so without thresholds it is the last most specific match |
| Policy.ThresholdsSeeWhatIsBefore | src/policy.cpp:306-309 | with thresholds the order of two rules decides the grade |
| Policy.FindSuppression | src/policy.cpp:340-361 | the first suppression that applies, or none if none applies |
| PolicyRules.MatchesExactly | src/policy.cpp:23-35 | a rule matches a location exactly unless it names another target, another object, or a path that is no prefix |
| PolicyRules.MoreSpecific | src/policy.cpp:95-126 | naming the target outranks naming the object, and that outranks giving a path |
| PolicyRules.ClassifyIgnores | src/policy.cpp:325-338 | a classification rule about another location can stand anywhere and changes nothing |
| PolicyRules.TtlIgnores | src/policy.cpp:279-294 | nor does a freshness rule about another location |
| PolicyRules.SeveritiesIgnore | src/policy.cpp:296-323 | nor a severity rule about another location or another class |
| PolicyRules.SuppressionIgnores | src/policy.cpp:340-361 | nor a suppression of another location or class, or one that has expired |
| Freshnesses.UsableMeans | src/freshness.cpp:48-138 | evidence supports a conclusion exactly when it is not recovered, of the live epoch, dated, and within skew and lifetime on both clocks |
| Freshnesses.StateMeans | src/freshness.cpp:48-138 | which state evidence has: undated, recovered, foreign, from the future, without a lifetime, too old on either clock, ageing or fresh |
| Freshnesses.AgingExact | src/freshness.cpp:113-134 | usable evidence is aging exactly past its percentage of the lifetime, the rounded threshold notwithstanding |
| Freshnesses.StaleStays | src/freshness.cpp:90-111 | evidence once too old never becomes usable again by the passing of time |
| Freshnesses.SourceOnlyShortens | src/freshness.cpp:51-56 | the lifetime is the policy's or the source's own; a source shortens it exactly when its own is positive and smaller, and never lengthens it |
| Freshnesses.ThresholdExact | src/freshness.cpp:48-138 | the divided ageing threshold is the exact percentage rounded down, without overflow |
| Comparator.CompareTarget | src/comparison.cpp:279-768 | the whole comparison with its loops is the evaluation that the Verdicts rows and CompliantMeans pin down, for whichever way ties are sorted |
| Verdicts.DecidableExactly | src/comparison.cpp:356-423 | with intent and usable evidence a target is decided exactly when the coverage asked for is there and each declared object and managed field is either reported in a form that compares or denied by a source that saw everything and may deny it |
| Verdicts.DraftsExactly | src/comparison.cpp:501-691 | which class is drafted at which place: exactly those the raw snapshot facts warrant, so Missing only for a required object that was reported absent or not listed as unobserved under complete coverage |
| Verdicts.DraftsCarry | src/comparison.cpp:174-195 | every draft carries the severity, generation, authority, values and evidence of its place |
| Verdicts.DisputesExactly | src/comparison.cpp:425-499 | the conflicts are exactly the places where two of the first eight usable sources say different things |
| Verdicts.EvaluationSays | src/comparison.cpp:735-768 | whose evaluation it is, its best freshness, its number of sources and its reason |
| Verdicts.WithoutGrounds | src/comparison.cpp:356-423 | what is said without intent or without usable evidence |
| SourceChoice.SpokenFor | src/comparison.cpp:300-345 | every source is spoken for exactly once, by an observation of which it has none newer |
| SourceChoice.ChosenInOrder | src/comparison.cpp:41-64 | the chosen views are candidates and stand in the order of their trust |
| Comparator.CurrentViews | src/comparison.cpp:300-345 | sorting, dropping superseded snapshots and ordering by trust leaves one newest view per source in trust order |
| Comparator.ScanConflicts | src/comparison.cpp:425-499 | the pair loop over the first eight usable sources finds exactly the conflicts |
| Comparator.CompareObjects | src/comparison.cpp:501-691 | the object loop finds the drafts that Verdicts.DraftsExactly pins down, place by place |
| Comparator.RegroupDrafts | src/comparison.cpp:693-731 | deviations are regrouped in place as partial application or generation mismatch |
| Comparison.CurrentUnique | src/comparison.cpp:41-64 | if each source has a strictly newest snapshot the chosen views do not depend on the order of the candidates or of ties |
| Comparison.OrderIrrelevant | src/comparison.cpp:300-345 | the evaluation is a function of the set of evidence alone |
| Compliance.CompliantMeans | src/comparison.cpp:425-768 | compliant holds exactly when coverage suffices, no two of the first eight usable sources conflict, and every object and field agrees with the baseline under the policy; regrouping changes nothing |
| Compliance.UndecidedWithoutEvidence | src/comparison.cpp:356-423 | without baseline or usable evidence nothing is decided or compliant, and only staleness or missing intent is reported |
| Compliance.PrimaryIsUsable | src/comparison.cpp:41-64 | the primary view is usable whenever any view is |
| Compliance.EvaluationFramed | src/comparison.cpp:174-195 | every draft names the evaluation's own target and baseline generation, and compliant implies decidable |
| DraftIdentity.EvaluationDistinct | src/comparison.cpp:436-731 | no two drafts of one evaluation share an identity, even after regrouping |
| Window.Record | src/ledger.cpp:316-394 | the position loop, insertion and eviction are the admission function |
| Window.AdmitTidy | src/ledger.cpp:334-390 | windows stay in order of epoch, incarnation and sequence and within their bound, and a stored arrival leaves the newest observation in a bounded window exactly when the bound is positive |
| Window.BoundedRefinesUnbounded | src/ledger.cpp:334-390 | one bounded admission is the tail of the unbounded one, and judges the arrival alike |
| Window.WindowIsTail | src/ledger.cpp:334-390 | for every sequence of live arrivals the window is the last K of the sorted list of everything accepted |
| Findings.CreatedSound | src/ledger.cpp:494-569 | a created finding agrees with its identity and its suppression state |
| Findings.RefreshedSound | src/ledger.cpp:572-651 | a drafted finding is live again, counts the observation and counts a return only if it was closed |
| Findings.ChangesSound | src/ledger.cpp:213-286 | every other change keeps a finding sound and none makes a closed finding live |
| Findings.SuppressionUndone | src/ledger.cpp:992-1011 | suppressing and clearing restores a finding except exactly one that was reopened after an acknowledgement, which comes back acknowledged |
| Findings.ReopenedComesBackAcknowledged | src/ledger.cpp:572-651 | a finding acknowledged, resolved and drafted again is open with its acknowledgement, and suppressing and clearing it then gives it back acknowledged |
| Findings.AcknowledgementUndone | src/ledger.cpp:1069-1090 | acknowledging and clearing restores the finding |
| LedgerRuns.StepKeepsLifecycle | src/ledger.cpp:213-1151 | every mutator keeps the lifecycle invariant: state and suppression agree, key equals identity, live findings are of the committed generation or none, windows tidy, baselines as committed |
| LedgerRuns.RunKeepsLifecycle | src/ledger.cpp:213-1151 | the lifecycle invariant holds after every allowed history |
| LedgerRuns.ApplyIsRun | src/ledger.cpp:435-800 | a two-phase application is exactly the history of its accepted targets, and that history is allowed |
| Resolution.StreakIsTally | src/ledger.cpp:689-785 | over every history a live finding's streak equals the number of agreeing evaluations since it was last drafted |
| Resolution.ResolvedExactlyWhen | src/ledger.cpp:703-785 | a finding becomes Resolved exactly in a decidable evaluation of its target that neither drafts nor re-explains it, as the last of enough such since it was drafted |
| Resolution.UndecidableChangesNothing | src/ledger.cpp:703-712 | an undecidable evaluation neither counts nor resets |
| Resolution.ReturnReopens | src/ledger.cpp:572-651 | drift that returns reopens the same identity with its streak at zero |
| Resolution.CountsAreExact | src/ledger.cpp:572-651 | observation and reopen counts equal the drafting passes and the returns of the history |
| Budget.SizeBounded | src/ledger.cpp:440-473 | phase one never counts too few |
| Budget.SizeExact | src/ledger.cpp:440-473 | with distinct identities and targets phase one counts exactly what phase two creates |
| Budget.FindingBudget | src/ledger.cpp:440-473 | refusal is exactly overrun and changes nothing; an accepted outcome creates what was counted; the envelope is never exceeded |
| Ledger.FindingLedger.CommitIntent | src/ledger.cpp:111-211 | commits, duplicates and the three refusals; an accepted commit advances the revision and appends one event for each finding it rebases or retires and one for itself, and nothing is trimmed |
| Ledger.FindingLedger.RebaseFindingsForTarget | src/ledger.cpp:213-286 | the loop supersedes or retires every live finding of an older generation and reports exactly those |
| Ledger.FindingLedger.RecordObservation | src/ledger.cpp:316-394 | screening and bounded admission of one observation, a bound of zero included |
| Ledger.FindingLedger.InvalidateRetainedEvidence | src/ledger.cpp:407-429 | every retained record becomes recovered and never fresh, and the count is their number |
| Ledger.FindingLedger.ApplyEvaluation | src/ledger.cpp:435-800 | the fenced, budgeted, two-phase application computes the store that the Application, Resolution and Budget rows pin down; an accepted one leaves the timeline within its bound |
| Ledger.FindingLedger.ApplyTarget | src/ledger.cpp:475-785 | one target's drafts, reclassification, streaks and resolution, whatever order the identities are visited in; the events appended are exactly the changes that can be seen between the findings before and after, each once |
| Application.DraftIsApplied | src/ledger.cpp:475-651 | after an accepted application every draft of an accepted evaluation has its finding, which carries the draft's class, severity, reason, generation, values and evidence, the evaluation's best freshness and the time; what is kept if it was there before, and what a new one starts with |
| Application.UndraftedIsKept | src/ledger.cpp:689-785 | a finding of an accepted target that was not drafted is superseded, resolved, counted or untouched, and which |
| Application.OthersAreKept | src/ledger.cpp:435-800 | findings of other targets keep everything but a suppression whose time is up |
| Application.FindingsAreDrafted | src/ledger.cpp:494-569 | findings appear only for drafts of accepted evaluations and none disappears |
| Publication.PublishedIsRecorded | src/engine.cpp:359-392 | in every run each draft of each accepted target of a published evaluation is in the ledger, saying what the draft says |
| LedgerEffects.ScreenMeans | src/ledger.cpp:111-187 | which documents are taken, known or refused, by what is committed |
| LedgerEffects.CommitChanges | src/ledger.cpp:139-211 | an accepted commit installs exactly the document and touches nothing of other targets |
| LedgerEffects.ScreenedAgainstAll | src/ledger.cpp:316-360 | what an arrival becomes, by every record its window holds |
| LedgerEffects.IngestChanges | src/ledger.cpp:360-394 | an arrival changes its own window only: it is added, and past the bound one record goes |
| LedgerEffects.EvictionMeans | src/ledger.cpp:377-390 | the one that goes is the earliest recovered record before the last, or else the earliest of all |
| LedgerEffects.InvalidateChanges | src/ledger.cpp:407-429 | a rotation keeps every retained observation, marked recovered and supporting nothing |
| LedgerEffects.SuppressChanges | src/ledger.cpp:940-990 | suppressing records who, why and until when, hides a live finding and changes no evidence |
| LedgerEffects.SweepChanges | src/ledger.cpp:1105-1155 | the sweep ends exactly the suppressions whose time is up |
| Ledger.FindingLedger.Suppress | src/ledger.cpp:940-990 | operator suppression with its refusals, its one event and the count of active suppressions |
| Ledger.FindingLedger.ClearSuppression | src/ledger.cpp:992-1031 | the suppression ends, the prior state returns, and one event is appended |
| Ledger.FindingLedger.Acknowledge | src/ledger.cpp:1033-1067 | acknowledgement with its refusals and its one event |
| Ledger.FindingLedger.ClearAcknowledgement | src/ledger.cpp:1069-1103 | the acknowledgement ends, with one event |
| Ledger.FindingLedger.ExpireSuppressions | src/ledger.cpp:1105-1155 | every due suppression lapses and no other, each with one event; the result is their number |
| Ledger.FindingLedger.AppendTimeline | src/ledger.cpp:1390-1393 | global sequence numbers rise strictly with the counter |
| Ledger.FindingLedger.RecordEvent | src/ledger.cpp:1395-1399 | an event of its own: appended, then trimmed to the bound, with the next revision |
| Ledger.FindingLedger.TrimTimeline | src/ledger.cpp:1401-1408 | trimming keeps the newest entries, in order, and exactly as many as the bound allows |
| EngineRuns.RunSane | src/engine.cpp:230-392 | every interleaving of begin, compare, finish, publish, arrive, rotate, operator actions, policy changes, stop and load keeps the engine invariant |
| EngineRuns.NoAba | src/engine.cpp:230-382 | in every interleaving an accepted target was compared against exactly the baseline committed at apply time |
| EngineRuns.BaselinesOnlyAdvance | src/ledger.cpp:159-187 | committed baselines are only replaced by later generations at no earlier epoch |
| EngineSafety.RotationQuiets | src/engine.cpp:80-102 | after a rotation no target has evidence that supports a conclusion, evaluations in flight included |
| EngineSafety.LoadQuiets | src/engine.cpp:631-642 | nor after loading a decoded ledger |
| EngineSafety.EvidenceSafety | src/engine.cpp:318-392 | from such a moment, until an observation of the target is stored, no evaluation reports it decidable or compliant or moves its findings to Resolved or Superseded |
| EngineResults.CompliantIsCurrent | src/engine.cpp:359-392 | in every interleaving a published compliant target agrees, object by object, with the baseline committed at that moment |
| EngineResults.GatheredStrictNewest | src/engine.cpp:268-287 | every reachable window gives each source a strictly newest snapshot, so the order lemma applies |
| EngineResults.EvaluationIsDetermined | src/engine.cpp:230-316 | the same ledger, clock and policy give the same evaluation however the evidence was gathered and sorted |
| EngineResults.ApplicationIsExact | src/engine.cpp:373-392 | in every run, and for every evaluation in flight, an applied evaluation creates exactly the findings counted and the envelope holds |
| EngineResults.RunIsHistory | src/engine.cpp:318-392 | every engine run without a reload is one allowed ledger history |
| Observatories.Observatory.RotateIncarnation | src/engine.cpp:80-102 | the rotation step of the engine model |
| Observatories.Observatory.PublishIntent | src/engine.cpp:153-178 | the publish step |
| Observatories.Observatory.IngestObservation | src/engine.cpp:180-218 | the arrival step, stamped with the receive time and judged live |
| Observatories.Observatory.SetPolicy | src/engine.cpp:451-472 | the policy step with its event, or the refusal of the policy's own validation with nothing changed |
| Observatories.Observatory.BeginEvaluation | src/engine.cpp:398-419 | the begin step: inputs copied under the lock |
| Observatories.Observatory.BuildEvaluationInput | src/engine.cpp:230-305 | the loops gather every target once, in order, with every retained record and its verdict |
| Observatories.Observatory.CompareInputs | src/engine.cpp:307-357 | the lock-free comparison of every slot not cancelled |
| Observatories.Observatory.FinishEvaluation | src/engine.cpp:359-392 | the finish step of the engine model, whose publication the EngineFences rows state without the guard's definition |
| EngineFences.CancelledIsDropped | src/engine.cpp:363-372 | in every run, after a cancellation and until the engine starts or the request is withdrawn, no evaluation is published or changes the ledger |
| EngineFences.StoppedIsDropped | src/engine.cpp:363-372 | the same after a stop, until the engine starts |
| EngineFences.RotatedIsDropped | src/engine.cpp:363-372 | an evaluation begun before an accepted rotation is never published after it |
| EngineFences.UndisturbedIsPublished | src/engine.cpp:359-392 | conversely, one that saw no rotation, stop or cancellation is published when it is not to be applied or fits the envelopes |
| EngineFences.PublishedExactly | src/engine.cpp:359-392 | exactly when a finishing evaluation is published, and what is then in the ledger |
| EngineFences.FencesMove | src/engine.cpp:80-102 | exactly a later incarnation at no earlier epoch is taken, and nothing else moves either |
| EngineFences.RefusedAtTheDoor | src/engine.cpp:153-218 | what is refused before it reaches the ledger changes nothing |
| EngineFences.GatheredUsable | src/engine.cpp:230-305 | gathered evidence supports a conclusion only if not recovered, of the engine's epoch and within the lifetime of its target |
| EngineFences.RetainedIsGathered | src/engine.cpp:230-305 | and every retained observation of the target is gathered, with the verdict that it supports a conclusion exactly when it is live, of the epoch, dated and within its lifetime on each clock |
| Fencing.RunValid | src/server.cpp:391-436 | every session is at or below its source's fence and the log is in order, over all interleavings of sessions |
| Fencing.FencedRuns | src/server.cpp:588-642 | after a newer incarnation greets no older snapshot passes; within one incarnation sequences never fall and equal ones carry equal content |
| Fencing.NoTakeover | src/server.cpp:500-532 | the newer-authority branch of the fence is unreachable by publishing |
| Fencing.TakeoverExists | src/server.cpp:588-642 | although the fence alone has it, exactly for a newer epoch or incarnation |
| FenceHistory.GreetingExactly | src/server.cpp:391-436 | in every run a greeting is accepted exactly when no greeting of its source under a later epoch or incarnation was, and the reason names which was |
| FenceHistory.PublishingExactly | src/server.cpp:500-532 | in every run a snapshot passes exactly when its session greeted with its authority, no later authority has greeted since, and the incarnation has passed nothing later and nothing else under its number; a refused one changes nothing |
| FenceHistory.PassExactly | src/server.cpp:588-642 | why a snapshot of a greeted authority is refused, by what was greeted and passed before |
| FenceHistory.UndisturbedPasses | src/server.cpp:391-532 | a session that greets, commits and publishes undisturbed gets its snapshot through |
| Fencing.FenceTable.FenceHello | src/server.cpp:391-436 | the in-place table update of a greeting |
| Fencing.FenceTable.FenceSnapshot | src/server.cpp:588-642 | the in-place table update of a snapshot and its verdict |
| JsonWriter.AppendEscaped | src/json.cpp:24-62 | the escape loop writes the quoted spelling |
| JsonWriter.WriteCompact | src/json.cpp:81-141 | the compact writer appends the compact spelling |
| JsonWriter.WritePretty | src/json.cpp:143-200 | the pretty writer appends the pretty spelling |
| JsonLayout.WrittenSqueezed | src/json.cpp:81-200 | without the white space outside its strings the pretty text is the compact one, and the compact one has none |
| JsonParser.Parser.ParseValue | src/json.cpp:242-275 | the recursive parser over its cursor and node counter is the reading function |
| JsonParser.Parser.ParseArray | src/json.cpp:343-382 | arrays, with every limit and refusal |
| JsonParser.Parser.ParseObject | src/json.cpp:287-341 | objects, duplicate names refused |
| JsonParser.Parser.ParseString | src/json.cpp:459-553 | strings, escapes and surrogate pairs: the cursor loop reads what JsonStrings.StringReadExactly pins down |
| JsonParser.Parser.ParseNumber | src/json.cpp:555-640 | numbers and their conversion |
| JsonParser.ReadJson | src/json.cpp:665-677 | whole documents: the parser reads what JsonDocuments.AcceptedExactly pins down |
| JsonStrings.SpellingRead | src/json.cpp:459-553 | every spelling of every text by section 7 of RFC 8259, as its own octets, as a two-character escape or as one or two unicode escapes with digits of either case, is read as exactly that text within the leaf limit |
| JsonStrings.StringReadExactly | src/json.cpp:459-553 | and nothing else is read as it |
| JsonDocuments.DocumentRead | src/json.cpp:242-677 | a document of the grammar of RFC 8259, white space included, is given the meaning of its tree |
| JsonDocuments.AcceptedExactly | src/json.cpp:242-677 | the accepted documents are exactly those of the grammar whose trees have a value |
| JsonDocuments.FinishMeans | src/json.cpp:384-457 | exactly an object whose only member is named "$bytes" is a byte string, of a text of digit pairs within the limit |
| JsonReading.ExactReading | src/json.cpp:81-200 | the text of any double-free value is read exactly as a structural account says, refusals included |
| JsonRoundTrip.RoundTrip | src/json.cpp:207-553 | parsing the compact or pretty text of a canonical value returns exactly it if and only if it fits the document, structure and node limits |
| JsonRoundTrip.SpellingInjective | src/json.cpp:81-200 | different values have different texts |
| JsonAccepted.AcceptedGood | src/json.cpp:242-405 | whatever is accepted is canonical and within every bound, byte strings counted as two nodes |
| JsonAccepted.Canonicalizes | src/json.cpp:665-677 | reading, writing and reading again gives the same value unless the new text is too large |
| Identity.NoComponentTraverses | src/identity.cpp:40-79 | no component of a valid identity is "." or ".." |
| PathTexts.IdentityExactly | src/identity.cpp:40-79 | which texts are identities, by their octets |
| PathTexts.PathReadExactly | src/identity.cpp:162-288 | which texts read as a path and as which: keys with a backslash before each special octet, numerals in brackets, dots between, and the limits |
| Paths.TryParse | src/identity.cpp:162-262 | the parser's loops compute the reading function |
| Paths.ParseIndex | src/identity.cpp:181-202 | the overflow test inside the digit loop refuses exactly values past 64 bits |
| Paths.WriteText | src/identity.cpp:270-288 | the writer's loop computes the text |
| Paths.OneSpelling | src/identity.cpp:162-288 | a text that reads as a path is that path's text, and the path is within the limits |
| Paths.RoundTrip | src/identity.cpp:162-288 | a path comes back from its text if and only if it is empty or has valid keys within the limits and passes the size guard |
| Paths.TextInjective | src/identity.cpp:270-288 | different paths with parsed keys have different texts |
| Paths.PathOrder | src/identity.cpp:135-145 | the order of paths is strict, total and transitive |
| Paths.AppliedGenerationParses | src/comparison.cpp:90-96 | the reserved marker reads as a path of one key |
| Time.CivilRoundTrip | src/time.cpp:23-46 | a civil date comes back from its day number, whose origin and step Epoch and NextDay fix |
| Time.DayRoundTrip | src/time.cpp:23-46 | a day number comes back from its civil date, which NumberCountsDays and DatesInTurn fix |
| Time.Epoch | src/time.cpp:23-46 | the first of January 1970 is day zero |
| Time.NextDay | src/time.cpp:23-46 | the date after any date, across the ends of months and years, has the next number |
| Time.NumberCountsDays | src/time.cpp:23-46 | so from 1970 on the number of a day is the count of days since then |
| Time.DatesInTurn | src/time.cpp:23-46 | and before it the days until then, each day's date leading to the next one's |
| Time.DaysPastTheEnd | src/time.cpp:122-124 | a day past the end of its month is counted on from the month's first |
| Stamps.FormatParses | src/time.cpp:73-159 | reading what was written gives the instant back from 1970 on and on earlier midnights, otherwise one day more |
| Stamps.ParseFormats | src/time.cpp:73-159 | for every stamp that reads: it is the one written for its instant exactly when it has nine digits of fraction, spells a moment that exists, and its instant is from 1970 on or in the first second of a day |
| Stamps.GuardExact | src/time.cpp:148-158 | which well-formed stamps are refused for size, and that the final multiplication never overflows |
| Stamps.SpellingLasts | src/time.cpp:73-97 | writing what was read back repeats the text exactly from the last day before 1970 on and on midnights |
| Stamps.StampDrifts | src/time.cpp:81-85 | a concrete instant before 1970 whose text moves with every pass |
| Stamps.FebruaryThirtieth | src/time.cpp:122-124 | the reader takes the 30th of February for the 2nd of March |
| Stamps.TryParseTime | src/time.cpp:100-159 | the reader with its scanning loops is the reading function whose meaning StampTexts gives |
| StampTexts.WrittenReads | src/time.cpp:100-159 | every text written from admissible fields reads as its moment, counted from 1970, unless that is out of range |
| StampTexts.ReadIsWritten | src/time.cpp:100-159 | and nothing else reads |
| StampTexts.FormatShows | src/time.cpp:73-98 | from 1970 on an instant is written as the civil moment that it is, with nine digits |
| StampTexts.EpochText | src/time.cpp:73-98 | instant zero is written 1970-01-01T00:00:00.000000000Z |
| Stamps.ParseDigits | src/time.cpp:48-63 | the digit loop |
| Sha256.Hasher.Compress | src/hash.cpp:60-107 | the schedule and round loops are the compression of section 6.2.2 of FIPS 180-4 |
| Sha256.Hasher.Update | src/hash.cpp:109-137 | every octet fed is accounted for, however the input is split |
| Sha256.Hasher.Final | src/hash.cpp:164-189 | the digest is the one-shot hash of everything fed; the padding loop ends on the block boundary |
| Sha256Vector.KnownAnswer | tests/test_core.cpp:19-20 | the worked example of FIPS 180-4: the digest of "abc", through every word of the schedule and every round |
| Sha256Roots.InitialRoots | src/hash.cpp:52-54 | the initial state is the fractional parts of the square roots of the first eight primes |
| Sha256Roots.Constants0 | src/hash.cpp:17-27 | the first eight round constants are the fractional parts of the cube roots of the first eight primes; Constants8 to Constants56 say the same of the others |
| Sha256.PadFillsBlock | src/hash.cpp:164-182 | the padding of section 5.1.1 fills a block and is the shortest that does |
| Sha256.FoldConcat | src/hash.cpp:109-137 | hashing block by block is hashing the concatenation |
| Sha256.BigEndianInjective | src/hash.cpp:147-153 | each 64-bit integer has its own eight octets |
| Crc32.BuildTable | src/hash.cpp:35-46 | the table holds eight bit steps of every octet |
| Crc32.Compute | src/hash.cpp:201-208 | the table-driven loop is the bit-by-bit reflected CRC of section 3.2.9 of IEEE 802.3 |
| WireFormat.CheckValue | tests/test_core.cpp:42-43 | the checksum of the digits 1 to 9 is the check value of CRC-32 |
| Crc32.StepBijective | src/hash.cpp:35-46 | each bit step is a bijection on the register |
| Crc32.BurstDetected | src/hash.cpp:201-208 | two messages that differ only within four consecutive octets have different checksums |
| Wire.EncodeFrame | src/wire.cpp:92-110 | a frame is its little-endian header and its payload, oversized payloads refused |
| Wire.FrameRoundTrip | src/wire.cpp:92-143 | the receiver reads back every header field if and only if the size fits four octets |
| WireFormat.FrameOctets | src/wire.cpp:92-110 | where every field of a sent frame lies, octet by octet |
| WireFormat.HeaderExactly | src/wire.cpp:112-143 | which headers are accepted, what is read from them, and why the others are refused |
| WireFormat.SentIsAccepted | src/wire.cpp:92-157 | what is sent within the envelope is accepted, header and payload |
| Wire.VerifyFramePayload | src/wire.cpp:145-157 | length first, then checksum |
| Wire.CorruptionRefused | src/wire.cpp:145-157 | a payload changed only within four consecutive octets, or of another length, is refused |
| HashStreams.ValuesPrefixFree | src/value.cpp:256-307 | the octets fed for values form a prefix-free code as long as one of the two stays within the recursion guard |
| HashStreams.StreamOctets | src/value.cpp:256-307 | what a value's octets are: the number of its kind, then eight octets of a number or count, most significant first, and what is counted |
| HashStreams.ToldApartExactly | src/value.cpp:256-307 | a value shares its octets with no other value if and only if no node of it lies past the recursion guard |
| HashStreams.DepthCutsOff | src/value.cpp:256-261 | 65 nested lists around two different values, hashed from the top, feed the same octets |
| Validation.ValidateValue | src/value.cpp:391-447 | the recursive validation of a value, every limit in order |
| Validation.ValidatedExactly | src/value.cpp:391-447 | a value passes exactly when every node of it fits at its depth |
| Validation.ValidatedIsToldApart | src/value.cpp:391-393 | a value that passes validation has no node past the guard, so no other value shares its octets |
| Digests.SnapshotStreams | src/observation.cpp:88-128 | two snapshots feed the same octets if and only if they agree in content up to order and repetition of the unobserved objects |
| Digests.DocumentStreams | src/intent.cpp:94-116 | two intent documents feed the same octets if and only if they are equal |
| Digests.FindingStreams | src/finding.cpp:125-138 | two finding identities feed the same octets if and only if they agree in every part and in the qualifier's digest |
| Digests.QualifierStreams | src/comparison.cpp:144-165 | the octets behind two qualifier digests agree if and only if the qualifiers do |
| Digests.IdentitiesTell | src/finding.cpp:125-138 | different identities share a stream only through a SHA-256 collision of two different qualifier streams or a digest of zeros |
| DigestWriters.HashValue | src/value.cpp:256-307 | the recursive writer feeds the hasher exactly the value's stream |
| DigestWriters.ComputeContentDigest | src/observation.cpp:88-128 | the snapshot digest is the hash of its stream, the unobserved objects sorted and deduplicated |
| DigestWriters.ComputeId | src/finding.cpp:125-138 | the finding identity is the hash of its stream |
| RecoveryDecoder.RestoredLedger.RestoreObservation | src/ledger.cpp:1302-1317 | a restored observation is never fresh; a full window loses its oldest |
| RecoveryDecoder.RestoredLedger.RestoreFinding | src/ledger.cpp:1319-1360 | a restored finding is marked recovered, with one event if it was live on current evidence |
| RecoveryDecoder.DecodeLedger | src/persistence.cpp:1132-1346 | the section loops restore record by record, and one refused record refuses the whole |
| RecoveryPayloads.DecodedExactly | src/persistence.cpp:1132-1346 | any payload of readable records, whoever wrote it, decodes exactly when its targets, findings and events fit; each map then holds the last records of each key, the windows the newest, nothing is current, and each interrupted finding has its one event |
| RecoveryPayloads.UnreadableRefused | src/persistence.cpp:1132-1346 | one unreadable record refuses the whole payload |
| RecoveryPayloads.FindingExactly | src/persistence.cpp:361-659 | which finding records are readable, and as which finding: the identity its members spell is the one it claims |
| RecoveryDecoder.EncodeLedger | src/persistence.cpp:1064-1130 | the encoder walks every map in key order |
| RecoveryResults.FindingBack | src/persistence.cpp:298-659 | a finding comes back exactly when its identity is recomputed and its counts and sizes pass, with only its stamps reread |
| RecoveryResults.Restores | src/persistence.cpp:1064-1346 | a saved ledger decodes if and only if every record passes and the counts fit, and then conservatively: nothing current, nothing else lost but streaks, receive times and old history |
| SaveRefusals.CommitThenSave | src/ledger.cpp:139-210 | after an accepted commit the saved ledger decodes only if its old timeline had room for every rebased finding and one more, and then whenever its records pass |
| SaveRefusals.CommitGenerations | src/ledger.cpp:139-210 | a new ledger that only commits generation after generation of one target reaches a timeline past any bound, and every decoder with a smaller bound refuses it |
| SaveRefusals.OverlongHistoryRefused | src/persistence.cpp:645-647 | a ledger with one history over its bound does not decode |
| SaveRefusals.ResolutionOverfills | src/ledger.cpp:763-779 | a resolution overfills a history exactly if it was full, because it trims before it appends, and the ledger is then refused |
| RecoveryFixpoint.RestoredIsLoadable | src/ledger.cpp:1302-1360 | what is restored keeps the lifecycle invariant, holds only recovered evidence, and its global timeline still rises within the counter |
| RecoveryFixpoint.RestartIsQuiet | src/engine.cpp:631-642 | so the engine may load it, and no target then has evidence that supports a conclusion |
| RecoveryFixpoint.RecordedOnce | src/ledger.cpp:1327-1350 | the recovery event is recorded for exactly the findings live on current evidence, and never again |
| RecoveryFixpoint.NumbersApart | src/ledger.cpp:1347-1350 | the events' sequence numbers are new and distinct |
| RecoveryPasses.FixedPoint | src/persistence.cpp:1064-1346 | a decoded ledger, saved and decoded again, always decodes; it is unchanged if and only if its stamps are settled, and its payload repeats if and only if they last |

## Left out

- RecoveryResults.Restores: records are values with textual stamps and paths; the member-by-member strictness of the document decoders, the container's magic, length and digest, and the JSON text of the payload are not composed with it.
- RecoveryResults.FindingBack: of the identity texts only target and object are validated again; a policy name, actor or group text that the decoder would refuse is taken as valid, as is an identity digest of zeros.
- RecoveryDecoder.EncodeLedger: object tables inside baselines and snapshots keep their paths as paths; groups are not saved.
- RecoveryDecoder.RestoredLedger.RestoreObservation: a retention bound of zero, where the program erases from an empty window, is modelled as keeping one record.
- Ledger.FindingLedger.ApplyEvaluation: root-cause groups, their references and their timeline events are not modelled; a refusal by the group envelope is the parameter `refusedAt`, after which the targets already applied stay applied.
- Ledger.FindingLedger.ApplyTarget: events keep their kind, place, time and state; their reason, severity and detail texts are not modelled.
- Ledger.FindingLedger.Suppress: the derived suppression id is an argument, and the count of active suppressions is not claimed to be the number of suppressed findings, since policy suppressions never raise it.
- Ledger.FindingLedger.AppendTimeline: entries keep what the ordering needs; per-finding histories exist only in the recovery model and `SaveRefusals`.
- Ledger.FindingLedger.CommitIntent: the document's own validation is the parameter `validation`.
- Observatories.Observatory.IngestObservation: the snapshot's own validation is a parameter; registration of sources with its own checks is one step of the model.
- Observatories.Observatory.SetPolicy: the policy's own validation is the parameter `validation`.
- Observatories.Observatory.PublishIntent: the document's own validation is the parameter `validation`.
- Observatories.Observatory.CompareInputs: which slots a cancellation leaves blank is a parameter; worker threads are not modelled, the comparisons being independent.
- Observatories.Observatory.FinishEvaluation: Load and SetPolicy while an evaluation is in flight are not fenced by the program; Load is a step only with none in flight, and the policy an evaluation was compared under travels with it.
- EngineSafety.EvidenceSafety: stopping the engine is one step; its wait for evaluations in flight is not modelled.
- Fencing.RunValid: forwarding a passed snapshot to the engine is not ordered with other sessions' forwards.
- JsonParser.Parser.ParseNumber: the text form of doubles is a pair of function parameters; nothing is claimed about shortest printing.
- HashStreams.ValuesPrefixFree: a double is its 64-bit pattern.
- Digests.SnapshotStreams: paths are those the parser returns and lengths fit 64 bits.
- Paths.TryParse: positions are unbounded; only the size guard wraps.
- Time.CivilRoundTrip: years are unbounded integers; the 64-bit range is bounded where stamps are made.
- The display text of findings, drafts and traces, `summary` members, counters, statistics, queries and reports.
- Sockets, files, threads, the command line, the collector and the benchmark.
- Policy documents: decoding, validation and digest.
- The digest of an evaluation outcome and of the whole ledger, and group identities.
- Ordering and hashing of values as map keys (`operator<=>` on values) and their canonical display text.
