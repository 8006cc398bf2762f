# PopperPad: verified model

PopperPad keeps claims, evidence and bounties in a content-addressed store with a hash-chained
log, and decides everything in a pure functional core. This project models that core in Dafny
and proves what its code promises.

The modules, bottom up:

- `Prelude`: options, identifier and reference syntax, Python's order on strings, stable sorting.
- `CanonicalJson`, `JsonParser`, `ParseFaults`, `Utf8`, `Codec`: canonical integer JSON, its strict
  parser (sections 4 to 7 of RFC 8259) and what it reports, UTF-8, domain framing, and the buffer
  writer.
- `JsonlShell`: the request boundary, a line reader with bounded reads.
- `MarketTypes`, `MarketInvariants`, `Market`: the falsification market, a bounty with any number
  of submissions and challenges, eight commands, and an independent definition of a valid state.
- `MarketRules`, `MarketChanges`, `MarketRefusals`: the rules of the eight commands on their own,
  when each commits, what it changes and what a refusal means, and the entry point held to them.
- `MarketValidity`, `MarketRuns`, `MarketOutcomes`, `MarketMoney`, `MarketConduct`: what every
  step keeps and what whole runs guarantee: validity, payability, conservation of money, progress,
  single use of receipts.
- `MarketErasure`, `FiniteState`, `MarketAdapter`, `MarketRefinement`, `AbstractSteps`: the finite
  single-slot abstraction, the proof that the adapter refines the market, and what each abstract
  step does.
- `Enumerator`, `EnumeratorSearch`: the breadth-first enumeration of the abstraction.
- `TransferPaths`, `TransferSearch`, `TruthStatus`, `Supersedes`: bounded path enumeration,
  derived status, cycle detection.
- `CommitRecords`, `CommitPlans`, `PlanRefusals`, `CommitBindings`, `AuthorityLog`: commit planning and
  validation, what a refusal means, what a record binds, the hash-chained log.
- `Outbox`, `DeliveryJournal`, `OutboxProtocol`, `StaleSnapshots`: at-least-once delivery, as code
  and as a protocol of interleaved steps.
- `PadIndex`, `PopperPad`: the derived index and the facade that keeps store, log and index in step.
- `VerifierReceipts`, `TrustedTruth`, `TruthFaults`: portable receipts, admission of imported truth
  and what its refusals mean.

SHA-256 and Ed25519 are symbolic: a digest is a constructor applied to what is hashed, so digests
do not collide, and a caller's text is the digest of nothing known; a market signature names its
signer and message; imported receipts are checked by an arbitrary predicate and rooted by an
arbitrary function, taken to be collision-free only where a result says so. Lemmas in `Codec` show
that the bytes hashed really determine domain and value. Locks, file replacement and flushing are atomic steps. Python exceptions are results.

Where the code and its documentation differ, the model follows the code and states the difference:

- A zero minimum deposit lets a zero-deposit challenge commit, although the state it leaves is
  invalid, and from then on every command is refused (`MarketValidity.ValidityExact`,
  `MarketOutcomes.ZeroDepositFreezes`).
- Projecting a concretized state gives it back only if no amount is recorded for an empty slot
  (`MarketRefinement.ProjectionExact`).
- The adapter is documented as total, but raises when a profile names a time that is the time of
  none of its five classes, or a truth value for a class, and something is stored at it
  (`MarketRefinement.RaisesExactly`, `MarketRefinement.NeverRaises`).
- A legacy append of a core that already carries a record hash leaves a log that no longer
  verifies (`AuthorityLog.LegacyAppendExact`, `AuthorityLog.LegacyAppendExample`).
- A delivery snapshot reads the log before the journal, so a concurrent commit and delivery can
  make it be refused, harmlessly (`OutboxProtocol.SoundSnapshot`,
  `StaleSnapshots.StaleSnapshotExample`).
- The receipt decoder is documented as exact, but accepts any iterable for a root list
  (`VerifierReceipts.DecoderExact`).

## Model

| member | source | states |
|---|---|---|
| MarketInvariants.MarketStateViolations | src/popperpad/core/market_invariants.py:227-263 | The staged checker returns no violation exactly for valid states, and otherwise exactly the broken codes of the first failing stage |
| MarketInvariants.ValidIffNothingBroken | src/popperpad/core/market_invariants.py:227-523 | The one-predicate definition of a valid state holds exactly when none of the violation codes is broken |
| MarketRefusals.RunMarketCommand | src/popperpad/core/market.py:369-424 | The staged entry point with its looping handlers commits exactly when the state is valid, the command is well made and the rule of its kind holds; it then leaves exactly the state, effects and receipt that rule says; otherwise its code and field name something really wrong |
| MarketRules.CommitsExactly | src/popperpad/core/market.py:369-900 | For each of the eight commands, when it commits, both ways, as arithmetic on terms, policy, entries and command: a resolution, for one, is in time until the later of the end of the challenge window and its own opening plus the resolution time, and a bond must reach the minimum of the terms and that of the policy |
| MarketChanges.ChangesExactly | src/popperpad/core/market.py:427-900 | What each committed command leaves: which entry of which list changes in which fields, every effect with its account, amount, subject and metadata, the failure code, and the receipt |
| MarketRefusals.RefusalsTruthful | src/popperpad/core/market.py:369-900 | Every refusal names, by its code and field, a condition that really fails |
| MarketRules.AdmissionExactly | src/popperpad/core/market.py:1331-1425 | Admission passes exactly on a cited receipt that states exactly what is expected and was issued by the verifier named, whom the terms accept |
| MarketRules.FaultsExactly | src/popperpad/core/market.py:828-845 | The payouts pass exactly when each names a payable submission and its submitter, and none is named twice |
| Market.RunAdvance | src/popperpad/core/market.py:722-814 | The advance loops time out every open challenge, refund every bond once, and decide as specified |
| Market.RunSettle | src/popperpad/core/market.py:817-874 | The settlement loop with its set of seen ids and running total finds the first faulty payout, or the exact total |
| Market.CheckPayouts | src/popperpad/core/market.py:828-845 | The payout loop finds the first faulty payout in order, or the total of all |
| Market.CloseChallenges | src/popperpad/core/market.py:740-758 | Replacing the open challenges one by one times out all of them and slashes each deposit once |
| Market.RefundBonds | src/popperpad/core/market.py:784-798 | The refund loop releases every bond and emits one refund per bond still locked |
| MarketValidity.ValidityExact | src/popperpad/core/market.py:369-900 | A committed command leads to a valid state exactly when it is not a challenge opened with a zero deposit |
| MarketValidity.ValidityInductive | src/popperpad/core/market.py:369-900 | Under a policy with a positive minimum deposit every committed command, of all eight kinds, keeps the state valid |
| MarketOutcomes.ReachableValid | src/popperpad/core/market.py:365-900 | Every state a run reaches under positive-deposit policies is valid |
| MarketOutcomes.ZeroDepositFreezes | src/popperpad/core/market.py:593-593 | After a zero-deposit challenge commits, every later command of any kind is refused: the bounty is stuck |
| MarketOutcomes.ZeroDepositExample | src/popperpad/core/market.py:593-593 | A concrete valid state, policy and command for which that happens |
| MarketValidity.VerifyCommits | src/popperpad/core/market.py:500-559 | A committed verification, in time, found a pending submission and was authorised by an authentic receipt of its own verifier for exactly this state |
| MarketValidity.ResolveCommits | src/popperpad/core/market.py:624-719 | A committed resolution found an open challenge, not past the later of its two deadlines, and was authorised by an authentic receipt of an accepted verifier for exactly this state (the converse is part of MarketRules.CommitsExactly) |
| MarketValidity.EligibleIsExact | src/popperpad/core/market.py:760-764 | The payable list is exactly the verified submissions, each once, in order of arrival and then of id |
| MarketRuns.ReachableSound | src/popperpad/core/market.py:365-900 | In every reachable state open challenges target verified submissions, upheld ones rejected submissions, and from payable on the payable list is exactly the verified submissions in order |
| MarketOutcomes.UpheldNeverPaid | src/popperpad/core/market.py:624-874 | A submission with an upheld challenge is rejected, is not payable, and no payout of the whole run ever names it |
| MarketOutcomes.SettlementPaysEligible | src/popperpad/core/market.py:817-874 | A settlement pays distinct eligible submissions to their submitters and sums to the escrow |
| MarketOutcomes.OnlySettlementPays | src/popperpad/core/market.py:427-900 | Only settlement emits payouts |
| MarketOutcomes.PaidStayVerified | src/popperpad/core/market.py:427-900 | Everything ever paid along a run is still verified at its end |
| MarketOutcomes.RunMonotone | src/popperpad/core/market.py:722-900 | Along a run the phase rank never falls and processed ids only accumulate |
| MarketOutcomes.TerminalAbsorbs | src/popperpad/core/market.py:722-900 | No command commits in a terminal phase |
| MarketOutcomes.RunEvolves | src/popperpad/core/market.py:453-719 | Along a run no submission disappears, changes owner or leaves rejection, and none is pending again once judged |
| MarketOutcomes.CitedReceiptNamesState | src/popperpad/core/market.py:1186-1425 | A receipt that justified a committed verification or resolution is authentic, from an accepted verifier, and names the exact pre-state |
| MarketOutcomes.CommittedOnce | src/popperpad/core/market.py:1574-1625 | Two commits of a run differ in command id, in pre-state and in cited receipt, and each adds exactly one processed id, so a receipt is used at most once |
| MarketOutcomes.AdvanceCommits | src/popperpad/core/market.py:722-814 | From every valid open state an advance with a fresh id after the horizon commits, to payable or to expired according to whether a submission is verified |
| MarketOutcomes.SettleCommits | src/popperpad/core/market.py:817-874 | From every valid payable state some settlement commits |
| MarketOutcomes.TwoCommandsToEnd | src/popperpad/core/market.py:722-874 | A terminal phase is at most two commands away from every valid open state |
| MarketMoney.StepBalanced | src/popperpad/core/market.py:427-900 | Each committed step balances every holding: before plus locked equals after plus released |
| MarketMoney.RunBalanced | src/popperpad/core/market.py:365-900 | Over every run the escrow, each bond and each deposit equal what was locked minus what was released |
| MarketMoney.TerminalReleasesEverything | src/popperpad/core/market.py:817-900 | In every terminal state a run reaches, what was ever locked for the bounty, for each submission and for each challenge has been released exactly |
| MarketConduct.EffectsReachOwners | src/popperpad/core/market.py:427-900 | Every effect of every committed command names the account it belongs to: sponsor, submitter, challenger or treasury |
| MarketConduct.CommitsInWindow | src/popperpad/core/market.py:427-900 | Each kind of command commits only inside its time window, given in the seconds of terms, policy and challenge, and only with the standing it needs |
| MarketConduct.ReachableAdmissible | src/popperpad/core/market.py:453-621 | Every submission and challenge of a reachable state entered in time, with evidence, under accepted recipes and verifiers, and a funded bounty holds at least its reward |
| MarketErasure.ReceiptsUnobservable | src/popperpad/core/market.py:369-900 | Forget all stored receipt references and reissue the cited receipt: kind, code, effects and successor stay the same up to those references |
| MarketErasure.ValidErased | src/popperpad/core/market_invariants.py:227-523 | Validity does not depend on which receipt references are stored |
| FiniteState.SetBit | src/popperpad/refinement/finite_state.py:244-258 | Marking a command processed sets its bit and no other |
| FiniteState.SlotBitPlace | src/popperpad/refinement/finite_state.py:241-242 | The bit of each command kind is the one of its place among the slots |
| FiniteState.MaskExtensional | src/popperpad/refinement/finite_state.py:207-239 | Eight bits determine the processed mask |
| FiniteState.ProjectMask | src/popperpad/refinement/market_adapter.py:289-295 | The projection loop sets exactly the bits of slots whose command id has been processed |
| MarketAdapter.EpochClass | src/popperpad/refinement/market_adapter.py:217-224 | The class found for a time stands for it; none is found only if none does |
| MarketRefinement.StepStaysInSlot | src/popperpad/refinement/market_adapter.py:391-441 | A profile command keeps a state within one slot of the profile, amounts within bounds |
| MarketRefinement.ConcretizeProjected | src/popperpad/refinement/market_adapter.py:232-384 | Concretizing the projection of a slot state gives that state back, receipt references aside |
| MarketRefinement.AdapterSimulates | src/popperpad/refinement/market_adapter.py:797-900 | On the projection of a real state the adapter answers as the market does on the real state: same refusal, or same kind, code, effects and projected successor (what that is on abstract states: AbstractSteps.StepExactly) |
| MarketRefinement.RunRefines | src/popperpad/refinement/market_adapter.py:655-900 | Along every run the adapter state is the projection of a state the market reaches, and its next answer is the answer of the market (what each step does on abstract states: AbstractSteps.StepExactly) |
| AbstractSteps.StepExactly | src/popperpad/refinement/market_adapter.py:797-900 | On abstract states alone: a step is refused, or a transition, exactly when its kind is due, and for each kind and verdict what the transition does to phase, statuses, amounts, classes and bits, with which failure code and effects; it raises exactly when it would store a time of no class |
| AbstractSteps.UnambiguousReads | src/popperpad/refinement/market_adapter.py:232-295 | With an id per kind and a time per class, the answer is the expected state with the bit of the command set and no amount for an empty slot |
| AbstractSteps.IssuedIsDue | src/popperpad/refinement/market_adapter.py:444-481 | The receipt issued for a step states the own verdict of the step about the entry of the slot, as the step needs |
| AbstractSteps.InputExactly | src/popperpad/refinement/market_adapter.py:655-794 | A request is turned away exactly when something is wrong with it, and the code names such a thing; checking a state answers whether the state it stands for is valid |
| AbstractSteps.ConcretePictures | src/popperpad/refinement/market_adapter.py:303-384 | The concrete state shows the phase, escrow, slot entries with their statuses, amounts and times, payable id, settlement and done ids of the abstract state |
| AbstractSteps.FirstExactly | src/popperpad/refinement/market_adapter.py:217-224 | The class of a time is the first, in the fixed order of their names, whose time it is |
| MarketRefinement.ProjectionExact | src/popperpad/refinement/market_adapter.py:232-384 | Projection undoes concretization of a valid state exactly when no bond is recorded without a submission and no deposit without a challenge |
| MarketRefinement.OrphanBondExample | src/popperpad/refinement/finite_state.py:184-239 | A consistent, bounded abstract state whose concretization is valid and projects to a different abstract state |
| MarketRefinement.RaisesExactly | src/popperpad/refinement/market_adapter.py:797-900 | Past its input checks the adapter raises exactly when a submission or challenge commits at a time that no class stands for, also when the time of a class is given as a truth value |
| MarketRefinement.NeverRaises | src/popperpad/refinement/market_adapter.py:655-900 | If every time the profile names is the time of some class, no request makes the adapter raise |
| MarketRefinement.RaisesExample | src/popperpad/refinement/market_adapter.py:827-858 | Two profiles and requests for which it raises: a sixth named time, and a truth value for a class |
| Enumerator.CasesComplete | src/popperpad/refinement/enumerator.py:112-123 | The ten variants at the five times are all well-formed steps |
| Enumerator.ReachableAnswers | src/popperpad/refinement/enumerator.py:157-214 | From a reachable state every case gets an accept, a committed failure or a refusal, never an input error or an exception, and never a complaint about the evidence issued for it |
| Enumerator.ClosedHoldsRun | src/popperpad/refinement/enumerator.py:132-228 | A set that holds the initial state and is closed under every step holds every run |
| EnumeratorSearch.TallyExact | src/popperpad/refinement/enumerator.py:197-214 | The three counters add up to the cases, and each reason counter to its refusals |
| EnumeratorSearch.TallyCounts | src/popperpad/refinement/enumerator.py:197-214 | Each of the three counters is the number of its own answers: accepts, committed failures, refusals |
| EnumeratorSearch.ExpandState | src/popperpad/refinement/enumerator.py:136-225 | The two inner loops answer all fifty cases of a state in order, or stop on a full budget |
| EnumeratorSearch.EnumerateAllTransitions | src/popperpad/refinement/enumerator.py:84-248 | Terminates; is complete exactly when the budget covers some set of all reachable states, and then visits exactly those, each expanded on every case; the counters always add up |
| TransferPaths.BuildAdjacency | src/popperpad/core/graph.py:273-280 | The adjacency lists exactly the hops the edges allow, equivalences both ways, each list in order |
| TransferPaths.OpenEdgeObligations | src/popperpad/core/graph.py:329-343 | Collects the unsatisfied obligations of an edge in order |
| TransferPaths.OpenPathObligations | src/popperpad/core/graph.py:317-326 | Concatenates the open obligations of the edges of a path |
| TransferPaths.OpenPathEmpty | src/popperpad/core/graph.py:317-343 | A path has nothing open exactly when none of its edges has |
| TransferPaths.SatisfiedExactly | src/popperpad/core/graph.py:346-358 | An obligation is satisfied exactly when the last evidence record of some cited ref has its recipe and a passing status, in any case |
| TransferPaths.OpenExactly | src/popperpad/core/graph.py:329-343 | An edge has open exactly the obligations nothing satisfies |
| TransferSearch.FindTransferPaths | src/popperpad/core/graph.py:259-314 | Terminates and returns exactly the node-simple paths within the depth, sorted, each with its open obligations, and without repetition when edge refs are unique |
| TransferSearch.Extends | src/popperpad/core/graph.py:299-312 | Replacing a partial path by its usable one-hop extensions loses no path and makes no duplicate |
| TransferSearch.WeightDrops | src/popperpad/core/graph.py:284-312 | A partial path outweighs all its extensions together, so the worklist empties |
| TransferSearch.ValidatedIsFilter | src/popperpad/core/graph.py:259-314 | Requiring validation returns exactly the paths with nothing open of the unrestricted answer, in the same order |
| TruthStatus.DeriveStatus | src/popperpad/core/graph.py:186-216 | The status loop lists exactly the supporting and the refuting edges, each in order of ref, and the verdict says which kinds there are, all told by the snapshot alone |
| TruthStatus.VerdictExact | src/popperpad/core/graph.py:186-256 | The verdict says exactly whether some edge supports and whether some edge refutes |
| TruthStatus.CountsExactly | src/popperpad/core/graph.py:219-246 | An edge counts exactly when it points at the hypothesis in the context asked for and cites evidence whose last record is about the hypothesis, in the context of the edge, passed, and was made by an accepted recipe whose last record says support, or refute for a refuting edge |
| TruthStatus.OrderIrrelevant | src/popperpad/core/graph.py:186-216 | With distinct edge refs the supporting and refuting lists do not depend on the order of the edges |
| TruthStatus.VerdictRises | src/popperpad/core/graph.py:186-256 | More edges never lower a verdict |
| Supersedes.SupersedesGraph | src/popperpad/doctor.py:312-322 | The graph has an edge exactly where a well-formed supersedes edge is logged |
| Supersedes.Search.Dfs | src/popperpad/doctor.py:330-343 | The recursive search returns a cycle, or finishes the node with the branch restored and the finish order kept |
| Supersedes.FindCycle | src/popperpad/doctor.py:325-351 | Terminates; what it returns is a cycle of graph edges that repeats no inner node, and none means no closed walk exists |
| Supersedes.CycleFound | src/popperpad/doctor.py:354-358 | The branch from a node reached again, closed with that node, is a cycle |
| JsonlShell.RunShell | src/popperpad/shells/data_adapter_jsonl.py:486-512 | Emits exactly one response per LF-delimited record of the whole stream, each determined by its record alone, wherever reads stop |
| JsonlShell.HashOversized | src/popperpad/shells/data_adapter_jsonl.py:455-483 | Draining an oversized record hashes exactly its stripped payload and stops at its end, with CR and LF split across reads in any way |
| JsonlShell.RefusedExactly | src/popperpad/shells/data_adapter_jsonl.py:446-512 | A record is refused for its size exactly when its stripped payload exceeds the limit; the committed hash is that of the stripped payload |
| JsonlShell.AcceptedExactly | src/popperpad/shells/data_adapter_jsonl.py:184-246 | A record is accepted at the boundary exactly when its payload is within the limit and is the canonical encoding of the JSON object handed on |
| JsonlShell.RecordsSplit | src/popperpad/shells/data_adapter_jsonl.py:486-512 | The records joined give the stream back; each holds no LF but its last byte, and all but the last end in one |
| JsonlShell.StripDelimiter | src/popperpad/shells/data_adapter_jsonl.py:446-452 | The payload is the record without its LF and the CR before it, if any |
| JsonParser.PrintThenParse | src/popperpad/shells/data_adapter_jsonl.py:104-173 | Parsing undoes printing on canonical integer-only values |
| JsonParser.AcceptsExactlyPrinted | src/popperpad/shells/data_adapter_jsonl.py:104-173 | The strict parser accepts a text exactly when the printer writes it for some canonical value, and returns that value |
| ParseFaults.AnswersPrinted | src/popperpad/shells/data_adapter_jsonl.py:104-173 | To any printed value the parser answers its first fault in reading order, a float or a repeated key; with none, the value exactly if its keys are in order, and otherwise that it is not canonical |
| ParseFaults.CodesHonest | src/popperpad/shells/data_adapter_jsonl.py:81-173 | For every text: no float is reported where there is no point, exponent or constant, and no repeated key where there is no object |
| JsonParser.PrintInjective | src/popperpad/core/codec.py:14-31 | No two canonical values print alike |
| JsonParser.EscapeShortest | src/popperpad/core/codec.py:22-30 | Inside a literal each character is written in its shortest form, hexadecimal in lower case |
| JsonParser.FrozenIsCanonical | src/popperpad/core/values.py:198-225 | Whatever freezes has sorted distinct keys throughout and no float |
| JsonParser.FreezeCanonical | src/popperpad/core/values.py:198-225 | Freezing leaves a canonical value alone |
| Utf8.DecodeEncoded | src/popperpad/shells/data_adapter_jsonl.py:115-121 | Decoding UTF-8 undoes encoding |
| Utf8.EncodeDecoded | src/popperpad/shells/data_adapter_jsonl.py:115-121 | Whatever decodes is the encoding of the result: no overlong form, no surrogate |
| Codec.BytesIdentify | src/popperpad/core/codec.py:14-31 | Two values have the same canonical bytes exactly when they freeze to the same value |
| Codec.BoundaryAcceptsExactly | src/popperpad/shells/data_adapter_jsonl.py:104-173 | The boundary accepts exactly the UTF-8 bytes of canonical values |
| Codec.FrameInjective | src/popperpad/core/codec.py:38-48 | A frame determines its domain and its data |
| Codec.FrameLayout | src/popperpad/core/codec.py:38-48 | The frame is a fixed prefix, the length of the domain in two bytes, the domain and the data; there is none for an empty, zero-bearing or over-long domain |
| Codec.HashInputInjective | src/popperpad/core/codec.py:38-58 | Equal hash inputs mean equal domains and equal canonical values |
| Codec.TextBuffer.WriteValue | rust/popperpad-core/src/lib.rs:67-117 | The recursive buffer writer appends exactly the canonical text of a value, keys sorted, and fails exactly on floats |
| Codec.TextBuffer.WriteFields | rust/popperpad-core/src/lib.rs:98-114 | The object loop sorts the keys and appends the members separated by commas |
| CommitRecords.DeriveCommitRecord | src/popperpad/core/commit.py:236-352 | The derivation loop computes the effects and the record as specified |
| CommitRecords.ValidRecordBinds | src/popperpad/core/commit.py:412-515 | A valid record's hash is that of its own core, and its receipt and effect ids bind its predecessor and their index |
| CommitBindings.ValidExactly | src/popperpad/core/commit.py:412-515 | A record is valid exactly when its rows are in order and each digest is that of exactly the fields it commits to, told field by field |
| CommitBindings.CommandDeterminesRecord | src/popperpad/core/commit.py:236-352 | Two valid records with equal command hashes are equal: head, time, evidence root, objects, blobs, effects and versions |
| CommitRecords.PlannedIsValid | src/popperpad/core/commit.py:518-708 | Every planned bundle passes the bundle validator, for the head asked for and with the effects given |
| CommitPlans.PlannedExactly | src/popperpad/core/commit.py:615-708 | A plan exists exactly when roots are well formed, everything is named and typed, every object and effect is committable, and no two payloads are the same bytes |
| CommitPlans.PlannedContents | src/popperpad/core/commit.py:615-708 | A plan writes the prevalidated objects, the canonical lines of the ordinary ones and the blobs, in order, each under its own hash |
| PlanRefusals.RefusalsTruthful | src/popperpad/core/commit.py:615-708 | Every refusal of the planner names, by its code, something wrong with the input; it raises only for an empty version |
| CommitRecords.RunPlanCommit | src/popperpad/core/commit.py:615-708 | The planner with its loops and its set of seen refs computes the plan the lemmas are about, including which code a rejection carries |
| AuthorityLog.VerifyRecords | src/popperpad/log.py:257-288 | The verification loop accepts exactly the logs in which every record follows the head before it and recomputes its own hash |
| AuthorityLog.Log.Append | src/popperpad/log.py:156-173 | Appends after the old records or changes nothing; the log still verifies exactly when the caller's core carried no hash of its own |
| AuthorityLog.LegacyAppendExact | src/popperpad/log.py:156-173 | An appended legacy record verifies exactly when its core carried no record hash |
| AuthorityLog.LegacyAppendExample | src/popperpad/log.py:156-173 | A concrete core with its own hash that is appended and no longer verifies |
| AuthorityLog.Log.AppendPrepared | src/popperpad/log.py:175-194 | Publishes exactly when the bundle is valid, made for the expected head, and that is still the head of a log that verifies; keeps the old records as a prefix, verification, and moves the head; a stale head changes nothing |
| AuthorityLog.HeadDeterminesLog | src/popperpad/log.py:257-288 | Two verified logs with the same head are equal record for record |
| AuthorityLog.HashesDistinct | src/popperpad/log.py:257-288 | Record hashes of a verified log are pairwise distinct |
| AuthorityLog.EffectIdsDistinct | src/popperpad/core/commit.py:290-311 | Effect ids of a verified log are pairwise distinct, within and across records |
| AuthorityLog.BundleAnnouncesItsRows | src/popperpad/core/commit.py:144-174 | A valid bundle announces exactly the rows its stored record projects to, each with the scope its policy version gives |
| AuthorityLog.ScopeExactly | src/popperpad/core/commit.py:18-27 | The scope is quarantine exactly for import policies that are not under trusted receipts |
| Outbox.PendingOutbox | src/popperpad/core/outbox.py:141-182 | Returns exactly the distinct effects no acknowledgement names, sorted by id, or the first fault of the snapshot |
| Outbox.PendingUnique | src/popperpad/core/outbox.py:141-182 | The pending list is determined by effects and acknowledgements, under any order of ids that tells them apart |
| Outbox.VerifiedEffects | src/popperpad/outbox.py:214-239 | The committed effects of a verified log are well formed and have distinct ids, so they never conflict |
| DeliveryJournal.VerifyAckChain | src/popperpad/core/outbox.py:230-248 | The chain loop accepts exactly the linear, correctly hashed, conflict-free journals, and otherwise names the first fault |
| DeliveryJournal.OneAckPerEffect | src/popperpad/core/outbox.py:230-248 | A journal that verifies acknowledges each effect at most once |
| DeliveryJournal.Journal.AppendIdempotent | src/popperpad/outbox.py:164-198 | Appends one chained acknowledgement, or returns the one the effect already has; succeeds exactly when the delivery can be recorded |
| DeliveryJournal.Deliverer.PendingNow | src/popperpad/outbox.py:241-251 | The pending effects of the current log and journal, refused exactly when one of them does not verify or the snapshot has a fault |
| DeliveryJournal.Deliverer.AttemptOne | src/popperpad/outbox.py:264-296 | One attempt appends the acknowledgement of the delivery and reports its hash exactly when the delivery succeeds, and otherwise leaves the journal alone |
| DeliveryJournal.Deliverer.DeliverPending | src/popperpad/outbox.py:253-297 | Attempts each pending effect once in order, and reports it delivered exactly when its handler exists, names itself, and returned an object at a non-empty time; the journal gains exactly the acknowledgements of the delivered ones, in that order, each with its handler, time, receipt and predecessor |
| OutboxProtocol.StepSound | src/popperpad/outbox.py:164-297 | Every step of every participant keeps log, journal and deliverers consistent, and nothing recorded is taken back |
| OutboxProtocol.RunSound | src/popperpad/outbox.py:164-297 | Whatever the interleaving of commits, deliverers, failures and crashes, that holds |
| OutboxProtocol.CommittedIsPendingOrAcknowledged | src/popperpad/outbox.py:164-297 | At every moment of every run the snapshot is sound and yields exactly one pending list, whose ids and the acknowledged ids are disjoint and together are the committed ids; every acknowledgement names one committed effect, alone, and follows a call of its handler |
| OutboxProtocol.SoundSnapshot | src/popperpad/outbox.py:241-251 | A snapshot that read the log before the journal is refused exactly when an effect acknowledged in between was not yet in the log it read |
| StaleSnapshots.StaleSnapshotExample | src/popperpad/outbox.py:241-251 | A run after which a deliverer that read the log early can take no snapshot, although the present one is sound |
| PadIndex.Index.OnRecord | src/popperpad/index.py:30-44 | One more record keeps every table and cache equal to a scan of all records seen |
| PadIndex.Index.RebuildFromLog | src/popperpad/index.py:46-52 | A rebuild equals a scan of the records given |
| PadIndex.Index.RefsBySchema | src/popperpad/index.py:54-55 | Answers what a fresh scan would |
| PadIndex.Index.EdgesByTarget | src/popperpad/index.py:57-60 | Answers what a fresh scan would, cached or not; edges logged only in quarantine are absent |
| PadIndex.Index.SemanticAdjacency | src/popperpad/index.py:62-65 | Lists each hop exactly as often as a fresh scan would, cached or not |
| PadIndex.BuildEdgeTargets | src/popperpad/index.py:67-76 | The built cache lists exactly the edges that point at each target |
| PadIndex.BuildSemanticAdjacency | src/popperpad/index.py:78-92 | The built cache lists each hop as often as the edges do, equivalences both ways |
| PadIndex.ScanExactly | src/popperpad/index.py:30-92 | Told by the log records alone: an object is indexed exactly when a record logged it, and an edge gives edges and hops exactly when a record that is not in quarantine logged it as an edge |
| PopperPad.Pad.StageCommitPayloads | src/popperpad/pad.py:172-178 | Stores the payloads under their own hashes and succeeds exactly when each hashes to its planned ref |
| PopperPad.Pad.PublishCommit | src/popperpad/pad.py:152-170 | Publishes exactly valid bundles for the current head; afterwards the log verifies, everything it names can be fetched, and a built index has seen exactly its logical records |
| PopperPad.Pad.CommitValues | src/popperpad/pad.py:73-111 | Commits exactly when every object passes the schema validator and the planner can plan on the current head, and appends exactly the planned record |
| PopperPad.Pad.PutLegacyObject | src/popperpad/pad.py:186-201 | Validates first, then keeps store, log and index in step for first-generation records |
| PopperPad.Pad.EdgesAt | src/popperpad/pad.py:221-240 | The edges a status query considers are exactly those some log record outside quarantine logged as edges and whose bytes in the store of the pad point at the target |
| PopperPad.Pad.Hops | src/popperpad/pad.py:278-292 | The hops of a path query are exactly those of the semantic edges some log record outside quarantine logged, each as often as its stored bytes say |
| VerifierReceipts.ReceiptRoundTrip | src/popperpad/core/verifier_receipts.py:273-339 | Storing and decoding a valid receipt gives it back |
| VerifierReceipts.DecoderExact | src/popperpad/core/verifier_receipts.py:281-339 | The decoder accepts exactly the objects of valid receipts, except that the two root lists may be anything that reads as the same tuple |
| VerifierReceipts.LooseExample | src/popperpad/core/verifier_receipts.py:316-320 | An object whose empty root list is an empty string decodes too |
| TrustedTruth.AdmitTrustedTruth | src/popperpad/adapters/import_receipts.py:150-259 | Under trusted receipts, with a collision-free receipt root, admission succeeds exactly on a perfect matching, told by bundle and policy alone: every receipt object decodes, is signed by the trusted key of its signer and keeps to the bundle; every pair of a truth-bearing edge and its evidence is corroborated field by field by the one receipt about it; none is left over; what is admitted are exactly the roots; quarantine admits nothing |
| TrustedTruth.PerfectExactly | src/popperpad/adapters/import_receipts.py:150-259 | The matching the loops look for is that perfect one |
| TrustedTruth.CheckExactly | src/popperpad/adapters/import_receipts.py:40-69 | A receipt object passes exactly when it decodes to a receipt whose signature the trusted key of its signer, of several the last, verifies, and that names only refs of the bundle |
| TrustedTruth.BindingExactly | src/popperpad/adapters/import_receipts.py:72-147 | A receipt agrees with the binding of a pair exactly when type, target, context, subjects, recipe and outputs say the same |
| TruthFaults.RefusalsTruthful | src/popperpad/adapters/import_receipts.py:40-249 | Every refusal about a receipt or a pair names, by its code, something that is really wrong |
| TrustedTruth.MatchingIsInjective | src/popperpad/adapters/import_receipts.py:212-249 | No receipt serves two pairs |
| TrustedTruth.MatchedRootsDistinct | src/popperpad/adapters/import_receipts.py:251-256 | A perfect matching has distinct roots when roots do not collide, so the final count cannot refuse it |
| TrustedTruth.MatchedExactly | src/popperpad/adapters/import_receipts.py:251-259 | When all pairs are covered, the matching is perfect exactly when every receipt object was used |
| TrustedTruth.MatchPair | src/popperpad/adapters/import_receipts.py:220-249 | A pair is matched by the one receipt about it, or shown to have none |

## Left out

- Text of rejection reasons, violation details and field paths: only codes and fields are modelled.
- The documented rejection precedence of the market (src/popperpad/core/market.py:347-362): the code does not keep it across handlers.
- EnumeratorSearch.EnumerateAllTransitions: requires a profile with all command ids and all non-negative class times, because the source raises on the first missing one.
- MarketRefinement.RunRefines: stated for such profiles and for receipts issued for each pre-state, which is how the enumerator drives the adapter.
- MarketRefinement.ProjectionExact: requires distinct command ids and class times, without which a projected class or bit cannot be told from another.
- MarketRefusals.RunMarketCommand: when several things are wrong, the contract does not say which is named; runtime type checks on states, policies, commands and evidence, which Dafny's types already give.
- Profile parsing, negative profile amounts (no abstract state is within such bounds) and JSON shapes of adapter requests and responses.
- JsonlShell.AcceptedExactly: stops at the parsed object; building the typed request from it is a list of shallow checks.
- JsonParser.AcceptsExactlyPrinted: an escape that names half a surrogate pair is refused at once, so a repeated key or a float after it is not reported instead; the recursion and digit limits of the Python interpreter are not modelled.
- Codec.TextBuffer.WriteValue: requires objects that repeat no key, as the Rust map type guarantees.
- AuthorityLog.Log.Append: the head is the hash of the last record; the backward reader of the last line (src/popperpad/log.py:43-67), which can return only a suffix of a line longer than 4095 bytes, is not modelled. A legacy record carries the fields an index reads, and its other keys unread.
- CommitRecords.ValidRecordBinds: records with missing or unknown keys are not representable, so their refusal is not stated.
- Floats in first-generation objects: their payload is opaque bytes.
- PopperPad.Pad.PublishCommit: appends made by another process are not announced to this pad's index, so the index statement covers appends made through the pad; a status query still reads evidence from the store whatever its scope.
- PopperPad.Pad.EdgesAt: how bytes read as an edge is a parameter; bytes logged as an edge that do not read as one make the source raise, and are skipped here.
- PopperPad.Pad.CommitValues: the schema validator is a parameter. PopperPad.Pad.PutLegacyObject takes the bytes and the schema text of its object, which the source computes from it.
- PadIndex.Index.SemanticAdjacency: the source hands out its cached dictionary itself; a caller that changes it changes the cache. The model returns a value.
- Outbox.PendingOutbox: the order of digests as text is a parameter, any linear order.
- TrustedTruth.AdmitTrustedTruth: returns the set of roots the source sorts; imported objects come parsed, and only the fields admission reads are kept.
- Schema validators, recipe parsing, subprocess execution, command line, terminal interface, and the IPFS, EVM and Tau adapters: input and output, or long but shallow lists of checks.
