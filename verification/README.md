# Osanwë: a verified model of its protocols

This Dafny project models the parts of the Osanwë repository whose guarantees span several files, and proves what they promise
over all inputs and all runs. `dafny verify dfyconfig.toml` checks everything; there is nothing to run.

1. **Redemption journal** (`JournalFormat`, `RedemptionStores`, `RedemptionRuns`, `RedemptionAnswers`, `JournalIdentity`). The byte format, the two
   redemption stores as classes, and any number of processes sharing one file, with appends that stop after any number of bytes.
   Every answer of every interleaving is the answer of one in-memory set; opens pin one journal for ever.
2. **M-of-N directory** (`Text`, `Library`, `Descriptors`, `DescriptorPrinting`, `Consensuses`, `ConsensusLaws`, `ConsensusRoundTrip`,
   `Workflow`, `Merge`, `CoSigning`, `SigningGuard`, `Agreement`, `Publisher`). Printers and parsers that undo each other, deterministic epochs,
   co-signing, merging as a function of the set of parts, the crash-safe vote lock, and agreement between clients by quorum
   intersection.
3. **Paid requests** (`Cost`, `Budget`, `BudgetRuns`, `Gateway`, `GatewayAnswers`, `Wallets`, `Bearer`). 128-bit ceiling arithmetic, windowed budgets
   with release, the gateway's token path as code and as interleaved steps, and bearer, wallet and gateway as one system.
4. **Receipts and invites** (`Receipts`, `Invites`, `InviteGenerator`, `GenerationOutcome`, `InviteAuthorizers`, `InviteWallets`,
   `InviteAgreement`, `InviteRuns`). One-shot claims, epoch partitions, the agreement of generator, wallet and mint, and all the wallets of a program
   with the mint's receipt store through any crashes.
5. **Text to the browser and history** (`EventStreams`, `Translation`, `TranslationReports`, `Lifecycle`). The incremental event-stream parser, the stream
   translator, what the browser reads, and the asynchronous write queue as a refinement of a synchronous store.

Code that changes state step by step is a class or a loop here too, and its `ensures` ties the new state to a specification
function; the laws are then proved about those functions and about runs of them. Where a run is made of finer steps than one call,
a lemma shows that the steps of an undisturbed call end as the call does (`Agreement.SigningAloneIsTheCode`, `Gateway.ServeIsARun`).
Beside the safety laws each main operation has a law that says exactly when it succeeds and with what, in terms of its inputs
and not of its own specification function (`JournalAnswers`, `QuorumIsAccepted`, `VotesExactlyWhen`, `EarnedIsServed`, `GrantedIff`,
`RebuildSucceedsIff`, `VoucherVerdict`, `TranslationIs` and their like).

## Assumptions

Cryptography and library routines are function-valued fields of `Library`, `Format`, `Crypto` and `Codec`, with the laws assumed of
them in a `Sound` predicate or in a lemma's `requires`:

- SHA-256 does not collide on the tokens, bodies or receipts of the run at hand; CRC-32 is used only through equality.
- Ed25519 signatures of a guarded authority on a document are made only inside its signing guard (`Agreement.Unforged`).
- A signing key's signatures have 64 bytes and check under its public half (`Library.Library.KeyPair`).
- Base64, decimal numbers and RFC 3339 times read back as what was printed, and print as single words.
- JSON encoding of an event has no raw line end and reads back as that event.
- A dial or name-resolution error is reported only when the provider was not reached (`Gateway.HonestTransport`).
- New tokens are new, nobody else presents a wallet's tokens, and a request the gateway received was seen as written by the bearer
  when it finished (`Bearer.Fair`). The last one is what `WroteRequest` is for in `internal/bearer/bearer.go`.
- The premises about the transport are needed: `Gateway.LyingTransportSellsTwice` and `Bearer.UnseenWriteBringsBackSpentToken` show
  what goes wrong without them.
- A text is a sequence of characters, one per byte where bytes matter; white space is that of ASCII.

## Where the code does not keep its word

- **Daily invite books.** `GenerateInviteBooks` writes every book with schema version 1, also when the program has epochs
  (`internal/mint/invites.go:299-308`), and `parseInviteBook` refuses epoch fields in such a book
  (`internal/mint/invite_wallet.go:445-450`). So a generated book is accepted by its mint's wallets exactly when the program
  has no epochs (`InviteAgreement.BookAcceptedIff`, with `DailyBookRefused` as the concrete case). Agreement of slots and
  windows is proved for the book that carries the manifest's own schema version, which for a program without epochs is the
  generated book.
- **Budget ceilings.** The comment at `internal/gateway/budget.go:162-164` says that the provider limit cannot be exceeded. `Reserve`
  reads its clock before its transaction and any change of window zeroes the counters. A granted reservation keeps conservation
  exactly when nothing was granted before it or its window is not earlier than the stored one
  (`BudgetRuns.ChargeConservesIff`). One that commits too late makes the budget forget the window it displaces, so that whatever an
  empty budget would grant is granted again on top of it (`DisplacedWindowIsForgotten`, `FullWindowIsPassed`; a smallest run is
  `OutOfOrderOvercharges`). In window order no window ever passes a limit (`BudgetHolds`).
- **Event streams.** The parser follows sections 9.2.5 and 9.2.6 of the WHATWG HTML standard except that a carriage return alone is
  no line end and that `finish` flushes an unterminated block; the model follows the code.
- **First listing.** An answer is always the earliest window that can hold the descriptor. A refusal is right exactly when two tries
  suffice: the first window that does not begin too early for the descriptor's date is the current one or the next, or it ends after
  the descriptor expires (`Publisher.FirstListing`). A descriptor not dated more than five minutes ahead is always answered for
  exactly (`NotDatedAheadSuffices`); one dated further ahead can be turned away although a later window could list it
  (`DatedAheadIsTurnedAway`), before the store gets to judge its date.

One remark on an interface rather than on behaviour: the in-memory redemption store keys its entries by text, and is exact over a set
of key ids just when none of them is another followed by a bar and more (`RedemptionRuns.SpentSetExactIff`). Key ids made by the mint
never hold a bar, so tokens that were parsed and verified cannot meet this.

## Model

| member | source | states |
|---|---|---|
| JournalFormat.Format.RefreshIsReplay | internal/mint/spentfile.go:609-661 | refreshing from any earlier record boundary gives the same map, or the same failure, as replaying the file from the start |
| JournalFormat.Format.EncodeDecodes | internal/mint/spentfile.go:663-708 | every record that is appended decodes to the update its caller makes in memory |
| JournalFormat.Format.AppendIsUpdate | internal/mint/spentfile.go:692-726 | appending a record to a journal that replays is exactly its update of the replayed map |
| JournalFormat.Format.ReplayConcat | internal/mint/spentfile.go:609-661 | reading two runs of records one after the other is reading their concatenation |
| JournalFormat.Format.TornRecordRefused | internal/mint/spentfile.go:622-652 | a proper non-empty prefix of a record is refused whatever was read before |
| JournalFormat.Format.TornFileRefused | internal/mint/spentfile.go:609-661 | a journal that ends in part of a record is refused as a whole |
| JournalFormat.Format.JournalIsItsRecords | internal/mint/spentfile.go:609-690 | a file means something exactly when it is the header and whole records as they are written, checksums and operations included, and it then means their updates in order |
| RedemptionStores.FileSpentSet.Spend | internal/mint/spentfile.go:366-409 | file, store and answer after a locked spend, for every way the append can end |
| RedemptionStores.FileSpentSet.Refund | internal/mint/spentfile.go:411-454 | the same for a refund |
| RedemptionStores.FileSpentSet.Retire | internal/mint/spentfile.go:456-507 | the same for retiring a key, with the count of tokens it releases |
| RedemptionStores.FileSpentSet.RefreshLocked | internal/mint/spentfile.go:609-661 | the in-place reading loop computes the specified refresh, and says so exactly when it succeeds |
| RedemptionStores.FileSpentSet.ReadRecord | internal/mint/spentfile.go:625-653 | one framed record is read exactly when length and checksum allow |
| RedemptionStores.FileSpentSet.ApplyRecord | internal/mint/spentfile.go:663-690 | a payload changes the map as specified or is refused |
| RedemptionStores.FileSpentSet.AppendRecordLocked | internal/mint/spentfile.go:692-726 | a failed append leaves some prefix of the record behind, a successful one all of it |
| RedemptionStores.FileSpentSet.CountUnder | internal/mint/spentfile.go:478-483 | counts exactly the tokens of one key |
| RedemptionStores.SpentSet.Spend | internal/mint/mint.go:161-181 | the in-memory spend |
| RedemptionStores.SpentSet.Retire | internal/mint/mint.go:206-217 | the in-memory retirement deletes exactly the keys with that prefix and counts them |
| RedemptionRuns.JournalIsIdeal | internal/mint/spentfile.go:366-507 | on a whole journal every operation answers, and records, what an ideal set of token identities would |
| RedemptionRuns.SpentSetIsIdeal | internal/mint/mint.go:161-217 | over key ids none of which is another followed by a bar, the in-memory store is the ideal set, counts included |
| RedemptionRuns.KeysCollideIff | internal/mint/mint.go:161-170 | two key ids have a textual key in common exactly when one is the other followed by a bar and more |
| RedemptionRuns.SpentSetExactIff | internal/mint/mint.go:161-217 | the in-memory store is exact for every state and operation over some key ids exactly when those are separable |
| RedemptionRuns.Confusion | internal/mint/mint.go:161-181 | for any other pair, a spent token of one key id that blocks a token of the other |
| RedemptionRuns.StepModels | internal/mint/spentfile.go:366-507 | one event of one process keeps the journal a model of the ideal set and answers as it would |
| RedemptionRuns.RunsRefineSpentSet | internal/mint/spentfile.go:366-507 | any interleaving of any number of processes answers as one run of the in-memory store on the operations that took effect |
| RedemptionRuns.FreshRunsRefineSpentSet | internal/mint/spentfile.go:123-189 | the same from a fresh journal and an empty in-memory store |
| RedemptionRuns.FreshRunsNeverDoubleSpend | internal/mint/spentfile.go:366-507 | from a fresh journal no token is granted twice without a release in between |
| RedemptionRuns.RunKeepsInv | internal/mint/spentfile.go:609-661 | in every reachable state each unpoisoned store holds the replay of its prefix of the file |
| RedemptionRuns.StaysSpent | internal/mint/spentfile.go:366-507 | a spent token is refused by every process until something releases it |
| RedemptionRuns.NoDoubleSpend | internal/mint/spentfile.go:366-507 | two successful spends of a token have a refund of it or a retirement of its key between them |
| RedemptionRuns.TornIsForever | internal/mint/spentfile.go:609-661 | once a record is torn every operation of every process is refused and nothing is appended |
| RedemptionRuns.CutAppendTears | internal/mint/spentfile.go:710-726 | an append cut short leaves a torn journal |
| RedemptionAnswers.JournalAnswers | internal/mint/spentfile.go:366-507 | on a whole journal: which operations are answered, ideally, with the file they leave; the only refusals are an unusable store, a malformed operation, and a record the disk failed to take, which poisons this store alone |
| RedemptionAnswers.OpenAnswers | internal/mint/spentfile.go:123-189 | a whole journal opens, fully read |
| RedemptionAnswers.AlwaysAnswers | internal/mint/spentfile.go:366-507 | after any run, while nothing is torn, the next operation of a usable store with a working disk is answered ideally |
| RedemptionAnswers.TruncatedIsRefused | internal/mint/spentfile.go:614-616 | a journal shorter than what was read poisons the store |
| RedemptionAnswers.RefusedUntilReopened | internal/mint/spentfile.go:556-571 | a store that once refused a well-formed operation refuses all of them until it is opened again |
| RedemptionAnswers.OrderlyRunsAreInMemory | internal/mint/spentfile.go:366-507 | processes that come and go over a working journal answer, one by one, as one in-memory store given all the operations |
| RedemptionAnswers.FreshRunsAreInMemory | internal/mint/spentfile.go:123-189 | the same from a fresh journal and an empty in-memory store |
| JournalIdentity.IdentityRoundTrip | internal/mint/spentfile.go:235-263 | a pinned identity reads back as the one written |
| JournalIdentity.ActKeepsInv | internal/mint/spentfile.go:123-189 | every step of an open, and every crash or outside replacement, keeps the pinned identity that of all successful opens |
| JournalIdentity.RunsPinOneJournal | internal/mint/spentfile.go:123-189 | over all runs the successful opens hold one identity and no journal is created after the first of them |
| JournalIdentity.UndisturbedOpen | internal/mint/spentfile.go:123-189 | exactly which uninterrupted opens succeed: the first with whatever it finds or makes, later ones with the pinned journal only |
| Text.SortedUnique | internal/directory/consensus.go:103-111 | a multiset of texts has one sorted arrangement, so printed order is canonical |
| Text.LessIsByteOrder | internal/directory/consensus.go:103-111 | the order is that of bytes |
| Library.Library.KeyTextIff | internal/directory/identity.go:67-87 | a key text is good exactly when it holds 32 bytes |
| Library.Library.PinTextIff | internal/directory/descriptor.go:63-89 | a pin is good exactly when it holds a SHA-256 digest, with or without its prefix |
| Library.Library.SignatureText | internal/directory/identity.go:89-96 | a signature made with a key checks under it as the text that is published |
| Descriptors.ParseDescriptor | internal/directory/descriptor.go:182-272 | the line loop computes what a document denotes as a descriptor, or refuses it |
| Descriptors.SplitSigned | internal/directory/descriptor.go:275-302 | a body and its signature put together come apart the same way |
| Descriptors.Reparse | internal/directory/descriptor.go:182-272 | a parsed descriptor written out again parses to itself, and its signature still verifies |
| Descriptors.ParsedMeans | internal/directory/descriptor.go:182-302 | whatever parses is signed by the Ed25519 key it names over exactly the bytes before one last signature line, and is a sensible descriptor |
| Descriptors.ParsedStatesFieldsOnce | internal/directory/descriptor.go:199-257 | and it states the version, then known fields only, none but destinations twice |
| DescriptorPrinting.SignedParses | internal/directory/descriptor.go:128-180 | a signed descriptor with single-line fields parses to itself, destinations sorted |
| DescriptorPrinting.OwnDescriptorParsesIff | internal/directory/descriptor.go:61-89 | a relay that signs its own single-line descriptor is read back exactly when its name, address, pin, destinations and lifetime are in order |
| Consensuses.ParseConsensus | internal/directory/consensus.go:222-355 | the parser as code computes the specified reading for every text, authority set, threshold and clock |
| Consensuses.SplitConsensusSignatures | internal/directory/consensus.go:360-396 | the signature loop computes body and signatures, or refuses |
| Consensuses.ScanBody | internal/directory/consensus.go:235-305 | the body loop computes window and relays, or refuses |
| Consensuses.ConsensusDocument.Sign | internal/directory/consensus.go:125-142 | signing adds exactly one authority's signature over the canonical body |
| Consensuses.ConsensusDocument.Encode | internal/directory/consensus.go:145-177 | what is written, or that nothing is, for every document |
| ConsensusLaws.SortedRelays | internal/directory/consensus.go:96-121 | printing relays in canonical order and parsing them back loses and repeats none |
| ConsensusLaws.ReadPrintedBody | internal/directory/consensus.go:96-121 | reading a canonical body gives its window and its relays in canonical order |
| ConsensusLaws.MarkEndsBody | internal/directory/consensus.go:360-372 | the first signature mark of a document is the end of its body |
| ConsensusLaws.SplitPrinted | internal/directory/consensus.go:360-396 | a body followed by its signature lines comes apart into exactly those |
| ConsensusRoundTrip.EncodedIsRead | internal/directory/consensus.go:66-73 | a client reads an encoded consensus as exactly what was encoded from five minutes before its window until its end, and refuses it at every other instant |
| ConsensusRoundTrip.RoundTrip | internal/directory/consensus.go:222-355 | an encoded consensus is accepted exactly within those instants and when a threshold of its signers is known, with the same window, relay set, signatures and body |
| ConsensusRoundTrip.AcceptedIsCanonical | internal/directory/consensus.go:299-335 | whatever a client accepts is in canonical form with relays from the descriptor parser |
| ConsensusRoundTrip.BodyDetermines | internal/directory/consensus.go:96-121 | two bodies are equal exactly when their windows and relay sets are |
| ConsensusRoundTrip.AcceptedMeans | internal/directory/consensus.go:222-355 | whatever is accepted: the clock is in its window, a threshold of known keys made 64-byte Ed25519 signatures over these very bytes, and every relay signed itself, has an identity of its own and lasts for the window |
| ConsensusRoundTrip.EveryLineIsASignature | internal/directory/consensus.go:360-396 | after the body there is nothing but signatures, one a line, no authority twice |
| Workflow.CanonicalAcrossAuthorities | internal/directory/workflow.go:23-40 | the same descriptors in any order and clocks anywhere inside one epoch give byte-identical bodies, or are refused alike |
| Workflow.PartialIsAccepted | internal/directory/workflow.go:62-86 | a partial is a consensus clients would read, and each of its signatures checks for the key it names |
| Workflow.CoSignerSignsOwnBody | internal/directory/workflow.go:107-147 | a co-signer signs the very body it would have built from its own descriptors |
| Workflow.AcceptedListsSelection | internal/directory/workflow.go:107-147 | an accepted document over a selected body lists exactly that selection, each identity text once, for that window |
| Merge.MergeConsensus | internal/directory/workflow.go:153-200 | the aggregator's result is a function of the set of its parts, so order and repetition do not matter |
| Merge.MergedIsAcceptedUnion | internal/directory/workflow.go:153-200 | a merge passes the client parser at its threshold, carries exactly the union of the signatures, and merges alone to itself |
| CoSigning.CandidateIff | internal/directory/workflow.go:23-40 | a candidate exists exactly for sensible settings and relays that are different and cover the window of the current epoch |
| CoSigning.QuorumIsAccepted | internal/directory/consensus.go:123-177 | what authorities sign in turn can always be written up to 8 MiB, and is accepted exactly within its window by the clients that know a threshold of them |
| CoSigning.MergedApartIsInTurn | internal/directory/workflow.go:153-200 | merging what authorities signed apart gives, byte for byte, what they would have written in turn, exactly when all are known, they are enough and the window is open |
| CoSigning.CoSignsExactlyItsOwn | internal/directory/workflow.go:107-147 | an authority co-signs exactly the bodies it would build itself now, for known signers, and once |
| SigningGuard.ConsensusSigningGuard.Check | cmd/council/signing_state.go:39-100 | who gets the lock, when a vote is allowed, and whether the record must advance |
| SigningGuard.ConsensusSigningGuard.Commit | cmd/council/signing_state.go:132-155 | a vote is committed only with the record replaced, for every way the replacement can end |
| SigningGuard.SignConsensusWithState | cmd/council/signing_state.go:103-120 | outcome and durable record of one signing run, for every record, lock and ending of the replacement; the lock is always given back |
| SigningGuard.HandedOutIsRecorded | cmd/council/signing_state.go:103-120 | a signed document is handed out only when the durable record shows this very vote |
| SigningGuard.AllowedIsHandedOut | cmd/council/signing_state.go:39-155 | a vote the record allows is handed out whenever its record is installed or was there already |
| SigningGuard.VotesExactlyWhen | cmd/council/signing_state.go:39-155 | the whole table of a signing run: handed out exactly on a free lock when nothing, an earlier epoch of this authority or this very vote is on record and the disk works or need not; and what is then on record |
| Agreement.ActKeepsInv | cmd/council/signing_state.go:39-163 | every step and every crash keeps the durable record at least as new as every vote, with one body for its epoch |
| Agreement.SigningAloneIsTheCode | cmd/council/signing_state.go:103-120 | the steps of an undisturbed signing run leave record, lock and released vote exactly as the verified code does |
| Agreement.NoEquivocation | cmd/council/signing_state.go:39-155 | no guarded authority ever votes for two bodies in one epoch, in any run with any crashes |
| Agreement.VoteIsCastIff | cmd/council/signing_state.go:39-155 | after any run with crashes, a proposal is voted for exactly when nothing later and no other body of its epoch was ever put on record and the disk works or its epoch is recorded |
| Agreement.NewerOrLastIsVotedFor | cmd/council/signing_state.go:39-155 | in terms of votes: newer than all of them or equal to the last is always voted for, nothing else ever |
| Agreement.LivesApart | cmd/council/signing_state.go:39-155 | in a network each authority goes through its own steps only |
| Agreement.QuorumsMeet | internal/directory/consensus.go:337-355 | two quorums share an authority outside the unguarded ones when twice the threshold exceeds their number plus all authorities |
| Agreement.VoteEpoch | internal/directory/consensus.go:222-355 | the epoch a guarded authority recorded for a body is the one a client reads in it |
| Agreement.ClientsAgree | internal/directory/consensus.go:337-355 | no two clients accept different bodies for one epoch |
| Agreement.AgreementOverRuns | cmd/council/signing_state.go:39-155 | the same over every run, with crashes between any two steps, of a network that starts without votes |
| Agreement.SomeHonestSelection | internal/directory/consensus.go:337-355 | with a threshold above the number of unguarded authorities an accepted document lists exactly what some guarded authority selected |
| Publisher.LoadDescriptors | cmd/council/main.go:552-611 | the selection loop computes the specified selection |
| Publisher.LoadSelects | cmd/council/main.go:552-611 | the selection is exactly the first usable file of every identity, each identity once |
| Publisher.DropUnhealthy | cmd/council/main.go:482-520 | probing drops exactly the relays it no longer lists, in order |
| Publisher.SelectionIsBuildable | cmd/council/main.go:286-301 | whatever is stored and however probing goes, the selection for a window always builds into a consensus for it |
| Publisher.PublishingAuthority.Rebuild | cmd/council/main.go:281-335 | what is served, the signing record and the result of one rebuild, for everything it may meet |
| Publisher.PublishingAuthority.RebuildServesOwnSelection | cmd/council/main.go:281-335 | a rebuild succeeds exactly when its window builds, nothing served conflicts and the guard releases the vote; it serves its own selection, never an older epoch or a second body for one, with the vote on disk |
| Publisher.RebuildSucceedsIff | cmd/council/main.go:281-335 | exactly when a rebuild serves something, down to settings, size, lock, record, disk and what is being served |
| Publisher.FirstListing | cmd/council/main.go:346-361 | an answer is the earliest of all later windows that can hold the descriptor; a refusal means none ever can exactly when two tries suffice |
| Publisher.NotDatedAheadSuffices | cmd/council/main.go:338-345 | two tries suffice for every descriptor not dated more than the skew ahead |
| Publisher.HoldsWhen | internal/directory/descriptor.go:96-109 | which of the infinitely many windows can hold a descriptor |
| Publisher.DatedAheadIsTurnedAway | internal/directory/descriptor.go:96-109 | a descriptor dated ahead that fits a later window and neither of the two that are tried |
| Cost.CeilMulDivExact | internal/gateway/cost.go:72-85 | the true rounded-up quotient, returned exactly when the divisor is not zero and it fits in 64 bits |
| Cost.EstimateBounds | internal/gateway/cost.go:47-70 | an estimate is at least the exact price and less than two micros above it |
| Cost.EstimateRefusesOnlyOverflow | internal/gateway/cost.go:47-70 | with valid arguments the estimate is the sum of two ceilings, refused exactly when it does not fit |
| Cost.EstimateIff | internal/gateway/cost.go:47-70 | there is an estimate exactly when there is a price, and it is that price: 1024 tokens more than bytes in, each part rounded up, both prices in range or none |
| Cost.CurrencyExact | internal/gateway/cost.go:90-125 | an amount parses to exactly its value in micros, and everything representable with six decimals is accepted |
| Budget.RecordRoundTrip | internal/gateway/budget.go:364-390 | a stored counter record decodes to the counters it encodes, negative windows included |
| Budget.OtherRecords | internal/gateway/budget.go:374-391 | records of the older form read without costs, nothing reads as zeros, other sizes are refused |
| Budget.WindowOf | internal/gateway/budget.go:318-322 | a window start is the aligned instant next to the clock on the side of 1970 |
| Budget.RefundUndoesCharge | internal/gateway/budget.go:245-288 | charging and then releasing leaves the usage of the window as it was, whatever window was stored before |
| Budget.FileBudget.Reserve | internal/gateway/budget.go:245-288 | record and reservation, or the refusal with the record untouched |
| Budget.FileBudgetReservation.Release | internal/gateway/budget.go:334-362 | a release takes effect once, fails without effect otherwise |
| Budget.MultiBudget.Reserve | internal/gateway/budget.go:76-94 | every ceiling is charged, or each one whose release works shows the usage it showed before |
| Budget.MultiBudget.ReleaseAll | internal/gateway/budget.go:86-89 | releasing in reverse order restores every charged ceiling whose release works |
| BudgetRuns.ReserveKeepsInv | internal/gateway/budget.go:245-288 | a reservation in window order keeps the four counters equal to the unreleased reservations and within the limits |
| BudgetRuns.ReleaseKeepsInv | internal/gateway/budget.go:334-362 | a release keeps them so, whichever window is current |
| BudgetRuns.LiveReleaseSucceeds | internal/gateway/budget.go:334-362 | a live release never meets counters too small and takes out exactly what was put in |
| BudgetRuns.ReleaseTakesEffect | internal/gateway/budget.go:334-362 | a committed release takes its reservation out of its window and out of no other |
| BudgetRuns.GrantedIff | internal/gateway/budget.go:245-288 | in window order a reservation is granted exactly when what its window holds leaves room for it under every limit, and is then counted |
| BudgetRuns.RunConserves | internal/gateway/budget.go:245-362 | conservation over every run whose transactions commit in window order |
| BudgetRuns.ReleasedStaysReleased | internal/gateway/budget.go:334-362 | a reservation released once has no further effect in any later state |
| BudgetRuns.BudgetHolds | internal/gateway/budget.go:245-362 | from an empty database, in window order, the counters are the unreleased reservations and no window, current or past, passes a limit |
| BudgetRuns.ChargeConservesIff | internal/gateway/budget.go:267-269 | a granted reservation keeps conservation exactly when nothing was granted before or its window is not earlier than the stored one |
| BudgetRuns.DisplacedWindowIsForgotten | internal/gateway/budget.go:255-281 | after one commit out of order, whatever an empty budget would grant is granted on top of all the displaced window holds |
| BudgetRuns.FullWindowIsPassed | internal/gateway/budget.go:255-281 | every full window that is displaced so can be pushed past its ceiling of requests |
| BudgetRuns.OutOfOrderOvercharges | internal/gateway/budget.go:255-271 | a smallest run in which a ceiling of one is passed |
| BudgetRuns.CostCeilingHolds | internal/gateway/budget.go:270-281 | in every window the exact price of all unreleased reservations stays under a configured cost ceiling |
| Gateway.Server.ServeHTTP | internal/gateway/gateway.go:421-549 | outcome, journal, store and budget record of one request, for everything its surroundings may do |
| Gateway.Server.HandleError | internal/gateway/gateway.go:1124-1154 | budget and token are given back exactly when nothing was dispatched, and only a recorded refund is called one |
| Gateway.JournalFates | internal/mint/spentfile.go:366-454 | every operation on the shared journal has one of the three fates the interleaved gateway allows for, and leaves a model of the journal |
| Gateway.NeverDispatchedIff | internal/gateway/gateway.go:1166-1188 | an error counts as never dispatched exactly when a name was not resolved or the outermost failed network operation was a dial |
| GatewayAnswers.AdmittedIff | internal/gateway/gateway.go:421-505 | exactly which requests are admitted, at which charge, and which of two words the others are told |
| GatewayAnswers.UnearnedTouchesNothing | internal/gateway/gateway.go:437-498 | a request that is not admitted leaves journal, store and budget alone |
| GatewayAnswers.EarnedIsServed | internal/gateway/gateway.go:499-549 | what an admitted request is told and what it leaves, for every budget, spent set, disk and transport |
| GatewayAnswers.PaidWasEarned | internal/gateway/gateway.go:421-549 | over every run: whatever is under way, was delivered or holds budget arrived with a read, accepted and verified token, and holds exactly its own size, output ceiling and their price |
| Gateway.ServeIsARun | internal/gateway/gateway.go:421-549 | the steps of one undisturbed request end with the answer, journal and budget that the verified code leaves |
| Gateway.ActKeepsInv | internal/gateway/gateway.go:421-549 | every step of every request, and every crash, keeps one holder per token and the budget of everything dispatched |
| Gateway.OneTokenOnePurchase | internal/gateway/gateway.go:523-548 | of all requests ever presenting a token at most one reaches the provider |
| Gateway.ReachedIsCharged | internal/gateway/gateway.go:1124-1164 | a request that reached the provider stays charged to the budget and its token stays spent |
| Gateway.FromTheStart | internal/gateway/gateway.go:421-549 | both guarantees from the start of a gateway, whatever had been spent before |
| Gateway.LyingTransportSellsTwice | internal/gateway/gateway.go:1166-1188 | if a dial error could follow a delivery, one token would buy two answers |
| Wallets.Wallet.TakeOne | internal/mint/client.go:274-299 | the newest token or one bought on the spot, with counter and refill signal |
| Wallets.Wallet.PutBack | internal/mint/client.go:309-319 | a returned token is on hand again and no longer counted |
| Wallets.Wallet.BuyOne | internal/mint/client.go:354-373 | the receipt is marked before it is sent, and a key failure uses nothing |
| Wallets.Wallet.FillUp | internal/mint/client.go:393-410 | the refill loop computes the specified fill |
| Wallets.ReceiptIsOneShot | internal/mint/client.go:354-373 | a payment receipt reaches the mint at most once in the life of a wallet |
| Wallets.FillStaysInBatch | internal/mint/client.go:393-410 | a fill never passes the batch, drops nothing and counts nothing as spent |
| Wallets.TokenIsHadIff | internal/mint/client.go:274-299 | exactly when a token is to be had, which one, and what is counted |
| Wallets.ReceiptWaitsForAKey | internal/mint/client.go:354-373 | as long as no key was to be had the receipt is unused, over any operations |
| Wallets.ShownReceiptBuysNothing | internal/mint/client.go:354-373 | once shown it buys nothing more, over any operations |
| Wallets.FillFills | internal/mint/client.go:393-410 | at an open mint that answers, a fill leaves exactly a batch, in order |
| Bearer.Server.WithToken | internal/bearer/bearer.go:283-331 | what one request leaves in the wallet, for every outcome |
| Bearer.Server.ModifyResponse | internal/bearer/bearer.go:447-471 | only the two outcomes that prove it make a token reusable, and only known outcomes are passed on |
| Bearer.WordsOfTheGateway | internal/gateway/gateway.go:72-75 | of all headers only the words for refunded and rejected make a token reusable, and only the four words are passed on |
| Bearer.ComesBackIff | internal/bearer/bearer.go:311-330 | a token is on hand again exactly when nothing was written or one of the two words was heard |
| Bearer.StepsAreTheCode | internal/bearer/bearer.go:283-331 | the steps of the interleaved system do to the purse what the verified code does |
| Bearer.HeardAndFinished | internal/bearer/bearer.go:283-331 | heard and finished, a token comes back exactly when its request was never written or ended refunded or rejected |
| Bearer.ActKeepsInv | internal/bearer/bearer.go:283-331 | every step of bearer, wallet and gateway keeps the wallet's tokens unspent and every token in one place |
| Bearer.HonestWallet | internal/bearer/bearer.go:283-331 | in every fair run no token on hand is recorded as spent, each bought token is in exactly one of wallet, flight and gone, and the counter is exact |
| Bearer.HonestFromTheStart | internal/bearer/bearer.go:283-331 | the same from a new wallet and a gateway that has just started |
| Bearer.TokensOnHandAreGood | internal/bearer/bearer.go:283-331 | in every fair run a token on hand, when next presented, is granted |
| Bearer.UnseenWriteBringsBackSpentToken | internal/bearer/bearer.go:311-330 | if a delivered request could end as never written, a spent token would return to the wallet |
| Receipts.KeyDetermines | internal/mint/receipts.go:122-134 | equal fingerprints mean the same receipt on the same rail |
| Receipts.FileReceiptStore.ClaimReceipt | internal/mint/receipts.go:95-113 | bucket and answer after a claim, for every way it can end |
| Receipts.MemoryReceiptStore.ClaimReceipt | internal/mint/receipts.go:38-53 | the same for the process-local store |
| Receipts.OneClaim | internal/mint/receipts.go:95-113 | of all claims of a receipt on a rail at most one is granted |
| Receipts.OnlyUsedIsRefused | internal/mint/receipts.go:95-134 | a receipt is called used only if that receipt was claimed on that rail before |
| Receipts.GrantedIff | internal/mint/receipts.go:95-134 | exactly which claims of a run are granted, used or malformed |
| Invites.CheckPartition | internal/mint/invites.go:520-563 | the epoch loop accepts exactly the gapless partitions of the program window |
| Invites.PartitionCovers | internal/mint/invites.go:520-563 | each instant of a partitioned window is in exactly one epoch, and no other instant in any |
| Invites.RailsDiffer | internal/mint/invites.go:594-600 | rails tell programs, keys and purposes apart |
| Invites.GenerationPartitions | internal/mint/invites.go:334-364 | an accepted configuration cuts its window into equal epochs, one per allowance, wrapped durations included |
| GenerationOutcome.SettingsIff | internal/mint/invites.go:334-364 | exactly which settings are accepted, wrapped and saturated durations included |
| InviteGenerator.GenerateInviteBooks | internal/mint/invites.go:235-332 | the nested loops compute the specified manifest and one book a seat, or nothing |
| InviteGenerator.ManifestHoldsSlots | internal/mint/invites.go:275-297 | every list of a generated manifest holds exactly the fingerprints of its own slots, all seats together |
| InviteGenerator.GeneratedVouchersDiffer | internal/mint/invites.go:270-284 | all vouchers of a generated program are different, over all seats and slots |
| GenerationOutcome.GenerationSucceedsIff | internal/mint/invites.go:235-332 | generation succeeds exactly for accepted settings, enough seeds and no voucher twice |
| InviteAuthorizers.EpochsAdded | internal/mint/invites.go:145-155 | a fingerprint is admitted in the window of the list that holds it and nowhere else |
| InviteAuthorizers.AdmitsAllVouchers | internal/mint/invites.go:202-202 | an accepted manifest is of this mint and admits exactly as many different vouchers as its seats were given |
| InviteAuthorizers.InviteAuthorizer.Authorize | internal/mint/invites.go:172-196 | verdict and used receipts for every receipt, clock and ending of the claim: only a voucher of the program in its own window reaches the store |
| InviteAuthorizers.VoucherVerdict | internal/mint/invites.go:172-196 | the verdict on any 32 bytes in terms of the manifest: invalid when no list holds them, closed outside the window of the list, else authorised exactly once |
| InviteAuthorizers.OtherReceipts | internal/mint/invites.go:602-611 | any other text is invalid |
| InviteAuthorizers.Mint.Issue | internal/mint/mint.go:95-117 | signed exactly when well formed, authorised and signable; a malformed message leaves the receipts alone |
| InviteWallets.InviteBookCurrentEpoch | internal/mint/invite_wallet.go:472-485 | the epoch loop finds the slots of the current epoch |
| InviteWallets.SlotsExist | internal/mint/invite_wallet.go:472-485 | the current slots of an accepted book exist and are those counted to that epoch |
| InviteWallets.CurrentEpochIff | internal/mint/invite_wallet.go:472-485 | there are current slots exactly during the window, and they are all those of the current epoch |
| InviteWallets.AcceptedBookMeans | internal/mint/invite_wallet.go:410-470 | an accepted book is of this mint, has a whole seed, and each of its slots has its time |
| InviteWallets.InviteWallet.Activate | internal/mint/invite_wallet.go:144-175 | one book is imported for good, the same book again succeeds and changes nothing, any other is refused |
| InviteWallets.InviteWallet.ReserveVoucher | internal/mint/invite_wallet.go:333-364 | the first free slot of the current epoch is marked durably before it is used |
| InviteWallets.ReserveIff | internal/mint/invite_wallet.go:333-364 | reserving answers with the first free slot of the current epoch as soon as there is one; only that slot is marked |
| InviteWallets.WholeAllowance | internal/mint/invite_wallet.go:333-364 | within an epoch all its slots are handed out, in order, before it is used up |
| InviteWallets.InviteWallet.TakeStocked | internal/mint/invite_wallet.go:366-386 | a stocked token leaves the record before it is handed out |
| InviteWallets.InviteWallet.Put | internal/mint/invite_wallet.go:202-217 | a returned token is stocked again and no longer counted as spent |
| InviteWallets.NoSlotSentTwice | internal/mint/invite_wallet.go:318-364 | no slot's voucher is sent twice over any run with crashes |
| InviteWallets.AllowanceHolds | internal/mint/invite_wallet.go:333-364 | no book yields more than an epoch's allowance in any epoch |
| InviteAgreement.BookAcceptedIff | internal/mint/invites.go:299-311 | a wallet accepts a generated book exactly when it is of its mint, its seed has 32 bytes and the program has no epochs |
| InviteAgreement.DailyBookRefused | internal/mint/invite_wallet.go:445-450 | a concrete daily program that generates and whose book is refused |
| InviteAgreement.ManifestBookAccepted | internal/mint/invite_wallet.go:410-470 | the book that carries its manifest's schema version is always accepted |
| InviteAgreement.ReservedIsAdmitted | internal/mint/invites.go:172-194 | a slot a wallet may reserve at an instant derives a voucher that passes every check before the receipt store at that instant |
| InviteRuns.ActKeepsInv | internal/mint/invites.go:172-196 | every step of any wallet, any request and any other rail leaves all vouchers not yet presented claimable |
| InviteRuns.SentVouchersAreAuthorized | internal/mint/invites.go:172-196 | over all runs of all wallets of a program with crashes, the request made with any voucher sent is authorised in the voucher's own epoch |
| InviteRuns.ReservedIsAuthorizedThen | internal/mint/invite_wallet.go:333-364 | in particular at the instant at which it was reserved |
| InviteRuns.FreshProgramStarts | internal/mint/receipts.go:63-93 | activated books and an empty receipt store are such a start |
| InviteRuns.FirstRequestIsAuthorized | internal/mint/invite_wallet.go:318-364 | in a program just activated any seat that asks at any instant of the window reserves, sends and is authorised |
| EventStreams.SSEParser.Push | internal/ui/assets/sse.js:4-16 | payloads and remainder of what has arrived so far |
| EventStreams.SSEParser.Finish | internal/ui/assets/sse.js:18-24 | an unterminated block is flushed |
| EventStreams.ParseInPieces | internal/ui/assets/sse.js:4-24 | parsing a text in two pieces gives the same payloads and remainder as parsing it at once |
| EventStreams.DivisionIsIrrelevant | internal/ui/assets/sse.js:4-16 | the same text in any two divisions gives the same payloads and remainder |
| EventStreams.DataBlockReads | internal/ui/assets/sse.js:27-39 | a block with one data field a line reads back as those lines |
| EventStreams.BlockReads | internal/ui/assets/sse.js:4-39 | any block, with any fields and either kind of line end, is read as its data joined line by line, and reading goes on after the blank line |
| EventStreams.UnterminatedBlockIsRead | internal/ui/assets/sse.js:18-24 | a last block without its blank line is read when the response ends, not when it breaks off |
| EventStreams.JoinedApart | internal/ui/assets/sse.js:38-38 | data of several lines comes apart into those lines |
| EventStreams.ReadProviderTextStream | internal/ui/assets/sse.js:74-115 | the reader's text and ending are those of the undivided text, for every division |
| Translation.StreamFromOpenAI | internal/gateway/translate.go:224-376 | the text written for any provider stream, and whether it breaks off |
| Translation.RenderedParses | internal/gateway/translate.go:233-246 | the rendered events parse to exactly their encodings, with nothing left over |
| Translation.EventMeans | internal/ui/assets/sse.js:41-65 | what the browser takes from each emitted event |
| Translation.StreamMeaning | internal/gateway/translate.go:264-372 | however the text is divided the browser reads exactly what was spoken up to the first error, and completes exactly when the message was closed |
| Translation.ClosingReports | internal/gateway/translate.go:331-371 | a closed message reports the last finish reason and counts its deltas |
| TranslationReports.DataLineCarries | internal/gateway/translate.go:272-283 | which lines carry a chunk, whatever white space surrounds them |
| TranslationReports.TranslationIs | internal/gateway/translate.go:264-372 | the translated stream event by event, with stop reason in the words of the Messages vocabulary, output and input counts in its close |
| TranslationReports.FirstErrorIs | internal/gateway/translate.go:305-319 | the error that ends a translation is the first one reported, in its own words when it has any |
| TranslationReports.ReadsTheSameUntranslated | internal/ui/assets/sse.js:41-65 | a browser takes the same text, error and completion from a provider stream as from its translation |
| TranslationReports.CutOffIsNotComplete | internal/ui/assets/sse.js:84-115 | a translated stream that ends before its close is never taken for complete |
| Lifecycle.ConversationLifecycle.Persist | internal/ui/assets/lifecycle.js:17-25 | a write is queued with the generation it was asked in |
| Lifecycle.ConversationLifecycle.Delete | internal/ui/assets/lifecycle.js:27-33 | a deletion leaves its tombstone at once |
| Lifecycle.ConversationLifecycle.Clear | internal/ui/assets/lifecycle.js:35-42 | a clear starts a new generation and forgets the tombstones |
| Lifecycle.ConversationLifecycle.RunNext | internal/ui/assets/lifecycle.js:20-24 | whether a queued write still happens is decided when its turn comes |
| Lifecycle.AskKeepsInv | internal/ui/assets/lifecycle.js:11-55 | every request keeps the drained queue equal to the synchronous store |
| Lifecycle.DrainedIsSimple | internal/ui/assets/lifecycle.js:11-55 | whenever the queue is empty the store is that of a synchronous store given the same requests |
| Lifecycle.NothingComesBack | internal/ui/assets/lifecycle.js:8-10 | no write asked for before a deletion or a clear survives it |
| Lifecycle.StoreHoldsIff | internal/ui/assets/lifecycle.js:11-55 | whenever the queue is empty the store holds exactly the last words on every conversation |

## Left out

- RedemptionStores.FileSpentSet.AppendRecordLocked: a short write followed by more writes is one append that may stop anywhere.
- JournalIdentity.RunsPinOneJournal: outside replacement of the lock file, file modes and ownership, and the path checks around each mutation are not modelled.
- Workflow.AcceptedListsSelection: identities are distinct as texts, which is what the source compares; two spellings of one key are not identified.
- Bearer.HonestWallet: one transmission per request; retries inside Go's transport and wrap-around of the 64-bit spent counter are not modelled.
- Wallets.Wallet.TakeOne: the gap between buying a token and counting it, during which another goroutine may run, is one step.
- Publisher.FirstListing: clocks before the end of the first epoch of year 1, where Go's zero time would be a window start, are excluded.
- Budget.FileBudget.Reserve: a transaction either commits or has no effect; an error reported after a commit took effect is not modelled.
- Budget.MultiBudget.Reserve: the time at which a full budget resets is not part of a refusal here.
- Gateway.Server.ServeHTTP: the free model catalogue and the metrics counters are not modelled.
- InviteRuns.SentVouchersAreAuthorized: each voucher sent is one request that reaches the mint at most once; guessing of vouchers by strangers is excluded.
- InviteAgreement.BookAcceptedIff: JSON shape and the size limit of a book are not modelled, nor the text form of invite times, which is one to one with whole seconds of years 0 to 9999.
- Text.SortedUnique: texts are bytes; Unicode white space outside ASCII, which the source also trims from fields, is not modelled.
- Translation.StreamMeaning: a client that stops reading, line length limits of the scanner, and text decoding from bytes are not modelled.
- Lifecycle.DrainedIsSimple: the browser store's own operations succeed, and records have passed the conversation check; rejections of failing store operations are reported to callers and not modelled.
- How probing decides which relays to keep listing (its verdict is a parameter of a rebuild), the store's rollback check, and the serving state of a merged consensus (`cmd/council/serving_state.go`): weaker copies of the signing-state argument.
- The gateway's request-field policy and route choice: single-branch checks; here they are one parameter of a request.
- Whole (non-streamed) answer translation and request translation: one-shot JSON rewriting.
- HTTP plumbing, TLS pinning, header rules, RSA blind signatures, bbolt, flock and rename mechanics, PEM and JSON encoding.
- The relay pool, tunnels, checkout clients, user interface rendering, command-line flags, and the hosted proxy.
