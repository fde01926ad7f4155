# Verified model of the Krama interaction finality consensus

This project models the Krama/IFP consensus engine, a two-phase Byzantine fault tolerant protocol in which every
interacting participant brings its own context of validators, and proves its safety from the vote counters up to
agreement across views. Two independent cores, the framing of the write-ahead log and the array diff of the state
viewer, are modelled beside it. `dafny verify dfyconfig.toml` checks everything.

The layers, from the bottom:

- `Types`, `Rosters`, `Committees`: tesseracts, the n*2/3+1 threshold in 32-bit arithmetic, and the flat validator index
  over concatenated node sets.
- `Ledgers`, `LedgerRuns`, `VoteSets`, `QuorumCerts`, `HeightVotes`: what a vote set must remember (a ledger without any
  counters), the class with incremental counters that refines it, certificates, and the vote sets of all views of a height.
- `Safety`, `Prepare`: the persisted locks of a node, what it reports about them, and how the highest view is found.
- `Kbft`, `KbftRuns`, `KbftEngine`: one KBFT instance as a step machine, what holds after any sequence of timeouts and
  messages, and the class whose guarded methods and message loop refine the machine.
- `Reactions`, `CommitCerts`: what an instance does on each input, said outright, and what the certificates carry that it
  sends and finalizes.
- `Protocol`: honest and Byzantine nodes, and the theorems over every run: lock discovery, cross-view safety, agreement.
- `Authenticity`: what the signature checks are for. Every vote an instance has counted, in any view, was sent by the node
  it is counted for, over every run on messages that are not forged.
- `Bridge`: majorities of vote sets are certificates of the protocol, runs of KBFT instances are runs of the protocol, and
  what two instances of one protocol run finalize agrees.
- `Chains`, `SlotAllocator`, `Wal`, `Diff`, `DeepEqual`: participant chains, the slot allocator, log framing, the diff.
- `Witnesses`: concrete inputs at which a property one might expect does not hold.
- `SampleRuns`, `HostedRuns`: concrete runs. One commits and goes on, one leaves the chain because reported certificates are
  not checked, and one hosts an instance from its first report to the finalized tesseract.

Modelling choices that the statements depend on:

- Hashes and signatures are ideal. A hash determines its tesseract. A signature is the signed content (kind, view, hash)
  with the multiset of keys that signed it. That signatures cannot be forged (`Unforged`) is a hypothesis on the messages
  that peers send: whoever holds a key in the signature of a vote or certificate has sent the ballot that was signed. That
  the counted votes were then really sent is proved, from the signature checks of `AddVote` and `AddQc`. The key an
  instance signs with belongs to nobody else in its committee (`OwnKey`); that its own queued votes are not forged is
  proved from that.
- A panic or nil dereference of the engine is the state `halted`; deferred functions still run before it.
- A node's id may sit in several contexts. Ids are unique within one set and the random set is disjoint from the contexts
  (`Proper`). `HasKramaID` gives a node its first index, but the vote set and the certificate check accept any of its
  indices, and the signed content does not name the index. Same-view agreement, the simulation and what follows from it
  therefore require that no node signs one majority with two indices, or that the thresholds are also reached when every
  signer is counted by its first index (`Clean`). The code does not enforce this; `SignersCertifyIff` shows that the second
  condition is exact.
- The contexts of accounts are fixed over a protocol run, and every context has fewer than a third Byzantine nodes.
- An honest node prevotes only what the voting rule `Accepts` allows. This is a hypothesis of the protocol: the proposal
  handler does not check it. The rule says: the evidence covers exactly the addresses of the tesseract; the node's own
  entries and all counted reports list these addresses in the same order with views below the current one; every counted
  report was sent in the current view; a quorum of every governed context has reported; and for every governed
  participant the highest entry carries a certificate of exactly its view, of a vote kind, really signed by the quorums of
  its tesseract unless it is of the genesis view, for a tesseract the participant governs, and the proposal is that
  tesseract again or the next one after it. The code validates the entry held so far and not the one a peer reports, so
  the certificate clause is a real assumption. It is a switch of the configuration (`checked`), and with the switch off
  `FabricatedReportMisleads` gives a run that leaves the chain of a commit.
- That a node prevotes one tesseract per view and participant (`NotPrevoted`) is a hypothesis too, and the engine does not
  enforce it. It is proved for each instance (`VotesOnce`), but the cluster's message loop starts a new instance for every
  proposal message and ignores that the stage was already taken, so two proposals from one sender give two instances of
  one view. `TwoProposalsTwoPrevotes` is such a pair of runs, and `PrevotesAgreeIff` says exactly when two agree.
- The certificate that a commit stores names the instance's own view, even when the precommits were of another view. A
  commit of the protocol therefore records the view of its precommits beside it, and agreement is about those views.
- Heights, views and counters are unbounded except where the code's wrap-around matters: the quorum product, `SetView` at
  view zero, the height check of `verifyTransitions`, the record length of the log.

Where the code does not have a property, the exact condition is proved and a concrete input is given: counting every
signer once, the stored, the broadcast and the finalized certificate, the second tesseract of an account, an unsigned
tesseract, the commit that panics or has no proposal, the finalization after a panic, two instances of one view, indices
that are marked again, reports that are cut short, reuse of a cluster id, readers of an account that are forgotten,
payloads that do not survive the log, and the comparison of values with a length property.

## Model

| member | source | states |
|---|---|---|
| `Types.QuorumsOverlap` | fv-veil-2.0/consensus/types/nodeset.go:100-113 | two quorums of n*2/3+1 in a set of n nodes share more than a third of the set, exactly when the 32-bit product does not wrap around |
| `Types.QuorumIntersection` | fv-veil-2.0/consensus/types/nodeset.go:100-113 | with fewer than a third faulty nodes, any two quorums of one context share an honest node |
| `Types.AncestorTransitive` | paper/sec2-model.tex:92-95 | the p-ancestor relation is transitive |
| `Rosters.LocateUnique` | fv-veil-2.0/consensus/types/nodeset.go:194-236 | a flat index names one place and a place has one flat index, with absent sets skipped |
| `Rosters.WeightIs` | fv-veil-2.0/consensus/types/nodeset.go:194-236 | at which positions, and how often, a vote with a given flat index counts |
| `Rosters.TallyIsHeadCount` | fv-veil-2.0/consensus/types/nodeset.go:194-236 | votes cast with first indices are a head count: every position counts its distinct signers once |
| `Rosters.HeadCountIffCanonical` | fv-veil-2.0/consensus/types/nodeset.go:194-236 | every signing node counts exactly once where it belongs if and only if all signers use their first index |
| `Rosters.AtMostOnceIffSignsOnce` | fv-veil-2.0/consensus/types/nodeset.go:194-236 | every node counts at most once at every position if and only if no node signs with two of its indices |
| `Rosters.TallyAtMostHeads` | fv-veil-2.0/consensus/types/nodeset.go:194-236 | when no node signs with two indices, a tally never exceeds the number of distinct members that signed |
| `Rosters.FirstsCountHeads` | fv-veil-2.0/consensus/types/nodeset.go:194-236 | counted by their first indices, signers are a head count at every position, whatever indices they signed with |
| `Witnesses.DoubleSignerSplitsAContext` | fv-veil-2.0/consensus/krama_engine.go:1015-1040 | a concrete input: two committees that share a context, one node that signs twice, and signers that meet every threshold in both with no other common signer |
| `Rosters.AtMostOneQuorum` | fv-veil-2.0/consensus/types/voteset.go:371-376 | two disjoint groups of first-index voters cannot both meet the quorum of one context |
| `Ledgers.AddVerifiedKeeps` | fv-veil-2.0/consensus/types/voteset.go:312-407 | one verified vote keeps all accounts, never changes a majority, counts a first vote, and is refused only with a conflicting vote |
| `LedgerRuns.RunKeepsLedger` | fv-veil-2.0/consensus/types/voteset.go:164-407 | after any votes and certificates: every voter is counted under exactly one hash, the majority is absent exactly when no hash meets the quorum vector, its stored signers alone meet it, and a majority once set never changes |
| `LedgerRuns.NoUnexpectedRefusal` | fv-veil-2.0/consensus/types/voteset.go:222-229 | the panic for a vote that is neither added nor conflicting is unreachable |
| `LedgerRuns.OnlyGenuineAdded` | fv-veil-2.0/consensus/types/voteset.go:164-232 | a vote is added, or changes anything, only if it is of this height, view and kind and signed by a validator that has responded; a genuine first vote is always added; every refusal has its own error under an exact condition, and a known vote is answered by comparing signatures |
| `LedgerRuns.OnlySignedQcAdded` | fv-veil-2.0/consensus/types/voteset.go:234-293 | a certificate is added exactly when its known signers signed it, none is unknown, and no other hash has the majority; it then makes every signer a voter and counts those who had not voted; otherwise nothing changes, with the exact error |
| `LedgerRuns.CountedIsBacked` | fv-veil-2.0/consensus/types/voteset.go:164-293 | after any votes and certificates, whoever is counted had responded when its genuine vote arrived, or is a signer of a certificate that was really signed |
| `LedgerRuns.RecordFollows` | fv-veil-2.0/consensus/types/voteset.go:312-365 | the vote on record: a first vote is, a repeated one changes nothing, a conflicting one replaces it exactly when it is for the majority, and is not counted |
| `LedgerRuns.CrownedRecord` | fv-veil-2.0/consensus/types/voteset.go:371-403 | when a majority forms, its signers are exactly those counted for it, their records become the counted votes, nobody else's changes, and the signature is the certificate's or the sum of theirs |
| `LedgerRuns.VotesConserved` | fv-veil-2.0/consensus/types/voteset.go:421-431 | at every position the tally of all votes is the sum of the tallies per hash |
| `LedgerRuns.DeliverCounts` | fv-veil-2.0/consensus/types/voteset.go:164-232 | after genuine votes, one per index, exactly the delivered votes are counted, whatever the order |
| `LedgerRuns.OrderIndependence` | fv-veil-2.0/consensus/types/voteset.go:164-232 | any two delivery orders of the same canonical votes end with the same super majority, when some context keeps its own quorum |
| `QuorumCerts.GetQuorum` | fv-veil-2.0/consensus/types/ics.go:331-354 | the quorum vector: nothing for excluded or absent participants, and otherwise, for a context and for the random set, the smallest number above two thirds of the size |
| `QuorumCerts.ThresholdsAre` | fv-veil-2.0/consensus/types/ics.go:331-354 | every entry of the vector in plain arithmetic: zero where excluded or absent, otherwise the smallest q with 3q > 2n, unless the product wraps around |
| `QuorumCerts.MeetsIffTwoThirds` | fv-veil-2.0/consensus/krama_engine.go:1029-1040 | signers meet the vector exactly when they are more than two thirds of every context that counts and of the random set |
| `QuorumCerts.Recount` | fv-veil-2.0/consensus/krama_engine.go:1009-1027 | the counters of the batch check are the recount of the known signers, and the keys are theirs in index order |
| `QuorumCerts.VerifyQc` | fv-veil-2.0/consensus/krama_engine.go:1000-1061 | a certificate passes the thresholds exactly when the known signers are more than two thirds of every context that counts and of the random set, and is rejected with the right error otherwise; it is good exactly when, besides, the known signers signed it |
| `QuorumCerts.AddQcRefinesRecount` | fv-veil-2.0/consensus/types/voteset.go:255-292 | feeding a well-formed certificate to an empty vote set yields a super majority exactly when the batch recount meets every threshold |
| `QuorumCerts.StoredQcVerifiesIffMinimal` | fv-veil-2.0/consensus/types/voteset.go:371-394 | the certificate kept after a certificate was fed to an empty vote set verifies exactly when that certificate had no signer beyond the one that met the thresholds |
| `QuorumCerts.VotesYieldCertificate` | fv-veil-2.0/consensus/types/voteset.go:371-403 | a majority reached through votes alone has a certificate that passes both the thresholds and the signature check |
| `QuorumCerts.CompletingQcVerifiesIff` | fv-veil-2.0/consensus/types/voteset.go:371-394 | on any vote set, the certificate stored when a certificate completes the majority verifies exactly when the keys of the stored signers are the keys that signed, each as often |
| `Witnesses.SurplusSignerBreaksStoredQc` | fv-veil-2.0/consensus/types/voteset.go:371-394 | a concrete certificate with one signer too many whose stored form does not verify |
| `QuorumCerts.BroadcastQcVerifiesIffNoOtherVoter` | fv-veil-2.0/consensus/types/voteset.go:433-435 | after votes alone, the certificate a leader broadcasts verifies exactly when everybody who had voted when the majority formed voted for it and nobody new has voted since, not even for the majority |
| `Witnesses.LateVoterBreaksBroadcast` | fv-veil-2.0/consensus/types/voteset.go:433-435 | two concrete votes for one hash, the second late, after which the broadcast certificate does not verify |
| `VoteSets.AreVoteHeightsEqual` | fv-veil-2.0/consensus/types/voteset.go:465-484 | true exactly when the two height maps are equal |
| `VoteSets.AreGreater` | fv-veil-2.0/consensus/types/voteset.go:486-497 | true exactly when every entry reaches its threshold |
| `VoteSets.AddToTesseract` | fv-veil-2.0/consensus/types/votetesseract.go:48-59 | the votes of one hash: a first vote is stored, its bit set, and the counters stay a recount of the bits |
| `VoteSets.CountVote` | fv-veil-2.0/consensus/types/voteset.go:421-431 | the running sums stay the recount of the voters when one more votes |
| `VoteSets.VoteSet.constructor` | fv-veil-2.0/consensus/types/voteset.go:61-86 | a new vote set is empty and its counters are exact |
| `VoteSets.VoteSet.SuperMajority` | fv-veil-2.0/consensus/types/voteset.go:142-159 | returns the majority of the ledger; none exactly when no tally meets the quorum vector |
| `VoteSets.VoteSet.HasMajorityAny` | fv-veil-2.0/consensus/types/voteset.go:121-138 | true exactly when the recount of all voters meets every threshold |
| `VoteSets.VoteSet.GetVote` | fv-veil-2.0/consensus/types/voteset.go:89-104 | the vote of a validator for a hash, on record or counted under the hash |
| `VoteSets.VoteSet.AddVerifiedVote` | fv-veil-2.0/consensus/types/voteset.go:312-407 | the incremental counters refine the counter-free ledger step and stay exact |
| `VoteSets.VoteSet.AddVote` | fv-veil-2.0/consensus/types/voteset.go:164-232 | every check in order, then the ledger step; a vote is added, or changes anything, only if it is genuine, of a validator that has responded; the incremental state stays exact |
| `VoteSets.VoteSet.AddQc` | fv-veil-2.0/consensus/types/voteset.go:234-293 | added exactly when the known signers signed it and no other hash has the majority, and then all signers are; the incremental state stays exact |
| `HeightVotes.HeightVoteSet.constructor` | fv-veil-2.0/consensus/types/votesetheight.go:43-80 | a new height has view zero open and all accounts in order |
| `HeightVotes.HeightVoteSet.AddVote` | fv-veil-2.0/consensus/types/votesetheight.go:116-142 | a vote for an unknown view opens it and uses one of two rounds of its sender, or is refused; no vote set for the kind is a panic, which leaves the opened view behind |
| `HeightVotes.HeightVoteSet.AddQC` | fv-veil-2.0/consensus/types/votesetheight.go:97-111 | a certificate opens its view when needed and is added to the set of its view and kind, or panics like a vote |
| `HeightVotes.HeightVoteSet.SetView` | fv-veil-2.0/consensus/types/votesetheight.go:147-170 | opens exactly the missing views from one below the current one up to the new one; panics exactly for a view two behind; from view zero the start wraps around and nothing is opened |
| `HeightVotes.SetViewOpens` | fv-veil-2.0/consensus/types/votesetheight.go:147-170 | from a view above zero: a panic exactly two views behind or more, otherwise the views from one below the current one up to the new one are open, new ones empty; from view zero nothing is opened |
| `HeightVotes.WithViewsOpens` | fv-veil-2.0/consensus/types/votesetheight.go:157-166 | exactly the views of the range are opened, empty, and existing votes stay |
| `HeightVotes.AddAtRounds` | fv-veil-2.0/consensus/types/votesetheight.go:97-142 | a vote for an unknown view opens it and costs its sender a round, and is refused once two are used; a certificate opens its view at no cost; nothing else opens a view |
| `KbftRuns.RunKeepsRounds` | fv-veil-2.0/consensus/types/votesetheight.go:116-142 | over every run no peer makes an instance open more than two views by its votes |
| `KbftRuns.OnlySenderPays` | fv-veil-2.0/consensus/types/votesetheight.go:116-142 | a step uses up at most a round of the sender of its message, which for a queued message is the instance itself |
| `HeightVotes.AddAtExtends` | fv-veil-2.0/consensus/types/votesetheight.go:97-142 | a message touches only the majority of its own view and kind, loses none, makes one only when added, and panics only for an unknown kind |
| `HeightVotes.AddAtOk` | fv-veil-2.0/consensus/types/votesetheight.go:97-142 | a message keeps the accounts of every view and kind in order |
| `HeightVotes.CertificateIffMajority` | fv-veil-2.0/consensus/types/votesetheight.go:332-349 | a certificate is handed out exactly for a majority with that hash, with the signers and the signature of the majority; a vote set without one panics |
| `HeightVotes.CertificateMeets` | fv-veil-2.0/consensus/types/votesetheight.go:332-349 | the signers of every certificate handed out meet every threshold alone |
| `Committees.ICSCommittee.UpdateNodeSet` | fv-veil-2.0/consensus/types/nodeset.go:299-306 | installing a set keeps the node count right exactly when the position was empty |
| `Committees.ICSCommittee.GetKramaID` | fv-veil-2.0/consensus/types/nodeset.go:194-236 | the positions, place and identity behind a flat index, or none outside the range |
| `Committees.ICSCommittee.HasKramaID` | fv-veil-2.0/consensus/types/nodeset.go:261-279 | the first index of a node with its key and response bit, and -1 exactly for strangers; the other half of the round trip with GetKramaID |
| `Committees.ICSCommittee.UpdateValidatorResponse` | fv-veil-2.0/consensus/types/nodeset.go:164-191 | marks the indices in order and returns their keys; an invalid index stops it with exactly the valid ones before it marked |
| `Committees.ICSCommittee.GetVoteset` | fv-veil-2.0/consensus/types/nodeset.go:364-380 | the response bits in flat-index order, with absent sets skipped |
| `Committees.RebuildFromBits` | fv-veil-2.0/consensus/types/nodeset.go:164-191 | a fresh committee of the same shape fed the true bits of the vote set becomes the original: same response bits, same counts, hence the same quorum verdicts |
| `Committees.ICSCommittee.RecordPrepared` | fv-veil-2.0/consensus/ics_handler.go:246-274 | a prepared message marks all places of its sender once; a repeated one changes nothing |
| `Committees.PrepareCountsExact` | fv-veil-2.0/consensus/types/nodeset.go:52-55 | over every run of the prepare phase, the operator marking itself before it is counted otherwise, each response count equals the number of set bits and all places of one node carry the same bit |
| `Committees.MarkIdExactIff` | fv-veil-2.0/consensus/message_dispatcher.go:47-58 | marking all places of a node without looking keeps the counts exact exactly when the node had not responded |
| `Committees.MarkEachExactIff` | fv-veil-2.0/consensus/ics_handler.go:180-191 | marking the signers of a proposal keeps the response counts exact exactly when the indices are distinct and none of them had responded; a repeated one is counted again for good |
| `Committees.RepeatedPreparedIsIgnored` | fv-veil-2.0/consensus/ics_handler.go:246-249 | a second message of a sender never raises a count |
| `Committees.RespondedIffAnswered` | fv-veil-2.0/consensus/ics_handler.go:246-274 | after any run of the prepare phase a node has responded exactly when it had before, or is a member and marked itself or sent a message that was accepted |
| `Committees.ICSCommittee.IsContextQuorum` | fv-veil-2.0/consensus/types/nodeset.go:395-415 | true exactly when every context that is present has its quorum of responses |
| `Committees.ContextQuorumIsHeadCount` | fv-veil-2.0/consensus/types/nodeset.go:395-415 | the context quorum holds exactly when a quorum of distinct nodes of every context has answered |
| `Safety.UpdateQcInOrder` | fv-veil-2.0/consensus/types/consensus.go:316-335 | an account keeps one view and one hash, and its last view does not fall, exactly when certificates arrive in order |
| `Safety.UpdateQcShape` | fv-veil-2.0/consensus/types/consensus.go:316-335 | a newer view leaves its certificate alone, over a prevote certificate of the same view a certificate takes its place, in every other case it is one more, and the hashes follow |
| `Safety.PrevoteLastIff` | fv-veil-2.0/consensus/types/consensus.go:316-335 | only the last certificate of an account can be a prevote certificate, exactly unless an older one arrives after it |
| `Safety.CommitReplacesLock` | fv-veil-2.0/consensus/safety/safety.go:113-151 | locked and then committed in one view: at every address exactly the precommit certificate is left, and the proposal is no longer kept |
| `Safety.OpKeepsStore` | fv-veil-2.0/consensus/safety/safety.go:113-151 | an ordered update keeps every account in order: one view, matching hashes, a prevote certificate only in last place, and the proposal of an uncommitted lock retrievable |
| `Safety.RunKeepsStore` | fv-veil-2.0/consensus/safety/safety.go:113-151 | over every ordered run the store stays in order, no replaced lock stays behind, and no surviving lock falls back to an older view |
| `Safety.ConsensusSafety.UpdateSafetyInfo` | fv-veil-2.0/consensus/safety/safety.go:113-151 | the certificate is persisted at every address of the proposal, and the proposal stored or dropped by its kind |
| `Safety.ConsensusSafety.GetLatestSafetyInfo` | fv-veil-2.0/consensus/safety/safety.go:79-111 | the lock, or the commit certificate of the head when there is none |
| `Safety.ConsensusSafety.DeleteSafetyData` | fv-veil-2.0/consensus/safety/safety.go:217-219 | drops the locks of one address and nothing else |
| `Safety.FinalizeShows` | fv-veil-2.0/consensus/krama_engine.go:749-763 | after finalization the accounts of the tesseract report exactly its commit certificate, and no other account changes |
| `Prepare.LoadViewInfo` | fv-veil-2.0/consensus/ics_handler.go:410-448 | one report per address in order, none of them when one cannot be made: nothing for new accounts, the lock or the commit record otherwise |
| `Prepare.ReportIs` | fv-veil-2.0/consensus/ics_handler.go:410-441 | a new account reports view zero and nothing, another one its lock or without one the commit certificate of its head; no report exactly when neither is there |
| `Prepare.ReportsAlign` | fv-veil-2.0/consensus/ics_handler.go:443-445 | sorted by address, the reports of any two nodes on the same addresses list them in the same order, whatever order they were given in, and lose no entry |
| `Prepare.UpdateHighestVI` | fv-veil-2.0/consensus/ics_handler.go:496-520 | every entry up to the first refused one becomes the peer's if that is of a higher view and stays if not, in place; it fails exactly when one is refused, with the error of that entry |
| `Prepare.FoldIsHighest` | fv-veil-2.0/consensus/ics_handler.go:496-520 | after any reports the kept view of a participant is at least every reported one, and is one of them |
| `Prepare.TakenIsHighest` | fv-veil-2.0/consensus/ics_handler.go:496-520 | the same with reports that were refused half way: what was taken of them counts, and nothing else |
| `Prepare.TakenIsFirstHighest` | fv-veil-2.0/consensus/ics_handler.go:496-520 | an entry is kept against every later one of the same view, and otherwise replaced by the first one of the highest view |
| `Prepare.FoundIff` | fv-veil-2.0/consensus/ics_handler.go:202-207 | after reports that may have been refused half way, an entry reaches a view exactly when the own entry or one that was taken does |
| `Prepare.ValidTakenWhole` | fv-veil-2.0/consensus/ics_handler.go:202-207 | when the addresses agree and every entry validates, no report is refused |
| `Prepare.RefusedReportIsCut` | fv-veil-2.0/consensus/ics_handler.go:202-207 | one held entry that does not validate keeps a peer's later entries out, whatever they show |
| `KbftEngine.KBFT.constructor` | fv-veil-2.0/consensus/kbft/kbft.go:98-108 | a new instance is at its view, step NewHeight, without proposal or votes |
| `KbftEngine.KBFT.HandleTimeout` | fv-veil-2.0/consensus/kbft/kbft.go:176-197 | refines the machine's timeout step: only the start of its own view is acted on |
| `KbftEngine.KBFT.EnterNewView` | fv-veil-2.0/consensus/kbft/kbft.go:232-260 | refines the machine's new-view step, including the cleared proposal and the panic of SetView |
| `KbftEngine.KBFT.EnterPropose` | fv-veil-2.0/consensus/kbft/kbft.go:270-322 | refines the machine's propose step: the leader queues its proposal, then the deferred step change |
| `KbftEngine.KBFT.SetProposal` | fv-veil-2.0/consensus/kbft/kbft.go:324-354 | refines the machine: a second, misplaced or mistimed proposal changes nothing |
| `KbftEngine.KBFT.EnterPrevote` | fv-veil-2.0/consensus/kbft/kbft.go:356-376 | refines the machine's prevote step |
| `KbftEngine.KBFT.EnterPreCommit` | fv-veil-2.0/consensus/kbft/kbft.go:378-432 | refines the machine's precommit step: certificate, comparison, lock, vote, deferred step change |
| `KbftEngine.KBFT.EnterCommit` | fv-veil-2.0/consensus/kbft/kbft.go:434-470 | refines the machine's commit step, whose deferred part runs even after a panic |
| `KbftEngine.KBFT.FinalizeCommit` | fv-veil-2.0/consensus/kbft/kbft.go:472-511 | refines the machine's finalization; what its certificate carries is `CommitCerts.FinalizedQcPassesIff` |
| `KbftEngine.KBFT.CastQc` | fv-veil-2.0/consensus/kbft/kbft.go:601-631 | refines the machine: the certificate names every voter |
| `KbftEngine.KBFT.CastVote` | fv-veil-2.0/consensus/kbft/kbft.go:634-700 | refines the machine: an own vote is queued by the leader, sent by the others, and withheld by a node that has not responded |
| `KbftEngine.KBFT.AddVote` | fv-veil-2.0/consensus/kbft/kbft.go:513-591 | refines the machine's reaction to a vote or certificate; a panic for an unknown kind leaves the view behind that was opened for it |
| `KbftEngine.KBFT.Handler` | fv-veil-2.0/consensus/kbft/kbft.go:115-174 | the message loop of a new instance reaches exactly the state of the machine's run, or panics exactly when it does; without a panic its log has one vote of a kind, locks before the precommit, and only the own certified proposal finalized |
| `KbftRuns.StepKeeps` | fv-veil-2.0/consensus/kbft/kbft.go:176-230 | every timeout and message keeps the run invariant and takes nothing back |
| `KbftRuns.RunInv` | fv-veil-2.0/consensus/kbft/kbft.go:115-174 | the run invariant holds after any timeouts and messages |
| `KbftRuns.RunProgresses` | fv-veil-2.0/consensus/kbft/kbft.go:232-376 | over every run view and step never decrease, an accepted proposal is never replaced or cleared, and no effect is undone |
| `Reactions.TimeoutReacts` | fv-veil-2.0/consensus/kbft/kbft.go:176-322 | the timeout starts the own view once: the operator queues its proposal, and no vote is lost |
| `Reactions.ProposalReacts` | fv-veil-2.0/consensus/kbft/kbft.go:324-376 | a proposal is taken exactly when there is none yet and it is for the own heights and view; the operator passes it on, and it is prevoted at once unless the instance has committed |
| `Reactions.VoteReacts` | fv-veil-2.0/consensus/kbft/kbft.go:513-591 | exactly when a vote or certificate is ignored, only counted, makes the instance lock, makes it commit, or panics |
| `Reactions.PrevoteMajorityReacts` | fv-veil-2.0/consensus/kbft/kbft.go:378-432 | a prevote majority for the proposal is persisted before the own precommit, one for anything else only ends the step, and the operator sends the certificate either way |
| `Reactions.CommitReacts` | fv-veil-2.0/consensus/kbft/kbft.go:434-511 | a precommit majority of the own view is persisted for the proposal, the operator sends it, and the proposal is finalized exactly when the majority is for it |
| `Reactions.OffViewCommitReacts` | fv-veil-2.0/consensus/kbft/kbft.go:434-511 | a precommit majority of another view: nothing is persisted or sent, and the proposal is finalized exactly when the majority is for it and the own view has a vote set |
| `Reactions.RunFifo` | fv-veil-2.0/consensus/kbft/kbft.go:593-595 | over every run an instance takes up its own messages in the order it queued them |
| `KbftRuns.ProposalIffPrevoted` | fv-veil-2.0/consensus/kbft/kbft.go:324-376 | in every run that has not panicked a proposal is present exactly when the step is Prevote or later, unless votes of another view committed |
| `KbftRuns.VotesOnce` | fv-veil-2.0/consensus/kbft/kbft.go:356-511 | over every run at most one prevote, one precommit and one finalization are emitted |
| `KbftRuns.PrevotesAgreeIff` | fv-veil-2.0/consensus/ics_handler.go:72-97 | the prevotes of two instances of one configuration agree exactly when they accepted the same tesseract or one of them cast none |
| `Witnesses.TwoProposalsTwoPrevotes` | fv-veil-2.0/consensus/ics_handler.go:72-97 | two proposals of one view, each given to an instance of the same configuration: both are prevoted |
| `KbftRuns.PreCommitKeeps` | fv-veil-2.0/consensus/kbft/kbft.go:378-432 | entering precommit keeps the invariant and never dereferences a missing proposal |
| `KbftRuns.LockBeforePrecommit` | fv-veil-2.0/consensus/kbft/kbft.go:393-431 | when a precommit is sent, the instance has prevoted its hash, and the store holds a prevote certificate for it, of this view, at every address of the proposal, with the proposal to show for it |
| `KbftRuns.LocksAreCertified` | fv-veil-2.0/consensus/kbft/kbft.go:417-428 | every certificate an instance persists is signed by validators who alone meet every threshold |
| `KbftRuns.FinalizedIsCertified` | fv-veil-2.0/consensus/kbft/kbft.go:448-511 | a finalized tesseract is the own proposal with a non-nil precommit majority in the commit view, which is the own view unless that has a nil majority or the commit panicked |
| `CommitCerts.EntryCarries` | fv-veil-2.0/consensus/kbft/kbft.go:601-631 | over every run: a certificate that a leader sends names exactly the validators counted at that moment, with the hash and signature of the majority; a vote carries the own index, key and the proposal; a lock carries the majority's signers |
| `CommitCerts.FinalizedQcPassesIff` | fv-veil-2.0/consensus/kbft/kbft.go:472-511 | over every run: the certificate of a finalized tesseract names exactly the validators counted in the own view's precommits; committed on the own view they meet every threshold and the signature is the majority's, and it passes the certificate check exactly when the keys that signed are the keys of all of them; committed on another view it never passes |
| `CommitCerts.FinalizedQcExact` | fv-veil-2.0/consensus/kbft/kbft.go:472-511 | the same in terms of what arrived: after the operator's certificate it passes exactly when nobody but its signers had precommitted, after votes alone exactly when everybody who had precommitted had precommitted this tesseract |
| `KbftRuns.CommitKeeps` | fv-veil-2.0/consensus/kbft/kbft.go:434-511 | a commit keeps the invariant, and panics exactly when the own view has votes without precommit majority, has no votes although the majority is for the proposal, or has this majority and no proposal |
| `KbftRuns.RunKeepsAccounts` | fv-veil-2.0/consensus/kbft/kbft.go:513-591 | over every run the accounts of all views and kinds stay in order |
| `KbftRuns.OrderlyNeverHalts` | fv-veil-2.0/consensus/kbft/kbft.go:448-461 | an instance that gets known vote kinds, and precommits only for its own view after its proposal, never panics |
| `KbftRuns.WriteInOrderIff` | fv-veil-2.0/consensus/kbft/kbft.go:453-460 | a write of a run is in the order the lock store relies on exactly when its certificate is for the proposal; prevote locks always are, the certificate of a commit is persisted without comparing |
| `KbftRuns.WriteIsAllThatIsLeft` | fv-veil-2.0/consensus/safety/safety.go:113-151 | over every run of a node that enters the view with older locks only, whatever is persisted is all that is left at every address: a lock replaces the older ones, and the certificate of a commit replaces the lock |
| `Witnesses.CommitBeforeProposalPanics` | fv-veil-2.0/consensus/kbft/kbft.go:453-460 | a concrete run: a precommit quorum before the proposal panics |
| `Witnesses.OffViewCommitHasNoProposal` | fv-veil-2.0/consensus/kbft/kbft.go:434-457 | a concrete run: a quorum of another view takes the instance to its last step without a proposal |
| `Witnesses.PanickedCommitFinalizes` | fv-veil-2.0/consensus/kbft/kbft.go:434-511 | a concrete run: a precommit quorum of another view while the own view is undecided panics, and the deferred part still finalizes the proposal, with no nil majority anywhere |
| `Witnesses.FinalizedQcFails` | fv-veil-2.0/consensus/kbft/kbft.go:472-511 | in that run the certificate stored with the finalized tesseract does not pass the certificate check |
| `Protocol.StepKeepsInv` | fv-veil-2.0/consensus/kbft/kbft.go:356-511 | every step of honest and Byzantine nodes keeps the protocol invariant |
| `Protocol.SameViewAgreement` | fv-veil-2.0/consensus/types/voteset.go:371-394 | within one view two prevote certificates that share a governed participant are for one tesseract |
| `Protocol.LockDiscovery` | fv-veil-2.0/consensus/ics_handler.go:202-207 | over every run: once a quorum of a context holds a lock of view v, any later reports whose entries for that context were taken from a quorum of it yield a highest view of at least v, also after finalization deleted the lock and with reports refused half way; otherwise the view is found exactly when the own entry or one that was taken shows it |
| `Protocol.CrossViewSafety` | paper/sec5-analysis.tex:106-109 | over every run: once an honest node commits T, every prevote certificate of a later view on a shared participant is for T or a p-descendant of T |
| `Protocol.Agreement` | README.md:13-13 | over every run: two honest commits that share a participant are on one chain, and equal at the same height |
| `SampleRuns.CommitThenExtend` | paper/sec5-analysis.tex:106-109 | a concrete run in which a tesseract is committed and its successor is certified in a later view |
| `SampleRuns.FabricatedReportMisleads` | fv-veil-2.0/consensus/ics_handler.go:496-520 | a concrete run of the protocol without the certificate clause: one fabricated report of a higher view makes every honest node prevote, and a quorum certify, a tesseract off the chain of a committed one |
| `Protocol.FinalizeReports` | fv-veil-2.0/consensus/krama_engine.go:749-763 | after finalization the commit certificate takes over from the deleted locks at the same view or a later one |
| `Authenticity.ReceiveHeard` | fv-veil-2.0/consensus/types/voteset.go:202-283 | what an unforged vote or certificate adds to a vote set was sent by the node at each counted index: the signature checks keep it so |
| `Authenticity.AllHeard` | fv-veil-2.0/consensus/types/voteset.go:164-293 | after any unforged votes and certificates every counted vote was sent |
| `Authenticity.AddAtKnown` | fv-veil-2.0/consensus/types/votesetheight.go:97-142 | the same for the vote sets of all views and kinds of a height |
| `Authenticity.StepKnown` | fv-veil-2.0/consensus/kbft/kbft.go:513-591 | one step of an instance on an unforged message keeps every counted vote of every view a sent one |
| `Authenticity.StepWaits` | fv-veil-2.0/consensus/kbft/kbft.go:593-669 | whatever an instance has queued for itself it has logged before, and a queued vote is its own signed vote |
| `Bridge.SignersCertifyIff` | fv-veil-2.0/consensus/krama_engine.go:1029-1040 | the signers of a tesseract are a quorum of every governed context exactly when they reach the thresholds counted by first indices; signers that meet the committee's thresholds do when no node signed with two indices |
| `Bridge.ThresholdsSeat` | fv-veil-2.0/consensus/types/ics.go:331-354 | the thresholds that are computed from the context sizes are quorums of every governed context of the protocol |
| `Bridge.VerifiedIsCertified` | fv-veil-2.0/consensus/krama_engine.go:1000-1061 | what the batch check lets through, with those thresholds, was sent by a quorum of every governed context |
| `Bridge.VerifiedAgree` | fv-veil-2.0/consensus/krama_engine.go:1000-1061 | in every reachable state two unforged certificates of one view that pass the batch check and share a governed participant are for one tesseract |
| `Bridge.MajoritiesAgree` | fv-veil-2.0/consensus/types/voteset.go:371-394 | in every reachable state two vote sets of one view that share a participant, filled by any unforged votes and certificates, never hold majorities for different tesseracts, of prevotes or precommits, unless a node signed one of them with two indices and was needed twice |
| `Bridge.StepSimulated` | fv-veil-2.0/consensus/kbft/kbft.go:356-511 | one step of an instance in a protocol state, on any unforged input: its prevote, lock, precommit and commit, of whatever view, are enabled protocol actions in that order, and after them it is in the protocol state again, its store the node's store and all its counted votes sent |
| `Bridge.RunSimulated` | fv-veil-2.0/consensus/kbft/kbft.go:115-174 | every run of an instance on unforged messages, among the actions of the other nodes, is a run of the protocol |
| `Bridge.FinalizedIsCommitted` | fv-veil-2.0/consensus/kbft/kbft.go:472-511 | what an instance that runs inside a protocol run finalizes is a commit of its node, of the view whose precommits it committed on |
| `Bridge.FinalizationsAgree` | fv-veil-2.0/consensus/kbft/kbft.go:472-511 | two instances that run inside one protocol run, of one node or two, at the same time or not: what they finalize on a shared participant is of one chain, and the same tesseract when committed in one view or at one height |
| `HostedRuns.InstanceFinalizes` | fv-veil-2.0/consensus/kbft/kbft.go:115-174 | a concrete protocol run, from a node's report on, that hosts an instance which finalizes its proposal |
| `Chains.VerifyTransitions` | fv-veil-2.0/consensus/krama_engine.go:947-998 | passes exactly for the genesis tesseract, or when every checked participant opens its account, is not locked for change, or has a known parent one height below and no younger, and reports the first wrong one otherwise |
| `Chains.PassesIff` | fv-veil-2.0/consensus/krama_engine.go:947-998 | the genesis view is not looked at; otherwise all listed participants, or only the given one, must take a right step |
| `Chains.TransitionIff` | fv-veil-2.0/consensus/krama_engine.go:961-995 | a participant's step is right exactly when its lookup answers and it opens its account, is not locked for change, or has the right parent; a participant with another lock never makes a tesseract wrong |
| `Chains.ValidateTesseract` | fv-veil-2.0/consensus/krama_engine.go:1073-1100 | admits exactly the unknown, sealed and linked tesseracts whose certificate check gives no error; already-known exactly for a taken height |
| `Chains.AdmittedCertificate` | fv-veil-2.0/consensus/krama_engine.go:1094-1097 | the certificate of an admitted tesseract meets every threshold, and is signed exactly when the check answered so: an answer of false without an error is let through |
| `Chains.UnsignedIsAdmitted` | fv-veil-2.0/consensus/krama_engine.go:1094-1097 | a concrete admitted tesseract whose certificate nobody signed |
| `Chains.LinkedIffOwn` | fv-veil-2.0/consensus/krama_engine.go:979-993 | an admitted tesseract's edge for a participant leads one height down in the participant's own chain, exactly unless it is at height one and points to a tesseract without the participant |
| `Chains.StrangerParentIsAdmitted` | fv-veil-2.0/consensus/krama_engine.go:979-988 | that exception is real: a concrete admitted tesseract |
| `Chains.HistoriesAreLinear` | fv-veil-2.0/consensus/krama_engine.go:1079-1092 | over every run of validation a participant locked for change has one tesseract per height and edges one height down |
| `Chains.ParticipantChain` | paper/sec2-model.tex:92-95 | in every such history the height is the path length, timestamps never fall, and the ancestor relation is total |
| `Chains.HeightIsPathLength` | paper/sec2-model.tex:127-128 | the height of a tesseract is the length of its labelled path to the tesseract that opened the account |
| `Chains.AncestorAntisymmetric` | paper/sec2-model.tex:92-95 | the ancestor relation has no circles |
| `SlotAllocator.Slots.constructor` | fv-veil-2.0/consensus/types/slots.go:112-119 | a new allocator has no slots and no active accounts |
| `SlotAllocator.Slots.AreAccountsActive` | fv-veil-2.0/consensus/types/slots.go:121-138 | true exactly when the first holder of some requested account writes it, or reads what is wanted for writing |
| `SlotAllocator.Slots.CreateSlotAndLockAccounts` | fv-veil-2.0/consensus/types/slots.go:188-208 | a blocked request changes nothing; a granted one gets its slot, its locks and one availability less |
| `SlotAllocator.Slots.CleanupSlot` | fv-veil-2.0/consensus/types/slots.go:232-248 | drops the slot and all entries of its accounts, and gives the availability back |
| `SlotAllocator.RefusedIffHeld` | fv-veil-2.0/consensus/types/slots.go:188-198 | a request is refused exactly when a live slot holds one of its accounts, and then nothing changes |
| `SlotAllocator.CapacityKeptIffFresh` | fv-veil-2.0/consensus/types/slots.go:200-201 | a granted request keeps available plus live slots of each type exactly when its cluster is not live already |
| `Witnesses.ReusedClusterLosesASlot` | fv-veil-2.0/consensus/types/slots.go:200-201 | a concrete table and a reused cluster id that costs a slot |
| `SlotAllocator.AllocatorInvariant` | fv-veil-2.0/consensus/types/slots.go:188-268 | over every run with fresh clusters and mutate locks the active table is the inverse of the live lock maps, no account is in two live slots, and capacities are constant |
| `SlotAllocator.RefusedIffConflict` | fv-veil-2.0/consensus/types/slots.go:121-138 | with readers and writers, a request is refused exactly when a live slot writes one of its accounts, or holds one that it wants to write |
| `SlotAllocator.CleanupTracksIffAlone` | fv-veil-2.0/consensus/types/slots.go:232-248 | releasing a slot keeps the active table exact if and only if no other live slot holds one of its accounts |
| `SlotAllocator.ReadersAndWriters` | fv-veil-2.0/consensus/types/slots.go:188-268 | over every run of read and mutate locks with fresh clusters and such releases, the table lists exactly the live holders and a writer holds alone |
| `Witnesses.ForgottenReader` | fv-veil-2.0/consensus/types/slots.go:232-248 | concretely: of two readers one is released, and a writer is let in beside the other |
| `Witnesses.HiddenWriter` | fv-veil-2.0/consensus/types/slots.go:121-138 | concretely: behind a holder without a lock two writers get one account |
| `Wal.WALEncoder.Encode` | fv-veil-2.0/consensus/kbft/wal.go:326-349 | appends one whole record, or nothing exactly when the 32-bit length exceeds the limit |
| `Wal.WALDecoder.Decode` | fv-veil-2.0/consensus/kbft/wal.go:386-434 | the next outcome and the position after it |
| `Wal.WordRoundTrip` | fv-veil-2.0/consensus/kbft/wal.go:342-343 | big-endian words are read back |
| `Wal.WordIsBigEndian` | fv-veil-2.0/consensus/kbft/wal.go:342-343 | the four bytes weigh the word, the first byte most |
| `Wal.KeptUpToLimit` | fv-veil-2.0/consensus/kbft/wal.go:326-349 | payloads of up to 12288 bytes are written as checksum, length and payload, and read back unless empty or unreadable; longer ones below 4 GiB are refused |
| `Wal.ReadBackIff` | fv-veil-2.0/consensus/kbft/wal.go:326-434 | an accepted payload is read back exactly when it is not empty, within the limit before truncation, and readable; the reader is then at the next record either way |
| `Witnesses.EmptyPayloadIsLost` | fv-veil-2.0/consensus/kbft/wal.go:414-419 | an empty payload is accepted and not read back |
| `Wal.DamageIsContained` | fv-veil-2.0/consensus/kbft/wal.go:414-425 | a log with intact lengths decodes to one outcome per record and then the end: a bad payload costs no other record |
| `Wal.TornLog` | fv-veil-2.0/consensus/kbft/wal.go:386-434 | a log that breaks off inside a record decodes to the outcomes of the whole records, then to one corrupt outcome exactly when the last record's checksum is complete |
| `Wal.BadLengthIsSkipped` | fv-veil-2.0/consensus/kbft/wal.go:406-412 | a length above the limit is corrupt, and the reader goes on right behind the length, inside the payload |
| `Wal.RoundTrip` | fv-veil-2.0/consensus/kbft/wal.go:326-434 | the records of any non-empty readable payloads within the limit decode to the same list and then the end |
| `DeepEqual.SameNormIffDeepEqual` | fv-veil-2.0/widget/src/veilUtils.tsx:21-47 | any two values are the same, arrays read as index-keyed objects, exactly when they compare equal and no object with a length property meets an array on the way |
| `DeepEqual.LengthBreaksSymmetry` | fv-veil-2.0/widget/src/veilUtils.tsx:33-43 | with a length property the comparison can hold in one direction only |
| `Diff.BuildTable` | fv-veil-2.0/widget/src/veilUtils.tsx:53-69 | every cell of the table is the length of a longest common subsequence of the two prefixes |
| `Diff.ComputeLCS` | fv-veil-2.0/widget/src/veilUtils.tsx:53-86 | strictly increasing pairs of equal elements, as many as the table says; of all the longest matchings the one that keeps, rank by rank, the latest old elements |
| `Diff.LcsIsLongest` | fv-veil-2.0/widget/src/veilUtils.tsx:53-86 | no matching is longer, for any comparison |
| `Diff.ComputeMergedView` | fv-veil-2.0/widget/src/veilUtils.tsx:92-129 | terminates; dropping removed entries gives the new array, dropping added ones stands for the old one, with m+n-2*LCS edits, and between two kept entries removals come first |
| `Diff.MergedViewIsMinimal` | fv-veil-2.0/widget/src/veilUtils.tsx:92-129 | no insert/delete script between the two arrays has fewer edits |

## Left out

- Network transport, message dispatch, timers, goroutines and channel capacity: delivery is a nondeterministic step, and liveness is not claimed.
- Interaction execution, state hashes, receipts, encoding, BLS and VRF internals: foreign code, replaced by ideal functions or parameters.
- Database and signing errors: storage always succeeds, so the early returns they cause are not modelled.
- Evidence collection, event publishing and metrics: they do not influence the protocol state.
- The voting power sums of vote sets: they are written and never read.
- Random and context delta selection, sortition, and the operator lottery.
- `createProposalTS` and the re-creation of a tesseract from a locked one: only the fold of the highest views is modelled.
- `validatePeerHighestQc` as evidence about the peer: it is a parameter of `UpdateHighestVI`, applied to the entry held so far as in the code.
- `IsRandomQuorum` of the prepare phase: one comparison; safety rests on the context quorums.
- `NoLock` requests in whole runs of the slot allocator, where `HiddenWriter` breaks exclusion, and `ClearActiveAccount`.
- `POLInfo`, `GetVotes`, `GetViewBitVoteSet`: queries that the modelled steps do not use.
- The search for a cluster in the log files and file rotation: only records within one stream are modelled. A reader is taken to fill its buffer, to fail at the end, and to reject an empty buffer.
- Keys that a script value inherits from its prototype, and not-a-number values, in `DeepEqual`; `diffChanges` and rendering.
- KbftEngine.KBFT.FinalizeCommit: handing the tesseract to the lattice always succeeds.
- HeightVotes.HeightVoteSet.AddVote: the vote sets inside are values of the ledger type, which `VoteSet` refines, not references to its objects.
- QuorumCerts.GetQuorum: the cache of the vector is left out; it is computed once and returned from then on.
- Prepare.LoadViewInfo: gives the entries in the order of the addresses; the final sort is the function `ByAddress` beside it, and a protocol report on sorted addresses is what the code sends.
- QuorumCerts.BroadcastQcVerifiesIffNoOtherVoter: stated for vote sets filled by votes alone, as a leader's are.
