# GlassChain core, verified in Dafny

A model of GlassChain's replicated ledger and of the layers around it, with proofs that its shortcuts
(cached indexes, incremental folds, bitmaps, canonical orders) agree with a meaning recomputed from
the chain, over every run.

`dafny verify dfyconfig.toml` checks the whole project.

## How it is organised

| file | component |
|---|---|
| `Types.dfy` | the committed records, and the environment left open |
| `Sequences.dfy`, `Order.dfy` | permutations, sums, the string order of sorted maps |
| `Blocks.dfy` | hashing, chaining, consensus admission, proof of work |
| `Capability.dfy` | the capability registry and the activation history |
| `Policy.dfy`, `Endorsement.dfy` | policy trees and layers, the policy history, carriers and their evaluation |
| `LedgerState.dfy`, `Ledger.dfy` | the ledger's operations as functions of a state, and the object proved against them |
| `LedgerIndex.dfy`, `LedgerSafety.dfy` | admission indexes, chain safety |
| `LedgerMining.dfy`, `LedgerRounds.dfy` | local mining; mining rounds among peer blocks and adopted chains: bounds, loss, duplication, conservation |
| `Bitmap.dfy`, `Votes.dfy`, `Certificates.dfy` | quorums and signer bitmaps, signed messages and equivocation, certificates |
| `Accountability.dfy` | what two certificates for different hashes prove about the keys behind them |
| `WriteSet.dfy`, `Storage.dfy` | canonical write sets, block-plus-state commit |
| `Engine.dfy`, `EngineRuns.dfy` | the contract engine, its accounting, its recovery from the chain |
| `EngineDeals.dfy` | how much of an offer is sold, and whether emitted ids can be told apart |

Objects that the source mutates (`Ledger`, `CapabilityHistory`, `PolicyHistory`, `ContractEngine`,
`InMemoryStorageProvider`) are classes. Each method is proved to compute a function of the old state;
the theorems about runs are about those functions. A run is a list of operations, or a list of states
linked by them, from the initial state.

What each decision amounts to is also stated without the functions that make it, in the fields of the
records it is about: `HeadersValidIff`, `ReplayMeaning`, `PoliciesMeaning`, `AdmissionMeaning`,
`CommitMeaning`, `ValidChainIff`, `AdoptableIff`, `AcceptedIff` and the record theorems, `CertifiedIff`,
`CertificateFromVotes`, the message layouts, `CommittedWritesHide`, `ApplyWritesMeaning`,
`EvaluationBuysExactly`, `RebuildMeaning`.

Everything outside the core logic is a constant of function type with no definition, so a proof holds
for every choice of it: block, value and capability digests, the schema check of a canonical record,
ed25519 verification, the canonical bytes of a transaction, the WASM gate. A block digest is taken over
the tuple of hashed fields; results about hashes read "equal, or here are two different contents with
one digest". BLS is ideal: a signature is the multiset of (key, message) pairs aggregated in it, and
same-message verification is FastAggregateVerify, section 3.3.4 of draft-irtf-cfrg-bls-signature. The
proof-of-work search, the clock and the network appear as arguments.

## Where the code and its promises part

Each of these is a property one would expect that the code does not have. The exact condition under
which it holds is proved, and a reachable case in which it fails.

- A rejected commit validates into the cached capability history. All admission decisions stay those of
  a rebuild if and only if the rejected block switches nothing on (it holds no activation, or its first
  one is inadmissible or behind an invalid record) or every submission is refused anyway
  (`RejectedCommitDecidesIff`, `RejectedCommitPoisonsAdmission`). A failed fold of the chain itself is
  harmless.
- A peer's block is pushed without telling the id index, and a commit then marks the whole chain
  consumed. All decisions stay those of a rebuild if and only if every id in the blocks so skipped is
  known to the index, in the committed block or pending (`CommitDecidesIff`, `GapReadmitsCommitted`).
- The commit gate checks contents only. A successful commit keeps the chain valid if and only if the
  block links to the tip and is admissible (`CommitKeepsChainValidIff`, `CommitCanInvalidateChain`).
- Local mining appends without validating. The chain stays valid if and only if the drained slice is
  clean at the new height (`MiningKeepsChainValidIff`, `MiningCanInvalidateChain`).
- A rejected round is not restored. Over every run no id is forgotten if and only if each round that ends
  on the tip passes the commit gate or holds nothing that is not held elsewhere, and each adopted chain
  holds every committed id not held elsewhere (`NothingIsLostIff`, `RejectedRoundLosesTransactions`).
- Ids are not compared with the round in flight, nor with a peer's block, nor with an adopted chain. Over
  every run no id is ever held twice if and only if each step's new ids are new to those
  (`NothingIsDuplicatedIff`, `ResubmissionCommitsTwice`, `OvertakenRoundRequeues`). After an adoption,
  repetition lasts through every later run (`ReplacementDuplicatesIff`, `ReplacementCommitsTwice`).
- The same-block policy rule is documented as covering every change of a written key's policy. The code
  compares written keys with the keys named by updates for exactly the same scope, so clearing a policy
  by omission and changing it channel-wide are both accepted. An accepted block keeps the documented
  rule if and only if its updates leave each written key undisturbed (`SameBlockRuleIff`,
  `ClearingByOmissionIsAccepted`, `ChannelWideChangeIsAccepted`).
- Policies are replayed by commits only, not by mining, adoption or peer blocks. Over every run the
  chain's policies keep replaying if and only if each mined or peer block holds only valid updates and
  names no key it writes, and each adopted chain replays (`PoliciesReplayIff`). Once they do not, no
  commit succeeds over any run until a chain is adopted (`BrokenPoliciesStopCommits`,
  `MinedConflictStopsCommits`).
- A policy update is documented as authorised by the policy it replaces, yet its carriers may target any
  scope. Where the principals those scopes name can sign, every acceptance of the update is authorised
  by the replaced policy if and only if one of the scopes is stricter, which is a check of the finitely
  many sets of principals that scope names (`UpdateAuthorityIff`, `UpdateFromElsewhereIsAccepted`).
- World-state keys join their parts with a colon. Among scopes with no empty part, one shares its key
  with another if and only if it holds a colon at which it can be cut differently
  (`StateKeyAmbiguousIff`, `SoundWritesCollide`). All orders of a write list give one cache if and only if no two of its
  writes do different things to one key (`AllOrdersAgreeIff`).
- Replaying a chain restores a contract's status if and only if the contract is Active, or Fulfilled
  under a positive cap (`RebuildRecoversEngine`, `ZeroCapIsForgotten`).
- Revocation is documented as go-forward, yet revoking a key again at a later height lifts the earlier
  revocation in between; authentication below the new height is unchanged if and only if that does not
  happen (`RevocationMeaning`, `LaterRevocationReadmits`).
- An offer is not used up across contracts. What one evaluation orders stays within the offer if and only
  if the acceptors' demands sum to no more than it (`OfferOversoldIff`, `OfferSoldTwice`).
- Emitted ids join contract and offer with a dash. Over every run they are distinct if and only if no two
  deals join to one key; among deals on named offers, one can share its key if and only if it holds a
  dash at which it can be cut differently (`EmittedIdsDistinctIff`, `DealAmbiguousIff`,
  `EmittedIdsCollide`).
- Validator sets may repeat a key. Two certificates always share more than n/3 keys if and only if every
  set of positions two quorums may meet in holds that many keys (`SharedKeysIff`); one key registered n
  times certifies anything alone (`OneKeyCertifiesAlone`).
- Certified votes carry no height, round or phase. A key behind two certificates has cast both hashes,
  and can be convicted of it if and only if it cast them in one context (`CommonSignersCastBoth`). Two
  hashes can be certified with nobody to convict (`CertificatesWithoutConviction`), and prevotes alone
  make an accepted certificate (`PrevotesCertify`).

## Model

| member | source | states |
|---|---|---|
| `Blocks.IndexesAreConsecutive` | crates/glasschain-core/src/block.rs:198-219 | Chaining makes indexes consecutive from the first block's. |
| `Blocks.HashSealsBlock` | crates/glasschain-core/src/block.rs:73-84 | Whatever carries a valid block's hash is valid if and only if it equals the block in every field but the certificate, or collides with it. |
| `Blocks.HeadersValidIff` | crates/glasschain-core/src/ledger.rs:372-415 | Linking, admission and the genesis checks hold exactly when each hash is the digest of the block's six fields, each block names its predecessor's hash and the next index, and each past genesis has its leading zeros or a certificate for its own index and hash with signers, an aggregate and the BLS algorithm. |
| `Blocks.TipHashFixesHistory` | crates/glasschain-core/src/block.rs:73-84 | Two valid chains from one index that end in one hash have equal index, timestamp, transactions, write set, previous hash, nonce and hash at every position, or exhibit a collision. |
| `Blocks.Mine` | crates/glasschain-core/src/block.rs:149-180 | A found block differs only in nonce, timestamp and hash, is valid and meets the target; without wrap-around it has the least successful nonce, and failure means no nonce in range succeeds. |
| `Capability.FoldAcceptsAcceptable` | crates/glasschain-core/src/capability.rs:290-304 | A block replays exactly when each record is valid and its gate open, each activation is a signed, future one of a v1 capability with version and hash, and capabilities are new and distinct; it then appends exactly its activations. |
| `Capability.RejectedStepKeeps` | crates/glasschain-core/src/capability.rs:290-304 | A rejected step keeps exactly the activations in front of the first transaction that makes the block unacceptable. |
| `Capability.ReplayMeaning` | crates/glasschain-core/src/capability.rs:275-304 | A chain replays from genesis exactly when every transaction is committable in its own block and no capability is activated twice in the whole chain; the history is then the chain's activations in order. |
| `Capability.ActiveMeaning` | crates/glasschain-core/src/capability.rs:50-204 | On a replayed chain the capabilities active at a height are the two genesis ones and those the chain activates by then, each with version 1 and its digest. |
| `Capability.FoldAppendsFuture` | crates/glasschain-core/src/capability.rs:217-264 | Any replay step, accepted or not, only appends activations future of its block and keeps registry identities and uniqueness. |
| `Capability.EffectiveSetMembers` | crates/glasschain-core/src/capability.rs:196-204 | A capability is effective at a height exactly when it is a genesis capability or was activated at or below it. |
| `Capability.EffectiveSetIsSettled` | crates/glasschain-core/src/capability.rs:196-204 | In an accepted chain the set effective at a height is settled by the blocks below it. |
| `Capability.ReplayJudgesUnderTheSameSet` | crates/glasschain-core/src/capability.rs:275-304 | After any valid extension every block is judged under the set it was first accepted under, and accepted again. |
| `Capability.OrderInsideBlockIsIrrelevant` | crates/glasschain-core/src/capability.rs:290-304 | A block and any permutation of it are accepted alike and leave equal effective sets at every height. |
| `Capability.EffectiveSetsGrow` | crates/glasschain-core/src/capability.rs:136-204 | Over every replay effective sets carry registry versions and hashes and only grow with height. |
| `Capability.BuildPush` | crates/glasschain-core/src/capability.rs:275-281 | Replaying one more block is one more step on the replay so far. |
| `Capability.CapabilityHistory.EffectiveSetAt` | crates/glasschain-core/src/capability.rs:196-204 | The loop computes the effective set. |
| `Capability.CapabilityHistory.Apply` | crates/glasschain-core/src/capability.rs:217-264 | Accepts exactly admissible activations, appends them, and changes nothing otherwise. |
| `Capability.CapabilityHistory.ValidateBlock` | crates/glasschain-core/src/capability.rs:290-304 | Leaves the replay step's history, including the part a rejected block has already pushed. |
| `Capability.CapabilityHistory.BuildFromBlocks` | crates/glasschain-core/src/capability.rs:275-281 | Rebuilds the replay from genesis, or fails where it fails. |
| `Policy.EvaluateMeaning` | crates/glasschain-core/src/endorsement.rs:151-165 | A signature rule is true exactly of sets with its signer, an n-out-of rule exactly when n is positive and n distinct sub-rules hold. |
| `Policy.ValidExpressionIff` | crates/glasschain-core/src/endorsement.rs:103-130 | An expression validates exactly when, at every depth, names are non-empty and thresholds lie between one and the number of rules. |
| `Policy.ValidPoliciesIff` | crates/glasschain-core/src/endorsement.rs:228-245 | A policy set validates exactly when every layer in it is well built and every key policy names a key. |
| `Policy.OutsidersAreIrrelevant` | crates/glasschain-core/src/endorsement.rs:151-165 | Only the principals an expression names can decide it. |
| `Policy.NothingSatisfiesNothing` | crates/glasschain-core/src/endorsement.rs:151-165 | No expression, validated or not, is true of nobody. |
| `Policy.LeavesSuffice` | crates/glasschain-core/src/endorsement.rs:103-165 | A valid expression is true of all the principals it names. |
| `Policy.EvaluateMonotone` | crates/glasschain-core/src/endorsement.rs:151-165 | More principals never falsify a satisfied expression. |
| `Policy.FindKeyPolicy` | crates/glasschain-core/src/endorsement.rs:215-219 | The first key-level policy for the key, or none exists. |
| `Policy.ComputeApplicable` | crates/glasschain-core/src/endorsement.rs:205-221 | Collects channel, contract, collection and key layers in precedence order. |
| `Policy.LayersInOrder` | crates/glasschain-core/src/endorsement.rs:205-221 | The channel default comes first, then the contract's, then the collection's where one is targeted, then the first policy of each key in target order. |
| `Policy.LastUpdate` | crates/glasschain-core/src/endorsement.rs:382-392 | The latest update for exactly the scope, or none exists. |
| `Policy.UpdateGovernsItsScope` | crates/glasschain-core/src/endorsement.rs:382-409 | Before any update governance alone is asked; one more update changes its own scope and, when channel-wide, the scopes without their own policy; every other scope keeps its policies. |
| `Policy.PoliciesFailClosed` | crates/glasschain-core/src/endorsement.rs:382-515 | Whatever was replayed, every scope's policies are valid, some layer applies, and each applicable layer is false of nobody, achievable and monotone. |
| `Policy.PolicyReplayAccepts` | crates/glasschain-core/src/endorsement.rs:461-515 | A block replays exactly when its updates are sound and none carries a policy for a key of its own scope that the write set, or a carrier of another kind of transaction, writes; all updates are then appended in order. |
| `Policy.RejectedPoliciesKeep` | crates/glasschain-core/src/endorsement.rs:461-515 | A rejected block keeps the updates in front of its first unsound one, or none if it names a key it writes. |
| `Policy.PoliciesMeaning` | crates/glasschain-core/src/endorsement.rs:443-515 | A chain's policies replay exactly when each block is sound on its own, and are then all its updates in order. |
| `Policy.BlockGoverns` | crates/glasschain-core/src/endorsement.rs:382-396 | What a whole block of updates does to a scope: its last exact update governs, or its last channel-wide one where the scope has none of its own. |
| `Policy.SameBlockRuleIff` | crates/glasschain-core/src/endorsement.rs:451-515 | An accepted block keeps every written key's policy, as documented, if and only if no update governs the key's scope, or the governing one is exact and the key had no policy, or it is channel-wide and says the same. |
| `Policy.ClearingByOmissionIsAccepted` | crates/glasschain-core/src/endorsement.rs:461-515 | For any scope and rule, a block that writes the key and clears its rule by omission is accepted. |
| `Policy.ChannelWideChangeIsAccepted` | crates/glasschain-core/src/endorsement.rs:461-515 | For any scope and rule, a block that writes the key and gives it the rule channel-wide is accepted. |
| `Policy.BuildPoliciesPush` | crates/glasschain-core/src/endorsement.rs:443-449 | Policy replay of one more block is one more step. |
| `Policy.PolicyHistory.Apply` | crates/glasschain-core/src/endorsement.rs:422-431 | Appends exactly valid updates. |
| `Policy.PolicyHistory.ValidateBlock` | crates/glasschain-core/src/endorsement.rs:461-515 | Leaves the policy replay step's history and outcome. |
| `Policy.PolicyHistory.BuildFromBlocks` | crates/glasschain-core/src/endorsement.rs:443-449 | Rebuilds the policy history, or fails where replay fails. |
| `Endorsement.EvaluateRequest` | crates/glasschain-identity/src/msp_policy.rs:316-403 | Errs exactly on invalid expressions or a signer whose key is unknown, malformed, registered to another principal or outside its window; otherwise reports whether the distinct principals with verifying signatures satisfy the expression, those principals in ascending order, and the required count. |
| `Endorsement.EvaluateCarrier` | crates/glasschain-core/src/endorsement.rs:675-692 | Ok exactly when the carrier's signers satisfy every layer of its scope. |
| `Endorsement.EvaluateTransactionEndorsements` | crates/glasschain-core/src/endorsement.rs:641-723 | Computes acceptance, which `AcceptedIff` and the record theorems below spell out. |
| `Endorsement.AcceptedIff` | crates/glasschain-core/src/endorsement.rs:641-723 | A transaction that is not a record is accepted exactly when each write has a carrier for its channel, contract, key and collection (none for a public write), an update has a carrier, every carrier's signers are genuine and its signatories over the bare transaction meet every layer of its scope, and an activation is signed by network-governance. |
| `Endorsement.CarrierMeaning` | crates/glasschain-core/src/endorsement.rs:205-221 | A carrier passes exactly when all its signers authenticate and its principals meet the channel, contract, collection and every declared key's policy. |
| `Endorsement.AcceptedWritesAreAuthorised` | crates/glasschain-core/src/endorsement.rs:641-723 | Each write of an accepted non-record transaction has one carrier for exactly its channel, contract, key and collection, all of whose signers are genuine and whose signatories satisfy every layer of that write's own scope. |
| `Endorsement.UpdateAuthorityIff` | crates/glasschain-core/src/endorsement.rs:641-695 | For any update and carrier targets whose named principals can sign: every acceptance with such carriers has one whose principals satisfy the replaced policy, if and only if one of the targets is stricter than the replaced scope. |
| `Endorsement.StrictnessIsFinite` | crates/glasschain-core/src/endorsement.rs:151-221 | A target is at least as strict as another for every set of principals if and only if it is for the sets of principals its own layers name. |
| `Endorsement.SidesteppingIsAccepted` | crates/glasschain-core/src/endorsement.rs:641-695 | An update whose carriers satisfy their own scopes, and none the replaced policy, is accepted. |
| `Endorsement.OwnScopeIsStrict` | crates/glasschain-core/src/endorsement.rs:641-695 | A carrier that targets the update's own scope is at least as strict. |
| `Endorsement.AcceptedUpdateIsAuthorised` | crates/glasschain-core/src/endorsement.rs:641-695 | An accepted update with such a carrier is authorised by vouched-for principals that meet the replaced policy. |
| `Endorsement.UpdateFromElsewhereIsAccepted` | crates/glasschain-core/src/endorsement.rs:641-695 | An update for any scope of another channel is accepted on a signature that does not meet the policy it replaces. |
| `Endorsement.HandoffNeedsBothParties` | crates/glasschain-core/src/endorsement.rs:557-568 | A custody handoff is accepted exactly when its payload names a receiver, its writes are addressed, all signers are genuine and issuer and receiver signed. |
| `Endorsement.RecallNeedsItsIssuer` | crates/glasschain-core/src/endorsement.rs:569-581 | A recall is accepted exactly when its payload says who issued it and its registering issuer signed. |
| `Endorsement.AttestationNeedsItsAuthority` | crates/glasschain-core/src/endorsement.rs:582-589 | A certification or audit is accepted exactly when its payload names an issuer who signed, with addressed writes and genuine signers. |
| `Endorsement.CommitmentNeedsEveryCounterparty` | crates/glasschain-core/src/endorsement.rs:590-618 | A state commitment is accepted exactly when every counterparty is a name and the issuer and all of them signed. |
| `Endorsement.OtherRecordsNeedNobody` | crates/glasschain-core/src/endorsement.rs:619-723 | Any other record is accepted exactly when its writes are addressed by carriers, whoever signed them. |
| `Endorsement.RevocationMeaning` | crates/glasschain-identity/src/msp_policy.rs:303-313 | From the revocation height on nobody is genuine with the key; below it every signer is as before if and only if the key was not already revoked there; other keys are untouched. |
| `Endorsement.RevocationKeepsHistory` | crates/glasschain-identity/src/msp_policy.rs:303-313 | Whatever was accepted below the revocation height stays accepted, also under a repeated revocation. |
| `Endorsement.LaterRevocationReadmits` | crates/glasschain-identity/src/msp_policy.rs:303-313 | A transaction that a revocation refuses at a height is accepted there after a second, later revocation. |
| `LedgerObject.Ledger.constructor` | crates/glasschain-core/src/ledger.rs:80-103 | A new ledger is the initial state over its genesis. |
| `LedgerObject.Ledger.FoldCapabilityIndex` | crates/glasschain-core/src/ledger.rs:178-191 | Folds the chain's tail into the cached history, stopping where a block is rejected. |
| `LedgerObject.Ledger.FoldCommittedIds` | crates/glasschain-core/src/ledger.rs:194-214 | Brings the id index up to the whole chain. |
| `LedgerObject.Ledger.AddTransactionToPool` | crates/glasschain-core/src/ledger.rs:117-170 | Computes the admission step and its outcome. |
| `LedgerObject.Ledger.MinePendingTransactions` | crates/glasschain-core/src/ledger.rs:238-249 | The block takes the first 4000 pending transactions, or all of fewer, and is appended; the rest stay in order and the ids are folded; an empty ledger is an error and stays as it is. |
| `LedgerObject.Ledger.PrepareMining` | crates/glasschain-core/src/ledger.rs:265-270 | Returns the index after the tip's, the tip hash, the first 4000 pending transactions or all of fewer, and the difficulty; the rest stay in order. |
| `LedgerObject.Ledger.RestoreTransaction` | crates/glasschain-core/src/ledger.rs:276-294 | Appends to the pool unless the id is in the id index or pending. |
| `LedgerObject.Ledger.CommitMinedBlock` | crates/glasschain-core/src/ledger.rs:305-351 | Computes the commit step: stale restore, rejection with its trace in the cache, or append. |
| `LedgerObject.Ledger.ValidateChain` | crates/glasschain-core/src/ledger.rs:384-415 | Ok exactly when the headers are valid and the transactions replay, both read off the chain itself. |
| `LedgerObject.Ledger.TryReplaceChain` | crates/glasschain-core/src/ledger.rs:419-465 | Adopts exactly longer candidates with our genesis hash, valid headers and transactions past genesis that replay; keeps the pool and resets the indexes; a refusal changes nothing. |
| `LedgerObject.Ledger.ResetAdmissionIndexes` | crates/glasschain-core/src/ledger.rs:217-222 | Drops both indexes and nothing else. |
| `LedgerObject.Ledger.AppendPeerBlock` | crates/glasschain-network/src/node.rs:2412-2430 | Appends exactly sealed blocks that name the tip's hash and the next index (on an empty chain, index 0 and previous hash "0"), pruning their ids from the pool and leaving both indexes behind. |
| `LedgerIndex.IdsPrefixOverRuns` | crates/glasschain-core/src/ledger.rs:194-214 | Over every run, failures and peer blocks included, in which no commit leaves a gap, a present id index is the id set of the blocks it has consumed. |
| `LedgerIndex.CommitKeepsPrefixIff` | crates/glasschain-core/src/ledger.rs:340-350 | A successful commit keeps the index so if and only if the ids of the blocks it had not consumed are known to it or in the new block. |
| `LedgerIndex.IdsExactAlways` | crates/glasschain-core/src/ledger.rs:194-214 | Over every run of the ledger's own operations, failures included, a present id index is the id set of the whole chain. |
| `LedgerIndex.FoldIdsIsRebuild` | crates/glasschain-core/src/ledger.rs:194-214 | Folding an index that is behind gives the ids of the whole chain. |
| `LedgerIndex.FoldCapabilityIsRebuild` | crates/glasschain-core/src/ledger.rs:178-191 | Folding a well-kept cache gives the replay from genesis, or fails where that fails. |
| `LedgerIndex.FoldIsQuietIff` | crates/glasschain-core/src/capability.rs:290-304 | A replay step, accepted or not, leaves the history alone exactly when the block holds no activation, or its first is inadmissible or behind an invalid record. |
| `LedgerIndex.ExactOverRuns` | crates/glasschain-core/src/ledger.rs:305-351 | Over runs whose rejected commits are of quiet blocks the cached history is the replay of what it consumed, or stands before a block no replay accepts. |
| `LedgerIndex.AdmissionEqualsRebuild` | crates/glasschain-core/src/ledger.rs:117-222 | After every run with quiet rejections and no gaps, peer blocks included, each admission decision equals the one made after dropping both indexes. |
| `LedgerIndex.RejectedCommitKeepsCacheIff` | crates/glasschain-core/src/ledger.rs:332-339 | A rejected commit keeps the cached history exact if and only if the block is quiet. |
| `LedgerIndex.RejectedCommitDecidesIff` | crates/glasschain-core/src/ledger.rs:332-339 | After a rejected commit all admission decisions are those of a rebuild if and only if the block is quiet, or the pool is full and no id but the empty one is known. |
| `LedgerIndex.RejectedCommitPoisonsAdmission` | crates/glasschain-core/src/ledger.rs:332-339 | From a fresh ledger, a rejected double activation makes the ledger refuse an activation that a rebuild accepts. |
| `LedgerIndex.CommitDecidesIff` | crates/glasschain-core/src/ledger.rs:340-350 | After a successful commit all admission decisions are those of a rebuild if and only if no well-formed skipped id is unknown to index, block and pool. |
| `LedgerIndex.AdmissionMeaning` | crates/glasschain-core/src/ledger.rs:117-170 | Admission in full: Ok exactly for a non-empty id on a replayable chain when a record is valid, an activation is a proper one of a capability the chain has not activated, an update is sound, and the id is on the chain, pending, or finds fewer than 8000 pending; queued at the end exactly when new. |
| `LedgerIndex.EmptyLedgerAnswers` | crates/glasschain-core/src/ledger.rs:117-351 | With no block at all commits, records and activations answer EmptyLedger, and other kinds are queued as usual. |
| `LedgerIndex.CommitMeaning` | crates/glasschain-core/src/ledger.rs:305-351 | On the tip a commit succeeds exactly when every transaction of the extended chain is committable, no capability is activated twice and every block is sound in its policies. |
| `LedgerSafety.DominatedAcceptance` | crates/glasschain-core/src/ledger.rs:326-339 | A block accepted by a cache that knows too much is accepted by the true replay. |
| `LedgerSafety.ChainStaysValid` | crates/glasschain-core/src/ledger.rs:265-465 | Over every careful run, peer blocks, rejected commits and refused replacements included, the chain validates and the genesis block is fixed up to its certificate. |
| `LedgerSafety.CommitKeepsChainValidIff` | crates/glasschain-core/src/ledger.rs:305-351 | A successful commit keeps a valid chain valid if and only if the block links to the tip and is consensus-admissible, even when the cache knows too much. |
| `LedgerSafety.PeerKeepsChainValidIff` | crates/glasschain-network/src/node.rs:2412-2430 | A peer's block that extends the tip keeps a valid chain valid if and only if it is admissible and replays. |
| `LedgerSafety.ChainNeverShrinks` | crates/glasschain-core/src/ledger.rs:419-465 | The chain never gets shorter. |
| `LedgerSafety.AdoptionIff` | crates/glasschain-core/src/ledger.rs:419-465 | A candidate is adopted exactly when it is longer, shares the genesis hash and is valid throughout. |
| `LedgerSafety.ValidChainIff` | crates/glasschain-core/src/ledger.rs:384-415 | A chain validates exactly when its headers are valid and its transactions replay, read off the chain itself. |
| `LedgerSafety.AdoptableIff` | crates/glasschain-core/src/ledger.rs:419-465 | A candidate is adopted exactly when it is longer, has our genesis hash, valid headers, and transactions past genesis that replay. |
| `LedgerSafety.MinedBlocksIff` | crates/glasschain-core/src/ledger.rs:80-249 | The genesis block and the next block over a slice are exactly what proof of work makes of the fresh blocks. |
| `LedgerSafety.AgreeingTipsAgreeOnHistory` | crates/glasschain-core/src/ledger.rs:384-415 | Two ledgers after careful runs that agree on the tip hash agree on every field of every block but its certificate, or hold a collision. |
| `LedgerSafety.MiningKeepsChainValidIff` | crates/glasschain-core/src/ledger.rs:238-249 | Unvalidated mining keeps a valid chain valid if and only if the slice's activations are future, distinct and new. |
| `LedgerSafety.MiningCanInvalidateChain` | crates/glasschain-core/src/ledger.rs:238-249 | Two admitted activations of one capability make the mined chain invalid. |
| `LedgerMining.AddEffect` | crates/glasschain-core/src/ledger.rs:153-169 | A submission joins the queue exactly when it passes the screen, is new to index and pool and there is room; then it is new to the chain if the index is a prefix, and an Ok without queueing means the id is known. |
| `LedgerMining.FirstInFirstOut` | crates/glasschain-core/src/ledger.rs:117-249 | Over submissions and local mining, chain then pool spell the admitted transactions in order, ids distinct, blocks and pool within quota. |
| `LedgerMining.LocalMiningIsSafeIff` | crates/glasschain-core/src/ledger.rs:238-249 | Over such runs the next mining keeps the chain valid if and only if the slice is clean. |
| `LedgerMining.ReplacementDuplicatesIff` | crates/glasschain-core/src/ledger.rs:457-464 | Over every run of submissions and local mining after an adoption, committed and pending ids are distinct if and only if no pending id was in the adopted chain; once the old pool is mined, so are the committed ones. |
| `LedgerMining.ReplacementCommitsTwice` | crates/glasschain-core/src/ledger.rs:419-465 | From a fresh ledger: a transaction pending, adopted from a peer's chain and mined again is committed twice. |
| `LedgerMining.CommitCanInvalidateChain` | crates/glasschain-core/src/ledger.rs:305-351 | From a fresh ledger: any plain block that does not link to the tip or is not admissible commits and leaves the chain invalid. |
| `LedgerMining.PoliciesReplayIff` | crates/glasschain-core/src/ledger.rs:238-465 | Over every run the chain's policies keep replaying if and only if each mined block and each peer block on the tip is sound in its policies and each adopted chain replays. |
| `LedgerMining.BrokenPoliciesStopCommits` | crates/glasschain-core/src/ledger.rs:331-339 | Once the chain's policies do not replay, no commit succeeds over any later run, until a chain is adopted. |
| `LedgerMining.MinedConflictStopsCommits` | crates/glasschain-core/src/ledger.rs:238-249 | From a fresh ledger: an update and a write of the key it names, admitted and mined together, have that effect. |
| `LedgerMining.GapReadmitsCommitted` | crates/glasschain-core/src/ledger.rs:340-350 | From a fresh ledger: after a block mined on top of a peer's block, the peer's transaction is queued again, which a rebuild would not do. |
| `LedgerRounds.PoolStaysBounded` | crates/glasschain-core/src/ledger.rs:20-30 | Over every run of submissions, rounds, deliveries, peer blocks, local mining and adoptions, pool plus round in flight never exceeds 12,000. |
| `LedgerRounds.StaleRestoreRequeuesIff` | crates/glasschain-core/src/ledger.rs:276-325 | A restore requeues a committed id exactly when only blocks the index has not consumed hold it. |
| `LedgerRounds.RestoredInOrder` | crates/glasschain-core/src/ledger.rs:276-325 | A restored list goes behind the pool in its own order, each transaction unless its id is in the index, was pending or came earlier in the list. |
| `LedgerRounds.PurgedInOrder` | crates/glasschain-network/src/node.rs:2412-2430 | Pruning keeps the pool's order and drops exactly the block's ids. |
| `LedgerRounds.StaleRoundRestores` | crates/glasschain-core/src/ledger.rs:316-325 | After a stale commit every drained id is pending exactly once or committed, behind the untouched pool. |
| `LedgerRounds.LiveRoundCommits` | crates/glasschain-core/src/ledger.rs:340-350 | A round on the tip that passes the gate appends exactly the drained slice and keeps the pool. |
| `LedgerRounds.StepKeepsIdsIff` | crates/glasschain-core/src/ledger.rs:265-465 | A step of any kind keeps every id the node accounts for if and only if it meets a condition read before it. |
| `LedgerRounds.RoundOnTipKeepsIdsIff` | crates/glasschain-core/src/ledger.rs:305-351 | With well-kept indexes, a round on the tip keeps its ids if and only if the extended chain replays under both histories, or they are committed or pending anyway. |
| `LedgerRounds.NothingIsLostIff` | crates/glasschain-core/src/ledger.rs:265-465 | Over every run no step forgets an id if and only if every step meets that condition. |
| `LedgerRounds.NothingIsLost` | crates/glasschain-core/src/ledger.rs:265-465 | Between any two points of a run joined by such steps, a held id stays in chain, flight or pool. |
| `LedgerRounds.AcceptedSubmissionSurvives` | crates/glasschain-core/src/ledger.rs:117-351 | A submission answered Ok stays accounted for through such steps. |
| `LedgerRounds.RejectedRoundLosesTransactions` | crates/glasschain-core/src/ledger.rs:331-339 | From a fresh ledger: two submissions answered Ok, drained and rejected, after which neither id is known. |
| `LedgerRounds.StepAccounted` | crates/glasschain-core/src/ledger.rs:117-465 | From distinct holdings, a step keeps ids distinct if and only if what it brings in is new, and what is held after plus what it let go of equals what was held plus what it brought in. |
| `LedgerRounds.MiningConserves` | crates/glasschain-core/src/ledger.rs:117-465 | Over every such run, rejected, stale and abandoned rounds, peer blocks and adoptions included, chain, flight and pool hold exactly what came in and was not let go of, each id once. |
| `LedgerRounds.NothingIsDuplicatedIff` | crates/glasschain-core/src/ledger.rs:117-465 | Over every run no id is ever held twice if and only if every step brings in only new ids. |
| `LedgerRounds.ReadmissionDuplicatesIff` | crates/glasschain-core/src/ledger.rs:117-170 | With well-kept indexes, a submission makes ids collide if and only if its id is in flight, it is eligible for the next block and there is room. |
| `LedgerRounds.ResubmissionCommitsTwice` | crates/glasschain-core/src/ledger.rs:117-351 | From a fresh ledger: a transaction sent again while in flight is committed twice. |
| `LedgerRounds.OvertakenRoundRequeues` | crates/glasschain-core/src/ledger.rs:276-325 | From a fresh ledger: a peer's block commits a transaction in flight, and the stale round queues it again. |
| `Bitmap.WithBitAddsOne` | crates/glasschain-core/src/bft.rs:81-98 | Setting a validator's bit adds that validator and nobody else. |
| `Bitmap.ExpandSigners` | crates/glasschain-core/src/bft.rs:215-264 | The nested loops compute the ascending set bits. |
| `Bitmap.SignersAreExactlyTheSetBits` | crates/glasschain-core/src/bft.rs:202-264 | Expansion is strictly ascending and names exactly the set bits, lowest bit of the first byte first. |
| `Bitmap.SignersInRange` | crates/glasschain-core/src/bft.rs:274-290 | True exactly when every index is inside the set. |
| `Bitmap.QuorumIsTwoThirds` | crates/glasschain-core/src/bft.rs:56-133 | A signer count reaches quorum exactly when three times it exceeds twice the set, or the word size where that saturates. |
| `Bitmap.BitmapLen` | crates/glasschain-core/src/bft.rs:66-80 | The least number of bytes with a bit for every validator. |
| `Bitmap.QuorumsIntersect` | crates/glasschain-core/src/bft.rs:56-63 | Two sets of more than two thirds of n share more than n/3. |
| `Votes.VoteMessageInjective` | crates/glasschain-core/src/bft.rs:776-784 | A vote message determines its hash. |
| `Votes.VoteMessageLayout` | crates/glasschain-core/src/bft.rs:776-784 | A vote message is the domain, the hash's byte length in four big-endian bytes, and the hash. |
| `Votes.ContextMessageLayout` | crates/glasschain-core/src/bft.rs:795-817 | A context message is the domain, the chain id behind its length, the height in eight bytes, the round in four, the phase as 0 or 1, and the hash behind its length. |
| `Votes.ContextMessageInjective` | crates/glasschain-core/src/bft.rs:795-817 | A context message determines chain, height, round, phase and hash. |
| `Votes.DomainsAreSeparate` | crates/glasschain-core/src/bft.rs:331-336 | Vote, context and possession messages never coincide. |
| `Votes.VerifiedVoteWasCast` | crates/glasschain-core/src/bft.rs:860-904 | Under unforgeability a verifying vote is one the key cast: nothing else it signed re-parses as it. |
| `Votes.HonestKeyIsNeverConvicted` | crates/glasschain-core/src/bft.rs:941-966 | No proof verifies against a key with at most one hash per context. |
| `Votes.ConvictableIffEquivocated` | crates/glasschain-core/src/bft.rs:941-966 | A proof made of real signatures verifies against a key if and only if it cast two hashes in one context. |
| `Certificates.Position` | crates/glasschain-core/src/bft.rs:506-511 | The first validator holding the key, or none does. |
| `Certificates.RegisterValidators` | crates/glasschain-core/src/bft.rs:371-403 | Accepts a set exactly when every key has 48 bytes, decodes, and signed the possession message of its own hex digits. |
| `Certificates.VerifyVote` | crates/glasschain-core/src/bft.rs:504-515 | Yields a position exactly when the vote carries the BLS algorithm, a well-formed key of the set, and that key's signatures over the vote and the context message. |
| `Certificates.AggregateVotes` | crates/glasschain-core/src/bft.rs:522-539 | Succeeds exactly on a non-empty list of votes that each verify and come from the set; the bitmap names exactly the voters and the aggregate holds each voter's signature over the hash its first vote names. |
| `Certificates.VerifyCertificate` | crates/glasschain-core/src/bft.rs:549-611 | Ok exactly when the certificate names the block's index and hash, its bits name validators only, more than two thirds of them, and its BLS aggregate holds for each key exactly one signature over the block's vote message per named position. |
| `Certificates.AggregateExpandsToVoters` | crates/glasschain-core/src/bft.rs:215-264 | The bitmap expands to the distinct voters, ascending, for any order and duplicates; the aggregate is over one message if and only if all first votes name its hash. |
| `Certificates.CertificateFromVotes` | crates/glasschain-core/src/bft.rs:504-611 | A certificate built from votes is accepted exactly when the distinct voting keys are more than two thirds of the set and the first vote of each names the block's hash. |
| `Certificates.CertifiedIff` | crates/glasschain-core/src/bft.rs:549-611 | The same reading of acceptance, for every certificate, block and registered set. |
| `Certificates.QuorumIntersection` | crates/glasschain-core/src/bft.rs:549-611 | Any two accepted certificates name more than n/3 validators in common. |
| `Certificates.AcceptedIsSigned` | crates/glasschain-core/src/bft.rs:627-663 | An accepted certificate holds each named validator's signature over the block's vote message. |
| `Accountability.CommonSignersSignedBoth` | crates/glasschain-core/src/bft.rs:549-611 | Two certificates for different hashes leave more than n/3 validators whose keys signed both of two different messages. |
| `Accountability.SharedKeysIff` | crates/glasschain-core/src/bft.rs:371-403 | For every registered set and any two blocks, all pairs of accepted certificates share more than n/3 keys if and only if every set of positions two quorums may meet in holds more than n/3 keys. |
| `Accountability.DistinctKeysAlwaysShared` | crates/glasschain-core/src/bft.rs:549-611 | With distinct keys all pairs of accepted certificates share more than n/3 keys. |
| `Accountability.QuorumCertifies` | crates/glasschain-core/src/bft.rs:549-611 | Any set of more than two thirds of the registered validators has an accepted certificate for any block that names exactly it. |
| `Accountability.CommonSignersCastBoth` | crates/glasschain-core/src/bft.rs:776-966 | Under unforgeability a key behind both certificates has cast both hashes, and an equivocation proof convicts it of them if and only if it cast them in one context. |
| `Accountability.CertificatesWithoutConviction` | crates/glasschain-core/src/bft.rs:776-784 | Any registered set can certify two hashes from votes cast in two contexts, and then no proof verifies against any key. |
| `Accountability.PrevotesCertify` | crates/glasschain-core/src/bft.rs:522-611 | Aggregating prevotes alone gives a certificate that is accepted. |
| `Accountability.OneKeyCertifiesAlone` | crates/glasschain-core/src/bft.rs:371-403 | One key registered n times is an accepted set, and two accepted certificates for any two blocks have that key alone behind them. |
| `WriteSet.Canonicalize` | crates/glasschain-core/src/write_set.rs:137-182 | Succeeds exactly when no scope part or collection is empty and no two writes share channel, contract and key; the result is a permutation ordered by channel, contract and key, with the ephemeral part kept. |
| `WriteSet.CanonicalIgnoresOrder` | crates/glasschain-core/src/write_set.rs:131-182 | All orders of one list fail together or canonicalise identically. |
| `WriteSet.CanonicalIsIdempotent` | crates/glasschain-core/src/write_set.rs:137-182 | Canonicalising twice is canonicalising once. |
| `WriteSet.RedactionCommutesWithSort` | crates/glasschain-core/src/write_set.rs:91-99 | Redaction and canonical order commute. |
| `WriteSet.CommittedWritesBind` | crates/glasschain-core/src/write_set.rs:91-99 | Executions whose redacted canonical write sets agree made the same writes, private values included, up to order, or exhibit a digest collision. |
| `WriteSet.BlockFormsAgreeIff` | crates/glasschain-core/src/write_set.rs:91-99 | Block forms agree if and only if the writes do in everything but private values, and those in their digests. |
| `WriteSet.CommittedWritesHide` | crates/glasschain-core/src/write_set.rs:91-182 | Executions that differ only in private values with equal digests commit one write set, which holds each public write and delete as it is and each private value as its digest. |
| `WriteSet.ApplyWritesReads` | crates/glasschain-core/src/write_set.rs:109-118 | After writes that do not contradict each other each key reads what its writes say, and any other key what it read before. |
| `WriteSet.ApplyWritesMeaning` | crates/glasschain-core/src/write_set.rs:103-118 | After any list of writes each "ws:channel:contract:key" reads what the last write to it says, and a key nobody writes what it read before. |
| `WriteSet.OrderOfWritesIsIrrelevant` | crates/glasschain-core/src/write_set.rs:109-118 | Writes that do not contradict each other give one cache in any order. |
| `WriteSet.AllOrdersAgreeIff` | crates/glasschain-core/src/write_set.rs:109-118 | All orders of a write list give one cache if and only if no two of its writes do different things to one state key. |
| `WriteSet.TwoWritesCommuteIff` | crates/glasschain-core/src/write_set.rs:109-118 | Two writes commute if and only if their keys differ or they do the same. |
| `WriteSet.JoinedInjective` | crates/glasschain-core/src/write_set.rs:103-105 | State keys are injective when channels and contracts hold no colon. |
| `WriteSet.StateKeyAmbiguousIff` | crates/glasschain-core/src/write_set.rs:103-105 | Among scopes without empty parts, one shares its state key with another if and only if it holds a colon past the channel's first character, before the key's last, or in a contract longer than one character. |
| `WriteSet.SoundWritesCollide` | crates/glasschain-core/src/write_set.rs:103-182 | Two writes canonicalised side by side, with different scopes and one state key, leave different caches in different orders. |
| `WriteSet.CanonicalWritesCommute` | crates/glasschain-core/src/write_set.rs:103-182 | With colon-free scopes guest order and canonical order give one cache. |
| `Storage.LatestIndex` | crates/glasschain-core/src/providers.rs:488-496 | The greatest stored index, or the store is empty. |
| `Storage.WorldStateIsReplay` | crates/glasschain-core/src/providers.rs:111-136 | Whatever is offered, the store holds a contiguous hash-linked chain from 0 and its state is that chain's replay. |
| `Storage.WorldStateReads` | crates/glasschain-core/src/providers.rs:111-136 | Whatever is offered, each state key reads what the stored chain's last write to it says. |
| `Storage.ApplyBlockExtends` | crates/glasschain-core/src/providers.rs:202-222 | A candidate extends the stored chain exactly when it fits, and is otherwise ignored whole. |
| `Storage.GuestOrderIsIrrelevant` | crates/glasschain-core/src/providers.rs:473-475 | Guest order and canonical order of a block's writes leave one state. |
| `Storage.InMemoryStorageProvider.ApplyAtomically` | crates/glasschain-core/src/providers.rs:457-477 | Ok exactly when the block is at index 0 in an empty store, or names the index and hash that follow the block stored highest; computes the atomic commit, and a rejection changes nothing. |
| `Storage.InMemoryStorageProvider.ApplySequentially` | crates/glasschain-core/src/providers.rs:111-136 | The default computes the same store and outcome as the override. |
| `Engine.ContractEngine.RegisterContract` | crates/glasschain-contracts/src/engine.rs:68-75 | Registers a new id, answers AlreadyExists for a known one. |
| `Engine.ContractEngine.LoadFromLedger` | crates/glasschain-contracts/src/engine.rs:335-340 | Registers a new id, ignores a known one. |
| `Engine.ContractEngine.CancelContract` | crates/glasschain-contracts/src/engine.rs:221-228 | Cancels a known contract, answers NotFound otherwise. |
| `Engine.ContractEngine.PauseContract` | crates/glasschain-contracts/src/engine.rs:236-246 | Pauses an active contract only, answers NotFound or Inactive otherwise. |
| `Engine.ContractEngine.ResumeContract` | crates/glasschain-contracts/src/engine.rs:253-262 | Reactivates a paused contract only, answers NotFound for an unknown one. |
| `Engine.ContractEngine.EvaluateSupplyOffer` | crates/glasschain-contracts/src/engine.rs:269-330 | Evaluates all contracts in id order and returns what they emit, which `EvaluationBuysExactly` spells out. |
| `Engine.ContractEngine.EvaluateContract` | crates/glasschain-contracts/src/engine.rs:278-326 | One contract against one offer: gate, conditions, purchase; used up, it is Fulfilled and emits nothing. |
| `Engine.ContractEngine.RebuildFromChain` | crates/glasschain-contracts/src/engine.rs:353-380 | Two passes over the chain: creations, then executions. |
| `EngineRuns.RebuildMeaning` | crates/glasschain-contracts/src/engine.rs:353-380 | From any chain: the contracts it creates, each by its first creation, with the wrapping sum and count of its executions, Fulfilled exactly when some of them brought the sum to the cap. |
| `EngineRuns.EngineIsAccounted` | crates/glasschain-contracts/src/engine.rs:131-330 | Over every run purchases equal the sums of orders and of executions, stay within the cap (so no addition wraps), and agree with status and count. |
| `EngineRuns.OrdersHonourContracts` | crates/glasschain-contracts/src/engine.rs:93-180 | Over every run each order stays within its contract's buyer, product, currency, price, seller and cap. |
| `EngineRuns.EvaluationBuysExactly` | crates/glasschain-contracts/src/engine.rs:93-330 | After any run, an offer makes exactly the active contracts buy whose product, currency, price, lead time, quantity, seller and auto-execution terms it meets, whose code approves where there is an executor, and which are not used up: once each, in ascending contract id, an order and its execution with their ids, for all that is offered or up to the cap; every other contract is left as it was, or Fulfilled if it takes the offer but is used up. |
| `EngineRuns.DeniedOfferBuysNothing` | crates/glasschain-contracts/src/engine.rs:284-309 | After any run an offer the contract's code denies leaves the contract as it was and emits nothing for it. |
| `EngineRuns.DormantContractsStay` | crates/glasschain-contracts/src/engine.rs:221-309 | A paused, fulfilled or cancelled contract is unchanged and buys nothing over every further run that neither resumes it while paused nor cancels it; a cancelled one over every run. |
| `EngineDeals.OfferOversoldIff` | crates/glasschain-contracts/src/engine.rs:269-330 | After any run, what an evaluation orders in total stays within the offer if and only if its acceptors' demands, each the lesser of offer and remaining budget, sum to no more. |
| `EngineDeals.OfferSoldTwice` | crates/glasschain-contracts/src/engine.rs:269-330 | From an empty engine: two contracts with room for the whole offer are both sold all of it. |
| `EngineDeals.EmittedIdsDistinctIff` | crates/glasschain-contracts/src/engine.rs:131-180 | Over every run emitted ids are distinct if and only if no two deals join contract and offer to one key. |
| `EngineDeals.DealAmbiguousIff` | crates/glasschain-contracts/src/engine.rs:131-180 | Among deals on non-empty offer ids, one shares its key with another if and only if a dash stands in its contract id or before its offer id's last character. |
| `EngineDeals.DashFreeIdsDistinctIff` | crates/glasschain-contracts/src/engine.rs:131-180 | With dash-free contract ids emitted ids are distinct if and only if no contract takes one offer id twice. |
| `EngineDeals.EmittedIdsCollide` | crates/glasschain-contracts/src/engine.rs:131-180 | From an empty engine: contracts "x-y" and "x" taking offers "z" and "y-z" emit the same ids. |
| `EngineRuns.RebuildRecoversEngine` | crates/glasschain-contracts/src/engine.rs:353-380 | From any chain recording the run, rebuilding restores every contract's definition, purchases and count, and its status if and only if Active or Fulfilled under a positive cap. |
| `EngineRuns.LiveEngineEqualsReplay` | crates/glasschain-contracts/src/engine.rs:342-380 | Without pause, cancel and zero caps the rebuilt engine is the live one, for every block split, order and unrelated transactions. |
| `EngineRuns.ZeroCapIsForgotten` | crates/glasschain-contracts/src/engine.rs:322-325 | A zero-cap contract that meets a matching offer is fulfilled without a record, and rebuilding from any chain that records the run brings it back Active. |

## Left out

- Mine: bounds the number of attempts, because the source's search need not terminate.
- MinePendingTransactions: takes the mined block as an argument constrained to be proof of work over the drained slice, because the search for it is `Mine`.
- Revoke is a function of the key directory; the provider object around the directory is not modelled.
- Canonicalize: sorts by an insertion sort on values where the source sorts a copy in place.
- Block indexes and heights are unbounded naturals; the overflow of a u64 index is not modelled.
- Error messages; only the error class is kept.
- Locks and atomicity of storage under concurrency: each operation is one step.
- The schema rules of canonical records, traceable assets and trust scoring.
- Key registration with certificates and the provider's local attestation of its own blocks.
- Pairings, SHA-256, ed25519, base64 and serde encodings.
- WASM execution behind the approval gate, inventory triggers and workflows.
- The network protocol, round driver, RPC, CLI, indexer and demo; of the node only its append of a peer's block, whose earlier admission check appears as a condition.
