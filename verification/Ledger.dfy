/** The ledger object; each method is proved against its function in LedgerState (ledger.rs). */
module LedgerObject {
  import opened Types
  import opened Sequences
  import opened Blocks
  import opened Capability
  import opened Policy
  import opened LedgerState
  import LedgerSafety

  class Ledger {
    var chain: seq<Block>
    var pendingTransactions: seq<Transaction>
    var difficulty: nat
    var historyLen: nat
    var capabilityHistory: CapabilityHistory?
    var idsLen: nat
    var committedIds: Option<set<string>>

    function Model(): (s: State)
      reads this, capabilityHistory
    {
      State(chain, pendingTransactions, difficulty, historyLen,
            if capabilityHistory == null then None else Some(capabilityHistory.activations), idsLen, committedIds)
    }

    /** A new ledger over a mined genesis block. */
    constructor (genesis: Block, difficulty: nat)
      requires IsGenesis(genesis, difficulty)
      ensures Initial(Model()) && chain == [genesis] && this.difficulty == difficulty
    {
      chain := [genesis];
      pendingTransactions := [];
      this.difficulty := difficulty;
      historyLen := 0;
      capabilityHistory := null;
      idsLen := 0;
      committedIds := None;
    }

    method FoldCapabilityIndex() returns (outcome: Outcome)
      modifies this, capabilityHistory
      ensures Model() == FoldCapability(old(Model())).state
      ensures outcome == if FoldCapability(old(Model())).ok then Ok else Err(InvalidTransaction)
      ensures capabilityHistory == old(capabilityHistory) || fresh(capabilityHistory)
    {
      if historyLen == |chain| {
        return Ok;
      }
      if capabilityHistory == null {
        capabilityHistory := new CapabilityHistory();
      }
      var history := capabilityHistory;
      ghost var start := old(Model());
      while historyLen < |chain|
        invariant capabilityHistory == history && (history == old(capabilityHistory) || fresh(history))
        invariant Model() == start.(history := Some(history.activations), historyLen := historyLen)
        invariant FoldChain(history.activations, chain, historyLen)
               == FoldChain(if start.history.Some? then start.history.value else [], start.chain, start.historyLen)
        decreases |chain| - historyLen
      {
        var folded := history.ValidateBlock(chain[historyLen]);
        if folded.Err? {
          return folded;
        }
        historyLen := historyLen + 1;
      }
      return Ok;
    }

    method FoldCommittedIds()
      modifies this`idsLen, this`committedIds
      ensures Model() == FoldIds(old(Model()))
    {
      if committedIds.None? {
        var known := IdsOfBlocks({}, chain);
        assert known == Ids(Transactions(chain));
        idsLen := |chain|;
        committedIds := Some(known);
        return;
      }
      if idsLen < |chain| {
        var known := IdsOfBlocks(committedIds.value, chain[idsLen..]);
        idsLen := |chain|;
        committedIds := Some(known);
      }
    }

    /** Block by block, transaction by transaction. */
    static method IdsOfBlocks(start: set<string>, blocks: seq<Block>) returns (known: set<string>)
      ensures known == start + Ids(Transactions(blocks))
    {
      known := start;
      var i := 0;
      while i < |blocks|
        invariant i <= |blocks| && known == start + Ids(Transactions(blocks[..i]))
      {
        known := InsertIds(known, blocks[i].transactions);
        assert blocks[..i + 1] == blocks[..i] + [blocks[i]];
        TransactionsPush(blocks[..i], blocks[i]);
        i := i + 1;
      }
      assert blocks[..|blocks|] == blocks;
    }

    static method InsertIds(known: set<string>, txs: seq<Transaction>) returns (r: set<string>)
      ensures r == known + Ids(txs)
    {
      r := known;
      for i := 0 to |txs|
        invariant r == known + Ids(txs[..i])
      {
        r := r + {txs[i].id};
      }
    }

    method AddTransactionToPool(tx: Transaction) returns (outcome: Outcome)
      modifies this, capabilityHistory
      ensures Model() == AddTransaction(old(Model()), tx).state
      ensures outcome == AddTransaction(old(Model()), tx).outcome
      ensures capabilityHistory == old(capabilityHistory) || fresh(capabilityHistory)
    {
      if tx.id == "" {
        return Err(InvalidTransaction);
      }
      var nextHeight := NextHeight(chain);
      var folded := FoldCapabilityIndex();
      if folded.Err? {
        return folded;
      }
      ghost var f := FoldCapability(old(Model())).state;
      match tx.kind {
        case Record(record) =>
          if capabilityHistory == null {
            return Err(EmptyLedger);
          }
          var active := capabilityHistory.EffectiveSetAt(nextHeight);
          if !ValidRecordUnder(active, record) {
            return Err(InvalidTransaction);
          }
        case Activation(activation) =>
          if capabilityHistory == null {
            return Err(EmptyLedger);
          }
          var applied := TryActivation(capabilityHistory, activation, nextHeight);
          if applied.Err? {
            return applied;
          }
        case Policy(update) =>
          if update.channel == "" {
            return Err(InvalidTransaction);
          }
          if !ValidPolicies(update.policies) {
            return Err(InvalidTransaction);
          }
        case _ =>
      }
      assert Model() == f && Screen(f.history, tx, nextHeight).Ok?;
      FoldCommittedIds();
      var alreadyCommitted := committedIds.Some? && tx.id in committedIds.value;
      var alreadyPending := HasId(pendingTransactions, tx.id);
      if !alreadyCommitted && !alreadyPending {
        if |pendingTransactions| >= MAX_PENDING_TRANSACTIONS {
          return Err(InvalidTransaction);
        }
        pendingTransactions := pendingTransactions + [tx];
      }
      return Ok;
    }

    /** Apply an activation to a clone of the history. */
    static method TryActivation(history: CapabilityHistory, a: CapabilityActivation, height: nat) returns (outcome: Outcome)
      ensures outcome == if Admissible(history.activations, a, height) then Ok else Err(InvalidTransaction)
    {
      var trial := new CapabilityHistory.Clone(history);
      outcome := trial.Apply(a, height);
    }

    /** The mined block is supplied by the caller's proof-of-work search over the drained slice. */
    method MinePendingTransactions(block: Block) returns (outcome: Outcome)
      requires chain != [] ==> MinedOnTip(Model(), Slice(pendingTransactions), block)
      modifies this
      ensures old(chain) == [] ==> outcome == Err(EmptyLedger) && Model() == old(Model())
      ensures old(chain) != [] ==> outcome == Ok && Model() == MinePending(old(Model()), block)
      ensures old(chain) != [] ==>
        && chain == old(chain) + [block] && block.transactions + pendingTransactions == old(pendingTransactions)
        && |block.transactions| == (if |old(pendingTransactions)| < 4000 then |old(pendingTransactions)| else 4000)
    {
      if chain == [] {
        return Err(EmptyLedger);
      }
      pendingTransactions := pendingTransactions[SliceLength(pendingTransactions)..];
      chain := chain + [block];
      FoldCommittedIds();
      return Ok;
    }

    method PrepareMining() returns (r: Result<(nat, string, seq<Transaction>, nat)>)
      modifies this`pendingTransactions
      ensures old(chain) == [] ==> r == Failure(EmptyLedger) && Model() == old(Model())
      ensures old(chain) != [] ==>
        && Model() == Drain(old(Model()))
        && r == Success((NextHeight(chain), chain[|chain| - 1].hash, Slice(old(pendingTransactions)), difficulty))
      ensures r.Success? ==>
        && r.value.0 == chain[|chain| - 1].index + 1 && r.value.1 == chain[|chain| - 1].hash && r.value.3 == difficulty
        && r.value.2 + pendingTransactions == old(pendingTransactions)
        && |r.value.2| == (if |old(pendingTransactions)| < 4000 then |old(pendingTransactions)| else 4000)
    {
      if chain == [] {
        return Failure(EmptyLedger);
      }
      var next := NextHeight(chain);
      var take := SliceLength(pendingTransactions);
      var txns := pendingTransactions[..take];
      pendingTransactions := pendingTransactions[take..];
      return Success((next, chain[|chain| - 1].hash, txns, difficulty));
    }

    method RestoreTransaction(tx: Transaction)
      modifies this`pendingTransactions
      ensures Model() == Restore(old(Model()), tx)
      ensures pendingTransactions
           == if (committedIds.Some? && tx.id in committedIds.value) || exists t :: t in old(pendingTransactions) && t.id == tx.id
              then old(pendingTransactions) else old(pendingTransactions) + [tx]
    {
      if committedIds.Some? && tx.id in committedIds.value {
        return;
      }
      if HasId(pendingTransactions, tx.id) {
        return;
      }
      pendingTransactions := pendingTransactions + [tx];
    }

    method CommitMinedBlock(block: Block, expectedPrevHash: string) returns (r: Result<bool>)
      modifies this, capabilityHistory
      ensures Model() == Commit(old(Model()), block, expectedPrevHash).state
      ensures r == Commit(old(Model()), block, expectedPrevHash).result
      ensures capabilityHistory == old(capabilityHistory) || fresh(capabilityHistory)
    {
      if chain == [] {
        return Failure(EmptyLedger);
      }
      if chain[|chain| - 1].hash != expectedPrevHash {
        RestoreTransactions(block.transactions);
        return Success(false);
      }
      var folded := FoldCapabilityIndex();
      if folded.Err? {
        return Failure(InvalidTransaction);
      }
      if capabilityHistory == null {
        return Failure(EmptyLedger);
      }
      var history := capabilityHistory;
      var validated := history.ValidateBlock(block);
      if validated.Err? {
        return Failure(InvalidTransaction);
      }
      var built, policies := PolicyHistory.BuildFromBlocks(chain);
      if built.Err? {
        return Failure(InvalidTransaction);
      }
      var accepted := policies.ValidateBlock(block);
      if accepted.Err? {
        return Failure(InvalidTransaction);
      }
      AppendValidated(block);
      return Success(true);
    }

    /** Push a validated block and mark it consumed by both indexes. */
    method AppendValidated(block: Block)
      modifies this`chain, this`historyLen, this`idsLen, this`committedIds
      ensures Model() == Append(old(Model()), block)
    {
      chain := chain + [block];
      historyLen := |chain|;
      if committedIds.Some? {
        idsLen := |chain|;
        var known := InsertIds(committedIds.value, chain[|chain| - 1].transactions);
        committedIds := Some(known);
      }
    }

    method RestoreTransactions(txs: seq<Transaction>)
      modifies this`pendingTransactions
      ensures Model() == RestoreAll(old(Model()), txs)
    {
      for i := 0 to |txs|
        invariant RestoreAll(Model(), txs[i..]) == RestoreAll(old(Model()), txs)
      {
        SliceStep(txs, i);
        RestoreTransaction(txs[i]);
      }
    }

    /** The network's peer path: re-check the tip, prune the pool, push; neither index is touched. */
    method AppendPeerBlock(block: Block) returns (appended: bool)
      modifies this`chain, this`pendingTransactions
      ensures appended == ExtendsTip(old(chain), block)
      ensures appended <==>
        if old(chain) == [] then block.index == 0 && block.previousHash == "0"
        else Sealed(block) && block.previousHash == old(chain)[|old(chain)| - 1].hash && block.index == old(chain)[|old(chain)| - 1].index + 1
      ensures Model() == AppendPeer(old(Model()), block)
      ensures chain == if appended then old(chain) + [block] else old(chain)
    {
      if !ExtendsTip(chain, block) {
        return false;
      }
      var committed := InsertIds({}, block.transactions);
      assert committed == Ids(block.transactions);
      pendingTransactions := Retain(pendingTransactions, committed);
      chain := chain + [block];
      return true;
    }

    static method Retain(pool: seq<Transaction>, gone: set<string>) returns (kept: seq<Transaction>)
      ensures kept == Purge(pool, gone)
    {
      kept := [];
      for i := 0 to |pool|
        invariant kept + Purge(pool[i..], gone) == Purge(pool, gone)
      {
        SliceStep(pool, i);
        if pool[i].id !in gone {
          ConcatAssociates(kept, [pool[i]], Purge(pool[i + 1..], gone));
          kept := kept + [pool[i]];
        }
      }
      assert kept + [] == kept;
    }

    method ValidateChain() returns (outcome: Outcome)
      ensures outcome == if ValidChain(chain, difficulty) then Ok else Err(InvalidBlock)
      ensures outcome.Ok? <==> HeadersValid(chain, difficulty) && Replayable(chain, 0)
    {
      LedgerSafety.ValidChainIff(chain, difficulty);
      var i := 1;
      while i < |chain|
        invariant 1 <= i && (i <= |chain| || chain == [])
        invariant chain != [] ==> Linked(chain[..i], difficulty)
      {
        if !ChainsTo(chain[i], chain[i - 1]) {
          return Err(InvalidBlock);
        }
        if !ConsensusAdmissible(chain[i], difficulty) {
          return Err(InvalidBlock);
        }
        i := i + 1;
      }
      assert chain[..|chain|] == chain;
      var built, _ := CapabilityHistory.BuildFromBlocks(chain);
      if built.Err? {
        return Err(InvalidBlock);
      }
      if chain != [] {
        if !IsValid(chain[0]) {
          return Err(InvalidBlock);
        }
        if !HasLeadingZeros(chain[0].hash, difficulty) {
          return Err(InvalidBlock);
        }
      }
      return Ok;
    }

    /** Longest-chain rule; a refused candidate changes nothing. */
    method TryReplaceChain(candidate: seq<Block>) returns (replaced: bool)
      modifies this
      ensures replaced == Adoptable(old(chain), candidate, difficulty)
      ensures replaced <==>
        && |candidate| > |old(chain)| && (old(chain) != [] ==> candidate[0].hash == old(chain)[0].hash)
        && HeadersValid(candidate, difficulty) && Replayable(candidate, 1)
      ensures Model() == Replace(old(Model()), candidate)
      ensures replaced ==> chain == candidate && pendingTransactions == old(pendingTransactions)
      ensures !replaced ==> Model() == old(Model())
    {
      var fits := CheckCandidate(candidate);
      LedgerSafety.AdoptableIff(chain, candidate, difficulty);
      if !fits {
        return false;
      }
      chain := candidate;
      ResetAdmissionIndexes();
      return true;
    }

    /** The checks on a candidate, block by block, before anything is replaced. */
    method CheckCandidate(candidate: seq<Block>) returns (fits: bool)
      ensures fits == Adoptable(chain, candidate, difficulty)
    {
      if |candidate| <= |chain| {
        return false;
      }
      if chain != [] && chain[0].hash != candidate[0].hash {
        return false;
      }
      var history := new CapabilityHistory();
      for i := 1 to |candidate|
        invariant Linked(candidate[..i], difficulty)
        invariant FoldChain(history.activations, candidate, i) == FoldChain([], candidate, 1)
        invariant fresh(history)
      {
        if !ChainsTo(candidate[i], candidate[i - 1]) {
          return false;
        }
        if !ConsensusAdmissible(candidate[i], difficulty) {
          return false;
        }
        ghost var before := history.activations;
        var folded := history.ValidateBlock(candidate[i]);
        assert FoldChain(before, candidate, i).ok ==> FoldBlock(before, candidate[i]).ok;
        if folded.Err? {
          return false;
        }
      }
      assert candidate[..|candidate|] == candidate;
      if !IsValid(candidate[0]) {
        return false;
      }
      if !HasLeadingZeros(candidate[0].hash, difficulty) {
        return false;
      }
      return true;
    }

    method ResetAdmissionIndexes()
      modifies this
      ensures Model() == ResetIndexes(old(Model()))
    {
      historyLen := 0;
      capabilityHistory := null;
      idsLen := 0;
      committedIds := None;
    }
  }
}
