/** Chain safety over runs: validity, the fixed genesis, and growth (ledger.rs). */
module LedgerSafety {
  import opened Types
  import Sequences
  import opened Blocks
  import opened Capability
  import opened LedgerState
  import opened LedgerIndex

  // ---------------------------------------------------------------- a cache may know too much

  /** Whatever the chain has activated, the cached history knows. */
  ghost predicate Dominates(cached: seq<CapabilityActivation>, replayed: seq<CapabilityActivation>) {
    forall id :: Names(replayed, id) ==> Names(cached, id)
  }

  /** A block the dominating cache accepts is accepted by the true replay, and domination survives. */
  lemma DominatedAcceptance(cached: seq<CapabilityActivation>, replayed: seq<CapabilityActivation>, block: Block)
    requires Dominates(cached, replayed) && FoldBlock(cached, block).ok
    ensures FoldBlock(replayed, block).ok
    ensures Dominates(FoldBlock(cached, block).activations, FoldBlock(replayed, block).activations)
  {
    var txs := block.transactions;
    BlockReplays(cached, block);
    BlockReplays(replayed, block);
    forall id ensures Names(replayed + ActivationsIn(txs), id) ==> Names(cached + ActivationsIn(txs), id) {
      NamesConcat(cached, ActivationsIn(txs), id);
      NamesConcat(replayed, ActivationsIn(txs), id);
    }
  }

  /** Even a rejected step only adds to the cache. */
  lemma FoldKeepsDominating(cached: seq<CapabilityActivation>, replayed: seq<CapabilityActivation>, block: Block)
    requires Dominates(cached, replayed)
    ensures Dominates(FoldBlock(cached, block).activations, replayed)
  {
    var extra := FoldAppendsFuture(EffectiveSet(cached, block.index), cached, block.transactions, block.index);
    forall id | Names(replayed, id) ensures Names(cached + extra, id) { NamesConcat(cached, extra, id); }
  }

  // ---------------------------------------------------------------- the safety invariant

  /** The chain is valid and starts from `g`; a present cache dominates the replay of what it has consumed. */
  ghost predicate Safe(s: State, g: Block) {
    && s.chain != []
    && ValidChain(s.chain, s.difficulty)
    && SameBlock(s.chain[0], g)
    && s.historyLen <= |s.chain|
    && (if s.history.Some? then Dominates(s.history.value, Build(s.chain[..s.historyLen]).activations) else s.historyLen == 0)
  }

  /**
   * What the callers of the ledger owe: a block committed on the tip chains to it and is admissible, a
   * peer's block is admissible and replays, no candidate's genesis collides with ours, and a slice is
   * mined unvalidated only when it is clean.
   */
  predicate Careful(s: State, op: Op, g: Block) {
    match op
    case CommitBlock(block, expected) =>
      s.chain != [] && s.chain[|s.chain| - 1].hash == expected ==>
        ChainsTo(block, s.chain[|s.chain| - 1]) && ConsensusAdmissible(block, s.difficulty)
    case PeerBlock(block) =>
      ExtendsTip(s.chain, block) ==> ConsensusAdmissible(block, s.difficulty) && Build(s.chain + [block]).ok
    case ReplaceChain(candidate) => candidate != [] ==> !Collides(candidate[0], g)
    case Mine(block) =>
      && MinedOnTip(s, Slice(s.pool), block)
      && (forall i :: 0 <= i < |Slice(s.pool)| ==> Settled(Slice(s.pool)[i]))
      && CleanSlice(Slice(s.pool), Build(s.chain).activations, NextHeight(s.chain))
    case _ => true
  }

  /** Folding a dominating cache over the tail of a valid chain keeps it dominating, wherever it stops. */
  lemma {:induction false} FoldChainKeepsDominating(cached: seq<CapabilityActivation>, chain: seq<Block>, from: nat)
    requires from <= |chain| && Build(chain).ok && Dominates(cached, Build(chain[..from]).activations)
    ensures var f := FoldChain(cached, chain, from);
      from <= f.consumed <= |chain| && (f.ok ==> f.consumed == |chain|)
      && Dominates(f.activations, Build(chain[..f.consumed]).activations)
    decreases |chain| - from
  {
    if from < |chain| {
      FoldChainSplit([], chain, 0, from);
      BuildPush(chain[..from], chain[from]);
      assert chain[..from + 1] == chain[..from] + [chain[from]];
      var replayed := Build(chain[..from]).activations;
      FoldKeepsDominating(cached, replayed, chain[from]);
      if FoldBlock(cached, chain[from]).ok {
        DominatedAcceptance(cached, replayed, chain[from]);
        FoldChainKeepsDominating(FoldBlock(cached, chain[from]).activations, chain, from + 1);
      }
    }
  }

  lemma SafeFold(s: State, g: Block)
    requires Safe(s, g)
    ensures Safe(FoldCapability(s).state, g)
    ensures FoldCapability(s).ok ==> FoldCapability(s).state.historyLen == |s.chain| && FoldCapability(s).state.history.Some?
    ensures FoldCapability(s).state.(history := s.history, historyLen := s.historyLen) == s
  {
    var cached := if s.history.Some? then s.history.value else [];
    assert s.chain[..0] == [];
    FoldChainKeepsDominating(cached, s.chain, s.historyLen);
  }

  lemma LinkedPush(chain: seq<Block>, block: Block, difficulty: nat)
    requires chain != [] && Linked(chain, difficulty)
    ensures Linked(chain + [block], difficulty)
       <==> ChainsTo(block, chain[|chain| - 1]) && ConsensusAdmissible(block, difficulty)
  {
    var both, n := chain + [block], |chain|;
    assert both[n] == block && both[n - 1] == chain[n - 1];
    if ChainsTo(block, chain[n - 1]) && ConsensusAdmissible(block, difficulty) {
      forall i | 1 <= i < |both| ensures ChainsTo(both[i], both[i - 1]) && ConsensusAdmissible(both[i], difficulty) {
        if i < n { assert both[i] == chain[i] && both[i - 1] == chain[i - 1]; }
      }
    }
  }

  /** One more block keeps a valid chain valid exactly when it links, is admissible and replays. */
  lemma ValidPush(chain: seq<Block>, block: Block, difficulty: nat)
    requires chain != [] && ValidChain(chain, difficulty)
    ensures ValidChain(chain + [block], difficulty)
       <==> && ChainsTo(block, chain[|chain| - 1]) && ConsensusAdmissible(block, difficulty)
            && FoldBlock(Build(chain).activations, block).ok
  {
    LinkedPush(chain, block, difficulty);
    BuildPush(chain, block);
  }

  lemma SafeCommit(s: State, block: Block, expected: string, g: Block)
    requires Safe(s, g) && Careful(s, CommitBlock(block, expected), g)
    ensures Safe(Commit(s, block, expected).state, g)
  {
    if s.chain[|s.chain| - 1].hash != expected {
      RestoreAllFrame(s, block.transactions);
    } else {
      SafeFold(s, g);
      if FoldCapability(s).ok {
        assert s.chain[..|s.chain|] == s.chain;
        var cached, replayed := FoldCapability(s).state.history.value, Build(s.chain).activations;
        FoldKeepsDominating(cached, replayed, block);
        if Commit(s, block, expected).result.Success? {
          DominatedAcceptance(cached, replayed, block);
          BuildPush(s.chain, block);
          ValidPush(s.chain, block, s.difficulty);
          assert (s.chain + [block])[..|s.chain| + 1] == s.chain + [block];
        }
      }
    }
  }

  /** The commit gate checks contents only: a successful commit keeps the chain valid exactly when the block links and is admissible. */
  lemma CommitKeepsChainValidIff(s: State, block: Block, expected: string, g: Block)
    requires Safe(s, g) && Commit(s, block, expected).result == Success(true)
    ensures ValidChain(Commit(s, block, expected).state.chain, s.difficulty)
       <==> ChainsTo(block, s.chain[|s.chain| - 1]) && ConsensusAdmissible(block, s.difficulty)
  {
    CommitAppends(s, block, expected);
    SafeFold(s, g);
    assert s.chain[..|s.chain|] == s.chain;
    DominatedAcceptance(FoldCapability(s).state.history.value, Build(s.chain).activations, block);
    ValidPush(s.chain, block, s.difficulty);
  }

  /** A peer's block that extends the tip keeps the chain valid exactly when it is admissible and replays. */
  lemma PeerKeepsChainValidIff(s: State, block: Block)
    requires s.chain != [] && ValidChain(s.chain, s.difficulty) && ExtendsTip(s.chain, block)
    ensures ValidChain(AppendPeer(s, block).chain, s.difficulty)
       <==> ConsensusAdmissible(block, s.difficulty) && FoldBlock(Build(s.chain).activations, block).ok
  {
    ValidPush(s.chain, block, s.difficulty);
  }

  lemma SafePeer(s: State, block: Block, g: Block)
    requires Safe(s, g) && Careful(s, PeerBlock(block), g)
    ensures Safe(AppendPeer(s, block), g)
  {
    if ExtendsTip(s.chain, block) {
      ValidPush(s.chain, block, s.difficulty);
      BuildPush(s.chain, block);
      assert (s.chain + [block])[..s.historyLen] == s.chain[..s.historyLen];
    }
  }

  lemma SafeMine(s: State, block: Block, g: Block)
    requires Safe(s, g) && Careful(s, Mine(block), g)
    ensures Safe(MinePending(s, block), g)
  {
    MiningKeepsChainValidIff(s, block);
    assert (s.chain + [block])[..s.historyLen] == s.chain[..s.historyLen];
  }

  /** An adopted candidate replays from genesis: its genesis has our genesis' content, which is empty. */
  lemma AdoptedIsValid(s: State, candidate: seq<Block>, g: Block)
    requires Safe(s, g) && g.transactions == [] && Adoptable(s.chain, candidate, s.difficulty)
    requires !Collides(candidate[0], g)
    ensures ValidChain(candidate, s.difficulty)
    ensures SameBlock(candidate[0], g)
  {
    HashSealsBlock(s.chain[0], candidate[0]);
    assert FoldBlock([], candidate[0]) == Fold([], true);
  }

  /** A candidate is adopted exactly when it is longer, shares the genesis hash and is valid throughout. */
  lemma AdoptionIff(s: State, candidate: seq<Block>, g: Block)
    requires Safe(s, g) && g.transactions == [] && (candidate != [] ==> !Collides(candidate[0], g))
    ensures Adoptable(s.chain, candidate, s.difficulty)
       <==> |candidate| > |s.chain| && candidate[0].hash == g.hash && ValidChain(candidate, s.difficulty)
  {
    if |candidate| > |s.chain| && candidate[0].hash == g.hash && ValidChain(candidate, s.difficulty) {
      HashSealsBlock(s.chain[0], candidate[0]);
      assert FoldBlock([], candidate[0]) == Fold([], true);
    }
    if Adoptable(s.chain, candidate, s.difficulty) {
      AdoptedIsValid(s, candidate, g);
    }
  }

  lemma SafeStep(s: State, op: Op, g: Block)
    requires Safe(s, g) && g.transactions == [] && Careful(s, op, g)
    ensures Safe(Apply(s, op), g)
  {
    match op
    case Add(tx) => SafeFold(s, g);
    case Mine(block) => SafeMine(s, block, g);
    case CommitBlock(block, expected) => SafeCommit(s, block, expected, g);
    case PeerBlock(block) => SafePeer(s, block, g);
    case ReplaceChain(candidate) =>
      assert candidate[..0] == [];
      if Adoptable(s.chain, candidate, s.difficulty) { AdoptedIsValid(s, candidate, g); }
    case _ =>
  }

  predicate CarefulRun(s: State, ops: seq<Op>, g: Block) {
    ops != [] ==> CarefulRun(s, ops[..|ops| - 1], g) && Careful(Run(s, ops[..|ops| - 1]), ops[|ops| - 1], g)
  }

  lemma GenesisIsSafe(s: State)
    requires Initial(s)
    ensures Safe(s, s.chain[0])
  {
    assert FoldBlock([], s.chain[0]) == Fold([], true);
    assert FoldChain([], s.chain, 1) == ChainFold([], 1, true);
    assert s.chain[..0] == [];
  }

  /**
   * Chain safety: over every careful run, rejected commits and refused replacements included,
   * `validate_chain` keeps answering Ok and the genesis content never changes.
   */
  lemma {:induction false} ChainStaysValid(s: State, ops: seq<Op>)
    requires Initial(s) && CarefulRun(s, ops, s.chain[0])
    ensures var t := Run(s, ops);
      && Safe(t, s.chain[0])
      && ValidChain(t.chain, s.difficulty) && SameBlock(t.chain[0], s.chain[0])
  {
    if ops == [] {
      GenesisIsSafe(s);
    } else {
      ChainStaysValid(s, ops[..|ops| - 1]);
      SafeStep(Run(s, ops[..|ops| - 1]), ops[|ops| - 1], s.chain[0]);
      DifficultyIsFixed(s, ops);
    }
  }

  lemma StepGrows(s: State, op: Op)
    ensures |Apply(s, op).chain| >= |s.chain| && Apply(s, op).difficulty == s.difficulty
  {
    if op.CommitBlock? { RestoreAllFrame(s, op.block.transactions); }
  }

  lemma {:induction false} DifficultyIsFixed(s: State, ops: seq<Op>)
    ensures Run(s, ops).difficulty == s.difficulty
  {
    if ops == [] {
    } else {
      DifficultyIsFixed(s, ops[..|ops| - 1]);
      StepGrows(Run(s, ops[..|ops| - 1]), ops[|ops| - 1]);
    }
  }

  /** The chain never gets shorter, whatever is called. */
  lemma {:induction false} ChainNeverShrinks(s: State, ops: seq<Op>, k: nat)
    requires k <= |ops|
    ensures |Run(s, ops[..k]).chain| <= |Run(s, ops).chain|
  {
    if k == |ops| {
      assert ops[..k] == ops;
    } else {
      var earlier := ops[..|ops| - 1];
      ChainNeverShrinks(s, earlier, k);
      assert earlier[..k] == ops[..k];
      StepGrows(Run(s, earlier), ops[|ops| - 1]);
    }
  }

  // ---------------------------------------------------------------- what validation and adoption amount to

  /** `validate_chain` accepts exactly the chains whose headers are valid and whose transactions replay, read off the chain itself. */
  lemma ValidChainIff(chain: seq<Block>, difficulty: nat)
    ensures ValidChain(chain, difficulty) <==> HeadersValid(chain, difficulty) && Replayable(chain, 0)
  {
    HeadersValidIff(chain, difficulty);
    ReplayMeaning(chain);
  }

  /** `try_replace_chain` adopts exactly the longer candidates with our genesis hash whose headers are valid and whose blocks past genesis replay. */
  lemma AdoptableIff(chain: seq<Block>, candidate: seq<Block>, difficulty: nat)
    ensures Adoptable(chain, candidate, difficulty)
       <==> && |candidate| > |chain| && (chain != [] ==> candidate[0].hash == chain[0].hash)
            && HeadersValid(candidate, difficulty) && Replayable(candidate, 1)
  {
    if |candidate| > |chain| {
      HeadersValidIff(candidate, difficulty);
      ReplayFrom([], candidate, 1);
      ActivatesOnceIff(Sequences.Transactions(candidate[1..]));
    }
  }

  /** What proof of work makes of a fresh block: the genesis block, and the block over a slice on the tip. */
  lemma MinedBlocksIff(s: State, slice: seq<Transaction>, b: Block)
    ensures IsGenesis(b, s.difficulty) <==> Mined(Block(0, 0, [], [], "0", 0, "", None), b, s.difficulty)
    ensures s.chain != [] ==>
      var tip := s.chain[|s.chain| - 1];
      MinedOnTip(s, slice, b) <==> Mined(Block(tip.index + 1, 0, slice, [], tip.hash, 0, "", None), b, s.difficulty)
  {
  }

  /** Two ledgers that agree on their tip hash agree on their whole history, or hold a collision. */
  lemma AgreeingTipsAgreeOnHistory(s: State, ops: seq<Op>, t: State, more: seq<Op>)
    requires Initial(s) && CarefulRun(s, ops, s.chain[0])
    requires Initial(t) && CarefulRun(t, more, t.chain[0]) && t.difficulty == s.difficulty
    requires var x, y := Run(s, ops).chain, Run(t, more).chain;
      x != [] && y != [] && x[|x| - 1].hash == y[|y| - 1].hash
    ensures var x, y := Run(s, ops).chain, Run(t, more).chain;
      SameHistory(x, y) || ExhibitsCollision(x, y)
  {
    ChainStaysValid(s, ops);
    ChainStaysValid(t, more);
    TipHashFixesHistory(Run(s, ops).chain, Run(t, more).chain, s.difficulty);
  }

  // ---------------------------------------------------------------- unvalidated mining

  /** What admission has already settled about a queued transaction, whatever the height. */
  predicate Settled(tx: Transaction) {
    && (tx.kind.Record? ==> ValidRecord(tx.kind.record))
    && (tx.kind.Activation? ==> RegistryIdentity(tx.kind.activation) && tx.kind.activation.signatures != [])
  }

  /** The slice's activations are still future, name each capability once, and none already active. */
  predicate CleanSlice(slice: seq<Transaction>, activations: seq<CapabilityActivation>, height: nat) {
    && (forall tx :: tx in slice && tx.kind.Activation? ==> tx.kind.activation.activationHeight > height)
    && Sequences.Distinct(CapabilityIdsIn(slice))
    && forall id :: id in CapabilityIdsIn(slice) ==> !Names(activations, id)
  }

  /** Mining keeps a valid chain valid if and only if the drained slice is clean at the new height. */
  lemma MiningKeepsChainValidIff(s: State, block: Block)
    requires s.chain != [] && ValidChain(s.chain, s.difficulty)
    requires forall i :: 0 <= i < |Slice(s.pool)| ==> Settled(Slice(s.pool)[i])
    requires MinedOnTip(s, Slice(s.pool), block)
    ensures ValidChain(MinePending(s, block).chain, s.difficulty)
       <==> CleanSlice(Slice(s.pool), Build(s.chain).activations, NextHeight(s.chain))
  {
    var activations, slice, h := Build(s.chain).activations, Slice(s.pool), block.index;
    ValidPush(s.chain, block, s.difficulty);
    BlockReplays(activations, block);
    forall tx | tx in slice
      ensures Committable(tx, h) <==> (tx.kind.Activation? ==> tx.kind.activation.activationHeight > h)
    {
      var i :| 0 <= i < |slice| && slice[i] == tx;
      assert Settled(slice[i]);
    }
  }

  /** A fresh ledger whose indexes are folded and whose pool is `pool`. */
  function Queued(s: State, pool: seq<Transaction>): (r: State) {
    State(s.chain, pool, s.difficulty, 1, Some([]), 1, Some({}))
  }

  lemma FirstAdmission(s: State, tx: Transaction)
    requires Initial(s) && tx.id != "" && tx.kind.Activation? && Activatable(tx.kind.activation, 1)
    ensures AddTransaction(s, tx) == Step(Queued(s, [tx]), Ok)
  {
    assert FoldBlock([], s.chain[0]) == Fold([], true);
    assert FoldChain([], s.chain, 1) == ChainFold([], 1, true);
    assert FoldCapability(s) == Folded(s.(history := Some([]), historyLen := 1), true);
    assert Sequences.Transactions(s.chain) == [] && Ids([]) == {} by { assert Sequences.Transactions(s.chain[1..]) == []; }
    assert Screen(Some([]), tx, 1) == Ok;
  }

  lemma SecondAdmission(s: State, first: Transaction, tx: Transaction)
    requires Initial(s) && tx.id != "" && tx.id != first.id && tx.kind.Activation? && Activatable(tx.kind.activation, 1)
    ensures AddTransaction(Queued(s, [first]), tx) == Step(Queued(s, [first, tx]), Ok)
  {
    assert Screen(Some([]), tx, 1) == Ok;
    assert !HasId([first], tx.id);
  }

  lemma TwiceIsNotClean(first: Transaction, second: Transaction, activations: seq<CapabilityActivation>, height: nat)
    requires first.kind.Activation? && second.kind == first.kind
    ensures !CleanSlice([first, second], activations, height)
  {
    var slice, id := [first, second], first.kind.activation.capabilityId;
    assert slice[1..] == [second];
    assert CapabilityIdsIn([second]) == [id] + CapabilityIdsIn([second][1..]);
    var ids := CapabilityIdsIn(slice);
    assert ids == [id] + CapabilityIdsIn([second]);
    assert ids[0] == ids[1];
  }

  /** Two activations of one capability, both admitted to a fresh ledger, make the mined chain invalid. */
  lemma MiningCanInvalidateChain(s: State, first: Transaction, second: Transaction, block: Block)
    requires Initial(s) && first.id != "" && second.id != "" && first.id != second.id
    requires first.kind.Activation? && second.kind == first.kind && Activatable(first.kind.activation, 1)
    requires MinedOnTip(s, [first, second], block)
    ensures var one := AddTransaction(s, first);
      var two := AddTransaction(one.state, second);
      && one.outcome == Ok && two.outcome == Ok && two.state.pool == [first, second]
      && Enabled(two.state, Mine(block))
      && !ValidChain(Apply(two.state, Mine(block)).chain, s.difficulty)
  {
    FirstAdmission(s, first);
    SecondAdmission(s, first, second);
    GenesisIsSafe(s);
    var queued := Queued(s, [first, second]);
    assert Slice(queued.pool) == [first, second];
    TwiceIsNotClean(first, second, Build(s.chain).activations, NextHeight(s.chain));
    MiningKeepsChainValidIff(queued, block);
  }
}
