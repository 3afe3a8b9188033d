/** Submissions and local mining: order, uniqueness and bounds, before and after a chain is adopted (ledger.rs). */
module LedgerMining {
  import opened Types
  import opened Sequences
  import Blocks
  import opened Capability
  import opened Policy
  import opened LedgerState
  import opened LedgerIndex
  import opened LedgerSafety

  // ---------------------------------------------------------------- ids of transaction lists

  predicate DistinctIds(txs: seq<Transaction>) {
    forall i, j :: 0 <= i < j < |txs| ==> txs[i].id != txs[j].id
  }

  lemma DistinctIdsPush(txs: seq<Transaction>, tx: Transaction)
    ensures DistinctIds(txs + [tx]) <==> DistinctIds(txs) && !HasId(txs, tx.id)
  {
    var both := txs + [tx];
    assert both[|txs|] == tx && forall i :: 0 <= i < |txs| ==> both[i] == txs[i];
    if HasId(txs, tx.id) {
      var i :| 0 <= i < |txs| && txs[i].id == tx.id;
      assert both[i].id == both[|txs|].id;
    } else if !DistinctIds(txs) {
      var i, j :| 0 <= i < j < |txs| && txs[i].id == txs[j].id;
      assert both[i].id == both[j].id;
    }
  }

  lemma HasIdConcat(xs: seq<Transaction>, ys: seq<Transaction>, id: string)
    ensures HasId(xs + ys, id) <==> HasId(xs, id) || HasId(ys, id)
    ensures HasId(xs, id) <==> id in Ids(xs)
    ensures HasId(ys, id) <==> id in Ids(ys)
  {
    var both := xs + ys;
    if HasId(xs, id) {
      var i :| 0 <= i < |xs| && xs[i].id == id;
      assert both[i].id == id;
    }
    if HasId(ys, id) {
      var i :| 0 <= i < |ys| && ys[i].id == id;
      assert both[|xs| + i].id == id;
    }
  }

  /** A concatenation has distinct ids exactly when both parts do and share none. */
  lemma DistinctIdsConcat(xs: seq<Transaction>, ys: seq<Transaction>)
    ensures DistinctIds(xs + ys) <==> DistinctIds(xs) && DistinctIds(ys) && Ids(xs) !! Ids(ys)
  {
    var both := xs + ys;
    if DistinctIds(both) {
      forall i, j | 0 <= i < j < |xs| ensures xs[i].id != xs[j].id { assert both[i] == xs[i] && both[j] == xs[j]; }
      forall i, j | 0 <= i < j < |ys| ensures ys[i].id != ys[j].id {
        assert both[|xs| + i] == ys[i] && both[|xs| + j] == ys[j];
      }
      forall i, j | 0 <= i < |xs| && 0 <= j < |ys| ensures xs[i].id != ys[j].id {
        assert both[i] == xs[i] && both[|xs| + j] == ys[j];
      }
    } else if DistinctIds(xs) && DistinctIds(ys) {
      var i, j :| 0 <= i < j < |both| && both[i].id == both[j].id;
      if i < |xs| <= j {
        assert both[i] == xs[i] && both[j] == ys[j - |xs|];
        assert xs[i].id in Ids(xs) && ys[j - |xs|].id in Ids(ys);
      }
    }
  }

  lemma IdsConcat(xs: seq<Transaction>, ys: seq<Transaction>)
    ensures Ids(xs + ys) == Ids(xs) + Ids(ys)
  {
  }

  // ---------------------------------------------------------------- one submission

  /** The submission joins the queue: it passes the screen, its id is new to index and pool, and there is room. */
  predicate Admits(s: State, tx: Transaction) {
    var folded := FoldCapability(s);
    var ids := FoldIds(folded.state).ids;
    && tx.id != "" && folded.ok && Screen(folded.state.history, tx, NextHeight(s.chain)).Ok?
    && ids.Some? && tx.id !in ids.value && !HasId(s.pool, tx.id)
    && |s.pool| < MAX_PENDING_TRANSACTIONS
  }

  /** What one submission does to chain and pool, whatever its outcome. */
  lemma AddEffect(s: State, tx: Transaction)
    ensures var t := AddTransaction(s, tx);
      && t.state.chain == s.chain
      && t.state.pool == (if Admits(s, tx) then s.pool + [tx] else s.pool)
      && (Admits(s, tx) ==> Settled(tx))
      && (IdsPrefix(s) && Admits(s, tx) ==> tx.id !in Ids(Transactions(s.chain)))
      && (IdsSound(s) && t.outcome.Ok? && !Admits(s, tx) ==> HasId(s.pool, tx.id) || tx.id in Ids(Transactions(s.chain)))
  {
    var folded := FoldCapability(s).state;
    if IdsPrefix(s) { FoldIdsIsRebuild(folded); }
    if IdsSound(s) { FoldIdsKeepsSound(folded); }
  }

  // ---------------------------------------------------------------- local mining: first in, first out

  predicate Local(ops: seq<Op>) {
    forall i :: 0 <= i < |ops| ==> ops[i].Add? || ops[i].Mine?
  }

  /** The submissions that joined the queue, in order. */
  function Admitted(s: State, ops: seq<Op>): (r: seq<Transaction>) {
    if ops == [] then []
    else
      var earlier, op := ops[..|ops| - 1], ops[|ops| - 1];
      Admitted(s, earlier) + if op.Add? && Admits(Run(s, earlier), op.tx) then [op.tx] else []
  }

  predicate WithinQuota(s: State) {
    |s.pool| <= MAX_PENDING_TRANSACTIONS
    && forall i :: 0 <= i < |s.chain| ==> |s.chain[i].transactions| <= MAX_BLOCK_TRANSACTIONS
  }

  /** Mined blocks and the pool spell out `log`. */
  predicate InOrder(s: State, log: seq<Transaction>) {
    Transactions(s.chain) + s.pool == log && DistinctIds(log) && WithinQuota(s) && forall i :: 0 <= i < |log| ==> Settled(log[i])
  }

  lemma AddInOrder(s: State, tx: Transaction, log: seq<Transaction>)
    requires IdsPrefix(s) && InOrder(s, log)
    ensures InOrder(AddTransaction(s, tx).state, if Admits(s, tx) then log + [tx] else log)
  {
    AddEffect(s, tx);
    if Admits(s, tx) {
      DistinctIdsPush(log, tx);
      HasIdConcat(Transactions(s.chain), s.pool, tx.id);
      ConcatAssociates(Transactions(s.chain), s.pool, [tx]);
    }
  }

  lemma MineInOrder(s: State, block: Block, log: seq<Transaction>)
    requires InOrder(s, log) && MinedOnTip(s, Slice(s.pool), block)
    ensures InOrder(MinePending(s, block), log)
  {
    TransactionsPush(s.chain, block);
    var n := SliceLength(s.pool);
    assert s.pool == s.pool[..n] + s.pool[n..];
    ConcatAssociates(Transactions(s.chain), s.pool[..n], s.pool[n..]);
  }

  /**
   * First in, first out, over every run of submissions and local mining: the chain's transactions and
   * then the pool are exactly the admitted transactions in admission order, no id twice, no block over
   * its quota and no pool over its bound.
   */
  lemma {:induction false} FirstInFirstOut(s: State, ops: seq<Op>)
    requires Initial(s) && Local(ops) && ValidRun(s, ops)
    ensures InOrder(Run(s, ops), Admitted(s, ops))
  {
    if ops == [] {
      assert Transactions(s.chain) == [] by { assert Transactions(s.chain[1..]) == []; }
      assert [] + s.pool == [];
    } else {
      var earlier, op := ops[..|ops| - 1], ops[|ops| - 1];
      FirstInFirstOut(s, earlier);
      var t := Run(s, earlier);
      IdsExactAlways(s, earlier);
      assert op.Add? || op.Mine?;
      if op.Add? {
        AddInOrder(t, op.tx, Admitted(s, earlier));
        assert Admitted(s, earlier) + [] == Admitted(s, earlier);
      } else {
        MineInOrder(t, op.block, Admitted(s, earlier));
        assert Admitted(s, earlier) + [] == Admitted(s, earlier);
      }
    }
  }

  lemma SliceIsSettled(s: State, log: seq<Transaction>)
    requires InOrder(s, log)
    ensures forall i :: 0 <= i < |Slice(s.pool)| ==> Settled(Slice(s.pool)[i])
  {
    forall i | 0 <= i < |Slice(s.pool)| ensures Settled(Slice(s.pool)[i]) {
      assert Slice(s.pool)[i] == log[|Transactions(s.chain)| + i];
    }
  }

  /** So over local runs, whether mining keeps the chain valid is decided by the slice being clean. */
  lemma LocalMiningIsSafeIff(s: State, ops: seq<Op>, block: Block)
    requires Initial(s) && Local(ops) && ValidRun(s, ops)
    requires var t := Run(s, ops);
      t.chain != [] && ValidChain(t.chain, t.difficulty) && MinedOnTip(t, Slice(t.pool), block)
    ensures var t := Run(s, ops);
      ValidChain(Apply(t, Mine(block)).chain, t.difficulty)
      <==> CleanSlice(Slice(t.pool), Build(t.chain).activations, NextHeight(t.chain))
  {
    FirstInFirstOut(s, ops);
    SliceIsSettled(Run(s, ops), Admitted(s, ops));
    MiningKeepsChainValidIff(Run(s, ops), block);
  }

  // ---------------------------------------------------------------- after a chain is adopted

  /** Everything committed, and then everything pending. */
  function Held(s: State): (r: seq<Transaction>) {
    Transactions(s.chain) + s.pool
  }

  /** Neither a submission nor local mining makes held ids collide or stops them from colliding. */
  lemma LocalStepKeepsCollisions(s: State, op: Op)
    requires IdsPrefix(s) && (op.Add? || op.Mine?) && Enabled(s, op)
    ensures var t := Apply(s, op);
      IdsPrefix(t) && Held(s) <= Held(t) && (DistinctIds(Held(t)) <==> DistinctIds(Held(s)))
  {
    IdsPrefixStep(s, op);
    var committed := Transactions(s.chain);
    if op.Add? {
      AddEffect(s, op.tx);
      if Admits(s, op.tx) {
        DistinctIdsPush(Held(s), op.tx);
        HasIdConcat(committed, s.pool, op.tx.id);
        ConcatAssociates(committed, s.pool, [op.tx]);
      }
    } else {
      TransactionsPush(s.chain, op.block);
      var n := SliceLength(s.pool);
      assert s.pool == s.pool[..n] + s.pool[n..];
      ConcatAssociates(committed, s.pool[..n], s.pool[n..]);
    }
  }

  lemma {:induction false} LocalRunKeepsCollisions(s: State, ops: seq<Op>)
    requires IdsPrefix(s) && Local(ops) && ValidRun(s, ops)
    ensures var t := Run(s, ops);
      IdsPrefix(t) && Held(s) <= Held(t) && (DistinctIds(Held(t)) <==> DistinctIds(Held(s)))
  {
    if ops == [] {
    } else {
      var earlier, op := ops[..|ops| - 1], ops[|ops| - 1];
      LocalRunKeepsCollisions(s, earlier);
      assert op.Add? || op.Mine?;
      LocalStepKeepsCollisions(Run(s, earlier), op);
    }
  }

  /**
   * A replaced chain keeps the pool.  Over every later run of submissions and local mining, committed and
   * pending ids stay distinct if and only if no pending id was in the adopted chain; and once the old pool
   * has been mined, the chain alone repeats an id if and only if one was.
   */
  lemma ReplacementDuplicatesIff(s: State, candidate: seq<Block>, ops: seq<Op>)
    requires Adoptable(s.chain, candidate, s.difficulty)
    requires DistinctIds(Transactions(candidate)) && DistinctIds(s.pool)
    requires Local(ops) && ValidRun(Replace(s, candidate), ops)
    ensures var t := Run(Replace(s, candidate), ops);
      var clean := Ids(s.pool) !! Ids(Transactions(candidate));
      && (DistinctIds(Held(t)) <==> clean)
      && (clean ==> DistinctIds(Transactions(t.chain)))
      && (|Transactions(t.chain)| >= |Transactions(candidate)| + |s.pool| ==> (DistinctIds(Transactions(t.chain)) <==> clean))
  {
    var adopted := Replace(s, candidate);
    LocalRunKeepsCollisions(adopted, ops);
    var t := Run(adopted, ops);
    DistinctIdsConcat(Transactions(candidate), s.pool);
    DistinctIdsConcat(Transactions(t.chain), t.pool);
    var before, committed := Held(adopted), Transactions(t.chain);
    if |committed| >= |before| {
      assert committed == before + committed[|before|..] by { assert Held(t)[..|committed|] == committed; }
      DistinctIdsConcat(before, committed[|before|..]);
    }
  }

  // ---------------------------------------------------------------- reaching such states

  /** A transaction that neither admission nor replay looks into. */
  predicate Plain(tx: Transaction) {
    tx.id != "" && tx.kind.Asset?
  }

  /** A fresh ledger admits a plain transaction. */
  lemma PlainIsAdmitted(s: State, tx: Transaction)
    requires Initial(s) && Plain(tx)
    ensures AddTransaction(s, tx) == Step(Queued(s, [tx]), Ok)
  {
    assert FoldBlock([], s.chain[0]) == Fold([], true);
    assert FoldChain([], s.chain, 1) == ChainFold([], 1, true);
    assert FoldCapability(s) == Folded(s.(history := Some([]), historyLen := 1), true);
    assert Transactions(s.chain) == [] && Ids([]) == {} by { assert Transactions(s.chain[1..]) == []; }
  }

  lemma AdoptedRun(s: State, tx: Transaction, candidate: seq<Block>)
    requires Initial(s) && Plain(tx) && Adoptable(s.chain, candidate, s.difficulty)
    ensures var ops := [Add(tx), ReplaceChain(candidate)];
      ValidRun(s, ops) && Run(s, ops) == ResetIndexes(Queued(s, [tx]).(chain := candidate))
  {
    PlainIsAdmitted(s, tx);
    var one, ops := [Add(tx)], [Add(tx), ReplaceChain(candidate)];
    assert one[..0] == [] && ops[..1] == one;
    assert Run(s, one) == Queued(s, [tx]) && ValidRun(s, one);
  }

  lemma MinedAgain(adopted: State, tx: Transaction, again: Block)
    requires adopted.pool == [tx] && |adopted.chain| == 2 && adopted.chain[0].transactions == []
    requires adopted.chain[1].transactions == [tx] && again.transactions == [tx]
    ensures Transactions(MinePending(adopted, again).chain) == [tx, tx]
  {
    var g, b := adopted.chain[0], adopted.chain[1];
    assert adopted.chain == [g] + [b];
    TransactionsPush([g], b);
    assert Transactions([g]) == [] by { assert Transactions([g][1..]) == []; }
    TransactionsPush(adopted.chain, again);
  }

  /** A reachable repetition: pending, adopted from a peer's chain, and then mined again. */
  lemma ReplacementCommitsTwice(s: State, tx: Transaction, candidate: seq<Block>, again: Block)
    requires Initial(s) && Plain(tx) && Adoptable(s.chain, candidate, s.difficulty)
    requires |candidate| == 2 && candidate[0] == s.chain[0] && candidate[1].transactions == [tx]
    requires MinedOnTip(s.(chain := candidate), [tx], again)
    ensures var ops := [Add(tx), ReplaceChain(candidate), Mine(again)];
      ValidRun(s, ops) && Transactions(Run(s, ops).chain) == [tx, tx]
  {
    AdoptedRun(s, tx, candidate);
    var two, ops := [Add(tx), ReplaceChain(candidate)], [Add(tx), ReplaceChain(candidate), Mine(again)];
    assert ops[..2] == two;
    var adopted := Run(s, two);
    assert Slice(adopted.pool) == [tx];
    MinedAgain(adopted, tx, again);
  }

  predicate PlainBlock(b: Block) {
    forall i :: 0 <= i < |b.transactions| ==> Plain(b.transactions[i])
  }

  predicate PlainChain(chain: seq<Block>) {
    forall i :: 0 <= i < |chain| ==> PlainBlock(chain[i])
  }

  lemma {:induction false} PlainTransactionsFold(
    active: CapabilitySet, activations: seq<CapabilityActivation>, txs: seq<Transaction>, containing: nat)
    requires forall i :: 0 <= i < |txs| ==> Plain(txs[i])
    ensures FoldTransactions(active, activations, txs, containing) == Fold(activations, true)
    ensures FilterMap(UpdateOf, txs) == [] && ChangedKeys(txs) == []
    decreases |txs|
  {
    if txs == [] {
    } else {
      assert Plain(txs[0]);
      PlainTransactionsFold(active, activations, txs[1..], containing);
    }
  }

  lemma PlainBlockFolds(activations: seq<CapabilityActivation>, updates: seq<PolicyUpdate>, b: Block)
    requires PlainBlock(b)
    ensures FoldBlock(activations, b) == Fold(activations, true) && FoldPolicies(updates, b) == PolicyFold(updates, true)
  {
    PlainTransactionsFold(EffectiveSet(activations, b.index), activations, b.transactions, b.index);
  }

  /** A chain of plain blocks replays to empty histories. */
  lemma {:induction false} PlainChainFolds(chain: seq<Block>, from: nat)
    requires PlainChain(chain) && from <= |chain|
    ensures FoldChain([], chain, from) == ChainFold([], |chain|, true)
    ensures FoldPolicyChain([], chain, from) == PolicyFold([], true)
    decreases |chain| - from
  {
    if from == |chain| {
    } else {
      PlainBlockFolds([], [], chain[from]);
      PlainChainFolds(chain, from + 1);
    }
  }

  /** A plain chain's cache, before any fold or after folds that left it empty-handed. */
  predicate PlainCache(s: State) {
    && s.chain != [] && PlainChain(s.chain) && s.historyLen <= |s.chain|
    && (s.history == Some([]) || (s.history == None && s.historyLen == 0))
  }

  /** With such a cache a plain block commits on the tip. */
  lemma PlainCommits(s: State, b: Block)
    requires PlainCache(s) && PlainBlock(b)
    ensures Commit(s, b, s.chain[|s.chain| - 1].hash)
         == Committed(Append(s, b).(history := Some([]), historyLen := |s.chain| + 1), Success(true))
  {
    PlainChainFolds(s.chain, s.historyLen);
    PlainChainFolds(s.chain, 0);
    PlainBlockFolds([], [], b);
  }

  /** And a plain submission passes every check but that of its id. */
  lemma PlainScreens(s: State, tx: Transaction)
    requires PlainCache(s) && Plain(tx)
    ensures AddTransaction(s, tx) == Enqueue(FoldIds(s.(history := Some([]), historyLen := |s.chain|)), tx)
  {
    PlainChainFolds(s.chain, s.historyLen);
  }

  /** Reachable: a plain block that does not link to the tip, or is not admissible, commits to a fresh ledger and leaves its chain invalid. */
  lemma CommitCanInvalidateChain(s: State, block: Block)
    requires Initial(s) && PlainBlock(block)
    requires !Blocks.ChainsTo(block, s.chain[0]) || !Blocks.ConsensusAdmissible(block, s.difficulty)
    ensures Commit(s, block, s.chain[0].hash).result == Success(true)
    ensures !ValidChain(Run(s, [CommitBlock(block, s.chain[0].hash)]).chain, s.difficulty)
  {
    var op := CommitBlock(block, s.chain[0].hash);
    assert [op][..0] == [];
    PlainCommits(s, block);
    GenesisIsSafe(s);
    CommitKeepsChainValidIff(s, block, s.chain[0].hash, s.chain[0]);
  }

  // ---------------------------------------------------------------- policies that were never replayed

  /** The run adopts no chain. */
  predicate AdoptsNothing(s: State, ops: seq<Op>) {
    ops != [] ==>
      && AdoptsNothing(s, ops[..|ops| - 1])
      && var t, op := Run(s, ops[..|ops| - 1]), ops[|ops| - 1];
         (op.ReplaceChain? ==> !Adoptable(t.chain, op.candidate, t.difficulty))
  }

  lemma StepKeepsPoliciesBroken(s: State, op: Op)
    requires !BuildPolicies(s.chain).ok && (op.ReplaceChain? ==> !Adoptable(s.chain, op.candidate, s.difficulty))
    ensures !BuildPolicies(Apply(s, op).chain).ok
    ensures op.CommitBlock? ==> Commit(s, op.block, op.expectedPrevHash).result != Success(true)
  {
    match op
    case Mine(block) => BuildPoliciesPush(s.chain, block);
    case PeerBlock(block) => BuildPoliciesPush(s.chain, block);
    case CommitBlock(block, expected) => RestoreAllFrame(s, block.transactions);
    case Add(tx) => AddEffect(s, tx);
    case _ =>
  }

  /** Once the chain's policies do not replay, no commit succeeds over any later run, until a chain is adopted. */
  lemma {:induction false} BrokenPoliciesStopCommits(s: State, ops: seq<Op>, block: Block, expected: string)
    requires !BuildPolicies(s.chain).ok && AdoptsNothing(s, ops)
    ensures !BuildPolicies(Run(s, ops).chain).ok
    ensures Commit(Run(s, ops), block, expected).result != Success(true)
  {
    if ops == [] {
    } else {
      var earlier, op := ops[..|ops| - 1], ops[|ops| - 1];
      BrokenPoliciesStopCommits(s, earlier, block, expected);
      StepKeepsPoliciesBroken(Run(s, earlier), op);
    }
    StepKeepsPoliciesBroken(Run(s, ops), CommitBlock(block, expected));
  }

  /** When a step keeps the chain's policies replaying, read before the step; commits always do. */
  ghost predicate KeepsPolicies(s: State, op: Op) {
    match op
    case Mine(block) => PolicySound(block)
    case PeerBlock(block) => ExtendsTip(s.chain, block) ==> PolicySound(block)
    case ReplaceChain(candidate) => Adoptable(s.chain, candidate, s.difficulty) ==> BuildPolicies(candidate).ok
    case _ => true
  }

  lemma PushKeepsPoliciesIff(chain: seq<Block>, block: Block)
    requires BuildPolicies(chain).ok
    ensures BuildPolicies(chain + [block]).ok <==> PolicySound(block)
  {
    BuildPoliciesPush(chain, block);
    PolicyReplayAccepts(BuildPolicies(chain).updates, block);
  }

  lemma StepKeepsPoliciesIff(s: State, op: Op)
    requires BuildPolicies(s.chain).ok
    ensures BuildPolicies(Apply(s, op).chain).ok <==> KeepsPolicies(s, op)
  {
    match op
    case Add(tx) => AddEffect(s, tx);
    case Mine(block) => PushKeepsPoliciesIff(s.chain, block);
    case PeerBlock(block) => PushKeepsPoliciesIff(s.chain, block);
    case CommitBlock(block, expected) =>
      RestoreAllFrame(s, block.transactions);
      BuildPoliciesPush(s.chain, block);
    case _ =>
  }

  /** After every prefix of the run the chain's policies replay. */
  predicate PoliciesAlwaysReplay(s: State, ops: seq<Op>) {
    BuildPolicies(Run(s, ops).chain).ok && (ops != [] ==> PoliciesAlwaysReplay(s, ops[..|ops| - 1]))
  }

  /** Every step of the run keeps the policies replaying. */
  ghost predicate PolicyCareful(s: State, ops: seq<Op>) {
    ops != [] ==> PolicyCareful(s, ops[..|ops| - 1]) && KeepsPolicies(Run(s, ops[..|ops| - 1]), ops[|ops| - 1])
  }

  /**
   * Over every run the chain's policies keep replaying if and only if each mined block and each peer's
   * block that extends the tip is sound in its policies, and each adopted chain replays.
   */
  lemma {:induction false} PoliciesReplayIff(s: State, ops: seq<Op>)
    requires Initial(s)
    ensures PoliciesAlwaysReplay(s, ops) <==> PolicyCareful(s, ops)
  {
    if ops == [] {
      PlainChainFolds(s.chain, 0);
    } else {
      var earlier, op := ops[..|ops| - 1], ops[|ops| - 1];
      PoliciesReplayIff(s, earlier);
      if PoliciesAlwaysReplay(s, earlier) { StepKeepsPoliciesIff(Run(s, earlier), op); }
    }
  }

  /** A transaction that declares a key, and an update that names it. */
  predicate Conflicting(update: Transaction, writer: Transaction) {
    && update.kind.Policy? && Plain(writer)
    && exists i, j, k ::
         && 0 <= i < |writer.endorsements| && 0 <= j < |writer.endorsements[i].target.keys|
         && 0 <= k < |update.kind.update.policies.keyPolicies|
         && writer.endorsements[i].target.channel == update.kind.update.channel
         && writer.endorsements[i].target.contract == update.kind.update.contract
         && writer.endorsements[i].target.keys[j] == update.kind.update.policies.keyPolicies[k].key
  }

  lemma {:induction false} DeclaredKeyIsListed(endorsements: seq<TransactionEndorsement>, i: nat, j: nat)
    requires i < |endorsements| && j < |endorsements[i].target.keys|
    ensures (endorsements[i].target.channel, endorsements[i].target.contract, endorsements[i].target.keys[j]) in DeclaredKeys(endorsements)
  {
    if i == 0 {
      var t := endorsements[0].target;
      var first := seq(|t.keys|, k requires 0 <= k < |t.keys| => (t.channel, t.contract, t.keys[k]));
      assert first[j] in first;
    } else {
      DeclaredKeyIsListed(endorsements[1..], i - 1, j);
    }
  }

  lemma ConflictIsRejected(updates: seq<PolicyUpdate>, update: Transaction, writer: Transaction, block: Block)
    requires Conflicting(update, writer) && block.transactions == [update, writer]
    ensures !FoldPolicies(updates, block).ok
  {
    var i, j, k :|
      && 0 <= i < |writer.endorsements| && 0 <= j < |writer.endorsements[i].target.keys|
      && 0 <= k < |update.kind.update.policies.keyPolicies|
      && writer.endorsements[i].target.channel == update.kind.update.channel
      && writer.endorsements[i].target.contract == update.kind.update.contract
      && writer.endorsements[i].target.keys[j] == update.kind.update.policies.keyPolicies[k].key;
    var u := update.kind.update;
    var scope := (u.channel, u.contract, u.policies.keyPolicies[k].key);
    DeclaredKeyIsListed(writer.endorsements, i, j);
    assert block.transactions[1..] == [writer] && [writer][1..] == [];
    assert TargetedKeys([writer]) == DeclaredKeys(writer.endorsements) + TargetedKeys([writer][1..]);
    assert TargetedKeys(block.transactions) == [] + TargetedKeys([writer]);
    assert scope in WrittenKeys(block);
    assert KeysNamed(u)[k] == scope && KeysNamed(u)[k] in KeysNamed(u);
    assert ChangedKeys(block.transactions) == KeysNamed(u) + ChangedKeys([writer]);
    var w :| 0 <= w < |WrittenKeys(block)| && WrittenKeys(block)[w] == scope;
  }

  lemma UpdateIsAdmitted(s: State, update: Transaction)
    requires Initial(s) && update.id != "" && update.kind.Policy? && ValidUpdate(update.kind.update)
    ensures AddTransaction(s, update) == Step(Queued(s, [update]), Ok)
  {
    assert FoldBlock([], s.chain[0]) == Fold([], true);
    assert FoldChain([], s.chain, 1) == ChainFold([], 1, true);
    assert FoldCapability(s) == Folded(s.(history := Some([]), historyLen := 1), true);
    assert Transactions(s.chain) == [] && Ids([]) == {} by { assert Transactions(s.chain[1..]) == []; }
  }

  lemma WriterIsAdmitted(s: State, update: Transaction, writer: Transaction)
    requires Initial(s) && Plain(writer) && writer.id != update.id
    ensures AddTransaction(Queued(s, [update]), writer) == Step(Queued(s, [update, writer]), Ok)
  {
    assert !HasId([update], writer.id);
  }

  /** Reachable: an update and a write of the key it names, both admitted and mined in one block, after which no commit succeeds until a chain is adopted. */
  lemma MinedConflictStopsCommits(
    s: State, update: Transaction, writer: Transaction, mined: Block, ops: seq<Op>, block: Block, expected: string)
    requires Initial(s) && update.id != "" && writer.id != update.id && Conflicting(update, writer) && ValidUpdate(update.kind.update)
    requires MinedOnTip(s, [update, writer], mined)
    requires AdoptsNothing(Run(s, [Add(update), Add(writer), Mine(mined)]), ops)
    ensures ValidRun(s, [Add(update), Add(writer), Mine(mined)])
    ensures Commit(Run(Run(s, [Add(update), Add(writer), Mine(mined)]), ops), block, expected).result != Success(true)
  {
    MinedConflict(s, update, writer, mined);
    BrokenPoliciesStopCommits(Run(s, [Add(update), Add(writer), Mine(mined)]), ops, block, expected);
  }

  lemma MinedConflict(s: State, update: Transaction, writer: Transaction, mined: Block)
    requires Initial(s) && update.id != "" && writer.id != update.id && Conflicting(update, writer) && ValidUpdate(update.kind.update)
    requires MinedOnTip(s, [update, writer], mined)
    ensures var ops := [Add(update), Add(writer), Mine(mined)];
      ValidRun(s, ops) && !BuildPolicies(Run(s, ops).chain).ok
  {
    UpdateIsAdmitted(s, update);
    WriterIsAdmitted(s, update, writer);
    var one, two, ops := [Add(update)], [Add(update), Add(writer)], [Add(update), Add(writer), Mine(mined)];
    assert one[..0] == [] && two[..1] == one && ops[..2] == two;
    assert Run(s, one) == Queued(s, [update]) && ValidRun(s, one);
    assert Run(s, two) == Queued(s, [update, writer]) && ValidRun(s, two);
    assert Slice([update, writer]) == [update, writer];
    ConflictIsRejected(BuildPolicies(s.chain).updates, update, writer, mined);
    BuildPoliciesPush(s.chain, mined);
  }

  // ---------------------------------------------------------------- a gap in the id index

  /** The ledger after `x` was admitted, a peer's block arrived and `x` was drained: the indexes have read genesis only. */
  function Overtaken(s: State, theirs: Block): (r: State) {
    Queued(s, []).(chain := s.chain + [theirs])
  }

  lemma OvertakenIsReached(s: State, x: Transaction, tx: Transaction, theirs: Block)
    requires Initial(s) && Plain(x) && Plain(tx) && x.id != tx.id
    requires Blocks.ChainsTo(theirs, s.chain[0]) && theirs.transactions == [tx]
    ensures Run(s, [Add(x), PeerBlock(theirs), Prepare]) == Overtaken(s, theirs)
  {
    PlainIsAdmitted(s, x);
    var one, two, three := [Add(x)], [Add(x), PeerBlock(theirs)], [Add(x), PeerBlock(theirs), Prepare];
    assert one[..0] == [] && two[..1] == one && three[..2] == two;
    assert Run(s, one) == Queued(s, [x]);
    assert Purge([x], Ids([tx])) == [x] by { assert Purge([x][1..], Ids([tx])) == []; }
    assert Run(s, two) == Queued(s, [x]).(chain := s.chain + [theirs]);
    assert [x][1..] == [];
  }

  /** Then `x` is mined on top of the peer's block. */
  function Gapped(s: State, x: Transaction, theirs: Block, ours: Block): (r: State) {
    State(s.chain + [theirs] + [ours], [], s.difficulty, 3, Some([]), 3, Some({x.id}))
  }

  lemma GapIsReached(s: State, x: Transaction, tx: Transaction, theirs: Block, ours: Block)
    requires Initial(s) && Plain(x) && Plain(tx) && x.id != tx.id
    requires Blocks.ChainsTo(theirs, s.chain[0]) && theirs.transactions == [tx] && ours.transactions == [x]
    ensures Run(s, [Add(x), PeerBlock(theirs), Prepare, CommitBlock(ours, theirs.hash)]) == Gapped(s, x, theirs, ours)
  {
    OvertakenIsReached(s, x, tx, theirs);
    var three, ops := [Add(x), PeerBlock(theirs), Prepare], [Add(x), PeerBlock(theirs), Prepare, CommitBlock(ours, theirs.hash)];
    assert ops[..3] == three;
    PlainCommits(Overtaken(s, theirs), ours);
    assert {} + Ids([x]) == {x.id} by { assert x in [x]; }
  }

  lemma GappedKnows(s: State, x: Transaction, tx: Transaction, theirs: Block, ours: Block)
    requires tx in theirs.transactions
    ensures tx.id in Ids(Transactions(Gapped(s, x, theirs, ours).chain))
  {
    IdsPush(s.chain + [theirs], ours);
    IdsPush(s.chain, theirs);
  }

  lemma GappedQueues(s: State, x: Transaction, tx: Transaction, theirs: Block, ours: Block)
    requires Initial(s) && Plain(x) && Plain(tx) && x.id != tx.id && theirs.transactions == [tx] && ours.transactions == [x]
    ensures AddTransaction(Gapped(s, x, theirs, ours), tx).state.pool == [tx]
  {
    PlainScreens(Gapped(s, x, theirs, ours), tx);
    assert [] + [tx] == [tx] && !HasId([], tx.id);
  }

  lemma RebuiltKnows(t: State, tx: Transaction)
    requires t.chain != [] && tx.id in Ids(Transactions(t.chain))
    ensures AddTransaction(ResetIndexes(t), tx).state.pool == t.pool
  {
    assert t.chain[..0] == [];
    AdmissionByReplay(ResetIndexes(t), tx);
  }

  /**
   * A gap is reachable: a block mined on top of a peer's block marks that block consumed unread, and a
   * transaction the peer committed is then queued again, which a rebuild would not do.
   */
  lemma GapReadmitsCommitted(s: State, x: Transaction, tx: Transaction, theirs: Block, ours: Block)
    requires Initial(s) && Plain(x) && Plain(tx) && x.id != tx.id
    requires Blocks.ChainsTo(theirs, s.chain[0]) && theirs.transactions == [tx] && ours.transactions == [x]
    ensures var t := Run(s, [Add(x), PeerBlock(theirs), Prepare, CommitBlock(ours, theirs.hash)]);
      && tx.id in Ids(Transactions(t.chain))
      && AddTransaction(t, tx).state.pool == [tx]
      && AddTransaction(ResetIndexes(t), tx).state.pool == []
  {
    GapIsReached(s, x, tx, theirs, ours);
    GappedKnows(s, x, tx, theirs, ours);
    GappedQueues(s, x, tx, theirs, ours);
    RebuiltKnows(Gapped(s, x, theirs, ours), tx);
  }
}
