/** The incremental admission indexes agree with a rebuild from genesis, over every run. */
module LedgerIndex {
  import opened Types
  import opened Sequences
  import opened Capability
  import opened Policy
  import opened LedgerState

  // ---------------------------------------------------------------- committed ids

  /** A present id index holds exactly the ids of the blocks it has consumed. */
  predicate IdsPrefix(s: State) {
    if s.ids.Some? then s.idsLen <= |s.chain| && s.ids.value == Ids(Transactions(s.chain[..s.idsLen])) else s.idsLen == 0
  }

  /** A present id index has consumed the whole chain. */
  predicate IdsExact(s: State) {
    IdsPrefix(s) && (s.ids.Some? ==> s.idsLen == |s.chain|)
  }

  /** A present id index holds committed ids only. */
  predicate IdsSound(s: State) {
    s.ids.Some? ==> s.ids.value <= Ids(Transactions(s.chain))
  }

  lemma IdsPush(chain: seq<Block>, block: Block)
    ensures Ids(Transactions(chain + [block])) == Ids(Transactions(chain)) + Ids(block.transactions)
  {
    TransactionsPush(chain, block);
  }

  lemma IdsSplit(chain: seq<Block>, n: nat)
    requires n <= |chain|
    ensures Ids(Transactions(chain)) == Ids(Transactions(chain[..n])) + Ids(Transactions(chain[n..]))
  {
    TransactionsConcat(chain[..n], chain[n..]);
    assert chain == chain[..n] + chain[n..];
  }

  /** Whatever tail the index has not consumed, folding gives the ids of the whole chain. */
  lemma FoldIdsIsRebuild(s: State)
    requires IdsPrefix(s)
    ensures FoldIds(s) == s.(ids := Some(Ids(Transactions(s.chain))), idsLen := |s.chain|)
  {
    if s.ids.Some? {
      IdsSplit(s.chain, s.idsLen);
      assert s.chain[..|s.chain|] == s.chain;
    }
  }

  lemma {:induction false} RestoreAllFrame(s: State, txs: seq<Transaction>)
    ensures RestoreAll(s, txs) == s.(pool := RestoreAll(s, txs).pool)
    decreases |txs|
  {
    if txs == [] {
    } else {
      RestoreAllFrame(Restore(s, txs[0]), txs[1..]);
    }
  }

  /** The blocks the index has not consumed, as ids. */
  function Skipped(s: State): (r: set<string>) {
    if s.ids.Some? && s.idsLen <= |s.chain| then Ids(Transactions(s.chain[s.idsLen..])) else {}
  }

  /** Committing `block` here skips no id: what the index has not consumed it knows anyway, or learns from the block. */
  predicate Gapless(s: State, block: Block) {
    s.ids.Some? ==> Skipped(s) <= s.ids.value + Ids(block.transactions)
  }

  lemma AppendKeepsPrefixIff(s: State, block: Block)
    requires IdsPrefix(s)
    ensures IdsPrefix(Append(s, block)) <==> Gapless(s, block)
  {
    var longer := s.chain + [block];
    assert longer[..|longer|] == longer;
    IdsPush(s.chain, block);
    if s.ids.Some? { IdsSplit(s.chain, s.idsLen); }
  }

  /** A successful commit appends, whatever it does to the cached history. */
  lemma CommitAppends(s: State, block: Block, expected: string)
    requires Commit(s, block, expected).result == Success(true)
    ensures var t := Commit(s, block, expected).state;
      t == Append(s, block).(history := t.history, historyLen := t.historyLen)
  {
  }

  /** A commit marks the whole chain consumed; the index stays a prefix if and only if that skips no id. */
  lemma CommitKeepsPrefixIff(s: State, block: Block, expected: string)
    requires IdsPrefix(s) && Commit(s, block, expected).result == Success(true)
    ensures IdsPrefix(Commit(s, block, expected).state) <==> Gapless(s, block)
  {
    CommitAppends(s, block, expected);
    AppendKeepsPrefixIff(s, block);
  }

  /** The step commits on top of a gap. */
  predicate LeavesGap(s: State, op: Op) {
    op.CommitBlock? && Commit(s, op.block, op.expectedPrevHash).result == Success(true) && !Gapless(s, op.block)
  }

  lemma FoldIdsKeepsPrefix(s: State)
    requires IdsPrefix(s)
    ensures IdsPrefix(FoldIds(s))
  {
    FoldIdsIsRebuild(s);
    assert s.chain[..|s.chain|] == s.chain;
  }

  lemma PushKeepsPrefix(s: State, block: Block, pool: seq<Transaction>)
    requires IdsPrefix(s)
    ensures IdsPrefix(s.(chain := s.chain + [block], pool := pool))
  {
    if s.ids.Some? { assert (s.chain + [block])[..s.idsLen] == s.chain[..s.idsLen]; }
  }

  lemma AddKeepsPrefix(s: State, tx: Transaction)
    requires IdsPrefix(s)
    ensures IdsPrefix(AddTransaction(s, tx).state)
  {
    FoldIdsKeepsPrefix(FoldCapability(s).state);
  }

  lemma CommitKeepsPrefix(s: State, block: Block, expected: string)
    requires IdsPrefix(s)
    ensures IdsPrefix(Commit(s, block, expected).state) <==> !LeavesGap(s, CommitBlock(block, expected))
  {
    if Commit(s, block, expected).result == Success(true) {
      CommitKeepsPrefixIff(s, block, expected);
    } else {
      RestoreAllFrame(s, block.transactions);
    }
  }

  lemma IdsPrefixStep(s: State, op: Op)
    requires IdsPrefix(s)
    ensures IdsPrefix(Apply(s, op)) <==> !LeavesGap(s, op)
  {
    match op
    case Add(tx) => AddKeepsPrefix(s, tx);
    case Mine(block) =>
      PushKeepsPrefix(s, block, Drain(s).pool);
      FoldIdsKeepsPrefix(Drain(s).(chain := s.chain + [block]));
    case CommitBlock(block, expected) => CommitKeepsPrefix(s, block, expected);
    case PeerBlock(block) => PushKeepsPrefix(s, block, Purge(s.pool, Ids(block.transactions)));
    case _ =>
  }

  /** No commit of the run leaves a gap. */
  predicate GaplessRun(s: State, ops: seq<Op>) {
    ops != [] ==> GaplessRun(s, ops[..|ops| - 1]) && !LeavesGap(Run(s, ops[..|ops| - 1]), ops[|ops| - 1])
  }

  /** Over every run without such a commit, rejections and peer blocks included, the index is a prefix. */
  lemma {:induction false} IdsPrefixOverRuns(s: State, ops: seq<Op>)
    requires Initial(s) && GaplessRun(s, ops)
    ensures IdsPrefix(Run(s, ops))
  {
    if ops == [] {
    } else {
      IdsPrefixOverRuns(s, ops[..|ops| - 1]);
      IdsPrefixStep(Run(s, ops[..|ops| - 1]), ops[|ops| - 1]);
    }
  }

  predicate NoPeers(ops: seq<Op>) {
    forall i :: 0 <= i < |ops| ==> !ops[i].PeerBlock?
  }

  lemma IdsExactStep(s: State, op: Op)
    requires IdsExact(s) && !op.PeerBlock?
    ensures IdsExact(Apply(s, op)) && !LeavesGap(s, op)
  {
    if s.ids.Some? { assert s.chain[s.idsLen..] == []; }
    IdsPrefixStep(s, op);
    if op.CommitBlock? { RestoreAllFrame(s, op.block.transactions); }
  }

  /** Through the ledger's own operations alone, failed or not, a present index is the id set of the whole chain. */
  lemma {:induction false} IdsExactAlways(s: State, ops: seq<Op>)
    requires Initial(s) && NoPeers(ops)
    ensures IdsExact(Run(s, ops)) && GaplessRun(s, ops)
  {
    if ops == [] {
    } else {
      IdsExactAlways(s, ops[..|ops| - 1]);
      IdsExactStep(Run(s, ops[..|ops| - 1]), ops[|ops| - 1]);
    }
  }

  lemma IdsSoundStep(s: State, op: Op)
    requires IdsSound(s)
    ensures IdsSound(Apply(s, op))
  {
    match op
    case Add(tx) => FoldIdsKeepsSound(FoldCapability(s).state);
    case Mine(block) =>
      IdsPush(s.chain, block);
      FoldIdsKeepsSound(Drain(s).(chain := s.chain + [block]));
    case CommitBlock(block, expected) =>
      RestoreAllFrame(s, block.transactions);
      IdsPush(s.chain, block);
    case PeerBlock(block) => IdsPush(s.chain, block);
    case _ =>
  }

  lemma FoldIdsKeepsSound(s: State)
    requires IdsSound(s)
    ensures IdsSound(FoldIds(s))
  {
    if s.idsLen < |s.chain| { IdsSplit(s.chain, s.idsLen); }
  }

  // ---------------------------------------------------------------- capability history

  /** The cached history is the from-genesis replay of the blocks it has consumed. */
  predicate Exact(s: State) {
    && s.historyLen <= |s.chain|
    && Build(s.chain[..s.historyLen]).ok
    && if s.history.Some? then s.history.value == Build(s.chain[..s.historyLen]).activations else s.historyLen == 0
  }

  /** The chain itself does not replay, and the cache stands before a block it can never consume. */
  predicate Stuck(s: State) {
    && s.history.Some?
    && s.historyLen < |s.chain|
    && FoldBlock(s.history.value, s.chain[s.historyLen]) == Fold(s.history.value, false)
    && !Build(s.chain).ok
  }

  /** Position `i` holds the block's first activation. */
  predicate FirstActivation(txs: seq<Transaction>, i: nat) {
    i < |txs| && txs[i].kind.Activation? && forall j :: 0 <= j < i ==> !txs[j].kind.Activation?
  }

  predicate BadRecord(tx: Transaction) {
    tx.kind.Record? && !ValidRecord(tx.kind.record)
  }

  /** The block switches nothing on: it holds no activation, or its first is inadmissible or behind an invalid record. */
  predicate Quiet(activations: seq<CapabilityActivation>, txs: seq<Transaction>, containing: nat) {
    forall i :: 0 <= i < |txs| && FirstActivation(txs, i) ==>
      !Admissible(activations, txs[i].kind.activation, containing) || exists j :: 0 <= j < i && BadRecord(txs[j])
  }

  lemma QuietTail(activations: seq<CapabilityActivation>, txs: seq<Transaction>, containing: nat)
    requires txs != [] && !txs[0].kind.Activation? && !BadRecord(txs[0])
    ensures Quiet(activations, txs, containing) <==> Quiet(activations, txs[1..], containing)
  {
    var rest := txs[1..];
    forall i: nat | FirstActivation(txs, i)
      ensures FirstActivation(rest, i - 1)
      ensures (exists j :: 0 <= j < i && BadRecord(txs[j])) <==> (exists j :: 0 <= j < i - 1 && BadRecord(rest[j]))
    {
      BadRecordShift(txs, i);
    }
    forall i: nat | FirstActivation(rest, i)
      ensures FirstActivation(txs, i + 1)
      ensures (exists j :: 0 <= j < i + 1 && BadRecord(txs[j])) <==> (exists j :: 0 <= j < i && BadRecord(rest[j]))
    {
      forall j | 0 <= j < i + 1 ensures !txs[j].kind.Activation? { if j > 0 { assert txs[j] == rest[j - 1]; } }
      BadRecordShift(txs, i + 1);
    }
  }

  lemma BadRecordShift(txs: seq<Transaction>, i: nat)
    requires 0 < i < |txs| && !BadRecord(txs[0])
    ensures (exists j :: 0 <= j < i && BadRecord(txs[j])) <==> (exists j :: 0 <= j < i - 1 && BadRecord(txs[1..][j]))
  {
    if j :| 0 <= j < i && BadRecord(txs[j]) {
      assert txs[1..][j - 1] == txs[j];
    }
    if j :| 0 <= j < i - 1 && BadRecord(txs[1..][j]) {
      assert txs[j + 1] == txs[1..][j];
    }
  }

  /** A replay step leaves the history alone exactly when the block is quiet. */
  lemma {:induction false} FoldIsQuietIff(
    active: CapabilitySet, activations: seq<CapabilityActivation>, txs: seq<Transaction>, containing: nat)
    requires STATE_COMMITMENT_CAPABILITY_ID in active
    ensures FoldTransactions(active, activations, txs, containing).activations == activations
       <==> Quiet(activations, txs, containing)
    decreases |txs|
  {
    if txs == [] {
    } else if txs[0].kind.Activation? {
      var a := txs[0].kind.activation;
      if Admissible(activations, a, containing) {
        var extra := FoldAppendsFuture(active, activations + [a], txs[1..], containing);
        assert |activations + [a] + extra| > |activations|;
        assert FirstActivation(txs, 0);
      }
    } else if BadRecord(txs[0]) {
    } else {
      FoldIsQuietIff(active, activations, txs[1..], containing);
      QuietTail(activations, txs, containing);
    }
  }

  lemma FoldBlockIsQuietIff(activations: seq<CapabilityActivation>, block: Block)
    ensures FoldBlock(activations, block).activations == activations <==> Quiet(activations, block.transactions, block.index)
  {
    StateCommitmentIsAlwaysActive(activations, block.index);
    FoldIsQuietIff(EffectiveSet(activations, block.index), activations, block.transactions, block.index);
  }

  /** A step that failed once fails again on what it left behind, and leaves it alone. */
  lemma {:induction false} RefoldFails(
    active: CapabilitySet, activations: seq<CapabilityActivation>, txs: seq<Transaction>, containing: nat)
    requires !FoldTransactions(active, activations, txs, containing).ok
    ensures var left := FoldTransactions(active, activations, txs, containing).activations;
      FoldTransactions(active, left, txs, containing) == Fold(left, false)
    decreases |txs|
  {
    if txs[0].kind.Activation? {
      var a := txs[0].kind.activation;
      if Admissible(activations, a, containing) {
        var extra := FoldAppendsFuture(active, activations + [a], txs[1..], containing);
        var left := activations + [a] + extra;
        assert left[|activations|] == a;
        assert Names(left, a.capabilityId);
      }
    } else if txs[0].kind.Record? ==> ValidRecordUnder(active, txs[0].kind.record) {
      RefoldFails(active, activations, txs[1..], containing);
    }
  }

  lemma FailedFoldIsStuck(activations: seq<CapabilityActivation>, block: Block)
    requires !FoldBlock(activations, block).ok
    ensures var left := FoldBlock(activations, block).activations;
      FoldBlock(left, block) == Fold(left, false)
  {
    var active := EffectiveSet(activations, block.index);
    RefoldFails(active, activations, block.transactions, block.index);
    var extra := FoldAppendsFuture(active, activations, block.transactions, block.index);
    FutureActivationsAreInert(activations, extra, block.index);
  }

  /** A failed replay stops at a block that would stop it again. */
  lemma {:induction false} FailedFoldChainStops(activations: seq<CapabilityActivation>, blocks: seq<Block>, from: nat)
    requires !FoldChain(activations, blocks, from).ok
    ensures var f := FoldChain(activations, blocks, from);
      from <= f.consumed < |blocks| && FoldBlock(f.activations, blocks[f.consumed]) == Fold(f.activations, false)
    decreases |blocks| - from
  {
    var f := FoldBlock(activations, blocks[from]);
    if f.ok {
      FailedFoldChainStops(f.activations, blocks, from + 1);
    } else {
      FailedFoldIsStuck(activations, blocks[from]);
    }
  }

  /** Folding an exact or stuck cache has the same effect as replaying the chain from genesis. */
  lemma FoldCapabilityIsRebuild(s: State)
    requires s.chain != [] && (Exact(s) || Stuck(s))
    ensures FoldCapability(s).ok == Build(s.chain).ok
    ensures FoldCapability(s).ok ==>
      FoldCapability(s).state == s.(history := Some(Build(s.chain).activations), historyLen := |s.chain|)
    ensures !FoldCapability(s).ok ==> Stuck(FoldCapability(s).state)
    ensures FoldCapability(s).ok ==> Exact(FoldCapability(s).state)
    ensures FoldCapability(s).state == s.(history := FoldCapability(s).state.history, historyLen := FoldCapability(s).state.historyLen)
  {
    assert s.chain[..|s.chain|] == s.chain;
    if Exact(s) {
      FoldChainSplit([], s.chain, 0, s.historyLen);
      FoldChainSplit([], s.chain, 0, |s.chain|);
      var start := if s.history.Some? then s.history.value else [];
      assert FoldChain(start, s.chain, s.historyLen) == Build(s.chain);
      if !Build(s.chain).ok { FailedFoldChainStops([], s.chain, 0); }
    }
  }

  /** A rejected commit of a block that switches nothing on. */
  predicate Traceless(s: State, op: Op) {
    var folded := FoldCapability(s);
    op.CommitBlock? && Commit(s, op.block, op.expectedPrevHash).result.Failure? && folded.ok && folded.state.history.Some? ==>
      Quiet(folded.state.history.value, op.block.transactions, op.block.index)
  }

  lemma ExactPush(s: State, block: Block)
    requires s.chain != [] && (Exact(s) || Stuck(s))
    ensures var t := s.(chain := s.chain + [block]); Exact(t) || Stuck(t)
  {
    var t := s.(chain := s.chain + [block]);
    if Exact(s) {
      assert t.chain[..t.historyLen] == s.chain[..s.historyLen];
    } else {
      BuildPush(s.chain, block);
    }
  }

  lemma CommitKeepsExact(s: State, block: Block, expected: string)
    requires s.chain != [] && (Exact(s) || Stuck(s)) && Traceless(s, CommitBlock(block, expected))
    ensures var t := Commit(s, block, expected).state; t.chain != [] && (Exact(t) || Stuck(t))
  {
    if s.chain[|s.chain| - 1].hash != expected {
      RestoreAllFrame(s, block.transactions);
    } else {
      FoldCapabilityIsRebuild(s);
      if FoldCapability(s).ok {
        var folded := FoldCapability(s).state;
        var activations := folded.history.value;
        FoldBlockIsQuietIff(activations, block);
        var t := Commit(s, block, expected).state;
        if Commit(s, block, expected).result.Failure? {
          assert t == folded;
        } else {
          BuildPush(s.chain, block);
          assert t.chain[..t.historyLen] == s.chain + [block];
        }
      }
    }
  }

  lemma AddKeepsExact(s: State, tx: Transaction)
    requires s.chain != [] && (Exact(s) || Stuck(s))
    ensures var t := AddTransaction(s, tx).state; t.chain != [] && (Exact(t) || Stuck(t))
  {
    FoldCapabilityIsRebuild(s);
  }

  lemma ExactStep(s: State, op: Op)
    requires s.chain != [] && (Exact(s) || Stuck(s)) && Traceless(s, op)
    ensures var t := Apply(s, op); t.chain != [] && (Exact(t) || Stuck(t))
  {
    match op
    case Add(tx) => AddKeepsExact(s, tx);
    case Mine(block) => ExactPush(s, block);
    case CommitBlock(block, expected) => CommitKeepsExact(s, block, expected);
    case PeerBlock(block) => ExactPush(s, block);
    case ReplaceChain(candidate) => assert Build([]).ok; assert candidate[..0] == [];
    case _ =>
  }

  /** Every rejected commit of the run is traceless. */
  predicate TracelessRun(s: State, ops: seq<Op>) {
    ops != [] ==> TracelessRun(s, ops[..|ops| - 1]) && Traceless(Run(s, ops[..|ops| - 1]), ops[|ops| - 1])
  }

  lemma {:induction false} ExactOverRuns(s: State, ops: seq<Op>)
    requires Initial(s) && TracelessRun(s, ops)
    ensures var t := Run(s, ops); t.chain != [] && (Exact(t) || Stuck(t))
  {
    if ops == [] {
      assert s.chain[..0] == [];
    } else {
      ExactOverRuns(s, ops[..|ops| - 1]);
      ExactStep(Run(s, ops[..|ops| - 1]), ops[|ops| - 1]);
    }
  }

  // ---------------------------------------------------------------- main results

  /** The same decision, and the same pool afterwards. */
  predicate SameDecision(x: Step, y: Step) {
    x.outcome == y.outcome && x.state.pool == y.state.pool && x.state.chain == y.state.chain
  }

  /** What a well-kept cache decides is what dropping both indexes and starting over would decide. */
  lemma AdmissionEqualsRebuildNow(s: State, tx: Transaction)
    requires s.chain != [] && (Exact(s) || Stuck(s)) && IdsPrefix(s)
    ensures SameDecision(AddTransaction(s, tx), AddTransaction(ResetIndexes(s), tx))
  {
    var blank := ResetIndexes(s);
    assert blank.chain[..0] == [];
    assert Exact(blank);
    FoldCapabilityIsRebuild(s);
    FoldCapabilityIsRebuild(blank);
    FoldIdsIsRebuild(FoldCapability(s).state);
    FoldIdsIsRebuild(FoldCapability(blank).state);
  }

  /**
   * Index refinement: after any run, peer blocks included, in which every rejected commit is traceless
   * and no commit leaves a gap, every admission decision equals the one a full rebuild would make.
   */
  lemma AdmissionEqualsRebuild(s: State, ops: seq<Op>, tx: Transaction)
    requires Initial(s) && TracelessRun(s, ops) && GaplessRun(s, ops)
    ensures var t := Run(s, ops);
      SameDecision(AddTransaction(t, tx), AddTransaction(ResetIndexes(t), tx))
  {
    IdsPrefixOverRuns(s, ops);
    ExactOverRuns(s, ops);
    AdmissionEqualsRebuildNow(Run(s, ops), tx);
  }

  /** All admission decisions are the ones a rebuild would make. */
  ghost predicate DecidesAsRebuilt(s: State) {
    forall tx :: SameDecision(AddTransaction(s, tx), AddTransaction(ResetIndexes(s), tx))
  }

  // ---------------------------------------------------------------- when a commit spoils the indexes

  /** The id is one a rebuilt ledger would answer Ok for: it is known, or there is room for it. */
  predicate Answerable(s: State, id: string) {
    id != "" && (id in Ids(Transactions(s.chain)) || HasId(s.pool, id) || |s.pool| < MAX_PENDING_TRANSACTIONS)
  }

  /** The pool is full and no id but the empty one is known: every submission is refused, whatever the indexes say. */
  predicate Deaf(s: State) {
    && |s.pool| >= MAX_PENDING_TRANSACTIONS
    && (forall i :: 0 <= i < |s.pool| ==> s.pool[i].id == "")
    && forall id :: id in Ids(Transactions(s.chain)) ==> id == ""
  }

  lemma SomeAnswerable(s: State) returns (id: string)
    requires !Deaf(s)
    ensures Answerable(s, id)
  {
    if |s.pool| < MAX_PENDING_TRANSACTIONS {
      id := "x";
    } else if i :| 0 <= i < |s.pool| && s.pool[i].id != "" {
      id := s.pool[i].id;
    } else {
      id :| id in Ids(Transactions(s.chain)) && id != "";
    }
  }

  /** A cached history that names a capability the chain has not activated refuses what a rebuild accepts. */
  lemma SurplusIsNoticed(s: State, a: CapabilityActivation, id: string)
    requires s.chain != [] && Build(s.chain).ok && Answerable(s, id)
    requires s.historyLen == |s.chain| && s.history.Some?
    requires Names(s.history.value, a.capabilityId) && !Names(Build(s.chain).activations, a.capabilityId)
    requires RegistryIdentity(a) && a.signatures != []
    ensures !DecidesAsRebuilt(s)
  {
    var blank, h := ResetIndexes(s), NextHeight(s.chain);
    assert blank.chain[..0] == [];
    var tx := Transaction(id, 0, Activation(a.(activationHeight := h + 1)), []);
    assert Screen(s.history, tx, h).Err?;
    AdmissionByReplay(blank, tx);
    assert !SameDecision(AddTransaction(s, tx), AddTransaction(blank, tx));
  }

  /** Where nothing can be answered Ok, nothing depends on the cached history. */
  lemma DeafDecides(s: State, tx: Transaction)
    requires s.chain != [] && Build(s.chain).ok && Deaf(s) && IdsPrefix(s)
    requires s.historyLen == |s.chain| && s.history.Some?
    ensures SameDecision(AddTransaction(s, tx), AddTransaction(ResetIndexes(s), tx))
  {
    var blank := ResetIndexes(s);
    assert blank.chain[..0] == [];
    AdmissionByReplay(blank, tx);
    FoldIdsIsRebuild(s);
  }

  /** What a step that is not quiet leaves behind first: a fresh, registered, signed activation. */
  lemma LoudActivates(activations: seq<CapabilityActivation>, block: Block) returns (a: CapabilityActivation)
    requires !Quiet(activations, block.transactions, block.index)
    ensures Admissible(activations, a, block.index) && Names(FoldBlock(activations, block).activations, a.capabilityId)
  {
    StateCommitmentIsAlwaysActive(activations, block.index);
    a := LoudFoldActivates(EffectiveSet(activations, block.index), activations, block.transactions, block.index);
  }

  lemma {:induction false} LoudFoldActivates(
    active: CapabilitySet, activations: seq<CapabilityActivation>, txs: seq<Transaction>, containing: nat)
    returns (a: CapabilityActivation)
    requires STATE_COMMITMENT_CAPABILITY_ID in active && !Quiet(activations, txs, containing)
    ensures Admissible(activations, a, containing)
    ensures Names(FoldTransactions(active, activations, txs, containing).activations, a.capabilityId)
    decreases |txs|
  {
    if txs[0].kind.Activation? {
      a := txs[0].kind.activation;
      assert FirstActivation(txs, 0);
      var extra := FoldAppendsFuture(active, activations + [a], txs[1..], containing);
      assert (activations + [a] + extra)[|activations|] == a;
    } else {
      QuietTail(activations, txs, containing);
      a := LoudFoldActivates(active, activations, txs[1..], containing);
    }
  }

  /** A rejected commit keeps the cache exact if and only if the rejected block switches nothing on. */
  lemma RejectedCommitKeepsCacheIff(s: State, block: Block, expected: string)
    requires s.chain != [] && Exact(s) && Build(s.chain).ok
    requires s.chain[|s.chain| - 1].hash == expected && Commit(s, block, expected).result.Failure?
    ensures Exact(Commit(s, block, expected).state) <==> Quiet(Build(s.chain).activations, block.transactions, block.index)
  {
    FoldCapabilityIsRebuild(s);
    FoldBlockIsQuietIff(Build(s.chain).activations, block);
    assert s.chain[..|s.chain|] == s.chain;
  }

  /**
   * After a rejected commit, all admission decisions are the ones a rebuild would make if and only if
   * the rejected block switches nothing on, or nothing can be answered Ok anyway.
   */
  lemma RejectedCommitDecidesIff(s: State, block: Block, expected: string)
    requires s.chain != [] && Exact(s) && Build(s.chain).ok && IdsPrefix(s)
    requires s.chain[|s.chain| - 1].hash == expected && Commit(s, block, expected).result.Failure?
    ensures DecidesAsRebuilt(Commit(s, block, expected).state)
       <==> Quiet(Build(s.chain).activations, block.transactions, block.index) || Deaf(s)
  {
    FoldCapabilityIsRebuild(s);
    var activations, t := Build(s.chain).activations, Commit(s, block, expected).state;
    assert s.chain[..|s.chain|] == s.chain;
    assert t == s.(history := Some(FoldBlock(activations, block).activations), historyLen := |s.chain|);
    FoldBlockIsQuietIff(activations, block);
    if Quiet(activations, block.transactions, block.index) {
      forall tx ensures SameDecision(AddTransaction(t, tx), AddTransaction(ResetIndexes(t), tx)) {
        AdmissionEqualsRebuildNow(t, tx);
      }
    } else if Deaf(s) {
      forall tx ensures SameDecision(AddTransaction(t, tx), AddTransaction(ResetIndexes(t), tx)) {
        DeafDecides(t, tx);
      }
    } else {
      var a := LoudActivates(activations, block);
      var id := SomeAnswerable(s);
      SurplusIsNoticed(t, a, id);
    }
  }

  /**
   * Such a state is reachable: committing a block that activates a capability twice to a fresh ledger is
   * rejected, and the ledger then refuses the activation that a rebuild accepts.
   */
  lemma RejectedCommitPoisonsAdmission(s: State, tx: Transaction, other: Transaction, block: Block)
    requires Initial(s) && tx.id != "" && tx.kind.Activation? && other.kind == tx.kind
    requires block.index == 1 && block.transactions == [tx, other] && Activatable(tx.kind.activation, 1)
    ensures var op := CommitBlock(block, s.chain[0].hash);
      var t := Run(s, [op]);
      && Commit(s, block, s.chain[0].hash).result == Failure(InvalidTransaction)
      && AddTransaction(t, tx).outcome == Err(InvalidTransaction)
      && AddTransaction(ResetIndexes(t), tx).outcome == Ok
  {
    assert s.chain[..0] == [] && FoldBlock([], s.chain[0]) == Fold([], true);
    assert FoldChain([], s.chain, 1) == ChainFold([], 1, true);
    assert Build(s.chain) == ChainFold([], 1, true);
    FoldCapabilityIsRebuild(s);
    var a, op := tx.kind.activation, CommitBlock(block, s.chain[0].hash);
    assert [op][..0] == [];
    assert block.transactions[1..] == [other];
    assert Names([a], a.capabilityId) by { assert [a][0].capabilityId == a.capabilityId; }
    assert FoldTransactions(EffectiveSet([], 1), [a], [other], 1) == Fold([a], false);
    assert [] + [a] == [a];
    assert FoldBlock([], block) == Fold([a], false);
    var t := Apply(s, op);
    assert t == s.(history := Some([a]), historyLen := 1);
    FoldCapabilityIsRebuild(ResetIndexes(t));
    assert Screen(Some([]), tx, 1).Ok?;
  }

  /** What the next admission still learns: well-formed ids the index skipped that nothing else recalls. */
  function Forgotten(s: State, block: Block): (r: set<string>) {
    if s.ids.Some? then Skipped(s) - s.ids.value - Ids(block.transactions) - Ids(s.pool) - {""} else {}
  }

  lemma PoolIds(pool: seq<Transaction>, id: string)
    ensures HasId(pool, id) <==> id in Ids(pool)
  {
  }

  /** A committed id that a current-looking index lacks is queued, or refused for want of room, where a rebuild knows it. */
  lemma MissingIdIsNoticed(t: State, id: string)
    requires t.chain != [] && Exact(t) && Build(t.chain).ok && t.ids.Some? && t.idsLen == |t.chain|
    requires id != "" && id in Ids(Transactions(t.chain)) && id !in t.ids.value && !HasId(t.pool, id)
    ensures !DecidesAsRebuilt(t)
  {
    var blank := ResetIndexes(t);
    assert blank.chain[..0] == [];
    FoldCapabilityIsRebuild(t);
    FoldCapabilityIsRebuild(blank);
    FoldIdsIsRebuild(FoldCapability(blank).state);
    var tx := Transaction(id, 0, Asset(""), []);
    var here, there := AddTransaction(t, tx), AddTransaction(blank, tx);
    assert there.outcome == Ok && there.state.pool == t.pool;
    if |t.pool| < MAX_PENDING_TRANSACTIONS { assert |here.state.pool| == |t.pool| + 1; } else { assert here.outcome.Err?; }
    assert !SameDecision(here, there);
  }

  /** An index that lacks only ids the pool recalls decides like a rebuild. */
  lemma RecalledIdsDecide(t: State, tx: Transaction)
    requires t.chain != [] && Exact(t) && t.ids.Some? && t.idsLen == |t.chain|
    requires t.ids.value <= Ids(Transactions(t.chain))
    requires tx.id in Ids(Transactions(t.chain)) ==> tx.id in t.ids.value || HasId(t.pool, tx.id) || tx.id == ""
    ensures SameDecision(AddTransaction(t, tx), AddTransaction(ResetIndexes(t), tx))
  {
    var blank := ResetIndexes(t);
    assert blank.chain[..0] == [];
    FoldCapabilityIsRebuild(t);
    FoldCapabilityIsRebuild(blank);
    FoldIdsIsRebuild(FoldCapability(blank).state);
  }

  /**
   * After a successful commit, all admission decisions are the ones a rebuild would make if and only if
   * every id in the blocks the index had not consumed is known to it, in the block, or still pending.
   */
  lemma CommitDecidesIff(s: State, block: Block, expected: string)
    requires s.chain != [] && (Exact(s) || Stuck(s)) && IdsPrefix(s) && Commit(s, block, expected).result == Success(true)
    ensures DecidesAsRebuilt(Commit(s, block, expected).state) <==> Forgotten(s, block) == {}
  {
    var t := Commit(s, block, expected).state;
    CommitAppends(s, block, expected);
    CommitKeepsExact(s, block, expected);
    CommitMeaning(s, block, expected);
    IdsPush(s.chain, block);
    if s.ids.None? {
      forall tx ensures SameDecision(AddTransaction(t, tx), AddTransaction(ResetIndexes(t), tx)) {
        AdmissionEqualsRebuildNow(t, tx);
      }
    } else {
      IdsSplit(s.chain, s.idsLen);
      if id :| id in Forgotten(s, block) {
        PoolIds(s.pool, id);
        MissingIdIsNoticed(t, id);
      } else {
        forall tx ensures SameDecision(AddTransaction(t, tx), AddTransaction(ResetIndexes(t), tx)) {
          PoolIds(s.pool, tx.id);
          assert tx.id !in Forgotten(s, block);
          RecalledIdsDecide(t, tx);
        }
      }
    }
  }

  // ---------------------------------------------------------------- what admission and commit decide

  /** Passes the screen under the history a replay of the chain leaves. */
  predicate Screened(chain: seq<Block>, tx: Transaction) {
    match tx.kind
    case Record(record) => ValidRecord(record)
    case Activation(a) => Activatable(a, NextHeight(chain)) && !Names(Build(chain).activations, a.capabilityId)
    case Policy(update) => ValidUpdate(update)
    case _ => true
  }

  /** Admission, indexes and all, decides as a replay of the chain does. */
  lemma AdmissionByReplay(s: State, tx: Transaction)
    requires s.chain != [] && (Exact(s) || Stuck(s)) && IdsPrefix(s)
    ensures var known := tx.id in Ids(Transactions(s.chain)) || HasId(s.pool, tx.id);
      var eligible := tx.id != "" && Build(s.chain).ok && Screened(s.chain, tx);
      var full := |s.pool| >= MAX_PENDING_TRANSACTIONS;
      && AddTransaction(s, tx).outcome == (if eligible && (known || !full) then Ok else Err(InvalidTransaction))
      && AddTransaction(s, tx).state.pool == (if eligible && !known && !full then s.pool + [tx] else s.pool)
  {
    FoldCapabilityIsRebuild(s);
    FoldIdsIsRebuild(FoldCapability(s).state);
    StateCommitmentIsAlwaysActive(Build(s.chain).activations, NextHeight(s.chain));
  }

  /** The transaction may stand in the block after the tip, read off the chain's own transactions. */
  ghost predicate Eligible(chain: seq<Block>, tx: Transaction)
    requires chain != []
  {
    match tx.kind
    case Record(record) => ValidRecord(record)
    case Activation(a) =>
      && Switchable(a, chain[|chain| - 1].index + 1)
      && forall t :: t in Transactions(chain) && t.kind.Activation? ==> t.kind.activation.capabilityId != a.capabilityId
    case Policy(update) => SoundUpdate(update)
    case _ => true
  }

  lemma EligibleIff(chain: seq<Block>, tx: Transaction)
    requires chain != [] && Build(chain).ok
    ensures Screened(chain, tx) <==> Eligible(chain, tx)
  {
    match tx.kind
    case Activation(a) =>
      var txs := Transactions(chain);
      ReplayMeaning(chain);
      SwitchableIff(a, NextHeight(chain));
      ActivatedIds(txs, a.capabilityId);
      FilterMapMember(CapabilityIdOf, txs, a.capabilityId);
    case Policy(update) => ValidUpdateIff(update);
    case _ =>
  }

  /**
   * Admission in full, in the terms of the chain's and the pool's transactions: what is answered, and
   * whether the transaction joins the queue.
   */
  lemma AdmissionMeaning(s: State, tx: Transaction)
    requires s.chain != [] && (Exact(s) || Stuck(s)) && IdsPrefix(s)
    ensures var known := exists t :: (t in Transactions(s.chain) || t in s.pool) && t.id == tx.id;
      var eligible := tx.id != "" && Replayable(s.chain, 0) && Eligible(s.chain, tx);
      && AddTransaction(s, tx).outcome == (if eligible && (known || |s.pool| < 8000) then Ok else Err(InvalidTransaction))
      && AddTransaction(s, tx).state.pool == (if eligible && !known && |s.pool| < 8000 then s.pool + [tx] else s.pool)
  {
    AdmissionByReplay(s, tx);
    ReplayMeaning(s.chain);
    if Build(s.chain).ok { EligibleIff(s.chain, tx); }
    PoolIds(s.pool, tx.id);
    assert tx.id in Ids(s.pool) <==> exists t :: t in s.pool && t.id == tx.id;
    assert tx.id in Ids(Transactions(s.chain)) <==> exists t :: t in Transactions(s.chain) && t.id == tx.id;
  }

  /** With no block at all, records and activations are refused, a commit fails, and other kinds are queued. */
  lemma EmptyLedgerAnswers(s: State, tx: Transaction, block: Block, expected: string)
    requires s.chain == [] && s == ResetIndexes(s)
    ensures Commit(s, block, expected) == Committed(s, Failure(EmptyLedger))
    ensures tx.id != "" && (tx.kind.Record? || tx.kind.Activation?) ==> AddTransaction(s, tx) == Step(s, Err(EmptyLedger))
    ensures tx.id != "" && !tx.kind.Record? && !tx.kind.Activation? && (tx.kind.Policy? ==> SoundUpdate(tx.kind.update)) ==>
      var known := exists t :: t in s.pool && t.id == tx.id;
      && AddTransaction(s, tx).outcome == (if known || |s.pool| < 8000 then Ok else Err(InvalidTransaction))
      && AddTransaction(s, tx).state.pool == (if !known && |s.pool| < 8000 then s.pool + [tx] else s.pool)
  {
    if tx.kind.Policy? { ValidUpdateIff(tx.kind.update); }
    assert Transactions(s.chain) == [] && Ids([]) == {};
    PoolIds(s.pool, tx.id);
    assert tx.id in Ids(s.pool) <==> exists t :: t in s.pool && t.id == tx.id;
  }

  /** On the current tip, a commit succeeds exactly when the extended chain replays from genesis, under both histories. */
  lemma CommitMeaning(s: State, block: Block, expected: string)
    requires s.chain != [] && (Exact(s) || Stuck(s)) && s.chain[|s.chain| - 1].hash == expected
    ensures Commit(s, block, expected).result
         == if Build(s.chain + [block]).ok && BuildPolicies(s.chain + [block]).ok then Success(true) else Failure(InvalidTransaction)
    ensures var longer := s.chain + [block];
      Commit(s, block, expected).result.Success? <==> Replayable(longer, 0) && forall k :: 0 <= k < |longer| ==> PolicySound(longer[k])
    ensures Commit(s, block, expected).result.Success? ==> Commit(s, block, expected).state.chain == s.chain + [block]
    ensures Commit(s, block, expected).result.Failure? ==> Commit(s, block, expected).state.chain == s.chain
    ensures Commit(s, block, expected).state.pool == s.pool
  {
    FoldCapabilityIsRebuild(s);
    BuildPush(s.chain, block);
    BuildPoliciesPush(s.chain, block);
    ReplayMeaning(s.chain + [block]);
    PoliciesMeaning(s.chain + [block]);
  }
}
