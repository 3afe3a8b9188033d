/** Out-of-lock mining rounds among everything else that moves the ledger: bounds, loss and duplication (ledger.rs, node.rs). */
module LedgerRounds {
  import opened Types
  import opened Sequences
  import Blocks
  import opened Capability
  import opened Policy
  import opened LedgerState
  import opened LedgerIndex
  import opened LedgerSafety
  import opened LedgerMining

  /** A node with at most one mining round in flight. */
  datatype Node = Node(ledger: State, inFlight: Option<seq<Transaction>>)

  /**
   * `Finish` commits the round in flight and `Abandon` restores it unmined.  `Deliver` commits a block
   * that was not drained here, `Peer` appends one the way the network does, `MineHere` mines under the
   * lock and `Adopt` offers a longer chain.
   */
  datatype RoundOp =
    | Submit(tx: Transaction)
    | Begin
    | Finish(block: Block, expectedPrevHash: string)
    | Abandon
    | Deliver(block: Block)
    | Peer(block: Block)
    | MineHere(block: Block)
    | Adopt(candidate: seq<Block>)

  function Tip(s: State): (r: Block)
    requires s.chain != []
  {
    s.chain[|s.chain| - 1]
  }

  predicate RoundEnabled(n: Node, op: RoundOp) {
    && n.ledger.chain != []
    && (op.Begin? ==> n.inFlight.None?)
    && (op.Finish? ==> n.inFlight.Some? && op.block.transactions == n.inFlight.value)
    && (op.Abandon? ==> n.inFlight.Some?)
    && (op.MineHere? ==> MinedOnTip(n.ledger, Slice(n.ledger.pool), op.block))
  }

  function InFlight(n: Node): (r: seq<Transaction>) {
    if n.inFlight.Some? then n.inFlight.value else []
  }

  function RoundApply(n: Node, op: RoundOp): (r: Node)
    requires RoundEnabled(n, op)
  {
    match op
    case Submit(tx) => n.(ledger := AddTransaction(n.ledger, tx).state)
    case Begin => Node(Drain(n.ledger), Some(Slice(n.ledger.pool)))
    case Finish(block, expected) => Node(Commit(n.ledger, block, expected).state, None)
    case Abandon => Node(RestoreAll(n.ledger, n.inFlight.value), None)
    case Deliver(block) => n.(ledger := Commit(n.ledger, block, Tip(n.ledger).hash).state)
    case Peer(block) => n.(ledger := AppendPeer(n.ledger, block))
    case MineHere(block) => n.(ledger := MinePending(n.ledger, block))
    case Adopt(candidate) => n.(ledger := Replace(n.ledger, candidate))
  }

  /** The step is enabled and leads there. */
  predicate Leads(n: Node, op: RoundOp, m: Node) {
    RoundEnabled(n, op) && m == RoundApply(n, op)
  }

  /** The nodes a run passes through. */
  predicate RoundRun(trace: seq<Node>, ops: seq<RoundOp>) {
    && |trace| == |ops| + 1
    && Initial(trace[0].ledger) && trace[0].inFlight.None?
    && forall i :: 0 <= i < |ops| ==> Leads(trace[i], ops[i], trace[i + 1])
  }

  // ---------------------------------------------------------------- what restoring and committing do

  /** What restoring a drained slice does to the pool. */
  lemma {:induction false} RestoreAllEffect(s: State, txs: seq<Transaction>)
    requires DistinctIds(s.pool)
    ensures var t := RestoreAll(s, txs);
      && t == s.(pool := t.pool)
      && DistinctIds(t.pool) && |s.pool| <= |t.pool| <= |s.pool| + |txs| && s.pool <= t.pool
    decreases |txs|
  {
    if txs == [] {
    } else {
      DistinctIdsPush(s.pool, txs[0]);
      RestoreAllEffect(Restore(s, txs[0]), txs[1..]);
    }
  }

  /** An id is pending after a restore exactly when it was before, or was drained and is not in the id index. */
  lemma {:induction false} RestoredIds(s: State, txs: seq<Transaction>, id: string)
    ensures HasId(RestoreAll(s, txs).pool, id)
       <==> HasId(s.pool, id) || (HasId(txs, id) && !(s.ids.Some? && id in s.ids.value))
    decreases |txs|
  {
    if txs == [] {
    } else {
      var one := Restore(s, txs[0]);
      RestoredIds(one, txs[1..], id);
      HasIdConcat(s.pool, [txs[0]], id);
      HasIdConcat([txs[0]], txs[1..], id);
      assert txs == [txs[0]] + txs[1..];
      assert HasId([txs[0]], id) <==> id == txs[0].id by { assert [txs[0]][0] == txs[0]; }
    }
  }

  lemma {:induction false} RestoreAllConcat(s: State, xs: seq<Transaction>, ys: seq<Transaction>)
    ensures RestoreAll(s, xs + ys) == RestoreAll(RestoreAll(s, xs), ys)
    decreases |xs|
  {
    if xs == [] {
      assert xs + ys == ys;
    } else {
      RestoreAllConcat(Restore(s, xs[0]), xs[1..], ys);
      assert (xs + ys)[1..] == xs[1..] + ys;
    }
  }

  /**
   * A restored list goes behind the pool in its own order, each id once: the next transaction is appended
   * unless its id is in the index, was pending, or came earlier in the list.
   */
  lemma RestoredInOrder(s: State, txs: seq<Transaction>, tx: Transaction)
    ensures RestoreAll(s, []).pool == s.pool
    ensures var held := (s.ids.Some? && tx.id in s.ids.value) || exists t :: (t in s.pool || t in txs) && t.id == tx.id;
      RestoreAll(s, txs + [tx]).pool == RestoreAll(s, txs).pool + if held then [] else [tx]
  {
    RestoreAllConcat(s, txs, [tx]);
    RestoreAllFrame(s, txs);
    RestoredIds(s, txs, tx.id);
    PoolIds(s.pool, tx.id);
    PoolIds(txs, tx.id);
    assert tx.id in Ids(s.pool) <==> exists t :: t in s.pool && t.id == tx.id;
    assert tx.id in Ids(txs) <==> exists t :: t in txs && t.id == tx.id;
    var before := RestoreAll(s, txs);
    assert RestoreAll(before, [tx]) == Restore(before, tx) by { assert [tx][1..] == []; }
    assert before.pool + [] == before.pool;
  }

  /** A stale restore requeues a committed id exactly when only blocks the index has not consumed hold it. */
  lemma StaleRestoreRequeuesIff(s: State, txs: seq<Transaction>, id: string)
    requires IdsPrefix(s) && HasId(txs, id) && !HasId(s.pool, id) && id in Ids(Transactions(s.chain))
    ensures HasId(RestoreAll(s, txs).pool, id) <==> id !in Ids(Transactions(s.chain[..s.idsLen]))
    ensures HasId(RestoreAll(s, txs).pool, id) ==> id in Ids(Transactions(s.chain[s.idsLen..]))
  {
    RestoredIds(s, txs, id);
    IdsSplit(s.chain, s.idsLen);
    assert s.ids.None? ==> s.chain[..s.idsLen] == [];
  }

  /** The commit gate, read before the call: the cached history and the policy replay accept the block. */
  predicate Commits(s: State, block: Block) {
    var folded := FoldCapability(s);
    && folded.ok && folded.state.history.Some?
    && Acceptable(EffectiveSet(folded.state.history.value, block.index), folded.state.history.value, block.transactions, block.index)
    && PoliciesAccept(s.chain, block)
  }

  lemma CommitsIff(s: State, block: Block)
    requires s.chain != []
    ensures var c := Commit(s, block, Tip(s).hash);
      && (c.result == Success(true) <==> Commits(s, block))
      && (c.result.Failure? <==> !Commits(s, block))
      && c.state.pool == s.pool
      && c.state.chain == (if Commits(s, block) then s.chain + [block] else s.chain)
  {
    var folded := FoldCapability(s);
    if folded.ok && folded.state.history.Some? {
      var h := folded.state.history.value;
      FoldAcceptsAcceptable(EffectiveSet(h, block.index), h, block.transactions, block.index);
    }
  }

  /** With well-kept indexes the gate is replay from genesis, under both histories. */
  lemma CommitsIsReplay(s: State, block: Block)
    requires s.chain != [] && (Exact(s) || Stuck(s))
    ensures Commits(s, block) <==> Build(s.chain + [block]).ok && BuildPolicies(s.chain + [block]).ok
  {
    CommitsIff(s, block);
    CommitMeaning(s, block, Tip(s).hash);
  }

  // ---------------------------------------------------------------- bounds

  /** Pool and round bounds, distinct pool ids, and an id index that holds committed ids only. */
  predicate Orderly(n: Node) {
    && IdsSound(n.ledger)
    && DistinctIds(n.ledger.pool)
    && (if n.inFlight.Some?
        then |n.ledger.pool| <= MAX_PENDING_TRANSACTIONS && |n.inFlight.value| <= MAX_BLOCK_TRANSACTIONS
        else |n.ledger.pool| <= MAX_PENDING_TRANSACTIONS + MAX_BLOCK_TRANSACTIONS)
  }

  lemma {:induction false} PurgeEffect(pool: seq<Transaction>, gone: set<string>)
    ensures |Purge(pool, gone)| <= |pool|
    ensures forall tx :: tx in Purge(pool, gone) <==> tx in pool && tx.id !in gone
    ensures DistinctIds(pool) ==> DistinctIds(Purge(pool, gone))
  {
    if pool == [] {
    } else {
      PurgeEffect(pool[1..], gone);
      assert pool == [pool[0]] + pool[1..];
      if DistinctIds(pool) {
        DistinctIdsConcat([pool[0]], pool[1..]);
        DistinctIdsConcat([pool[0]], Purge(pool[1..], gone));
      }
    }
  }

  /** Purging keeps the pool's order: each transaction stays in its place unless its id is gone. */
  lemma {:induction false} PurgedInOrder(pool: seq<Transaction>, gone: set<string>, tx: Transaction)
    ensures Purge([], gone) == []
    ensures Purge(pool + [tx], gone) == Purge(pool, gone) + if tx.id in gone then [] else [tx]
  {
    if pool == [] {
      assert [tx][1..] == [];
    } else {
      PurgedInOrder(pool[1..], gone, tx);
      assert (pool + [tx])[1..] == pool[1..] + [tx];
    }
  }

  lemma RestoreIsOrderly(n: Node, txs: seq<Transaction>)
    requires Orderly(n) && n.inFlight.Some? && txs == n.inFlight.value
    ensures var t := RestoreAll(n.ledger, txs); Orderly(Node(t, None)) && t.chain == n.ledger.chain
  {
    RestoreAllEffect(n.ledger, txs);
  }

  lemma SubmitIsOrderly(n: Node, tx: Transaction)
    requires Orderly(n)
    ensures Orderly(n.(ledger := AddTransaction(n.ledger, tx).state))
  {
    AddEffect(n.ledger, tx);
    DistinctIdsPush(n.ledger.pool, tx);
    IdsSoundStep(n.ledger, Add(tx));
  }

  lemma DrainIsOrderly(pool: seq<Transaction>)
    requires DistinctIds(pool)
    ensures DistinctIds(pool[SliceLength(pool)..])
    ensures |pool| <= MAX_PENDING_TRANSACTIONS + MAX_BLOCK_TRANSACTIONS ==> |pool[SliceLength(pool)..]| <= MAX_PENDING_TRANSACTIONS
  {
    DistinctIdsConcat(Slice(pool), pool[SliceLength(pool)..]);
    assert pool == Slice(pool) + pool[SliceLength(pool)..];
  }

  lemma CommitIsOrderly(n: Node, block: Block)
    requires Orderly(n) && n.ledger.chain != []
    ensures var t := Commit(n.ledger, block, Tip(n.ledger).hash).state;
      t.chain != [] && t.pool == n.ledger.pool && IdsSound(t)
  {
    var op := CommitBlock(block, Tip(n.ledger).hash);
    IdsSoundStep(n.ledger, op);
    assert Apply(n.ledger, op) == Commit(n.ledger, block, Tip(n.ledger).hash).state;
    CommitsIff(n.ledger, block);
  }

  lemma PeerIsOrderly(n: Node, block: Block)
    requires Orderly(n) && n.ledger.chain != []
    ensures Orderly(n.(ledger := AppendPeer(n.ledger, block))) && AppendPeer(n.ledger, block).chain != []
  {
    IdsSoundStep(n.ledger, PeerBlock(block));
    PurgeEffect(n.ledger.pool, Ids(block.transactions));
  }

  lemma MineIsOrderly(n: Node, block: Block)
    requires Orderly(n)
    ensures Orderly(n.(ledger := MinePending(n.ledger, block))) && MinePending(n.ledger, block).chain != []
  {
    IdsSoundStep(n.ledger, Mine(block));
    DrainIsOrderly(n.ledger.pool);
  }

  lemma OrderlyStep(n: Node, op: RoundOp)
    requires Orderly(n) && RoundEnabled(n, op)
    ensures Orderly(RoundApply(n, op)) && RoundApply(n, op).ledger.chain != []
  {
    match op
    case Submit(tx) =>
      SubmitIsOrderly(n, tx);
      AddEffect(n.ledger, tx);
    case Begin => DrainIsOrderly(n.ledger.pool);
    case Finish(block, expected) =>
      if Tip(n.ledger).hash == expected { CommitIsOrderly(n, block); } else { RestoreIsOrderly(n, block.transactions); }
    case Abandon => RestoreIsOrderly(n, n.inFlight.value);
    case Deliver(block) => CommitIsOrderly(n, block);
    case Peer(block) => PeerIsOrderly(n, block);
    case MineHere(block) => MineIsOrderly(n, block);
    case Adopt(candidate) =>
  }

  /** Over every run, whatever happens in it, the pool and the round in flight stay within bounds. */
  lemma {:induction false} PoolStaysBounded(trace: seq<Node>, ops: seq<RoundOp>, k: nat)
    requires RoundRun(trace, ops) && k <= |ops|
    ensures Orderly(trace[k])
    ensures |trace[k].ledger.pool| + |InFlight(trace[k])| <= MAX_PENDING_TRANSACTIONS + MAX_BLOCK_TRANSACTIONS
  {
    if k == 0 {
    } else {
      PoolStaysBounded(trace, ops, k - 1);
      assert Leads(trace[k - 1], ops[k - 1], trace[k]);
      OrderlyStep(trace[k - 1], ops[k - 1]);
    }
  }

  // ---------------------------------------------------------------- what is lost

  /** The ids the node still accounts for. */
  function Known(n: Node): (r: set<string>) {
    Ids(Transactions(n.ledger.chain)) + Ids(InFlight(n)) + Ids(n.ledger.pool)
  }

  /** Every id in flight is committed or pending as well. */
  predicate Covered(n: Node) {
    Ids(InFlight(n)) <= Ids(Transactions(n.ledger.chain)) + Ids(n.ledger.pool)
  }

  /**
   * When a step keeps every id, read before the step: a round that ends on the tip passes the commit
   * gate or has nothing to lose, and an adopted chain holds every committed id that is not held elsewhere.
   */
  predicate KeepsIds(n: Node, op: RoundOp) {
    match op
    case Finish(block, expected) =>
      n.ledger.chain != [] && Tip(n.ledger).hash == expected ==> Commits(n.ledger, block) || Covered(n)
    case Adopt(candidate) =>
      Adoptable(n.ledger.chain, candidate, n.ledger.difficulty) ==>
        Ids(Transactions(n.ledger.chain)) <= Ids(Transactions(candidate)) + Ids(InFlight(n)) + Ids(n.ledger.pool)
    case _ => true
  }

  lemma RestoreKeepsKnown(n: Node)
    requires Orderly(n) && n.inFlight.Some?
    ensures Known(n) <= Known(Node(RestoreAll(n.ledger, n.inFlight.value), None))
  {
    var s, txs := n.ledger, n.inFlight.value;
    var t := RestoreAll(s, txs);
    RestoreAllEffect(s, txs);
    forall id | id in Known(n) ensures id in Ids(Transactions(s.chain)) + Ids(t.pool) {
      RestoredIds(s, txs, id);
      PoolIds(s.pool, id);
      PoolIds(txs, id);
      PoolIds(t.pool, id);
    }
  }

  lemma PurgedAreInBlock(pool: seq<Transaction>, block: Block)
    ensures Ids(pool) <= Ids(Purge(pool, Ids(block.transactions))) + Ids(block.transactions)
  {
    PurgeEffect(pool, Ids(block.transactions));
  }

  lemma PeerKeepsKnown(n: Node, block: Block)
    requires RoundEnabled(n, Peer(block))
    ensures Known(n) <= Known(RoundApply(n, Peer(block)))
  {
    PurgedAreInBlock(n.ledger.pool, block);
    IdsPush(n.ledger.chain, block);
  }

  lemma MineKeepsKnown(n: Node, block: Block)
    requires RoundEnabled(n, MineHere(block))
    ensures Known(n) <= Known(RoundApply(n, MineHere(block)))
  {
    MineEffect(n.ledger, block);
    SliceIds(n.ledger.pool);
    IdsPush(n.ledger.chain, block);
  }

  /** What local mining does to chain and pool. */
  lemma MineEffect(s: State, block: Block)
    requires MinedOnTip(s, Slice(s.pool), block)
    ensures MinePending(s, block).chain == s.chain + [block] && MinePending(s, block).pool == s.pool[SliceLength(s.pool)..]
    ensures block.transactions == Slice(s.pool)
  {
  }

  lemma SliceIds(pool: seq<Transaction>)
    ensures Ids(pool) == Ids(Slice(pool)) + Ids(pool[SliceLength(pool)..])
  {
    assert pool == Slice(pool) + pool[SliceLength(pool)..];
    IdsConcat(Slice(pool), pool[SliceLength(pool)..]);
  }

  lemma FinishKeepsKnown(n: Node, block: Block, expected: string)
    requires Orderly(n) && RoundEnabled(n, Finish(block, expected))
    ensures Known(n) <= Known(RoundApply(n, Finish(block, expected))) <==> KeepsIds(n, Finish(block, expected))
  {
    var s := n.ledger;
    if Tip(s).hash == expected {
      CommitsIff(s, block);
      IdsPush(s.chain, block);
    } else {
      RestoreKeepsKnown(n);
    }
  }

  /** Which steps keep every id the node accounts for: exactly those that meet the condition. */
  lemma StepKeepsIdsIff(n: Node, op: RoundOp)
    requires Orderly(n) && RoundEnabled(n, op)
    ensures Known(n) <= Known(RoundApply(n, op)) <==> KeepsIds(n, op)
  {
    var s := n.ledger;
    match op
    case Submit(tx) =>
      AddEffect(s, tx);
      IdsConcat(s.pool, [tx]);
    case Begin => SliceIds(s.pool);
    case Finish(block, expected) => FinishKeepsKnown(n, block, expected);
    case Abandon => RestoreKeepsKnown(n);
    case Deliver(block) =>
      CommitsIff(s, block);
      IdsPush(s.chain, block);
    case Peer(block) => PeerKeepsKnown(n, block);
    case MineHere(block) => MineKeepsKnown(n, block);
    case Adopt(candidate) =>
  }

  /** In the terms of the chain alone: a round on the tip keeps its ids exactly when the extended chain replays, or they are held anyway. */
  lemma RoundOnTipKeepsIdsIff(n: Node, block: Block)
    requires n.ledger.chain != [] && Orderly(n) && RoundEnabled(n, Finish(block, Tip(n.ledger).hash))
    requires Exact(n.ledger) || Stuck(n.ledger)
    ensures Known(n) <= Known(RoundApply(n, Finish(block, Tip(n.ledger).hash)))
       <==> || (Build(n.ledger.chain + [block]).ok && BuildPolicies(n.ledger.chain + [block]).ok)
            || Covered(n)
  {
    FinishKeepsKnown(n, block, Tip(n.ledger).hash);
    CommitsIsReplay(n.ledger, block);
  }

  /** No step of the run forgets an id. */
  predicate ForgetsNothing(trace: seq<Node>) {
    forall i :: 0 <= i < |trace| - 1 ==> Known(trace[i]) <= Known(trace[i + 1])
  }

  /** Nothing is lost: over every run, no step forgets an id if and only if every step meets the condition. */
  lemma NothingIsLostIff(trace: seq<Node>, ops: seq<RoundOp>)
    requires RoundRun(trace, ops)
    ensures ForgetsNothing(trace) <==> forall i :: 0 <= i < |ops| ==> KeepsIds(trace[i], ops[i])
  {
    if ForgetsNothing(trace) {
      forall i | 0 <= i < |ops| ensures KeepsIds(trace[i], ops[i]) {
        RunStepKeepsIdsIff(trace, ops, i);
      }
    } else {
      var i :| 0 <= i < |ops| && !(Known(trace[i]) <= Known(trace[i + 1]));
      RunStepKeepsIdsIff(trace, ops, i);
    }
  }

  lemma RunStepKeepsIdsIff(trace: seq<Node>, ops: seq<RoundOp>, i: nat)
    requires RoundRun(trace, ops) && i < |ops|
    ensures Known(trace[i]) <= Known(trace[i + 1]) <==> KeepsIds(trace[i], ops[i])
  {
    PoolStaysBounded(trace, ops, i);
    assert Leads(trace[i], ops[i], trace[i + 1]);
    StepKeepsIdsIff(trace[i], ops[i]);
  }

  lemma {:induction false} Ascends(known: seq<set<string>>, j: nat, k: nat)
    requires j <= k < |known| && forall i :: j <= i < k ==> known[i] <= known[i + 1]
    ensures known[j] <= known[k]
    decreases k - j
  {
    if j == k {
    } else {
      Ascends(known, j, k - 1);
      assert known[k - 1] <= known[k - 1 + 1];
    }
  }

  /** Then an id the node once accounted for stays in the chain, the pool or the round in flight. */
  lemma NothingIsLost(trace: seq<Node>, ops: seq<RoundOp>, j: nat, k: nat)
    requires RoundRun(trace, ops) && j <= k <= |ops|
    requires forall i :: j <= i < k ==> KeepsIds(trace[i], ops[i])
    ensures Known(trace[j]) <= Known(trace[k])
  {
    var known := seq(|trace|, i requires 0 <= i < |trace| => Known(trace[i]));
    forall i | j <= i < k ensures known[i] <= known[i + 1] {
      RunStepKeepsIdsIff(trace, ops, i);
    }
    Ascends(known, j, k);
  }

  /** In particular a submission the node answered Ok stays accounted for. */
  lemma AcceptedSubmissionSurvives(trace: seq<Node>, ops: seq<RoundOp>, i: nat, k: nat)
    requires RoundRun(trace, ops) && i < k <= |ops| && ops[i].Submit?
    requires forall m :: i < m < k ==> KeepsIds(trace[m], ops[m])
    requires AddTransaction(trace[i].ledger, ops[i].tx).outcome == Ok
    ensures ops[i].tx.id in Known(trace[k])
  {
    PoolStaysBounded(trace, ops, i);
    var s, tx := trace[i].ledger, ops[i].tx;
    AddEffect(s, tx);
    PoolIds(s.pool, tx.id);
    IdsConcat(s.pool, [tx]);
    assert tx in [tx];
    assert Leads(trace[i], ops[i], trace[i + 1]);
    NothingIsLost(trace, ops, i + 1, k);
  }

  /** The stale half of a round: every drained id is pending exactly once or committed, behind the untouched pool. */
  lemma StaleRoundRestores(n: Node, block: Block, expected: string, tx: Transaction)
    requires Orderly(n) && RoundEnabled(n, Finish(block, expected)) && Tip(n.ledger).hash != expected
    requires tx in n.inFlight.value
    ensures var t := RoundApply(n, Finish(block, expected)).ledger;
      && Commit(n.ledger, block, expected).result == Success(false)
      && (HasId(t.pool, tx.id) || tx.id in Ids(Transactions(t.chain)))
      && DistinctIds(t.pool) && t.chain == n.ledger.chain && n.ledger.pool <= t.pool
  {
    RestoreAllEffect(n.ledger, block.transactions);
    RestoredIds(n.ledger, block.transactions, tx.id);
    PoolIds(block.transactions, tx.id);
  }

  /** The successful half: the block takes the drained slice and the pool stays. */
  lemma LiveRoundCommits(n: Node, block: Block)
    requires n.ledger.chain != [] && RoundEnabled(n, Finish(block, Tip(n.ledger).hash)) && Commits(n.ledger, block)
    ensures var t := RoundApply(n, Finish(block, Tip(n.ledger).hash)).ledger;
      && Transactions(t.chain) == Transactions(n.ledger.chain) + n.inFlight.value
      && t.pool == n.ledger.pool
  {
    CommitsIff(n.ledger, block);
    TransactionsPush(n.ledger.chain, block);
  }

  lemma TwiceIsRejected(s: State, first: Transaction, second: Transaction, block: Block)
    requires s.chain != [] && first.kind.Activation? && second.kind == first.kind && block.transactions == [first, second]
    ensures !Commits(s, block)
  {
    var ids := CapabilityIdsIn([first, second]);
    assert [first, second][1..] == [second] && [second][1..] == [];
    assert CapabilityIdsIn([second]) == [first.kind.activation.capabilityId] + CapabilityIdsIn([]);
    assert ids == [first.kind.activation.capabilityId] + CapabilityIdsIn([second]);
    assert ids[0] == ids[1];
  }

  /** Four steps from a fresh ledger are a run. */
  lemma FourSteps(n0: Node, o0: RoundOp, n1: Node, o1: RoundOp, n2: Node, o2: RoundOp, n3: Node, o3: RoundOp, n4: Node)
    requires Initial(n0.ledger) && n0.inFlight.None?
    requires Leads(n0, o0, n1) && Leads(n1, o1, n2) && Leads(n2, o2, n3) && Leads(n3, o3, n4)
    ensures RoundRun([n0, n1, n2, n3, n4], [o0, o1, o2, o3])
  {
  }

  lemma TwoSubmissionsDrained(s: State, first: Transaction, second: Transaction)
    requires Initial(s) && first.id != "" && second.id != "" && first.id != second.id
    requires first.kind.Activation? && second.kind == first.kind && Activatable(first.kind.activation, 1)
    ensures Leads(Node(s, None), Submit(first), Node(Queued(s, [first]), None))
    ensures Leads(Node(Queued(s, [first]), None), Submit(second), Node(Queued(s, [first, second]), None))
    ensures Leads(Node(Queued(s, [first, second]), None), Begin, Node(Queued(s, []), Some([first, second])))
    ensures AddTransaction(s, first).outcome == Ok && AddTransaction(Queued(s, [first]), second).outcome == Ok
  {
    FirstAdmission(s, first);
    SecondAdmission(s, first, second);
    assert [first, second][..2] == [first, second] && [first, second][2..] == [];
  }

  lemma RejectedFinish(s: State, slice: seq<Transaction>, block: Block)
    requires Initial(s) && block.transactions == slice && !Commits(Queued(s, []), block)
    ensures var n, op := Node(Queued(s, []), Some(slice)), Finish(block, s.chain[0].hash);
      RoundEnabled(n, op) && Known(RoundApply(n, op)) == {} && Known(n) == Ids(slice) && Leads(n, op, RoundApply(n, op))
  {
    CommitsIff(Queued(s, []), block);
    assert Transactions(s.chain) == [] by { assert Transactions(s.chain[1..]) == []; }
  }

  /**
   * Loss is reachable: two submissions that activate one capability are both answered Ok, drained and
   * mined into one block; the commit rejects it, and neither id is known any more.
   */
  lemma RejectedRoundLosesTransactions(s: State, first: Transaction, second: Transaction, block: Block)
    returns (trace: seq<Node>, ops: seq<RoundOp>)
    requires Initial(s) && first.id != "" && second.id != "" && first.id != second.id
    requires first.kind.Activation? && second.kind == first.kind && Activatable(first.kind.activation, 1)
    requires block.transactions == [first, second]
    ensures ops == [Submit(first), Submit(second), Begin, Finish(block, s.chain[0].hash)]
    ensures RoundRun(trace, ops) && trace[0] == Node(s, None)
    ensures AddTransaction(trace[0].ledger, first).outcome == Ok && AddTransaction(trace[1].ledger, second).outcome == Ok
    ensures first.id in Known(trace[3]) && second.id in Known(trace[3])
    ensures first.id !in Known(trace[4]) && second.id !in Known(trace[4])
  {
    ops := [Submit(first), Submit(second), Begin, Finish(block, s.chain[0].hash)];
    TwoSubmissionsDrained(s, first, second);
    TwiceIsRejected(Queued(s, []), first, second, block);
    RejectedFinish(s, [first, second], block);
    var start, one, two, drained :=
      Node(s, None), Node(Queued(s, [first]), None), Node(Queued(s, [first, second]), None), Node(Queued(s, []), Some([first, second]));
    var lost := RoundApply(drained, ops[3]);
    trace := [start, one, two, drained, lost];
    FourSteps(start, ops[0], one, ops[1], two, ops[2], drained, ops[3], lost);
    assert first in [first, second] && second in [first, second];
  }

  // ---------------------------------------------------------------- what is duplicated, and what is conserved

  /** Everything the node holds, committed, in flight or pending. */
  function Holdings(n: Node): (r: seq<Transaction>) {
    Transactions(n.ledger.chain) + InFlight(n) + n.ledger.pool
  }

  predicate Apart(xs: seq<Transaction>, ys: seq<Transaction>, zs: seq<Transaction>) {
    && DistinctIds(xs) && DistinctIds(ys) && DistinctIds(zs)
    && Ids(xs) !! Ids(ys) && Ids(xs) !! Ids(zs) && Ids(ys) !! Ids(zs)
  }

  lemma ThreeParts(xs: seq<Transaction>, ys: seq<Transaction>, zs: seq<Transaction>)
    ensures DistinctIds(xs + ys + zs) <==> Apart(xs, ys, zs)
    ensures multiset(xs + ys + zs) == multiset(xs) + multiset(ys) + multiset(zs)
  {
    DistinctIdsConcat(xs + ys, zs);
    DistinctIdsConcat(xs, ys);
    IdsConcat(xs, ys);
  }

  /** The pending transactions whose ids are in `gone`. */
  function Purged(pool: seq<Transaction>, gone: set<string>): (r: seq<Transaction>) {
    if pool == [] then []
    else if pool[0].id in gone then [pool[0]] + Purged(pool[1..], gone)
    else Purged(pool[1..], gone)
  }

  lemma {:induction false} PurgeSplits(pool: seq<Transaction>, gone: set<string>)
    ensures multiset(pool) == multiset(Purge(pool, gone)) + multiset(Purged(pool, gone))
  {
    if pool == [] {
    } else {
      PurgeSplits(pool[1..], gone);
      assert pool == [pool[0]] + pool[1..];
    }
  }

  /** When a step keeps all held ids distinct, read before the step. */
  predicate Distinguishes(n: Node, op: RoundOp) {
    var committed, flying, pending := Transactions(n.ledger.chain), InFlight(n), n.ledger.pool;
    match op
    case Submit(tx) => Admits(n.ledger, tx) ==> tx.id !in Ids(committed) + Ids(flying)
    case Deliver(block) =>
      Commits(n.ledger, block) ==> DistinctIds(block.transactions) && Ids(block.transactions) !! Known(n)
    case Peer(block) =>
      ExtendsTip(n.ledger.chain, block) ==>
        DistinctIds(block.transactions) && Ids(block.transactions) !! Ids(committed) + Ids(flying)
    case Adopt(candidate) =>
      Adoptable(n.ledger.chain, candidate, n.ledger.difficulty) ==>
        DistinctIds(Transactions(candidate)) && Ids(Transactions(candidate)) !! Ids(flying) + Ids(pending)
    case _ => true
  }

  /** The transactions a step brings in. */
  function Gained(n: Node, op: RoundOp): (r: multiset<Transaction>) {
    match op
    case Submit(tx) => if Admits(n.ledger, tx) then multiset{tx} else multiset{}
    case Deliver(block) => if Commits(n.ledger, block) then multiset(block.transactions) else multiset{}
    case Peer(block) => if ExtendsTip(n.ledger.chain, block) then multiset(block.transactions) else multiset{}
    case Adopt(candidate) =>
      if Adoptable(n.ledger.chain, candidate, n.ledger.difficulty) then multiset(Transactions(candidate)) else multiset{}
    case _ => multiset{}
  }

  /** The transactions a step lets go of: a rejected round, the pending copies of a peer's block, a replaced chain. */
  function Dropped(n: Node, op: RoundOp): (r: multiset<Transaction>) {
    match op
    case Finish(block, expected) =>
      if n.ledger.chain != [] && Tip(n.ledger).hash == expected && !Commits(n.ledger, block)
      then multiset(InFlight(n)) else multiset{}
    case Peer(block) =>
      if ExtendsTip(n.ledger.chain, block) then multiset(Purged(n.ledger.pool, Ids(block.transactions))) else multiset{}
    case Adopt(candidate) =>
      if Adoptable(n.ledger.chain, candidate, n.ledger.difficulty) then multiset(Transactions(n.ledger.chain)) else multiset{}
    case _ => multiset{}
  }

  /** What is proved of every step from distinct holdings. */
  ghost predicate Accounted(n: Node, op: RoundOp, m: Node) {
    && (DistinctIds(Holdings(m)) <==> Distinguishes(n, op))
    && multiset(Holdings(m)) + Dropped(n, op) == multiset(Holdings(n)) + Gained(n, op)
  }

  lemma SubmitAccounted(n: Node, tx: Transaction)
    requires RoundEnabled(n, Submit(tx)) && DistinctIds(Holdings(n))
    ensures Accounted(n, Submit(tx), RoundApply(n, Submit(tx)))
  {
    var committed, flying, s := Transactions(n.ledger.chain), InFlight(n), n.ledger;
    AddEffect(s, tx);
    if Admits(s, tx) {
      ConcatAssociates(committed + flying, s.pool, [tx]);
      DistinctIdsPush(Holdings(n), tx);
      HasIdConcat(committed + flying, s.pool, tx.id);
      IdsConcat(committed, flying);
    }
  }

  /** Draining a slice moves it from the pool into the round. */
  lemma BeginAccounted(n: Node)
    requires RoundEnabled(n, Begin) && DistinctIds(Holdings(n))
    ensures Accounted(n, Begin, RoundApply(n, Begin))
  {
    var s, committed := n.ledger, Transactions(n.ledger.chain);
    assert s.pool == Slice(s.pool) + Drain(s).pool;
    assert committed + [] == committed;
    ConcatAssociates(committed, Slice(s.pool), Drain(s).pool);
  }

  /** Restoring a slice with no known id puts all of it back, in order. */
  lemma {:induction false} RestoreAllFresh(s: State, txs: seq<Transaction>)
    requires DistinctIds(s.pool + txs) && (s.ids.Some? ==> s.ids.value !! Ids(txs))
    ensures RestoreAll(s, txs) == s.(pool := s.pool + txs)
    decreases |txs|
  {
    if txs == [] {
      assert s.pool + txs == s.pool;
    } else {
      assert txs == [txs[0]] + txs[1..];
      DistinctIdsConcat(s.pool, txs);
      PoolIds(s.pool, txs[0].id);
      assert txs[0] in txs && txs[0].id in Ids(txs);
      ConcatAssociates(s.pool, [txs[0]], txs[1..]);
      RestoreAllFresh(Restore(s, txs[0]), txs[1..]);
    }
  }

  /** A slice may go from the middle to the end. */
  lemma MoveToEnd(committed: seq<Transaction>, slice: seq<Transaction>, pool: seq<Transaction>)
    requires DistinctIds(committed + slice + pool)
    ensures DistinctIds(pool + slice) && Ids(slice) !! Ids(committed)
    ensures DistinctIds(committed + [] + (pool + slice))
    ensures multiset(committed + [] + (pool + slice)) == multiset(committed + slice + pool)
  {
    ThreeParts(committed, slice, pool);
    DistinctIdsConcat(pool, slice);
    IdsConcat(pool, slice);
    ThreeParts(committed, [], pool + slice);
    Shift(multiset(committed), multiset{}, multiset{}, multiset(pool + slice), multiset(pool), multiset(slice));
  }

  lemma RestoreAccounted(n: Node)
    requires n.inFlight.Some? && IdsSound(n.ledger) && DistinctIds(Holdings(n))
    ensures var m := Node(RestoreAll(n.ledger, n.inFlight.value), None);
      DistinctIds(Holdings(m)) && multiset(Holdings(m)) == multiset(Holdings(n))
  {
    MoveToEnd(Transactions(n.ledger.chain), n.inFlight.value, n.ledger.pool);
    RestoreAllFresh(n.ledger, n.inFlight.value);
  }

  lemma FinishAccounted(n: Node, block: Block, expected: string)
    requires Orderly(n) && RoundEnabled(n, Finish(block, expected)) && DistinctIds(Holdings(n))
    ensures Accounted(n, Finish(block, expected), RoundApply(n, Finish(block, expected)))
  {
    var s, slice, committed := n.ledger, n.inFlight.value, Transactions(n.ledger.chain);
    if Tip(s).hash != expected {
      RestoreAccounted(n);
    } else {
      CommitsIff(s, block);
      TransactionsPush(s.chain, block);
      ThreeParts(committed, slice, s.pool);
      ThreeParts(committed, [], s.pool);
      assert committed + slice + [] == committed + slice;
    }
  }

  /** A block on top of the chain, with whatever is left of the pool. */
  lemma BlockAccounted(n: Node, block: Block, pool: seq<Transaction>)
    requires DistinctIds(Holdings(n)) && DistinctIds(pool) && Ids(pool) <= Ids(n.ledger.pool)
    ensures var held := Transactions(n.ledger.chain) + block.transactions + InFlight(n) + pool;
      && (DistinctIds(held) <==> && DistinctIds(block.transactions)
                                 && Ids(block.transactions) !! Ids(Transactions(n.ledger.chain)) + Ids(InFlight(n)) + Ids(pool))
      && multiset(held) == multiset(Transactions(n.ledger.chain)) + multiset(block.transactions) + multiset(InFlight(n)) + multiset(pool)
      && multiset(Holdings(n)) == multiset(Transactions(n.ledger.chain)) + multiset(InFlight(n)) + multiset(n.ledger.pool)
  {
    var committed := Transactions(n.ledger.chain);
    ThreeParts(committed, InFlight(n), n.ledger.pool);
    ThreeParts(committed + block.transactions, InFlight(n), pool);
    DistinctIdsConcat(committed, block.transactions);
    IdsConcat(committed, block.transactions);
  }

  lemma DeliverAccounted(n: Node, block: Block)
    requires RoundEnabled(n, Deliver(block)) && DistinctIds(Holdings(n))
    ensures Accounted(n, Deliver(block), RoundApply(n, Deliver(block)))
  {
    CommitsIff(n.ledger, block);
    TransactionsPush(n.ledger.chain, block);
    ThreeParts(Transactions(n.ledger.chain), InFlight(n), n.ledger.pool);
    BlockAccounted(n, block, n.ledger.pool);
  }

  /** What leaves the pool leaves it either into the block's place or altogether. */
  lemma Shift(c: multiset<Transaction>, b: multiset<Transaction>, f: multiset<Transaction>,
              pool: multiset<Transaction>, left: multiset<Transaction>, out: multiset<Transaction>)
    requires pool == left + out
    ensures c + b + f + left + out == c + f + pool + b
    ensures c + out + f + left == c + f + pool
  {
  }

  lemma LeftPool(pool: seq<Transaction>, gone: set<string>)
    requires DistinctIds(pool)
    ensures var left := Purge(pool, gone); DistinctIds(left) && Ids(left) <= Ids(pool) && Ids(left) !! gone
  {
    PurgeEffect(pool, gone);
  }

  lemma PeerAccounted(n: Node, block: Block)
    requires RoundEnabled(n, Peer(block)) && DistinctIds(Holdings(n))
    ensures Accounted(n, Peer(block), RoundApply(n, Peer(block)))
  {
    if ExtendsTip(n.ledger.chain, block) {
      var pool, gone := n.ledger.pool, Ids(block.transactions);
      var left, committed := Purge(pool, gone), Transactions(n.ledger.chain);
      ThreeParts(committed, InFlight(n), pool);
      LeftPool(pool, gone);
      BlockAccounted(n, block, left);
      PurgeSplits(pool, gone);
      Shift(multiset(committed), multiset(block.transactions), multiset(InFlight(n)), multiset(pool), multiset(left), multiset(Purged(pool, gone)));
      TransactionsPush(n.ledger.chain, block);
    }
  }

  lemma DrainedPool(pool: seq<Transaction>)
    requires DistinctIds(pool)
    ensures var slice, rest := Slice(pool), pool[SliceLength(pool)..];
      && DistinctIds(slice) && DistinctIds(rest) && Ids(slice) !! Ids(rest) && Ids(pool) == Ids(slice) + Ids(rest)
      && multiset(pool) == multiset(rest) + multiset(slice)
  {
    var slice, rest := Slice(pool), pool[SliceLength(pool)..];
    assert pool == slice + rest;
    DistinctIdsConcat(slice, rest);
    IdsConcat(slice, rest);
  }

  lemma MinedHoldings(n: Node, block: Block)
    requires RoundEnabled(n, MineHere(block))
    ensures block.transactions == Slice(n.ledger.pool)
    ensures Holdings(RoundApply(n, MineHere(block)))
         == Transactions(n.ledger.chain) + block.transactions + InFlight(n) + n.ledger.pool[SliceLength(n.ledger.pool)..]
  {
    MineEffect(n.ledger, block);
    TransactionsPush(n.ledger.chain, block);
  }

  lemma MineAccounted(n: Node, block: Block)
    requires RoundEnabled(n, MineHere(block)) && DistinctIds(Holdings(n))
    ensures Accounted(n, MineHere(block), RoundApply(n, MineHere(block)))
  {
    var pool, committed := n.ledger.pool, Transactions(n.ledger.chain);
    var rest := pool[SliceLength(pool)..];
    MinedHoldings(n, block);
    ThreeParts(committed, InFlight(n), pool);
    DrainedPool(pool);
    BlockAccounted(n, block, rest);
    Shift(multiset(committed), multiset{}, multiset(InFlight(n)), multiset(pool), multiset(rest), multiset(Slice(pool)));
    var m := RoundApply(n, MineHere(block));
    assert multiset(Holdings(m)) == multiset(Holdings(n));
    assert DistinctIds(Holdings(m));
    assert Gained(n, MineHere(block)) == multiset{} && Dropped(n, MineHere(block)) == multiset{};
  }

  /** One committed list in exchange for another. */
  lemma Exchange(was: seq<Transaction>, now: seq<Transaction>, flying: seq<Transaction>, pool: seq<Transaction>)
    requires DistinctIds(was + flying + pool)
    ensures DistinctIds(now + flying + pool) <==> DistinctIds(now) && Ids(now) !! Ids(flying) + Ids(pool)
    ensures multiset(now + flying + pool) + multiset(was) == multiset(was + flying + pool) + multiset(now)
  {
    ThreeParts(was, flying, pool);
    ThreeParts(now, flying, pool);
  }

  lemma AdoptAccounted(n: Node, candidate: seq<Block>)
    requires RoundEnabled(n, Adopt(candidate)) && DistinctIds(Holdings(n))
    ensures Accounted(n, Adopt(candidate), RoundApply(n, Adopt(candidate)))
  {
    Exchange(Transactions(n.ledger.chain), Transactions(candidate), InFlight(n), n.ledger.pool);
  }

  /** From distinct holdings, a step keeps ids distinct exactly when it meets the condition, and always balances. */
  lemma StepAccounted(n: Node, op: RoundOp)
    requires Orderly(n) && RoundEnabled(n, op) && DistinctIds(Holdings(n))
    ensures Accounted(n, op, RoundApply(n, op))
  {
    match op
    case Submit(tx) => SubmitAccounted(n, tx);
    case Begin => BeginAccounted(n);
    case Finish(block, expected) => FinishAccounted(n, block, expected);
    case Abandon => RestoreAccounted(n);
    case Deliver(block) => DeliverAccounted(n, block);
    case Peer(block) => PeerAccounted(n, block);
    case MineHere(block) => MineAccounted(n, block);
    case Adopt(candidate) => AdoptAccounted(n, candidate);
  }

  /** Everything that came in during the first `k` steps. */
  function Entered(trace: seq<Node>, ops: seq<RoundOp>, k: nat): (r: multiset<Transaction>)
    requires k <= |ops| < |trace|
  {
    if k == 0 then multiset{} else Entered(trace, ops, k - 1) + Gained(trace[k - 1], ops[k - 1])
  }

  /** Everything that was let go of during the first `k` steps. */
  function Left(trace: seq<Node>, ops: seq<RoundOp>, k: nat): (r: multiset<Transaction>)
    requires k <= |ops| < |trace|
  {
    if k == 0 then multiset{} else Left(trace, ops, k - 1) + Dropped(trace[k - 1], ops[k - 1])
  }

  lemma Balance(held: multiset<Transaction>, held': multiset<Transaction>, entered: multiset<Transaction>,
                left: multiset<Transaction>, gained: multiset<Transaction>, dropped: multiset<Transaction>)
    requires held + left == entered && held' + dropped == held + gained
    ensures held' + (left + dropped) == entered + gained
  {
    assert held' + (left + dropped) == (held' + dropped) + left;
    assert (held + gained) + left == (held + left) + gained;
  }

  /**
   * Mining conserves transactions: over every run whose steps meet the condition, stale, rejected and
   * abandoned rounds, peer blocks and adopted chains included, chain, flight and pool hold exactly what
   * came in and was not let go of, each id once.
   */
  lemma {:induction false} MiningConserves(trace: seq<Node>, ops: seq<RoundOp>, k: nat)
    requires RoundRun(trace, ops) && k <= |ops|
    requires forall i :: 0 <= i < k ==> Distinguishes(trace[i], ops[i])
    ensures DistinctIds(Holdings(trace[k]))
    ensures multiset(Holdings(trace[k])) + Left(trace, ops, k) == Entered(trace, ops, k)
  {
    if k == 0 {
      var s := trace[0].ledger;
      assert Transactions(s.chain) == [] by { assert Transactions(s.chain[1..]) == []; }
      assert Holdings(trace[0]) == [];
    } else {
      MiningConserves(trace, ops, k - 1);
      PoolStaysBounded(trace, ops, k - 1);
      var n, op, m := trace[k - 1], ops[k - 1], trace[k];
      assert Leads(n, op, m);
      StepAccounted(n, op);
      Balance(multiset(Holdings(n)), multiset(Holdings(m)), Entered(trace, ops, k - 1), Left(trace, ops, k - 1),
              Gained(n, op), Dropped(n, op));
    }
  }

  /** The run never holds one id twice. */
  predicate NeverRepeats(trace: seq<Node>) {
    forall k :: 0 <= k < |trace| ==> DistinctIds(Holdings(trace[k]))
  }

  /** Over every run, no id is ever held twice if and only if every step meets the condition. */
  lemma NothingIsDuplicatedIff(trace: seq<Node>, ops: seq<RoundOp>)
    requires RoundRun(trace, ops)
    ensures NeverRepeats(trace) <==> forall i :: 0 <= i < |ops| ==> Distinguishes(trace[i], ops[i])
  {
    if NeverRepeats(trace) {
      forall i | 0 <= i < |ops| ensures Distinguishes(trace[i], ops[i]) {
        PoolStaysBounded(trace, ops, i);
        assert Leads(trace[i], ops[i], trace[i + 1]);
        StepAccounted(trace[i], ops[i]);
        assert DistinctIds(Holdings(trace[i + 1]));
      }
    } else {
      var k :| 0 <= k < |trace| && !DistinctIds(Holdings(trace[k]));
      if forall i :: 0 <= i < |ops| ==> Distinguishes(trace[i], ops[i]) { MiningConserves(trace, ops, k); }
    }
  }

  /** In the terms of chain, round and pool: a submission makes ids collide exactly when it would be queued and its id is in flight. */
  lemma ReadmissionDuplicatesIff(n: Node, tx: Transaction)
    requires Orderly(n) && RoundEnabled(n, Submit(tx)) && DistinctIds(Holdings(n))
    requires (Exact(n.ledger) || Stuck(n.ledger)) && IdsPrefix(n.ledger)
    ensures DistinctIds(Holdings(RoundApply(n, Submit(tx))))
       <==> !(&& tx.id in Ids(InFlight(n)) && tx.id != ""
              && Replayable(n.ledger.chain, 0) && Eligible(n.ledger.chain, tx)
              && |n.ledger.pool| < MAX_PENDING_TRANSACTIONS)
  {
    StepAccounted(n, Submit(tx));
    ThreeParts(Transactions(n.ledger.chain), InFlight(n), n.ledger.pool);
    AdmissionMeaning(n.ledger, tx);
    AddEffect(n.ledger, tx);
    AdmissionByReplay(n.ledger, tx);
    PoolIds(n.ledger.pool, tx.id);
    assert |n.ledger.pool + [tx]| != |n.ledger.pool|;
  }

  // ---------------------------------------------------------------- reaching duplication

  /** A plain round on a plain chain: it commits, and the pool keeps what it held. */
  function Grown(s: State, blocks: seq<Block>, pool: seq<Transaction>, id: string): (r: State) {
    State(s.chain + blocks, pool, s.difficulty, |s.chain| + |blocks|, Some([]), |s.chain| + |blocks|, Some(if blocks == [] then {} else {id}))
  }

  lemma ResubmissionSteps(s: State, tx: Transaction, first: Block, second: Block)
    requires Initial(s) && Plain(tx) && first.transactions == [tx] && second.transactions == [tx]
    ensures Leads(Node(s, None), Submit(tx), Node(Grown(s, [], [tx], tx.id), None))
    ensures Leads(Node(Grown(s, [], [tx], tx.id), None), Begin, Node(Grown(s, [], [], tx.id), Some([tx])))
    ensures Leads(Node(Grown(s, [], [], tx.id), Some([tx])), Submit(tx), Node(Grown(s, [], [tx], tx.id), Some([tx])))
  {
    PlainIsAdmitted(s, tx);
    assert s.chain + [] == s.chain;
    assert [tx][..1] == [tx] && [tx][1..] == [];
    var empty := Grown(s, [], [], tx.id);
    assert PlainCache(empty);
    PlainScreens(empty, tx);
    assert [] + [tx] == [tx];
  }

  lemma ResubmissionFirst(s: State, tx: Transaction, first: Block)
    requires Initial(s) && Plain(tx) && first.transactions == [tx]
    ensures Leads(Node(Grown(s, [], [tx], tx.id), Some([tx])), Finish(first, s.chain[0].hash), Node(Grown(s, [first], [tx], tx.id), None))
  {
    assert s.chain + [] == s.chain;
    assert {} + Ids([tx]) == {tx.id} by { assert tx in [tx]; }
    PlainCommits(Grown(s, [], [tx], tx.id), first);
  }

  lemma ResubmissionBegins(s: State, tx: Transaction, first: Block)
    requires Initial(s)
    ensures Leads(Node(Grown(s, [first], [tx], tx.id), None), Begin, Node(Grown(s, [first], [], tx.id), Some([tx])))
  {
    assert [tx][..1] == [tx] && [tx][1..] == [];
  }

  lemma ResubmissionSecond(s: State, tx: Transaction, first: Block, second: Block)
    requires Initial(s) && Plain(tx) && first.transactions == [tx] && second.transactions == [tx]
    ensures Leads(Node(Grown(s, [first], [], tx.id), Some([tx])), Finish(second, first.hash), Node(Grown(s, [first, second], [], tx.id), None))
  {
    assert s.chain + [first] + [second] == s.chain + [first, second];
    assert {tx.id} + Ids([tx]) == {tx.id};
    PlainCommits(Grown(s, [first], [], tx.id), second);
  }

  /** Reachable through resubmission: a transaction sent again while it is in flight is committed twice. */
  lemma ResubmissionCommitsTwice(s: State, tx: Transaction, first: Block, second: Block)
    returns (trace: seq<Node>, ops: seq<RoundOp>)
    requires Initial(s) && Plain(tx) && first.transactions == [tx] && second.transactions == [tx]
    ensures ops == [Submit(tx), Begin, Submit(tx), Finish(first, s.chain[0].hash), Begin, Finish(second, first.hash)]
    ensures RoundRun(trace, ops) && trace[0] == Node(s, None)
    ensures Transactions(trace[6].ledger.chain) == [tx, tx]
  {
    ops := [Submit(tx), Begin, Submit(tx), Finish(first, s.chain[0].hash), Begin, Finish(second, first.hash)];
    ResubmissionSteps(s, tx, first, second);
    ResubmissionFirst(s, tx, first);
    ResubmissionBegins(s, tx, first);
    ResubmissionSecond(s, tx, first, second);
    var n0, n1, n2, n3 := Node(s, None), Node(Grown(s, [], [tx], tx.id), None), Node(Grown(s, [], [], tx.id), Some([tx])),
      Node(Grown(s, [], [tx], tx.id), Some([tx]));
    var n4, n5, n6 := Node(Grown(s, [first], [tx], tx.id), None), Node(Grown(s, [first], [], tx.id), Some([tx])),
      Node(Grown(s, [first, second], [], tx.id), None);
    trace := [n0, n1, n2, n3, n4, n5, n6];
    SixSteps(n0, ops[0], n1, ops[1], n2, ops[2], n3, ops[3], n4, ops[4], n5, ops[5], n6);
    CommittedTwice(s, tx, first, second);
  }

  /** Six steps from a fresh ledger are a run. */
  lemma SixSteps(n0: Node, o0: RoundOp, n1: Node, o1: RoundOp, n2: Node, o2: RoundOp, n3: Node,
                 o3: RoundOp, n4: Node, o4: RoundOp, n5: Node, o5: RoundOp, n6: Node)
    requires Initial(n0.ledger) && n0.inFlight.None?
    requires Leads(n0, o0, n1) && Leads(n1, o1, n2) && Leads(n2, o2, n3)
    requires Leads(n3, o3, n4) && Leads(n4, o4, n5) && Leads(n5, o5, n6)
    ensures RoundRun([n0, n1, n2, n3, n4, n5, n6], [o0, o1, o2, o3, o4, o5])
  {
  }

  lemma CommittedTwice(s: State, tx: Transaction, first: Block, second: Block)
    requires Initial(s) && first.transactions == [tx] && second.transactions == [tx]
    ensures Transactions(Grown(s, [first, second], [], tx.id).chain) == [tx, tx]
  {
    assert Transactions(s.chain) == [] by { assert Transactions(s.chain[1..]) == []; }
    assert s.chain + [first, second] == (s.chain + [first]) + [second];
    TransactionsPush(s.chain, first);
    TransactionsPush(s.chain + [first], second);
  }

  lemma PlainDrained(s: State, tx: Transaction)
    requires Initial(s) && Plain(tx)
    ensures Leads(Node(s, None), Submit(tx), Node(Queued(s, [tx]), None))
    ensures Leads(Node(Queued(s, [tx]), None), Begin, Node(Queued(s, []), Some([tx])))
  {
    PlainIsAdmitted(s, tx);
    assert [tx][..1] == [tx] && [tx][1..] == [];
  }

  lemma OvertakenSteps(s: State, tx: Transaction, theirs: Block, ours: Block)
    requires Initial(s) && Plain(tx) && theirs.transactions == [tx] && ours.transactions == [tx]
    requires Blocks.ChainsTo(theirs, s.chain[0]) && theirs.hash != s.chain[0].hash
    ensures var drained, overtaken := Queued(s, []), Queued(s, []).(chain := s.chain + [theirs]);
      && Leads(Node(drained, Some([tx])), Peer(theirs), Node(overtaken, Some([tx])))
      && Leads(Node(overtaken, Some([tx])), Finish(ours, s.chain[0].hash), Node(overtaken.(pool := [tx]), None))
  {
    var overtaken := Queued(s, []).(chain := s.chain + [theirs]);
    assert RestoreAll(overtaken, [tx]) == overtaken.(pool := [tx]) by {
      assert [tx][1..] == [] && [] + [tx] == [tx] && !HasId([], tx.id);
      assert RestoreAll(Restore(overtaken, tx), [tx][1..]) == Restore(overtaken, tx);
    }
  }

  /**
   * Reachable through a peer: a block that commits a transaction in flight makes the round stale, and
   * the restore, whose index has not read that block, queues the committed transaction again.
   */
  lemma OvertakenRoundRequeues(s: State, tx: Transaction, theirs: Block, ours: Block)
    returns (trace: seq<Node>, ops: seq<RoundOp>)
    requires Initial(s) && Plain(tx) && theirs.transactions == [tx] && ours.transactions == [tx]
    requires Blocks.ChainsTo(theirs, s.chain[0]) && theirs.hash != s.chain[0].hash
    ensures ops == [Submit(tx), Begin, Peer(theirs), Finish(ours, s.chain[0].hash)]
    ensures RoundRun(trace, ops) && trace[0] == Node(s, None)
    ensures Transactions(trace[4].ledger.chain) == [tx] && trace[4].ledger.pool == [tx]
    ensures !DistinctIds(Holdings(trace[3])) && !DistinctIds(Holdings(trace[4]))
  {
    ops := [Submit(tx), Begin, Peer(theirs), Finish(ours, s.chain[0].hash)];
    PlainDrained(s, tx);
    OvertakenSteps(s, tx, theirs, ours);
    var overtaken := Queued(s, []).(chain := s.chain + [theirs]);
    var n0, n1, n2, n3, n4 := Node(s, None), Node(Queued(s, [tx]), None), Node(Queued(s, []), Some([tx])),
      Node(overtaken, Some([tx])), Node(overtaken.(pool := [tx]), None);
    trace := [n0, n1, n2, n3, n4];
    FourSteps(n0, ops[0], n1, ops[1], n2, ops[2], n3, ops[3], n4);
    assert Transactions(s.chain) == [] by { assert Transactions(s.chain[1..]) == []; }
    TransactionsPush(s.chain, theirs);
    assert Holdings(trace[3])[0] == Holdings(trace[3])[1];
    assert Holdings(trace[4])[0] == Holdings(trace[4])[1];
  }
}
