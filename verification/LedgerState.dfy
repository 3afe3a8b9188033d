/** The ledger as a state and its operations as functions of it (ledger.rs). */
module LedgerState {
  import opened Types
  import Sequences
  import opened Blocks
  import opened Capability
  import opened Policy

  const MAX_PENDING_TRANSACTIONS: nat := 8000
  const MAX_BLOCK_TRANSACTIONS: nat := 4000

  /** The fields of `Ledger`; `history` and `ids` are the two rebuildable admission indexes. */
  datatype State = State(
    chain: seq<Block>, pool: seq<Transaction>, difficulty: nat,
    historyLen: nat, history: Option<seq<CapabilityActivation>>,
    idsLen: nat, ids: Option<set<string>>)

  function Ids(txs: seq<Transaction>): (r: set<string>) {
    set tx | tx in txs :: tx.id
  }

  predicate HasId(txs: seq<Transaction>, id: string) {
    exists i :: 0 <= i < |txs| && txs[i].id == id
  }

  // ---------------------------------------------------------------- indexes

  function ResetIndexes(s: State): (r: State) {
    s.(historyLen := 0, history := None, idsLen := 0, ids := None)
  }

  /** The state after folding the chain's tail, and whether every block folded. */
  datatype Folded = Folded(state: State, ok: bool)

  function FoldCapability(s: State): (r: Folded) {
    if s.historyLen == |s.chain| then Folded(s, true)
    else
      var f := FoldChain(if s.history.Some? then s.history.value else [], s.chain, s.historyLen);
      Folded(s.(history := Some(f.activations), historyLen := f.consumed), f.ok)
  }

  function FoldIds(s: State): (r: State) {
    if s.ids.None? then s.(ids := Some(Ids(Sequences.Transactions(s.chain))), idsLen := |s.chain|)
    else if s.idsLen >= |s.chain| then s
    else s.(ids := Some(s.ids.value + Ids(Sequences.Transactions(s.chain[s.idsLen..]))), idsLen := |s.chain|)
  }

  // ---------------------------------------------------------------- admission

  datatype Step = Step(state: State, outcome: Outcome)

  function NextHeight(chain: seq<Block>): (r: nat) {
    if chain == [] then 1 else chain[|chain| - 1].index + 1
  }

  /** The checks on the transaction's kind, under a folded history. */
  function Screen(history: Option<seq<CapabilityActivation>>, tx: Transaction, height: nat): (r: Outcome) {
    match tx.kind
    case Record(record) =>
      if history.None? then Err(EmptyLedger)
      else if ValidRecordUnder(EffectiveSet(history.value, height), record) then Ok
      else Err(InvalidTransaction)
    case Activation(a) =>
      if history.None? then Err(EmptyLedger)
      else if Admissible(history.value, a, height) then Ok
      else Err(InvalidTransaction)
    case Policy(update) =>
      if ValidUpdate(update) then Ok else Err(InvalidTransaction)
    case _ => Ok
  }

  /** Queue a screened transaction unless its id is known; refuse when the pool is full. */
  function Enqueue(s: State, tx: Transaction): (r: Step) {
    if (s.ids.Some? && tx.id in s.ids.value) || HasId(s.pool, tx.id) then Step(s, Ok)
    else if |s.pool| >= MAX_PENDING_TRANSACTIONS then Step(s, Err(InvalidTransaction))
    else Step(s.(pool := s.pool + [tx]), Ok)
  }

  function AddTransaction(s: State, tx: Transaction): (r: Step) {
    if tx.id == "" then Step(s, Err(InvalidTransaction))
    else
      var f := FoldCapability(s);
      if !f.ok then Step(f.state, Err(InvalidTransaction))
      else
        var screened := Screen(f.state.history, tx, NextHeight(s.chain));
        if screened.Err? then Step(f.state, screened) else Enqueue(FoldIds(f.state), tx)
  }

  // ---------------------------------------------------------------- mining

  function SliceLength(pool: seq<Transaction>): (r: nat)
    ensures r <= |pool| && r <= MAX_BLOCK_TRANSACTIONS
  {
    if |pool| < MAX_BLOCK_TRANSACTIONS then |pool| else MAX_BLOCK_TRANSACTIONS
  }

  /** The slice one mining round takes. */
  function Slice(pool: seq<Transaction>): (r: seq<Transaction>) {
    pool[..SliceLength(pool)]
  }

  function Drain(s: State): (r: State) {
    s.(pool := s.pool[SliceLength(s.pool)..])
  }

  /** `block` is the next block over `slice`, mined; its timestamp and nonce are the miner's. */
  predicate MinedOnTip(s: State, slice: seq<Transaction>, block: Block) {
    && s.chain != []
    && var tip := s.chain[|s.chain| - 1];
       && block == Block(tip.index + 1, block.timestamp, slice, [], tip.hash, block.nonce, block.hash, None)
       && IsValid(block)
       && HasLeadingZeros(block.hash, s.difficulty)
  }

  /** `mine_pending_transactions`, with the mined block supplied by the proof-of-work search. */
  function MinePending(s: State, block: Block): (r: State) {
    FoldIds(Drain(s).(chain := s.chain + [block]))
  }

  /** `restore_transaction`. */
  function Restore(s: State, tx: Transaction): (r: State) {
    if (s.ids.Some? && tx.id in s.ids.value) || HasId(s.pool, tx.id) then s else s.(pool := s.pool + [tx])
  }

  function RestoreAll(s: State, txs: seq<Transaction>): (r: State)
    decreases |txs|
  {
    if txs == [] then s else RestoreAll(Restore(s, txs[0]), txs[1..])
  }

  // ---------------------------------------------------------------- commit

  datatype Committed = Committed(state: State, result: Result<bool>)

  /** Append a validated block and keep the indexes current. */
  function Append(s: State, block: Block): (r: State) {
    s.(chain := s.chain + [block], historyLen := |s.chain| + 1,
       idsLen := if s.ids.Some? then |s.chain| + 1 else s.idsLen,
       ids := if s.ids.Some? then Some(s.ids.value + Ids(block.transactions)) else None)
  }

  /** The policy replay of the chain and then of the block succeeds. */
  predicate PoliciesAccept(chain: seq<Block>, block: Block) {
    BuildPolicies(chain).ok && FoldPolicies(BuildPolicies(chain).updates, block).ok
  }

  /** `commit_mined_block`. */
  function Commit(s: State, block: Block, expectedPrevHash: string): (r: Committed) {
    if s.chain == [] then Committed(s, Failure(EmptyLedger))
    else if s.chain[|s.chain| - 1].hash != expectedPrevHash then
      Committed(RestoreAll(s, block.transactions), Success(false))
    else
      var f := FoldCapability(s);
      if !f.ok then Committed(f.state, Failure(InvalidTransaction))
      else if f.state.history.None? then Committed(f.state, Failure(EmptyLedger))
      else
        var step := FoldBlock(f.state.history.value, block);
        var touched := f.state.(history := Some(step.activations));
        if !step.ok || !PoliciesAccept(s.chain, block) then Committed(touched, Failure(InvalidTransaction))
        else Committed(Append(touched, block), Success(true))
  }

  // ---------------------------------------------------------------- whole chains

  /** `validate_chain` returns Ok. */
  predicate ValidChain(chain: seq<Block>, difficulty: nat) {
    Linked(chain, difficulty) && Build(chain).ok && GenesisValid(chain, difficulty)
  }

  /** What `try_replace_chain` demands of a candidate; the genesis block is not replayed. */
  predicate Adoptable(chain: seq<Block>, candidate: seq<Block>, difficulty: nat) {
    && |candidate| > |chain|
    && (chain != [] ==> chain[0].hash == candidate[0].hash)
    && Linked(candidate, difficulty)
    && FoldChain([], candidate, 1).ok
    && GenesisValid(candidate, difficulty)
  }

  function Replace(s: State, candidate: seq<Block>): (r: State) {
    if Adoptable(s.chain, candidate, s.difficulty) then ResetIndexes(s.(chain := candidate)) else s
  }

  // ---------------------------------------------------------------- blocks from peers

  /** What `append_peer_block` re-checks under the lock: the tip has not moved. */
  predicate ExtendsTip(chain: seq<Block>, block: Block) {
    if chain == [] then block.index == 0 && block.previousHash == "0" else ChainsTo(block, chain[|chain| - 1])
  }

  /** The pool without the transactions whose ids are in `gone`. */
  function Purge(pool: seq<Transaction>, gone: set<string>): (r: seq<Transaction>) {
    if pool == [] then []
    else if pool[0].id in gone then Purge(pool[1..], gone)
    else [pool[0]] + Purge(pool[1..], gone)
  }

  /** `append_peer_block`: it prunes the pool, pushes the block and touches neither index. */
  function AppendPeer(s: State, block: Block): (r: State) {
    if ExtendsTip(s.chain, block)
    then s.(chain := s.chain + [block], pool := Purge(s.pool, Ids(block.transactions)))
    else s
  }

  // ---------------------------------------------------------------- runs

  /** The genesis block of `Ledger::new`, mined. */
  predicate IsGenesis(g: Block, difficulty: nat) {
    && g == Block(0, g.timestamp, [], [], "0", g.nonce, g.hash, None)
    && IsValid(g)
    && HasLeadingZeros(g.hash, difficulty)
  }

  predicate Initial(s: State) {
    && |s.chain| == 1
    && IsGenesis(s.chain[0], s.difficulty)
    && s == State(s.chain, [], s.difficulty, 0, None, 0, None)
  }

  datatype Op =
    | Add(tx: Transaction)
    | Mine(block: Block)
    | Prepare
    | RestoreOne(tx: Transaction)
    | CommitBlock(block: Block, expectedPrevHash: string)
    | ReplaceChain(candidate: seq<Block>)
    | PeerBlock(block: Block)

  /** Mining may produce only what proof of work over the drained slice produces. */
  predicate Enabled(s: State, op: Op) {
    op.Mine? ==> MinedOnTip(s, Slice(s.pool), op.block)
  }

  function Apply(s: State, op: Op): (r: State) {
    match op
    case Add(tx) => AddTransaction(s, tx).state
    case Mine(block) => MinePending(s, block)
    case Prepare => Drain(s)
    case RestoreOne(tx) => Restore(s, tx)
    case CommitBlock(block, expected) => Commit(s, block, expected).state
    case ReplaceChain(candidate) => Replace(s, candidate)
    case PeerBlock(block) => AppendPeer(s, block)
  }

  function Run(s: State, ops: seq<Op>): (r: State) {
    if ops == [] then s else Apply(Run(s, ops[..|ops| - 1]), ops[|ops| - 1])
  }

  /** Every operation of the run is enabled where it happens. */
  predicate ValidRun(s: State, ops: seq<Op>) {
    ops != [] ==> ValidRun(s, ops[..|ops| - 1]) && Enabled(Run(s, ops[..|ops| - 1]), ops[|ops| - 1])
  }
}
