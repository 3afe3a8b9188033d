/** The smart-contract engine (engine.rs, contract.rs). */
module Engine {
  import opened Types
  import Sequences
  import opened Order

  const U64_LIMIT: nat := 0x1_0000_0000_0000_0000
  const U32_LIMIT: nat := 0x1_0000_0000

  datatype ContractStatus = Active | Paused | Fulfilled | Cancelled

  datatype Contract = Contract(def: SmartContractDef, status: ContractStatus, quantityPurchased: nat, executionCount: nat)

  type Contracts = map<string, Contract>

  /** `Result<(), ContractError>`. */
  datatype LifecycleResult = Done | AlreadyExists | NotFound | Inactive

  /** The WASM approval gate's decision on (execution id, code, offer). */
  const WasmApproves: (string, string, SupplyOffer) -> bool

  function New(def: SmartContractDef): (r: Contract) {
    Contract(def, Active, 0, 0)
  }

  // ---------------------------------------------------------------- one contract, one offer

  /** An active gate must approve; without code or without an executor there is none. */
  predicate GateOpen(hasExecutor: bool, c: Contract, offer: SupplyOffer, offerTxId: string) {
    hasExecutor && c.def.wasmCode.Some? ==>
      WasmApproves("wasm:" + c.def.contractId + ":" + offerTxId, c.def.wasmCode.value, offer)
  }

  predicate OfferMatches(c: Contract, offer: SupplyOffer) {
    var conditions := c.def.conditions;
    && c.def.productId == offer.productId
    && conditions.currency == offer.currency
    && offer.pricePerUnit <= conditions.maxPricePerUnit
    && offer.leadTimeDays <= conditions.maxLeadTimeDays
    && offer.quantityAvailable >= conditions.minQuantity
    && (conditions.preferredSellerId.Some? ==> conditions.preferredSellerId.value == offer.sellerId)
  }

  function Min(a: nat, b: nat): (r: nat) {
    if a < b then a else b
  }

  /** The budget left, with the source's saturating subtraction. */
  function Remaining(c: Contract): (r: nat) {
    if c.quantityPurchased <= c.def.conditions.maxQuantity then c.def.conditions.maxQuantity - c.quantityPurchased else 0
  }

  datatype PurchasePlan = PurchasePlan(order: Transaction, execution: Transaction, quantity: nat)

  function PreparePurchase(c: Contract, offer: SupplyOffer, offerTxId: string, now: nat): (r: Option<PurchasePlan>) {
    if Remaining(c) == 0 then None
    else
      var quantity := Min(Min(Remaining(c), offer.quantityAvailable), c.def.conditions.maxQuantity);
      var totalPrice := Min(quantity * offer.pricePerUnit, U64_LIMIT - 1);
      var id := c.def.contractId;
      var order := Transaction("po:" + id + "-" + offerTxId, now,
        Order(PurchaseOrder(offer.productId, c.def.buyerId, offer.sellerId, quantity, offer.pricePerUnit, offer.currency, Some(id))), []);
      var execution := Transaction("exec:" + id + "-" + offerTxId, now,
        Execution(ContractExecution(id, order.id, c.def.buyerId, offer.sellerId, offer.productId, quantity, totalPrice, offer.currency)), []);
      Some(PurchasePlan(order, execution, quantity))
  }

  /** The runtime fields after one execution of `quantity`; u64 and u32 additions wrap. */
  function Executed(c: Contract, quantity: nat): (r: Contract) {
    var purchased := (c.quantityPurchased + quantity) % U64_LIMIT;
    c.(quantityPurchased := purchased, executionCount := (c.executionCount + 1) % U32_LIMIT,
       status := if purchased >= c.def.conditions.maxQuantity then Fulfilled else c.status)
  }

  datatype Evaluated = Evaluated(contract: Contract, emitted: seq<Transaction>)

  function EvaluateOne(hasExecutor: bool, c: Contract, offer: SupplyOffer, offerTxId: string, now: nat): (r: Evaluated) {
    if !c.status.Active? || !GateOpen(hasExecutor, c, offer, offerTxId) || !OfferMatches(c, offer)
       || !c.def.conditions.autoExecute
    then Evaluated(c, [])
    else
      var plan := PreparePurchase(c, offer, offerTxId, now);
      if plan.None? then Evaluated(c.(status := Fulfilled), [])
      else Evaluated(Executed(c, plan.value.quantity), [plan.value.order, plan.value.execution])
  }

  // ---------------------------------------------------------------- the engine's operations

  datatype Evaluation = Evaluation(contracts: Contracts, generated: seq<Transaction>)

  /** One offer against the contracts named by `ids`, in that order. */
  function EvaluateAll(
    hasExecutor: bool, contracts: Contracts, ids: seq<string>, offer: SupplyOffer, offerTxId: string, now: nat
  ): (r: Evaluation)
    requires forall i :: 0 <= i < |ids| ==> ids[i] in contracts
    ensures r.contracts.Keys == contracts.Keys
  {
    if ids == [] then Evaluation(contracts, [])
    else
      var n := |ids| - 1;
      var e := EvaluateAll(hasExecutor, contracts, ids[..n], offer, offerTxId, now);
      var one := EvaluateOne(hasExecutor, e.contracts[ids[n]], offer, offerTxId, now);
      Evaluation(e.contracts[ids[n] := one.contract], e.generated + one.emitted)
  }

  lemma EvaluateAllPush(
    hasExecutor: bool, contracts: Contracts, ids: seq<string>, i: nat, offer: SupplyOffer, offerTxId: string, now: nat)
    requires i < |ids| && forall k :: 0 <= k < |ids| ==> ids[k] in contracts
    ensures var e := EvaluateAll(hasExecutor, contracts, ids[..i], offer, offerTxId, now);
      var one := EvaluateOne(hasExecutor, e.contracts[ids[i]], offer, offerTxId, now);
      EvaluateAll(hasExecutor, contracts, ids[..i + 1], offer, offerTxId, now)
      == Evaluation(e.contracts[ids[i] := one.contract], e.generated + one.emitted)
  {
    assert ids[..i + 1][..i] == ids[..i] && ids[..i + 1][i] == ids[i];
  }

  function Load(contracts: Contracts, def: SmartContractDef): (r: Contracts) {
    if def.contractId in contracts then contracts else contracts[def.contractId := New(def)]
  }

  datatype EngineOp =
    | Register(def: SmartContractDef)
    | LoadDef(def: SmartContractDef)
    | Evaluate(offer: SupplyOffer, offerTxId: string, now: nat)
    | Pause(id: string)
    | Resume(id: string)
    | Cancel(id: string)

  /** The contracts after `op` and the transactions it emits; refused operations change nothing. */
  function EngineStep(hasExecutor: bool, contracts: Contracts, op: EngineOp): (r: Evaluation) {
    match op
    case Register(def) => Evaluation(Load(contracts, def), [])
    case LoadDef(def) => Evaluation(Load(contracts, def), [])
    case Evaluate(offer, offerTxId, now) =>
      EvaluateAll(hasExecutor, contracts, SortedIds(contracts.Keys), offer, offerTxId, now)
    case Pause(id) =>
      if id in contracts && contracts[id].status.Active?
      then Evaluation(contracts[id := contracts[id].(status := Paused)], []) else Evaluation(contracts, [])
    case Resume(id) =>
      if id in contracts && contracts[id].status.Paused?
      then Evaluation(contracts[id := contracts[id].(status := Active)], []) else Evaluation(contracts, [])
    case Cancel(id) =>
      if id in contracts then Evaluation(contracts[id := contracts[id].(status := Cancelled)], [])
      else Evaluation(contracts, [])
  }

  /** The live engine after a run from empty, and everything it emitted. */
  function Live(hasExecutor: bool, ops: seq<EngineOp>): (r: Evaluation) {
    if ops == [] then Evaluation(map[], [])
    else
      var before := Live(hasExecutor, ops[..|ops| - 1]);
      var step := EngineStep(hasExecutor, before.contracts, ops[|ops| - 1]);
      Evaluation(step.contracts, before.generated + step.generated)
  }

  // ---------------------------------------------------------------- rebuilding

  function LoadAll(contracts: Contracts, txs: seq<Transaction>): (r: Contracts) {
    if txs == [] then contracts
    else
      var before := LoadAll(contracts, txs[..|txs| - 1]);
      var kind := txs[|txs| - 1].kind;
      if kind.Creation? then Load(before, kind.def) else before
  }

  function ReplayAll(contracts: Contracts, txs: seq<Transaction>): (r: Contracts) {
    if txs == [] then contracts
    else
      var before := ReplayAll(contracts, txs[..|txs| - 1]);
      var kind := txs[|txs| - 1].kind;
      if kind.Execution? && kind.execution.contractId in before
      then before[kind.execution.contractId := Executed(before[kind.execution.contractId], kind.execution.quantity)]
      else before
  }

  /** `rebuild_from_chain` on the chain's transactions in order. */
  function Rebuild(txs: seq<Transaction>): (r: Contracts) {
    ReplayAll(LoadAll(map[], txs), txs)
  }

  lemma PrefixPush(earlier: seq<Transaction>, txs: seq<Transaction>, i: nat)
    requires i < |txs|
    ensures var all := earlier + txs[..i + 1];
      all != [] && all[|all| - 1] == txs[i] && all[..|all| - 1] == earlier + txs[..i]
  {
  }

  // ---------------------------------------------------------------- the engine object

  class ContractEngine {
    var contracts: Contracts
    const hasExecutor: bool

    constructor (hasExecutor: bool)
      ensures contracts == map[] && this.hasExecutor == hasExecutor
    {
      contracts := map[];
      this.hasExecutor := hasExecutor;
    }

    method RegisterContract(def: SmartContractDef) returns (r: LifecycleResult)
      modifies this
      ensures r == if def.contractId in old(contracts) then AlreadyExists else Done
      ensures contracts == EngineStep(hasExecutor, old(contracts), Register(def)).contracts
      ensures contracts == if r.Done? then old(contracts)[def.contractId := Contract(def, Active, 0, 0)] else old(contracts)
    {
      if def.contractId in contracts {
        return AlreadyExists;
      }
      contracts := contracts[def.contractId := New(def)];
      return Done;
    }

    method LoadFromLedger(def: SmartContractDef)
      modifies this
      ensures contracts == EngineStep(hasExecutor, old(contracts), LoadDef(def)).contracts
      ensures contracts
           == if def.contractId in old(contracts) then old(contracts) else old(contracts)[def.contractId := Contract(def, Active, 0, 0)]
    {
      if def.contractId !in contracts {
        contracts := contracts[def.contractId := New(def)];
      }
    }

    method CancelContract(id: string) returns (r: LifecycleResult)
      modifies this
      ensures r == if id in old(contracts) then Done else NotFound
      ensures contracts == EngineStep(hasExecutor, old(contracts), Cancel(id)).contracts
      ensures contracts == if r.Done? then old(contracts)[id := old(contracts)[id].(status := Cancelled)] else old(contracts)
    {
      if id !in contracts {
        return NotFound;
      }
      contracts := contracts[id := contracts[id].(status := Cancelled)];
      return Done;
    }

    method PauseContract(id: string) returns (r: LifecycleResult)
      modifies this
      ensures r == if id !in old(contracts) then NotFound else if old(contracts)[id].status.Active? then Done else Inactive
      ensures contracts == EngineStep(hasExecutor, old(contracts), Pause(id)).contracts
      ensures contracts == if r.Done? then old(contracts)[id := old(contracts)[id].(status := Paused)] else old(contracts)
    {
      if id !in contracts {
        return NotFound;
      }
      if !contracts[id].status.Active? {
        return Inactive;
      }
      contracts := contracts[id := contracts[id].(status := Paused)];
      return Done;
    }

    method ResumeContract(id: string) returns (r: LifecycleResult)
      modifies this
      ensures r == if id in old(contracts) then Done else NotFound
      ensures contracts == EngineStep(hasExecutor, old(contracts), Resume(id)).contracts
      ensures contracts
           == if r.Done? && old(contracts)[id].status == Paused then old(contracts)[id := old(contracts)[id].(status := Active)] else old(contracts)
    {
      if id !in contracts {
        return NotFound;
      }
      if contracts[id].status.Paused? {
        contracts := contracts[id := contracts[id].(status := Active)];
      }
      return Done;
    }

    method EvaluateSupplyOffer(offer: SupplyOffer, offerTxId: string, now: nat) returns (generated: seq<Transaction>)
      modifies this
      ensures var step := EngineStep(hasExecutor, old(contracts), Evaluate(offer, offerTxId, now));
        contracts == step.contracts && generated == step.generated
    {
      generated := [];
      var ids := SortedIds(contracts.Keys);
      forall i | 0 <= i < |ids| ensures ids[i] in old(contracts) { assert ids[i] in ids; }
      for i := 0 to |ids|
        invariant contracts.Keys == old(contracts).Keys
        invariant EvaluateAll(hasExecutor, old(contracts), ids[..i], offer, offerTxId, now) == Evaluation(contracts, generated)
      {
        assert ids[i] in ids;
        EvaluateAllPush(hasExecutor, old(contracts), ids, i, offer, offerTxId, now);
        var emitted := EvaluateContract(ids[i], offer, offerTxId, now);
        generated := generated + emitted;
      }
      assert ids[..|ids|] == ids;
    }

    /** The loop body: gate, conditions, purchase. */
    method EvaluateContract(id: string, offer: SupplyOffer, offerTxId: string, now: nat) returns (emitted: seq<Transaction>)
      requires id in contracts
      modifies this
      ensures var one := EvaluateOne(hasExecutor, old(contracts)[id], offer, offerTxId, now);
        contracts == old(contracts)[id := one.contract] && emitted == one.emitted
    {
      emitted := [];
      var c := contracts[id];
      if !c.status.Active? {
        return;
      }
      if !GateOpen(hasExecutor, c, offer, offerTxId) {
        return;
      }
      if !OfferMatches(c, offer) {
        return;
      }
      if !c.def.conditions.autoExecute {
        return;
      }
      var plan := PreparePurchase(c, offer, offerTxId, now);
      if plan.None? {
        contracts := contracts[id := c.(status := Fulfilled)];
        return;
      }
      contracts := contracts[id := Executed(c, plan.value.quantity)];
      emitted := [plan.value.order, plan.value.execution];
    }

    /** Two passes over the chain: creations, then executions. */
    static method RebuildFromChain(chain: seq<Block>) returns (engine: ContractEngine)
      ensures fresh(engine) && engine.contracts == Rebuild(Sequences.Transactions(chain))
    {
      engine := new ContractEngine(false);
      for i := 0 to |chain|
        invariant fresh(engine)
        invariant engine.contracts == LoadAll(map[], Sequences.Transactions(chain[..i]))
      {
        engine.LoadBlock(chain[i].transactions, Sequences.Transactions(chain[..i]));
        Sequences.TransactionsPush(chain[..i], chain[i]);
        assert chain[..i + 1] == chain[..i] + [chain[i]];
      }
      assert chain[..|chain|] == chain;
      ghost var loaded := engine.contracts;
      for i := 0 to |chain|
        invariant fresh(engine)
        invariant engine.contracts == ReplayAll(loaded, Sequences.Transactions(chain[..i]))
      {
        engine.ReplayBlock(chain[i].transactions, loaded, Sequences.Transactions(chain[..i]));
        Sequences.TransactionsPush(chain[..i], chain[i]);
        assert chain[..i + 1] == chain[..i] + [chain[i]];
      }
    }

    method LoadBlock(txs: seq<Transaction>, ghost earlier: seq<Transaction>)
      requires contracts == LoadAll(map[], earlier)
      modifies this
      ensures contracts == LoadAll(map[], earlier + txs)
    {
      assert earlier + [] == earlier;
      for i := 0 to |txs|
        invariant contracts == LoadAll(map[], earlier + txs[..i])
      {
        PrefixPush(earlier, txs, i);
        if txs[i].kind.Creation? {
          LoadFromLedger(txs[i].kind.def);
        }
      }
      assert txs[..|txs|] == txs;
    }

    method ReplayBlock(txs: seq<Transaction>, ghost loaded: Contracts, ghost earlier: seq<Transaction>)
      requires contracts == ReplayAll(loaded, earlier)
      modifies this
      ensures contracts == ReplayAll(loaded, earlier + txs)
    {
      assert earlier + [] == earlier;
      for i := 0 to |txs|
        invariant contracts == ReplayAll(loaded, earlier + txs[..i])
      {
        PrefixPush(earlier, txs, i);
        if txs[i].kind.Execution? {
          var execution := txs[i].kind.execution;
          if execution.contractId in contracts {
            contracts := contracts[execution.contractId := Executed(contracts[execution.contractId], execution.quantity)];
          }
        }
      }
      assert txs[..|txs|] == txs;
    }
  }
}
