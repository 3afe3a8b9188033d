/** Accounting over every run of the engine, and recovery of the live engine from the chain. */
module EngineRuns {
  import opened Types
  import opened Sequences
  import opened Order
  import opened Engine

  // ---------------------------------------------------------------- reading transaction lists

  function ExecutionOf(tx: Transaction): (r: Option<ContractExecution>) {
    if tx.kind.Execution? then Some(tx.kind.execution) else None
  }

  function OrderOf(tx: Transaction): (r: Option<PurchaseOrder>) {
    if tx.kind.Order? then Some(tx.kind.order) else None
  }

  function ExecutedBy(id: string): (r: ContractExecution -> Option<nat>) {
    (e: ContractExecution) => if e.contractId == id then Some(e.quantity) else None
  }

  function OrderedBy(id: string): (r: PurchaseOrder -> Option<nat>) {
    (o: PurchaseOrder) => if o.contractId == Some(id) then Some(o.quantity) else None
  }

  function Executions(txs: seq<Transaction>): (r: seq<ContractExecution>) {
    FilterMap(ExecutionOf, txs)
  }

  /** The quantities executed for one contract, in order. */
  function ExecutedQuantities(txs: seq<Transaction>, id: string): (r: seq<nat>) {
    FilterMap(ExecutedBy(id), Executions(txs))
  }

  /** The quantities ordered for one contract, in order. */
  function OrderedQuantities(txs: seq<Transaction>, id: string): (r: seq<nat>) {
    FilterMap(OrderedBy(id), FilterMap(OrderOf, txs))
  }

  lemma QuantitiesOfOne(tx: Transaction, id: string)
    ensures ExecutedQuantities([tx], id)
         == if tx.kind.Execution? && tx.kind.execution.contractId == id then [tx.kind.execution.quantity] else []
    ensures OrderedQuantities([tx], id)
         == if tx.kind.Order? && tx.kind.order.contractId == Some(id) then [tx.kind.order.quantity] else []
  {
    FilterMapOne(ExecutionOf, tx);
    FilterMapOne(OrderOf, tx);
    if tx.kind.Execution? { FilterMapOne(ExecutedBy(id), tx.kind.execution); }
    if tx.kind.Order? { FilterMapOne(OrderedBy(id), tx.kind.order); }
  }

  lemma QuantitiesConcat(xs: seq<Transaction>, ys: seq<Transaction>, id: string)
    ensures ExecutedQuantities(xs + ys, id) == ExecutedQuantities(xs, id) + ExecutedQuantities(ys, id)
    ensures OrderedQuantities(xs + ys, id) == OrderedQuantities(xs, id) + OrderedQuantities(ys, id)
  {
    FilterMapConcat(ExecutionOf, xs, ys);
    FilterMapConcat(ExecutedBy(id), Executions(xs), Executions(ys));
    FilterMapConcat(OrderOf, xs, ys);
    FilterMapConcat(OrderedBy(id), FilterMap(OrderOf, xs), FilterMap(OrderOf, ys));
  }

  // ---------------------------------------------------------------- one contract

  predicate WithinCap(c: Contract) {
    c.quantityPurchased <= c.def.conditions.maxQuantity < U64_LIMIT
  }

  /** What the books say about one contract: what it emitted, its cap and its status agree. */
  predicate Books(c: Contract, orders: seq<nat>, executions: seq<nat>) {
    var cap := c.def.conditions.maxQuantity;
    && cap < U64_LIMIT
    && orders == executions
    && c.quantityPurchased == Sum(executions) <= cap
    && c.executionCount == |executions| % U32_LIMIT
    && (cap == 0 ==> executions == [])
    && (c.status.Active? || c.status.Paused? ==> Sum(executions) < cap || cap == 0)
    && (c.status.Fulfilled? ==> Sum(executions) == cap)
  }

  /** What an emission by contract `id` looks like: nothing, or an order and its execution. */
  predicate Emission(emitted: seq<Transaction>, id: string, quantity: nat) {
    || emitted == []
    || (&& |emitted| == 2 && emitted[0].kind.Order? && emitted[1].kind.Execution?
        && emitted[0].kind.order.contractId == Some(id) && emitted[0].kind.order.quantity == quantity
        && emitted[1].kind.execution.contractId == id && emitted[1].kind.execution.quantity == quantity
        && emitted[1].kind.execution.purchaseOrderTxId == emitted[0].id)
  }

  lemma EmissionQuantities(emitted: seq<Transaction>, id: string, quantity: nat, other: string)
    requires Emission(emitted, id, quantity)
    ensures var expected := if emitted != [] && other == id then [quantity] else [];
      ExecutedQuantities(emitted, other) == expected && OrderedQuantities(emitted, other) == expected
  {
    if emitted != [] {
      var order, execution := emitted[0], emitted[1];
      assert emitted == [order] + [execution];
      QuantitiesConcat([order], [execution], other);
      QuantitiesOfOne(order, other);
      QuantitiesOfOne(execution, other);
    }
  }

  /** The wrapping additions, where they do not wrap and where they do. */
  lemma Wrapping(n: nat, m: nat)
    ensures n < U64_LIMIT ==> n % U64_LIMIT == n
    ensures (m % U32_LIMIT + 1) % U32_LIMIT == (m + 1) % U32_LIMIT
  {
  }

  /** Within the cap an execution adds up: the u64 sum does not wrap. */
  lemma ExecutedWithin(c: Contract, quantity: nat)
    requires WithinCap(c) && quantity <= Remaining(c)
    ensures var sum := c.quantityPurchased + quantity;
      && sum <= c.def.conditions.maxQuantity
      && Executed(c, quantity) == c.(quantityPurchased := sum, executionCount := (c.executionCount + 1) % U32_LIMIT,
                                     status := if sum >= c.def.conditions.maxQuantity then Fulfilled else c.status)
  {
    Wrapping(c.quantityPurchased + quantity, 0);
  }

  lemma BooksExecute(c: Contract, orders: seq<nat>, executions: seq<nat>, quantity: nat)
    requires Books(c, orders, executions) && c.status.Active?
    requires quantity <= Remaining(c) && Remaining(c) > 0
    ensures Books(Executed(c, quantity), orders + [quantity], executions + [quantity])
  {
    SumConcat(executions, [quantity]);
    assert Sum([quantity]) == quantity + Sum([quantity][1..]);
    ExecutedWithin(c, quantity);
    Wrapping(0, |executions|);
    assert |executions + [quantity]| == |executions| + 1;
  }

  /** One evaluation keeps the books. */
  lemma EvaluateOneKeepsBooks(
    hasExecutor: bool, c: Contract, offer: SupplyOffer, offerTxId: string, now: nat, orders: seq<nat>, executions: seq<nat>)
    requires Books(c, orders, executions)
    ensures var e := EvaluateOne(hasExecutor, c, offer, offerTxId, now);
      && e.contract.def == c.def
      && (exists quantity: nat :: Emission(e.emitted, c.def.contractId, quantity))
      && Books(e.contract, orders + OrderedQuantities(e.emitted, c.def.contractId),
                           executions + ExecutedQuantities(e.emitted, c.def.contractId))
  {
    var e := EvaluateOne(hasExecutor, c, offer, offerTxId, now);
    var id := c.def.contractId;
    assert orders + [] == orders && executions + [] == executions;
    var plan := PreparePurchase(c, offer, offerTxId, now);
    if e.emitted == [] {
      EmissionQuantities([], id, 0, id);
      assert Emission(e.emitted, id, 0);
    } else {
      var quantity := plan.value.quantity;
      assert Emission(e.emitted, id, quantity);
      EmissionQuantities(e.emitted, id, quantity, id);
      BooksExecute(c, orders, executions, quantity);
    }
  }

  // ---------------------------------------------------------------- every contract, every run

  /** The contract's books are right, or nothing was emitted for an unknown contract. */
  predicate BookedAt(contracts: Contracts, log: seq<Transaction>, id: string) {
    if id in contracts
    then contracts[id].def.contractId == id && Books(contracts[id], OrderedQuantities(log, id), ExecutedQuantities(log, id))
    else OrderedQuantities(log, id) == [] && ExecutedQuantities(log, id) == []
  }

  ghost predicate Accounted(contracts: Contracts, log: seq<Transaction>) {
    forall id :: BookedAt(contracts, log, id)
  }

  /** An emission by `id` leaves every other contract's quantities alone. */
  lemma EmissionIsPrivate(log: seq<Transaction>, emitted: seq<Transaction>, id: string, quantity: nat, other: string)
    requires Emission(emitted, id, quantity) && other != id
    ensures OrderedQuantities(log + emitted, other) == OrderedQuantities(log, other)
    ensures ExecutedQuantities(log + emitted, other) == ExecutedQuantities(log, other)
  {
    QuantitiesConcat(log, emitted, other);
    EmissionQuantities(emitted, id, quantity, other);
    assert OrderedQuantities(log, other) + [] == OrderedQuantities(log, other);
    assert ExecutedQuantities(log, other) + [] == ExecutedQuantities(log, other);
  }

  lemma OneStepAccounted(
    hasExecutor: bool, contracts: Contracts, log: seq<Transaction>, id: string, offer: SupplyOffer, offerTxId: string, now: nat)
    requires Accounted(contracts, log) && id in contracts
    ensures var one := EvaluateOne(hasExecutor, contracts[id], offer, offerTxId, now);
      Accounted(contracts[id := one.contract], log + one.emitted)
  {
    var one := EvaluateOne(hasExecutor, contracts[id], offer, offerTxId, now);
    assert BookedAt(contracts, log, id);
    EvaluateOneKeepsBooks(hasExecutor, contracts[id], offer, offerTxId, now, OrderedQuantities(log, id), ExecutedQuantities(log, id));
    QuantitiesConcat(log, one.emitted, id);
    var quantity: nat :| Emission(one.emitted, id, quantity);
    BooksReplaced(contracts, log, id, one.contract, one.emitted, quantity);
  }

  lemma BooksReplaced(
    contracts: Contracts, log: seq<Transaction>, id: string, c: Contract, emitted: seq<Transaction>, quantity: nat)
    requires Accounted(contracts, log) && id in contracts && c.def.contractId == id && Emission(emitted, id, quantity)
    requires Books(c, OrderedQuantities(log + emitted, id), ExecutedQuantities(log + emitted, id))
    ensures Accounted(contracts[id := c], log + emitted)
  {
    var after, longer := contracts[id := c], log + emitted;
    forall other ensures BookedAt(after, longer, other) {
      assert BookedAt(contracts, log, other);
      if other != id { EmissionIsPrivate(log, emitted, id, quantity, other); }
    }
  }

  lemma {:induction false} EvaluateAllAccounted(
    hasExecutor: bool, contracts: Contracts, log: seq<Transaction>, ids: seq<string>,
    offer: SupplyOffer, offerTxId: string, now: nat)
    requires Accounted(contracts, log) && forall i :: 0 <= i < |ids| ==> ids[i] in contracts
    ensures var e := EvaluateAll(hasExecutor, contracts, ids, offer, offerTxId, now);
      Accounted(e.contracts, log + e.generated)
  {
    if ids == [] {
      assert log + [] == log;
    } else {
      var n := |ids| - 1;
      EvaluateAllAccounted(hasExecutor, contracts, log, ids[..n], offer, offerTxId, now);
      var e := EvaluateAll(hasExecutor, contracts, ids[..n], offer, offerTxId, now);
      OneStepAccounted(hasExecutor, e.contracts, log + e.generated, ids[n], offer, offerTxId, now);
      ConcatAssociates(log, e.generated, EvaluateOne(hasExecutor, e.contracts[ids[n]], offer, offerTxId, now).emitted);
    }
  }

  /** Definitions carry u64 quantities. */
  predicate WordSized(op: EngineOp) {
    op.Register? || op.LoadDef? ==> op.def.conditions.maxQuantity < U64_LIMIT
  }

  lemma LoadAccounted(contracts: Contracts, log: seq<Transaction>, def: SmartContractDef)
    requires Accounted(contracts, log) && def.conditions.maxQuantity < U64_LIMIT
    ensures Accounted(Load(contracts, def), log)
  {
    var after := Load(contracts, def);
    forall id ensures BookedAt(after, log, id) { assert BookedAt(contracts, log, id); }
  }

  /** A change of status that a pause, a resumption or a cancellation makes. */
  lemma StatusAccounted(contracts: Contracts, log: seq<Transaction>, id: string, status: ContractStatus)
    requires Accounted(contracts, log) && id in contracts
    requires status.Cancelled? || ((status.Active? || status.Paused?) && (contracts[id].status.Active? || contracts[id].status.Paused?))
    ensures Accounted(contracts[id := contracts[id].(status := status)], log)
  {
    var after := contracts[id := contracts[id].(status := status)];
    forall other ensures BookedAt(after, log, other) {
      assert BookedAt(contracts, log, other);
    }
  }

  lemma StepAccounted(hasExecutor: bool, contracts: Contracts, log: seq<Transaction>, op: EngineOp)
    requires Accounted(contracts, log) && WordSized(op)
    ensures var e := EngineStep(hasExecutor, contracts, op); Accounted(e.contracts, log + e.generated)
  {
    assert log + [] == log;
    match op
    case Register(def) => LoadAccounted(contracts, log, def);
    case LoadDef(def) => LoadAccounted(contracts, log, def);
    case Evaluate(offer, offerTxId, now) =>
      var ids := SortedIds(contracts.Keys);
      forall i | 0 <= i < |ids| ensures ids[i] in contracts { assert ids[i] in ids; }
      EvaluateAllAccounted(hasExecutor, contracts, log, ids, offer, offerTxId, now);
    case Pause(id) =>
      if id in contracts && contracts[id].status.Active? { StatusAccounted(contracts, log, id, Paused); }
    case Resume(id) =>
      if id in contracts && contracts[id].status.Paused? { StatusAccounted(contracts, log, id, Active); }
    case Cancel(id) =>
      if id in contracts { StatusAccounted(contracts, log, id, Cancelled); }
  }

  /**
   * Purchase cap and accounting, over every run: what a contract has purchased is the sum of its orders
   * and of its executions, never exceeds its cap (so the u64 addition never wraps), and its status says so.
   */
  lemma {:induction false} EngineIsAccounted(hasExecutor: bool, ops: seq<EngineOp>)
    requires forall i :: 0 <= i < |ops| ==> WordSized(ops[i])
    ensures Accounted(Live(hasExecutor, ops).contracts, Live(hasExecutor, ops).generated)
  {
    if ops == [] {
      forall id ensures BookedAt(map[], [], id) { }
    } else {
      var n := |ops| - 1;
      EngineIsAccounted(hasExecutor, ops[..n]);
      var before := Live(hasExecutor, ops[..n]);
      StepAccounted(hasExecutor, before.contracts, before.generated, ops[n]);
    }
  }

  /** The order stays inside what the buyer's contract allows. */
  predicate Honours(order: PurchaseOrder, def: SmartContractDef) {
    var conditions := def.conditions;
    && order.contractId == Some(def.contractId)
    && order.buyerId == def.buyerId && order.productId == def.productId && order.currency == conditions.currency
    && order.agreedPricePerUnit <= conditions.maxPricePerUnit
    && order.quantity <= conditions.maxQuantity
    && (conditions.preferredSellerId.Some? ==> order.sellerId == conditions.preferredSellerId.value)
    && conditions.autoExecute
  }

  /** Every order in the log belongs to a registered contract and honours it. */
  predicate AllHonoured(contracts: Contracts, log: seq<Transaction>) {
    forall i :: 0 <= i < |log| && log[i].kind.Order? ==>
      exists id :: id in contracts && Honours(log[i].kind.order, contracts[id].def)
  }

  /** Same contracts, same definitions, possibly more of them. */
  predicate Keeps(before: Contracts, after: Contracts) {
    forall id :: id in before ==> id in after && after[id].def == before[id].def
  }

  lemma HonouredPush(before: Contracts, after: Contracts, log: seq<Transaction>, emitted: seq<Transaction>)
    requires AllHonoured(before, log) && Keeps(before, after) && AllHonoured(after, emitted)
    ensures AllHonoured(after, log + emitted)
  {
    var both := log + emitted;
    forall i | 0 <= i < |both| && both[i].kind.Order?
      ensures exists id :: id in after && Honours(both[i].kind.order, after[id].def)
    {
      if i < |log| {
        assert both[i] == log[i];
        var id :| id in before && Honours(log[i].kind.order, before[id].def);
        assert Honours(both[i].kind.order, after[id].def);
      } else {
        assert both[i] == emitted[i - |log|];
      }
    }
  }

  lemma EvaluateOneHonours(hasExecutor: bool, c: Contract, offer: SupplyOffer, offerTxId: string, now: nat)
    ensures var e := EvaluateOne(hasExecutor, c, offer, offerTxId, now);
      e.emitted != [] ==>
        && |e.emitted| == 2 && e.emitted[0].kind.Order? && !e.emitted[1].kind.Order?
        && Honours(e.emitted[0].kind.order, c.def)
  {
  }

  lemma {:induction false} EvaluateAllHonours(
    hasExecutor: bool, contracts: Contracts, ids: seq<string>, offer: SupplyOffer, offerTxId: string, now: nat)
    requires forall i :: 0 <= i < |ids| ==> ids[i] in contracts
    ensures var e := EvaluateAll(hasExecutor, contracts, ids, offer, offerTxId, now);
      Keeps(contracts, e.contracts) && AllHonoured(e.contracts, e.generated)
  {
    if ids == [] {
    } else {
      var n := |ids| - 1;
      EvaluateAllHonours(hasExecutor, contracts, ids[..n], offer, offerTxId, now);
      var e := EvaluateAll(hasExecutor, contracts, ids[..n], offer, offerTxId, now);
      assert ids[n] in e.contracts.Keys;
      OneMoreHonours(hasExecutor, e.contracts, ids[n], offer, offerTxId, now);
      var one := EvaluateOne(hasExecutor, e.contracts[ids[n]], offer, offerTxId, now);
      HonouredPush(e.contracts, e.contracts[ids[n] := one.contract], e.generated, one.emitted);
    }
  }

  lemma OneMoreHonours(hasExecutor: bool, contracts: Contracts, id: string, offer: SupplyOffer, offerTxId: string, now: nat)
    requires id in contracts
    ensures var one := EvaluateOne(hasExecutor, contracts[id], offer, offerTxId, now);
      Keeps(contracts, contracts[id := one.contract]) && AllHonoured(contracts[id := one.contract], one.emitted)
  {
    EvaluateOneHonours(hasExecutor, contracts[id], offer, offerTxId, now);
    EvaluateOneEmits(hasExecutor, contracts[id], offer, offerTxId, now);
    var one := EvaluateOne(hasExecutor, contracts[id], offer, offerTxId, now);
    if one.emitted != [] { assert Honours(one.emitted[0].kind.order, contracts[id := one.contract][id].def); }
  }

  /** Over every run, no buyer is committed beyond the price, product, seller and cap they agreed to. */
  lemma {:induction false} OrdersHonourContracts(hasExecutor: bool, ops: seq<EngineOp>)
    ensures AllHonoured(Live(hasExecutor, ops).contracts, Live(hasExecutor, ops).generated)
  {
    if ops == [] {
    } else {
      var n := |ops| - 1;
      OrdersHonourContracts(hasExecutor, ops[..n]);
      var before := Live(hasExecutor, ops[..n]);
      var step := EngineStep(hasExecutor, before.contracts, ops[n]);
      if ops[n].Evaluate? {
        var ids := SortedIds(before.contracts.Keys);
        forall i | 0 <= i < |ids| ensures ids[i] in before.contracts { assert ids[i] in ids; }
        EvaluateAllHonours(hasExecutor, before.contracts, ids, ops[n].offer, ops[n].offerTxId, ops[n].now);
      }
      assert Keeps(before.contracts, step.contracts);
      HonouredPush(before.contracts, step.contracts, before.generated, step.generated);
    }
  }

  // ---------------------------------------------------------------- what one evaluation buys

  lemma EvaluateOneEmits(hasExecutor: bool, c: Contract, offer: SupplyOffer, offerTxId: string, now: nat)
    ensures exists quantity: nat :: Emission(EvaluateOne(hasExecutor, c, offer, offerTxId, now).emitted, c.def.contractId, quantity)
    ensures EvaluateOne(hasExecutor, c, offer, offerTxId, now).contract.def == c.def
  {
    var plan := PreparePurchase(c, offer, offerTxId, now);
    var emitted := EvaluateOne(hasExecutor, c, offer, offerTxId, now).emitted;
    assert Emission(emitted, c.def.contractId, if plan.Some? then plan.value.quantity else 0);
  }

  /** The contract's own terms take the offer: it is active, every condition is met, and its code, where there is an executor for it, approves. */
  predicate Takes(hasExecutor: bool, c: Contract, offer: SupplyOffer, offerTxId: string) {
    var terms := c.def.conditions;
    && c.status.Active? && terms.autoExecute
    && offer.productId == c.def.productId && offer.currency == terms.currency
    && offer.pricePerUnit <= terms.maxPricePerUnit && offer.leadTimeDays <= terms.maxLeadTimeDays
    && terms.minQuantity <= offer.quantityAvailable
    && (terms.preferredSellerId == None || terms.preferredSellerId == Some(offer.sellerId))
    && (!hasExecutor || c.def.wasmCode == None
        || WasmApproves("wasm:" + c.def.contractId + ":" + offerTxId, c.def.wasmCode.value, offer))
  }

  /** It takes the offer and is not used up. */
  predicate Accepts(hasExecutor: bool, c: Contract, offer: SupplyOffer, offerTxId: string) {
    Takes(hasExecutor, c, offer, offerTxId) && c.quantityPurchased < c.def.conditions.maxQuantity
  }

  /**
   * An order with its execution, under the ids the deal gives them: the same deal on the offer's terms, for
   * all that is offered unless that would pass the cap, in which case the contract is filled to its cap.
   */
  predicate Purchase(
    order: Transaction, execution: Transaction, before: Contract, after: Contract, offer: SupplyOffer, offerTxId: string, now: nat)
  {
    && order.kind.Order? && execution.kind.Execution?
    && order.timestamp == execution.timestamp == now && order.endorsements == execution.endorsements == []
    && order.id == "po:" + before.def.contractId + "-" + offerTxId
    && execution.id == "exec:" + before.def.contractId + "-" + offerTxId
    && var o, x, cap := order.kind.order, execution.kind.execution, before.def.conditions.maxQuantity;
    && o.contractId == Some(before.def.contractId) && x.contractId == before.def.contractId
    && x.purchaseOrderTxId == order.id
    && o.buyerId == x.buyerId == before.def.buyerId && o.sellerId == x.sellerId == offer.sellerId
    && o.productId == x.productId == offer.productId && o.currency == x.currency == offer.currency
    && o.agreedPricePerUnit == offer.pricePerUnit
    && (x.totalPrice == o.quantity * offer.pricePerUnit < U64_LIMIT
        || x.totalPrice == U64_LIMIT - 1 <= o.quantity * offer.pricePerUnit)
    && o.quantity == x.quantity <= offer.quantityAvailable
    && after == before.(quantityPurchased := before.quantityPurchased + o.quantity,
                        executionCount := (before.executionCount + 1) % U32_LIMIT,
                        status := if before.quantityPurchased + o.quantity == cap then Fulfilled else Active)
    && after.quantityPurchased <= cap
    && (o.quantity == offer.quantityAvailable || after.status.Fulfilled?)
  }

  /** Untouched, unless it takes the offer and is found to be used up already. */
  predicate LeftAlone(hasExecutor: bool, before: Contract, after: Contract, offer: SupplyOffer, offerTxId: string) {
    after == if Takes(hasExecutor, before, offer, offerTxId) then before.(status := Fulfilled) else before
  }

  /** What one contract makes of the offer. */
  predicate Answers(hasExecutor: bool, before: Contract, one: Evaluated, offer: SupplyOffer, offerTxId: string, now: nat) {
    if Accepts(hasExecutor, before, offer, offerTxId)
    then |one.emitted| == 2 && Purchase(one.emitted[0], one.emitted[1], before, one.contract, offer, offerTxId, now)
    else one.emitted == [] && LeftAlone(hasExecutor, before, one.contract, offer, offerTxId)
  }

  lemma EvaluateOneMeaning(hasExecutor: bool, c: Contract, offer: SupplyOffer, offerTxId: string, now: nat)
    requires WithinCap(c)
    ensures Answers(hasExecutor, c, EvaluateOne(hasExecutor, c, offer, offerTxId, now), offer, offerTxId, now)
  {
    if Accepts(hasExecutor, c, offer, offerTxId) {
      ExecutedWithin(c, PreparePurchase(c, offer, offerTxId, now).value.quantity);
    }
  }

  /** `g` is one order and its execution for each of `names`, which ascend. */
  predicate Alternates(
    g: seq<Transaction>, names: seq<string>, before: Contracts, after: Contracts, offer: SupplyOffer, offerTxId: string, now: nat)
  {
    && |g| == 2 * |names|
    && AscendingIds(names)
    && forall k :: 0 <= k < |names| ==>
         && names[k] in before && names[k] in after
         && Purchase(g[2 * k], g[2 * k + 1], before[names[k]], after[names[k]], offer, offerTxId, now)
  }

  lemma AlternatesPush(
    g: seq<Transaction>, names: seq<string>, emitted: seq<Transaction>, id: string,
    before: Contracts, after: Contracts, c: Contract, offer: SupplyOffer, offerTxId: string, now: nat)
    requires Alternates(g, names, before, after, offer, offerTxId, now) && id in before
    requires |emitted| == 2 && Purchase(emitted[0], emitted[1], before[id], c, offer, offerTxId, now)
    requires forall name :: name in names ==> Before(name, id) && name != id
    ensures Alternates(g + emitted, names + [id], before, after[id := c], offer, offerTxId, now)
  {
    var longer, all, later := g + emitted, names + [id], after[id := c];
    forall k | 0 <= k < |all|
      ensures all[k] in before && all[k] in later && Purchase(longer[2 * k], longer[2 * k + 1], before[all[k]], later[all[k]], offer, offerTxId, now)
    {
      if k < |names| {
        assert names[k] in names;
        assert longer[2 * k] == g[2 * k] && longer[2 * k + 1] == g[2 * k + 1];
      } else {
        assert longer[2 * k] == emitted[0] && longer[2 * k + 1] == emitted[1];
      }
    }
    forall i, j | 0 <= i < j < |all| ensures Before(all[i], all[j]) {
      if j == |names| { assert names[i] in names; }
    }
  }

  /** Among the contracts `ids`, exactly `names` accept the offer; whatever is not named is left alone. */
  ghost predicate Served(
    hasExecutor: bool, before: Contracts, ids: seq<string>, names: seq<string>, after: Contracts, offer: SupplyOffer, offerTxId: string)
    requires forall i :: 0 <= i < |ids| ==> ids[i] in before
    requires after.Keys == before.Keys
  {
    && (forall id :: id in names <==> id in ids && Accepts(hasExecutor, before[id], offer, offerTxId))
    && (forall id :: id in ids && id !in names ==> LeftAlone(hasExecutor, before[id], after[id], offer, offerTxId))
    && forall id :: id in before && id !in ids ==> after[id] == before[id]
  }

  lemma ServedPush(
    hasExecutor: bool, before: Contracts, earlier: seq<string>, names: seq<string>, after: Contracts, id: string,
    c: Contract, offer: SupplyOffer, offerTxId: string)
    requires (forall i :: 0 <= i < |earlier| ==> earlier[i] in before) && after.Keys == before.Keys && id in before
    requires Served(hasExecutor, before, earlier, names, after, offer, offerTxId)
    requires id !in earlier && (Accepts(hasExecutor, before[id], offer, offerTxId) || LeftAlone(hasExecutor, before[id], c, offer, offerTxId))
    ensures Served(hasExecutor, before, earlier + [id],
                   if Accepts(hasExecutor, before[id], offer, offerTxId) then names + [id] else names,
                   after[id := c], offer, offerTxId)
  {
  }

  lemma AlternatesKeep(
    g: seq<Transaction>, names: seq<string>, id: string, before: Contracts, after: Contracts, c: Contract,
    offer: SupplyOffer, offerTxId: string, now: nat)
    requires Alternates(g, names, before, after, offer, offerTxId, now) && id !in names
    ensures Alternates(g, names, before, after[id := c], offer, offerTxId, now)
  {
    var later := after[id := c];
    forall k | 0 <= k < |names|
      ensures names[k] in later && Purchase(g[2 * k], g[2 * k + 1], before[names[k]], later[names[k]], offer, offerTxId, now)
    {
      assert names[k] in names;
    }
  }

  /** One more answer keeps the pairs in order. */
  lemma AlternatesStep(
    hasExecutor: bool, g: seq<Transaction>, names: seq<string>, id: string, before: Contracts, after: Contracts,
    one: Evaluated, offer: SupplyOffer, offerTxId: string, now: nat)
    requires Alternates(g, names, before, after, offer, offerTxId, now) && id in before
    requires forall name :: name in names ==> Before(name, id) && name != id
    requires Answers(hasExecutor, before[id], one, offer, offerTxId, now)
    ensures Alternates(g + one.emitted, if Accepts(hasExecutor, before[id], offer, offerTxId) then names + [id] else names,
                       before, after[id := one.contract], offer, offerTxId, now)
  {
    if Accepts(hasExecutor, before[id], offer, offerTxId) {
      AlternatesPush(g, names, one.emitted, id, before, after, one.contract, offer, offerTxId, now);
    } else {
      AlternatesKeep(g, names, id, before, after, one.contract, offer, offerTxId, now);
      assert g + one.emitted == g;
    }
  }

  lemma {:induction false} EvaluateAllMeaning(
    hasExecutor: bool, contracts: Contracts, ids: seq<string>, offer: SupplyOffer, offerTxId: string, now: nat)
    returns (names: seq<string>)
    requires AscendingIds(ids) && forall i :: 0 <= i < |ids| ==> ids[i] in contracts
    requires forall id :: id in contracts ==> WithinCap(contracts[id])
    ensures var e := EvaluateAll(hasExecutor, contracts, ids, offer, offerTxId, now);
      && Alternates(e.generated, names, contracts, e.contracts, offer, offerTxId, now)
      && Served(hasExecutor, contracts, ids, names, e.contracts, offer, offerTxId)
  {
    if ids == [] {
      names := [];
    } else {
      var n := |ids| - 1;
      var earlier, id := ids[..n], ids[n];
      assert ids == earlier + [id] && ids[..n + 1] == ids;
      names := EvaluateAllMeaning(hasExecutor, contracts, earlier, offer, offerTxId, now);
      LastIsNew(earlier, id);
      var e := EvaluateAll(hasExecutor, contracts, earlier, offer, offerTxId, now);
      EvaluateAllPush(hasExecutor, contracts, ids, n, offer, offerTxId, now);
      EvaluateOneMeaning(hasExecutor, contracts[id], offer, offerTxId, now);
      var one := EvaluateOne(hasExecutor, contracts[id], offer, offerTxId, now);
      ServedPush(hasExecutor, contracts, earlier, names, e.contracts, id, one.contract, offer, offerTxId);
      AlternatesStep(hasExecutor, e.generated, names, id, contracts, e.contracts, one, offer, offerTxId, now);
      names := if Accepts(hasExecutor, contracts[id], offer, offerTxId) then names + [id] else names;
    }
  }

  lemma LastIsNew(earlier: seq<string>, last: string)
    requires AscendingIds(earlier + [last])
    ensures forall name :: name in earlier ==> Before(name, last) && name != last
  {
    var ids := earlier + [last];
    forall name | name in earlier ensures Before(name, last) && name != last {
      var i :| 0 <= i < |earlier| && earlier[i] == name;
      assert Before(ids[i], ids[|earlier|]);
      BeforeIsAsymmetric(name, last);
    }
  }

  /**
   * After any run, the next evaluation buys for exactly the contracts that accept the offer, once each
   * and in contract-id order, as much as offer and cap allow; it leaves every other contract alone.
   */
  lemma EvaluationBuysExactly(hasExecutor: bool, ops: seq<EngineOp>, offer: SupplyOffer, offerTxId: string, now: nat)
    returns (names: seq<string>)
    requires forall i :: 0 <= i < |ops| ==> WordSized(ops[i])
    ensures var live := Live(hasExecutor, ops).contracts;
      var e := EngineStep(hasExecutor, live, Evaluate(offer, offerTxId, now));
      && e.contracts.Keys == live.Keys
      && Alternates(e.generated, names, live, e.contracts, offer, offerTxId, now)
      && (forall id :: id in names <==> id in live && Accepts(hasExecutor, live[id], offer, offerTxId))
      && forall id :: id in live && id !in names ==> LeftAlone(hasExecutor, live[id], e.contracts[id], offer, offerTxId)
  {
    EngineIsAccounted(hasExecutor, ops);
    var run := Live(hasExecutor, ops);
    var ids := SortedIds(run.contracts.Keys);
    forall i | 0 <= i < |ids| ensures ids[i] in run.contracts { assert ids[i] in ids; }
    forall id | id in run.contracts ensures WithinCap(run.contracts[id]) {
      assert BookedAt(run.contracts, run.generated, id);
    }
    names := EvaluateAllMeaning(hasExecutor, run.contracts, ids, offer, offerTxId, now);
  }

  /** No order and no execution in the list is for contract `id`. */
  predicate NothingFor(txs: seq<Transaction>, id: string) {
    forall i :: 0 <= i < |txs| ==>
      && (txs[i].kind.Order? ==> txs[i].kind.order.contractId != Some(id))
      && (txs[i].kind.Execution? ==> txs[i].kind.execution.contractId != id)
  }

  lemma NothingForConcat(xs: seq<Transaction>, ys: seq<Transaction>, id: string)
    requires NothingFor(xs, id) && NothingFor(ys, id)
    ensures NothingFor(xs + ys, id)
  {
  }

  /** Contract keys are contract ids. */
  predicate KeyedById(contracts: Contracts) {
    forall id :: id in contracts ==> contracts[id].def.contractId == id
  }

  lemma LiveIsKeyed(hasExecutor: bool, ops: seq<EngineOp>)
    requires forall i :: 0 <= i < |ops| ==> WordSized(ops[i])
    ensures KeyedById(Live(hasExecutor, ops).contracts)
  {
    EngineIsAccounted(hasExecutor, ops);
    var run := Live(hasExecutor, ops);
    forall id | id in run.contracts ensures run.contracts[id].def.contractId == id {
      assert BookedAt(run.contracts, run.generated, id);
    }
  }

  /** Purchases for `names` are for nobody else. */
  lemma PairsAreForNames(
    g: seq<Transaction>, names: seq<string>, before: Contracts, after: Contracts, offer: SupplyOffer, offerTxId: string, now: nat, id: string)
    requires Alternates(g, names, before, after, offer, offerTxId, now) && KeyedById(before) && id !in names
    ensures NothingFor(g, id)
  {
    forall i | 0 <= i < |g|
      ensures g[i].kind.Order? ==> g[i].kind.order.contractId != Some(id)
      ensures g[i].kind.Execution? ==> g[i].kind.execution.contractId != id
    {
      var k := i / 2;
      assert i == 2 * k || i == 2 * k + 1;
      var name := names[k];
      assert name in names && Purchase(g[2 * k], g[2 * k + 1], before[name], after[name], offer, offerTxId, now);
    }
  }

  /** After any run, an offer the contract's own code denies leaves the contract as it was and buys nothing for it. */
  lemma DeniedOfferBuysNothing(ops: seq<EngineOp>, offer: SupplyOffer, offerTxId: string, now: nat, id: string)
    requires (forall i :: 0 <= i < |ops| ==> WordSized(ops[i])) && id in Live(true, ops).contracts
    requires var def := Live(true, ops).contracts[id].def;
      def.wasmCode.Some? && !WasmApproves("wasm:" + id + ":" + offerTxId, def.wasmCode.value, offer)
    ensures var live := Live(true, ops).contracts;
      var e := EngineStep(true, live, Evaluate(offer, offerTxId, now));
      id in e.contracts && e.contracts[id] == live[id] && NothingFor(e.generated, id)
  {
    var live := Live(true, ops).contracts;
    LiveIsKeyed(true, ops);
    assert !Takes(true, live[id], offer, offerTxId);
    var names := EvaluationBuysExactly(true, ops, offer, offerTxId, now);
    var e := EngineStep(true, live, Evaluate(offer, offerTxId, now));
    PairsAreForNames(e.generated, names, live, e.contracts, offer, offerTxId, now, id);
    assert id in e.contracts.Keys;
  }

  // ---------------------------------------------------------------- contracts that do not act

  /** The operation wakes or changes the dormant contract: it resumes a paused one or cancels one that is not cancelled yet. */
  predicate Stirs(op: EngineOp, id: string, status: ContractStatus) {
    (op == Resume(id) && status.Paused?) || (op == Cancel(id) && !status.Cancelled?)
  }

  lemma OneSkips(
    hasExecutor: bool, contracts: Contracts, name: string, offer: SupplyOffer, offerTxId: string, now: nat, id: string)
    requires KeyedById(contracts) && name in contracts && id in contracts && !contracts[id].status.Active?
    ensures var one := EvaluateOne(hasExecutor, contracts[name], offer, offerTxId, now);
      KeyedById(contracts[name := one.contract]) && contracts[name := one.contract][id] == contracts[id] && NothingFor(one.emitted, id)
  {
    EvaluateOneEmits(hasExecutor, contracts[name], offer, offerTxId, now);
  }

  lemma {:induction false} EvaluateAllSkips(
    hasExecutor: bool, contracts: Contracts, ids: seq<string>, offer: SupplyOffer, offerTxId: string, now: nat, id: string)
    requires (forall i :: 0 <= i < |ids| ==> ids[i] in contracts) && KeyedById(contracts)
    requires id in contracts && !contracts[id].status.Active?
    ensures var e := EvaluateAll(hasExecutor, contracts, ids, offer, offerTxId, now);
      KeyedById(e.contracts) && id in e.contracts.Keys && e.contracts[id] == contracts[id] && NothingFor(e.generated, id)
  {
    if ids == [] {
    } else {
      var n := |ids| - 1;
      assert ids[..n + 1] == ids;
      EvaluateAllPush(hasExecutor, contracts, ids, n, offer, offerTxId, now);
      EvaluateAllSkips(hasExecutor, contracts, ids[..n], offer, offerTxId, now, id);
      var e := EvaluateAll(hasExecutor, contracts, ids[..n], offer, offerTxId, now);
      assert ids[n] in e.contracts.Keys;
      OneSkips(hasExecutor, e.contracts, ids[n], offer, offerTxId, now, id);
      NothingForConcat(e.generated, EvaluateOne(hasExecutor, e.contracts[ids[n]], offer, offerTxId, now).emitted, id);
    }
  }

  lemma DormantStep(hasExecutor: bool, contracts: Contracts, op: EngineOp, id: string)
    requires KeyedById(contracts) && id in contracts && !contracts[id].status.Active? && !Stirs(op, id, contracts[id].status)
    ensures var e := EngineStep(hasExecutor, contracts, op);
      id in e.contracts && e.contracts[id] == contracts[id] && NothingFor(e.generated, id)
  {
    if op.Evaluate? {
      var ids := SortedIds(contracts.Keys);
      forall i | 0 <= i < |ids| ensures ids[i] in contracts { assert ids[i] in ids; }
      EvaluateAllSkips(hasExecutor, contracts, ids, op.offer, op.offerTxId, op.now, id);
    }
  }

  /** The later engine has the contract as the earlier one had it, and has emitted nothing for it since. */
  predicate StaysAsleep(before: Evaluation, after: Evaluation, id: string) {
    && id in before.contracts && id in after.contracts && after.contracts[id] == before.contracts[id]
    && before.generated <= after.generated && NothingFor(after.generated[|before.generated|..], id)
  }

  lemma StaysAsleepTrans(a: Evaluation, b: Evaluation, c: Evaluation, id: string)
    requires StaysAsleep(a, b, id) && StaysAsleep(b, c, id)
    ensures StaysAsleep(a, c, id)
  {
    var n, m := |a.generated|, |b.generated|;
    NothingForConcat(b.generated[n..], c.generated[m..], id);
    assert c.generated[n..] == b.generated[n..] + c.generated[m..];
  }

  predicate Dormant(e: Evaluation, id: string) {
    id in e.contracts && !e.contracts[id].status.Active?
  }

  predicate AllWordSized(ops: seq<EngineOp>) {
    forall i :: 0 <= i < |ops| ==> WordSized(ops[i])
  }

  lemma DormantPush(hasExecutor: bool, earlier: seq<EngineOp>, op: EngineOp, id: string)
    requires AllWordSized(earlier) && Dormant(Live(hasExecutor, earlier), id)
    requires !Stirs(op, id, Live(hasExecutor, earlier).contracts[id].status)
    ensures StaysAsleep(Live(hasExecutor, earlier), Live(hasExecutor, earlier + [op]), id)
  {
    LiveIsKeyed(hasExecutor, earlier);
    var all := earlier + [op];
    assert all[..|all| - 1] == earlier && all[|all| - 1] == op;
    var mid := Live(hasExecutor, earlier);
    DormantStep(hasExecutor, mid.contracts, op, id);
    var emitted := EngineStep(hasExecutor, mid.contracts, op).generated;
    assert (mid.generated + emitted)[|mid.generated|..] == emitted;
  }

  /**
   * A contract that is paused, fulfilled or cancelled stays as it is and buys nothing, over every further
   * run that does not resume it while paused or cancel it; a cancelled one over every run whatever.
   */
  lemma {:induction false} DormantContractsStay(hasExecutor: bool, ops: seq<EngineOp>, more: seq<EngineOp>, id: string)
    requires AllWordSized(ops) && AllWordSized(more) && Dormant(Live(hasExecutor, ops), id)
    requires forall i :: 0 <= i < |more| ==> !Stirs(more[i], id, Live(hasExecutor, ops).contracts[id].status)
    ensures StaysAsleep(Live(hasExecutor, ops), Live(hasExecutor, ops + more), id)
    decreases |more|
  {
    if more == [] {
      assert ops + more == ops;
    } else {
      var n := |more| - 1;
      var earlier := ops + more[..n];
      assert ops + more == earlier + [more[n]];
      DormantContractsStay(hasExecutor, ops, more[..n], id);
      DormantPush(hasExecutor, earlier, more[n], id);
      StaysAsleepTrans(Live(hasExecutor, ops), Live(hasExecutor, earlier), Live(hasExecutor, earlier + [more[n]]), id);
    }
  }

  // ---------------------------------------------------------------- replay of one contract

  /** A fresh contract after executions of the given quantities. */
  function ReplayQuantities(c: Contract, quantities: seq<nat>): (r: Contract) {
    if quantities == [] then c
    else Executed(ReplayQuantities(c, quantities[..|quantities| - 1]), quantities[|quantities| - 1])
  }

  lemma {:induction false} ReplayQuantitiesResult(def: SmartContractDef, quantities: seq<nat>)
    requires Sum(quantities) <= def.conditions.maxQuantity < U64_LIMIT
    ensures ReplayQuantities(New(def), quantities) == Contract(
      def, if quantities != [] && Sum(quantities) >= def.conditions.maxQuantity then Fulfilled else Active,
      Sum(quantities), |quantities| % U32_LIMIT)
  {
    if quantities == [] {
    } else {
      var n := |quantities| - 1;
      assert quantities == quantities[..n] + [quantities[n]];
      SumConcat(quantities[..n], [quantities[n]]);
      assert Sum([quantities[n]]) == quantities[n] + Sum([quantities[n]][1..]);
      ReplayQuantitiesResult(def, quantities[..n]);
      Wrapping(Sum(quantities), n);
    }
  }

  lemma {:induction false} ReplayAllOne(contracts: Contracts, txs: seq<Transaction>, id: string)
    ensures ReplayAll(contracts, txs).Keys == contracts.Keys
    ensures id in contracts ==> ReplayAll(contracts, txs)[id] == ReplayQuantities(contracts[id], ExecutedQuantities(txs, id))
  {
    if txs == [] {
    } else {
      var n := |txs| - 1;
      var tx := txs[n];
      ReplayAllOne(contracts, txs[..n], id);
      assert txs == txs[..n] + [tx];
      QuantitiesConcat(txs[..n], [tx], id);
      QuantitiesOfOne(tx, id);
      var earlier, more := ExecutedQuantities(txs[..n], id), ExecutedQuantities([tx], id);
      assert more != [] ==> (earlier + more)[..|earlier|] == earlier;
      assert more == [] ==> earlier + more == earlier;
    }
  }

  /** Some of the quantities, from the first on, bring the wrapping sum to the cap. */
  predicate Reaches(quantities: seq<nat>, cap: nat) {
    exists n :: 0 < n <= |quantities| && Sum(quantities[..n]) % U64_LIMIT >= cap
  }

  lemma ReachesPush(rest: seq<nat>, last: nat, cap: nat)
    ensures Reaches(rest + [last], cap) <==> Reaches(rest, cap) || (Sum(rest) + last) % U64_LIMIT >= cap
  {
    var all := rest + [last];
    SumConcat(rest, [last]);
    assert Sum([last]) == last + Sum([last][1..]);
    assert all[..|all|] == all && forall n :: 0 < n <= |rest| ==> all[..n] == rest[..n];
    if n :| 0 < n <= |rest| && Sum(rest[..n]) % U64_LIMIT >= cap { assert Sum(all[..n]) % U64_LIMIT >= cap; }
    if n :| 0 < n <= |all| && Sum(all[..n]) % U64_LIMIT >= cap { assert n <= |rest| ==> Sum(rest[..n]) % U64_LIMIT >= cap; }
  }

  lemma WrappedSum(a: nat, b: nat)
    ensures (a % U64_LIMIT + b) % U64_LIMIT == (a + b) % U64_LIMIT
  {
  }

  lemma ExecutedWraps(def: SmartContractDef, status: ContractStatus, sum: nat, count: nat, quantity: nat)
    ensures Executed(Contract(def, status, sum % U64_LIMIT, count % U32_LIMIT), quantity)
         == Contract(def, if (sum + quantity) % U64_LIMIT >= def.conditions.maxQuantity then Fulfilled else status,
                     (sum + quantity) % U64_LIMIT, (count + 1) % U32_LIMIT)
  {
    WrappedSum(sum, quantity);
    Wrapping(0, count);
  }

  /** Any quantities whatever, over the cap or past a word: sum and count wrap, and the contract is fulfilled once the sum has reached the cap. */
  lemma {:induction false} ReplayQuantitiesMeaning(def: SmartContractDef, quantities: seq<nat>)
    ensures ReplayQuantities(New(def), quantities) == Contract(
      def, if Reaches(quantities, def.conditions.maxQuantity) then Fulfilled else Active, Sum(quantities) % U64_LIMIT, |quantities| % U32_LIMIT)
  {
    if quantities == [] {
    } else {
      var n := |quantities| - 1;
      var rest, last := quantities[..n], quantities[n];
      ReplayQuantitiesMeaning(def, rest);
      assert quantities == rest + [last];
      ReachesPush(rest, last, def.conditions.maxQuantity);
      SumConcat(rest, [last]);
      assert Sum([last]) == last + Sum([last][1..]);
      ExecutedWraps(def, ReplayQuantities(New(def), rest).status, Sum(rest), n, last);
    }
  }

  // ---------------------------------------------------------------- creations

  predicate Created(txs: seq<Transaction>, def: SmartContractDef) {
    exists i :: 0 <= i < |txs| && txs[i].kind == Creation(def)
  }

  /** The chain creates exactly the live contracts, in any order and however often. */
  ghost predicate CreatesExactly(txs: seq<Transaction>, contracts: Contracts) {
    && (forall def :: Created(txs, def) ==> def.contractId in contracts && contracts[def.contractId].def == def)
    && forall id :: id in contracts ==> Created(txs, contracts[id].def)
  }

  lemma {:induction false} LoadAllResult(txs: seq<Transaction>, contracts: Contracts)
    requires forall def :: Created(txs, def) ==> def.contractId in contracts && contracts[def.contractId].def == def
    ensures forall id :: id in LoadAll(map[], txs) ==> id in contracts && LoadAll(map[], txs)[id] == New(contracts[id].def)
    ensures forall def :: Created(txs, def) ==> def.contractId in LoadAll(map[], txs)
  {
    if txs == [] {
    } else {
      var n := |txs| - 1;
      forall def | Created(txs[..n], def) ensures Created(txs, def) {
        var i :| 0 <= i < n && txs[..n][i].kind == Creation(def);
        assert txs[i].kind == Creation(def);
      }
      LoadAllResult(txs[..n], contracts);
      if txs[n].kind.Creation? {
        assert Created(txs, txs[n].kind.def);
      }
      forall def | Created(txs, def) ensures def.contractId in LoadAll(map[], txs) {
        var i :| 0 <= i < |txs| && txs[i].kind == Creation(def);
        if i < n {
          assert txs[..n][i].kind == Creation(def);
          assert Created(txs[..n], def);
        }
      }
    }
  }

  /** Transaction `i` is the first that creates contract `id`. */
  predicate FirstCreation(txs: seq<Transaction>, i: nat, id: string) {
    && i < |txs| && txs[i].kind.Creation? && txs[i].kind.def.contractId == id
    && forall j :: 0 <= j < i ==> txs[j].kind.Creation? ==> txs[j].kind.def.contractId != id
  }

  lemma {:induction false} LoadAllMeaning(txs: seq<Transaction>, id: string)
    ensures id in LoadAll(map[], txs) <==> exists i :: 0 <= i < |txs| && FirstCreation(txs, i, id)
    ensures forall i :: 0 <= i < |txs| && FirstCreation(txs, i, id) ==> LoadAll(map[], txs)[id] == New(txs[i].kind.def)
  {
    if txs == [] {
    } else {
      var n := |txs| - 1;
      LoadAllMeaning(txs[..n], id);
      forall i: nat | i < n ensures FirstCreation(txs[..n], i, id) <==> FirstCreation(txs, i, id) { }
      FirstOrNone(txs[..n], id);
      if txs[n].kind.Creation? && txs[n].kind.def.contractId == id && id !in LoadAll(map[], txs[..n]) {
        assert FirstCreation(txs, n, id);
      }
    }
  }

  /** Some transaction creates the contract first, or none does at all. */
  lemma {:induction false} FirstOrNone(txs: seq<Transaction>, id: string)
    ensures (exists i :: 0 <= i < |txs| && FirstCreation(txs, i, id))
         || forall j :: 0 <= j < |txs| ==> txs[j].kind.Creation? ==> txs[j].kind.def.contractId != id
  {
    if txs == [] {
    } else {
      var n := |txs| - 1;
      FirstOrNone(txs[..n], id);
      if i :| 0 <= i < n && FirstCreation(txs[..n], i, id) {
        assert FirstCreation(txs, i, id);
      } else if txs[n].kind.Creation? && txs[n].kind.def.contractId == id {
        assert forall j :: 0 <= j < n ==> txs[j] == txs[..n][j];
        assert FirstCreation(txs, n, id);
      }
    }
  }

  /**
   * Rebuilding from any chain whatever: the contracts are those the chain creates, each by its first
   * creation; the purchases are the sum of its executions, wherever they stand, and the count their number,
   * both wrapping; it is Fulfilled exactly when some of its executions brought the sum to the cap.
   */
  lemma RebuildMeaning(chain: seq<Block>, i: nat, id: string)
    ensures var txs := Transactions(chain);
      (forall k :: 0 <= k < |txs| ==> !FirstCreation(txs, k, id)) ==> id !in Rebuild(txs)
    ensures var txs := Transactions(chain);
      FirstCreation(txs, i, id) ==>
        var def, q := txs[i].kind.def, ExecutedQuantities(txs, id);
        && id in Rebuild(txs)
        && Rebuild(txs)[id] == Contract(
             def, if Reaches(q, def.conditions.maxQuantity) then Fulfilled else Active, Sum(q) % U64_LIMIT, |q| % U32_LIMIT)
  {
    var txs := Transactions(chain);
    LoadAllMeaning(txs, id);
    ReplayAllOne(LoadAll(map[], txs), txs, id);
    if FirstCreation(txs, i, id) { ReplayQuantitiesMeaning(txs[i].kind.def, ExecutedQuantities(txs, id)); }
  }

  // ---------------------------------------------------------------- main results

  /** The chain records the live engine: its contracts, and each emitted execution exactly once. */
  ghost predicate Records(txs: seq<Transaction>, live: Evaluation) {
    CreatesExactly(txs, live.contracts) && multiset(Executions(txs)) == multiset(Executions(live.generated))
  }

  /** Replay recovers the definition, the purchases and the count; the status when the chain can tell it. */
  predicate Recovered(live: Contract, rebuilt: Contract) {
    && rebuilt.def == live.def
    && rebuilt.quantityPurchased == live.quantityPurchased
    && rebuilt.executionCount == live.executionCount
    && (rebuilt.status.Active? || rebuilt.status.Fulfilled?)
    && (rebuilt.status == live.status <==> live.status.Active? || (live.status.Fulfilled? && live.def.conditions.maxQuantity > 0))
  }

  lemma OneContractRecovered(live: Contract, log: seq<nat>, committed: seq<nat>)
    requires Books(live, log, log) && multiset(committed) == multiset(log)
    ensures Recovered(live, ReplayQuantities(New(live.def), committed))
  {
    SumPermutation(committed, log);
    ReplayQuantitiesResult(live.def, committed);
    assert |multiset(committed)| == |committed| && |multiset(log)| == |log|;
    if log != [] { assert |committed| > 0; }
    if live.status.Fulfilled? && live.def.conditions.maxQuantity > 0 {
      assert log != [];
    }
  }

  /**
   * Live engine equals replay: after any run, from any chain that records it in any block split and any
   * order among unrelated transactions, rebuilding recovers every contract; its status is recovered if
   * and only if it is Active, or Fulfilled under a positive cap.
   */
  lemma RebuildRecoversEngine(hasExecutor: bool, ops: seq<EngineOp>, chain: seq<Block>)
    requires forall i :: 0 <= i < |ops| ==> WordSized(ops[i])
    requires Records(Transactions(chain), Live(hasExecutor, ops))
    ensures var rebuilt, live := Rebuild(Transactions(chain)), Live(hasExecutor, ops).contracts;
      rebuilt.Keys == live.Keys && forall id :: id in live ==> Recovered(live[id], rebuilt[id])
  {
    var txs, run := Transactions(chain), Live(hasExecutor, ops);
    EngineIsAccounted(hasExecutor, ops);
    LoadAllResult(txs, run.contracts);
    var loaded := LoadAll(map[], txs);
    assert loaded.Keys == run.contracts.Keys by {
      forall id | id in run.contracts ensures id in loaded {
        assert BookedAt(run.contracts, run.generated, id);
        assert run.contracts[id].def.contractId == id && Created(txs, run.contracts[id].def);
      }
    }
    ReplayAllOne(loaded, txs, "");
    forall id | id in run.contracts ensures Recovered(run.contracts[id], Rebuild(txs)[id]) {
      assert BookedAt(run.contracts, run.generated, id);
      ReplayAllOne(loaded, txs, id);
      FilterMapPermutation(ExecutedBy(id), Executions(txs), Executions(run.generated));
      OneContractRecovered(run.contracts[id], ExecutedQuantities(run.generated, id), ExecutedQuantities(txs, id));
    }
  }

  /** No pause, no cancel, and every definition has a positive cap. */
  predicate Uninterrupted(op: EngineOp) {
    WordSized(op) && !op.Pause? && !op.Cancel? && (op.Register? || op.LoadDef? ==> op.def.conditions.maxQuantity > 0)
  }

  predicate Legible(c: Contract) {
    c.def.conditions.maxQuantity > 0 && (c.status.Active? || c.status.Fulfilled?)
  }

  predicate AllLegible(contracts: Contracts) {
    forall id :: id in contracts ==> Legible(contracts[id])
  }

  lemma EvaluateOneKeepsLegible(hasExecutor: bool, c: Contract, offer: SupplyOffer, offerTxId: string, now: nat)
    requires Legible(c)
    ensures Legible(EvaluateOne(hasExecutor, c, offer, offerTxId, now).contract)
  {
  }

  lemma {:induction false} EvaluateAllKeepsLegible(
    hasExecutor: bool, contracts: Contracts, ids: seq<string>, offer: SupplyOffer, offerTxId: string, now: nat)
    requires forall i :: 0 <= i < |ids| ==> ids[i] in contracts
    requires AllLegible(contracts)
    ensures AllLegible(EvaluateAll(hasExecutor, contracts, ids, offer, offerTxId, now).contracts)
  {
    if ids == [] {
    } else {
      var n := |ids| - 1;
      EvaluateAllKeepsLegible(hasExecutor, contracts, ids[..n], offer, offerTxId, now);
      var e := EvaluateAll(hasExecutor, contracts, ids[..n], offer, offerTxId, now);
      assert ids[n] in e.contracts.Keys;
      EvaluateOneKeepsLegible(hasExecutor, e.contracts[ids[n]], offer, offerTxId, now);
    }
  }

  lemma {:induction false} UninterruptedIsLegible(hasExecutor: bool, ops: seq<EngineOp>)
    requires forall i :: 0 <= i < |ops| ==> Uninterrupted(ops[i])
    ensures AllLegible(Live(hasExecutor, ops).contracts)
  {
    if ops == [] {
    } else {
      var n := |ops| - 1;
      UninterruptedIsLegible(hasExecutor, ops[..n]);
      var before := Live(hasExecutor, ops[..n]).contracts;
      if ops[n].Evaluate? {
        var ids := SortedIds(before.Keys);
        forall i | 0 <= i < |ids| ensures ids[i] in before { assert ids[i] in ids; }
        EvaluateAllKeepsLegible(hasExecutor, before, ids, ops[n].offer, ops[n].offerTxId, ops[n].now);
      }
      assert Uninterrupted(ops[n]);
      assert EngineStep(hasExecutor, before, ops[n]).contracts == Live(hasExecutor, ops).contracts;
    }
  }

  lemma LegibleIsRecovered(live: Contract, rebuilt: Contract)
    requires Recovered(live, rebuilt) && Legible(live)
    ensures rebuilt == live
  {
  }

  /** Without pauses, cancellations and zero caps, the rebuilt engine is the live engine. */
  lemma LiveEngineEqualsReplay(hasExecutor: bool, ops: seq<EngineOp>, chain: seq<Block>)
    requires forall i :: 0 <= i < |ops| ==> Uninterrupted(ops[i])
    requires Records(Transactions(chain), Live(hasExecutor, ops))
    ensures Rebuild(Transactions(chain)) == Live(hasExecutor, ops).contracts
  {
    RebuildRecoversEngine(hasExecutor, ops, chain);
    UninterruptedIsLegible(hasExecutor, ops);
    var rebuilt, live := Rebuild(Transactions(chain)), Live(hasExecutor, ops).contracts;
    forall id | id in live ensures rebuilt[id] == live[id] {
      assert Legible(live[id]);
      LegibleIsRecovered(live[id], rebuilt[id]);
    }
  }

  lemma OneId(id: string)
    ensures SortedIds({id}) == [id]
  {
    var ids := SortedIds({id});
    assert id in ids && forall i :: 0 <= i < |ids| ==> ids[i] in ids;
    if |ids| > 1 {
      assert Before(ids[0], ids[1]);
      BeforeIsAsymmetric(ids[0], ids[1]);
    }
  }

  /** Registering a zero-cap contract and meeting its conditions: it is fulfilled and nothing is emitted. */
  lemma ZeroCapRun(def: SmartContractDef, offer: SupplyOffer, offerTxId: string, now: nat)
    requires def.conditions.maxQuantity == 0 && def.conditions.autoExecute && OfferMatches(New(def), offer)
    ensures Live(false, [Register(def), Evaluate(offer, offerTxId, now)])
         == Evaluation(map[def.contractId := New(def).(status := Fulfilled)], [])
  {
    var id, one, ops := def.contractId, [Register(def)], [Register(def), Evaluate(offer, offerTxId, now)];
    assert one[..0] == [] && ops[..1] == one;
    var registered: Contracts := map[id := New(def)];
    assert Live(false, one) == Evaluation(registered, []);
    OneId(id);
    assert registered.Keys == {id};
    assert [id][..0] == [];
    assert EvaluateAll(false, registered, [id][..0], offer, offerTxId, now) == Evaluation(registered, []);
    assert EvaluateOne(false, New(def), offer, offerTxId, now) == Evaluated(New(def).(status := Fulfilled), []);
    assert EvaluateAll(false, registered, [id], offer, offerTxId, now).contracts == map[id := New(def).(status := Fulfilled)];
  }

  /** A zero cap is forgotten: whatever chain records such a run, rebuilding brings the fulfilled contract back Active. */
  lemma ZeroCapIsForgotten(def: SmartContractDef, offer: SupplyOffer, offerTxId: string, now: nat, chain: seq<Block>)
    requires def.conditions.maxQuantity == 0 && def.conditions.autoExecute && OfferMatches(New(def), offer)
    requires Records(Transactions(chain), Live(false, [Register(def), Evaluate(offer, offerTxId, now)]))
    ensures var live := Live(false, [Register(def), Evaluate(offer, offerTxId, now)]);
      var rebuilt := Rebuild(Transactions(chain));
      && live.generated == [] && rebuilt.Keys == live.contracts.Keys == {def.contractId}
      && live.contracts[def.contractId].status == Fulfilled && rebuilt[def.contractId].status == Active
  {
    var ops, id := [Register(def), Evaluate(offer, offerTxId, now)], def.contractId;
    ZeroCapRun(def, offer, offerTxId, now);
    assert WordSized(ops[0]) && WordSized(ops[1]);
    RebuildRecoversEngine(false, ops, chain);
    var live, rebuilt := Live(false, ops).contracts, Rebuild(Transactions(chain));
    assert id in live && live[id].status.Fulfilled?;
    assert Recovered(live[id], rebuilt[id]);
  }
}
