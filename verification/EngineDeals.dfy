/** The deals a run of the engine strikes: how much of an offer they take, and whether their ids can be told apart. */
module EngineDeals {
  import opened Types
  import opened Sequences
  import opened Order
  import opened Engine
  import opened EngineRuns

  // ---------------------------------------------------------------- who takes an offer

  predicate Registered(contracts: Contracts, ids: seq<string>) {
    forall i :: 0 <= i < |ids| ==> ids[i] in contracts
  }

  /** Of the contracts `ids`, those that accept the offer. */
  function Acceptors(hasExecutor: bool, contracts: Contracts, ids: seq<string>, offer: SupplyOffer, offerTxId: string): (r: seq<string>)
    requires Registered(contracts, ids)
  {
    if ids == [] then []
    else
      var n := |ids| - 1;
      var earlier := Acceptors(hasExecutor, contracts, ids[..n], offer, offerTxId);
      if Accepts(hasExecutor, contracts[ids[n]], offer, offerTxId) then earlier + [ids[n]] else earlier
  }

  lemma {:induction false} AcceptorsMembers(
    hasExecutor: bool, contracts: Contracts, ids: seq<string>, offer: SupplyOffer, offerTxId: string, id: string)
    requires Registered(contracts, ids)
    ensures id in Acceptors(hasExecutor, contracts, ids, offer, offerTxId)
       <==> id in ids && Accepts(hasExecutor, contracts[id], offer, offerTxId)
  {
    if ids == [] {
    } else {
      var n := |ids| - 1;
      AcceptorsMembers(hasExecutor, contracts, ids[..n], offer, offerTxId, id);
      assert ids == ids[..n] + [ids[n]];
    }
  }

  /** What the contract would take of the offer: all of it, or what its cap has left. */
  function Demand(c: Contract, offer: SupplyOffer): (r: nat) {
    var left := if c.quantityPurchased < c.def.conditions.maxQuantity then c.def.conditions.maxQuantity - c.quantityPurchased else 0;
    if offer.quantityAvailable < left then offer.quantityAvailable else left
  }

  function Demands(contracts: Contracts, names: seq<string>, offer: SupplyOffer): (r: seq<nat>)
    requires Registered(contracts, names)
  {
    seq(|names|, i requires 0 <= i < |names| => Demand(contracts[names[i]], offer))
  }

  // ---------------------------------------------------------------- one evaluation

  function Key(deal: (string, string)): (r: string) {
    deal.0 + ("-" + deal.1)
  }

  function TxIds(txs: seq<Transaction>): (r: seq<string>) {
    seq(|txs|, i requires 0 <= i < |txs| => txs[i].id)
  }

  function OrderQuantity(tx: Transaction): (r: Option<nat>) {
    if tx.kind.Order? then Some(tx.kind.order.quantity) else None
  }

  /** The quantity ordered by a list of transactions. */
  function TotalOrdered(txs: seq<Transaction>): (r: nat) {
    Sum(FilterMap(OrderQuantity, txs))
  }

  /** The ids two transactions of a deal carry. */
  function DealIds(deals: seq<(string, string)>): (r: seq<string>) {
    if deals == [] then []
    else
      var n := |deals| - 1;
      DealIds(deals[..n]) + ["po:" + Key(deals[n]), "exec:" + Key(deals[n])]
  }

  function DealsOf(names: seq<string>, offerTxId: string): (r: seq<(string, string)>) {
    seq(|names|, i requires 0 <= i < |names| => (names[i], offerTxId))
  }

  /** What one contract emits, in ids and in quantity. */
  lemma EmissionOfOne(hasExecutor: bool, c: Contract, offer: SupplyOffer, offerTxId: string, now: nat)
    requires WithinCap(c)
    ensures var emitted := EvaluateOne(hasExecutor, c, offer, offerTxId, now).emitted;
      && TxIds(emitted) == (if Accepts(hasExecutor, c, offer, offerTxId)
                            then ["po:" + Key((c.def.contractId, offerTxId)), "exec:" + Key((c.def.contractId, offerTxId))] else [])
      && TotalOrdered(emitted) == (if Accepts(hasExecutor, c, offer, offerTxId) then Demand(c, offer) else 0)
  {
    var emitted := EvaluateOne(hasExecutor, c, offer, offerTxId, now).emitted;
    EvaluateOneMeaning(hasExecutor, c, offer, offerTxId, now);
    if Accepts(hasExecutor, c, offer, offerTxId) {
      var order, execution, id := emitted[0], emitted[1], c.def.contractId;
      assert "po:" + id + "-" + offerTxId == "po:" + Key((id, offerTxId));
      assert "exec:" + id + "-" + offerTxId == "exec:" + Key((id, offerTxId));
      assert emitted == [order] + [execution];
      OneOrder(order, execution);
    }
  }

  lemma OneOrder(order: Transaction, execution: Transaction)
    requires order.kind.Order? && !execution.kind.Order?
    ensures TotalOrdered([order] + [execution]) == order.kind.order.quantity
  {
    FilterMapConcat(OrderQuantity, [order], [execution]);
    FilterMapOne(OrderQuantity, order);
    FilterMapOne(OrderQuantity, execution);
    var q := order.kind.order.quantity;
    assert [q] + [] == [q] && Sum([q][1..]) == 0;
  }

  lemma TotalConcat(xs: seq<Transaction>, ys: seq<Transaction>)
    ensures TotalOrdered(xs + ys) == TotalOrdered(xs) + TotalOrdered(ys)
    ensures TxIds(xs + ys) == TxIds(xs) + TxIds(ys)
  {
    FilterMapConcat(OrderQuantity, xs, ys);
    SumConcat(FilterMap(OrderQuantity, xs), FilterMap(OrderQuantity, ys));
  }

  lemma DealsPush(names: seq<string>, id: string, offerTxId: string)
    ensures DealIds(DealsOf(names + [id], offerTxId))
         == DealIds(DealsOf(names, offerTxId)) + ["po:" + Key((id, offerTxId)), "exec:" + Key((id, offerTxId))]
  {
    var more := DealsOf(names + [id], offerTxId);
    assert more[..|names|] == DealsOf(names, offerTxId) && more[|names|] == (id, offerTxId);
  }

  lemma DemandsPush(contracts: Contracts, names: seq<string>, id: string, offer: SupplyOffer)
    requires Registered(contracts, names + [id]) && Registered(contracts, names) && id in contracts
    ensures Sum(Demands(contracts, names + [id], offer)) == Sum(Demands(contracts, names, offer)) + Demand(contracts[id], offer)
  {
    var d := Demand(contracts[id], offer);
    assert Demands(contracts, names + [id], offer) == Demands(contracts, names, offer) + [d];
    SumConcat(Demands(contracts, names, offer), [d]);
    assert Sum([d]) == d + Sum([d][1..]);
  }

  /** The contracts' ids are theirs, and none is past its cap. */
  predicate WellKept(contracts: Contracts) {
    forall id :: id in contracts ==> WithinCap(contracts[id]) && contracts[id].def.contractId == id
  }

  /** An id that has not been evaluated yet is untouched. */
  lemma Untouched(
    hasExecutor: bool, contracts: Contracts, earlier: seq<string>, id: string, offer: SupplyOffer, offerTxId: string, now: nat)
    requires WellKept(contracts) && AscendingIds(earlier) && Registered(contracts, earlier) && id in contracts && id !in earlier
    ensures EvaluateAll(hasExecutor, contracts, earlier, offer, offerTxId, now).contracts[id] == contracts[id]
  {
    var names := EvaluateAllMeaning(hasExecutor, contracts, earlier, offer, offerTxId, now);
  }

  /** An evaluation strikes one deal per acceptor, in order, and orders exactly their demands. */
  lemma {:induction false} EvaluationDeals(
    hasExecutor: bool, contracts: Contracts, ids: seq<string>, offer: SupplyOffer, offerTxId: string, now: nat)
    requires WellKept(contracts) && AscendingIds(ids) && Registered(contracts, ids)
    ensures var g := EvaluateAll(hasExecutor, contracts, ids, offer, offerTxId, now).generated;
      var names := Acceptors(hasExecutor, contracts, ids, offer, offerTxId);
      && Registered(contracts, names)
      && TxIds(g) == DealIds(DealsOf(names, offerTxId))
      && TotalOrdered(g) == Sum(Demands(contracts, names, offer))
  {
    if ids == [] {
    } else {
      var n := |ids| - 1;
      var earlier, id := ids[..n], ids[n];
      EvaluationDeals(hasExecutor, contracts, earlier, offer, offerTxId, now);
      assert ids == earlier + [id];
      LastIsNew(earlier, id);
      Untouched(hasExecutor, contracts, earlier, id, offer, offerTxId, now);
      OneMoreDeal(hasExecutor, contracts, earlier, id, offer, offerTxId, now);
    }
  }

  lemma OneMoreDeal(
    hasExecutor: bool, contracts: Contracts, earlier: seq<string>, id: string, offer: SupplyOffer, offerTxId: string, now: nat)
    requires WellKept(contracts) && Registered(contracts, earlier) && id in contracts
    requires var e := EvaluateAll(hasExecutor, contracts, earlier, offer, offerTxId, now);
      var names := Acceptors(hasExecutor, contracts, earlier, offer, offerTxId);
      && Registered(contracts, names) && e.contracts[id] == contracts[id]
      && TxIds(e.generated) == DealIds(DealsOf(names, offerTxId))
      && TotalOrdered(e.generated) == Sum(Demands(contracts, names, offer))
    ensures var ids := earlier + [id];
      var g := EvaluateAll(hasExecutor, contracts, ids, offer, offerTxId, now).generated;
      var names := Acceptors(hasExecutor, contracts, ids, offer, offerTxId);
      && Registered(contracts, names)
      && TxIds(g) == DealIds(DealsOf(names, offerTxId))
      && TotalOrdered(g) == Sum(Demands(contracts, names, offer))
  {
    var ids, n := earlier + [id], |earlier|;
    assert ids[..n] == earlier && ids[..n + 1] == ids && ids[n] == id;
    var e := EvaluateAll(hasExecutor, contracts, earlier, offer, offerTxId, now);
    var names := Acceptors(hasExecutor, contracts, earlier, offer, offerTxId);
    EvaluateAllPush(hasExecutor, contracts, ids, n, offer, offerTxId, now);
    var emitted := EvaluateOne(hasExecutor, contracts[id], offer, offerTxId, now).emitted;
    TotalConcat(e.generated, emitted);
    EmissionOfOne(hasExecutor, contracts[id], offer, offerTxId, now);
    if Accepts(hasExecutor, contracts[id], offer, offerTxId) {
      DealsPush(names, id, offerTxId);
      DemandsPush(contracts, names, id, offer);
    } else {
      assert TxIds(e.generated) + [] == TxIds(e.generated);
    }
  }

  // ---------------------------------------------------------------- after any run

  lemma LiveIsWellKept(hasExecutor: bool, ops: seq<EngineOp>)
    requires forall i :: 0 <= i < |ops| ==> WordSized(ops[i])
    ensures WellKept(Live(hasExecutor, ops).contracts)
    ensures Registered(Live(hasExecutor, ops).contracts, SortedIds(Live(hasExecutor, ops).contracts.Keys))
  {
    EngineIsAccounted(hasExecutor, ops);
    var run := Live(hasExecutor, ops);
    forall id | id in run.contracts ensures WithinCap(run.contracts[id]) && run.contracts[id].def.contractId == id {
      assert BookedAt(run.contracts, run.generated, id);
    }
    var ids := SortedIds(run.contracts.Keys);
    forall i | 0 <= i < |ids| ensures ids[i] in run.contracts { assert ids[i] in ids; }
  }

  /** The acceptors of an offer in the state a run has reached, in id order. */
  function LiveAcceptors(hasExecutor: bool, contracts: Contracts, offer: SupplyOffer, offerTxId: string): (r: seq<string>)
    requires Registered(contracts, SortedIds(contracts.Keys))
  {
    Acceptors(hasExecutor, contracts, SortedIds(contracts.Keys), offer, offerTxId)
  }

  /**
   * Offers are not used up across contracts: after any run, what an evaluation orders in total stays
   * within the offer if and only if the acceptors' demands sum to no more than it.
   */
  lemma OfferOversoldIff(hasExecutor: bool, ops: seq<EngineOp>, offer: SupplyOffer, offerTxId: string, now: nat)
    requires forall i :: 0 <= i < |ops| ==> WordSized(ops[i])
    ensures var live := Live(hasExecutor, ops).contracts;
      && Registered(live, SortedIds(live.Keys))
      && var names := LiveAcceptors(hasExecutor, live, offer, offerTxId);
      && Registered(live, names)
      && (TotalOrdered(EngineStep(hasExecutor, live, Evaluate(offer, offerTxId, now)).generated) <= offer.quantityAvailable
          <==> Sum(Demands(live, names, offer)) <= offer.quantityAvailable)
  {
    LiveIsWellKept(hasExecutor, ops);
    var live := Live(hasExecutor, ops).contracts;
    EvaluationDeals(hasExecutor, live, SortedIds(live.Keys), offer, offerTxId, now);
  }

  lemma SumOfTwo(xs: seq<nat>, i: nat, j: nat)
    requires i < j < |xs|
    ensures Sum(xs) >= xs[i] + xs[j]
  {
    assert xs == xs[..j] + xs[j..];
    SumConcat(xs[..j], xs[j..]);
    assert xs[j..][0] == xs[j];
    assert xs[..j] == xs[..i] + xs[i..j];
    SumConcat(xs[..i], xs[i..j]);
    assert xs[i..j][0] == xs[i];
  }

  /** Two contracts registered one after the other. */
  lemma TwoRegistered(first: SmartContractDef, second: SmartContractDef)
    requires first.contractId != second.contractId
    ensures Live(false, [Register(first), Register(second)])
         == Evaluation(map[first.contractId := New(first), second.contractId := New(second)], [])
  {
    var one, two := [Register(first)], [Register(first), Register(second)];
    assert one[..0] == [] && two[..1] == one;
    assert Live(false, one) == Evaluation(map[first.contractId := New(first)], []);
  }

  /** A reachable oversale: two contracts with room for the whole offer are both sold all of it. */
  lemma OfferSoldTwice(first: SmartContractDef, second: SmartContractDef, offer: SupplyOffer, offerTxId: string, now: nat)
    requires first.contractId != second.contractId && offer.quantityAvailable > 0
    requires Accepts(false, New(first), offer, offerTxId) && Accepts(false, New(second), offer, offerTxId)
    requires offer.quantityAvailable <= first.conditions.maxQuantity < U64_LIMIT
    requires offer.quantityAvailable <= second.conditions.maxQuantity < U64_LIMIT
    ensures var live := Live(false, [Register(first), Register(second)]).contracts;
      TotalOrdered(EngineStep(false, live, Evaluate(offer, offerTxId, now)).generated) >= 2 * offer.quantityAvailable
  {
    var ops := [Register(first), Register(second)];
    TwoRegistered(first, second);
    assert WordSized(ops[0]) && WordSized(ops[1]);
    LiveIsWellKept(false, ops);
    var live := Live(false, ops).contracts;
    var ids := SortedIds(live.Keys);
    EvaluationDeals(false, live, ids, offer, offerTxId, now);
    var names := Acceptors(false, live, ids, offer, offerTxId);
    TwoAcceptors(live, names, first.contractId, second.contractId, offer) by {
      AcceptorsMembers(false, live, ids, offer, offerTxId, first.contractId);
      AcceptorsMembers(false, live, ids, offer, offerTxId, second.contractId);
    }
  }

  lemma TwoAcceptors(contracts: Contracts, names: seq<string>, a: string, b: string, offer: SupplyOffer)
    requires Registered(contracts, names) && a in names && b in names && a != b
    ensures Sum(Demands(contracts, names, offer)) >= Demand(contracts[a], offer) + Demand(contracts[b], offer)
  {
    var i :| 0 <= i < |names| && names[i] == a;
    var j :| 0 <= j < |names| && names[j] == b;
    var demands := Demands(contracts, names, offer);
    if i < j { SumOfTwo(demands, i, j); } else { SumOfTwo(demands, j, i); }
  }

  // ---------------------------------------------------------------- whether emitted ids can be told apart

  /** Every deal a run strikes, as contract id and offer id. */
  ghost function Deals(hasExecutor: bool, ops: seq<EngineOp>): (r: seq<(string, string)>)
    requires forall i :: 0 <= i < |ops| ==> WordSized(ops[i])
  {
    if ops == [] then []
    else
      var earlier, op := ops[..|ops| - 1], ops[|ops| - 1];
      LiveIsWellKept(hasExecutor, earlier);
      if op.Evaluate?
      then Deals(hasExecutor, earlier)
           + DealsOf(LiveAcceptors(hasExecutor, Live(hasExecutor, earlier).contracts, op.offer, op.offerTxId), op.offerTxId)
      else Deals(hasExecutor, earlier)
  }

  lemma {:induction false} DealIdsConcat(xs: seq<(string, string)>, ys: seq<(string, string)>)
    ensures DealIds(xs + ys) == DealIds(xs) + DealIds(ys)
    decreases |ys|
  {
    if ys == [] {
      assert xs + ys == xs;
    } else {
      var n := |ys| - 1;
      DealIdsConcat(xs, ys[..n]);
      assert (xs + ys)[..|xs + ys| - 1] == xs + ys[..n];
      ConcatAssociates(DealIds(xs), DealIds(ys[..n]), ["po:" + Key(ys[n]), "exec:" + Key(ys[n])]);
    }
  }

  /** The ids of everything a run emits are the ids of its deals. */
  lemma {:induction false} LiveIds(hasExecutor: bool, ops: seq<EngineOp>)
    requires forall i :: 0 <= i < |ops| ==> WordSized(ops[i])
    ensures TxIds(Live(hasExecutor, ops).generated) == DealIds(Deals(hasExecutor, ops))
  {
    if ops == [] {
    } else {
      var earlier, op := ops[..|ops| - 1], ops[|ops| - 1];
      LiveIds(hasExecutor, earlier);
      LiveIsWellKept(hasExecutor, earlier);
      var before := Live(hasExecutor, earlier);
      var step := EngineStep(hasExecutor, before.contracts, op);
      TotalConcat(before.generated, step.generated);
      if op.Evaluate? {
        EvaluationDeals(hasExecutor, before.contracts, SortedIds(before.contracts.Keys), op.offer, op.offerTxId, op.now);
        DealIdsConcat(Deals(hasExecutor, earlier),
                      DealsOf(LiveAcceptors(hasExecutor, before.contracts, op.offer, op.offerTxId), op.offerTxId));
      }
    }
  }

  function Keys(deals: seq<(string, string)>): (r: seq<string>) {
    seq(|deals|, i requires 0 <= i < |deals| => Key(deals[i]))
  }

  lemma PrefixesDiffer(a: string, b: string)
    ensures "po:" + a != "exec:" + b
    ensures "po:" + a == "po:" + b <==> a == b
    ensures "exec:" + a == "exec:" + b <==> a == b
  {
    assert ("po:" + a)[0] == 'p' && ("exec:" + b)[0] == 'e';
    assert ("po:" + a)[3..] == a && ("po:" + b)[3..] == b;
    assert ("exec:" + a)[5..] == a && ("exec:" + b)[5..] == b;
  }

  lemma {:induction false} IdsOfKey(deals: seq<(string, string)>, key: string)
    ensures "po:" + key in DealIds(deals) <==> key in Keys(deals)
    ensures "exec:" + key in DealIds(deals) <==> key in Keys(deals)
  {
    if deals == [] {
    } else {
      var n := |deals| - 1;
      IdsOfKey(deals[..n], key);
      PrefixesDiffer(key, Key(deals[n]));
      PrefixesDiffer(Key(deals[n]), key);
      assert Keys(deals) == Keys(deals[..n]) + [Key(deals[n])];
    }
  }

  lemma DistinctPush<T>(xs: seq<T>, x: T)
    ensures Distinct(xs + [x]) <==> Distinct(xs) && x !in xs
  {
    var both := xs + [x];
    assert both[|xs|] == x && forall i :: 0 <= i < |xs| ==> both[i] == xs[i];
    if x in xs {
      var i :| 0 <= i < |xs| && xs[i] == x;
      assert both[i] == both[|xs|];
    } else if !Distinct(xs) {
      var i, j :| 0 <= i < j < |xs| && xs[i] == xs[j];
      assert both[i] == both[j];
    }
  }

  lemma {:induction false} DealIdsDistinctIff(deals: seq<(string, string)>)
    ensures Distinct(DealIds(deals)) <==> Distinct(Keys(deals))
  {
    if deals == [] {
    } else {
      var n := |deals| - 1;
      var key, ids := Key(deals[n]), DealIds(deals[..n]);
      DealIdsDistinctIff(deals[..n]);
      IdsOfKey(deals[..n], key);
      PrefixesDiffer(key, key);
      assert Keys(deals) == Keys(deals[..n]) + [key];
      DistinctPush(Keys(deals[..n]), key);
      assert ids + ["po:" + key, "exec:" + key] == ids + ["po:" + key] + ["exec:" + key];
      DistinctPush(ids, "po:" + key);
      DistinctPush(ids + ["po:" + key], "exec:" + key);
    }
  }

  /** Over every run, emitted ids are distinct if and only if no two deals join to one key. */
  lemma EmittedIdsDistinctIff(hasExecutor: bool, ops: seq<EngineOp>)
    requires forall i :: 0 <= i < |ops| ==> WordSized(ops[i])
    ensures Distinct(TxIds(Live(hasExecutor, ops).generated)) <==> Distinct(Keys(Deals(hasExecutor, ops)))
  {
    LiveIds(hasExecutor, ops);
    DealIdsDistinctIff(Deals(hasExecutor, ops));
  }

  predicate DashFree(s: string) {
    '-' !in s
  }

  lemma {:induction false} SplitAtDash(a: string, x: string, b: string, y: string)
    requires DashFree(a) && DashFree(b) && Key((a, x)) == Key((b, y))
    ensures a == b && x == y
  {
    var p, q := Key((a, x)), Key((b, y));
    if a == [] || b == [] {
      assert p[0] == q[0];
      assert a == [] && b == [];
      assert p[1..] == x && q[1..] == y;
    } else {
      assert p[0] == a[0] && q[0] == b[0];
      assert p[1..] == Key((a[1..], x)) && q[1..] == Key((b[1..], y));
      SplitAtDash(a[1..], x, b[1..], y);
      assert a == [a[0]] + a[1..] && b == [b[0]] + b[1..];
    }
  }

  /** A dash at which the deal can be cut differently without emptying the offer id. */
  predicate Recuttable(deal: (string, string))
    requires deal.1 != ""
  {
    '-' in deal.0 || '-' in deal.1[..|deal.1| - 1]
  }

  lemma Recut(deal: (string, string)) returns (other: (string, string))
    requires deal.1 != "" && Recuttable(deal)
    ensures other.1 != "" && other != deal && Key(other) == Key(deal)
  {
    if '-' in deal.0 {
      var i :| 0 <= i < |deal.0| && deal.0[i] == '-';
      other := (deal.0[..i], deal.0[i + 1..] + ("-" + deal.1));
      assert |other.0| < |deal.0|;
    } else {
      var i :| 0 <= i < |deal.1| - 1 && deal.1[i] == '-';
      other := (deal.0 + ("-" + deal.1[..i]), deal.1[i + 1..]);
      assert |other.0| > |deal.0|;
    }
  }

  /** A dash of the key, short of its last character, is where the deal was joined, or a place to recut. */
  lemma DashPlaces(deal: (string, string), m: nat)
    requires deal.1 != "" && m < |Key(deal)| - 1 && Key(deal)[m] == '-'
    ensures m == |deal.0| || Recuttable(deal)
  {
    var n := |deal.0|;
    if m < n {
      assert Key(deal)[m] == deal.0[m];
    } else if n < m {
      assert Key(deal)[m] == deal.1[m - n - 1];
      assert deal.1[..|deal.1| - 1][m - n - 1] == '-';
    }
  }

  /** A deal that cannot be recut was joined one way. */
  lemma OneJoin(other: (string, string), deal: (string, string))
    requires deal.1 != "" && other.1 != "" && !Recuttable(deal) && Key(other) == Key(deal)
    ensures other == deal
  {
    var k, n, m := Key(deal), |deal.0|, |other.0|;
    assert k[m] == '-' by { assert Key(other)[m] == '-'; }
    assert |Key(other)| == m + 1 + |other.1|;
    DashPlaces(deal, m);
    assert deal.0 == k[..n] && deal.1 == k[n + 1..];
    assert other.0 == Key(other)[..m] && other.1 == Key(other)[m + 1..];
  }

  /** Among deals on named offers, one shares its key with another if and only if a dash stands in its contract id or before its offer id's last character. */
  lemma DealAmbiguousIff(deal: (string, string))
    requires deal.1 != ""
    ensures (exists other: (string, string) :: other.1 != "" && other != deal && Key(other) == Key(deal)) <==> Recuttable(deal)
  {
    if Recuttable(deal) {
      var other := Recut(deal);
    } else {
      forall other: (string, string) | other.1 != "" && Key(other) == Key(deal) ensures other == deal { OneJoin(other, deal); }
    }
  }

  /** With dash-free contract ids, emitted ids are distinct over a run if and only if no contract takes one offer id twice. */
  lemma DashFreeIdsDistinctIff(hasExecutor: bool, ops: seq<EngineOp>)
    requires forall i :: 0 <= i < |ops| ==> WordSized(ops[i])
    requires forall i :: 0 <= i < |Deals(hasExecutor, ops)| ==> DashFree(Deals(hasExecutor, ops)[i].0)
    ensures Distinct(TxIds(Live(hasExecutor, ops).generated)) <==> Distinct(Deals(hasExecutor, ops))
  {
    EmittedIdsDistinctIff(hasExecutor, ops);
    var deals := Deals(hasExecutor, ops);
    if !Distinct(Keys(deals)) {
      var i, j :| 0 <= i < j < |deals| && Keys(deals)[i] == Keys(deals)[j];
      SplitAtDash(deals[i].0, deals[i].1, deals[j].0, deals[j].1);
      assert deals[i] == deals[j];
    }
    if !Distinct(deals) {
      var i, j :| 0 <= i < j < |deals| && deals[i] == deals[j];
      assert Keys(deals)[i] == Keys(deals)[j];
    }
  }

  /** An acceptor's deal is among those of the run. */
  lemma AcceptorDeals(hasExecutor: bool, ops: seq<EngineOp>, offer: SupplyOffer, offerTxId: string, now: nat, id: string)
    requires forall i :: 0 <= i < |ops| ==> WordSized(ops[i])
    requires id in Live(hasExecutor, ops).contracts && Accepts(hasExecutor, Live(hasExecutor, ops).contracts[id], offer, offerTxId)
    ensures var longer := ops + [Evaluate(offer, offerTxId, now)];
      && (forall i :: 0 <= i < |longer| ==> WordSized(longer[i]))
      && |Deals(hasExecutor, longer)| > |Deals(hasExecutor, ops)| && Deals(hasExecutor, ops) <= Deals(hasExecutor, longer)
      && (id, offerTxId) in Deals(hasExecutor, longer)[|Deals(hasExecutor, ops)|..]
  {
    var longer := ops + [Evaluate(offer, offerTxId, now)];
    assert longer[..|ops|] == ops && longer[|longer| - 1] == Evaluate(offer, offerTxId, now);
    LiveIsWellKept(hasExecutor, ops);
    var live := Live(hasExecutor, ops).contracts;
    AcceptorsMembers(hasExecutor, live, SortedIds(live.Keys), offer, offerTxId, id);
    var names := LiveAcceptors(hasExecutor, live, offer, offerTxId);
    var i :| 0 <= i < |names| && names[i] == id;
    var deals := DealsOf(names, offerTxId);
    assert deals[i] == (id, offerTxId);
    assert Deals(hasExecutor, longer)[|Deals(hasExecutor, ops)|..] == deals;
  }

  /** An offer a contract does not accept, while it has budget, leaves it alone. */
  lemma DeclinedOfferKeeps(hasExecutor: bool, ops: seq<EngineOp>, offer: SupplyOffer, offerTxId: string, now: nat, id: string)
    requires forall i :: 0 <= i < |ops| ==> WordSized(ops[i])
    requires var live := Live(hasExecutor, ops).contracts;
      id in live && !Accepts(hasExecutor, live[id], offer, offerTxId)
      && live[id].quantityPurchased < live[id].def.conditions.maxQuantity
    ensures var after := Live(hasExecutor, ops + [Evaluate(offer, offerTxId, now)]).contracts;
      id in after && after[id] == Live(hasExecutor, ops).contracts[id]
  {
    var longer := ops + [Evaluate(offer, offerTxId, now)];
    assert longer[..|ops|] == ops;
    var names := EvaluationBuysExactly(hasExecutor, ops, offer, offerTxId, now);
  }

  /**
   * A reachable collision: contracts "x-y" and "x", offers "z" and "y-z".  Each contract takes one of the
   * offers, and the two deals carry the same ids.
   */
  lemma EmittedIdsCollide(
    first: SmartContractDef, second: SmartContractDef, one: SupplyOffer, two: SupplyOffer, y: string, z: string, now: nat)
    requires first.contractId == Key((second.contractId, y))
    requires first.conditions.maxQuantity < U64_LIMIT && second.conditions.maxQuantity < U64_LIMIT
    requires Accepts(false, New(first), one, z) && second.productId != one.productId
    requires Accepts(false, New(second), two, Key((y, z)))
    ensures !Distinct(TxIds(Live(false, [Register(first), Register(second), Evaluate(one, z, now), Evaluate(two, Key((y, z)), now)]).generated))
  {
    var registered, ops := [Register(first), Register(second)], [Register(first), Register(second), Evaluate(one, z, now)];
    var all := [Register(first), Register(second), Evaluate(one, z, now), Evaluate(two, Key((y, z)), now)];
    var x := second.contractId;
    assert |first.contractId| > |x|;
    TwoRegistered(first, second);
    assert ops == registered + [Evaluate(one, z, now)] && all == ops + [Evaluate(two, Key((y, z)), now)];
    assert forall i :: 0 <= i < |all| ==> WordSized(all[i]);
    AcceptorDeals(false, registered, one, z, now, first.contractId);
    DeclinedOfferKeeps(false, registered, one, z, now, x);
    AcceptorDeals(false, ops, two, Key((y, z)), now, x);
    CollidingDeals(Deals(false, ops), Deals(false, all), x, y, z);
    EmittedIdsDistinctIff(false, all);
  }

  lemma CollidingDeals(earlier: seq<(string, string)>, all: seq<(string, string)>, x: string, y: string, z: string)
    requires earlier <= all && (Key((x, y)), z) in earlier && (x, Key((y, z))) in all[|earlier|..]
    ensures !Distinct(Keys(all))
  {
    var i :| 0 <= i < |earlier| && earlier[i] == (Key((x, y)), z);
    var j :| 0 <= j < |all| - |earlier| && all[|earlier|..][j] == (x, Key((y, z)));
    assert all[i] == earlier[i] && all[|earlier| + j] == (x, Key((y, z)));
    assert Key((Key((x, y)), z)) == Key((x, Key((y, z))));
    assert Keys(all)[i] == Keys(all)[|earlier| + j];
  }
}
