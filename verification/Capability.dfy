/** The capability registry and the activation history replayed from blocks (capability.rs). */
module Capability {
  import opened Types
  import opened Sequences

  const STATE_COMMITMENT_CAPABILITY_ID := "state_commitment"

  /** The v1 registry: capability id to version. */
  const CAPABILITY_V1: map<string, nat> :=
    map["canonical_schema_v1" := 1, "state_commitment" := 1, "pdc" := 1, "endorsement" := 1, "bft_consensus" := 1]

  const GENESIS_CAPABILITIES: seq<string> := ["canonical_schema_v1", "state_commitment"]

  /** Capability id to the active (version, hash). */
  type CapabilitySet = map<string, (nat, string)>

  function GenesisSet(): (r: CapabilitySet) {
    map id | id in GENESIS_CAPABILITIES :: (CAPABILITY_V1[id], CapabilityDigest(id, CAPABILITY_V1[id]))
  }

  /** The activation names a registered capability by its registered version and hash. */
  predicate RegistryIdentity(a: CapabilityActivation) {
    && a.capabilityId in CAPABILITY_V1
    && a.version == CAPABILITY_V1[a.capabilityId]
    && a.hash == CapabilityDigest(a.capabilityId, a.version)
  }

  /** Everything `apply` asks of an activation apart from the history it joins. */
  predicate Activatable(a: CapabilityActivation, containing: nat) {
    RegistryIdentity(a) && a.activationHeight > containing && a.signatures != []
  }

  predicate Names(activations: seq<CapabilityActivation>, id: string) {
    exists i :: 0 <= i < |activations| && activations[i].capabilityId == id
  }

  /** `apply` accepts the activation. */
  predicate Admissible(activations: seq<CapabilityActivation>, a: CapabilityActivation, containing: nat) {
    Activatable(a, containing) && !Names(activations, a.capabilityId)
  }

  function EffectiveSet(activations: seq<CapabilityActivation>, height: nat): (r: CapabilitySet) {
    if activations == [] then GenesisSet()
    else
      var a := activations[|activations| - 1];
      var earlier := EffectiveSet(activations[..|activations| - 1], height);
      if a.activationHeight <= height then earlier[a.capabilityId := (a.version, a.hash)] else earlier
  }

  /** `validate_record_under` returns Ok. */
  predicate ValidRecordUnder(active: CapabilitySet, record: CanonicalRecord) {
    ValidRecord(record) && (record.schemaId == STATE_COMMITMENT_CAPABILITY_ID ==> STATE_COMMITMENT_CAPABILITY_ID in active)
  }

  /** The history after a replay step, which a rejected step leaves partly extended. */
  datatype Fold = Fold(activations: seq<CapabilityActivation>, ok: bool)

  function FoldTransactions(
    active: CapabilitySet, activations: seq<CapabilityActivation>, txs: seq<Transaction>, containing: nat
  ): (r: Fold)
    decreases |txs|
  {
    if txs == [] then Fold(activations, true)
    else match txs[0].kind
      case Record(record) =>
        if ValidRecordUnder(active, record) then FoldTransactions(active, activations, txs[1..], containing)
        else Fold(activations, false)
      case Activation(a) =>
        if Admissible(activations, a, containing)
        then FoldTransactions(active, activations + [a], txs[1..], containing)
        else Fold(activations, false)
      case _ => FoldTransactions(active, activations, txs[1..], containing)
  }

  function FoldBlock(activations: seq<CapabilityActivation>, block: Block): (r: Fold) {
    FoldTransactions(EffectiveSet(activations, block.index), activations, block.transactions, block.index)
  }

  /** How far a replay of `blocks[from..]` got, and the history it left. */
  datatype ChainFold = ChainFold(activations: seq<CapabilityActivation>, consumed: nat, ok: bool)

  function FoldChain(activations: seq<CapabilityActivation>, blocks: seq<Block>, from: nat): (r: ChainFold)
    decreases |blocks| - from
  {
    if from >= |blocks| then ChainFold(activations, from, true)
    else
      var f := FoldBlock(activations, blocks[from]);
      if f.ok then FoldChain(f.activations, blocks, from + 1) else ChainFold(f.activations, from, false)
  }

  /** `build_from_blocks`: the replay from genesis. */
  function Build(blocks: seq<Block>): (r: ChainFold) {
    FoldChain([], blocks, 0)
  }

  // ---------------------------------------------------------------- the replay step, characterised

  function ActivationOf(tx: Transaction): (r: Option<CapabilityActivation>) {
    if tx.kind.Activation? then Some(tx.kind.activation) else None
  }

  function CapabilityIdOf(tx: Transaction): (r: Option<string>) {
    if tx.kind.Activation? then Some(tx.kind.activation.capabilityId) else None
  }

  function ActivationsIn(txs: seq<Transaction>): (r: seq<CapabilityActivation>) {
    FilterMap(ActivationOf, txs)
  }

  function CapabilityIdsIn(txs: seq<Transaction>): (r: seq<string>) {
    FilterMap(CapabilityIdOf, txs)
  }

  /** A signed activation of a v1 capability, by its version and hash, at a height past the block's own. */
  predicate Switchable(a: CapabilityActivation, containing: nat) {
    && a.capabilityId in ["canonical_schema_v1", "state_commitment", "pdc", "endorsement", "bft_consensus"]
    && a.version == 1 && a.hash == CapabilityDigest(a.capabilityId, 1)
    && a.activationHeight > containing && a.signatures != []
  }

  /** What a single transaction must satisfy on its own. */
  predicate TransactionSound(active: CapabilitySet, tx: Transaction, containing: nat) {
    && (tx.kind.Record? ==>
          ValidRecord(tx.kind.record) && (tx.kind.record.schemaId == "state_commitment" ==> "state_commitment" in active))
    && (tx.kind.Activation? ==> Switchable(tx.kind.activation, containing))
  }

  /** The order-free reading of block acceptance. */
  predicate Acceptable(
    active: CapabilitySet, activations: seq<CapabilityActivation>, txs: seq<Transaction>, containing: nat)
  {
    && (forall tx :: tx in txs ==> TransactionSound(active, tx, containing))
    && Distinct(CapabilityIdsIn(txs))
    && forall i :: 0 <= i < |activations| ==> activations[i].capabilityId !in CapabilityIdsIn(txs)
  }

  lemma SwitchableIff(a: CapabilityActivation, containing: nat)
    ensures Activatable(a, containing) <==> Switchable(a, containing)
  {
  }

  /** The history holds none of the ids, said from either side. */
  lemma FreshIds(activations: seq<CapabilityActivation>, ids: seq<string>)
    ensures (forall i :: 0 <= i < |activations| ==> activations[i].capabilityId !in ids)
       <==> forall id :: id in ids ==> !Names(activations, id)
  {
  }

  lemma NamesPush(activations: seq<CapabilityActivation>, a: CapabilityActivation, id: string)
    ensures Names(activations + [a], id) <==> Names(activations, id) || id == a.capabilityId
  {
    var both := activations + [a];
    if Names(activations, id) {
      var i :| 0 <= i < |activations| && activations[i].capabilityId == id;
      assert both[i].capabilityId == id;
    }
    assert both[|activations|] == a;
  }

  lemma AcceptableHead(
    active: CapabilitySet, activations: seq<CapabilityActivation>, txs: seq<Transaction>, containing: nat)
    requires txs != [] && !txs[0].kind.Activation?
    ensures Acceptable(active, activations, txs, containing)
        <==> TransactionSound(active, txs[0], containing) && Acceptable(active, activations, txs[1..], containing)
  {
    assert txs == [txs[0]] + txs[1..];
    assert CapabilityIdsIn(txs) == CapabilityIdsIn(txs[1..]);
  }

  lemma AcceptableActivation(
    active: CapabilitySet, activations: seq<CapabilityActivation>, txs: seq<Transaction>, containing: nat)
    requires txs != [] && txs[0].kind.Activation?
    ensures Acceptable(active, activations, txs, containing)
        <==> && Admissible(activations, txs[0].kind.activation, containing)
             && Acceptable(active, activations + [txs[0].kind.activation], txs[1..], containing)
  {
    var a, rest := txs[0].kind.activation, txs[1..];
    var ids := CapabilityIdsIn(rest);
    assert txs == [txs[0]] + rest;
    assert CapabilityIdsIn(txs) == [a.capabilityId] + ids;
    DistinctHead(a.capabilityId, ids);
    SwitchableIff(a, containing);
    assert TransactionSound(active, txs[0], containing) == Activatable(a, containing);
    FreshIds(activations, CapabilityIdsIn(txs));
    FreshIds(activations + [a], ids);
    assert a.capabilityId in CapabilityIdsIn(txs);
    forall id ensures Names(activations + [a], id) <==> Names(activations, id) || id == a.capabilityId {
      NamesPush(activations, a, id);
    }
  }

  /**
   * Replaying a block succeeds exactly when it is acceptable in the order-free sense, and then appends
   * precisely the block's activations.
   */
  lemma {:induction false} FoldAcceptsAcceptable(
    active: CapabilitySet, activations: seq<CapabilityActivation>, txs: seq<Transaction>, containing: nat)
    ensures var f := FoldTransactions(active, activations, txs, containing);
      && f.ok == Acceptable(active, activations, txs, containing)
      && (f.ok ==> f.activations == activations + ActivationsIn(txs))
    decreases |txs|
  {
    if txs == [] {
      assert Acceptable(active, activations, txs, containing);
    } else if txs[0].kind.Activation? {
      var a := txs[0].kind.activation;
      FoldAcceptsAcceptable(active, activations + [a], txs[1..], containing);
      AcceptableActivation(active, activations, txs, containing);
      assert activations + [a] + ActivationsIn(txs[1..]) == activations + ([a] + ActivationsIn(txs[1..]));
    } else {
      FoldAcceptsAcceptable(active, activations, txs[1..], containing);
      AcceptableHead(active, activations, txs, containing);
      assert ActivationsIn(txs) == ActivationsIn(txs[1..]);
    }
  }

  /** Acceptance reads a block as a multiset of transactions. */
  lemma AcceptablePermutation(
    active: CapabilitySet, activations: seq<CapabilityActivation>, xs: seq<Transaction>, ys: seq<Transaction>, containing: nat)
    requires multiset(xs) == multiset(ys)
    ensures Acceptable(active, activations, xs, containing) == Acceptable(active, activations, ys, containing)
  {
    FilterMapPermutation(CapabilityIdOf, xs, ys);
    DistinctPermutation(CapabilityIdsIn(xs), CapabilityIdsIn(ys));
    assert forall tx :: tx in xs <==> tx in multiset(xs);
    assert forall tx :: tx in ys <==> tx in multiset(ys);
    assert forall id :: id in CapabilityIdsIn(xs) <==> id in multiset(CapabilityIdsIn(xs));
    assert forall id :: id in CapabilityIdsIn(ys) <==> id in multiset(CapabilityIdsIn(ys));
  }

  // ---------------------------------------------------------------- effective sets

  /** Every activation carries its registry identity. */
  predicate Conforming(activations: seq<CapabilityActivation>) {
    forall i :: 0 <= i < |activations| ==> RegistryIdentity(activations[i])
  }

  /** Every entry carries its registry version and hash. */
  predicate RegistryValued(active: CapabilitySet) {
    forall id :: id in active ==> id in CAPABILITY_V1 && active[id] == (CAPABILITY_V1[id], CapabilityDigest(id, CAPABILITY_V1[id]))
  }

  predicate ActiveBy(activations: seq<CapabilityActivation>, id: string, height: nat) {
    exists a :: a in activations && a.capabilityId == id && a.activationHeight <= height
  }

  lemma {:induction false} EffectiveSetMembers(activations: seq<CapabilityActivation>, height: nat, id: string)
    ensures id in EffectiveSet(activations, height) <==> id in GENESIS_CAPABILITIES || ActiveBy(activations, id, height)
  {
    if activations == [] {
    } else {
      var n := |activations| - 1;
      EffectiveSetMembers(activations[..n], height, id);
      assert activations == activations[..n] + [activations[n]];
    }
  }

  lemma {:induction false} EffectiveSetConforms(activations: seq<CapabilityActivation>, height: nat)
    requires Conforming(activations)
    ensures RegistryValued(EffectiveSet(activations, height))
  {
    if activations == [] {
      assert GENESIS_CAPABILITIES[0] in CAPABILITY_V1 && GENESIS_CAPABILITIES[1] in CAPABILITY_V1;
    } else {
      EffectiveSetConforms(activations[..|activations| - 1], height);
      assert RegistryIdentity(activations[|activations| - 1]);
    }
  }

  /** Two registry-valued sets over the same ids are the same set. */
  lemma RegistryValuedEqual(x: CapabilitySet, y: CapabilitySet)
    requires RegistryValued(x) && RegistryValued(y) && forall id :: id in x <==> id in y
    ensures x == y
  {
  }

  /** Activations of the future do not change the set effective now. */
  lemma {:induction false} FutureActivationsAreInert(
    activations: seq<CapabilityActivation>, extra: seq<CapabilityActivation>, height: nat)
    requires forall e :: e in extra ==> e.activationHeight > height
    ensures EffectiveSet(activations + extra, height) == EffectiveSet(activations, height)
  {
    if extra == [] {
      assert activations + extra == activations;
    } else {
      var n := |extra| - 1;
      FutureActivationsAreInert(activations, extra[..n], height);
      assert (activations + extra)[..|activations + extra| - 1] == activations + extra[..n];
      assert extra[n] in extra;
    }
  }

  // ---------------------------------------------------------------- what replay keeps

  /** What replay keeps of its history: registry identities, each capability at most once. */
  predicate WellFormed(activations: seq<CapabilityActivation>) {
    && Conforming(activations)
    && forall i, j :: 0 <= i < j < |activations| ==> activations[i].capabilityId != activations[j].capabilityId
  }

  /** A replay step, accepted or not, only appends activations that are future of the block. */
  lemma {:induction false} FoldAppendsFuture(
    active: CapabilitySet, activations: seq<CapabilityActivation>, txs: seq<Transaction>, containing: nat)
    returns (extra: seq<CapabilityActivation>)
    ensures FoldTransactions(active, activations, txs, containing).activations == activations + extra
    ensures forall e :: e in extra ==> e.activationHeight > containing
    ensures WellFormed(activations) ==> WellFormed(activations + extra)
    decreases |txs|
  {
    extra := [];
    assert activations + extra == activations;
    if txs == [] {
    } else {
      if txs[0].kind.Activation? {
        var a := txs[0].kind.activation;
        if Admissible(activations, a, containing) {
          var more := FoldAppendsFuture(active, activations + [a], txs[1..], containing);
          extra := [a] + more;
          assert activations + [a] + more == activations + extra;
        }
      } else if txs[0].kind.Record? ==> ValidRecordUnder(active, txs[0].kind.record) {
        extra := FoldAppendsFuture(active, activations, txs[1..], containing);
      }
    }
  }

  lemma {:induction false} FoldChainAppendsFuture(activations: seq<CapabilityActivation>, blocks: seq<Block>, from: nat, height: nat)
    returns (extra: seq<CapabilityActivation>)
    requires forall i :: from <= i < |blocks| ==> blocks[i].index >= height
    ensures FoldChain(activations, blocks, from).activations == activations + extra
    ensures forall e :: e in extra ==> e.activationHeight > height
    ensures WellFormed(activations) ==> WellFormed(activations + extra)
    decreases |blocks| - from
  {
    if from >= |blocks| {
      extra := [];
      assert activations + extra == activations;
    } else {
      var block := blocks[from];
      extra := FoldAppendsFuture(EffectiveSet(activations, block.index), activations, block.transactions, block.index);
      if FoldBlock(activations, block).ok {
        var more := FoldChainAppendsFuture(activations + extra, blocks, from + 1, height);
        assert activations + extra + more == activations + (extra + more);
        extra := extra + more;
      }
    }
  }

  /** Replaying a chain is replaying a prefix and then the rest. */
  lemma {:induction false} FoldChainSplit(activations: seq<CapabilityActivation>, blocks: seq<Block>, from: nat, mid: nat)
    requires from <= mid <= |blocks|
    ensures FoldChain(activations, blocks, from).ok ==> FoldChain(activations, blocks[..mid], from).ok
    ensures var prefix := FoldChain(activations, blocks[..mid], from);
      && (prefix.ok ==>
            && prefix.consumed == mid
            && FoldChain(activations, blocks, from) == FoldChain(prefix.activations, blocks, mid))
      && (!prefix.ok ==> FoldChain(activations, blocks, from) == prefix)
    decreases mid - from
  {
    if from < mid {
      assert blocks[..mid][from] == blocks[from];
      var f := FoldBlock(activations, blocks[from]);
      if f.ok { FoldChainSplit(f.activations, blocks, from + 1, mid); }
    }
  }

  /** Replay of an extended chain is one more step on the replay of the chain. */
  lemma BuildPush(blocks: seq<Block>, block: Block)
    ensures Build(blocks + [block]).ok <==> Build(blocks).ok && FoldBlock(Build(blocks).activations, block).ok
    ensures Build(blocks).ok ==> Build(blocks + [block]).activations == FoldBlock(Build(blocks).activations, block).activations
    ensures Build(blocks).ok ==> Build(blocks).consumed == |blocks|
  {
    var both := blocks + [block];
    FoldChainSplit([], both, 0, |blocks|);
    assert both[..|blocks|] == blocks;
    if Build(blocks).ok {
      var acts := Build(blocks).activations;
      assert both[|blocks|] == block;
      var f := FoldBlock(acts, block);
      assert FoldChain(f.activations, both, |both|) == ChainFold(f.activations, |both|, true);
    }
  }

  lemma BuildIsWellFormed(blocks: seq<Block>)
    ensures WellFormed(Build(blocks).activations)
  {
    var extra := FoldChainAppendsFuture([], blocks, 0, 0);
    assert [] + extra == extra;
  }

  // ---------------------------------------------------------------- main results

  predicate Consecutive(chain: seq<Block>) {
    forall i :: 0 <= i < |chain| ==> chain[i].index == chain[0].index + i
  }

  /**
   * Historical meaning is stable: in an accepted chain with consecutive indexes, the set effective at
   * height h is settled by the blocks below h; no block at h or later can change it.
   */
  lemma EffectiveSetIsSettled(chain: seq<Block>, n: nat, h: nat)
    requires Consecutive(chain) && Build(chain).ok
    requires n <= |chain| && (n < |chain| ==> chain[n].index >= h)
    ensures Build(chain[..n]).ok
    ensures EffectiveSet(Build(chain).activations, h) == EffectiveSet(Build(chain[..n]).activations, h)
  {
    FoldChainSplit([], chain, 0, n);
    var settled := Build(chain[..n]).activations;
    var extra := FoldChainAppendsFuture(settled, chain, n, h);
    FutureActivationsAreInert(settled, extra, h);
  }

  /** Replay after any valid extension judges block k under the very set it was first accepted under. */
  lemma ReplayJudgesUnderTheSameSet(chain: seq<Block>, extension: seq<Block>, k: nat)
    requires k < |chain|
    requires Consecutive(chain + extension) && Build(chain + extension).ok
    ensures EffectiveSet(Build(chain + extension).activations, chain[k].index)
         == EffectiveSet(Build(chain[..k]).activations, chain[k].index)
    ensures Acceptable(EffectiveSet(Build(chain + extension).activations, chain[k].index),
                       Build(chain[..k]).activations, chain[k].transactions, chain[k].index)
  {
    var whole := chain + extension;
    assert whole[..k] == chain[..k] && whole[k] == chain[k];
    EffectiveSetIsSettled(whole, k, chain[k].index);
    FoldChainSplit([], whole, 0, k);
    var settled := Build(chain[..k]).activations;
    FoldAcceptsAcceptable(EffectiveSet(settled, chain[k].index), settled, chain[k].transactions, chain[k].index);
  }

  /**
   * Transaction order inside a block does not matter: a block and any permutation of it are accepted
   * alike, and leave histories with equal effective sets at every height.
   */
  lemma OrderInsideBlockIsIrrelevant(activations: seq<CapabilityActivation>, block: Block, shuffled: Block)
    requires WellFormed(activations)
    requires shuffled.index == block.index && multiset(shuffled.transactions) == multiset(block.transactions)
    ensures FoldBlock(activations, block).ok == FoldBlock(activations, shuffled).ok
    ensures FoldBlock(activations, block).ok ==> forall h: nat ::
      EffectiveSet(FoldBlock(activations, block).activations, h) == EffectiveSet(FoldBlock(activations, shuffled).activations, h)
  {
    var active := EffectiveSet(activations, block.index);
    var xs, ys := block.transactions, shuffled.transactions;
    FoldAcceptsAcceptable(active, activations, xs, block.index);
    FoldAcceptsAcceptable(active, activations, ys, block.index);
    AcceptablePermutation(active, activations, xs, ys, block.index);
    FilterMapPermutation(ActivationOf, xs, ys);
    if FoldBlock(activations, block).ok {
      var p := FoldAppendsFuture(active, activations, xs, block.index);
      var q := FoldAppendsFuture(active, activations, ys, block.index);
      forall h: nat ensures EffectiveSet(activations + ActivationsIn(xs), h) == EffectiveSet(activations + ActivationsIn(ys), h) {
        SameActivationsSameSet(activations, ActivationsIn(xs), ActivationsIn(ys), h);
      }
    }
  }

  lemma SameActivationsSameSet(
    activations: seq<CapabilityActivation>, xs: seq<CapabilityActivation>, ys: seq<CapabilityActivation>, h: nat)
    requires WellFormed(activations + xs) && WellFormed(activations + ys) && multiset(xs) == multiset(ys)
    ensures EffectiveSet(activations + xs, h) == EffectiveSet(activations + ys, h)
  {
    assert forall a :: a in xs <==> a in multiset(xs);
    assert forall a :: a in ys <==> a in multiset(ys);
    assert forall a :: a in activations + xs <==> a in activations + ys;
    forall id ensures id in EffectiveSet(activations + xs, h) <==> id in EffectiveSet(activations + ys, h) {
      EffectiveSetMembers(activations + xs, h, id);
      EffectiveSetMembers(activations + ys, h, id);
    }
    EffectiveSetConforms(activations + xs, h);
    EffectiveSetConforms(activations + ys, h);
    RegistryValuedEqual(EffectiveSet(activations + xs, h), EffectiveSet(activations + ys, h));
  }

  /** Over every replay, effective sets carry registry identities and only grow with height. */
  lemma EffectiveSetsGrow(chain: seq<Block>, low: nat, high: nat, id: string)
    requires low <= high
    ensures var activations := Build(chain).activations;
      && RegistryValued(EffectiveSet(activations, low)) && RegistryValued(EffectiveSet(activations, high))
      && (id in EffectiveSet(activations, low) ==>
            && id in EffectiveSet(activations, high)
            && EffectiveSet(activations, high)[id] == EffectiveSet(activations, low)[id])
  {
    var activations := Build(chain).activations;
    BuildIsWellFormed(chain);
    EffectiveSetConforms(activations, low);
    EffectiveSetConforms(activations, high);
    EffectiveSetMembers(activations, low, id);
    EffectiveSetMembers(activations, high, id);
  }

  // ---------------------------------------------------------------- replay, read off the chain

  lemma StateCommitmentIsAlwaysActive(activations: seq<CapabilityActivation>, height: nat)
    ensures STATE_COMMITMENT_CAPABILITY_ID in EffectiveSet(activations, height)
  {
    EffectiveSetMembers(activations, height, STATE_COMMITMENT_CAPABILITY_ID);
    assert GENESIS_CAPABILITIES[1] == STATE_COMMITMENT_CAPABILITY_ID;
  }

  /** What a block at `height` demands of one of its transactions; records need nothing that is not active from genesis. */
  predicate Committable(tx: Transaction, height: nat) {
    && (tx.kind.Record? ==> ValidRecord(tx.kind.record))
    && (tx.kind.Activation? ==> Switchable(tx.kind.activation, height))
  }

  /** No two activations in the list are of one capability. */
  predicate ActivatesOnce(txs: seq<Transaction>) {
    forall i, j :: 0 <= i < j < |txs| && txs[i].kind.Activation? && txs[j].kind.Activation? ==>
      txs[i].kind.activation.capabilityId != txs[j].kind.activation.capabilityId
  }

  /** The blocks from `from` on replay, with no history in sight: each transaction is committable where it stands, and each capability is activated once. */
  predicate Replayable(chain: seq<Block>, from: nat) {
    && from <= |chain|
    && (forall k, tx :: from <= k < |chain| && tx in chain[k].transactions ==> Committable(tx, chain[k].index))
    && ActivatesOnce(Transactions(chain[from..]))
  }

  lemma ActivatesOnceIff(txs: seq<Transaction>)
    ensures ActivatesOnce(txs) <==> Distinct(CapabilityIdsIn(txs))
  {
    FilterMapDistinct(CapabilityIdOf, txs);
  }

  lemma {:induction false} ActivatedIds(txs: seq<Transaction>, id: string)
    ensures Names(ActivationsIn(txs), id) <==> id in CapabilityIdsIn(txs)
  {
    if txs == [] {
    } else {
      ActivatedIds(txs[1..], id);
      if txs[0].kind.Activation? {
        var a := txs[0].kind.activation;
        assert ActivationsIn(txs) == [a] + ActivationsIn(txs[1..]);
        NamesConcat([a], ActivationsIn(txs[1..]), id);
        assert Names([a], id) <==> id == a.capabilityId by { assert [a][0] == a; }
      } else {
        assert ActivationsIn(txs) == ActivationsIn(txs[1..]);
      }
    }
  }

  lemma NamesConcat(xs: seq<CapabilityActivation>, ys: seq<CapabilityActivation>, id: string)
    ensures Names(xs + ys, id) <==> Names(xs, id) || Names(ys, id)
  {
    var both := xs + ys;
    if Names(xs, id) {
      var i :| 0 <= i < |xs| && xs[i].capabilityId == id;
      assert both[i].capabilityId == id;
    }
    if Names(ys, id) {
      var i :| 0 <= i < |ys| && ys[i].capabilityId == id;
      assert both[|xs| + i].capabilityId == id;
    }
  }

  /** The ids are new: each once, and none of them in the history. */
  predicate Joins(activations: seq<CapabilityActivation>, ids: seq<string>) {
    Distinct(ids) && forall id :: id in ids ==> !Names(activations, id)
  }

  lemma BlockReplays(activations: seq<CapabilityActivation>, block: Block)
    ensures var f := FoldBlock(activations, block);
      && (f.ok <==> (forall tx :: tx in block.transactions ==> Committable(tx, block.index))
                    && Joins(activations, CapabilityIdsIn(block.transactions)))
      && (f.ok ==> f.activations == activations + ActivationsIn(block.transactions))
  {
    var active := EffectiveSet(activations, block.index);
    FoldAcceptsAcceptable(active, activations, block.transactions, block.index);
    FreshIds(activations, CapabilityIdsIn(block.transactions));
    StateCommitmentIsAlwaysActive(activations, block.index);
  }

  /** What joins in two lots joins at once. */
  lemma JoinsConcat(activations: seq<CapabilityActivation>, txs: seq<Transaction>, rest: seq<Transaction>)
    ensures Joins(activations, CapabilityIdsIn(txs + rest))
       <==> Joins(activations, CapabilityIdsIn(txs)) && Joins(activations + ActivationsIn(txs), CapabilityIdsIn(rest))
  {
    FilterMapConcat(CapabilityIdOf, txs, rest);
    DistinctConcat(CapabilityIdsIn(txs), CapabilityIdsIn(rest));
    forall id ensures Names(activations + ActivationsIn(txs), id) <==> Names(activations, id) || id in CapabilityIdsIn(txs) {
      NamesConcat(activations, ActivationsIn(txs), id);
      ActivatedIds(txs, id);
    }
  }

  lemma {:induction false} ReplayFrom(activations: seq<CapabilityActivation>, chain: seq<Block>, from: nat)
    requires from <= |chain|
    ensures var f, txs := FoldChain(activations, chain, from), Transactions(chain[from..]);
      && (f.ok <==> (forall k, tx :: from <= k < |chain| && tx in chain[k].transactions ==> Committable(tx, chain[k].index))
                    && Joins(activations, CapabilityIdsIn(txs)))
      && (f.ok ==> f.activations == activations + ActivationsIn(txs))
    decreases |chain| - from
  {
    if from == |chain| {
      assert activations + [] == activations;
    } else {
      var block, rest := chain[from], Transactions(chain[from + 1..]);
      SliceStep(chain, from);
      BlockReplays(activations, block);
      JoinsConcat(activations, block.transactions, rest);
      var f := FoldBlock(activations, block);
      if f.ok {
        ReplayFrom(f.activations, chain, from + 1);
        FilterMapConcat(ActivationOf, block.transactions, rest);
        ConcatAssociates(activations, ActivationsIn(block.transactions), ActivationsIn(rest));
      }
    }
  }

  /**
   * The replay from genesis, read off the chain: it succeeds exactly when every transaction is committable
   * in its block and each capability is activated once, and its history is then the chain's activations.
   */
  lemma ReplayMeaning(chain: seq<Block>)
    ensures Build(chain).ok <==> Replayable(chain, 0)
    ensures Build(chain).ok ==> Build(chain).activations == ActivationsIn(Transactions(chain))
  {
    ReplayFrom([], chain, 0);
    assert chain[0..] == chain;
    ActivatesOnceIff(Transactions(chain));
    assert [] + ActivationsIn(Transactions(chain)) == ActivationsIn(Transactions(chain));
  }

  /** What is active at a height of a replayed chain: the two genesis capabilities, and whatever the chain activates by then. */
  lemma ActiveMeaning(chain: seq<Block>, height: nat, id: string)
    requires Build(chain).ok
    ensures var active := EffectiveSet(Build(chain).activations, height);
      && (id in active <==> || id == "canonical_schema_v1" || id == "state_commitment"
                            || exists tx :: tx in Transactions(chain) && tx.kind.Activation?
                                 && tx.kind.activation.capabilityId == id && tx.kind.activation.activationHeight <= height)
      && (id in active ==> active[id] == (1, CapabilityDigest(id, 1)))
  {
    var activations, txs := Build(chain).activations, Transactions(chain);
    ReplayMeaning(chain);
    EffectiveSetMembers(activations, height, id);
    if a :| a in activations && a.capabilityId == id && a.activationHeight <= height {
      var tx := FilterMapOrigin(ActivationOf, txs, a);
    }
    if tx :| tx in txs && tx.kind.Activation? && tx.kind.activation.capabilityId == id && tx.kind.activation.activationHeight <= height {
      FilterMapMember(ActivationOf, txs, tx.kind.activation);
    }
    BuildIsWellFormed(chain);
    EffectiveSetConforms(activations, height);
  }

  lemma {:induction false} FirstRejection(
    active: CapabilitySet, activations: seq<CapabilityActivation>, txs: seq<Transaction>, containing: nat)
    returns (n: nat)
    requires !FoldTransactions(active, activations, txs, containing).ok
    ensures n < |txs| && !FoldTransactions(active, activations, txs[..n + 1], containing).ok
    ensures FoldTransactions(active, activations, txs[..n], containing)
         == Fold(FoldTransactions(active, activations, txs, containing).activations, true)
    decreases |txs|
  {
    if !FoldTransactions(active, activations, txs[..1], containing).ok {
      n := 0;
    } else {
      var more := if txs[0].kind.Activation? then activations + [txs[0].kind.activation] else activations;
      var m := FirstRejection(active, more, txs[1..], containing);
      n := m + 1;
      assert txs[..n][1..] == txs[1..][..m] && txs[..n + 1][1..] == txs[1..][..m + 1];
    }
  }

  /** A rejected step keeps the activations in front of the first transaction that makes the block unacceptable. */
  lemma RejectedStepKeeps(
    active: CapabilitySet, activations: seq<CapabilityActivation>, txs: seq<Transaction>, containing: nat)
    returns (n: nat)
    requires !FoldTransactions(active, activations, txs, containing).ok
    ensures n < |txs| && Acceptable(active, activations, txs[..n], containing) && !Acceptable(active, activations, txs[..n + 1], containing)
    ensures FoldTransactions(active, activations, txs, containing).activations == activations + ActivationsIn(txs[..n])
  {
    n := FirstRejection(active, activations, txs, containing);
    FoldAcceptsAcceptable(active, activations, txs[..n], containing);
    FoldAcceptsAcceptable(active, activations, txs[..n + 1], containing);
  }

  // ---------------------------------------------------------------- the mutable history

  class CapabilityHistory {
    var activations: seq<CapabilityActivation>

    constructor ()
      ensures activations == []
    {
      activations := [];
    }

    constructor Clone(other: CapabilityHistory)
      ensures activations == other.activations
    {
      activations := other.activations;
    }

    method EffectiveSetAt(height: nat) returns (active: CapabilitySet)
      ensures active == EffectiveSet(activations, height)
    {
      active := GenesisSet();
      for i := 0 to |activations|
        invariant active == EffectiveSet(activations[..i], height)
      {
        var a := activations[i];
        assert activations[..i + 1][..i] == activations[..i];
        if a.activationHeight <= height {
          active := active[a.capabilityId := (a.version, a.hash)];
        }
      }
      assert activations[..|activations|] == activations;
    }

    method Apply(a: CapabilityActivation, containing: nat) returns (outcome: Outcome)
      modifies this
      ensures outcome == if Admissible(old(activations), a, containing) then Ok else Err(InvalidTransaction)
      ensures activations == if outcome.Ok? then old(activations) + [a] else old(activations)
    {
      if a.capabilityId !in CAPABILITY_V1 {
        return Err(InvalidTransaction);
      }
      if a.version != CAPABILITY_V1[a.capabilityId] {
        return Err(InvalidTransaction);
      }
      if a.hash != CapabilityDigest(a.capabilityId, a.version) {
        return Err(InvalidTransaction);
      }
      if a.activationHeight <= containing {
        return Err(InvalidTransaction);
      }
      if Names(activations, a.capabilityId) {
        return Err(InvalidTransaction);
      }
      if a.signatures == [] {
        return Err(InvalidTransaction);
      }
      activations := activations + [a];
      return Ok;
    }

    /** The replay step; a rejected block may already have extended the history. */
    method ValidateBlock(block: Block) returns (outcome: Outcome)
      modifies this
      ensures activations == FoldBlock(old(activations), block).activations
      ensures outcome == if FoldBlock(old(activations), block).ok then Ok else Err(InvalidTransaction)
    {
      var active := EffectiveSetAt(block.index);
      var txs := block.transactions;
      for i := 0 to |txs|
        invariant FoldTransactions(active, activations, txs[i..], block.index)
               == FoldTransactions(active, old(activations), txs, block.index)
      {
        SliceStep(txs, i);
        match txs[i].kind {
          case Record(record) =>
            if !ValidRecordUnder(active, record) {
              return Err(InvalidTransaction);
            }
          case Activation(a) =>
            var applied := Apply(a, block.index);
            if applied.Err? {
              return applied;
            }
          case _ =>
        }
      }
      return Ok;
    }

    static method BuildFromBlocks(blocks: seq<Block>) returns (outcome: Outcome, history: CapabilityHistory)
      ensures fresh(history) && history.activations == Build(blocks).activations
      ensures outcome == if Build(blocks).ok then Ok else Err(InvalidTransaction)
    {
      history := new CapabilityHistory();
      for i := 0 to |blocks|
        invariant FoldChain(history.activations, blocks, i) == Build(blocks)
      {
        outcome := history.ValidateBlock(blocks[i]);
        if outcome.Err? {
          return;
        }
      }
      outcome := Ok;
    }
  }
}
