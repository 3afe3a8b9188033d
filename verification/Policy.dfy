/** Signature policies, their layers, and the policy history replayed from blocks (endorsement.rs). */
module Policy {
  import opened Types
  import opened Sequences

  const NETWORK_GOVERNANCE_PRINCIPAL := "network-governance"

  // ---------------------------------------------------------------- expressions

  /** `PolicyExpression::validate` returns Ok. */
  predicate ValidExpression(e: PolicyExpression) {
    match e
    case SignedBy(principal) => principal != ""
    case NOutOf(required, rules) =>
      rules != [] && 1 <= required <= |rules| && forall rule :: rule in rules ==> ValidExpression(rule)
  }

  predicate Evaluate(e: PolicyExpression, principals: set<string>)
    decreases e, 1
  {
    match e
    case SignedBy(principal) => principal in principals
    case NOutOf(required, rules) => rules != [] && required != 0 && Satisfied(rules, principals) >= required
  }

  /** The number of sub-rules that hold. */
  function Satisfied(rules: seq<PolicyExpression>, principals: set<string>): (count: nat)
    ensures count <= |rules|
    decreases rules, 0
  {
    if rules == [] then 0
    else (if Evaluate(rules[0], principals) then 1 else 0) + Satisfied(rules[1..], principals)
  }

  /** The principals an expression names. */
  function Leaves(e: PolicyExpression): (r: set<string>) {
    match e
    case SignedBy(principal) => {principal}
    case NOutOf(_, rules) => set rule, leaf | rule in rules && leaf in Leaves(rule) :: leaf
  }

  /** `part` stands somewhere in `e`. */
  predicate Contains(e: PolicyExpression, part: PolicyExpression) {
    part == e || (e.NOutOf? && exists rule :: rule in e.rules && Contains(rule, part))
  }

  /** Every name in the expression is non-empty and every threshold can be met. */
  ghost predicate WellBuilt(e: PolicyExpression) {
    forall part :: Contains(e, part) ==>
      (part.SignedBy? ==> part.principal != "") && (part.NOutOf? ==> 1 <= part.required <= |part.rules|)
  }

  /** Validation accepts exactly the expressions that are well built at every depth. */
  lemma {:induction false} ValidExpressionIff(e: PolicyExpression)
    ensures ValidExpression(e) <==> WellBuilt(e)
  {
    assert Contains(e, e);
    if e.NOutOf? {
      forall rule | rule in e.rules
        ensures ValidExpression(rule) <==> WellBuilt(rule)
        ensures forall part :: Contains(rule, part) ==> Contains(e, part)
      {
        ValidExpressionIff(rule);
      }
    }
  }

  /** Nobody's signature satisfies nothing, validated or not. */
  lemma {:induction false} NothingSatisfiesNothing(e: PolicyExpression)
    ensures !Evaluate(e, {})
    decreases e, 1
  {
    if e.NOutOf? { NoneSatisfied(e.rules); }
  }

  lemma {:induction false} NoneSatisfied(rules: seq<PolicyExpression>)
    ensures Satisfied(rules, {}) == 0
    decreases rules, 0
  {
    if rules == [] {
    } else {
      NothingSatisfiesNothing(rules[0]);
      NoneSatisfied(rules[1..]);
    }
  }

  /** A valid expression is achievable: all its leaves together satisfy it. */
  lemma {:induction false} LeavesSuffice(e: PolicyExpression, principals: set<string>)
    requires ValidExpression(e) && Leaves(e) <= principals
    ensures Evaluate(e, principals)
    decreases e, 1
  {
    if e.NOutOf? {
      forall rule | rule in e.rules ensures Leaves(rule) <= principals {
        assert forall leaf :: leaf in Leaves(rule) ==> leaf in Leaves(e);
      }
      AllSatisfied(e.rules, principals);
    }
  }

  lemma {:induction false} AllSatisfied(rules: seq<PolicyExpression>, principals: set<string>)
    requires forall rule :: rule in rules ==> ValidExpression(rule) && Leaves(rule) <= principals
    ensures Satisfied(rules, principals) == |rules|
    decreases rules, 0
  {
    if rules == [] {
    } else {
      LeavesSuffice(rules[0], principals);
      AllSatisfied(rules[1..], principals);
    }
  }

  /** More principals never falsify a satisfied expression. */
  lemma {:induction false} EvaluateMonotone(e: PolicyExpression, fewer: set<string>, more: set<string>)
    requires fewer <= more && Evaluate(e, fewer)
    ensures Evaluate(e, more)
    decreases e, 1
  {
    if e.NOutOf? { SatisfiedMonotone(e.rules, fewer, more); }
  }

  lemma {:induction false} SatisfiedMonotone(rules: seq<PolicyExpression>, fewer: set<string>, more: set<string>)
    requires fewer <= more
    ensures Satisfied(rules, fewer) <= Satisfied(rules, more)
    decreases rules, 0
  {
    if rules == [] {
    } else {
      if Evaluate(rules[0], fewer) { EvaluateMonotone(rules[0], fewer, more); }
      SatisfiedMonotone(rules[1..], fewer, more);
    }
  }

  /** The sub-rules at position `from` or later that hold. */
  function Holding(rules: seq<PolicyExpression>, principals: set<string>, from: nat): (r: set<nat>) {
    set i: nat | from <= i < |rules| && Evaluate(rules[i], principals)
  }

  lemma {:induction false} SatisfiedCounts(rules: seq<PolicyExpression>, principals: set<string>, from: nat)
    requires from <= |rules|
    ensures Satisfied(rules[from..], principals) == |Holding(rules, principals, from)|
    decreases |rules| - from
  {
    if from == |rules| {
      assert Holding(rules, principals, from) == {};
    } else {
      SatisfiedCounts(rules, principals, from + 1);
      SliceStep(rules, from);
      var rest := Holding(rules, principals, from + 1);
      assert Holding(rules, principals, from) == if Evaluate(rules[from], principals) then rest + {from} else rest;
    }
  }

  /** A signature rule is true of its signer; an n-out-of rule exactly when n is positive and n of its sub-rules hold. */
  lemma EvaluateMeaning(required: nat, rules: seq<PolicyExpression>, principals: set<string>)
    ensures forall principal :: Evaluate(SignedBy(principal), principals) <==> principal in principals
    ensures Evaluate(NOutOf(required, rules), principals) <==> 0 < required <= |Holding(rules, principals, 0)|
  {
    SatisfiedCounts(rules, principals, 0);
    assert rules[0..] == rules;
  }

  /** Only the principals an expression names can decide it. */
  lemma {:induction false} OutsidersAreIrrelevant(e: PolicyExpression, these: set<string>, those: set<string>)
    requires forall leaf :: leaf in Leaves(e) ==> (leaf in these <==> leaf in those)
    ensures Evaluate(e, these) == Evaluate(e, those)
    decreases e, 1
  {
    if e.NOutOf? {
      forall rule, leaf | rule in e.rules && leaf in Leaves(rule) ensures leaf in these <==> leaf in those {
        assert leaf in Leaves(e);
      }
      SameSatisfied(e.rules, these, those);
    }
  }

  lemma {:induction false} SameSatisfied(rules: seq<PolicyExpression>, these: set<string>, those: set<string>)
    requires forall rule, leaf :: rule in rules && leaf in Leaves(rule) ==> (leaf in these <==> leaf in those)
    ensures Satisfied(rules, these) == Satisfied(rules, those)
    decreases rules, 0
  {
    if rules == [] {
    } else {
      OutsidersAreIrrelevant(rules[0], these, those);
      SameSatisfied(rules[1..], these, those);
    }
  }

  // ---------------------------------------------------------------- layers

  /** The first key-level policy for `key` at position `from` or later. */
  function FindKeyPolicy(policies: seq<KeyPolicy>, key: string, from: nat): (r: Option<PolicyExpression>)
    ensures r.None? ==> forall j :: from <= j < |policies| ==> policies[j].key != key
    ensures r.Some? ==>
      exists i :: from <= i < |policies| && policies[i] == KeyPolicy(key, r.value) && forall j :: from <= j < i ==> policies[j].key != key
    decreases |policies| - from
  {
    if from >= |policies| then None
    else if policies[from].key == key then Some(policies[from].policy)
    else FindKeyPolicy(policies, key, from + 1)
  }

  function KeyPolicyFor(policies: seq<KeyPolicy>, key: string): (r: Option<PolicyExpression>) {
    FindKeyPolicy(policies, key, 0)
  }

  function Layer(policy: Option<PolicyExpression>): (r: seq<PolicyExpression>) {
    if policy.Some? then [policy.value] else []
  }

  function KeyLayers(policies: seq<KeyPolicy>, keys: seq<string>): (r: seq<PolicyExpression>) {
    if keys == [] then [] else Layer(KeyPolicyFor(policies, keys[0])) + KeyLayers(policies, keys[1..])
  }

  /** Every layer that applies to `target`, channel default first. */
  function Applicable(p: ScopedPolicies, target: ScopedTarget): (r: seq<PolicyExpression>) {
    [p.channelDefault] + Layer(p.contractDefault)
    + (if target.collection.Some? then Layer(p.collectionPolicy) else [])
    + KeyLayers(p.keyPolicies, target.keys)
  }

  lemma {:induction false} KeyLayersComplete(policies: seq<KeyPolicy>, keys: seq<string>, key: string)
    requires key in keys && KeyPolicyFor(policies, key).Some?
    ensures KeyPolicyFor(policies, key).value in KeyLayers(policies, keys)
  {
    if keys[0] != key {
      assert keys == [keys[0]] + keys[1..];
      KeyLayersComplete(policies, keys[1..], key);
    }
  }

  lemma {:induction false} KeyLayersSound(policies: seq<KeyPolicy>, keys: seq<string>, layer: PolicyExpression) returns (key: string)
    requires layer in KeyLayers(policies, keys)
    ensures key in keys && KeyPolicyFor(policies, key) == Some(layer)
  {
    key := keys[0];
    if KeyPolicyFor(policies, key) != Some(layer) {
      key := KeyLayersSound(policies, keys[1..], layer);
    }
  }

  /** Every layer that applies is one of the layers of the set. */
  predicate Included(p: ScopedPolicies, layer: PolicyExpression) {
    || layer == p.channelDefault
    || p.contractDefault == Some(layer)
    || p.collectionPolicy == Some(layer)
    || exists i :: 0 <= i < |p.keyPolicies| && p.keyPolicies[i].policy == layer
  }

  lemma {:induction false} KeyLayersIncluded(p: ScopedPolicies, keys: seq<string>, layer: PolicyExpression)
    requires layer in KeyLayers(p.keyPolicies, keys)
    ensures Included(p, layer)
  {
    if layer !in Layer(KeyPolicyFor(p.keyPolicies, keys[0])) {
      KeyLayersIncluded(p, keys[1..], layer);
    }
  }

  /** `ScopedPolicies::validate` returns Ok. */
  predicate ValidPolicies(p: ScopedPolicies) {
    && ValidExpression(p.channelDefault)
    && (p.contractDefault.Some? ==> ValidExpression(p.contractDefault.value))
    && (p.collectionPolicy.Some? ==> ValidExpression(p.collectionPolicy.value))
    && forall i :: 0 <= i < |p.keyPolicies| ==> p.keyPolicies[i].key != "" && ValidExpression(p.keyPolicies[i].policy)
  }

  /** Validation accepts exactly the policy sets whose every layer is well built and whose key policies name a key. */
  lemma ValidPoliciesIff(p: ScopedPolicies)
    ensures ValidPolicies(p)
       <==> (forall layer :: Included(p, layer) ==> WellBuilt(layer)) && forall i :: 0 <= i < |p.keyPolicies| ==> p.keyPolicies[i].key != ""
  {
    forall layer ensures ValidExpression(layer) <==> WellBuilt(layer) { ValidExpressionIff(layer); }
    assert Included(p, p.channelDefault);
    assert p.contractDefault.Some? ==> Included(p, p.contractDefault.value);
    assert p.collectionPolicy.Some? ==> Included(p, p.collectionPolicy.value);
    assert forall i :: 0 <= i < |p.keyPolicies| ==> Included(p, p.keyPolicies[i].policy);
  }

  /** Precedence: the channel default, then the contract's, then the collection's where one is targeted, then the keys' in target order. */
  lemma LayersInOrder(p: ScopedPolicies, target: ScopedTarget, fewer: seq<string>, key: string)
    ensures var none := target.(keys := []);
      && Applicable(p, none)[0] == p.channelDefault
      && Applicable(p, none)[1..]
         == (if p.contractDefault.Some? then [p.contractDefault.value] else [])
          + (if target.collection.Some? && p.collectionPolicy.Some? then [p.collectionPolicy.value] else [])
    ensures var found := KeyPolicyFor(p.keyPolicies, key);
      Applicable(p, target.(keys := fewer + [key]))
      == Applicable(p, target.(keys := fewer)) + (if found.Some? then [found.value] else [])
  {
    KeyLayersPush(p.keyPolicies, fewer, key);
  }

  lemma {:induction false} KeyLayersPush(policies: seq<KeyPolicy>, keys: seq<string>, key: string)
    ensures KeyLayers(policies, keys + [key]) == KeyLayers(policies, keys) + Layer(KeyPolicyFor(policies, key))
  {
    if keys == [] {
      assert [key][1..] == [];
    } else {
      KeyLayersPush(policies, keys[1..], key);
      assert (keys + [key])[1..] == keys[1..] + [key] && (keys + [key])[0] == keys[0];
      ConcatAssociates(Layer(KeyPolicyFor(policies, keys[0])), KeyLayers(policies, keys[1..]), Layer(KeyPolicyFor(policies, key)));
    }
  }

  method ComputeApplicable(p: ScopedPolicies, target: ScopedTarget) returns (policies: seq<PolicyExpression>)
    ensures policies == Applicable(p, target)
  {
    policies := [p.channelDefault];
    if p.contractDefault.Some? {
      policies := policies + [p.contractDefault.value];
    }
    if target.collection.Some? {
      if p.collectionPolicy.Some? {
        policies := policies + [p.collectionPolicy.value];
      }
    }
    ghost var base := policies;
    var keys := target.keys;
    for i := 0 to |keys|
      invariant policies + KeyLayers(p.keyPolicies, keys[i..]) == base + KeyLayers(p.keyPolicies, keys)
    {
      SliceStep(keys, i);
      ghost var before := policies;
      var found := KeyPolicyFor(p.keyPolicies, keys[i]);
      if found.Some? {
        policies := policies + [found.value];
      }
      assert policies == before + Layer(found);
      ConcatAssociates(before, Layer(found), KeyLayers(p.keyPolicies, keys[i + 1..]));
    }
    assert policies + [] == policies;
  }

  // ---------------------------------------------------------------- history

  /** The latest update for exactly this scope. */
  function LastUpdate(updates: seq<PolicyUpdate>, channel: string, contract: string): (r: Option<PolicyUpdate>)
    ensures r.None? ==> forall u :: u in updates ==> u.channel != channel || u.contract != contract
    ensures r.Some? ==> r.value.channel == channel && r.value.contract == contract
    ensures r.Some? ==>
      exists k :: 0 <= k < |updates| && updates[k] == r.value
        && forall j :: k < j < |updates| ==> updates[j].channel != channel || updates[j].contract != contract
  {
    if updates == [] then None
    else
      var u := updates[|updates| - 1];
      if u.channel == channel && u.contract == contract then Some(u)
      else LastUpdate(updates[..|updates| - 1], channel, contract)
  }

  function DefaultPolicies(): (r: ScopedPolicies) {
    ScopedPolicies(SignedBy(NETWORK_GOVERNANCE_PRINCIPAL), None, None, [])
  }

  /** The latest exact update, else the latest channel-wide one, else the fail-closed default. */
  function PoliciesFor(updates: seq<PolicyUpdate>, channel: string, contract: string): (r: ScopedPolicies) {
    var exact := LastUpdate(updates, channel, contract);
    var channelWide := LastUpdate(updates, channel, "");
    if exact.Some? then exact.value.policies
    else if channelWide.Some? then channelWide.value.policies
    else DefaultPolicies()
  }

  predicate ValidUpdate(u: PolicyUpdate) {
    u.channel != "" && ValidPolicies(u.policies)
  }

  datatype PolicyFold = PolicyFold(updates: seq<PolicyUpdate>, ok: bool)

  function ApplyAll(updates: seq<PolicyUpdate>, pending: seq<PolicyUpdate>): (r: PolicyFold)
    decreases |pending|
  {
    if pending == [] then PolicyFold(updates, true)
    else if ValidUpdate(pending[0]) then ApplyAll(updates + [pending[0]], pending[1..])
    else PolicyFold(updates, false)
  }

  type Scope = (string, string, string)

  function UpdateOf(tx: Transaction): (r: Option<PolicyUpdate>) {
    if tx.kind.Policy? then Some(tx.kind.update) else None
  }

  /** The scoped keys an update names a key-level policy for. */
  function KeysNamed(u: PolicyUpdate): (r: seq<Scope>) {
    seq(|u.policies.keyPolicies|, i requires 0 <= i < |u.policies.keyPolicies| =>
      (u.channel, u.contract, u.policies.keyPolicies[i].key))
  }

  function KeysNamedBy(tx: Transaction): (r: seq<Scope>) {
    if tx.kind.Policy? then KeysNamed(tx.kind.update) else []
  }

  function ChangedKeys(txs: seq<Transaction>): (r: seq<Scope>) {
    if txs == [] then [] else KeysNamedBy(txs[0]) + ChangedKeys(txs[1..])
  }

  function DeclaredKeys(endorsements: seq<TransactionEndorsement>): (r: seq<Scope>) {
    if endorsements == [] then []
    else
      var t := endorsements[0].target;
      seq(|t.keys|, i requires 0 <= i < |t.keys| => (t.channel, t.contract, t.keys[i])) + DeclaredKeys(endorsements[1..])
  }

  /** The keys declared by transactions other than policy updates. */
  function TargetedKeys(txs: seq<Transaction>): (r: seq<Scope>) {
    if txs == [] then []
    else (if txs[0].kind.Policy? then [] else DeclaredKeys(txs[0].endorsements)) + TargetedKeys(txs[1..])
  }

  function WrittenKeys(block: Block): (r: seq<Scope>) {
    seq(|block.writeSet|, i requires 0 <= i < |block.writeSet| =>
      (block.writeSet[i].channel, block.writeSet[i].contract, block.writeSet[i].key))
    + TargetedKeys(block.transactions)
  }

  /** Some key is both named by a policy update and written in the block. */
  predicate SameBlockConflict(block: Block) {
    exists i :: 0 <= i < |WrittenKeys(block)| && WrittenKeys(block)[i] in ChangedKeys(block.transactions)
  }

  function FoldPolicies(updates: seq<PolicyUpdate>, block: Block): (r: PolicyFold) {
    if SameBlockConflict(block) then PolicyFold(updates, false)
    else ApplyAll(updates, FilterMap(UpdateOf, block.transactions))
  }

  function FoldPolicyChain(updates: seq<PolicyUpdate>, blocks: seq<Block>, from: nat): (r: PolicyFold)
    decreases |blocks| - from
  {
    if from >= |blocks| then PolicyFold(updates, true)
    else
      var f := FoldPolicies(updates, blocks[from]);
      if f.ok then FoldPolicyChain(f.updates, blocks, from + 1) else f
  }

  /** `PolicyHistory::build_from_blocks`. */
  function BuildPolicies(blocks: seq<Block>): (r: PolicyFold) {
    FoldPolicyChain([], blocks, 0)
  }

  // ---------------------------------------------------------------- main results

  predicate AllValid(updates: seq<PolicyUpdate>) {
    forall i :: 0 <= i < |updates| ==> ValidUpdate(updates[i])
  }

  lemma {:induction false} ApplyAllKeepsValid(updates: seq<PolicyUpdate>, pending: seq<PolicyUpdate>)
    requires AllValid(updates)
    ensures AllValid(ApplyAll(updates, pending).updates)
    decreases |pending|
  {
    if pending != [] && ValidUpdate(pending[0]) {
      ApplyAllKeepsValid(updates + [pending[0]], pending[1..]);
    }
  }

  lemma {:induction false} ReplayKeepsValid(updates: seq<PolicyUpdate>, blocks: seq<Block>, from: nat)
    requires AllValid(updates)
    ensures AllValid(FoldPolicyChain(updates, blocks, from).updates)
    decreases |blocks| - from
  {
    if from < |blocks| {
      ApplyAllKeepsValid(updates, FilterMap(UpdateOf, blocks[from].transactions));
      var f := FoldPolicies(updates, blocks[from]);
      if f.ok { ReplayKeepsValid(f.updates, blocks, from + 1); }
    }
  }

  /** Policy replay of a chain is replay of a prefix and then the rest. */
  lemma {:induction false} FoldPolicyChainSplit(updates: seq<PolicyUpdate>, blocks: seq<Block>, from: nat, mid: nat)
    requires from <= mid <= |blocks|
    ensures var prefix := FoldPolicyChain(updates, blocks[..mid], from);
      FoldPolicyChain(updates, blocks, from)
      == if prefix.ok then FoldPolicyChain(prefix.updates, blocks, mid) else prefix
    decreases mid - from
  {
    if from < mid {
      assert blocks[..mid][from] == blocks[from];
      var f := FoldPolicies(updates, blocks[from]);
      if f.ok { FoldPolicyChainSplit(f.updates, blocks, from + 1, mid); }
    }
  }

  lemma BuildPoliciesPush(blocks: seq<Block>, block: Block)
    ensures BuildPolicies(blocks + [block]).ok
       <==> BuildPolicies(blocks).ok && FoldPolicies(BuildPolicies(blocks).updates, block).ok
  {
    var both := blocks + [block];
    FoldPolicyChainSplit([], both, 0, |blocks|);
    assert both[..|blocks|] == blocks;
    if BuildPolicies(blocks).ok {
      assert both[|blocks|] == block;
      var f := FoldPolicies(BuildPolicies(blocks).updates, block);
      assert FoldPolicyChain(f.updates, both, |both|) == PolicyFold(f.updates, true);
    }
  }

  /** The update speaks for exactly this scope. */
  predicate Targets(u: PolicyUpdate, channel: string, contract: string) {
    u.channel == channel && u.contract == contract
  }

  /**
   * What committing one more update changes: its own scope, and those scopes of its channel that have
   * no policy of their own when it is channel-wide; every other scope keeps its policies.  Before any
   * update, governance alone is asked.
   */
  lemma UpdateGovernsItsScope(updates: seq<PolicyUpdate>, u: PolicyUpdate, channel: string, contract: string)
    ensures PoliciesFor([], channel, contract) == ScopedPolicies(SignedBy("network-governance"), None, None, [])
    ensures PoliciesFor(updates + [u], channel, contract)
         == if Targets(u, channel, contract) then u.policies
            else if Targets(u, channel, "") && (forall v :: v in updates ==> !Targets(v, channel, contract)) then u.policies
            else PoliciesFor(updates, channel, contract)
  {
    var more := updates + [u];
    assert more[..|updates|] == updates && more[|more| - 1] == u;
    assert LastUpdate(more, channel, contract)
        == if Targets(u, channel, contract) then Some(u) else LastUpdate(updates, channel, contract);
    assert LastUpdate(more, channel, "") == if Targets(u, channel, "") then Some(u) else LastUpdate(updates, channel, "");
    var exact := LastUpdate(updates, channel, contract);
    if exact.Some? { assert exact.value in updates && Targets(exact.value, channel, contract); }
  }

  /** A layer that cannot be satisfied by nobody, can be satisfied, and is monotone. */
  ghost predicate FailClosedLayer(layer: PolicyExpression) {
    && ValidExpression(layer)
    && !Evaluate(layer, {})
    && (forall principals: set<string> :: Leaves(layer) <= principals ==> Evaluate(layer, principals))
    && forall fewer: set<string>, more: set<string> :: fewer <= more && Evaluate(layer, fewer) ==> Evaluate(layer, more)
  }

  lemma ValidLayerFailsClosed(layer: PolicyExpression)
    requires ValidExpression(layer)
    ensures FailClosedLayer(layer)
  {
    NothingSatisfiesNothing(layer);
    forall principals: set<string> | Leaves(layer) <= principals ensures Evaluate(layer, principals) {
      LeavesSuffice(layer, principals);
    }
    forall fewer: set<string>, more: set<string> | fewer <= more && Evaluate(layer, fewer) ensures Evaluate(layer, more) {
      EvaluateMonotone(layer, fewer, more);
    }
  }

  lemma ApplicableIncluded(p: ScopedPolicies, target: ScopedTarget, layer: PolicyExpression)
    requires layer in Applicable(p, target)
    ensures Included(p, layer)
  {
    if layer in KeyLayers(p.keyPolicies, target.keys) {
      KeyLayersIncluded(p, target.keys, layer);
    }
  }

  /**
   * Fail-closed over every replay: whatever blocks were replayed and whatever the scope, the effective
   * policy set is valid, some layer applies, and every layer that applies fails closed.
   */
  lemma PoliciesFailClosed(blocks: seq<Block>, target: ScopedTarget)
    ensures var policies := PoliciesFor(BuildPolicies(blocks).updates, target.channel, target.contract);
      && ValidPolicies(policies)
      && Applicable(policies, target) != []
      && forall layer :: layer in Applicable(policies, target) ==> FailClosedLayer(layer)
  {
    ReplayKeepsValid([], blocks, 0);
    var updates := BuildPolicies(blocks).updates;
    var policies := PoliciesFor(updates, target.channel, target.contract);
    assert ValidPolicies(policies);
    forall layer | layer in Applicable(policies, target) ensures FailClosedLayer(layer) {
      ApplicableIncluded(policies, target, layer);
      ValidLayerFailsClosed(layer);
    }
  }

  lemma {:induction false} ApplyAllAccepts(updates: seq<PolicyUpdate>, pending: seq<PolicyUpdate>)
    ensures ApplyAll(updates, pending).ok <==> AllValid(pending)
    ensures AllValid(pending) ==> ApplyAll(updates, pending).updates == updates + pending
    decreases |pending|
  {
    if pending == [] {
      assert updates + pending == updates;
    } else {
      assert pending == [pending[0]] + pending[1..];
      assert AllValid(pending) <==> ValidUpdate(pending[0]) && AllValid(pending[1..]);
      ApplyAllAccepts(updates + [pending[0]], pending[1..]);
      ConcatAssociates(updates, [pending[0]], pending[1..]);
    }
  }

  lemma {:induction false} ChangedKeysAreNamed(txs: seq<Transaction>, channel: string, contract: string, key: string)
    ensures (channel, contract, key) in ChangedKeys(txs)
       <==> exists tx :: tx in txs && tx.kind.Policy? && tx.kind.update.channel == channel && tx.kind.update.contract == contract
                      && exists i :: 0 <= i < |tx.kind.update.policies.keyPolicies| && tx.kind.update.policies.keyPolicies[i].key == key
  {
    if txs == [] {
    } else {
      ChangedKeysAreNamed(txs[1..], channel, contract, key);
      assert txs == [txs[0]] + txs[1..];
      if txs[0].kind.Policy? {
        var update := txs[0].kind.update;
        assert forall i :: 0 <= i < |KeysNamed(update)| ==>
          KeysNamed(update)[i] == (update.channel, update.contract, update.policies.keyPolicies[i].key);
      }
    }
  }

  /** The block writes the key: in its write set, or by a carrier of a transaction that is not a policy update. */
  predicate Writes(block: Block, channel: string, contract: string, key: string) {
    || (exists w :: w in block.writeSet && w.channel == channel && w.contract == contract && w.key == key)
    || (exists tx, e :: tx in block.transactions && !tx.kind.Policy? && e in tx.endorsements
          && e.target.channel == channel && e.target.contract == contract && key in e.target.keys)
  }

  lemma {:induction false} DeclaredKeysAre(endorsements: seq<TransactionEndorsement>, channel: string, contract: string, key: string)
    ensures (channel, contract, key) in DeclaredKeys(endorsements)
       <==> exists e :: e in endorsements && e.target.channel == channel && e.target.contract == contract && key in e.target.keys
  {
    if endorsements == [] {
    } else {
      var t := endorsements[0].target;
      DeclaredKeysAre(endorsements[1..], channel, contract, key);
      assert endorsements == [endorsements[0]] + endorsements[1..];
      var first := seq(|t.keys|, i requires 0 <= i < |t.keys| => (t.channel, t.contract, t.keys[i]));
      assert forall i :: 0 <= i < |t.keys| ==> first[i] == (t.channel, t.contract, t.keys[i]);
      assert DeclaredKeys(endorsements) == first + DeclaredKeys(endorsements[1..]);
    }
  }

  lemma {:induction false} TargetedKeysAre(txs: seq<Transaction>, channel: string, contract: string, key: string)
    ensures (channel, contract, key) in TargetedKeys(txs)
       <==> exists tx :: tx in txs && !tx.kind.Policy? && (channel, contract, key) in DeclaredKeys(tx.endorsements)
  {
    if txs == [] {
    } else {
      TargetedKeysAre(txs[1..], channel, contract, key);
      assert txs == [txs[0]] + txs[1..];
    }
  }

  lemma WrittenKeysAre(block: Block, channel: string, contract: string, key: string)
    ensures (channel, contract, key) in WrittenKeys(block) <==> Writes(block, channel, contract, key)
  {
    var ws := block.writeSet;
    var direct := seq(|ws|, i requires 0 <= i < |ws| => (ws[i].channel, ws[i].contract, ws[i].key));
    assert forall i :: 0 <= i < |ws| ==> direct[i] == (ws[i].channel, ws[i].contract, ws[i].key);
    assert WrittenKeys(block) == direct + TargetedKeys(block.transactions);
    TargetedKeysAre(block.transactions, channel, contract, key);
    forall tx | tx in block.transactions
      ensures (channel, contract, key) in DeclaredKeys(tx.endorsements)
         <==> exists e :: e in tx.endorsements && e.target.channel == channel && e.target.contract == contract && key in e.target.keys
    {
      DeclaredKeysAre(tx.endorsements, channel, contract, key);
    }
  }

  /** The update names its channel, and its policy set is well built. */
  ghost predicate SoundUpdate(u: PolicyUpdate) {
    && u.channel != ""
    && (forall layer :: Included(u.policies, layer) ==> WellBuilt(layer))
    && forall i :: 0 <= i < |u.policies.keyPolicies| ==> u.policies.keyPolicies[i].key != ""
  }

  /** All updates of the block are sound, and none carries a key-level policy for a key of its own scope that the block writes. */
  ghost predicate PolicySound(block: Block) {
    forall tx :: tx in block.transactions && tx.kind.Policy? ==>
      var u := tx.kind.update;
      && SoundUpdate(u)
      && forall i :: 0 <= i < |u.policies.keyPolicies| ==> !Writes(block, u.channel, u.contract, u.policies.keyPolicies[i].key)
  }

  lemma ValidUpdateIff(u: PolicyUpdate)
    ensures ValidUpdate(u) <==> SoundUpdate(u)
  {
    ValidPoliciesIff(u.policies);
  }

  lemma PendingValidIff(txs: seq<Transaction>)
    ensures AllValid(FilterMap(UpdateOf, txs)) <==> forall tx :: tx in txs && tx.kind.Policy? ==> SoundUpdate(tx.kind.update)
  {
    var pending := FilterMap(UpdateOf, txs);
    forall u ensures ValidUpdate(u) <==> SoundUpdate(u) { ValidUpdateIff(u); }
    forall tx | tx in txs && tx.kind.Policy? ensures tx.kind.update in pending {
      FilterMapMember(UpdateOf, txs, tx.kind.update);
    }
    forall i | 0 <= i < |pending| ensures exists tx :: tx in txs && tx.kind.Policy? && tx.kind.update == pending[i] {
      var tx := FilterMapOrigin(UpdateOf, txs, pending[i]);
    }
  }

  lemma ConflictIff(block: Block)
    ensures SameBlockConflict(block)
       <==> exists tx, i :: tx in block.transactions && tx.kind.Policy? && 0 <= i < |tx.kind.update.policies.keyPolicies|
              && Writes(block, tx.kind.update.channel, tx.kind.update.contract, tx.kind.update.policies.keyPolicies[i].key)
  {
    var written, changed := WrittenKeys(block), ChangedKeys(block.transactions);
    if i :| 0 <= i < |written| && written[i] in changed {
      var s := written[i];
      ChangedKeysAreNamed(block.transactions, s.0, s.1, s.2);
      WrittenKeysAre(block, s.0, s.1, s.2);
    }
    if tx, i :| tx in block.transactions && tx.kind.Policy? && 0 <= i < |tx.kind.update.policies.keyPolicies|
              && Writes(block, tx.kind.update.channel, tx.kind.update.contract, tx.kind.update.policies.keyPolicies[i].key) {
      var u := tx.kind.update;
      var key := u.policies.keyPolicies[i].key;
      ChangedKeysAreNamed(block.transactions, u.channel, u.contract, key);
      WrittenKeysAre(block, u.channel, u.contract, key);
    }
  }

  /**
   * A block replays exactly when all its updates are sound and none names a key of its own scope that the
   * block writes; replaying then appends all its updates in order.
   */
  lemma PolicyReplayAccepts(updates: seq<PolicyUpdate>, block: Block)
    ensures FoldPolicies(updates, block).ok <==> PolicySound(block)
    ensures FoldPolicies(updates, block).ok ==> FoldPolicies(updates, block).updates == updates + FilterMap(UpdateOf, block.transactions)
  {
    ApplyAllAccepts(updates, FilterMap(UpdateOf, block.transactions));
    PendingValidIff(block.transactions);
    ConflictIff(block);
  }

  /** A rejected block keeps the updates in front of its first unsound one, or none of them if it names a key it writes. */
  lemma RejectedPoliciesKeep(updates: seq<PolicyUpdate>, block: Block) returns (n: nat)
    requires !FoldPolicies(updates, block).ok
    ensures var pending := FilterMap(UpdateOf, block.transactions);
      && n <= |pending| && FoldPolicies(updates, block).updates == updates + pending[..n]
      && (n > 0 ==> !SameBlockConflict(block))
      && (!SameBlockConflict(block) ==> n < |pending| && AllValid(pending[..n]) && !SoundUpdate(pending[n]))
  {
    var pending := FilterMap(UpdateOf, block.transactions);
    n := 0;
    assert updates + pending[..0] == updates;
    if !SameBlockConflict(block) {
      n := FirstInvalid(updates, pending);
      ValidUpdateIff(pending[n]);
    }
  }

  lemma {:induction false} FirstInvalid(updates: seq<PolicyUpdate>, pending: seq<PolicyUpdate>) returns (n: nat)
    requires !ApplyAll(updates, pending).ok
    ensures n < |pending| && AllValid(pending[..n]) && !ValidUpdate(pending[n])
    ensures ApplyAll(updates, pending).updates == updates + pending[..n]
    decreases |pending|
  {
    if ValidUpdate(pending[0]) {
      var m := FirstInvalid(updates + [pending[0]], pending[1..]);
      n := m + 1;
      assert pending[..n] == [pending[0]] + pending[1..][..m];
      ConcatAssociates(updates, [pending[0]], pending[1..][..m]);
    } else {
      n := 0;
      assert updates + pending[..0] == updates;
    }
  }

  lemma {:induction false} PoliciesFrom(updates: seq<PolicyUpdate>, chain: seq<Block>, from: nat)
    requires from <= |chain|
    ensures var f := FoldPolicyChain(updates, chain, from);
      && (f.ok <==> forall k :: from <= k < |chain| ==> PolicySound(chain[k]))
      && (f.ok ==> f.updates == updates + FilterMap(UpdateOf, Transactions(chain[from..])))
    decreases |chain| - from
  {
    if from == |chain| {
      assert updates + [] == updates;
    } else {
      var block, rest := chain[from], Transactions(chain[from + 1..]);
      SliceStep(chain, from);
      PolicyReplayAccepts(updates, block);
      var f := FoldPolicies(updates, block);
      if f.ok {
        PoliciesFrom(f.updates, chain, from + 1);
        FilterMapConcat(UpdateOf, block.transactions, rest);
        ConcatAssociates(updates, FilterMap(UpdateOf, block.transactions), FilterMap(UpdateOf, rest));
      }
    }
  }

  /** The policies of a chain replay exactly when each of its blocks is sound on its own, and are then all its updates in order. */
  lemma PoliciesMeaning(chain: seq<Block>)
    ensures BuildPolicies(chain).ok <==> forall k :: 0 <= k < |chain| ==> PolicySound(chain[k])
    ensures BuildPolicies(chain).ok ==> BuildPolicies(chain).updates == FilterMap(UpdateOf, Transactions(chain))
  {
    PoliciesFrom([], chain, 0);
    assert chain[0..] == chain;
    assert [] + FilterMap(UpdateOf, Transactions(chain)) == FilterMap(UpdateOf, Transactions(chain));
  }

  // ---------------------------------------------------------------- the same-block rule

  lemma {:induction false} LastUpdateConcat(xs: seq<PolicyUpdate>, ys: seq<PolicyUpdate>, channel: string, contract: string)
    ensures LastUpdate(xs + ys, channel, contract)
         == if LastUpdate(ys, channel, contract).Some? then LastUpdate(ys, channel, contract) else LastUpdate(xs, channel, contract)
    decreases |ys|
  {
    if ys == [] {
      assert xs + ys == xs;
    } else {
      var n := |ys| - 1;
      LastUpdateConcat(xs, ys[..n], channel, contract);
      assert (xs + ys)[..|xs + ys| - 1] == xs + ys[..n];
    }
  }

  /** The update of a block that ends up governing a scope: the last for exactly it, or the last channel-wide one if it has none of its own. */
  function Governing(updates: seq<PolicyUpdate>, pending: seq<PolicyUpdate>, channel: string, contract: string): (r: Option<PolicyUpdate>) {
    var exact := LastUpdate(pending, channel, contract);
    if exact.Some? then exact
    else if LastUpdate(updates, channel, contract).Some? then None
    else LastUpdate(pending, channel, "")
  }

  /** What a whole block of updates does to a scope. */
  lemma BlockGoverns(updates: seq<PolicyUpdate>, pending: seq<PolicyUpdate>, channel: string, contract: string)
    ensures var u := Governing(updates, pending, channel, contract);
      PoliciesFor(updates + pending, channel, contract)
      == if u.Some? then u.value.policies else PoliciesFor(updates, channel, contract)
  {
    LastUpdateConcat(updates, pending, channel, contract);
    LastUpdateConcat(updates, pending, channel, "");
  }

  /** The key-level policy in force for a scoped key. */
  function KeyRule(updates: seq<PolicyUpdate>, scope: Scope): (r: Option<PolicyExpression>) {
    KeyPolicyFor(PoliciesFor(updates, scope.0, scope.1).keyPolicies, scope.2)
  }

  /**
   * The block's updates leave the key's policy as it was: none governs the key's scope, or the one that
   * does is for exactly that scope and the key had no policy, or it is channel-wide and says the same.
   */
  predicate Undisturbed(updates: seq<PolicyUpdate>, pending: seq<PolicyUpdate>, scope: Scope) {
    var u := Governing(updates, pending, scope.0, scope.1);
    u.Some? ==>
      KeyRule(updates, scope) == if u.value.contract == scope.1 then None else KeyPolicyFor(u.value.policies.keyPolicies, scope.2)
  }

  /** The rule as documented: the block changes the policy of no key it writes. */
  predicate KeepsSameBlockRule(updates: seq<PolicyUpdate>, block: Block) {
    forall i :: 0 <= i < |WrittenKeys(block)| ==>
      KeyRule(FoldPolicies(updates, block).updates, WrittenKeys(block)[i]) == KeyRule(updates, WrittenKeys(block)[i])
  }

  lemma SoundUpdateSkipsWritten(block: Block, u: PolicyUpdate, scope: Scope)
    requires PolicySound(block) && u in FilterMap(UpdateOf, block.transactions)
    requires Targets(u, scope.0, scope.1) && scope in WrittenKeys(block)
    ensures KeyPolicyFor(u.policies.keyPolicies, scope.2).None?
  {
    var tx := FilterMapOrigin(UpdateOf, block.transactions, u);
    WrittenKeysAre(block, scope.0, scope.1, scope.2);
  }

  lemma WrittenKeyKeptIff(updates: seq<PolicyUpdate>, block: Block, i: nat)
    requires FoldPolicies(updates, block).ok && i < |WrittenKeys(block)|
    ensures var scope := WrittenKeys(block)[i];
      KeyRule(FoldPolicies(updates, block).updates, scope) == KeyRule(updates, scope)
      <==> Undisturbed(updates, FilterMap(UpdateOf, block.transactions), scope)
  {
    var scope, pending := WrittenKeys(block)[i], FilterMap(UpdateOf, block.transactions);
    PolicyReplayAccepts(updates, block);
    BlockGoverns(updates, pending, scope.0, scope.1);
    var u := Governing(updates, pending, scope.0, scope.1);
    if u.Some? && u.value.contract == scope.1 {
      assert u.value in pending;
      SoundUpdateSkipsWritten(block, u.value, scope);
    }
  }

  /** An accepted block keeps the documented rule if and only if its updates leave each key it writes undisturbed. */
  lemma SameBlockRuleIff(updates: seq<PolicyUpdate>, block: Block)
    requires FoldPolicies(updates, block).ok
    ensures KeepsSameBlockRule(updates, block)
       <==> forall i :: 0 <= i < |WrittenKeys(block)| ==>
              Undisturbed(updates, FilterMap(UpdateOf, block.transactions), WrittenKeys(block)[i])
  {
    forall i | 0 <= i < |WrittenKeys(block)|
      ensures var scope := WrittenKeys(block)[i];
        KeyRule(FoldPolicies(updates, block).updates, scope) == KeyRule(updates, scope)
        <==> Undisturbed(updates, FilterMap(UpdateOf, block.transactions), scope)
    {
      WrittenKeyKeptIff(updates, block, i);
    }
  }

  function KeyUpdate(channel: string, contract: string, policies: seq<KeyPolicy>): (r: PolicyUpdate) {
    PolicyUpdate(channel, contract, DefaultPolicies().(keyPolicies := policies))
  }

  /** A block that commits one update and writes one key. */
  function UpdateAndWrite(u: PolicyUpdate, scope: Scope): (r: Block) {
    Block(1, 0, [Transaction("u", 0, TransactionKind.Policy(u), [])],
          [PersistentWrite(scope.0, scope.1, scope.2, Delete, Public)], "", 0, "", None)
  }

  lemma OneKey(key: string, rule: PolicyExpression)
    ensures KeyPolicyFor([KeyPolicy(key, rule)], key) == Some(rule) && KeyPolicyFor([], key) == None
  {
    assert [KeyPolicy(key, rule)][0].key == key;
  }

  lemma OneUpdate(updates: seq<PolicyUpdate>, u: PolicyUpdate, scope: Scope)
    requires ValidUpdate(u) && (Targets(u, scope.0, scope.1) ==> KeyPolicyFor(u.policies.keyPolicies, scope.2).None?)
    ensures FoldPolicies(updates, UpdateAndWrite(u, scope)) == PolicyFold(updates + [u], true)
    ensures WrittenKeys(UpdateAndWrite(u, scope)) == [scope]
  {
    var block := UpdateAndWrite(u, scope);
    var tx := block.transactions[0];
    assert block.transactions[1..] == [];
    FilterMapOne(UpdateOf, tx);
    assert TargetedKeys(block.transactions) == [];
    assert WrittenKeys(block) == [scope];
    forall i | 0 <= i < |u.policies.keyPolicies| ensures !Writes(block, u.channel, u.contract, u.policies.keyPolicies[i].key) {
      WrittenKeysAre(block, u.channel, u.contract, u.policies.keyPolicies[i].key);
    }
    ValidUpdateIff(u);
    PolicyReplayAccepts(updates, block);
  }

  /** An accepted block that writes a key and clears its policy by leaving it out. */
  lemma ClearingByOmissionIsAccepted(scope: Scope, rule: PolicyExpression)
    requires scope.0 != "" && scope.2 != "" && ValidExpression(rule)
    ensures var before := [KeyUpdate(scope.0, scope.1, [KeyPolicy(scope.2, rule)])];
      var block := UpdateAndWrite(KeyUpdate(scope.0, scope.1, []), scope);
      && AllValid(before) && FoldPolicies(before, block).ok && WrittenKeys(block) == [scope]
      && KeyRule(before, scope) == Some(rule) && KeyRule(FoldPolicies(before, block).updates, scope) == None
  {
    var past, u := KeyUpdate(scope.0, scope.1, [KeyPolicy(scope.2, rule)]), KeyUpdate(scope.0, scope.1, []);
    OneKey(scope.2, rule);
    OneUpdate([past], u, scope);
    UpdateGovernsItsScope([], past, scope.0, scope.1);
    UpdateGovernsItsScope([past], u, scope.0, scope.1);
    assert [] + [past] == [past];
  }

  /** An accepted block that writes a key and gives it a policy through a channel-wide update. */
  lemma ChannelWideChangeIsAccepted(scope: Scope, rule: PolicyExpression)
    requires scope.0 != "" && scope.1 != "" && scope.2 != "" && ValidExpression(rule)
    ensures var block := UpdateAndWrite(KeyUpdate(scope.0, "", [KeyPolicy(scope.2, rule)]), scope);
      && FoldPolicies([], block).ok && WrittenKeys(block) == [scope]
      && KeyRule([], scope) == None && KeyRule(FoldPolicies([], block).updates, scope) == Some(rule)
  {
    var u := KeyUpdate(scope.0, "", [KeyPolicy(scope.2, rule)]);
    OneKey(scope.2, rule);
    OneUpdate([], u, scope);
    UpdateGovernsItsScope([], u, scope.0, scope.1);
  }

  // ---------------------------------------------------------------- collecting a block's updates

  lemma PendingPush(txs: seq<Transaction>, i: nat)
    requires i < |txs|
    ensures FilterMap(UpdateOf, txs[..i + 1])
         == if txs[i].kind.Policy? then FilterMap(UpdateOf, txs[..i]) + [txs[i].kind.update] else FilterMap(UpdateOf, txs[..i])
  {
    assert txs[..i + 1] == txs[..i] + [txs[i]];
    FilterMapConcat(UpdateOf, txs[..i], [txs[i]]);
    FilterMapOne(UpdateOf, txs[i]);
    assert FilterMap(UpdateOf, txs[..i]) + [] == FilterMap(UpdateOf, txs[..i]);
  }

  lemma {:induction false} ChangedKeysConcat(xs: seq<Transaction>, ys: seq<Transaction>)
    ensures ChangedKeys(xs + ys) == ChangedKeys(xs) + ChangedKeys(ys)
  {
    if xs == [] {
      assert xs + ys == ys;
    } else {
      ChangedKeysConcat(xs[1..], ys);
      assert (xs + ys)[1..] == xs[1..] + ys;
      ConcatAssociates(KeysNamedBy(xs[0]), ChangedKeys(xs[1..]), ChangedKeys(ys));
    }
  }

  lemma ChangedKeysPush(txs: seq<Transaction>, i: nat)
    requires i < |txs|
    ensures ChangedKeys(txs[..i + 1])
         == if txs[i].kind.Policy? then ChangedKeys(txs[..i]) + KeysNamed(txs[i].kind.update) else ChangedKeys(txs[..i])
  {
    assert txs[..i + 1] == txs[..i] + [txs[i]];
    ChangedKeysConcat(txs[..i], [txs[i]]);
    assert [txs[i]][1..] == [];
    assert ChangedKeys([txs[i]]) == KeysNamedBy(txs[i]) + [];
    assert ChangedKeys(txs[..i]) + [] == ChangedKeys(txs[..i]);
  }

  // ---------------------------------------------------------------- the mutable history

  class PolicyHistory {
    var updates: seq<PolicyUpdate>

    constructor ()
      ensures updates == []
    {
      updates := [];
    }

    method Apply(update: PolicyUpdate) returns (outcome: Outcome)
      modifies this
      ensures outcome == if ValidUpdate(update) then Ok else Err(InvalidTransaction)
      ensures updates == if outcome.Ok? then old(updates) + [update] else old(updates)
    {
      if update.channel == "" {
        return Err(InvalidTransaction);
      }
      if !ValidPolicies(update.policies) {
        return Err(InvalidTransaction);
      }
      updates := updates + [update];
      return Ok;
    }

    method ValidateBlock(block: Block) returns (outcome: Outcome)
      modifies this
      ensures updates == FoldPolicies(old(updates), block).updates
      ensures outcome == if FoldPolicies(old(updates), block).ok then Ok else Err(InvalidTransaction)
    {
      var pending, changedKeys := Collect(block.transactions);
      var written := WrittenKeys(block);
      for i := 0 to |written|
        invariant forall j :: 0 <= j < i ==> written[j] !in changedKeys
        invariant updates == old(updates)
      {
        if written[i] in changedKeys {
          return Err(InvalidTransaction);
        }
      }
      for i := 0 to |pending|
        invariant ApplyAll(updates, pending[i..]) == ApplyAll(old(updates), pending)
      {
        SliceStep(pending, i);
        var applied := Apply(pending[i]);
        if applied.Err? {
          return applied;
        }
      }
      return Ok;
    }

    /** The block's updates in order and the keys they name. */
    static method Collect(txs: seq<Transaction>) returns (pending: seq<PolicyUpdate>, changedKeys: seq<Scope>)
      ensures pending == FilterMap(UpdateOf, txs) && changedKeys == ChangedKeys(txs)
    {
      pending, changedKeys := [], [];
      for i := 0 to |txs|
        invariant pending == FilterMap(UpdateOf, txs[..i])
        invariant changedKeys == ChangedKeys(txs[..i])
      {
        PendingPush(txs, i);
        ChangedKeysPush(txs, i);
        if txs[i].kind.Policy? {
          changedKeys := changedKeys + KeysNamed(txs[i].kind.update);
          pending := pending + [txs[i].kind.update];
        }
      }
      assert txs[..|txs|] == txs;
    }

    static method BuildFromBlocks(blocks: seq<Block>) returns (outcome: Outcome, history: PolicyHistory)
      ensures fresh(history) && history.updates == BuildPolicies(blocks).updates
      ensures outcome == if BuildPolicies(blocks).ok then Ok else Err(InvalidTransaction)
    {
      history := new PolicyHistory();
      for i := 0 to |blocks|
        invariant FoldPolicyChain(history.updates, blocks, i) == BuildPolicies(blocks)
      {
        outcome := history.ValidateBlock(blocks[i]);
        if outcome.Err? {
          return;
        }
      }
      outcome := Ok;
    }
  }
}
