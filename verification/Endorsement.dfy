/** Carriers, the MSP provider that verifies them, and the commit-path evaluation (endorsement.rs, msp_policy.rs). */
module Endorsement {
  import opened Types
  import Order
  import opened Policy

  /** The canonical bytes of a transaction whose carriers are cleared. */
  const CanonicalBytes: Transaction -> seq<byte>

  /** 32 bytes that decode to an ed25519 key. */
  const WellFormedKey: seq<byte> -> bool

  /** Ed25519 verification of (key, payload, signature); malformed signatures do not verify. */
  const SignatureVerifies: (seq<byte>, seq<byte>, seq<byte>) -> bool

  datatype RegisteredPrincipal = RegisteredPrincipal(principal: string, validFrom: nat, revokedAt: Option<nat>)

  /** The MSP key directory: public key to authorisation record. */
  type Directory = map<seq<byte>, RegisteredPrincipal>

  /** The entry's committed window covers `height`. */
  predicate AuthorisedAt(entry: RegisteredPrincipal, height: nat) {
    entry.validFrom <= height && (entry.revokedAt.Some? ==> height < entry.revokedAt.value)
  }

  /** The signer authenticates: a known, well-formed key, honestly labelled and authorised at `height`. */
  predicate Authentic(directory: Directory, signer: EndorserIdentity, height: nat) {
    && signer.publicKey in directory
    && directory[signer.publicKey].principal == signer.claimedPrincipal
    && AuthorisedAt(directory[signer.publicKey], height)
    && WellFormedKey(signer.publicKey)
  }

  /** In the terms of the directory: the key is well formed and registered to the claimed principal from no later than `height`, and not revoked by then. */
  predicate Genuine(directory: Directory, signer: EndorserIdentity, height: nat) {
    && WellFormedKey(signer.publicKey)
    && signer.publicKey in directory
    && var entry := directory[signer.publicKey];
       && entry.principal == signer.claimedPrincipal
       && entry.validFrom <= height
       && (entry.revokedAt == None || height < entry.revokedAt.value)
  }

  predicate Signed(signer: EndorserIdentity, payload: seq<byte>) {
    SignatureVerifies(signer.publicKey, payload, signer.signature)
  }

  /** The distinct principals whose signatures over the payload verify. */
  function VerifiedPrincipals(signers: seq<EndorserIdentity>, payload: seq<byte>): (r: set<string>) {
    set signer | signer in signers && Signed(signer, payload) :: signer.claimedPrincipal
  }

  predicate AllAuthentic(directory: Directory, signers: seq<EndorserIdentity>, height: nat) {
    forall i :: 0 <= i < |signers| ==> Authentic(directory, signers[i], height)
  }

  /** `evaluate` returns Ok with `satisfied` true. */
  predicate Endorses(directory: Directory, policy: PolicyExpression, signers: seq<EndorserIdentity>, payload: seq<byte>, height: nat) {
    && ValidExpression(policy)
    && AllAuthentic(directory, signers, height)
    && Evaluate(policy, VerifiedPrincipals(signers, payload))
  }

  datatype EndorsementEvaluation = EndorsementEvaluation(satisfied: bool, distinctPrincipals: seq<string>, required: nat)

  /** The signature count an expression requires at its root. */
  function RequiredCount(e: PolicyExpression): (r: nat) {
    if e.SignedBy? then 1 else e.required
  }

  /** `MspEndorsementProvider::evaluate`: the decision with the verified principals in order, or the error. */
  method EvaluateRequest(
    directory: Directory, policy: PolicyExpression, signers: seq<EndorserIdentity>, payload: seq<byte>, height: nat)
    returns (r: Result<EndorsementEvaluation>)
    ensures r.Success? <==> ValidExpression(policy) && forall i :: 0 <= i < |signers| ==> Genuine(directory, signers[i], height)
    ensures r.Failure? ==> r.error == InvalidTransaction
    ensures r.Success? ==>
      && r.value.satisfied == Endorses(directory, policy, signers, payload, height)
      && r.value.satisfied == Evaluate(policy, set p | p in r.value.distinctPrincipals)
      && Order.AscendingIds(r.value.distinctPrincipals)
      && (forall p :: p in r.value.distinctPrincipals
            <==> exists signer :: signer in signers && signer.claimedPrincipal == p
                   && SignatureVerifies(signer.publicKey, payload, signer.signature))
      && r.value.required == (match policy case SignedBy(_) => 1 case NOutOf(n, _) => n)
  {
    if !ValidExpression(policy) {
      return Failure(InvalidTransaction);
    }
    var distinct: set<string> := {};
    for i := 0 to |signers|
      invariant AllAuthentic(directory, signers[..i], height)
      invariant distinct == VerifiedPrincipals(signers[..i], payload)
    {
      var signer := signers[i];
      assert signers[..i + 1] == signers[..i] + [signer];
      if signer.publicKey !in directory {
        return Failure(InvalidTransaction);
      }
      var entry := directory[signer.publicKey];
      if entry.principal != signer.claimedPrincipal {
        return Failure(InvalidTransaction);
      }
      if height < entry.validFrom {
        return Failure(InvalidTransaction);
      }
      if entry.revokedAt.Some? && height >= entry.revokedAt.value {
        return Failure(InvalidTransaction);
      }
      if !WellFormedKey(signer.publicKey) {
        return Failure(InvalidTransaction);
      }
      if Signed(signer, payload) {
        distinct := distinct + {entry.principal};
      }
    }
    assert signers[..|signers|] == signers;
    var ordered := Order.SortedIds(distinct);
    assert distinct == set p | p in ordered;
    return Success(EndorsementEvaluation(Evaluate(policy, distinct), ordered, RequiredCount(policy)));
  }

  // ---------------------------------------------------------------- carriers

  function Payload(tx: Transaction): (r: seq<byte>) {
    CanonicalBytes(tx.(endorsements := []))
  }

  predicate Covers(e: TransactionEndorsement, write: PersistentWrite) {
    && write.channel == e.target.channel
    && write.contract == e.target.contract
    && write.key in e.target.keys
    && match write.visibility
       case Public => e.target.collection.None?
       case Pdc(name) => e.target.collection == Some(name)
  }

  // ---------------------------------------------------------------- operation defaults

  function PayloadText(record: CanonicalRecord, key: string): (r: Option<string>) {
    if key in record.payload && record.payload[key].Text? && record.payload[key].text != ""
    then Some(record.payload[key].text) else None
  }

  /** One signature rule per counterparty; None when one is not a non-empty name. */
  function CounterpartyRules(items: seq<Json>): (r: Option<seq<PolicyExpression>>) {
    if items == [] then Some([])
    else if !items[0].Text? || items[0].text == "" then None
    else
      var rest := CounterpartyRules(items[1..]);
      if rest.Some? then Some([SignedBy(items[0].text)] + rest.value) else None
  }

  function All(rules: seq<PolicyExpression>): (r: PolicyExpression) {
    NOutOf(|rules|, rules)
  }

  function RecordDefault(record: CanonicalRecord): (r: Result<Option<PolicyExpression>>) {
    if record.schemaId == "delivery_receipt" then
      var receiver := PayloadText(record, "receiver_id");
      if receiver.None? then Failure(InvalidTransaction)
      else Success(Some(All([SignedBy(record.issuer), SignedBy(receiver.value)])))
    else if record.schemaId == "recall" then
      if PayloadText(record, "issued_by").None? then Failure(InvalidTransaction)
      else Success(Some(SignedBy(record.issuer)))
    else if record.schemaId == "quality_certification" || record.schemaId == "audit_attestation" then
      var issuer := PayloadText(record, "issuer");
      if issuer.None? then Failure(InvalidTransaction) else Success(Some(SignedBy(issuer.value)))
    else if record.schemaId == "state_commitment" then
      if "counterparties" !in record.payload || !record.payload["counterparties"].Array? then Failure(InvalidTransaction)
      else
        var rules := CounterpartyRules(record.payload["counterparties"].items);
        if rules.None? then Failure(InvalidTransaction)
        else Success(Some(All([SignedBy(record.issuer)] + rules.value)))
    else Success(None)
  }

  function OperationDefault(tx: Transaction): (r: Result<Option<PolicyExpression>>) {
    match tx.kind
    case Activation(_) => Success(Some(SignedBy(NETWORK_GOVERNANCE_PRINCIPAL)))
    case Record(record) => RecordDefault(record)
    case _ => Success(None)
  }

  /** Every signer of every carrier. */
  function UnionSigners(endorsements: seq<TransactionEndorsement>): (r: seq<EndorserIdentity>) {
    if endorsements == [] then [] else endorsements[0].signers + UnionSigners(endorsements[1..])
  }

  // ---------------------------------------------------------------- the commit-path evaluation

  /** The carrier's signers satisfy every layer of the carrier's own scope. */
  predicate CarrierSatisfied(
    directory: Directory, updates: seq<PolicyUpdate>, tx: Transaction, e: TransactionEndorsement, height: nat)
  {
    forall layer :: layer in Applicable(PoliciesFor(updates, e.target.channel, e.target.contract), e.target) ==>
      Endorses(directory, layer, e.signers, Payload(tx), height)
  }

  /** The operation default exists or is not demanded, and the union of the signers meets it. */
  predicate DefaultSatisfied(directory: Directory, tx: Transaction, height: nat) {
    var default := OperationDefault(tx);
    && default.Success?
    && (default.value.Some? ==>
          Endorses(directory, default.value.value, UnionSigners(tx.endorsements), Payload(tx), height))
  }

  predicate Covered(tx: Transaction, write: PersistentWrite) {
    exists e :: e in tx.endorsements && Covers(e, write)
  }

  /** What `evaluate_transaction_endorsements` accepts. */
  predicate Accepted(directory: Directory, updates: seq<PolicyUpdate>, tx: Transaction, writes: seq<PersistentWrite>, height: nat) {
    && (forall i :: 0 <= i < |writes| ==> Covered(tx, writes[i]))
    && (tx.kind.Policy? ==> tx.endorsements != [])
    && (!tx.kind.Record? ==>
          forall i :: 0 <= i < |tx.endorsements| ==> CarrierSatisfied(directory, updates, tx, tx.endorsements[i], height))
    && DefaultSatisfied(directory, tx, height)
  }

  method EvaluateCarrier(
    directory: Directory, updates: seq<PolicyUpdate>, tx: Transaction, e: TransactionEndorsement, height: nat)
    returns (outcome: Outcome)
    ensures outcome == if CarrierSatisfied(directory, updates, tx, e, height) then Ok else Err(InvalidTransaction)
  {
    var policies := ComputeApplicable(PoliciesFor(updates, e.target.channel, e.target.contract), e.target);
    for i := 0 to |policies|
      invariant forall j :: 0 <= j < i ==> Endorses(directory, policies[j], e.signers, Payload(tx), height)
    {
      var evaluated := EvaluateRequest(directory, policies[i], e.signers, Payload(tx), height);
      if evaluated.Failure? || !evaluated.value.satisfied {
        assert policies[i] in policies && !Endorses(directory, policies[i], e.signers, Payload(tx), height);
        return Err(InvalidTransaction);
      }
    }
    return Ok;
  }

  method EvaluateTransactionEndorsements(
    directory: Directory, updates: seq<PolicyUpdate>, tx: Transaction, writes: seq<PersistentWrite>, height: nat)
    returns (outcome: Outcome)
    ensures outcome == if Accepted(directory, updates, tx, writes, height) then Ok else Err(InvalidTransaction)
  {
    for i := 0 to |writes|
      invariant forall j :: 0 <= j < i ==> Covered(tx, writes[j])
    {
      if !Covered(tx, writes[i]) {
        return Err(InvalidTransaction);
      }
    }
    if tx.kind.Policy? && tx.endorsements == [] {
      return Err(InvalidTransaction);
    }
    if !tx.kind.Record? {
      for i := 0 to |tx.endorsements|
        invariant forall j :: 0 <= j < i ==> CarrierSatisfied(directory, updates, tx, tx.endorsements[j], height)
      {
        var carrier := EvaluateCarrier(directory, updates, tx, tx.endorsements[i], height);
        if carrier.Err? {
          return carrier;
        }
      }
    }
    var default := OperationDefault(tx);
    if default.Failure? {
      return Err(InvalidTransaction);
    }
    if default.value.Some? {
      var evaluated := EvaluateRequest(directory, default.value.value, UnionSigners(tx.endorsements), Payload(tx), height);
      if evaluated.Failure? || !evaluated.value.satisfied {
        return Err(InvalidTransaction);
      }
    }
    return Ok;
  }

  // ---------------------------------------------------------------- main result

  /** `principal` is registered, authorised at `height`, and signed the payload with its own key. */
  predicate VouchedFor(
    directory: Directory, signers: seq<EndorserIdentity>, payload: seq<byte>, height: nat, principal: string)
  {
    exists signer :: signer in signers && signer.claimedPrincipal == principal && Genuine(directory, signer, height)
      && SignatureVerifies(signer.publicKey, payload, signer.signature)
  }

  /** The target names exactly the write's channel, contract and collection, if any, and lists its key. */
  predicate Addresses(target: ScopedTarget, write: PersistentWrite) {
    && target.channel == write.channel && target.contract == write.contract && write.key in target.keys
    && target.collection == (if write.visibility.Pdc? then Some(write.visibility.collection) else None)
  }

  /** Each write is addressed by the target of some carrier. */
  predicate AllAddressed(tx: Transaction, writes: seq<PersistentWrite>) {
    forall write :: write in writes ==> exists e :: e in tx.endorsements && Addresses(e.target, write)
  }

  /** The principals whose signatures over the bare transaction verify. */
  function SignatoriesOf(tx: Transaction, e: TransactionEndorsement): (r: set<string>) {
    set signer | signer in e.signers && SignatureVerifies(signer.publicKey, CanonicalBytes(tx.(endorsements := [])), signer.signature)
      :: signer.claimedPrincipal
  }

  /** Every signer of every carrier is genuine, and all of `names` are proper names of principals that signed somewhere. */
  predicate SignedByAll(directory: Directory, tx: Transaction, height: nat, names: seq<string>) {
    && (forall e, signer :: e in tx.endorsements && signer in e.signers ==> Genuine(directory, signer, height))
    && forall i :: 0 <= i < |names| ==>
         names[i] != "" && exists e :: e in tx.endorsements && names[i] in SignatoriesOf(tx, e)
  }

  /** The carrier's principals satisfy each layer that governs the write's own scope. */
  ghost predicate Authorises(
    directory: Directory, updates: seq<PolicyUpdate>, tx: Transaction, e: TransactionEndorsement,
    write: PersistentWrite, height: nat)
  {
    var principals := SignatoriesOf(tx, e);
    var policies := PoliciesFor(updates, write.channel, write.contract);
    var keyPolicy := KeyPolicyFor(policies.keyPolicies, write.key);
    && Addresses(e.target, write)
    && Evaluate(policies.channelDefault, principals)
    && (policies.contractDefault.Some? ==> Evaluate(policies.contractDefault.value, principals))
    && (write.visibility.Pdc? && policies.collectionPolicy.Some? ==> Evaluate(policies.collectionPolicy.value, principals))
    && (keyPolicy.Some? ==> Evaluate(keyPolicy.value, principals))
    && principals != {}
    && forall signer :: signer in e.signers ==> Genuine(directory, signer, height)
  }

  /** A present layer is valid and true of the principals. */
  predicate Holds(layer: Option<PolicyExpression>, principals: set<string>) {
    layer.Some? ==> ValidExpression(layer.value) && Evaluate(layer.value, principals)
  }

  /** Everything a carrier's scope demands of its verified principals, layer by layer. */
  predicate MeetsEveryLayer(p: ScopedPolicies, target: ScopedTarget, principals: set<string>) {
    && Holds(Some(p.channelDefault), principals)
    && Holds(p.contractDefault, principals)
    && (target.collection.Some? ==> Holds(p.collectionPolicy, principals))
    && forall key :: key in target.keys ==> Holds(KeyPolicyFor(p.keyPolicies, key), principals)
  }

  /** A carrier passes exactly when all its signers authenticate and its principals meet every layer. */
  lemma CarrierMeaning(
    directory: Directory, updates: seq<PolicyUpdate>, tx: Transaction, e: TransactionEndorsement, height: nat)
    ensures CarrierSatisfied(directory, updates, tx, e, height)
       <==> && AllAuthentic(directory, e.signers, height)
            && MeetsEveryLayer(PoliciesFor(updates, e.target.channel, e.target.contract), e.target,
                               VerifiedPrincipals(e.signers, Payload(tx)))
  {
    var p := PoliciesFor(updates, e.target.channel, e.target.contract);
    var principals := VerifiedPrincipals(e.signers, Payload(tx));
    var layers := Applicable(p, e.target);
    assert layers[0] == p.channelDefault;
    if CarrierSatisfied(directory, updates, tx, e, height) {
      LayersInclude(p, e.target);
    } else {
      var layer :| layer in layers && !Endorses(directory, layer, e.signers, Payload(tx), height);
      if AllAuthentic(directory, e.signers, height) {
        assert !(ValidExpression(layer) && Evaluate(layer, principals));
        LayerOrigin(p, e.target, layer);
      }
    }
  }

  lemma LayersInclude(p: ScopedPolicies, target: ScopedTarget)
    ensures var layers := Applicable(p, target);
      && p.channelDefault in layers
      && (p.contractDefault.Some? ==> p.contractDefault.value in layers)
      && (target.collection.Some? && p.collectionPolicy.Some? ==> p.collectionPolicy.value in layers)
      && forall key :: key in target.keys && KeyPolicyFor(p.keyPolicies, key).Some? ==> KeyPolicyFor(p.keyPolicies, key).value in layers
  {
    assert Applicable(p, target)[0] == p.channelDefault;
    forall key | key in target.keys && KeyPolicyFor(p.keyPolicies, key).Some?
      ensures KeyPolicyFor(p.keyPolicies, key).value in Applicable(p, target)
    {
      KeyLayersComplete(p.keyPolicies, target.keys, key);
    }
  }

  lemma LayerOrigin(p: ScopedPolicies, target: ScopedTarget, layer: PolicyExpression)
    requires layer in Applicable(p, target)
    ensures || layer == p.channelDefault
            || p.contractDefault == Some(layer)
            || (target.collection.Some? && p.collectionPolicy == Some(layer))
            || exists key :: key in target.keys && KeyPolicyFor(p.keyPolicies, key) == Some(layer)
  {
    if layer in KeyLayers(p.keyPolicies, target.keys) {
      var key := KeyLayersSound(p.keyPolicies, target.keys, layer);
    }
  }

  lemma CarrierAuthorisesWrite(
    directory: Directory, updates: seq<PolicyUpdate>, tx: Transaction, e: TransactionEndorsement,
    write: PersistentWrite, height: nat)
    requires CarrierSatisfied(directory, updates, tx, e, height) && Covers(e, write)
    ensures Authorises(directory, updates, tx, e, write, height)
  {
    CarrierMeaning(directory, updates, tx, e, height);
    var policies := PoliciesFor(updates, write.channel, write.contract);
    assert SignatoriesOf(tx, e) == VerifiedPrincipals(e.signers, Payload(tx));
    assert Holds(KeyPolicyFor(policies.keyPolicies, write.key), VerifiedPrincipals(e.signers, Payload(tx)));
    NothingSatisfiesNothing(policies.channelDefault);
  }

  /**
   * End-to-end write authorisation: every write of an accepted transaction that is not a canonical
   * record has one carrier that addresses its exact scope, whose signers are all genuine, and whose
   * signatories satisfy every policy layer effective for that scope.
   */
  lemma AcceptedWritesAreAuthorised(
    directory: Directory, updates: seq<PolicyUpdate>, tx: Transaction, writes: seq<PersistentWrite>, height: nat)
    requires Accepted(directory, updates, tx, writes, height) && !tx.kind.Record?
    ensures forall write :: write in writes ==>
      exists e :: e in tx.endorsements && Authorises(directory, updates, tx, e, write, height)
  {
    forall write | write in writes
      ensures exists e :: e in tx.endorsements && Authorises(directory, updates, tx, e, write, height)
    {
      var e :| e in tx.endorsements && Covers(e, write);
      CarrierAuthorisesWrite(directory, updates, tx, e, write, height);
    }
  }

  lemma CoveredIff(tx: Transaction, writes: seq<PersistentWrite>)
    ensures (forall i :: 0 <= i < |writes| ==> Covered(tx, writes[i])) <==> AllAddressed(tx, writes)
  {
    forall write ensures Covered(tx, write) <==> exists e :: e in tx.endorsements && Addresses(e.target, write) {
      if e :| e in tx.endorsements && Addresses(e.target, write) { assert Covers(e, write); }
      if e :| e in tx.endorsements && Covers(e, write) { assert Addresses(e.target, write); }
    }
    assert forall i :: 0 <= i < |writes| ==> writes[i] in writes;
  }

  lemma AllGenuine(directory: Directory, signers: seq<EndorserIdentity>, height: nat)
    ensures AllAuthentic(directory, signers, height) <==> forall signer :: signer in signers ==> Genuine(directory, signer, height)
  {
    if forall signer :: signer in signers ==> Genuine(directory, signer, height) {
      forall i | 0 <= i < |signers| ensures Authentic(directory, signers[i], height) { assert signers[i] in signers; }
    }
  }

  /** The carrier's signers are all genuine, and its signatories meet every layer of its own scope. */
  predicate Backed(directory: Directory, updates: seq<PolicyUpdate>, tx: Transaction, e: TransactionEndorsement, height: nat) {
    && (forall signer :: signer in e.signers ==> Genuine(directory, signer, height))
    && MeetsEveryLayer(PoliciesFor(updates, e.target.channel, e.target.contract), e.target, SignatoriesOf(tx, e))
  }

  lemma BackedIff(directory: Directory, updates: seq<PolicyUpdate>, tx: Transaction, e: TransactionEndorsement, height: nat)
    ensures CarrierSatisfied(directory, updates, tx, e, height) <==> Backed(directory, updates, tx, e, height)
  {
    CarrierMeaning(directory, updates, tx, e, height);
    assert SignatoriesOf(tx, e) == VerifiedPrincipals(e.signers, Payload(tx));
    AllGenuine(directory, e.signers, height);
  }

  lemma {:induction false} UnionSignersAre(endorsements: seq<TransactionEndorsement>, signer: EndorserIdentity)
    ensures signer in UnionSigners(endorsements) <==> exists e :: e in endorsements && signer in e.signers
  {
    if endorsements == [] {
    } else {
      UnionSignersAre(endorsements[1..], signer);
      assert endorsements == [endorsements[0]] + endorsements[1..];
    }
  }

  /** The union of the carriers' signers speaks for everyone named exactly when all of them signed somewhere. */
  lemma EveryoneIff(directory: Directory, tx: Transaction, height: nat, names: seq<string>)
    ensures Everyone(directory, names, UnionSigners(tx.endorsements), Payload(tx), height) <==> SignedByAll(directory, tx, height, names)
  {
    var signers := UnionSigners(tx.endorsements);
    AllGenuine(directory, signers, height);
    if AllAuthentic(directory, signers, height) {
      forall e, signer | e in tx.endorsements && signer in e.signers ensures Genuine(directory, signer, height) {
        UnionSignersAre(tx.endorsements, signer);
      }
      forall i | 0 <= i < |names|
        ensures VouchedFor(directory, signers, Payload(tx), height, names[i])
           <==> exists e :: e in tx.endorsements && names[i] in SignatoriesOf(tx, e)
      {
        VouchedIff(directory, tx, height, names[i]);
      }
      if SignedByAll(directory, tx, height, names) {
        forall i | 0 <= i < |names| ensures names[i] != "" && VouchedFor(directory, signers, Payload(tx), height, names[i]) { assert names[i] != ""; }
        assert Everyone(directory, names, signers, Payload(tx), height);
      }
      if Everyone(directory, names, signers, Payload(tx), height) {
        assert forall i :: 0 <= i < |names| ==> names[i] != "";
        assert SignedByAll(directory, tx, height, names);
      }
    } else {
      var signer :| signer in signers && !Genuine(directory, signer, height);
      UnionSignersAre(tx.endorsements, signer);
    }
  }

  lemma VouchedIff(directory: Directory, tx: Transaction, height: nat, name: string)
    requires AllAuthentic(directory, UnionSigners(tx.endorsements), height)
    ensures VouchedFor(directory, UnionSigners(tx.endorsements), Payload(tx), height, name)
       <==> exists e :: e in tx.endorsements && name in SignatoriesOf(tx, e)
  {
    var signers := UnionSigners(tx.endorsements);
    if signer :| signer in signers && signer.claimedPrincipal == name && SignatureVerifies(signer.publicKey, Payload(tx), signer.signature) {
      UnionSignersAre(tx.endorsements, signer);
    }
    if e :| e in tx.endorsements && name in SignatoriesOf(tx, e) {
      var signer :| signer in e.signers && SignatureVerifies(signer.publicKey, Payload(tx), signer.signature) && signer.claimedPrincipal == name;
      UnionSignersAre(tx.endorsements, signer);
      assert Authentic(directory, signer, height);
    }
  }

  /**
   * Acceptance of a transaction that is not a canonical record, in full: every write is addressed by a
   * carrier, a policy update has a carrier, every carrier is backed, and an activation is signed by
   * governance.
   */
  lemma AcceptedIff(
    directory: Directory, updates: seq<PolicyUpdate>, tx: Transaction, writes: seq<PersistentWrite>, height: nat)
    requires !tx.kind.Record?
    ensures Accepted(directory, updates, tx, writes, height)
       <==> && AllAddressed(tx, writes)
            && (tx.kind.Policy? ==> tx.endorsements != [])
            && (forall e :: e in tx.endorsements ==> Backed(directory, updates, tx, e, height))
            && (tx.kind.Activation? ==> SignedByAll(directory, tx, height, ["network-governance"]))
  {
    CoveredIff(tx, writes);
    forall e ensures CarrierSatisfied(directory, updates, tx, e, height) <==> Backed(directory, updates, tx, e, height) {
      BackedIff(directory, updates, tx, e, height);
    }
    if tx.kind.Activation? {
      DefaultOfOne(directory, tx, height, "network-governance");
    }
  }

  /** A single-signature default over the union of the carriers' signers. */
  lemma DefaultOfOne(directory: Directory, tx: Transaction, height: nat, name: string)
    ensures Endorses(directory, SignedBy(name), UnionSigners(tx.endorsements), Payload(tx), height)
       <==> SignedByAll(directory, tx, height, [name])
  {
    OneSigner(directory, UnionSigners(tx.endorsements), Payload(tx), height, name);
    EveryoneIff(directory, tx, height, [name]);
    assert [name][0] == name;
  }

  // ---------------------------------------------------------------- who authorises a policy update

  /** The scope whose policy an update replaces, apart from any key or collection in it. */
  function Replaced(u: PolicyUpdate): (r: ScopedTarget) {
    ScopedTarget(u.channel, u.contract, [], None)
  }

  /** These principals meet every layer in force for the target. */
  predicate Meets(updates: seq<PolicyUpdate>, target: ScopedTarget, principals: set<string>) {
    MeetsEveryLayer(PoliciesFor(updates, target.channel, target.contract), target, principals)
  }

  /** Whoever meets the layers of `target` meets those of `other`. */
  ghost predicate AtLeastAsStrict(updates: seq<PolicyUpdate>, target: ScopedTarget, other: ScopedTarget) {
    forall principals: set<string> :: Meets(updates, target, principals) ==> Meets(updates, other, principals)
  }

  function LayerLeaves(layer: Option<PolicyExpression>): (r: set<string>) {
    if layer.Some? then Leaves(layer.value) else {}
  }

  /** The principals named by the layers that apply to the target. */
  function NamedBy(p: ScopedPolicies, target: ScopedTarget): (r: set<string>) {
    Leaves(p.channelDefault) + LayerLeaves(p.contractDefault)
    + (if target.collection.Some? then LayerLeaves(p.collectionPolicy) else {})
    + set key, leaf | key in target.keys && leaf in LayerLeaves(KeyPolicyFor(p.keyPolicies, key)) :: leaf
  }

  function PrincipalsOf(updates: seq<PolicyUpdate>, target: ScopedTarget): (r: set<string>) {
    NamedBy(PoliciesFor(updates, target.channel, target.contract), target)
  }

  /** The same, as a finite check: it is enough to try the sets of principals that the target itself names. */
  predicate Stricter(updates: seq<PolicyUpdate>, target: ScopedTarget, other: ScopedTarget) {
    forall named: set<string> | named <= PrincipalsOf(updates, target) && Meets(updates, target, named) :: Meets(updates, other, named)
  }

  lemma HoldsOn(layer: Option<PolicyExpression>, principals: set<string>, named: set<string>)
    requires LayerLeaves(layer) <= named && Holds(layer, principals)
    ensures Holds(layer, principals * named)
  {
    if layer.Some? { OutsidersAreIrrelevant(layer.value, principals, principals * named); }
  }

  lemma HoldsMonotone(layer: Option<PolicyExpression>, fewer: set<string>, more: set<string>)
    requires fewer <= more && Holds(layer, fewer)
    ensures Holds(layer, more)
  {
    if layer.Some? { EvaluateMonotone(layer.value, fewer, more); }
  }

  /** Who else signed does not matter: the named ones alone meet the layers. */
  lemma NamedSuffice(p: ScopedPolicies, target: ScopedTarget, principals: set<string>)
    requires MeetsEveryLayer(p, target, principals)
    ensures MeetsEveryLayer(p, target, principals * NamedBy(p, target))
  {
    var named := NamedBy(p, target);
    HoldsOn(Some(p.channelDefault), principals, named);
    HoldsOn(p.contractDefault, principals, named);
    if target.collection.Some? { HoldsOn(p.collectionPolicy, principals, named); }
    forall key | key in target.keys ensures Holds(KeyPolicyFor(p.keyPolicies, key), principals * named) {
      HoldsOn(KeyPolicyFor(p.keyPolicies, key), principals, named);
    }
  }

  lemma MeetsMonotone(p: ScopedPolicies, target: ScopedTarget, fewer: set<string>, more: set<string>)
    requires fewer <= more && MeetsEveryLayer(p, target, fewer)
    ensures MeetsEveryLayer(p, target, more)
  {
    HoldsMonotone(Some(p.channelDefault), fewer, more);
    HoldsMonotone(p.contractDefault, fewer, more);
    if target.collection.Some? { HoldsMonotone(p.collectionPolicy, fewer, more); }
    forall key | key in target.keys ensures Holds(KeyPolicyFor(p.keyPolicies, key), more) {
      HoldsMonotone(KeyPolicyFor(p.keyPolicies, key), fewer, more);
    }
  }

  /** Being at least as strict, for every set of principals whatever, is decided by the target's own finitely many. */
  lemma StrictnessIsFinite(updates: seq<PolicyUpdate>, target: ScopedTarget, other: ScopedTarget)
    ensures AtLeastAsStrict(updates, target, other) <==> Stricter(updates, target, other)
  {
    if Stricter(updates, target, other) {
      forall principals: set<string> | Meets(updates, target, principals) ensures Meets(updates, other, principals) {
        var named := principals * PrincipalsOf(updates, target);
        NamedSuffice(PoliciesFor(updates, target.channel, target.contract), target, principals);
        assert Meets(updates, other, named);
        MeetsMonotone(PoliciesFor(updates, other.channel, other.contract), other, named, principals);
      }
    }
  }

  // ---------------------------------------------------------------- which carriers get an update accepted

  /** The principal has a registered, authorised key and a signature over the payload that verifies. */
  predicate CanSign(directory: Directory, signer: EndorserIdentity, payload: seq<byte>, height: nat, principal: string) {
    Authentic(directory, signer, height) && Signed(signer, payload) && signer.claimedPrincipal == principal
  }

  ghost predicate Signatory(directory: Directory, payload: seq<byte>, height: nat, principal: string) {
    exists signer :: CanSign(directory, signer, payload, height, principal)
  }

  /** Any set of signatories can sign together, and nobody else with them. */
  lemma {:induction false} SignersFor(directory: Directory, payload: seq<byte>, height: nat, principals: set<string>)
    returns (signers: seq<EndorserIdentity>)
    requires forall p :: p in principals ==> Signatory(directory, payload, height, p)
    ensures AllAuthentic(directory, signers, height) && VerifiedPrincipals(signers, payload) == principals
    decreases |principals|
  {
    if principals == {} {
      signers := [];
    } else {
      var p :| p in principals;
      var rest := SignersFor(directory, payload, height, principals - {p});
      var signer :| CanSign(directory, signer, payload, height, p);
      signers := rest + [signer];
      OneMoreSigner(rest, signer, payload);
    }
  }

  lemma OneMoreSigner(signers: seq<EndorserIdentity>, signer: EndorserIdentity, payload: seq<byte>)
    requires Signed(signer, payload)
    ensures VerifiedPrincipals(signers + [signer], payload) == VerifiedPrincipals(signers, payload) + {signer.claimedPrincipal}
  {
    var more := signers + [signer];
    assert forall s :: s in more <==> s in signers || s == signer;
  }

  /** The carrier satisfies its own scope with principals that do not satisfy the replaced policy. */
  predicate Sidesteps(
    directory: Directory, updates: seq<PolicyUpdate>, u: PolicyUpdate, payload: seq<byte>, e: TransactionEndorsement, height: nat)
  {
    && AllAuthentic(directory, e.signers, height)
    && Meets(updates, e.target, VerifiedPrincipals(e.signers, payload))
    && !Meets(updates, Replaced(u), VerifiedPrincipals(e.signers, payload))
  }

  /** Some carrier's verified principals satisfy the policy the update replaces. */
  predicate AuthorisedByReplaced(updates: seq<PolicyUpdate>, tx: Transaction)
    requires tx.kind.Policy?
  {
    exists i :: 0 <= i < |tx.endorsements|
      && Meets(updates, Replaced(tx.kind.update), VerifiedPrincipals(tx.endorsements[i].signers, Payload(tx)))
  }

  /** Carriers that all sidestep the replaced policy get the update accepted all the same. */
  lemma SidesteppingIsAccepted(directory: Directory, updates: seq<PolicyUpdate>, tx: Transaction, height: nat)
    requires tx.kind.Policy? && tx.endorsements != []
    requires forall i :: 0 <= i < |tx.endorsements| ==>
      Sidesteps(directory, updates, tx.kind.update, Payload(tx), tx.endorsements[i], height)
    ensures Accepted(directory, updates, tx, [], height) && !AuthorisedByReplaced(updates, tx)
  {
    forall i | 0 <= i < |tx.endorsements| ensures CarrierSatisfied(directory, updates, tx, tx.endorsements[i], height) {
      assert Sidesteps(directory, updates, tx.kind.update, Payload(tx), tx.endorsements[i], height);
      CarrierMeaning(directory, updates, tx, tx.endorsements[i], height);
    }
    forall i | 0 <= i < |tx.endorsements|
      ensures !Meets(updates, Replaced(tx.kind.update), VerifiedPrincipals(tx.endorsements[i].signers, Payload(tx)))
    {
      assert Sidesteps(directory, updates, tx.kind.update, Payload(tx), tx.endorsements[i], height);
    }
  }

  /** Every principal the targets name can sign. */
  ghost predicate AllSignatories(
    directory: Directory, updates: seq<PolicyUpdate>, targets: seq<ScopedTarget>, payload: seq<byte>, height: nat)
  {
    forall i, p :: 0 <= i < |targets| && p in PrincipalsOf(updates, targets[i]) ==> Signatory(directory, payload, height, p)
  }

  function TargetsOf(carriers: seq<TransactionEndorsement>): (r: seq<ScopedTarget>) {
    seq(|carriers|, i requires 0 <= i < |carriers| => carriers[i].target)
  }

  /** One carrier that sidesteps the replaced policy, where its scope is not stricter. */
  lemma SidestepOne(
    directory: Directory, updates: seq<PolicyUpdate>, u: PolicyUpdate, target: ScopedTarget, payload: seq<byte>, height: nat)
    returns (e: TransactionEndorsement)
    requires !Stricter(updates, target, Replaced(u))
    requires forall p :: p in PrincipalsOf(updates, target) ==> Signatory(directory, payload, height, p)
    ensures e.target == target && Sidesteps(directory, updates, u, payload, e, height)
  {
    var named: set<string> :| named <= PrincipalsOf(updates, target) && Meets(updates, target, named) && !Meets(updates, Replaced(u), named);
    var signers := SignersFor(directory, payload, height, named);
    e := TransactionEndorsement(target, signers);
  }

  lemma {:induction false} SidestepAll(
    directory: Directory, updates: seq<PolicyUpdate>, u: PolicyUpdate, targets: seq<ScopedTarget>, payload: seq<byte>, height: nat)
    returns (carriers: seq<TransactionEndorsement>)
    requires forall i :: 0 <= i < |targets| ==> !Stricter(updates, targets[i], Replaced(u))
    requires AllSignatories(directory, updates, targets, payload, height)
    ensures TargetsOf(carriers) == targets
    ensures forall i :: 0 <= i < |carriers| ==> Sidesteps(directory, updates, u, payload, carriers[i], height)
  {
    if targets == [] {
      carriers := [];
    } else {
      var n := |targets| - 1;
      assert forall i :: 0 <= i < n ==> targets[..n][i] == targets[i];
      var earlier := SidestepAll(directory, updates, u, targets[..n], payload, height);
      assert |TargetsOf(earlier)| == |earlier|;
      var last := SidestepOne(directory, updates, u, targets[n], payload, height);
      carriers := earlier + [last];
      assert TargetsOf(carriers) == TargetsOf(earlier) + [last.target];
    }
  }

  /** Whatever carriers with these targets get the update accepted, one of them satisfies the replaced policy. */
  ghost predicate AlwaysAuthorised(
    directory: Directory, updates: seq<PolicyUpdate>, tx: Transaction, targets: seq<ScopedTarget>, height: nat)
    requires tx.kind.Policy?
  {
    forall carriers: seq<TransactionEndorsement>, writes: seq<PersistentWrite> ::
      TargetsOf(carriers) == targets && Accepted(directory, updates, tx.(endorsements := carriers), writes, height)
      ==> AuthorisedByReplaced(updates, tx.(endorsements := carriers))
  }

  lemma StricterAuthorises(
    directory: Directory, updates: seq<PolicyUpdate>, tx: Transaction, carriers: seq<TransactionEndorsement>,
    writes: seq<PersistentWrite>, height: nat, i: nat)
    requires tx.kind.Policy? && Accepted(directory, updates, tx.(endorsements := carriers), writes, height)
    requires i < |carriers| && Stricter(updates, carriers[i].target, Replaced(tx.kind.update))
    ensures AuthorisedByReplaced(updates, tx.(endorsements := carriers))
  {
    StrictnessIsFinite(updates, carriers[i].target, Replaced(tx.kind.update));
    AcceptedUpdateIsAuthorised(directory, updates, tx.(endorsements := carriers), writes, height, i);
  }

  /**
   * "Policy changes are authorised by the policy they replace": where the principals the carriers' scopes
   * name are able to sign, every acceptance of the update with carriers for these targets is authorised
   * by the replaced policy, if and only if one of the targets is stricter, or there are none and nothing
   * is accepted.
   */
  lemma UpdateAuthorityIff(
    directory: Directory, updates: seq<PolicyUpdate>, tx: Transaction, targets: seq<ScopedTarget>, height: nat)
    requires tx.kind.Policy? && AllSignatories(directory, updates, targets, Payload(tx), height)
    ensures AlwaysAuthorised(directory, updates, tx, targets, height)
       <==> targets == [] || exists i :: 0 <= i < |targets| && Stricter(updates, targets[i], Replaced(tx.kind.update))
  {
    if i :| 0 <= i < |targets| && Stricter(updates, targets[i], Replaced(tx.kind.update)) {
      forall carriers: seq<TransactionEndorsement>, writes: seq<PersistentWrite> |
        TargetsOf(carriers) == targets && Accepted(directory, updates, tx.(endorsements := carriers), writes, height)
        ensures AuthorisedByReplaced(updates, tx.(endorsements := carriers))
      {
        assert carriers[i].target == TargetsOf(carriers)[i];
        StricterAuthorises(directory, updates, tx, carriers, writes, height, i);
      }
    } else if targets == [] {
      assert forall carriers :: TargetsOf(carriers) == [] ==> |carriers| == 0;
    } else {
      var carriers := SidestepAll(directory, updates, tx.kind.update, targets, Payload(tx), height);
      assert |carriers| == |TargetsOf(carriers)|;
      var signed := tx.(endorsements := carriers);
      assert Payload(signed) == Payload(tx);
      SidesteppingIsAccepted(directory, updates, signed, height);
    }
  }

  /** A carrier that targets the update's own scope is at least as strict as the policy it replaces. */
  lemma OwnScopeIsStrict(updates: seq<PolicyUpdate>, target: ScopedTarget, u: PolicyUpdate)
    requires target.channel == u.channel && target.contract == u.contract
    ensures AtLeastAsStrict(updates, target, Replaced(u))
  {
  }

  /** The carriers of an accepted update each meet their own scope; so if one is strict enough, vouched-for principals meet the replaced policy. */
  lemma AcceptedUpdateIsAuthorised(
    directory: Directory, updates: seq<PolicyUpdate>, tx: Transaction, writes: seq<PersistentWrite>, height: nat, i: nat)
    requires Accepted(directory, updates, tx, writes, height) && tx.kind.Policy? && i < |tx.endorsements|
    requires AtLeastAsStrict(updates, tx.endorsements[i].target, Replaced(tx.kind.update))
    ensures var e := tx.endorsements[i];
      && Meets(updates, Replaced(tx.kind.update), VerifiedPrincipals(e.signers, Payload(tx)))
      && forall p :: p in VerifiedPrincipals(e.signers, Payload(tx)) ==> VouchedFor(directory, e.signers, Payload(tx), height, p)
  {
    var e := tx.endorsements[i];
    CarrierMeaning(directory, updates, tx, e, height);
    assert Meets(updates, e.target, VerifiedPrincipals(e.signers, Payload(tx)));
  }

  /** The history in which `channel` is governed by `principal` alone. */
  function GovernedBy(channel: string, principal: string): (r: seq<PolicyUpdate>) {
    [PolicyUpdate(channel, "", ScopedPolicies(SignedBy(principal), None, None, []))]
  }

  /** One carrier, for a channel's own scope. */
  function CarrierFor(channel: string, signer: EndorserIdentity): (r: TransactionEndorsement) {
    TransactionEndorsement(ScopedTarget(channel, "", [], None), [signer])
  }

  lemma GovernedPolicies(channel: string, principal: string, other: string, contract: string)
    requires other != channel
    ensures PoliciesFor(GovernedBy(channel, principal), channel, "") == ScopedPolicies(SignedBy(principal), None, None, [])
    ensures PoliciesFor(GovernedBy(channel, principal), other, contract) == DefaultPolicies()
  {
    var u := GovernedBy(channel, principal)[0];
    assert [] + [u] == GovernedBy(channel, principal);
    UpdateGovernsItsScope([], u, channel, "");
    UpdateGovernsItsScope([], u, other, contract);
  }

  /** An update for any scope of another channel is accepted on the signature of a principal of this one, though the policy it replaces asks for governance. */
  lemma UpdateFromElsewhereIsAccepted(
    directory: Directory, tx: Transaction, signer: EndorserIdentity, channel: string, height: nat)
    requires tx.kind.Policy? && tx.kind.update.channel != channel && tx.endorsements == [CarrierFor(channel, signer)]
    requires Authentic(directory, signer, height) && Signed(signer, Payload(tx))
    requires signer.claimedPrincipal != "" && signer.claimedPrincipal != NETWORK_GOVERNANCE_PRINCIPAL
    ensures var updates := GovernedBy(channel, signer.claimedPrincipal);
      && Accepted(directory, updates, tx, [], height)
      && !Meets(updates, Replaced(tx.kind.update), VerifiedPrincipals([signer], Payload(tx)))
  {
    var e, updates := CarrierFor(channel, signer), GovernedBy(channel, signer.claimedPrincipal);
    GovernedPolicies(channel, signer.claimedPrincipal, tx.kind.update.channel, tx.kind.update.contract);
    CarrierMeaning(directory, updates, tx, e, height);
    assert signer in [signer];
    assert VerifiedPrincipals([signer], Payload(tx)) == {signer.claimedPrincipal};
  }

  // ---------------------------------------------------------------- revocation

  /** `MspEndorsementProvider::revoke`; an unknown key changes nothing. */
  function Revoke(directory: Directory, key: seq<byte>, at: nat): (r: Directory) {
    if key in directory then directory[key := directory[key].(revokedAt := Some(at))] else directory
  }

  /** A registered, well-formed key whose earlier revocation bites at `height` and whose new one does not. */
  predicate Reopened(directory: Directory, key: seq<byte>, at: nat, height: nat) {
    && key in directory && WellFormedKey(key)
    && directory[key].validFrom <= height < at
    && directory[key].revokedAt.Some? && directory[key].revokedAt.value <= height
  }

  /**
   * From the revocation height on nobody authenticates with the key. Below it every signer
   * authenticates exactly as before, if and only if the key was not already revoked there.
   */
  lemma RevocationMeaning(directory: Directory, key: seq<byte>, at: nat, height: nat)
    ensures height >= at ==> forall signer: EndorserIdentity :: signer.publicKey == key ==> !Genuine(Revoke(directory, key, at), signer, height)
    ensures height < at ==>
      ((forall signer :: Genuine(directory, signer, height) == Genuine(Revoke(directory, key, at), signer, height))
       <==> !Reopened(directory, key, at, height))
    ensures forall signer: EndorserIdentity :: signer.publicKey != key ==>
      Genuine(directory, signer, height) == Genuine(Revoke(directory, key, at), signer, height)
  {
    if Reopened(directory, key, at, height) {
      var signer := EndorserIdentity(directory[key].principal, key, []);
      assert !Genuine(directory, signer, height) && Genuine(Revoke(directory, key, at), signer, height);
    }
  }

  /** Revocation is go-forward: an acceptance below the revocation height survives it, also a repeated one. */
  lemma RevocationKeepsHistory(
    directory: Directory, updates: seq<PolicyUpdate>, tx: Transaction, writes: seq<PersistentWrite>, height: nat,
    key: seq<byte>, at: nat)
    requires height < at && Accepted(directory, updates, tx, writes, height)
    ensures Accepted(Revoke(directory, key, at), updates, tx, writes, height)
  {
    var revoked := Revoke(directory, key, at);
    assert forall signer :: Authentic(directory, signer, height) ==> Authentic(revoked, signer, height);
    assert forall signers :: AllAuthentic(directory, signers, height) ==> AllAuthentic(revoked, signers, height);
    assert forall policy, signers, payload ::
      Endorses(directory, policy, signers, payload, height) ==> Endorses(revoked, policy, signers, payload, height);
    assert forall e :: CarrierSatisfied(directory, updates, tx, e, height) ==> CarrierSatisfied(revoked, updates, tx, e, height);
  }

  /** A second, later revocation readmits: what the first one refuses at a height is accepted there after the second. */
  lemma LaterRevocationReadmits(
    directory: Directory, tx: Transaction, signer: EndorserIdentity, channel: string, first: nat, height: nat, second: nat)
    requires tx.kind.Asset? && tx.endorsements == [CarrierFor(channel, signer)] && first <= height < second
    requires Authentic(directory, signer, height) && Signed(signer, Payload(tx)) && signer.claimedPrincipal != ""
    ensures var updates, key := GovernedBy(channel, signer.claimedPrincipal), signer.publicKey;
      var revoked := Revoke(directory, key, first);
      && !Accepted(revoked, updates, tx, [], height)
      && Accepted(Revoke(revoked, key, second), updates, tx, [], height)
  {
    var e, updates := CarrierFor(channel, signer), GovernedBy(channel, signer.claimedPrincipal);
    var revoked := Revoke(directory, signer.publicKey, first);
    GovernedPolicies(channel, signer.claimedPrincipal, channel + "x", "");
    assert signer in [signer];
    assert VerifiedPrincipals([signer], Payload(tx)) == {signer.claimedPrincipal};
    CarrierMeaning(revoked, updates, tx, e, height);
    CarrierMeaning(Revoke(revoked, signer.publicKey, second), updates, tx, e, height);
    assert !Authentic(revoked, e.signers[0], height);
    assert tx.endorsements[0] == e;
  }

  // ---------------------------------------------------------------- what operation defaults demand

  lemma {:induction false} AllSatisfiedMeansEach(rules: seq<PolicyExpression>, principals: set<string>, i: nat)
    requires Satisfied(rules, principals) == |rules| && i < |rules|
    ensures Evaluate(rules[i], principals)
  {
    if i == 0 {
    } else {
      assert Satisfied(rules[1..], principals) == |rules[1..]|;
      AllSatisfiedMeansEach(rules[1..], principals, i - 1);
    }
  }

  /** A single-signature default asks for exactly that principal's verified signature. */
  lemma OneSigner(directory: Directory, signers: seq<EndorserIdentity>, payload: seq<byte>, height: nat, name: string)
    ensures Endorses(directory, SignedBy(name), signers, payload, height)
       <==> name != "" && AllAuthentic(directory, signers, height) && VouchedFor(directory, signers, payload, height, name)
  {
    if AllAuthentic(directory, signers, height) && name in VerifiedPrincipals(signers, payload) {
      var signer :| signer in signers && Signed(signer, payload) && signer.claimedPrincipal == name;
      assert Authentic(directory, signer, height);
    }
  }

  function SignatureRules(names: seq<string>): (r: seq<PolicyExpression>) {
    seq(|names|, i requires 0 <= i < |names| => SignedBy(names[i]))
  }

  /** Everyone named has a non-empty name and a verified signature, and every signer authenticates. */
  predicate Everyone(directory: Directory, names: seq<string>, signers: seq<EndorserIdentity>, payload: seq<byte>, height: nat) {
    && AllAuthentic(directory, signers, height)
    && forall i :: 0 <= i < |names| ==> names[i] != "" && VouchedFor(directory, signers, payload, height, names[i])
  }

  /** An all-of default asks for everyone it names, and for nothing else. */
  lemma AllNeedsEveryone(
    directory: Directory, names: seq<string>, signers: seq<EndorserIdentity>, payload: seq<byte>, height: nat)
    requires names != []
    ensures Endorses(directory, All(SignatureRules(names)), signers, payload, height) <==> Everyone(directory, names, signers, payload, height)
  {
    var rules, principals := SignatureRules(names), VerifiedPrincipals(signers, payload);
    forall i | 0 <= i < |names|
      ensures rules[i] in rules
      ensures Endorses(directory, rules[i], signers, payload, height)
         <==> names[i] != "" && AllAuthentic(directory, signers, height) && VouchedFor(directory, signers, payload, height, names[i])
    {
      OneSigner(directory, signers, payload, height, names[i]);
    }
    if Endorses(directory, All(rules), signers, payload, height) {
      forall i | 0 <= i < |names| ensures Evaluate(rules[i], principals) {
        AllSatisfiedMeansEach(rules, principals, i);
      }
    } else if Everyone(directory, names, signers, payload, height) {
      forall rule | rule in rules ensures ValidExpression(rule) && Leaves(rule) <= principals {
        var i :| 0 <= i < |rules| && rules[i] == rule;
        assert Endorses(directory, rules[i], signers, payload, height);
      }
      AllSatisfied(rules, principals);
    }
  }

  /** All that acceptance asks of a canonical record: addressed writes, and its operation default. */
  predicate RecordAccepted(
    directory: Directory, tx: Transaction, writes: seq<PersistentWrite>, height: nat, names: seq<string>)
  {
    AllAddressed(tx, writes) && SignedByAll(directory, tx, height, names)
  }

  /** The payload has a non-empty text under `key`. */
  predicate HasText(record: CanonicalRecord, key: string) {
    key in record.payload && record.payload[key].Text? && record.payload[key].text != ""
  }

  /** A custody handoff is accepted exactly when it names a receiver and both issuer and receiver signed. */
  lemma HandoffNeedsBothParties(
    directory: Directory, updates: seq<PolicyUpdate>, tx: Transaction, writes: seq<PersistentWrite>, height: nat)
    requires tx.kind.Record? && tx.kind.record.schemaId == "delivery_receipt"
    ensures var r := tx.kind.record;
      Accepted(directory, updates, tx, writes, height)
      <==> HasText(r, "receiver_id") && RecordAccepted(directory, tx, writes, height, [r.issuer, r.payload["receiver_id"].text])
  {
    var r := tx.kind.record;
    CoveredIff(tx, writes);
    if HasText(r, "receiver_id") {
      var names := [r.issuer, r.payload["receiver_id"].text];
      assert SignatureRules(names) == [SignedBy(names[0]), SignedBy(names[1])];
      AllNeedsEveryone(directory, names, UnionSigners(tx.endorsements), Payload(tx), height);
      EveryoneIff(directory, tx, height, names);
    }
  }

  /** A recall is accepted exactly when it says who issued it and its registering issuer signed. */
  lemma RecallNeedsItsIssuer(
    directory: Directory, updates: seq<PolicyUpdate>, tx: Transaction, writes: seq<PersistentWrite>, height: nat)
    requires tx.kind.Record? && tx.kind.record.schemaId == "recall"
    ensures var r := tx.kind.record;
      Accepted(directory, updates, tx, writes, height)
      <==> HasText(r, "issued_by") && RecordAccepted(directory, tx, writes, height, [r.issuer])
  {
    CoveredIff(tx, writes);
    DefaultOfOne(directory, tx, height, tx.kind.record.issuer);
  }

  /** A certification or an audit is accepted exactly when the issuer its payload names signed. */
  lemma AttestationNeedsItsAuthority(
    directory: Directory, updates: seq<PolicyUpdate>, tx: Transaction, writes: seq<PersistentWrite>, height: nat)
    requires tx.kind.Record? && tx.kind.record.schemaId in ["quality_certification", "audit_attestation"]
    ensures var r := tx.kind.record;
      Accepted(directory, updates, tx, writes, height)
      <==> HasText(r, "issuer") && RecordAccepted(directory, tx, writes, height, [r.payload["issuer"].text])
  {
    var r := tx.kind.record;
    CoveredIff(tx, writes);
    if HasText(r, "issuer") { DefaultOfOne(directory, tx, height, r.payload["issuer"].text); }
  }

  /** Any other record is accepted exactly when its writes are addressed; nobody needs to have signed. */
  lemma OtherRecordsNeedNobody(
    directory: Directory, updates: seq<PolicyUpdate>, tx: Transaction, writes: seq<PersistentWrite>, height: nat)
    requires tx.kind.Record?
    requires tx.kind.record.schemaId !in ["delivery_receipt", "recall", "quality_certification", "audit_attestation", "state_commitment"]
    ensures Accepted(directory, updates, tx, writes, height) <==> AllAddressed(tx, writes)
  {
    CoveredIff(tx, writes);
  }

  predicate AllNamed(items: seq<Json>) {
    forall i :: 0 <= i < |items| ==> items[i].Text? && items[i].text != ""
  }

  function Names(items: seq<Json>): (r: seq<string>)
    requires AllNamed(items)
  {
    seq(|items|, i requires 0 <= i < |items| => items[i].text)
  }

  lemma {:induction false} CounterpartyRulesMeaning(items: seq<Json>)
    ensures CounterpartyRules(items).Some? <==> AllNamed(items)
    ensures AllNamed(items) ==> CounterpartyRules(items).value == SignatureRules(Names(items))
  {
    if items == [] {
    } else {
      CounterpartyRulesMeaning(items[1..]);
      assert items == [items[0]] + items[1..];
      if AllNamed(items) {
        assert SignatureRules(Names(items)) == [SignedBy(items[0].text)] + SignatureRules(Names(items[1..]));
      }
    }
  }

  /** A state commitment is accepted exactly when its counterparties are names and the issuer and all of them signed. */
  lemma CommitmentNeedsEveryCounterparty(
    directory: Directory, updates: seq<PolicyUpdate>, tx: Transaction, writes: seq<PersistentWrite>, height: nat)
    requires tx.kind.Record? && tx.kind.record.schemaId == "state_commitment"
    ensures var payload := tx.kind.record.payload;
      Accepted(directory, updates, tx, writes, height)
      <==> && "counterparties" in payload && payload["counterparties"].Array? && AllNamed(payload["counterparties"].items)
           && RecordAccepted(directory, tx, writes, height, [tx.kind.record.issuer] + Names(payload["counterparties"].items))
  {
    var payload := tx.kind.record.payload;
    CoveredIff(tx, writes);
    if "counterparties" in payload && payload["counterparties"].Array? {
      var items := payload["counterparties"].items;
      CounterpartyRulesMeaning(items);
      if AllNamed(items) {
        var names := [tx.kind.record.issuer] + Names(items);
        assert SignatureRules(names) == [SignedBy(tx.kind.record.issuer)] + SignatureRules(Names(items));
        AllNeedsEveryone(directory, names, UnionSigners(tx.endorsements), Payload(tx), height);
        EveryoneIff(directory, tx, height, names);
      }
    }
  }
}
