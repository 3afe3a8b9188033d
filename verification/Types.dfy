/** The records GlassChain commits, and the parts of its environment that the model leaves open. */
module Types {

  datatype Option<+T> = None | Some(value: T)

  /** The error classes of `CoreError`; messages are not modelled. */
  datatype CoreError = InvalidBlock | InvalidTransaction | EmptyLedger | Storage

  /** `Result<(), CoreError>`. */
  datatype Outcome = Ok | Err(error: CoreError)

  /** `Result<T, CoreError>`. */
  datatype Result<+T> = Success(value: T) | Failure(error: CoreError)

  type byte = x: nat | x < 256

  // ---------------------------------------------------------------- contracts

  datatype SupplyOffer = SupplyOffer(
    productId: string, productName: string, sellerId: string,
    quantityAvailable: nat, pricePerUnit: nat, leadTimeDays: nat, currency: string)

  datatype PurchaseOrder = PurchaseOrder(
    productId: string, buyerId: string, sellerId: string,
    quantity: nat, agreedPricePerUnit: nat, currency: string, contractId: Option<string>)

  datatype PurchaseConditions = PurchaseConditions(
    maxPricePerUnit: nat, minQuantity: nat, maxQuantity: nat, maxLeadTimeDays: nat,
    preferredSellerId: Option<string>, currency: string, autoExecute: bool)

  datatype SmartContractDef = SmartContractDef(
    contractId: string, buyerId: string, productId: string,
    conditions: PurchaseConditions, wasmCode: Option<string>)

  datatype ContractExecution = ContractExecution(
    contractId: string, purchaseOrderTxId: string, buyerId: string, sellerId: string,
    productId: string, quantity: nat, totalPrice: nat, currency: string)

  // ---------------------------------------------------------------- governance

  /** A payload value of a canonical record, as far as the endorsement defaults look into it. */
  datatype Json = Text(text: string) | Array(items: seq<Json>) | OtherValue(raw: string)

  datatype CanonicalRecord = CanonicalRecord(
    recordId: string, schemaId: string, issuer: string, payload: map<string, Json>, rest: string)

  datatype CapabilityActivation = CapabilityActivation(
    capabilityId: string, version: nat, hash: string, activationHeight: nat, signatures: seq<string>)

  datatype PolicyExpression =
    | SignedBy(principal: string)
    | NOutOf(required: nat, rules: seq<PolicyExpression>)

  datatype ScopedTarget = ScopedTarget(
    channel: string, contract: string, keys: seq<string>, collection: Option<string>)

  datatype KeyPolicy = KeyPolicy(key: string, policy: PolicyExpression)

  datatype ScopedPolicies = ScopedPolicies(
    channelDefault: PolicyExpression, contractDefault: Option<PolicyExpression>,
    collectionPolicy: Option<PolicyExpression>, keyPolicies: seq<KeyPolicy>)

  datatype PolicyUpdate = PolicyUpdate(channel: string, contract: string, policies: ScopedPolicies)

  datatype EndorserIdentity = EndorserIdentity(
    claimedPrincipal: string, publicKey: seq<byte>, signature: seq<byte>)

  datatype TransactionEndorsement = TransactionEndorsement(
    target: ScopedTarget, signers: seq<EndorserIdentity>)

  // ---------------------------------------------------------------- ledger

  datatype TransactionKind =
    | Offer(offer: SupplyOffer)
    | Order(order: PurchaseOrder)
    | Creation(def: SmartContractDef)
    | Execution(execution: ContractExecution)
    | Inventory(productId: string, ownerId: string, quantityDelta: int, reason: string)
    | Asset(registration: string)
    | Record(record: CanonicalRecord)
    | Activation(activation: CapabilityActivation)
    | Policy(update: PolicyUpdate)

  datatype Transaction = Transaction(
    id: string, timestamp: nat, kind: TransactionKind, endorsements: seq<TransactionEndorsement>)

  datatype WriteVisibility = Public | Pdc(collection: string)

  datatype WriteOp = Set(value: seq<byte>) | Delete

  datatype PersistentWrite = PersistentWrite(
    channel: string, contract: string, key: string, op: WriteOp, visibility: WriteVisibility)

  datatype SignatureAlgorithm = Ed25519 | Bls12381

  /**
   * Ideal BLS: a signature is the multiset of (public key, message) pairs aggregated into it.  Byte
   * strings that do not parse as a signature are `Garbled`; `Absent` is the empty byte string.
   */
  datatype BlsSignature = Absent | Garbled | Bls(parts: multiset<(seq<byte>, seq<byte>)>)

  datatype QuorumCertificate = QuorumCertificate(
    blockIndex: nat, blockHash: string, signersBitmap: seq<bv8>,
    aggregateSignature: BlsSignature, algorithm: SignatureAlgorithm)

  datatype Block = Block(
    index: nat, timestamp: nat, transactions: seq<Transaction>, writeSet: seq<PersistentWrite>,
    previousHash: string, nonce: nat, hash: string, certificate: Option<QuorumCertificate>)

  /** The tuple a block hash covers: everything but the hash itself and the certificate. */
  datatype BlockContent = BlockContent(
    index: nat, timestamp: nat, transactions: seq<Transaction>, writeSet: seq<PersistentWrite>,
    previousHash: string, nonce: nat)

  // ---------------------------------------------------------------- environment
  // Each constant below stands for one fixed but unknown function: whatever is proved holds for
  // every choice of it.

  /** SHA-256 over the serialised block tuple. */
  const BlockDigest: BlockContent -> string

  /** SHA-256 over a capability's "id|vN" identity. */
  const CapabilityDigest: (string, nat) -> string

  /** SHA-256 over a private value, as the hex bytes a redacted write carries. */
  const ValueDigest: seq<byte> -> seq<byte>

  /** `validate_record`: the v1 schema rules of one canonical record. */
  const ValidRecord: CanonicalRecord -> bool
}
