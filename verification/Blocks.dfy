/** Hashing, chaining and consensus admission of blocks (block.rs, consensus.rs). */
module Blocks {
  import opened Types

  const U64_MAX: nat := 0xFFFF_FFFF_FFFF_FFFF

  function Content(b: Block): (r: BlockContent) {
    BlockContent(b.index, b.timestamp, b.transactions, b.writeSet, b.previousHash, b.nonce)
  }

  function CalculateHash(b: Block): (r: string) {
    BlockDigest(Content(b))
  }

  predicate HasLeadingZeros(hash: string, difficulty: nat) {
    |hash| >= difficulty && forall i :: 0 <= i < difficulty ==> hash[i] == '0'
  }

  predicate IsValid(b: Block) {
    b.hash == CalculateHash(b)
  }

  /** `chains_to` returns Ok. */
  predicate ChainsTo(b: Block, previous: Block) {
    b.previousHash == previous.hash && b.index == previous.index + 1 && IsValid(b)
  }

  predicate Degenerate(c: QuorumCertificate) {
    c.signersBitmap == []
  }

  /** `QuorumCertificate::validate` returns Ok. */
  predicate CertificateValid(c: QuorumCertificate, b: Block) {
    && c.blockIndex == b.index
    && c.blockHash == b.hash
    && (Degenerate(c) || (!c.aggregateSignature.Absent? && c.algorithm.Bls12381?))
  }

  predicate ConsensusAdmissible(b: Block, difficulty: nat) {
    || HasLeadingZeros(b.hash, difficulty)
    || (b.certificate.Some? && !Degenerate(b.certificate.value) && CertificateValid(b.certificate.value, b))
  }

  /** Every block after the first chains to its predecessor and is admissible. */
  predicate Linked(chain: seq<Block>, difficulty: nat) {
    forall i :: 1 <= i < |chain| ==> ChainsTo(chain[i], chain[i - 1]) && ConsensusAdmissible(chain[i], difficulty)
  }

  predicate GenesisValid(chain: seq<Block>, difficulty: nat) {
    chain != [] ==> IsValid(chain[0]) && HasLeadingZeros(chain[0].hash, difficulty)
  }

  /** The two blocks agree on everything but the certificate. */
  predicate SameBlock(a: Block, b: Block) {
    && a.index == b.index && a.timestamp == b.timestamp && a.nonce == b.nonce
    && a.transactions == b.transactions && a.writeSet == b.writeSet
    && a.previousHash == b.previousHash && a.hash == b.hash
  }

  /** Two different tuples of hashed fields with one digest: a hash collision, in hand. */
  predicate Collides(a: Block, b: Block) {
    var x := BlockContent(a.index, a.timestamp, a.transactions, a.writeSet, a.previousHash, a.nonce);
    var y := BlockContent(b.index, b.timestamp, b.transactions, b.writeSet, b.previousHash, b.nonce);
    x != y && BlockDigest(x) == BlockDigest(y)
  }

  /**
   * The hash seals the block: whatever else carries a valid block's hash is valid if and only if it
   * agrees with the block on every field but the certificate, or collides with it.
   */
  lemma HashSealsBlock(b: Block, other: Block)
    requires IsValid(b) && other.hash == b.hash
    ensures IsValid(other) <==> SameBlock(b, other) || Collides(b, other)
  {
  }

  lemma {:induction false} IndexesAreConsecutive(chain: seq<Block>, difficulty: nat, i: nat)
    requires Linked(chain, difficulty) && i < |chain|
    ensures chain[i].index == chain[0].index + i
  {
    if i == 0 {
    } else {
      IndexesAreConsecutive(chain, difficulty, i - 1);
      assert ChainsTo(chain[i], chain[i - 1]);
    }
  }

  lemma LinkedBlockIsValid(chain: seq<Block>, difficulty: nat, i: nat)
    requires Linked(chain, difficulty) && GenesisValid(chain, difficulty) && i < |chain|
    ensures IsValid(chain[i])
  {
    if i > 0 { assert ChainsTo(chain[i], chain[i - 1]); }
  }

  /** Same length, and the same block at every position up to its certificate. */
  predicate SameHistory(xs: seq<Block>, ys: seq<Block>) {
    |xs| == |ys| && forall i :: 0 <= i < |xs| ==> SameBlock(xs[i], ys[i])
  }

  predicate ExhibitsCollision(xs: seq<Block>, ys: seq<Block>) {
    exists i, j :: 0 <= i < |xs| && 0 <= j < |ys| && Collides(xs[i], ys[j])
  }

  /**
   * The tip hash fixes the whole history: two accepted chains that start at the same index and end in
   * the same hash agree on every field of every block but its certificate, or exhibit a hash collision.
   */
  lemma {:induction false} TipHashFixesHistory(xs: seq<Block>, ys: seq<Block>, difficulty: nat)
    requires xs != [] && ys != []
    requires Linked(xs, difficulty) && GenesisValid(xs, difficulty)
    requires Linked(ys, difficulty) && GenesisValid(ys, difficulty)
    requires xs[0].index == ys[0].index
    requires xs[|xs| - 1].hash == ys[|ys| - 1].hash
    ensures SameHistory(xs, ys) || ExhibitsCollision(xs, ys)
    decreases |xs|
  {
    var m, n := |xs| - 1, |ys| - 1;
    LinkedBlockIsValid(xs, difficulty, m);
    LinkedBlockIsValid(ys, difficulty, n);
    IndexesAreConsecutive(xs, difficulty, m);
    IndexesAreConsecutive(ys, difficulty, n);
    HashSealsBlock(xs[m], ys[n]);
    if Collides(xs[m], ys[n]) {
    } else {
      if m > 0 {
        assert ChainsTo(xs[m], xs[m - 1]) && ChainsTo(ys[n], ys[n - 1]);
        var xs', ys' := xs[..m], ys[..n];
        TipHashFixesHistory(xs', ys', difficulty);
        if ExhibitsCollision(xs', ys') {
          var i, j :| 0 <= i < |xs'| && 0 <= j < |ys'| && Collides(xs'[i], ys'[j]);
          assert Collides(xs[i], ys[j]);
        }
      }
    }
  }

  /** The block carries its proof of work, or a certificate that names exactly this block. */
  predicate Attested(b: Block, difficulty: nat) {
    || (|b.hash| >= difficulty && forall i :: 0 <= i < difficulty ==> b.hash[i] == '0')
    || (&& b.certificate.Some?
        && b.certificate.value.blockIndex == b.index && b.certificate.value.blockHash == b.hash
        && b.certificate.value.signersBitmap != []
        && b.certificate.value.aggregateSignature != Absent && b.certificate.value.algorithm == Bls12381)
  }

  /** The block's hash is the digest of its own fields. */
  predicate Sealed(b: Block) {
    b.hash == BlockDigest(BlockContent(b.index, b.timestamp, b.transactions, b.writeSet, b.previousHash, b.nonce))
  }

  /** Every block is sealed, names its predecessor's hash and the next index, and is attested; the first by proof of work. */
  predicate HeadersValid(chain: seq<Block>, difficulty: nat) {
    && (forall i :: 0 <= i < |chain| ==> Sealed(chain[i]))
    && (forall i :: 1 <= i < |chain| ==>
          && chain[i].previousHash == chain[i - 1].hash && chain[i].index == chain[i - 1].index + 1
          && Attested(chain[i], difficulty))
    && (chain != [] ==> |chain[0].hash| >= difficulty && forall i :: 0 <= i < difficulty ==> chain[0].hash[i] == '0')
  }

  lemma HeadersValidIff(chain: seq<Block>, difficulty: nat)
    ensures Linked(chain, difficulty) && GenesisValid(chain, difficulty) <==> HeadersValid(chain, difficulty)
  {
    if Linked(chain, difficulty) && GenesisValid(chain, difficulty) {
      forall i | 0 <= i < |chain| ensures Sealed(chain[i]) { LinkedBlockIsValid(chain, difficulty, i); }
    }
  }

  /** `after` is `before` with the proof-of-work fields settled. */
  predicate Mined(before: Block, after: Block, difficulty: nat) {
    && after == before.(nonce := after.nonce, timestamp := after.timestamp, hash := after.hash)
    && Sealed(after)
    && |after.hash| >= difficulty && forall i :: 0 <= i < difficulty ==> after.hash[i] == '0'
  }

  /** The hash of `b` at another nonce. */
  function HashAt(b: Block, nonce: nat): (r: string) {
    BlockDigest(BlockContent(b.index, b.timestamp, b.transactions, b.writeSet, b.previousHash, nonce))
  }

  /**
   * Proof of work, with a bound on the attempts in place of the source's unbounded loop.  While the
   * nonce does not wrap, the block found is the one with the least successful nonce.
   */
  method Mine(block: Block, difficulty: nat, clock: nat, attempts: nat) returns (mined: Block, found: bool)
    requires block.nonce <= U64_MAX
    ensures found ==> Mined(block, mined, difficulty)
    ensures block.nonce + attempts <= U64_MAX ==>
      && mined.timestamp == block.timestamp && block.nonce <= mined.nonce
      && forall n :: block.nonce <= n < mined.nonce ==> !HasLeadingZeros(HashAt(block, n), difficulty)
    ensures !found && block.nonce + attempts <= U64_MAX ==>
      forall n :: block.nonce <= n <= block.nonce + attempts ==> !HasLeadingZeros(HashAt(block, n), difficulty)
  {
    mined := block.(hash := CalculateHash(block));
    var left := attempts;
    while !HasLeadingZeros(mined.hash, difficulty) && left > 0
      invariant mined == block.(nonce := mined.nonce, timestamp := mined.timestamp, hash := mined.hash)
      invariant IsValid(mined) && mined.nonce <= U64_MAX
      invariant left <= attempts
      invariant block.nonce + attempts <= U64_MAX ==>
        && mined.timestamp == block.timestamp && mined.nonce == block.nonce + attempts - left
        && Content(mined) == Content(block.(nonce := mined.nonce))
        && forall n :: block.nonce <= n < mined.nonce ==> !HasLeadingZeros(HashAt(block, n), difficulty)
      decreases left
    {
      if mined.nonce == U64_MAX {
        mined := mined.(timestamp := clock);
      }
      mined := mined.(nonce := (mined.nonce + 1) % (U64_MAX + 1));
      mined := mined.(hash := CalculateHash(mined));
      left := left - 1;
    }
    found := HasLeadingZeros(mined.hash, difficulty);
  }
}
