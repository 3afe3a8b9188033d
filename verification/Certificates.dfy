/** Vote aggregation and quorum certificates (bft.rs). */
module Certificates {
  import opened Types
  import opened Bitmap
  import Blocks
  import Votes

  type bytes = seq<byte>
  type Parts = multiset<(bytes, bytes)>

  datatype ValidatorInfo = ValidatorInfo(name: string, publicKey: bytes, pop: BlsSignature)

  /** The hex digits of a key. */
  const Hex: bytes -> string

  /** A 48-byte key with a verified proof of possession. */
  predicate Possessed(v: ValidatorInfo) {
    && |v.publicKey| == 48
    && Votes.WellFormedBlsKey(v.publicKey)
    && Votes.Verifies(v.publicKey, v.pop, Votes.PopMessage(Hex(v.publicKey)))
  }

  /** `BftConsensusProvider::new` accepts the set. */
  predicate Registered(validators: seq<ValidatorInfo>) {
    forall i :: 0 <= i < |validators| ==> Possessed(validators[i])
  }

  /** `BftConsensusProvider::new`: every key is 48 bytes, decodes, and signed its own proof of possession. */
  method RegisterValidators(validators: seq<ValidatorInfo>) returns (outcome: Outcome)
    ensures outcome == if Registered(validators) then Ok else Err(InvalidBlock)
    ensures outcome.Ok? <==> forall i :: 0 <= i < |validators| ==>
      var key := validators[i].publicKey;
      && |key| == 48 && Votes.WellFormedBlsKey(key)
      && validators[i].pop == Bls(multiset{(key, Votes.Ascii("glasschain-bls-pop:") + Votes.Utf8(Hex(key)))})
  {
    for i := 0 to |validators|
      invariant Registered(validators[..i])
    {
      var v := validators[i];
      if |v.publicKey| != 48 {
        return Err(InvalidBlock);
      }
      if !Votes.WellFormedBlsKey(v.publicKey) {
        return Err(InvalidBlock);
      }
      if !Votes.Verifies(v.publicKey, v.pop, Votes.PopMessage(Hex(v.publicKey))) {
        return Err(InvalidBlock);
      }
    }
    assert validators[..|validators|] == validators;
    return Ok;
  }

  /** The first validator at `from` or later that holds `key`. */
  function Position(validators: seq<ValidatorInfo>, key: bytes, from: nat): (r: Option<nat>)
    ensures r.Some? ==> from <= r.value < |validators| && validators[r.value].publicKey == key
    ensures r.Some? ==> forall i :: from <= i < r.value ==> validators[i].publicKey != key
    ensures r.None? ==> forall i :: from <= i < |validators| ==> validators[i].publicKey != key
    decreases |validators| - from
  {
    if from >= |validators| then None
    else if validators[from].publicKey == key then Some(from)
    else Position(validators, key, from + 1)
  }

  /** The vote is signed twice with its own key, over its hash and over its context, and the key is in the set. */
  predicate Countable(validators: seq<ValidatorInfo>, v: Votes.BftVote)
    requires Votes.ValidVote(v)
  {
    && v.algorithm == Bls12381 && Votes.WellFormedBlsKey(v.publicKey)
    && v.signature == Bls(multiset{(v.publicKey, Votes.VoteMessage(v.blockHash))})
    && v.contextSignature == Bls(multiset{(v.publicKey, Votes.ContextMessage(v.context, v.blockHash))})
    && exists i :: 0 <= i < |validators| && validators[i].publicKey == v.publicKey
  }

  /** `verify_vote`: the voter's position, if the vote verifies and the voter is in the set. */
  function VerifyVote(validators: seq<ValidatorInfo>, vote: Votes.BftVote): (r: Option<nat>)
    requires Votes.ValidVote(vote)
    ensures r.Some? ==> r.value < |validators| && validators[r.value].publicKey == vote.publicKey && Votes.VoteVerifies(vote)
    ensures r.Some? <==> Countable(validators, vote)
  {
    if Votes.VoteVerifies(vote) then Position(validators, vote.publicKey, 0) else None
  }

  predicate AllValid(votes: seq<Votes.BftVote>) {
    forall i :: 0 <= i < |votes| ==> Votes.ValidVote(votes[i])
  }

  /** Each vote's voter, where the vote verifies and the voter is in the set. */
  function Positions(validators: seq<ValidatorInfo>, votes: seq<Votes.BftVote>): (r: seq<Option<nat>>)
    requires AllValid(votes)
  {
    seq(|votes|, i requires 0 <= i < |votes| => VerifyVote(validators, votes[i]))
  }

  /** Every vote verifies and comes from the set. */
  predicate AllVerified(validators: seq<ValidatorInfo>, votes: seq<Votes.BftVote>)
    requires AllValid(votes)
  {
    None !in Positions(validators, votes)
  }

  lemma AllCountable(validators: seq<ValidatorInfo>, votes: seq<Votes.BftVote>)
    requires AllValid(votes)
    ensures AllVerified(validators, votes) <==> forall i :: 0 <= i < |votes| ==> Countable(validators, votes[i])
  {
    var positions := Positions(validators, votes);
    forall i | 0 <= i < |votes| ensures positions[i] in positions && (positions[i].Some? <==> Countable(validators, votes[i])) { }
  }

  predicate Voted(validators: seq<ValidatorInfo>, votes: seq<Votes.BftVote>, position: nat)
    requires AllValid(votes)
  {
    Some(position) in Positions(validators, votes)
  }

  /** One (key, message) pair per named position below `n`. */
  function SetParts(validators: seq<ValidatorInfo>, named: set<nat>, n: nat, message: bytes): (r: Parts)
    requires n <= |validators|
  {
    if n == 0 then multiset{}
    else
      var below := SetParts(validators, named, n - 1, message);
      if n - 1 in named then below + multiset{(validators[n - 1].publicKey, message)} else below
  }

  lemma Commute(p: Parts, x: Parts, y: Parts)
    ensures p + x + y == p + y + x
  {
  }

  /** The bitmap is sized for the set and names exactly the voters. */
  ghost predicate NamesVoters(validators: seq<ValidatorInfo>, votes: seq<Votes.BftVote>, bitmap: seq<bv8>)
    requires AllValid(votes)
  {
    |bitmap| == BitmapLen(|validators|) && forall i: nat :: Has(bitmap, i) <==> Voted(validators, votes, i)
  }

  // ---------------------------------------------------------------- ballots

  /** Where `x` first stands. */
  function FirstIndex(xs: seq<Option<nat>>, x: Option<nat>): (r: nat)
    requires x in xs
    ensures r < |xs| && xs[r] == x && forall j :: 0 <= j < r ==> xs[j] != x
  {
    if xs[0] == x then 0 else 1 + FirstIndex(xs[1..], x)
  }

  /** The hash each position is first seen with. */
  ghost function FirstHashes(positions: seq<Option<nat>>, hashes: seq<string>, n: nat): (r: map<nat, string>)
    requires |positions| == |hashes|
  {
    map i: nat | i < n && Some(i) in positions :: hashes[FirstIndex(positions, Some(i))]
  }

  function Hashes(votes: seq<Votes.BftVote>): (r: seq<string>) {
    seq(|votes|, i requires 0 <= i < |votes| => votes[i].blockHash)
  }

  /** What each voter is counted for: the hash its first vote names. */
  ghost function Ballots(validators: seq<ValidatorInfo>, votes: seq<Votes.BftVote>): (r: map<nat, string>)
    requires AllValid(votes)
  {
    FirstHashes(Positions(validators, votes), Hashes(votes), |validators|)
  }

  ghost predicate AllEncodable(ballots: map<nat, string>) {
    forall i :: i in ballots ==> Votes.Encodable(ballots[i])
  }

  lemma BallotsAreEncodable(validators: seq<ValidatorInfo>, votes: seq<Votes.BftVote>)
    requires AllValid(votes)
    ensures AllEncodable(Ballots(validators, votes))
  {
  }

  /** One signature per voter below `n`, over the message of its ballot. */
  ghost function VoterParts(validators: seq<ValidatorInfo>, ballots: map<nat, string>, n: nat): (r: Parts)
    requires n <= |validators| && AllEncodable(ballots)
  {
    if n == 0 then multiset{}
    else
      var below := VoterParts(validators, ballots, n - 1);
      if n - 1 in ballots then below + multiset{(validators[n - 1].publicKey, Votes.VoteMessage(ballots[n - 1]))} else below
  }

  /** The signature of the voter at position `i` over the message of `h`. */
  function PartOf(validators: seq<ValidatorInfo>, i: nat, h: string): (r: Parts)
    requires i < |validators| && Votes.Encodable(h)
  {
    multiset{(validators[i].publicKey, Votes.VoteMessage(h))}
  }

  lemma VoterPartsStep(validators: seq<ValidatorInfo>, ballots: map<nat, string>, n: nat)
    requires 0 < n <= |validators| && AllEncodable(ballots)
    ensures VoterParts(validators, ballots, n)
         == if n - 1 in ballots then VoterParts(validators, ballots, n - 1) + PartOf(validators, n - 1, ballots[n - 1])
            else VoterParts(validators, ballots, n - 1)
  {
  }

  /** A ballot at or past `n` adds nothing below `n`. */
  lemma {:induction false} VoterPartsBelow(validators: seq<ValidatorInfo>, ballots: map<nat, string>, i: nat, h: string, n: nat)
    requires n <= i && n <= |validators| && AllEncodable(ballots) && AllEncodable(ballots[i := h])
    ensures VoterParts(validators, ballots[i := h], n) == VoterParts(validators, ballots, n)
  {
    if n == 0 {
    } else {
      VoterPartsBelow(validators, ballots, i, h, n - 1);
    }
  }

  /** One more ballot is one more signature. */
  lemma {:induction false} VoterPartsAddOne(validators: seq<ValidatorInfo>, ballots: map<nat, string>, i: nat, h: string, n: nat)
    requires i < n <= |validators| && i !in ballots && AllEncodable(ballots) && Votes.Encodable(h)
    ensures AllEncodable(ballots[i := h])
    ensures VoterParts(validators, ballots[i := h], n) == VoterParts(validators, ballots, n) + PartOf(validators, i, h)
  {
    var more := ballots[i := h];
    VoterPartsStep(validators, ballots, n);
    VoterPartsStep(validators, more, n);
    if i == n - 1 {
      VoterPartsBelow(validators, ballots, i, h, n - 1);
    } else {
      VoterPartsAddOne(validators, ballots, i, h, n - 1);
      if n - 1 in ballots {
        Commute(VoterParts(validators, ballots, n - 1), PartOf(validators, i, h), PartOf(validators, n - 1, ballots[n - 1]));
      }
    }
  }

  lemma FirstIndexIs(xs: seq<Option<nat>>, x: Option<nat>, k: nat)
    requires k < |xs| && xs[k] == x && forall j :: 0 <= j < k ==> xs[j] != x
    ensures x in xs && FirstIndex(xs, x) == k
  {
  }

  lemma FirstHashesPush(positions: seq<Option<nat>>, hashes: seq<string>, n: nat, index: nat, h: string)
    requires |positions| == |hashes| && index < n
    ensures var earlier := FirstHashes(positions, hashes, n);
      FirstHashes(positions + [Some(index)], hashes + [h], n) == if index in earlier then earlier else earlier[index := h]
  {
    var earlier, more := FirstHashes(positions, hashes, n), positions + [Some(index)];
    forall k: nat | k in earlier ensures FirstIndex(more, Some(k)) == FirstIndex(positions, Some(k)) {
      FirstIndexIs(more, Some(k), FirstIndex(positions, Some(k)));
    }
    if index !in earlier { FirstIndexIs(more, Some(index), |positions|); }
  }

  /** Only a voter's first vote is a ballot. */
  lemma BallotsPush(validators: seq<ValidatorInfo>, votes: seq<Votes.BftVote>, i: nat, index: nat)
    requires AllValid(votes) && i < |votes| && VerifyVote(validators, votes[i]) == Some(index)
    ensures var earlier := Ballots(validators, votes[..i]);
      Ballots(validators, votes[..i + 1]) == if index in earlier then earlier else earlier[index := votes[i].blockHash]
  {
    PositionsPush(validators, votes, i);
    assert Hashes(votes[..i + 1]) == Hashes(votes[..i]) + [votes[i].blockHash];
    FirstHashesPush(Positions(validators, votes[..i]), Hashes(votes[..i]), |validators|, index, votes[i].blockHash);
  }

  // ---------------------------------------------------------------- aggregation

  ghost predicate Aggregated(validators: seq<ValidatorInfo>, votes: seq<Votes.BftVote>, bitmap: seq<bv8>, parts: Parts)
    requires AllValid(votes)
  {
    BallotsAreEncodable(validators, votes);
    && AllVerified(validators, votes)
    && NamesVoters(validators, votes, bitmap)
    && parts == VoterParts(validators, Ballots(validators, votes), |validators|)
  }

  lemma NamesPush(validators: seq<ValidatorInfo>, votes: seq<Votes.BftVote>, i: nat, bitmap: seq<bv8>, index: nat)
    requires AllValid(votes) && i < |votes| && VerifyVote(validators, votes[i]) == Some(index)
    requires NamesVoters(validators, votes[..i], bitmap)
    ensures NamesVoters(validators, votes[..i + 1], if Has(bitmap, index) then bitmap else WithBit(bitmap, index))
  {
    PositionsPush(validators, votes, i);
    if !Has(bitmap, index) {
      forall j: nat ensures Has(WithBit(bitmap, index), j) <==> Has(bitmap, j) || index == j {
        WithBitAddsOne(bitmap, index, j);
      }
    }
  }

  /** A first vote of a validator sets its bit and adds its signature. */
  lemma NewVoter(
    validators: seq<ValidatorInfo>, votes: seq<Votes.BftVote>, i: nat, bitmap: seq<bv8>, parts: Parts, index: nat)
    requires AllValid(votes) && i < |votes| && VerifyVote(validators, votes[i]) == Some(index)
    requires Aggregated(validators, votes[..i], bitmap, parts) && !Has(bitmap, index)
    ensures Aggregated(validators, votes[..i + 1], WithBit(bitmap, index), parts + votes[i].signature.parts)
  {
    PositionsPush(validators, votes, i);
    NamesPush(validators, votes, i, bitmap, index);
    BallotsPush(validators, votes, i, index);
    BallotsAreEncodable(validators, votes[..i]);
    VoterPartsAddOne(validators, Ballots(validators, votes[..i]), index, votes[i].blockHash, |validators|);
  }

  /** A repeated vote changes nothing. */
  lemma RepeatedVoter(
    validators: seq<ValidatorInfo>, votes: seq<Votes.BftVote>, i: nat, bitmap: seq<bv8>, parts: Parts, index: nat)
    requires AllValid(votes) && i < |votes| && VerifyVote(validators, votes[i]) == Some(index)
    requires Aggregated(validators, votes[..i], bitmap, parts) && Has(bitmap, index)
    ensures Aggregated(validators, votes[..i + 1], bitmap, parts)
  {
    PositionsPush(validators, votes, i);
    NamesPush(validators, votes, i, bitmap, index);
    BallotsPush(validators, votes, i, index);
  }

  /** Verify every vote and aggregate the first signature of each distinct voter. */
  method AggregateVotes(validators: seq<ValidatorInfo>, votes: seq<Votes.BftVote>) returns (r: Result<(seq<bv8>, BlsSignature)>)
    requires AllValid(votes)
    ensures r.Success? <==> AllVerified(validators, votes) && votes != []
    ensures r.Success? <==> votes != [] && forall i :: 0 <= i < |votes| ==> Countable(validators, votes[i])
    ensures r.Failure? ==> r.error == InvalidBlock
    ensures r.Success? ==> r.value.1.Bls? && Aggregated(validators, votes, r.value.0, r.value.1.parts)
  {
    AllCountable(validators, votes);
    var bitmap: seq<bv8> := seq(BitmapLen(|validators|), _ => 0);
    var parts: Parts := multiset{};
    NothingAggregated(validators, votes, bitmap);
    for i := 0 to |votes|
      invariant Aggregated(validators, votes[..i], bitmap, parts)
    {
      var index := VerifyVote(validators, votes[i]);
      if index.None? {
        assert Positions(validators, votes)[i] == None;
        return Failure(InvalidBlock);
      }
      bitmap, parts := AggregateOne(validators, votes, i, bitmap, parts, index.value);
    }
    assert votes[..|votes|] == votes;
    if votes == [] {
      return Failure(InvalidBlock);
    }
    return Success((bitmap, Bls(parts)));
  }

  /** One verified vote; only the first of a voter counts. */
  method AggregateOne(
    validators: seq<ValidatorInfo>, votes: seq<Votes.BftVote>, i: nat, bitmap: seq<bv8>, parts: Parts, index: nat)
    returns (bitmap': seq<bv8>, parts': Parts)
    requires AllValid(votes) && i < |votes| && VerifyVote(validators, votes[i]) == Some(index)
    requires Aggregated(validators, votes[..i], bitmap, parts)
    ensures Aggregated(validators, votes[..i + 1], bitmap', parts')
  {
    if Has(bitmap, index) {
      RepeatedVoter(validators, votes, i, bitmap, parts, index);
      return bitmap, parts;
    }
    NewVoter(validators, votes, i, bitmap, parts, index);
    return WithBit(bitmap, index), parts + votes[i].signature.parts;
  }

  lemma NothingAggregated(validators: seq<ValidatorInfo>, votes: seq<Votes.BftVote>, bitmap: seq<bv8>)
    requires AllValid(votes) && |bitmap| == BitmapLen(|validators|) && forall i :: 0 <= i < |bitmap| ==> bitmap[i] == 0
    ensures Aggregated(validators, votes[..0], bitmap, multiset{})
  {
    forall j: nat ensures !Has(bitmap, j) { }
    assert Ballots(validators, votes[..0]) == map[];
    NoParts(validators, |validators|);
  }

  lemma {:induction false} NoParts(validators: seq<ValidatorInfo>, n: nat)
    requires n <= |validators|
    ensures VoterParts(validators, map[], n) == multiset{}
  {
    if n == 0 {
    } else {
      NoParts(validators, n - 1);
    }
  }

  /** Taking in one more vote adds its voter and nobody else. */
  lemma PositionsPush(validators: seq<ValidatorInfo>, votes: seq<Votes.BftVote>, i: nat)
    requires AllValid(votes) && i < |votes|
    ensures Positions(validators, votes[..i + 1]) == Positions(validators, votes[..i]) + [VerifyVote(validators, votes[i])]
  {
  }

  // ---------------------------------------------------------------- certificates

  /** The pairs a same-message aggregate by `keys` consists of. */
  function KeyParts(keys: seq<bytes>, message: bytes): (r: Parts) {
    if keys == [] then multiset{}
    else KeyParts(keys[..|keys| - 1], message) + multiset{(keys[|keys| - 1], message)}
  }

  /** FastAggregateVerify, section 3.3.4 of draft-irtf-cfrg-bls-signature, over ideal signatures. */
  predicate FastAggregateVerify(signature: BlsSignature, keys: seq<bytes>, message: bytes) {
    && signature.Bls?
    && (forall i :: 0 <= i < |keys| ==> Votes.WellFormedBlsKey(keys[i]))
    && signature.parts == KeyParts(keys, message)
  }

  function SignerKeys(validators: seq<ValidatorInfo>, signers: seq<nat>): (r: seq<bytes>)
    requires InRange(signers, |validators|)
  {
    seq(|signers|, i requires 0 <= i < |signers| => validators[signers[i]].publicKey)
  }

  /** What `verify_certificate` accepts. */
  predicate CertificateAccepted(validators: seq<ValidatorInfo>, c: QuorumCertificate, b: Block)
    requires Votes.Encodable(b.hash)
  {
    && Blocks.CertificateValid(c, b)
    && !Blocks.Degenerate(c)
    && |c.signersBitmap| <= USIZE_MAX / 8
    && |Signers(c.signersBitmap)| >= QuorumThreshold(|validators|)
    && InRange(Signers(c.signersBitmap), |validators|)
    && FastAggregateVerify(c.aggregateSignature, SignerKeys(validators, Signers(c.signersBitmap)), Votes.VoteMessage(b.hash))
  }

  method VerifyCertificate(validators: seq<ValidatorInfo>, c: QuorumCertificate, b: Block) returns (outcome: Outcome)
    requires Registered(validators) && Votes.Encodable(b.hash)
    ensures outcome == if CertificateAccepted(validators, c, b) then Ok else Err(InvalidBlock)
    ensures outcome.Ok? <==> Certified(validators, c, b)
  {
    CertifiedIff(validators, c, b);
    if !Blocks.CertificateValid(c, b) {
      return Err(InvalidBlock);
    }
    if Blocks.Degenerate(c) {
      return Err(InvalidBlock);
    }
    if |c.signersBitmap| > USIZE_MAX / 8 {
      return Err(InvalidBlock);
    }
    var signers := ExpandSigners(c.signersBitmap);
    if |signers| < QuorumThreshold(|validators|) {
      return Err(InvalidBlock);
    }
    var inRange := SignersInRange(signers, |validators|);
    if !inRange {
      return Err(InvalidBlock);
    }
    var keys := SignerKeys(validators, signers);
    if !FastAggregateVerify(c.aggregateSignature, keys, Votes.VoteMessage(b.hash)) {
      return Err(InvalidBlock);
    }
    return Ok;
  }

  // ---------------------------------------------------------------- main results

  lemma OneMoreKey(validators: seq<ValidatorInfo>, signers: seq<nat>, i: nat, message: bytes)
    requires InRange(signers, |validators|) && i < |validators|
    ensures InRange(signers + [i], |validators|)
    ensures KeyParts(SignerKeys(validators, signers + [i]), message)
         == KeyParts(SignerKeys(validators, signers), message) + multiset{(validators[i].publicKey, message)}
  {
    var fewer, more := SignerKeys(validators, signers), SignerKeys(validators, signers + [i]);
    assert more == fewer + [validators[i].publicKey];
    assert more[..|more| - 1] == fewer;
  }

  lemma KeyPartsStep(validators: seq<ValidatorInfo>, signers: seq<nat>, named: set<nat>, n: nat, message: bytes)
    requires 0 < n <= |validators| && InRange(signers, |validators|)
    requires KeyParts(SignerKeys(validators, signers), message) == SetParts(validators, named, n - 1, message)
    ensures var all := if n - 1 in named then signers + [n - 1] else signers;
      InRange(all, |validators|) && KeyParts(SignerKeys(validators, all), message) == SetParts(validators, named, n, message)
  {
    if n - 1 in named { OneMoreKey(validators, signers, n - 1, message); }
  }

  lemma {:induction false} BitPartsAreKeyParts(validators: seq<ValidatorInfo>, bitmap: seq<bv8>, n: nat, message: bytes)
    requires n <= |validators|
    ensures InRange(SetBits(bitmap, n), |validators|)
    ensures KeyParts(SignerKeys(validators, SetBits(bitmap, n)), message)
         == SetParts(validators, Named(bitmap, |validators|), n, message)
  {
    if n == 0 {
    } else {
      BitPartsAreKeyParts(validators, bitmap, n - 1, message);
      var named, signers := Named(bitmap, |validators|), SetBits(bitmap, n - 1);
      KeyPartsStep(validators, signers, named, n, message);
      SetBitsStep(bitmap, n, |validators|);
    }
  }

  /** Bits past the last validator are clear, so cutting the expansion there loses nothing. */
  lemma {:induction false} SetBitsPast(bitmap: seq<bv8>, n: nat, m: nat)
    requires n <= m && forall i: nat :: n <= i ==> !Has(bitmap, i)
    ensures SetBits(bitmap, m) == SetBits(bitmap, n)
  {
    if n < m { SetBitsPast(bitmap, n, m - 1); }
  }

  /** A bitmap that names only validators expands to positions in the set. */
  lemma SignersWithin(bitmap: seq<bv8>, n: nat)
    requires forall i: nat :: Has(bitmap, i) ==> i < n
    ensures Signers(bitmap) == SetBits(bitmap, n)
  {
    if n <= 8 * |bitmap| {
      SetBitsPast(bitmap, n, 8 * |bitmap|);
    } else {
      forall i: nat | 8 * |bitmap| <= i ensures !Has(bitmap, i) { assert i / 8 >= |bitmap|; }
      SetBitsPast(bitmap, 8 * |bitmap|, n);
    }
  }

  /** The distinct voters, as positions. */
  ghost function Voters(validators: seq<ValidatorInfo>, votes: seq<Votes.BftVote>): (r: set<nat>)
    requires AllValid(votes)
  {
    set i: nat | i < |validators| && Voted(validators, votes, i)
  }

  /** Every ballot names `h`. */
  ghost predicate Unanimous(ballots: map<nat, string>, h: string) {
    forall i :: i in ballots ==> ballots[i] == h
  }

  lemma {:induction false} UniformParts(validators: seq<ValidatorInfo>, ballots: map<nat, string>, n: nat, h: string)
    requires n <= |validators| && AllEncodable(ballots) && Votes.Encodable(h) && Unanimous(ballots, h)
    ensures VoterParts(validators, ballots, n) == SetParts(validators, ballots.Keys, n, Votes.VoteMessage(h))
  {
    if n == 0 {
    } else {
      UniformParts(validators, ballots, n - 1, h);
    }
  }

  lemma {:induction false} VoterPartsMember(validators: seq<ValidatorInfo>, ballots: map<nat, string>, n: nat, i: nat)
    requires i < n <= |validators| && AllEncodable(ballots) && i in ballots
    ensures (validators[i].publicKey, Votes.VoteMessage(ballots[i])) in VoterParts(validators, ballots, n)
  {
    if i == n - 1 {
    } else {
      VoterPartsMember(validators, ballots, n - 1, i);
    }
  }

  lemma {:induction false} SetPartsMessage(validators: seq<ValidatorInfo>, named: set<nat>, n: nat, message: bytes)
    requires n <= |validators|
    ensures forall part :: part in SetParts(validators, named, n, message) ==> part.1 == message
  {
    if n == 0 {
    } else {
      SetPartsMessage(validators, named, n - 1, message);
    }
  }

  /** The aggregate is one over a single message exactly when all ballots name its hash. */
  lemma UniformIffUnanimous(validators: seq<ValidatorInfo>, ballots: map<nat, string>, h: string)
    requires AllEncodable(ballots) && Votes.Encodable(h) && forall i :: i in ballots ==> i < |validators|
    ensures VoterParts(validators, ballots, |validators|) == SetParts(validators, ballots.Keys, |validators|, Votes.VoteMessage(h))
       <==> Unanimous(ballots, h)
  {
    var n := |validators|;
    if Unanimous(ballots, h) {
      UniformParts(validators, ballots, n, h);
    } else {
      var i :| i in ballots && ballots[i] != h;
      VoterPartsMember(validators, ballots, n, i);
      SetPartsMessage(validators, ballots.Keys, n, Votes.VoteMessage(h));
      if Votes.VoteMessage(ballots[i]) == Votes.VoteMessage(h) { Votes.VoteMessageInjective(ballots[i], h); }
    }
  }

  /** The aggregate expands to the distinct voters, ascending; it signs one message exactly when all first votes name its hash. */
  lemma AggregateExpandsToVoters(
    validators: seq<ValidatorInfo>, votes: seq<Votes.BftVote>, bitmap: seq<bv8>, parts: Parts, h: string)
    requires AllValid(votes) && Votes.Encodable(h) && Aggregated(validators, votes, bitmap, parts)
    ensures Ascending(Signers(bitmap)) && InRange(Signers(bitmap), |validators|)
    ensures forall i: nat :: i in Signers(bitmap) <==> i in Voters(validators, votes)
    ensures |Signers(bitmap)| == |Voters(validators, votes)|
    ensures parts == KeyParts(SignerKeys(validators, Signers(bitmap)), Votes.VoteMessage(h))
       <==> Unanimous(Ballots(validators, votes), h)
  {
    var n, ballots := |validators|, Ballots(validators, votes);
    forall i: nat | Has(bitmap, i) ensures i < n {
      var k :| 0 <= k < |votes| && Positions(validators, votes)[k] == Some(i);
      assert VerifyVote(validators, votes[k]) == Some(i);
    }
    SignersWithin(bitmap, n);
    SignersAreExactlyTheSetBits(bitmap);
    BitPartsAreKeyParts(validators, bitmap, n, Votes.VoteMessage(h));
    NamedCount(bitmap, n);
    assert Named(bitmap, n) == Voters(validators, votes);
    assert ballots.Keys == Voters(validators, votes);
    BallotsAreEncodable(validators, votes);
    UniformIffUnanimous(validators, ballots, h);
  }

  lemma AggregateFits(validators: seq<ValidatorInfo>, votes: seq<Votes.BftVote>, bitmap: seq<bv8>)
    requires AllValid(votes) && votes != [] && 2 * |validators| <= USIZE_MAX
    requires AllVerified(validators, votes) && NamesVoters(validators, votes, bitmap)
    ensures bitmap != [] && |bitmap| <= USIZE_MAX / 8
  {
    assert Positions(validators, votes)[0] in Positions(validators, votes);
    assert Voted(validators, votes, VerifyVote(validators, votes[0]).value);
  }

  lemma RegisteredKeys(validators: seq<ValidatorInfo>, signers: seq<nat>)
    requires Registered(validators) && InRange(signers, |validators|)
    ensures forall i :: 0 <= i < |signers| ==> Votes.WellFormedBlsKey(SignerKeys(validators, signers)[i])
  {
    forall i | 0 <= i < |signers| ensures Votes.WellFormedBlsKey(SignerKeys(validators, signers)[i]) {
      assert Possessed(validators[signers[i]]);
    }
  }

  // ---------------------------------------------------------------- voters, as keys

  /** The keys at the given positions. */
  function KeysAt(validators: seq<ValidatorInfo>, positions: set<nat>): (r: set<bytes>)
    requires forall i :: i in positions ==> i < |validators|
  {
    set i | i in positions :: validators[i].publicKey
  }

  /** Positions with different keys hold as many keys as there are positions. */
  lemma {:induction false} KeysCount(validators: seq<ValidatorInfo>, positions: set<nat>)
    requires forall i :: i in positions ==> i < |validators|
    requires forall i, j :: i in positions && j in positions && i != j ==> validators[i].publicKey != validators[j].publicKey
    ensures |KeysAt(validators, positions)| == |positions|
    decreases |positions|
  {
    if positions == {} {
      assert KeysAt(validators, positions) == {};
    } else {
      var i :| i in positions;
      var rest := positions - {i};
      KeysCount(validators, rest);
      assert KeysAt(validators, positions) == KeysAt(validators, rest) + {validators[i].publicKey};
      assert validators[i].publicKey !in KeysAt(validators, rest);
    }
  }

  /** The keys that voted. */
  function VotingKeys(votes: seq<Votes.BftVote>): (r: set<bytes>) {
    set v | v in votes :: v.publicKey
  }

  /** Vote `k` is the first of its key. */
  predicate FirstOfKey(votes: seq<Votes.BftVote>, k: nat) {
    k < |votes| && forall j :: 0 <= j < k ==> votes[j].publicKey != votes[k].publicKey
  }

  /** A voter's position is the first that holds its key. */
  lemma VoterPosition(validators: seq<ValidatorInfo>, votes: seq<Votes.BftVote>, i: nat) returns (k: nat)
    requires AllValid(votes) && Voted(validators, votes, i)
    ensures k < |votes| && Position(validators, votes[k].publicKey, 0) == Some(i)
    ensures i < |validators| && validators[i].publicKey == votes[k].publicKey
  {
    k :| 0 <= k < |votes| && Positions(validators, votes)[k] == Some(i);
    assert VerifyVote(validators, votes[k]) == Some(i);
  }

  lemma KeyIsVoter(validators: seq<ValidatorInfo>, votes: seq<Votes.BftVote>, k: nat) returns (i: nat)
    requires AllValid(votes) && AllVerified(validators, votes) && k < |votes|
    ensures i < |validators| && VerifyVote(validators, votes[k]) == Some(i) && validators[i].publicKey == votes[k].publicKey
    ensures Positions(validators, votes)[k] == Some(i) && Voted(validators, votes, i)
  {
    assert Positions(validators, votes)[k] in Positions(validators, votes);
    i := VerifyVote(validators, votes[k]).value;
  }

  /** There are as many voters as voting keys. */
  lemma VotersAreKeys(validators: seq<ValidatorInfo>, votes: seq<Votes.BftVote>)
    requires AllValid(votes) && AllVerified(validators, votes)
    ensures |Voters(validators, votes)| == |VotingKeys(votes)|
  {
    var voters := Voters(validators, votes);
    forall i, j | i in voters && j in voters && i != j ensures validators[i].publicKey != validators[j].publicKey {
      var k := VoterPosition(validators, votes, i);
      var m := VoterPosition(validators, votes, j);
    }
    KeysCount(validators, voters);
    forall key ensures key in KeysAt(validators, voters) <==> key in VotingKeys(votes) {
      if key in KeysAt(validators, voters) {
        var i :| i in voters && validators[i].publicKey == key;
        var k := VoterPosition(validators, votes, i);
        assert votes[k] in votes;
      }
      if key in VotingKeys(votes) {
        var k :| 0 <= k < |votes| && votes[k].publicKey == key;
        var i := KeyIsVoter(validators, votes, k);
        assert i in voters;
      }
    }
    assert KeysAt(validators, voters) == VotingKeys(votes);
  }

  /** The ballot of a key's first vote is that vote's hash. */
  lemma FirstVoteIsBallot(validators: seq<ValidatorInfo>, votes: seq<Votes.BftVote>, k: nat) returns (i: nat)
    requires AllValid(votes) && AllVerified(validators, votes) && FirstOfKey(votes, k)
    ensures i in Ballots(validators, votes) && Ballots(validators, votes)[i] == votes[k].blockHash
  {
    i := KeyIsVoter(validators, votes, k);
    var positions := Positions(validators, votes);
    forall j | 0 <= j < k ensures positions[j] != Some(i) { assert positions[j] == VerifyVote(validators, votes[j]); }
    FirstIndexIs(positions, Some(i), k);
  }

  lemma BallotIsFirstVote(validators: seq<ValidatorInfo>, votes: seq<Votes.BftVote>, i: nat) returns (k: nat)
    requires AllValid(votes) && AllVerified(validators, votes) && i in Ballots(validators, votes)
    ensures FirstOfKey(votes, k) && Ballots(validators, votes)[i] == votes[k].blockHash
  {
    var positions := Positions(validators, votes);
    k := FirstIndex(positions, Some(i));
    assert positions[k] == VerifyVote(validators, votes[k]);
    forall j | 0 <= j < k ensures votes[j].publicKey != votes[k].publicKey {
      var other := KeyIsVoter(validators, votes, j);
      assert positions[j] == VerifyVote(validators, votes[j]);
    }
  }

  /** Every key's first vote names `h`. */
  predicate FirstVotesName(votes: seq<Votes.BftVote>, h: string) {
    forall k :: 0 <= k < |votes| && FirstOfKey(votes, k) ==> votes[k].blockHash == h
  }

  lemma UnanimousIff(validators: seq<ValidatorInfo>, votes: seq<Votes.BftVote>, h: string)
    requires AllValid(votes) && AllVerified(validators, votes)
    ensures Unanimous(Ballots(validators, votes), h) <==> FirstVotesName(votes, h)
  {
    var ballots := Ballots(validators, votes);
    if Unanimous(ballots, h) {
      forall k | 0 <= k < |votes| && FirstOfKey(votes, k) ensures votes[k].blockHash == h {
        var i := FirstVoteIsBallot(validators, votes, k);
      }
    }
    if FirstVotesName(votes, h) {
      forall i | i in ballots ensures ballots[i] == h {
        var k := BallotIsFirstVote(validators, votes, i);
      }
    }
  }

  /**
   * Aggregation round trip: a well-formed certificate built from countable votes, in any order and with
   * any duplicates, is accepted exactly when the voting keys are more than two thirds of the set and the
   * first vote of each names the block's hash.
   */
  lemma CertificateFromVotes(
    validators: seq<ValidatorInfo>, votes: seq<Votes.BftVote>, b: Block, bitmap: seq<bv8>, parts: Parts)
    requires Registered(validators) && AllValid(votes) && Votes.Encodable(b.hash)
    requires 2 * |validators| <= USIZE_MAX && votes != []
    requires Aggregated(validators, votes, bitmap, parts)
    ensures var c := QuorumCertificate(b.index, b.hash, bitmap, Bls(parts), Bls12381);
      CertificateAccepted(validators, c, b) <==> 3 * |VotingKeys(votes)| > 2 * |validators| && FirstVotesName(votes, b.hash)
  {
    AggregateExpandsToVoters(validators, votes, bitmap, parts, b.hash);
    AggregateFits(validators, votes, bitmap);
    RegisteredKeys(validators, Signers(bitmap));
    VotersAreKeys(validators, votes);
    UnanimousIff(validators, votes, b.hash);
    QuorumIsTwoThirds(|VotingKeys(votes)|, |validators|);
  }

  /** The validators both bitmaps name. */
  function Common(x: QuorumCertificate, y: QuorumCertificate, n: nat): (r: set<nat>) {
    Named(x.signersBitmap, n) * Named(y.signersBitmap, n)
  }

  lemma AcceptedNamesAQuorum(validators: seq<ValidatorInfo>, c: QuorumCertificate, b: Block)
    requires Votes.Encodable(b.hash) && CertificateAccepted(validators, c, b)
    ensures |Named(c.signersBitmap, |validators|)| >= QuorumThreshold(|validators|)
    ensures forall i: nat :: BitAt(c.signersBitmap, i) ==> i < |validators|
    ensures Signers(c.signersBitmap) == SetBits(c.signersBitmap, |validators|)
  {
    var bitmap, n := c.signersBitmap, |validators|;
    SignersAreExactlyTheSetBits(bitmap);
    forall i: nat | Has(bitmap, i) ensures i < n {
      var k :| 0 <= k < |Signers(bitmap)| && Signers(bitmap)[k] == i;
    }
    SignersWithin(bitmap, n);
    NamedCount(bitmap, n);
  }

  /** Any two accepted certificates name more than a third of the validators in common. */
  lemma QuorumIntersection(validators: seq<ValidatorInfo>, x: QuorumCertificate, b: Block, y: QuorumCertificate, d: Block)
    requires 2 * |validators| <= USIZE_MAX
    requires Votes.Encodable(b.hash) && CertificateAccepted(validators, x, b)
    requires Votes.Encodable(d.hash) && CertificateAccepted(validators, y, d)
    ensures 3 * |Common(x, y, |validators|)| > |validators|
  {
    AcceptedNamesAQuorum(validators, x, b);
    AcceptedNamesAQuorum(validators, y, d);
    QuorumIsTwoThirds(|Named(x.signersBitmap, |validators|)|, |validators|);
    QuorumIsTwoThirds(|Named(y.signersBitmap, |validators|)|, |validators|);
    QuorumsIntersect(Named(x.signersBitmap, |validators|), Named(y.signersBitmap, |validators|), |validators|);
  }

  lemma {:induction false} SetPartsMember(validators: seq<ValidatorInfo>, named: set<nat>, n: nat, message: bytes, i: nat)
    requires i < n <= |validators| && i in named
    ensures (validators[i].publicKey, message) in SetParts(validators, named, n, message)
  {
    if i < n - 1 { SetPartsMember(validators, named, n - 1, message, i); }
  }

  /** An accepted certificate holds each named validator's signature over the block's vote message. */
  lemma AcceptedIsSigned(validators: seq<ValidatorInfo>, c: QuorumCertificate, b: Block, i: nat)
    requires Votes.Encodable(b.hash) && CertificateAccepted(validators, c, b)
    requires i in Named(c.signersBitmap, |validators|)
    ensures (validators[i].publicKey, Votes.VoteMessage(b.hash)) in c.aggregateSignature.parts
  {
    var n, message := |validators|, Votes.VoteMessage(b.hash);
    AcceptedNamesAQuorum(validators, c, b);
    BitPartsAreKeyParts(validators, c.signersBitmap, n, message);
    SetPartsMember(validators, Named(c.signersBitmap, n), n, message, i);
  }

  // ---------------------------------------------------------------- what acceptance amounts to

  /** The named positions below `n` that hold `key`. */
  function Holders(validators: seq<ValidatorInfo>, named: set<nat>, n: nat, key: bytes): (r: set<nat>)
    requires n <= |validators|
  {
    set i | i in named && i < n && validators[i].publicKey == key
  }

  /** The aggregate holds, for each key, one signature over `message` per named position of that key, and nothing else. */
  ghost predicate SignedExactly(validators: seq<ValidatorInfo>, named: set<nat>, parts: Parts, message: bytes) {
    forall key, m :: parts[(key, m)] == if m == message then |Holders(validators, named, |validators|, key)| else 0
  }

  lemma {:induction false} SetPartsCount(validators: seq<ValidatorInfo>, named: set<nat>, n: nat, message: bytes, key: bytes, m: bytes)
    requires n <= |validators|
    ensures SetParts(validators, named, n, message)[(key, m)] == if m == message then |Holders(validators, named, n, key)| else 0
  {
    if n == 0 {
      assert Holders(validators, named, 0, key) == {};
    } else {
      SetPartsCount(validators, named, n - 1, message, key, m);
      var fewer := Holders(validators, named, n - 1, key);
      if n - 1 in named && validators[n - 1].publicKey == key {
        assert Holders(validators, named, n, key) == fewer + {n - 1};
      } else {
        assert Holders(validators, named, n, key) == fewer;
      }
    }
  }

  lemma SignedExactlyIff(validators: seq<ValidatorInfo>, named: set<nat>, parts: Parts, message: bytes)
    ensures SignedExactly(validators, named, parts, message) <==> parts == SetParts(validators, named, |validators|, message)
  {
    var expected := SetParts(validators, named, |validators|, message);
    forall key, m ensures expected[(key, m)] == if m == message then |Holders(validators, named, |validators|, key)| else 0 {
      SetPartsCount(validators, named, |validators|, message, key, m);
    }
    if SignedExactly(validators, named, parts, message) {
      forall part: (bytes, bytes) ensures parts[part] == expected[part] { assert part == (part.0, part.1); }
    }
  }

  /**
   * A certificate for exactly this block, whose bitmap names validators only, more than two thirds of
   * them, and whose aggregate is one signature of each over the block's vote message.
   */
  ghost predicate Certified(validators: seq<ValidatorInfo>, c: QuorumCertificate, b: Block)
    requires Votes.Encodable(b.hash)
  {
    var named := Named(c.signersBitmap, |validators|);
    && c.blockIndex == b.index && c.blockHash == b.hash
    && |c.signersBitmap| <= USIZE_MAX / 8
    && (forall i: nat :: BitAt(c.signersBitmap, i) ==> i < |validators|)
    && 3 * |named| > (if 2 * |validators| <= USIZE_MAX then 2 * |validators| else USIZE_MAX)
    && c.algorithm == Bls12381 && c.aggregateSignature.Bls?
    && SignedExactly(validators, named, c.aggregateSignature.parts, Votes.VoteMessage(b.hash))
  }

  lemma AcceptedIsCertified(validators: seq<ValidatorInfo>, c: QuorumCertificate, b: Block)
    requires Votes.Encodable(b.hash) && CertificateAccepted(validators, c, b)
    ensures Certified(validators, c, b)
  {
    var n, message := |validators|, Votes.VoteMessage(b.hash);
    var named := Named(c.signersBitmap, n);
    AcceptedNamesAQuorum(validators, c, b);
    QuorumIsTwoThirds(|named|, n);
    BitPartsAreKeyParts(validators, c.signersBitmap, n, message);
    SignedExactlyIff(validators, named, c.aggregateSignature.parts, message);
  }

  lemma CertifiedIsAccepted(validators: seq<ValidatorInfo>, c: QuorumCertificate, b: Block)
    requires Registered(validators) && Votes.Encodable(b.hash) && Certified(validators, c, b)
    ensures CertificateAccepted(validators, c, b)
  {
    var n, message := |validators|, Votes.VoteMessage(b.hash);
    var named := Named(c.signersBitmap, n);
    forall i: nat ensures Has(c.signersBitmap, i) ==> i < n { HasIsBitAt(c.signersBitmap, i); }
    SignersWithin(c.signersBitmap, n);
    NamedCount(c.signersBitmap, n);
    QuorumIsTwoThirds(|named|, n);
    BitPartsAreKeyParts(validators, c.signersBitmap, n, message);
    RegisteredKeys(validators, Signers(c.signersBitmap));
    SignedExactlyIff(validators, named, c.aggregateSignature.parts, message);
    assert c.signersBitmap != [] by { assert |Signers(c.signersBitmap)| > 0; }
  }

  /** The verification of a certificate against a registered set, in full. */
  lemma CertifiedIff(validators: seq<ValidatorInfo>, c: QuorumCertificate, b: Block)
    requires Registered(validators) && Votes.Encodable(b.hash)
    ensures CertificateAccepted(validators, c, b) <==> Certified(validators, c, b)
  {
    if CertificateAccepted(validators, c, b) { AcceptedIsCertified(validators, c, b); }
    if Certified(validators, c, b) { CertifiedIsAccepted(validators, c, b); }
  }
}
