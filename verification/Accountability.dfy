/** What two certificates for different hashes prove about the keys behind them (bft.rs). */
module Accountability {
  import opened Types
  import opened Bitmap
  import opened Certificates
  import Votes

  // ---------------------------------------------------------------- sets of positions

  /** The positions are those of validators. */
  predicate Within(positions: set<nat>, n: nat) {
    forall i :: i in positions ==> i < n
  }

  lemma {:induction false} TakeSome(from: set<nat>, k: nat) returns (some: set<nat>)
    requires k <= |from|
    ensures some <= from && |some| == k
  {
    if k == 0 {
      some := {};
    } else {
      var i :| i in from;
      some := TakeSome(from - {i}, k - 1);
      some := some + {i};
    }
  }

  lemma {:induction false} BitmapOf(named: set<nat>, n: nat) returns (bitmap: seq<bv8>)
    requires Within(named, n)
    ensures |bitmap| == BitmapLen(n) && forall i: nat :: Has(bitmap, i) <==> i in named
    decreases |named|
  {
    if named == {} {
      bitmap := seq(BitmapLen(n), _ => 0);
    } else {
      var i :| i in named;
      var fewer := BitmapOf(named - {i}, n);
      bitmap := WithBit(fewer, i);
      forall j: nat ensures Has(bitmap, j) <==> j in named {
        WithBitAddsOne(fewer, i, j);
      }
    }
  }

  /** Two quorums that meet in exactly `p`, whenever counting allows it. */
  lemma QuorumsMeetingIn(p: set<nat>, n: nat) returns (xs: set<nat>, ys: set<nat>)
    requires Unavoidable(p, n)
    ensures Within(xs, n) && Within(ys, n) && xs * ys == p
    ensures 3 * |xs| > 2 * n && 3 * |ys| > 2 * n
  {
    var q := 2 * n / 3 + 1;
    var all := Below(n);
    if |p| >= q {
      xs, ys := p, p;
    } else {
      var rest := all - p;
      assert p <= all && rest !! p && all == rest + p;
      assert |rest| == n - |p|;
      var a := TakeSome(rest, q - |p|);
      assert |rest - a| == |rest| - |a|;
      var b := TakeSome(rest - a, q - |p|);
      xs, ys := p + a, p + b;
      assert |xs| == |p| + |a| && |ys| == |p| + |b|;
    }
  }

  // ---------------------------------------------------------------- certificates on demand

  /** Any set of more than two thirds of the registered validators can certify any block. */
  lemma QuorumCertifies(validators: seq<ValidatorInfo>, named: set<nat>, b: Block) returns (c: QuorumCertificate)
    requires Registered(validators) && validators != [] && 2 * |validators| <= USIZE_MAX && Votes.Encodable(b.hash)
    requires Within(named, |validators|) && 3 * |named| > 2 * |validators|
    ensures CertificateAccepted(validators, c, b) && Named(c.signersBitmap, |validators|) == named
    ensures c.aggregateSignature == Bls(SetParts(validators, named, |validators|, Votes.VoteMessage(b.hash)))
  {
    var n, message := |validators|, Votes.VoteMessage(b.hash);
    var bitmap := BitmapOf(named, n);
    assert Named(bitmap, n) == named by {
      forall i: nat ensures BitAt(bitmap, i) <==> i in named { HasIsBitAt(bitmap, i); }
    }
    QuorumIsTwoThirds(|named|, n);
    SignersWithin(bitmap, n);
    NamedCount(bitmap, n);
    BitPartsAreKeyParts(validators, bitmap, n, message);
    RegisteredKeys(validators, Signers(bitmap));
    c := QuorumCertificate(b.index, b.hash, bitmap, Bls(SetParts(validators, named, n, message)), Bls12381);
  }

  // ---------------------------------------------------------------- how many keys two certificates share

  predicate DistinctKeys(validators: seq<ValidatorInfo>) {
    forall i, j :: 0 <= i < j < |validators| ==> validators[i].publicKey != validators[j].publicKey
  }

  /** The keys that signed for both certificates. */
  function CommonKeys(validators: seq<ValidatorInfo>, x: QuorumCertificate, y: QuorumCertificate): (r: set<bytes>) {
    KeysAt(validators, Common(x, y, |validators|))
  }

  /** Two certificates for different hashes: more than a third of the validators signed both of two different messages. */
  lemma CommonSignersSignedBoth(
    validators: seq<ValidatorInfo>, x: QuorumCertificate, b: Block, y: QuorumCertificate, d: Block)
    requires 2 * |validators| <= USIZE_MAX && b.hash != d.hash
    requires Votes.Encodable(b.hash) && CertificateAccepted(validators, x, b)
    requires Votes.Encodable(d.hash) && CertificateAccepted(validators, y, d)
    ensures Votes.VoteMessage(b.hash) != Votes.VoteMessage(d.hash)
    ensures 3 * |Common(x, y, |validators|)| > |validators|
    ensures forall key :: key in CommonKeys(validators, x, y) ==>
      && (key, Votes.VoteMessage(b.hash)) in x.aggregateSignature.parts
      && (key, Votes.VoteMessage(d.hash)) in y.aggregateSignature.parts
  {
    QuorumIntersection(validators, x, b, y, d);
    if Votes.VoteMessage(b.hash) == Votes.VoteMessage(d.hash) {
      Votes.VoteMessageInjective(b.hash, d.hash);
    }
    forall key | key in CommonKeys(validators, x, y)
      ensures (key, Votes.VoteMessage(b.hash)) in x.aggregateSignature.parts
      ensures (key, Votes.VoteMessage(d.hash)) in y.aggregateSignature.parts
    {
      var i :| i in Common(x, y, |validators|) && validators[i].publicKey == key;
      AcceptedIsSigned(validators, x, b, i);
      AcceptedIsSigned(validators, y, d, i);
    }
  }

  /** The positions two sets of more than two thirds of n, of the least size, may meet in. */
  predicate Unavoidable(p: set<nat>, n: nat) {
    Within(p, n) && |p| + n >= 2 * (2 * n / 3 + 1)
  }

  /** Any two certificates for these blocks share keys worth more than a third of the set. */
  ghost predicate AlwaysShareKeys(validators: seq<ValidatorInfo>, b: Block, d: Block)
    requires Votes.Encodable(b.hash) && Votes.Encodable(d.hash)
  {
    forall x, y :: CertificateAccepted(validators, x, b) && CertificateAccepted(validators, y, d) ==>
      3 * |CommonKeys(validators, x, y)| > |validators|
  }

  lemma AcceptedMeetUnavoidably(validators: seq<ValidatorInfo>, x: QuorumCertificate, b: Block, y: QuorumCertificate, d: Block)
    requires 2 * |validators| <= USIZE_MAX
    requires Votes.Encodable(b.hash) && CertificateAccepted(validators, x, b)
    requires Votes.Encodable(d.hash) && CertificateAccepted(validators, y, d)
    ensures Unavoidable(Common(x, y, |validators|), |validators|)
  {
    var n := |validators|;
    AcceptedNamesAQuorum(validators, x, b);
    AcceptedNamesAQuorum(validators, y, d);
    var xs, ys := Named(x.signersBitmap, n), Named(y.signersBitmap, n);
    var all := Below(n);
    SubsetSize(xs + ys, all);
    assert |xs + ys| == |xs| + |ys| - |xs * ys|;
  }

  /** Two accepted certificates that meet in exactly the positions `p`. */
  lemma CertificatesMeetingIn(validators: seq<ValidatorInfo>, p: set<nat>, b: Block, d: Block)
    returns (x: QuorumCertificate, y: QuorumCertificate)
    requires Registered(validators) && validators != [] && 2 * |validators| <= USIZE_MAX
    requires Votes.Encodable(b.hash) && Votes.Encodable(d.hash) && Unavoidable(p, |validators|)
    ensures CertificateAccepted(validators, x, b) && CertificateAccepted(validators, y, d)
    ensures Common(x, y, |validators|) == p
  {
    var xs, ys := QuorumsMeetingIn(p, |validators|);
    x := QuorumCertifies(validators, xs, b);
    y := QuorumCertifies(validators, ys, d);
  }

  /** Every set of positions that two quorums may meet in holds more than a third as many keys as there are validators. */
  ghost predicate KeysEverywhere(validators: seq<ValidatorInfo>) {
    forall p: set<nat> :: Unavoidable(p, |validators|) ==> 3 * |KeysAt(validators, p)| > |validators|
  }

  lemma KeysEverywhereAreShared(validators: seq<ValidatorInfo>, b: Block, d: Block)
    requires 2 * |validators| <= USIZE_MAX
    requires Votes.Encodable(b.hash) && Votes.Encodable(d.hash) && KeysEverywhere(validators)
    ensures AlwaysShareKeys(validators, b, d)
  {
    forall x, y | CertificateAccepted(validators, x, b) && CertificateAccepted(validators, y, d)
      ensures 3 * |CommonKeys(validators, x, y)| > |validators|
    {
      AcceptedMeetUnavoidably(validators, x, b, y, d);
    }
  }

  /**
   * Repeated keys: for any two blocks, all pairs of certificates share more than n/3 keys if and only if
   * every set of positions that two quorums may meet in holds more than n/3 keys.
   */
  lemma SharedKeysIff(validators: seq<ValidatorInfo>, b: Block, d: Block)
    requires Registered(validators) && validators != [] && 2 * |validators| <= USIZE_MAX
    requires Votes.Encodable(b.hash) && Votes.Encodable(d.hash)
    ensures AlwaysShareKeys(validators, b, d) <==> KeysEverywhere(validators)
  {
    if KeysEverywhere(validators) {
      KeysEverywhereAreShared(validators, b, d);
    } else {
      var p: set<nat> :| Unavoidable(p, |validators|) && 3 * |KeysAt(validators, p)| <= |validators|;
      var x, y := CertificatesMeetingIn(validators, p, b, d);
      assert CommonKeys(validators, x, y) == KeysAt(validators, p);
    }
  }

  /** Distinct keys meet the condition. */
  lemma DistinctKeysAlwaysShared(validators: seq<ValidatorInfo>, b: Block, d: Block)
    requires Registered(validators) && validators != [] && 2 * |validators| <= USIZE_MAX && DistinctKeys(validators)
    requires Votes.Encodable(b.hash) && Votes.Encodable(d.hash)
    ensures AlwaysShareKeys(validators, b, d)
  {
    forall p: set<nat> | Unavoidable(p, |validators|) ensures 3 * |KeysAt(validators, p)| > |validators| {
      assert forall i, j :: i in p && j in p && i != j ==> validators[i].publicKey != validators[j].publicKey;
      KeysCount(validators, p);
    }
    SharedKeysIff(validators, b, d);
  }

  /** All validators together are a quorum. */
  lemma EveryoneCertifies(validators: seq<ValidatorInfo>, b: Block) returns (c: QuorumCertificate)
    requires Registered(validators) && validators != [] && 2 * |validators| <= USIZE_MAX && Votes.Encodable(b.hash)
    ensures CertificateAccepted(validators, c, b)
    ensures forall i: nat :: i in Named(c.signersBitmap, |validators|) <==> i < |validators|
    ensures forall part :: part in c.aggregateSignature.parts ==> part.1 == Votes.VoteMessage(b.hash)
  {
    var all := Below(|validators|);
    c := QuorumCertifies(validators, all, b);
    SetPartsMessage(validators, all, |validators|, Votes.VoteMessage(b.hash));
  }

  /** One key registered n times: the set is accepted, certifies any two blocks, and a single key stands behind both certificates. */
  lemma OneKeyCertifiesAlone(v: ValidatorInfo, n: nat, b: Block, d: Block)
    returns (validators: seq<ValidatorInfo>, x: QuorumCertificate, y: QuorumCertificate)
    requires Possessed(v) && 3 <= n && 2 * n <= USIZE_MAX && Votes.Encodable(b.hash) && Votes.Encodable(d.hash)
    ensures |validators| == n && Registered(validators)
    ensures CertificateAccepted(validators, x, b) && CertificateAccepted(validators, y, d)
    ensures CommonKeys(validators, x, y) == {v.publicKey} && 3 * |CommonKeys(validators, x, y)| <= n
  {
    validators := seq(n, _ => v);
    x := EveryoneCertifies(validators, b);
    y := EveryoneCertifies(validators, d);
    assert 0 in Common(x, y, n);
  }

  // ---------------------------------------------------------------- from certificates to votes

  type Log = set<(Votes.Context, string)>

  /** Unforgeability of an aggregate: whatever `key` signed in it was made for the votes in `log`. */
  ghost predicate MadeFrom(key: bytes, log: Log, signature: BlsSignature) {
    signature.Bls? ==> forall message: bytes :: (key, message) in signature.parts ==> Votes.SignedFor(log, message)
  }

  /** The key has voted for `h`, in whatever context. */
  predicate Cast(log: Log, h: string) {
    exists entry :: entry in log && entry.1 == h
  }

  /** The key has voted for both hashes in one context. */
  predicate CastTogether(log: Log, h: string, k: string) {
    exists x, y :: x in log && y in log && x.0 == y.0 && x.1 == h && y.1 == k
  }

  /** A signature over a vote message stands for a vote on its hash, and for nothing else about the vote. */
  lemma SignedVoteWasCast(log: Log, h: string)
    requires Votes.Encodable(h) && Votes.SignedFor(log, Votes.VoteMessage(h))
    ensures Cast(log, h)
  {
    var message := Votes.VoteMessage(h);
    if entry :| entry in log && Votes.Loggable(entry) && message == Votes.VoteMessage(entry.1) {
      Votes.VoteMessageInjective(h, entry.1);
    } else if entry :| entry in log && Votes.Loggable(entry) && message == Votes.ContextMessage(entry.0, entry.1) {
      Votes.DomainsAreSeparate(entry.0, entry.1, h, "");
      assert false;
    } else {
      var hexKey :| message == Votes.PopMessage(hexKey);
      var c := Votes.Context("", 0, 0, Votes.Prevote);
      Votes.DomainsAreSeparate(c, h, h, hexKey);
      assert false;
    }
  }

  /** A proof that convicts `key` of voting for these two hashes. */
  ghost predicate ConvictsOf(p: Votes.EquivocationProof, key: bytes, log: Log, h: string, k: string) {
    Votes.Convicts(p, key, log) && p.first.blockHash == h && p.second.blockHash == k
  }

  lemma ConvictedCastTogether(p: Votes.EquivocationProof, key: bytes, log: Log, h: string, k: string)
    requires ConvictsOf(p, key, log, h, k)
    ensures CastTogether(log, h, k)
  {
    Votes.VerifiedVoteWasCast(p.first, log);
    Votes.VerifiedVoteWasCast(p.second, log);
    var x, y := (p.first.context, h), (p.second.context, k);
    assert x in log && y in log && x.0 == y.0;
  }

  lemma CastTogetherConvicts(key: bytes, log: Log, c: Votes.Context, h: string, k: string) returns (p: Votes.EquivocationProof)
    requires Votes.WellFormedBlsKey(key) && h != k && Votes.Loggable((c, h)) && Votes.Loggable((c, k)) && (c, h) in log && (c, k) in log
    ensures ConvictsOf(p, key, log, h, k)
  {
    Votes.CastVoteIsUnforged(c, h, key, log);
    Votes.CastVoteIsUnforged(c, k, key, log);
    p := Votes.EquivocationProof(c.height, c.round, c.phase, key, Votes.Sign(c, h, key), Votes.Sign(c, k, key));
  }

  /** A proof convicts a key of two different hashes exactly when it cast both in one context. */
  lemma ConvictedOfIff(key: bytes, log: Log, h: string, k: string)
    requires Votes.WellFormedBlsKey(key) && h != k && forall entry :: entry in log ==> Votes.Loggable(entry)
    ensures (exists p :: ConvictsOf(p, key, log, h, k)) <==> CastTogether(log, h, k)
  {
    if p :| ConvictsOf(p, key, log, h, k) {
      ConvictedCastTogether(p, key, log, h, k);
    }
    if x, y :| x in log && y in log && x.0 == y.0 && x.1 == h && y.1 == k {
      assert x == (x.0, h) && y == (x.0, k);
      var p := CastTogetherConvicts(key, log, x.0, h, k);
    }
  }

  /** What two certificates for different hashes prove about a key they share: it cast both, and it can be convicted of that exactly when it did so in one context. */
  lemma CommonSignersCastBoth(
    validators: seq<ValidatorInfo>, x: QuorumCertificate, b: Block, y: QuorumCertificate, d: Block,
    key: bytes, log: Log)
    requires Registered(validators) && 2 * |validators| <= USIZE_MAX && b.hash != d.hash
    requires Votes.Encodable(b.hash) && CertificateAccepted(validators, x, b)
    requires Votes.Encodable(d.hash) && CertificateAccepted(validators, y, d)
    requires key in CommonKeys(validators, x, y) && forall entry :: entry in log ==> Votes.Loggable(entry)
    requires MadeFrom(key, log, x.aggregateSignature) && MadeFrom(key, log, y.aggregateSignature)
    ensures Cast(log, b.hash) && Cast(log, d.hash)
    ensures (exists p :: ConvictsOf(p, key, log, b.hash, d.hash)) <==> CastTogether(log, b.hash, d.hash)
  {
    CommonSignersSignedBoth(validators, x, b, y, d);
    SignedVoteWasCast(log, b.hash);
    SignedVoteWasCast(log, d.hash);
    var i :| i in Common(x, y, |validators|) && validators[i].publicKey == key;
    assert Possessed(validators[i]);
    ConvictedOfIff(key, log, b.hash, d.hash);
  }

  /**
   * The certificates alone convict nobody: any registered set can certify two hashes, at one height if
   * you like, from votes cast in two contexts, and no proof verifies against any key.  The contexts may
   * be two rounds of prevotes.
   */
  lemma CertificatesWithoutConviction(
    validators: seq<ValidatorInfo>, b: Block, c: Votes.Context, d: Block, e: Votes.Context)
    returns (x: QuorumCertificate, y: QuorumCertificate, log: Log)
    requires Registered(validators) && validators != [] && 2 * |validators| <= USIZE_MAX
    requires Votes.Loggable((c, b.hash)) && Votes.Loggable((e, d.hash)) && c != e && b.hash != d.hash
    ensures log == {(c, b.hash), (e, d.hash)}
    ensures CertificateAccepted(validators, x, b) && CertificateAccepted(validators, y, d)
    ensures forall key :: MadeFrom(key, log, x.aggregateSignature) && MadeFrom(key, log, y.aggregateSignature)
    ensures forall p, key :: !Votes.Convicts(p, key, log)
  {
    log := {(c, b.hash), (e, d.hash)};
    x := EveryoneCertifies(validators, b);
    y := EveryoneCertifies(validators, d);
    CastIsSigned(log, (c, b.hash));
    CastIsSigned(log, (e, d.hash));
    NobodyIsConvicted(log);
  }

  lemma CastIsSigned(log: Log, entry: (Votes.Context, string))
    requires entry in log && Votes.Loggable(entry)
    ensures Votes.SignedFor(log, Votes.VoteMessage(entry.1))
  {
  }

  lemma NobodyIsConvicted(log: Log)
    requires Votes.OneHashPerContext(log)
    ensures forall p, key :: !Votes.Convicts(p, key, log)
  {
    forall p, key ensures !Votes.Convicts(p, key, log) {
      if Votes.Convicts(p, key, log) { Votes.HonestKeyIsNeverConvicted(p, log); }
    }
  }

  // ---------------------------------------------------------------- a certificate does not say which phase it is from

  /** Everyone's vote in context `c`. */
  function EveryonesVotes(validators: seq<ValidatorInfo>, c: Votes.Context, h: string): (r: seq<Votes.BftVote>)
    requires Votes.Loggable((c, h))
  {
    seq(|validators|, i requires 0 <= i < |validators| => Votes.Sign(c, h, validators[i].publicKey))
  }

  lemma EveryoneVoted(validators: seq<ValidatorInfo>, c: Votes.Context, h: string)
    requires Registered(validators) && DistinctKeys(validators) && Votes.Loggable((c, h))
    ensures var votes := EveryonesVotes(validators, c, h);
      && AllValid(votes)
      && (forall i :: 0 <= i < |validators| ==> VerifyVote(validators, votes[i]) == Some(i))
      && AllVerified(validators, votes)
  {
    var votes := EveryonesVotes(validators, c, h);
    assert AllValid(votes);
    forall i | 0 <= i < |validators| ensures VerifyVote(validators, votes[i]) == Some(i) {
      assert Possessed(validators[i]);
      assert votes[i].publicKey == validators[i].publicKey;
    }
  }

  lemma EveryonesBallots(validators: seq<ValidatorInfo>, c: Votes.Context, h: string)
    requires DistinctKeys(validators) && Votes.Loggable((c, h))
    ensures var votes := EveryonesVotes(validators, c, h);
      |VotingKeys(votes)| == |validators| && FirstVotesName(votes, h)
  {
    var votes := EveryonesVotes(validators, c, h);
    var all := Below(|validators|);
    KeysCount(validators, all);
    forall key ensures key in KeysAt(validators, all) <==> key in VotingKeys(votes) {
      if i :| 0 <= i < |validators| && validators[i].publicKey == key { assert votes[i].publicKey == key && votes[i] in votes; }
    }
    assert KeysAt(validators, all) == VotingKeys(votes);
  }

  /** Prevotes alone make an accepted certificate: any set with distinct keys, any context in the prevote phase, any block. */
  lemma PrevotesCertify(validators: seq<ValidatorInfo>, c: Votes.Context, b: Block)
    returns (votes: seq<Votes.BftVote>, bitmap: seq<bv8>, parts: Parts)
    requires Registered(validators) && DistinctKeys(validators) && validators != [] && 2 * |validators| <= USIZE_MAX
    requires Votes.Loggable((c, b.hash)) && c.phase.Prevote?
    ensures AllValid(votes) && forall i :: 0 <= i < |votes| ==> votes[i].context.phase.Prevote?
    ensures Aggregated(validators, votes, bitmap, parts)
    ensures CertificateAccepted(validators, QuorumCertificate(b.index, b.hash, bitmap, Bls(parts), Bls12381), b)
  {
    votes := EveryonesVotes(validators, c, b.hash);
    EveryoneVoted(validators, c, b.hash);
    EveryonesBallots(validators, c, b.hash);
    bitmap, parts := AggregateExists(validators, votes);
    CertificateFromVotes(validators, votes, b, bitmap, parts);
  }

  /** Verified votes have an aggregate. */
  lemma AggregateExists(validators: seq<ValidatorInfo>, votes: seq<Votes.BftVote>) returns (bitmap: seq<bv8>, parts: Parts)
    requires AllValid(votes) && AllVerified(validators, votes)
    ensures Aggregated(validators, votes, bitmap, parts)
  {
    BallotsAreEncodable(validators, votes);
    parts := VoterParts(validators, Ballots(validators, votes), |validators|);
    bitmap := BitmapOf(Voters(validators, votes), |validators|);
    forall i: nat ensures Has(bitmap, i) <==> Voted(validators, votes, i) {
      if Voted(validators, votes, i) {
        var k :| 0 <= k < |votes| && Positions(validators, votes)[k] == Some(i);
        assert VerifyVote(validators, votes[k]) == Some(i);
      }
    }
  }
}
