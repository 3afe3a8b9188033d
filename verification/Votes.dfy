/** The messages votes sign, their injectivity, and equivocation proofs (bft.rs). */
module Votes {
  import opened Types

  type bytes = seq<byte>

  const U32_LIMIT: nat := 0x1_0000_0000
  const U64_LIMIT: nat := 0x1_0000_0000_0000_0000

  // ---------------------------------------------------------------- encodings

  /** The UTF-8 bytes of one character. */
  function Utf8Char(c: char): (r: bytes) {
    var n := c as nat;
    if n < 0x80 then [n]
    else if n < 0x800 then [0xC0 + n / 64, 0x80 + n % 64]
    else if n < 0x1_0000 then [0xE0 + n / 4096, 0x80 + n / 64 % 64, 0x80 + n % 64]
    else [0xF0 + n / 262144, 0x80 + n / 4096 % 64, 0x80 + n / 64 % 64, 0x80 + n % 64]
  }

  function Utf8(s: string): (r: bytes) {
    if s == [] then [] else Utf8Char(s[0]) + Utf8(s[1..])
  }

  /** The bytes of an ASCII literal. */
  function Ascii(text: string): (r: bytes)
    ensures |r| == |text|
  {
    seq(|text|, i requires 0 <= i < |text| => (text[i] as nat) % 256)
  }

  /** `to_be_bytes` of a `width`-byte integer. */
  function BigEndian(n: nat, width: nat): (r: bytes)
    ensures |r| == width
  {
    if width == 0 then [] else BigEndian(n / 256, width - 1) + [n % 256]
  }

  function Power256(width: nat): (r: nat) {
    if width == 0 then 1 else 256 * Power256(width - 1)
  }

  lemma Cancel(a: bytes, x: bytes, b: bytes, y: bytes)
    requires a + x == b + y && |a| == |b|
    ensures a == b && x == y
  {
    assert a == (a + x)[..|a|] && x == (a + x)[|a|..];
    assert b == (b + y)[..|b|] && y == (b + y)[|b|..];
  }

  lemma Utf8CharInjective(c: char, x: bytes, d: char, y: bytes)
    requires Utf8Char(c) + x == Utf8Char(d) + y
    ensures c == d && x == y
  {
    var p, q := Utf8Char(c), Utf8Char(d);
    assert p[0] == (p + x)[0] && q[0] == (q + y)[0];
    assert |p| == |q|;
    Cancel(p, x, q, y);
    Utf8CharDecodes(c);
    Utf8CharDecodes(d);
  }

  function DecodeChar(b: bytes): (r: int)
    requires 1 <= |b| <= 4
  {
    var d: seq<int> := b;
    if |d| == 1 then d[0]
    else if |d| == 2 then (d[0] - 0xC0) * 64 + (d[1] - 0x80)
    else if |d| == 3 then (d[0] - 0xE0) * 4096 + (d[1] - 0x80) * 64 + (d[2] - 0x80)
    else (d[0] - 0xF0) * 262144 + (d[1] - 0x80) * 4096 + (d[2] - 0x80) * 64 + (d[3] - 0x80)
  }

  /** Each character decodes to itself from the shortest form that holds it. */
  lemma Utf8CharDecodes(c: char)
    ensures DecodeChar(Utf8Char(c)) == c as int
    ensures |Utf8Char(c)| == if c as int < 0x80 then 1 else if c as int < 0x800 then 2 else if c as int < 0x1_0000 then 3 else 4
  {
    var n := c as nat;
    assert n / 4096 == n / 64 / 64 && n / 262144 == n / 64 / 64 / 64;
  }

  lemma {:induction false} Utf8Injective(s: string, t: string)
    requires Utf8(s) == Utf8(t)
    ensures s == t
  {
    if s != [] && t != [] {
      Utf8CharInjective(s[0], Utf8(s[1..]), t[0], Utf8(t[1..]));
      Utf8Injective(s[1..], t[1..]);
      assert s == [s[0]] + s[1..] && t == [t[0]] + t[1..];
    }
  }

  /** The number a byte string stands for, most significant byte first. */
  function Value(b: bytes): (r: nat) {
    if b == [] then 0 else 256 * Value(b[..|b| - 1]) + b[|b| - 1]
  }

  lemma {:induction false} BigEndianValue(n: nat, width: nat)
    requires n < Power256(width)
    ensures Value(BigEndian(n, width)) == n
  {
    if width == 0 {
    } else {
      BigEndianValue(n / 256, width - 1);
      var b := BigEndian(n, width);
      assert b[..|b| - 1] == BigEndian(n / 256, width - 1);
    }
  }

  lemma BigEndianInjective(m: nat, n: nat, width: nat)
    requires m < Power256(width) && n < Power256(width)
    requires BigEndian(m, width) == BigEndian(n, width)
    ensures m == n
  {
    BigEndianValue(m, width);
    BigEndianValue(n, width);
  }

  lemma Powers()
    ensures Power256(4) == U32_LIMIT && Power256(8) == U64_LIMIT
  {
    assert Power256(2) == 0x1_0000;
    assert Power256(4) == 256 * (256 * Power256(2));
    assert Power256(6) == 256 * (256 * Power256(4));
  }

  /** A length-prefixed byte string. */
  function Prefixed(b: bytes): (r: bytes) {
    BigEndian(|b|, 4) + b
  }

  /** A length prefix makes a byte string readable off the front of whatever follows. */
  lemma PrefixedCancel(a: bytes, x: bytes, b: bytes, y: bytes)
    requires |a| < U32_LIMIT && |b| < U32_LIMIT
    requires Prefixed(a) + x == Prefixed(b) + y
    ensures a == b && x == y
  {
    Powers();
    assert Prefixed(a) + x == BigEndian(|a|, 4) + (a + x);
    assert Prefixed(b) + y == BigEndian(|b|, 4) + (b + y);
    Cancel(BigEndian(|a|, 4), a + x, BigEndian(|b|, 4), b + y);
    BigEndianInjective(|a|, |b|, 4);
    Cancel(a, x, b, y);
  }

  // ---------------------------------------------------------------- messages

  datatype VotePhase = Prevote | Precommit

  function Tag(phase: VotePhase): (r: byte) {
    if phase.Prevote? then 0 else 1
  }

  const VOTE_TEXT := "glasschain-bft-vote:"
  const CONTEXT_TEXT := "glasschain-bft-vote-ctx:"
  const POP_TEXT := "glasschain-bls-pop:"

  const VOTE_DOMAIN: bytes := Ascii(VOTE_TEXT)
  const CONTEXT_DOMAIN: bytes := Ascii(CONTEXT_TEXT)
  const POP_DOMAIN: bytes := Ascii(POP_TEXT)

  /** Lengths that the source's guarded casts accept. */
  predicate Encodable(s: string) {
    |Utf8(s)| < U32_LIMIT
  }

  function VoteMessage(blockHash: string): (r: bytes)
    requires Encodable(blockHash)
  {
    VOTE_DOMAIN + Prefixed(Utf8(blockHash))
  }

  /** What a vote is about, with the hash it votes for. */
  datatype Context = Context(chainId: string, height: nat, round: nat, phase: VotePhase)

  predicate ValidContext(c: Context) {
    Encodable(c.chainId) && c.height < U64_LIMIT && c.round < U32_LIMIT
  }

  function ContextMessage(c: Context, blockHash: string): (r: bytes)
    requires ValidContext(c) && Encodable(blockHash)
  {
    CONTEXT_DOMAIN + (Prefixed(Utf8(c.chainId)) + ContextTail(c, blockHash))
  }

  /** The part of a context message behind the chain id: height, round, phase and hash. */
  function ContextTail(c: Context, blockHash: string): (r: bytes)
    requires ValidContext(c) && Encodable(blockHash)
  {
    BigEndian(c.height, 8) + (BigEndian(c.round, 4) + ([Tag(c.phase)] + Prefixed(Utf8(blockHash))))
  }

  /** The message a proof of possession signs; the hex digits of the key follow the domain. */
  function PopMessage(hexKey: string): (r: bytes) {
    POP_DOMAIN + Utf8(hexKey)
  }

  lemma PrefixedAppend(b: bytes, rest: bytes)
    ensures Prefixed(b) + rest == BigEndian(|b|, 4) + (b + rest)
  {
  }

  /** The layout of a vote message: the domain, the hash's length in four bytes, the hash. */
  lemma VoteMessageLayout(h: string) returns (hashLength: bytes)
    requires Encodable(h)
    ensures VoteMessage(h) == Ascii("glasschain-bft-vote:") + (hashLength + Utf8(h))
    ensures |hashLength| == 4 && Value(hashLength) == |Utf8(h)|
  {
    Powers();
    hashLength := BigEndian(|Utf8(h)|, 4);
    BigEndianValue(|Utf8(h)|, 4);
  }

  /**
   * The layout of a context message: the domain, the chain id behind its length, the height in eight
   * bytes, the round in four, the phase in one, and the hash behind its length.
   */
  lemma ContextMessageLayout(c: Context, h: string) returns (chainLength: bytes, height: bytes, round: bytes, hashLength: bytes)
    requires ValidContext(c) && Encodable(h)
    ensures var phase: byte := match c.phase case Prevote => 0 case Precommit => 1;
      ContextMessage(c, h)
      == Ascii("glasschain-bft-vote-ctx:") + (chainLength + (Utf8(c.chainId) + (height + (round + ([phase] + (hashLength + Utf8(h)))))))
    ensures |chainLength| == 4 && Value(chainLength) == |Utf8(c.chainId)|
    ensures |height| == 8 && Value(height) == c.height
    ensures |round| == 4 && Value(round) == c.round
    ensures |hashLength| == 4 && Value(hashLength) == |Utf8(h)|
  {
    Powers();
    chainLength, height, round, hashLength :=
      BigEndian(|Utf8(c.chainId)|, 4), BigEndian(c.height, 8), BigEndian(c.round, 4), BigEndian(|Utf8(h)|, 4);
    BigEndianValue(|Utf8(c.chainId)|, 4);
    BigEndianValue(c.height, 8);
    BigEndianValue(c.round, 4);
    BigEndianValue(|Utf8(h)|, 4);
    PrefixedAppend(Utf8(c.chainId), ContextTail(c, h));
  }

  lemma VoteMessageInjective(h: string, k: string)
    requires Encodable(h) && Encodable(k)
    requires VoteMessage(h) == VoteMessage(k)
    ensures h == k
  {
    Cancel(VOTE_DOMAIN, Prefixed(Utf8(h)), VOTE_DOMAIN, Prefixed(Utf8(k)));
    assert Prefixed(Utf8(h)) + [] == Prefixed(Utf8(k)) + [];
    PrefixedCancel(Utf8(h), [], Utf8(k), []);
    Utf8Injective(h, k);
  }

  lemma ContextTailInjective(c: Context, h: string, d: Context, k: string)
    requires ValidContext(c) && ValidContext(d) && Encodable(h) && Encodable(k)
    requires ContextTail(c, h) == ContextTail(d, k)
    ensures c.height == d.height && c.round == d.round && c.phase == d.phase && h == k
  {
    Powers();
    var m, n := [Tag(c.phase)] + Prefixed(Utf8(h)), [Tag(d.phase)] + Prefixed(Utf8(k));
    Cancel(BigEndian(c.height, 8), BigEndian(c.round, 4) + m, BigEndian(d.height, 8), BigEndian(d.round, 4) + n);
    BigEndianInjective(c.height, d.height, 8);
    Cancel(BigEndian(c.round, 4), m, BigEndian(d.round, 4), n);
    BigEndianInjective(c.round, d.round, 4);
    Cancel([Tag(c.phase)], Prefixed(Utf8(h)), [Tag(d.phase)], Prefixed(Utf8(k)));
    assert [Tag(c.phase)][0] == [Tag(d.phase)][0];
    assert Prefixed(Utf8(h)) + [] == Prefixed(Utf8(k)) + [];
    PrefixedCancel(Utf8(h), [], Utf8(k), []);
    Utf8Injective(h, k);
  }

  /** A context message determines its chain, height, round, phase and hash. */
  lemma ContextMessageInjective(c: Context, h: string, d: Context, k: string)
    requires ValidContext(c) && ValidContext(d) && Encodable(h) && Encodable(k)
    requires ContextMessage(c, h) == ContextMessage(d, k)
    ensures c == d && h == k
  {
    var x, y := Prefixed(Utf8(c.chainId)) + ContextTail(c, h), Prefixed(Utf8(d.chainId)) + ContextTail(d, k);
    Cancel(CONTEXT_DOMAIN, x, CONTEXT_DOMAIN, y);
    PrefixedCancel(Utf8(c.chainId), ContextTail(c, h), Utf8(d.chainId), ContextTail(d, k));
    Utf8Injective(c.chainId, d.chainId);
    ContextTailInjective(c, h, d, k);
  }

  lemma Domains()
    ensures |VOTE_DOMAIN| == 20 && VOTE_DOMAIN[19] == ':' as nat && VOTE_DOMAIN[12] == 'f' as nat
    ensures |CONTEXT_DOMAIN| == 24 && CONTEXT_DOMAIN[19] == '-' as nat && CONTEXT_DOMAIN[12] == 'f' as nat
    ensures |POP_DOMAIN| == 19 && POP_DOMAIN[12] == 'l' as nat
  {
  }

  lemma HeadByte(domain: bytes, rest: bytes, i: nat)
    requires i < |domain|
    ensures (domain + rest)[i] == domain[i]
  {
  }

  /** The three signing purposes never share a message. */
  lemma DomainsAreSeparate(c: Context, h: string, k: string, hexKey: string)
    requires ValidContext(c) && Encodable(h) && Encodable(k)
    ensures ContextMessage(c, h) != VoteMessage(k)
    ensures ContextMessage(c, h) != PopMessage(hexKey)
    ensures VoteMessage(k) != PopMessage(hexKey)
  {
    Domains();
    var x, y, z := Prefixed(Utf8(c.chainId)) + ContextTail(c, h), Prefixed(Utf8(k)), Utf8(hexKey);
    HeadByte(CONTEXT_DOMAIN, x, 19);
    HeadByte(VOTE_DOMAIN, y, 19);
    HeadByte(CONTEXT_DOMAIN, x, 12);
    HeadByte(VOTE_DOMAIN, y, 12);
    HeadByte(POP_DOMAIN, z, 12);
  }

  // ---------------------------------------------------------------- votes and proofs

  /** 48 bytes that decode to a BLS public key. */
  const WellFormedBlsKey: bytes -> bool

  datatype BftVote = BftVote(
    context: Context, blockHash: string, publicKey: bytes,
    signature: BlsSignature, contextSignature: BlsSignature, algorithm: SignatureAlgorithm)

  /** The encoding limits the message builders panic beyond. */
  predicate ValidVote(v: BftVote) {
    ValidContext(v.context) && Encodable(v.blockHash)
  }

  /** Ideal verification of one signature by `key` over `message`. */
  predicate Verifies(key: bytes, signature: BlsSignature, message: bytes) {
    signature.Bls? && signature.parts == multiset{(key, message)}
  }

  /** `BftVote::verify` returns Ok. */
  predicate VoteVerifies(v: BftVote)
    requires ValidVote(v)
  {
    && v.algorithm.Bls12381?
    && !v.contextSignature.Absent?
    && WellFormedBlsKey(v.publicKey)
    && Verifies(v.publicKey, v.signature, VoteMessage(v.blockHash))
    && Verifies(v.publicKey, v.contextSignature, ContextMessage(v.context, v.blockHash))
  }

  function Sign(c: Context, blockHash: string, key: bytes): (r: BftVote)
    requires ValidContext(c) && Encodable(blockHash)
    ensures WellFormedBlsKey(key) ==> ValidVote(r) && VoteVerifies(r)
  {
    BftVote(c, blockHash, key, Bls(multiset{(key, VoteMessage(blockHash))}),
            Bls(multiset{(key, ContextMessage(c, blockHash))}), Bls12381)
  }

  datatype EquivocationProof = EquivocationProof(
    height: nat, round: nat, phase: VotePhase, publicKey: bytes, first: BftVote, second: BftVote)

  predicate Agrees(p: EquivocationProof, v: BftVote) {
    v.context.height == p.height && v.context.round == p.round && v.context.phase == p.phase && v.publicKey == p.publicKey
  }

  /** `EquivocationProof::verify` returns Ok. */
  predicate ProofVerifies(p: EquivocationProof)
    requires ValidVote(p.first) && ValidVote(p.second)
  {
    && VoteVerifies(p.first)
    && VoteVerifies(p.second)
    && p.first.blockHash != p.second.blockHash
    && Agrees(p, p.first)
    && Agrees(p, p.second)
    && p.first.context.chainId == p.second.context.chainId
  }

  /** A message some honest signing routine produces for the votes in `log`, or a proof of possession. */
  ghost predicate SignedFor(log: set<(Context, string)>, message: bytes) {
    || (exists entry :: entry in log && Loggable(entry) && message == VoteMessage(entry.1))
    || (exists entry :: entry in log && Loggable(entry) && message == ContextMessage(entry.0, entry.1))
    || (exists hexKey :: message == PopMessage(hexKey))
  }

  predicate Loggable(entry: (Context, string)) {
    ValidContext(entry.0) && Encodable(entry.1)
  }

  /** Unforgeability: whatever verifies under `key` was signed for the votes in `log`. */
  ghost predicate Unforged(key: bytes, log: set<(Context, string)>, v: BftVote)
  {
    forall message: bytes ::
      (Verifies(key, v.signature, message) || Verifies(key, v.contextSignature, message)) ==> SignedFor(log, message)
  }

  /** At most one hash per chain, height, round and phase. */
  predicate OneHashPerContext(log: set<(Context, string)>) {
    forall x, y :: x in log && y in log && x.0 == y.0 ==> x.1 == y.1
  }

  /** A verifying vote of a key is an entry of that key's log: no other signature re-parses as it. */
  lemma VerifiedVoteWasCast(v: BftVote, log: set<(Context, string)>)
    requires ValidVote(v) && VoteVerifies(v) && Unforged(v.publicKey, log, v)
    ensures (v.context, v.blockHash) in log
  {
    var message := ContextMessage(v.context, v.blockHash);
    assert Verifies(v.publicKey, v.contextSignature, message);
    assert SignedFor(log, message);
    if entry :| entry in log && Loggable(entry) && message == ContextMessage(entry.0, entry.1) {
      ContextMessageInjective(v.context, v.blockHash, entry.0, entry.1);
    } else if entry :| entry in log && Loggable(entry) && message == VoteMessage(entry.1) {
      DomainsAreSeparate(v.context, v.blockHash, entry.1, "");
      assert false;
    } else {
      var hexKey :| message == PopMessage(hexKey);
      DomainsAreSeparate(v.context, v.blockHash, v.blockHash, hexKey);
      assert false;
    }
  }

  /** No proof convicts a key that cast at most one hash per context. */
  lemma HonestKeyIsNeverConvicted(p: EquivocationProof, log: set<(Context, string)>)
    requires ValidVote(p.first) && ValidVote(p.second)
    requires Unforged(p.publicKey, log, p.first) && Unforged(p.publicKey, log, p.second)
    requires OneHashPerContext(log)
    ensures !ProofVerifies(p)
  {
    if ProofVerifies(p) {
      VerifiedVoteWasCast(p.first, log);
      VerifiedVoteWasCast(p.second, log);
      assert false;
    }
  }

  /** A proof against `key` that verifies although every signature in it was really made for `log`. */
  ghost predicate Convicts(p: EquivocationProof, key: bytes, log: set<(Context, string)>) {
    && ValidVote(p.first) && ValidVote(p.second) && p.publicKey == key
    && Unforged(key, log, p.first) && Unforged(key, log, p.second)
    && ProofVerifies(p)
  }

  lemma OnePartVerifiesOneMessage(key: bytes, signed: bytes, message: bytes)
    ensures Verifies(key, Bls(multiset{(key, signed)}), message) <==> message == signed
  {
    assert (key, signed) in multiset{(key, signed)};
  }

  lemma CastVoteIsUnforged(c: Context, h: string, key: bytes, log: set<(Context, string)>)
    requires (c, h) in log && Loggable((c, h))
    ensures Unforged(key, log, Sign(c, h, key))
  {
    forall message: bytes
      ensures Verifies(key, Sign(c, h, key).signature, message) <==> message == VoteMessage(h)
      ensures Verifies(key, Sign(c, h, key).contextSignature, message) <==> message == ContextMessage(c, h)
    {
      OnePartVerifiesOneMessage(key, VoteMessage(h), message);
      OnePartVerifiesOneMessage(key, ContextMessage(c, h), message);
    }
    assert Loggable((c, h)) && (c, h).0 == c && (c, h).1 == h;
  }

  /** A key can be convicted exactly when it cast two hashes in one context. */
  lemma ConvictableIffEquivocated(key: bytes, log: set<(Context, string)>)
    requires WellFormedBlsKey(key) && forall entry :: entry in log ==> Loggable(entry)
    ensures (exists p :: Convicts(p, key, log)) <==> !OneHashPerContext(log)
  {
    if OneHashPerContext(log) {
      forall p ensures !Convicts(p, key, log) {
        if Convicts(p, key, log) { HonestKeyIsNeverConvicted(p, log); }
      }
    } else {
      var x, y :| x in log && y in log && x.0 == y.0 && x.1 != y.1;
      var c := x.0;
      CastVoteIsUnforged(c, x.1, key, log);
      CastVoteIsUnforged(c, y.1, key, log);
      var p := EquivocationProof(c.height, c.round, c.phase, key, Sign(c, x.1, key), Sign(c, y.1, key));
      assert Convicts(p, key, log);
    }
  }
}
