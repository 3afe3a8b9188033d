/** Quorum arithmetic and the signer bitmap (bft.rs, proof_arith). */
module Bitmap {
  const USIZE_MAX: nat := 0xFFFF_FFFF_FFFF_FFFF

  /** Two thirds of the set plus one, with the source's saturating product. */
  function QuorumThreshold(validators: nat): (r: nat) {
    (if 2 * validators <= USIZE_MAX then 2 * validators else USIZE_MAX) / 3 + 1
  }

  /** Enough signers are a strict two-thirds majority, as long as twice the set fits a word. */
  lemma QuorumIsTwoThirds(signers: nat, validators: nat)
    ensures signers >= QuorumThreshold(validators)
       <==> 3 * signers > if 2 * validators <= USIZE_MAX then 2 * validators else USIZE_MAX
  {
  }

  /** The least number of bytes with a bit for every validator. */
  function BitmapLen(validators: nat): (r: nat)
    ensures validators <= 8 * r < validators + 8
    ensures forall i: nat :: i < validators ==> i / 8 < r
  {
    if validators % 8 == 0 then validators / 8 else validators / 8 + 1
  }

  function Mask(bit: nat): (r: bv8)
    requires bit < 8
  {
    1 << bit
  }

  predicate BitSet(value: bv8, bit: nat)
    requires bit < 8
  {
    value & Mask(bit) != 0
  }

  /** The bitmap names validator `i`. */
  predicate Has(bitmap: seq<bv8>, i: nat) {
    i / 8 < |bitmap| && BitSet(bitmap[i / 8], i % 8)
  }

  /** Bit `i` of the bitmap, counted from the lowest bit of the first byte. */
  predicate BitAt(bitmap: seq<bv8>, i: nat) {
    i / 8 < |bitmap| && (bitmap[i / 8] >> (i % 8)) & 1 == 1
  }

  function WithBit(bitmap: seq<bv8>, i: nat): (r: seq<bv8>)
    requires i / 8 < |bitmap|
  {
    bitmap[i / 8 := bitmap[i / 8] | Mask(i % 8)]
  }

  lemma MaskIsOneBit(bit: nat)
    requires bit < 8
    ensures Mask(bit) == match bit case 0 => 1 case 1 => 2 case 2 => 4 case 3 => 8
                               case 4 => 16 case 5 => 32 case 6 => 64 case _ => 128
  {
  }

  lemma SetOneBit(value: bv8, i: nat, j: nat)
    requires i < 8 && j < 8
    ensures BitSet(value | Mask(i), j) <==> BitSet(value, j) || i == j
  {
    MaskIsOneBit(i);
    MaskIsOneBit(j);
  }

  lemma ShiftedBit(value: bv8, bit: nat)
    requires bit < 8
    ensures BitSet(value, bit) <==> (value >> bit) & 1 == 1
  {
    MaskIsOneBit(bit);
  }

  lemma HasIsBitAt(bitmap: seq<bv8>, i: nat)
    ensures Has(bitmap, i) <==> BitAt(bitmap, i)
  {
    if i / 8 < |bitmap| { ShiftedBit(bitmap[i / 8], i % 8); }
  }

  /** Setting a validator's bit adds that validator and nobody else. */
  lemma WithBitAddsOne(bitmap: seq<bv8>, i: nat, j: nat)
    requires i / 8 < |bitmap|
    ensures Has(WithBit(bitmap, i), j) <==> Has(bitmap, j) || i == j
    ensures BitAt(WithBit(bitmap, i), j) <==> BitAt(bitmap, j) || i == j
  {
    HasIsBitAt(bitmap, j);
    HasIsBitAt(WithBit(bitmap, i), j);
    if j / 8 < |bitmap| && i / 8 == j / 8 {
      SetOneBit(bitmap[i / 8], i % 8, j % 8);
    }
  }

  /** The positions below `n` whose bit is set, ascending. */
  function SetBits(bitmap: seq<bv8>, n: nat): (r: seq<nat>) {
    if n == 0 then [] else SetBits(bitmap, n - 1) + if Has(bitmap, n - 1) then [n - 1] else []
  }

  function Signers(bitmap: seq<bv8>): (r: seq<nat>) {
    SetBits(bitmap, 8 * |bitmap|)
  }

  predicate Ascending(xs: seq<nat>) {
    forall i, j :: 0 <= i < j < |xs| ==> xs[i] < xs[j]
  }

  lemma {:induction false} SetBitsMembers(bitmap: seq<bv8>, n: nat, i: nat)
    ensures i in SetBits(bitmap, n) <==> i < n && Has(bitmap, i)
  {
    if n == 0 {
    } else {
      SetBitsMembers(bitmap, n - 1, i);
    }
  }

  lemma {:induction false} SetBitsAscending(bitmap: seq<bv8>, n: nat)
    ensures Ascending(SetBits(bitmap, n))
  {
    if n == 0 {
    } else {
      SetBitsAscending(bitmap, n - 1);
      var lower := SetBits(bitmap, n - 1);
      forall k | 0 <= k < |lower| ensures lower[k] < n - 1 {
        assert lower[k] in lower;
        SetBitsMembers(bitmap, n - 1, lower[k]);
      }
    }
  }

  lemma HasAt(bitmap: seq<bv8>, byte: nat, bit: nat)
    requires byte < |bitmap| && bit < 8
    ensures Has(bitmap, 8 * byte + bit) == BitSet(bitmap[byte], bit)
  {
    assert (8 * byte + bit) / 8 == byte && (8 * byte + bit) % 8 == bit;
  }

  /** Expansion yields each named validator once, ascending, and nobody else. */
  lemma SignersAreExactlyTheSetBits(bitmap: seq<bv8>)
    ensures Ascending(Signers(bitmap))
    ensures forall i: nat :: i in Signers(bitmap) <==> Has(bitmap, i)
    ensures forall i: nat :: i in Signers(bitmap) <==> BitAt(bitmap, i)
  {
    SetBitsAscending(bitmap, 8 * |bitmap|);
    forall i: nat ensures (i in Signers(bitmap) <==> Has(bitmap, i)) && (Has(bitmap, i) <==> BitAt(bitmap, i)) {
      SetBitsMembers(bitmap, 8 * |bitmap|, i);
      HasIsBitAt(bitmap, i);
    }
  }

  /** The validators below `n` whose bit is set. */
  function Named(bitmap: seq<bv8>, n: nat): (r: set<nat>) {
    set i: nat | i < n && BitAt(bitmap, i)
  }

  lemma {:induction false} NamedCount(bitmap: seq<bv8>, n: nat)
    ensures |Named(bitmap, n)| == |SetBits(bitmap, n)|
  {
    if n == 0 {
      assert Named(bitmap, 0) == {};
    } else {
      NamedCount(bitmap, n - 1);
      NamedStep(bitmap, n);
    }
  }

  lemma NamedStep(bitmap: seq<bv8>, n: nat)
    requires n > 0
    ensures Named(bitmap, n) == if Has(bitmap, n - 1) then Named(bitmap, n - 1) + {n - 1} else Named(bitmap, n - 1)
  {
    HasIsBitAt(bitmap, n - 1);
  }

  lemma NextBit(bitmap: seq<bv8>, byte: nat, bit: nat)
    requires byte < |bitmap| && bit < 8
    ensures SetBits(bitmap, 8 * byte + bit + 1)
         == SetBits(bitmap, 8 * byte + bit) + if BitSet(bitmap[byte], bit) then [8 * byte + bit] else []
  {
    HasAt(bitmap, byte, bit);
  }

  /** One more position adds itself if it is named. */
  lemma SetBitsStep(bitmap: seq<bv8>, n: nat, limit: nat)
    requires 0 < n <= limit
    ensures SetBits(bitmap, n)
         == if n - 1 in Named(bitmap, limit) then SetBits(bitmap, n - 1) + [n - 1] else SetBits(bitmap, n - 1)
  {
    assert SetBits(bitmap, n - 1) + [] == SetBits(bitmap, n - 1);
    HasIsBitAt(bitmap, n - 1);
  }

  method ExpandSigners(bitmap: seq<bv8>) returns (signers: seq<nat>)
    requires |bitmap| <= USIZE_MAX / 8
    ensures signers == Signers(bitmap)
  {
    signers := [];
    var byte := 0;
    while byte < |bitmap|
      invariant byte <= |bitmap| && signers == SetBits(bitmap, 8 * byte)
    {
      var bit := 0;
      while bit < 8
        invariant bit <= 8 && signers == SetBits(bitmap, 8 * byte + bit)
      {
        NextBit(bitmap, byte, bit);
        if BitSet(bitmap[byte], bit) {
          assert 8 * byte + bit <= USIZE_MAX;
          signers := signers + [8 * byte + bit];
        }
        bit := bit + 1;
      }
      byte := byte + 1;
    }
  }

  predicate InRange(signers: seq<nat>, validators: nat) {
    forall i :: 0 <= i < |signers| ==> signers[i] < validators
  }

  method SignersInRange(signers: seq<nat>, validators: nat) returns (inRange: bool)
    ensures inRange == InRange(signers, validators)
  {
    var i := 0;
    while i < |signers|
      invariant i <= |signers| && InRange(signers[..i], validators)
    {
      if signers[i] >= validators {
        return false;
      }
      i := i + 1;
    }
    return true;
  }

  lemma {:induction false} Below(n: nat) returns (all: set<nat>)
    ensures |all| == n && forall i: nat :: i in all <==> i < n
  {
    if n == 0 {
      all := {};
    } else {
      var smaller := Below(n - 1);
      all := smaller + {n - 1};
    }
  }

  /** Two sets of more than two thirds of n validators share more than a third of them. */
  lemma QuorumsIntersect(xs: set<nat>, ys: set<nat>, n: nat)
    requires forall i :: i in xs + ys ==> i < n
    requires 3 * |xs| > 2 * n && 3 * |ys| > 2 * n
    ensures 3 * |xs * ys| > n
  {
    var all := Below(n);
    assert xs + ys <= all;
    SubsetSize(xs + ys, all);
    assert |xs + ys| == |xs| + |ys| - |xs * ys|;
  }

  lemma {:induction false} SubsetSize<T>(xs: set<T>, ys: set<T>)
    requires xs <= ys
    ensures |xs| <= |ys|
  {
    if xs == {} {
    } else {
      var x :| x in xs;
      SubsetSize(xs - {x}, ys - {x});
    }
  }
}
