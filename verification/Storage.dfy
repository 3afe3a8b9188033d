/** The block-plus-state commit boundary (providers.rs). */
module Storage {
  import opened Types
  import opened WriteSet

  datatype Contents = Contents(blocks: map<nat, Block>, state: Cache)

  predicate IsMax(keys: set<nat>, m: nat) {
    m in keys && forall k :: k in keys ==> k <= m
  }

  lemma {:induction false} MaxExists(keys: set<nat>)
    requires keys != {}
    ensures exists m :: IsMax(keys, m)
  {
    var k :| k in keys;
    var rest := keys - {k};
    if rest == {} {
      assert keys == {k};
      assert IsMax(keys, k);
    } else {
      MaxExists(rest);
      var m :| IsMax(rest, m);
      var top := if k <= m then m else k;
      forall j | j in keys ensures j <= top { assert j == k || j in rest; }
      assert IsMax(keys, top);
    }
  }

  function LatestIndex(blocks: map<nat, Block>): (r: Option<nat>)
    ensures r.None? <==> blocks == map[]
    ensures r.Some? ==> IsMax(blocks.Keys, r.value)
  {
    if blocks.Keys == {} then assert blocks == map[]; None
    else
      MaxExists(blocks.Keys);
      var m :| m in blocks.Keys && IsMax(blocks.Keys, m);
      Some(m)
  }

  function Tip(blocks: map<nat, Block>): (r: Option<Block>) {
    var latest := LatestIndex(blocks);
    if latest.None? then None else Some(blocks[latest.value])
  }

  /** `validate_tip_chain` returns Ok. */
  predicate ChainsToTip(block: Block, tip: Option<Block>) {
    if tip.None? then block.index == 0
    else block.index == tip.value.index + 1 && block.previousHash == tip.value.hash
  }

  /** The block is the first at index 0, or names the index and the hash that follow the block stored highest. */
  predicate Fits(block: Block, blocks: map<nat, Block>) {
    if blocks == map[] then block.index == 0
    else exists m :: m in blocks && IsMax(blocks.Keys, m) && block.index == blocks[m].index + 1 && block.previousHash == blocks[m].hash
  }

  lemma FitsIff(block: Block, blocks: map<nat, Block>)
    ensures ChainsToTip(block, Tip(blocks)) <==> Fits(block, blocks)
  {
  }

  /** The atomic commit: all of the block and its writes, or nothing. */
  function ApplyBlock(c: Contents, block: Block): (r: Contents) {
    if ChainsToTip(block, Tip(c.blocks))
    then Contents(c.blocks[block.index := block], ApplyWrites(c.state, block.writeSet))
    else c
  }

  // ---------------------------------------------------------------- main results

  /** The world state of a chain: every write set, replayed in order. */
  function Replay(chain: seq<Block>): (r: Cache) {
    if chain == [] then map[] else ApplyWrites(Replay(chain[..|chain| - 1]), chain[|chain| - 1].writeSet)
  }

  /** Contiguous from index 0 and hash-linked. */
  predicate Contiguous(chain: seq<Block>) {
    && (forall i :: 0 <= i < |chain| ==> chain[i].index == i)
    && forall i :: 1 <= i < |chain| ==> chain[i].previousHash == chain[i - 1].hash
  }

  /** The store holds exactly `chain`, and the state is its replay. */
  ghost predicate Holds(c: Contents, chain: seq<Block>) {
    && (forall i: nat :: i in c.blocks <==> i < |chain|)
    && (forall i :: 0 <= i < |chain| ==> c.blocks[i] == chain[i])
    && c.state == Replay(chain)
  }

  /** The reference meaning: a candidate extends the chain or is ignored. */
  function Extend(chain: seq<Block>, block: Block): (r: seq<Block>) {
    var fits := if chain == [] then block.index == 0
                else block.index == |chain| && block.previousHash == chain[|chain| - 1].hash;
    if fits then chain + [block] else chain
  }

  function Chain(candidates: seq<Block>): (r: seq<Block>) {
    if candidates == [] then [] else Extend(Chain(candidates[..|candidates| - 1]), candidates[|candidates| - 1])
  }

  function Store(candidates: seq<Block>): (r: Contents) {
    if candidates == [] then Contents(map[], map[])
    else ApplyBlock(Store(candidates[..|candidates| - 1]), candidates[|candidates| - 1])
  }

  lemma TipOfChain(c: Contents, chain: seq<Block>)
    requires Holds(c, chain)
    ensures Tip(c.blocks) == if chain == [] then None else Some(chain[|chain| - 1])
  {
    if chain == [] {
      assert c.blocks == map[];
    } else {
      assert |chain| - 1 in c.blocks;
    }
  }

  lemma HoldsPush(c: Contents, chain: seq<Block>, block: Block)
    requires Holds(c, chain)
    ensures Holds(Contents(c.blocks[|chain| := block], ApplyWrites(c.state, block.writeSet)), chain + [block])
  {
    assert (chain + [block])[..|chain|] == chain;
  }

  lemma ContiguousPush(chain: seq<Block>, block: Block)
    requires Contiguous(chain) && block.index == |chain|
    requires chain != [] ==> block.previousHash == chain[|chain| - 1].hash
    ensures Contiguous(chain + [block])
  {
    var longer := chain + [block];
    forall i | 1 <= i < |longer| ensures longer[i].previousHash == longer[i - 1].hash {
      if i < |chain| { assert longer[i] == chain[i] && longer[i - 1] == chain[i - 1]; }
    }
  }

  lemma ApplyBlockExtends(c: Contents, chain: seq<Block>, block: Block)
    requires Holds(c, chain) && Contiguous(chain)
    ensures Holds(ApplyBlock(c, block), Extend(chain, block)) && Contiguous(Extend(chain, block))
  {
    TipOfChain(c, chain);
    if ChainsToTip(block, Tip(c.blocks)) {
      assert block.index == |chain|;
      HoldsPush(c, chain, block);
      ContiguousPush(chain, block);
    }
  }

  /**
   * World state equals replay: whatever candidates are offered to an empty store, it holds the
   * contiguous hash-linked chain of those that fitted, and its state is that chain's replay.
   */
  lemma {:induction false} WorldStateIsReplay(candidates: seq<Block>)
    ensures Contiguous(Chain(candidates)) && Holds(Store(candidates), Chain(candidates))
  {
    if candidates == [] {
    } else {
      var n := |candidates| - 1;
      WorldStateIsReplay(candidates[..n]);
      ApplyBlockExtends(Store(candidates[..n]), Chain(candidates[..n]), candidates[n]);
    }
  }

  /** Every write of the chain, in commit order. */
  function AllWrites(chain: seq<Block>): (r: seq<PersistentWrite>) {
    if chain == [] then [] else AllWrites(chain[..|chain| - 1]) + chain[|chain| - 1].writeSet
  }

  lemma {:induction false} ReplayIsOneList(chain: seq<Block>)
    ensures Replay(chain) == ApplyWrites(map[], AllWrites(chain))
  {
    if chain == [] {
    } else {
      ReplayIsOneList(chain[..|chain| - 1]);
      ApplyWritesConcat(map[], AllWrites(chain[..|chain| - 1]), chain[|chain| - 1].writeSet);
    }
  }

  /** So whatever was offered, each state key reads what the chain's last write to it says. */
  lemma WorldStateReads(candidates: seq<Block>, key: string)
    ensures LastWriteWins(map[], AllWrites(Chain(candidates)), Store(candidates).state, key)
  {
    WorldStateIsReplay(candidates);
    ReplayIsOneList(Chain(candidates));
    ApplyWritesMeaning(map[], AllWrites(Chain(candidates)), key);
  }

  /** Canonical order and guest order of a block's writes leave the same store. */
  lemma GuestOrderIsIrrelevant(c: Contents, block: Block, shuffled: seq<PersistentWrite>)
    requires Canonicalizable(block.writeSet) && multiset(shuffled) == multiset(block.writeSet)
    requires forall w :: w in block.writeSet ==> ColonFree(w.channel) && ColonFree(w.contract)
    ensures ApplyBlock(c, block).state == ApplyBlock(c, block.(writeSet := shuffled)).state
  {
    CanonicalWritesCommute(c.state, block.writeSet, shuffled);
  }

  // ---------------------------------------------------------------- the provider

  class InMemoryStorageProvider {
    var blocks: map<nat, Block>
    var state: Cache

    function Model(): (c: Contents)
      reads this
    {
      Contents(blocks, state)
    }

    constructor ()
      ensures Model() == Contents(map[], map[])
    {
      blocks, state := map[], map[];
    }

    method PutBlock(block: Block)
      modifies this`blocks
      ensures blocks == old(blocks)[block.index := block]
    {
      blocks := blocks[block.index := block];
    }

    method PutState(key: string, value: seq<byte>)
      modifies this`state
      ensures state == old(state)[key := value]
    {
      state := state[key := value];
    }

    method DeleteState(key: string)
      modifies this`state
      ensures state == old(state) - {key}
    {
      state := state - {key};
    }

    /** The in-memory override: block insert and every write under one lock. */
    method ApplyAtomically(block: Block) returns (outcome: Outcome)
      modifies this
      ensures Model() == ApplyBlock(old(Model()), block)
      ensures outcome == if Fits(block, old(blocks)) then Ok else Err(InvalidBlock)
      ensures blocks == if outcome.Ok? then old(blocks)[block.index := block] else old(blocks)
      ensures outcome.Err? ==> state == old(state)
    {
      FitsIff(block, blocks);
      if !ChainsToTip(block, Tip(blocks)) {
        return Err(InvalidBlock);
      }
      blocks := blocks[block.index := block];
      var ws := block.writeSet;
      for i := 0 to |ws|
        invariant blocks == old(blocks)[block.index := block]
        invariant state == ApplyWrites(old(state), ws[..i])
      {
        assert ws[..i + 1][..i] == ws[..i];
        state := ApplyWrite(state, ws[i]);
      }
      assert ws[..|ws|] == ws;
      return Ok;
    }

    /** The trait's default: the same commit through the provider's own put and delete operations. */
    method ApplySequentially(block: Block) returns (outcome: Outcome)
      modifies this
      ensures Model() == ApplyBlock(old(Model()), block)
      ensures outcome == if Fits(block, old(blocks)) then Ok else Err(InvalidBlock)
      ensures blocks == if outcome.Ok? then old(blocks)[block.index := block] else old(blocks)
      ensures outcome.Err? ==> state == old(state)
    {
      var latest := LatestIndex(blocks);
      var tip: Option<Block> := None;
      if latest.Some? {
        tip := Some(blocks[latest.value]);
      }
      FitsIff(block, blocks);
      if !ChainsToTip(block, tip) {
        return Err(InvalidBlock);
      }
      PutBlock(block);
      var ws := block.writeSet;
      for i := 0 to |ws|
        invariant blocks == old(blocks)[block.index := block]
        invariant state == ApplyWrites(old(state), ws[..i])
      {
        assert ws[..i + 1][..i] == ws[..i];
        match ws[i].op {
          case Set(value) => PutState(StateKey(ws[i]), value);
          case Delete => DeleteState(StateKey(ws[i]));
        }
      }
      assert ws[..|ws|] == ws;
      return Ok;
    }
  }
}
