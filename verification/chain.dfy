/** The blocks bucket, the Blockchain handle and the backward iterator
    (blockchain.go, BlockchainIterator, Iterator and Next). */
module Chain {
  import opened Wrappers
  import opened LedgerTypes

  /** The blocks bucket: block hash to block, and the value stored under the
      reserved key "l" (the tip's hash; empty when the key is absent, as a
      bolt Get of a missing key yields nil). */
  datatype Store = Store(blocks: map<Hash, Block>, last: Hash)

  datatype Blockchain = Blockchain(tip: Hash, db: Store)

  datatype BlockchainIterator = BlockchainIterator(currentHash: Hash, db: Store)

  /** A fresh iterator positioned at the chain's tip. */
  function Iterator(bc: Blockchain): BlockchainIterator {
    BlockchainIterator(bc.tip, bc.db)
  }

  /** Next: fetch the block under the cursor and move the cursor to that
      block's predecessor. Deserializing the nil that bolt returns for a
      missing key panics, which is `BlockNotFound` here. */
  function Next(it: BlockchainIterator): (r: Result<(Block, BlockchainIterator), LedgerError>)
    ensures r.Success? <==> it.currentHash in it.db.blocks
    ensures r.Failure? ==> r.error == BlockNotFound(it.currentHash)
    ensures r.Success? ==>
      && r.value.0 == it.db.blocks[it.currentHash]
      && r.value.1.currentHash == r.value.0.prevBlockHash
      && r.value.1.db == it.db
  {
    if it.currentHash in it.db.blocks then
      var block := it.db.blocks[it.currentHash];
      Success((block, BlockchainIterator(block.prevBlockHash, it.db)))
    else
      Failure(BlockNotFound(it.currentHash))
  }

  /** `chain` is what following PrevBlockHash links from `h` yields: every
      linked hash is present and the last block, and only it, has an empty
      PrevBlockHash. */
  ghost predicate LinkedFrom(blocks: map<Hash, Block>, h: Hash, chain: seq<Block>)
    decreases |chain|
  {
    && |chain| > 0
    && h in blocks
    && blocks[h] == chain[0]
    && if |chain[0].prevBlockHash| == 0 then |chain| == 1
       else LinkedFrom(blocks, chain[0].prevBlockHash, chain[1..])
  }

  /** The blocks the loop of FindUTXOInTransactions consumes: call Next,
      process the block, stop after the block whose PrevBlockHash is empty.
      (FindTransaction's loop, which returns at the first match, is
      `Lookup.FindTransactionFrom`.) `budget`
      counts the further Next calls allowed; once it is spent without
      reaching genesis, the walk has fetched more blocks than the store
      holds, so it is revisiting one and the Go loop would never end.
      Whatever the walk returns is a well-formed chain from its start. */
  function Walk(it: BlockchainIterator, budget: nat): (r: Result<seq<Block>, LedgerError>)
    ensures r.Success? ==> LinkedFrom(it.db.blocks, it.currentHash, r.value)
    ensures r.Failure? ==> r.error == EndlessChain || r.error.BlockNotFound?
    decreases budget
  {
    match Next(it)
    case Failure(e) => Failure(e)
    case Success((block, rest)) =>
      if |block.prevBlockHash| == 0 then Success([block])
      else if budget == 0 then Failure(EndlessChain)
      else
        match Walk(rest, budget - 1)
        case Failure(e) => Failure(e)
        case Success(older) =>
          assert ([block] + older)[1..] == older;
          Success([block] + older)
  }

  /** The chain from the tip, newest block first. */
  function Blocks(bc: Blockchain): (r: Result<seq<Block>, LedgerError>)
    ensures r.Success? ==> LinkedFrom(bc.db.blocks, bc.tip, r.value)
    ensures r.Failure? ==> r.error == EndlessChain || r.error.BlockNotFound?
  {
    Walk(Iterator(bc), |bc.db.blocks|)
  }

  /** A walk with enough budget yields exactly the well-formed chain. */
  lemma {:induction false} WalkComplete(it: BlockchainIterator, budget: nat, chain: seq<Block>)
    requires LinkedFrom(it.db.blocks, it.currentHash, chain)
    requires |chain| <= budget + 1
    ensures Walk(it, budget) == Success(chain)
    decreases budget
  {
    var (block, rest) := Next(it).value;
    if |block.prevBlockHash| > 0 {
      WalkComplete(rest, budget - 1, chain[1..]);
      assert chain == [block] + chain[1..];
    } else {
      assert chain == [block];
    }
  }

  /** A block sequence reached from a hash is unique. */
  lemma {:induction false} LinkedUnique(blocks: map<Hash, Block>, h: Hash, c1: seq<Block>, c2: seq<Block>)
    requires LinkedFrom(blocks, h, c1)
    requires LinkedFrom(blocks, h, c2)
    ensures c1 == c2
    decreases |c1|
  {
    if |c1[0].prevBlockHash| > 0 {
      LinkedUnique(blocks, c1[0].prevBlockHash, c1[1..], c2[1..]);
      assert c1 == [c1[0]] + c1[1..];
      assert c2 == [c2[0]] + c2[1..];
    }
  }

  /** The hashes a walk fetches, in order: `h`, then each block's PrevBlockHash
      up to the one stored with genesis. */
  ghost function Path(h: Hash, chain: seq<Block>): (p: seq<Hash>)
    requires |chain| > 0
    ensures |p| == |chain| && p[0] == h
    decreases |chain|
  {
    if |chain| == 1 then [h] else [h] + Path(chain[0].prevBlockHash, chain[1..])
  }

  /** Each suffix of a well-formed chain is the chain from the matching hash
      on the path. */
  lemma {:induction false} LinkedSuffix(blocks: map<Hash, Block>, h: Hash, chain: seq<Block>, i: nat)
    requires LinkedFrom(blocks, h, chain)
    requires i < |chain|
    ensures LinkedFrom(blocks, Path(h, chain)[i], chain[i..])
    decreases i
  {
    if i > 0 {
      LinkedSuffix(blocks, chain[0].prevBlockHash, chain[1..], i - 1);
      assert chain[1..][i - 1..] == chain[i..];
    }
  }

  /** A chain that reaches genesis visits each stored hash at most once: the
      walk cannot loop. */
  lemma ChainIsAcyclic(blocks: map<Hash, Block>, h: Hash, chain: seq<Block>)
    requires LinkedFrom(blocks, h, chain)
    ensures forall i, j :: 0 <= i < j < |chain| ==> Path(h, chain)[i] != Path(h, chain)[j]
  {
    var p := Path(h, chain);
    forall i, j | 0 <= i < j < |chain|
      ensures p[i] != p[j]
    {
      if p[i] == p[j] {
        LinkedSuffix(blocks, h, chain, i);
        LinkedSuffix(blocks, h, chain, j);
        LinkedUnique(blocks, p[i], chain[i..], chain[j..]);
        assert false;
      }
    }
  }

  /** Every hash on the path is a key of the store. */
  lemma {:induction false} PathInStore(blocks: map<Hash, Block>, h: Hash, chain: seq<Block>)
    requires LinkedFrom(blocks, h, chain)
    ensures forall i :: 0 <= i < |chain| ==> Path(h, chain)[i] in blocks
    decreases |chain|
  {
    if |chain| > 1 {
      PathInStore(blocks, chain[0].prevBlockHash, chain[1..]);
    }
  }

  /** A sequence without repetitions has as many distinct elements as entries. */
  lemma {:induction false} DistinctCardinality<T>(s: seq<T>)
    requires forall i, j :: 0 <= i < j < |s| ==> s[i] != s[j]
    ensures |set x | x in s| == |s|
  {
    if |s| > 0 {
      var init := s[..|s| - 1];
      DistinctCardinality(init);
      assert (set x | x in s) == (set x | x in init) + {s[|s| - 1]};
      assert s[|s| - 1] !in init;
    }
  }

  /** A well-formed chain is no longer than the store is large. */
  lemma ChainFitsStore(blocks: map<Hash, Block>, h: Hash, chain: seq<Block>)
    requires LinkedFrom(blocks, h, chain)
    ensures |chain| <= |blocks|
  {
    var p := Path(h, chain);
    ChainIsAcyclic(blocks, h, chain);
    PathInStore(blocks, h, chain);
    DistinctCardinality(p);
    var keys := set x | x in p;
    assert blocks.Keys == keys + (blocks.Keys - keys);
  }

  /** Iteration from the tip terminates exactly when the tip leads to
      genesis, and then yields each block of that chain once, newest first. */
  lemma BlocksIffLinked(bc: Blockchain, chain: seq<Block>)
    ensures Blocks(bc) == Success(chain) <==> LinkedFrom(bc.db.blocks, bc.tip, chain)
  {
    if LinkedFrom(bc.db.blocks, bc.tip, chain) {
      ChainFitsStore(bc.db.blocks, bc.tip, chain);
      WalkComplete(Iterator(bc), |bc.db.blocks|, chain);
    }
  }

  /** Adding a block under a fresh key leaves every existing chain intact. */
  lemma {:induction false} LinkedFromFresh(blocks: map<Hash, Block>, h: Hash, chain: seq<Block>, k: Hash, b: Block)
    requires LinkedFrom(blocks, h, chain)
    requires k !in blocks
    ensures LinkedFrom(blocks[k := b], h, chain)
    decreases |chain|
  {
    if |chain[0].prevBlockHash| > 0 {
      LinkedFromFresh(blocks, chain[0].prevBlockHash, chain[1..], k, b);
    }
  }
}
