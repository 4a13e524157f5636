/** The Blockchain controller's state changes: CreateBlockchain and
    MineBlock, over the abstract blocks bucket. */
module Controller {
  import opened Wrappers
  import opened Utils
  import opened LedgerTypes
  import opened Chain
  import opened Resolver
  import opened Lookup

  /** NewBlock as far as the engine relies on it: the block holds the given
      transactions and predecessor, and proof-of-work yields its hash. */
  function NewBlock(txs: seq<Transaction>, prevHash: Hash, c: Collaborators): Block {
    Block(txs, prevHash, c.blockHash(txs, prevHash))
  }

  /** How a transaction fails MineBlock's check, if it does: a failed
      lookup aborts with its own error, a false verdict with
      InvalidTransaction. */
  function Rejection(bc: Blockchain, tx: Transaction, c: Collaborators): (r: Option<LedgerError>)
    ensures r.None? <==> VerifyTransaction(bc, tx, c) == Success(true)
    ensures VerifyTransaction(bc, tx, c).Failure? ==> r == Some(VerifyTransaction(bc, tx, c).error)
    ensures VerifyTransaction(bc, tx, c) == Success(false) ==> r == Some(InvalidTransaction)
  {
    match VerifyTransaction(bc, tx, c)
    case Failure(e) => Some(e)
    case Success(ok) => if ok then None else Some(InvalidTransaction)
  }

  /** MineBlock's verification loop: the first transaction, in order, that
      does not verify decides the abort. */
  function FirstInvalid(bc: Blockchain, txs: seq<Transaction>, c: Collaborators): (r: Option<LedgerError>)
    ensures r.None? <==> forall k :: 0 <= k < |txs| ==> VerifyTransaction(bc, txs[k], c) == Success(true)
    ensures r.Some? ==>
      exists k :: 0 <= k < |txs| && Rejection(bc, txs[k], c) == r
        && (forall j :: 0 <= j < k ==> VerifyTransaction(bc, txs[j], c) == Success(true))
    decreases |txs|
  {
    if |txs| == 0 then None
    else
      match Rejection(bc, txs[0], c)
      case Some(e) => Some(e)
      case None =>
        var r := FirstInvalid(bc, txs[1..], c);
        assert forall k :: 0 < k < |txs| ==> txs[1..][k - 1] == txs[k];
        r
  }

  /** The store after a MineBlock call, and the abort reason if it aborted. */
  datatype Mined = Mined(after: Blockchain, error: Option<LedgerError>)

  /** MineBlock: verify every transaction; if one fails, abort with nothing
      written. Otherwise build a block on the hash stored under "l", store
      it under its hash, point "l" and the tip at it. */
  function MineBlock(bc: Blockchain, txs: seq<Transaction>, c: Collaborators): (r: Mined)
    ensures r.error.Some? <==> exists k :: 0 <= k < |txs| && VerifyTransaction(bc, txs[k], c) != Success(true)
    ensures r.error.Some? ==> r.after == bc
    ensures r.error.Some? ==>
      exists k :: 0 <= k < |txs| && Rejection(bc, txs[k], c) == r.error
        && (forall j :: 0 <= j < k ==> VerifyTransaction(bc, txs[j], c) == Success(true))
    ensures r.error.None? ==>
      var h := r.after.tip;
      && h == c.blockHash(txs, bc.db.last)
      && r.after.db.last == h
      && h in r.after.db.blocks
      && r.after.db.blocks[h].transactions == txs
      && r.after.db.blocks[h].prevBlockHash == bc.db.last
      && r.after.db.blocks[h] == NewBlock(txs, bc.db.last, c)
      && r.after.db.blocks.Keys == bc.db.blocks.Keys + {h}
      && (forall k :: k in bc.db.blocks && k != h ==> r.after.db.blocks[k] == bc.db.blocks[k])
  {
    match FirstInvalid(bc, txs, c)
    case Some(e) => Mined(bc, Some(e))
    case None =>
      var lastHash := bc.db.last;
      var newBlock := NewBlock(txs, lastHash, c);
      var db := Store(bc.db.blocks[newBlock.hash := newBlock], newBlock.hash);
      Mined(Blockchain(newBlock.hash, db), None)
  }

  /** A successful append on a ledger whose tip agrees with "l" keeps them
      in agreement and puts the new block in front of the old chain, when
      its hash is new to the store and stored keys are non-empty (bolt
      refuses empty keys). */
  lemma MineBlockExtendsChain(bc: Blockchain, txs: seq<Transaction>, c: Collaborators, chain: seq<Block>)
    requires bc.tip == bc.db.last
    requires |bc.tip| > 0
    requires LinkedFrom(bc.db.blocks, bc.tip, chain)
    requires MineBlock(bc, txs, c).error.None?
    requires c.blockHash(txs, bc.db.last) !in bc.db.blocks
    ensures MineBlock(bc, txs, c).after.tip == MineBlock(bc, txs, c).after.db.last
    ensures Blocks(MineBlock(bc, txs, c).after) == Success([NewBlock(txs, bc.db.last, c)] + chain)
  {
    var after := MineBlock(bc, txs, c).after;
    var b := NewBlock(txs, bc.db.last, c);
    LinkedFromFresh(bc.db.blocks, bc.tip, chain, b.hash, b);
    var extended := [b] + chain;
    assert extended[1..] == chain;
    assert LinkedFrom(after.db.blocks, after.tip, extended);
    BlocksIffLinked(after, extended);
  }

  /** CreateBlockchain: refuse when the database already exists; otherwise
      store a genesis block holding only the coinbase transaction and point
      "l" and the tip at it. The coinbase transaction is built outside. */
  function CreateBlockchain(dbExists: bool, coinbase: Transaction, c: Collaborators): (r: Result<Blockchain, LedgerError>)
    ensures r.Success? <==> !dbExists
    ensures r.Failure? ==> r.error == BlockchainExists
    ensures r.Success? ==>
      && r.value.tip == c.blockHash([coinbase], [])
      && r.value.tip == r.value.db.last
      && r.value.db.blocks == map[r.value.tip := NewBlock([coinbase], [], c)]
      && |r.value.db.blocks| == 1
      && Blocks(r.value) == Success([NewBlock([coinbase], [], c)])
  {
    if dbExists then Failure(BlockchainExists)
    else
      var genesis := NewBlock([coinbase], [], c);
      var bc := Blockchain(genesis.hash, Store(map[genesis.hash := genesis], genesis.hash));
      BlocksIffLinked(bc, [genesis]);
      Success(bc)
  }

  /** Right after creation, the owner's unspent outputs are exactly the
      coinbase outputs locked with their key: nothing is spent yet. */
  lemma GenesisUnspent(coinbase: Transaction, c: Collaborators, address: seq<byte>, pubKeyHash: seq<byte>)
    requires DecodeAddressToPubKeyHash(address, c.checksumLen) == Some(pubKeyHash)
    ensures var r := FindUTXOInTransactions(CreateBlockchain(false, coinbase, c).value, address, c);
      && r.Success?
      && forall id, p :: p in FoundOf(r.value, id) <==>
           id == coinbase.id && 0 <= p.i < |coinbase.vout| && p.out == coinbase.vout[p.i]
           && IsLockedWithKey(p.out, pubKeyHash)
  {
    var genesis := NewBlock([coinbase], [], c);
    var txs := Txs([genesis]);
    assert [genesis][1..] == [];
    assert Txs([genesis][1..]) == [];
    assert txs == [coinbase];
    assert txs[..0] == [];
  }

  /** After a successful append, the resolver visits the new block's
      transactions first, then those of the old chain. */
  lemma MinedBlockScannedFirst(bc: Blockchain, txs: seq<Transaction>, c: Collaborators, chain: seq<Block>)
    requires bc.tip == bc.db.last
    requires |bc.tip| > 0
    requires LinkedFrom(bc.db.blocks, bc.tip, chain)
    requires MineBlock(bc, txs, c).error.None?
    requires c.blockHash(txs, bc.db.last) !in bc.db.blocks
    ensures Blocks(MineBlock(bc, txs, c).after).Success?
    ensures Txs(Blocks(MineBlock(bc, txs, c).after).value) == txs + Txs(chain)
  {
    MineBlockExtendsChain(bc, txs, c, chain);
    var extended := [NewBlock(txs, bc.db.last, c)] + chain;
    assert extended[1..] == chain;
  }
}
