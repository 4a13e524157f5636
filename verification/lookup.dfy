/** FindTransaction and the previous-transaction maps that SignTransaction
    and VerifyTransaction hand to the signature code. */
module Lookup {
  import opened Wrappers
  import opened Utils
  import opened LedgerTypes
  import opened Chain
  import opened Resolver

  /** The position of the first transaction with identifier `id`. */
  function FindFirst(txs: seq<Transaction>, id: TxId): (r: Option<nat>)
    ensures r.Some? ==> r.value < |txs| && txs[r.value].id == id
    ensures r.Some? ==> forall j :: 0 <= j < r.value ==> txs[j].id != id
    ensures r.None? <==> forall j :: 0 <= j < |txs| ==> txs[j].id != id
    decreases |txs|
  {
    if |txs| == 0 then None
    else if txs[0].id == id then Some(0)
    else
      match FindFirst(txs[1..], id)
      case None => None
      case Some(k) => Some(k + 1)
  }

  /** The reference answer for a lookup over a sequence of transactions:
      the first match, or not-found. */
  function FirstMatch(txs: seq<Transaction>, id: TxId): Result<Transaction, LedgerError> {
    match FindFirst(txs, id)
    case Some(k) => Success(txs[k])
    case None => Failure(TransactionNotFound)
  }

  /** The position of a match with no earlier match is what FindFirst finds. */
  lemma FindFirstIs(txs: seq<Transaction>, id: TxId, k: nat)
    requires k < |txs| && txs[k].id == id
    requires forall j :: 0 <= j < k ==> txs[j].id != id
    ensures FindFirst(txs, id) == Some(k)
  {
  }

  /** A match in the front part decides the lookup over the whole. */
  lemma FirstMatchAppend(a: seq<Transaction>, b: seq<Transaction>, id: TxId)
    ensures FindFirst(a, id).Some? ==> FirstMatch(a + b, id) == Success(a[FindFirst(a, id).value])
    ensures FindFirst(a, id).None? ==> FirstMatch(a + b, id) == FirstMatch(b, id)
  {
    var ab := a + b;
    match FindFirst(a, id)
    case Some(k) =>
      assert ab[k] == a[k];
      assert forall j :: 0 <= j < k ==> ab[j] == a[j];
      FindFirstIs(ab, id, k);
    case None =>
      match FindFirst(b, id)
      case Some(k) =>
        assert ab[|a| + k] == b[k];
        forall j | 0 <= j < |a| + k ensures ab[j].id != id {
          if j < |a| { assert ab[j] == a[j]; } else { assert ab[j] == b[j - |a|]; }
        }
        FindFirstIs(ab, id, |a| + k);
      case None =>
        forall j | 0 <= j < |ab| ensures ab[j].id != id {
          if j < |a| { assert ab[j] == a[j]; } else { assert ab[j] == b[j - |a|]; }
        }
  }

  /** FindTransaction's loop from an iterator: scan each fetched block in
      order and return on the first match; after the genesis block, report
      not-found. `budget` plays the role it plays in `Walk`. */
  function FindTransactionFrom(it: BlockchainIterator, id: TxId, budget: nat): (r: Result<Transaction, LedgerError>)
    ensures r.Success? ==> r.value.id == id
    decreases budget
  {
    match Next(it)
    case Failure(e) => Failure(e)
    case Success((block, rest)) =>
      match FindFirst(block.transactions, id)
      case Some(k) => Success(block.transactions[k])
      case None =>
        if |block.prevBlockHash| == 0 then Failure(TransactionNotFound)
        else if budget == 0 then Failure(EndlessChain)
        else FindTransactionFrom(rest, id, budget - 1)
  }

  /** FindTransaction(ID): look the identifier up from the tip. */
  function FindTransaction(bc: Blockchain, id: TxId): (r: Result<Transaction, LedgerError>)
    ensures r.Success? ==> r.value.id == id
  {
    FindTransactionFrom(Iterator(bc), id, |bc.db.blocks|)
  }

  lemma {:induction false} FindFromOnChain(it: BlockchainIterator, id: TxId, budget: nat, chain: seq<Block>)
    requires LinkedFrom(it.db.blocks, it.currentHash, chain)
    requires |chain| <= budget + 1
    ensures FindTransactionFrom(it, id, budget) == FirstMatch(Txs(chain), id)
    decreases budget
  {
    var (block, rest) := Next(it).value;
    FirstMatchAppend(block.transactions, Txs(chain[1..]), id);
    if FindFirst(block.transactions, id).None? {
      if |block.prevBlockHash| == 0 {
        assert chain[1..] == [];
        assert block.transactions + [] == block.transactions;
      } else {
        FindFromOnChain(rest, id, budget - 1, chain[1..]);
      }
    }
  }

  /** On a chain that reaches genesis, FindTransaction returns the first
      transaction with the identifier in tip-to-genesis, in-block order, and
      reports not-found exactly when no transaction on the chain has it. */
  lemma FindTransactionOnChain(bc: Blockchain, id: TxId, chain: seq<Block>)
    requires LinkedFrom(bc.db.blocks, bc.tip, chain)
    ensures FindTransaction(bc, id) == FirstMatch(Txs(chain), id)
    ensures FindTransaction(bc, id) == Failure(TransactionNotFound) <==>
      forall j :: 0 <= j < |Txs(chain)| ==> Txs(chain)[j].id != id
  {
    ChainFitsStore(bc.db.blocks, bc.tip, chain);
    FindFromOnChain(Iterator(bc), id, |bc.db.blocks|, chain);
  }

  /** The identifiers an input list names. */
  function InputIds(vin: seq<TXInput>): set<TxId> {
    set k | 0 <= k < |vin| :: vin[k].txid
  }

  /** A failing lookup with no earlier failure stays the first failure
      when more inputs follow. */
  lemma FirstFailureExtends(bc: Blockchain, init: seq<TXInput>, vin: seq<TXInput>, e: LedgerError)
    requires |init| < |vin| && init == vin[..|init|]
    requires exists k :: (0 <= k < |init| && FindTransaction(bc, init[k].txid) == Failure(e)
      && (forall j :: 0 <= j < k ==> FindTransaction(bc, init[j].txid).Success?))
    ensures exists k :: (0 <= k < |vin| && FindTransaction(bc, vin[k].txid) == Failure(e)
      && (forall j :: 0 <= j < k ==> FindTransaction(bc, vin[j].txid).Success?))
  {
    var k :| 0 <= k < |init| && FindTransaction(bc, init[k].txid) == Failure(e)
      && (forall j :: 0 <= j < k ==> FindTransaction(bc, init[j].txid).Success?);
    assert init[k] == vin[k];
    assert forall j :: 0 <= j < k ==> init[j] == vin[j];
  }

  /** When every input but the last resolves, the last one's failure is the
      first failure. */
  lemma FirstFailureAtEnd(bc: Blockchain, init: seq<TXInput>, vin: seq<TXInput>, e: LedgerError)
    requires |vin| > 0 && init == vin[..|vin| - 1]
    requires forall k :: 0 <= k < |init| ==> FindTransaction(bc, init[k].txid).Success?
    requires FindTransaction(bc, vin[|vin| - 1].txid) == Failure(e)
    ensures exists k :: (0 <= k < |vin| && FindTransaction(bc, vin[k].txid) == Failure(e)
      && (forall j :: 0 <= j < k ==> FindTransaction(bc, vin[j].txid).Success?))
  {
    assert forall j :: 0 <= j < |init| ==> init[j] == vin[j];
  }

  /** When every input but the last resolves and so does the last, every
      input resolves. */
  lemma AllResolvedExtends(bc: Blockchain, init: seq<TXInput>, vin: seq<TXInput>)
    requires |vin| > 0 && init == vin[..|vin| - 1]
    requires forall k :: 0 <= k < |init| ==> FindTransaction(bc, init[k].txid).Success?
    requires FindTransaction(bc, vin[|vin| - 1].txid).Success?
    ensures forall k :: 0 <= k < |vin| ==> FindTransaction(bc, vin[k].txid).Success?
  {
    assert forall j :: 0 <= j < |init| ==> init[j] == vin[j];
  }

  /** The `prevTXs` map of SignTransaction and VerifyTransaction: for each
      input in order, look its transaction up (a failed lookup panics) and
      store it under its identifier. */
  function PrevTransactions(bc: Blockchain, vin: seq<TXInput>): (r: Result<map<TxId, Transaction>, LedgerError>)
    ensures r.Success? <==> forall k :: 0 <= k < |vin| ==> FindTransaction(bc, vin[k].txid).Success?
    ensures r.Success? ==> r.value.Keys == InputIds(vin)
    ensures r.Success? ==> forall id :: id in r.value ==> FindTransaction(bc, id) == Success(r.value[id])
    ensures r.Failure? ==>
      exists k :: 0 <= k < |vin| && FindTransaction(bc, vin[k].txid) == Failure(r.error)
        && (forall j :: 0 <= j < k ==> FindTransaction(bc, vin[j].txid).Success?)
    decreases |vin|
  {
    if |vin| == 0 then Success(map[])
    else
      var init := vin[..|vin| - 1];
      var input := vin[|vin| - 1];
      match PrevTransactions(bc, init)
      case Failure(e) =>
        FirstFailureExtends(bc, init, vin, e);
        Failure(e)
      case Success(prev) =>
        match FindTransaction(bc, input.txid)
        case Failure(e) =>
          FirstFailureAtEnd(bc, init, vin, e);
          Failure(e)
        case Success(tx) =>
          AllResolvedExtends(bc, init, vin);
          assert InputIds(vin) == InputIds(init) + {input.txid};
          Success(prev[tx.id := tx])
  }

  /** VerifyTransaction: assemble the previous transactions and let the
      signature code judge. A failed lookup aborts rather than yielding
      false. */
  function VerifyTransaction(bc: Blockchain, tx: Transaction, c: Collaborators): (r: Result<bool, LedgerError>)
    ensures r.Success? <==> forall k :: 0 <= k < |tx.vin| ==> FindTransaction(bc, tx.vin[k].txid).Success?
    ensures r.Success? ==> r.value == c.verify(tx, PrevTransactions(bc, tx.vin).value)
  {
    match PrevTransactions(bc, tx.vin)
    case Failure(e) => Failure(e)
    case Success(prev) => Success(c.verify(tx, prev))
  }

  /** SignTransaction: assemble the previous transactions and let the
      signature code sign; the signed transaction is returned rather than
      updated in place. */
  function SignTransaction(bc: Blockchain, tx: Transaction, privKey: seq<byte>, c: Collaborators)
    : (r: Result<Transaction, LedgerError>)
    ensures r.Success? <==> forall k :: 0 <= k < |tx.vin| ==> FindTransaction(bc, tx.vin[k].txid).Success?
    ensures r.Success? ==> r.value == c.sign(tx, privKey, PrevTransactions(bc, tx.vin).value)
  {
    match PrevTransactions(bc, tx.vin)
    case Failure(e) => Failure(e)
    case Success(prev) => Success(c.sign(tx, privKey, prev))
  }

  /** On a chain that reaches genesis, verification of a transaction with
      an input naming no transaction on the chain aborts with not-found. This
      includes a coinbase transaction whose placeholder input names no
      transaction: VerifyTransaction does not exempt coinbases. */
  lemma UnresolvedInputAbortsVerification(bc: Blockchain, chain: seq<Block>, tx: Transaction, c: Collaborators, k: nat)
    requires LinkedFrom(bc.db.blocks, bc.tip, chain)
    requires k < |tx.vin|
    requires forall j :: 0 <= j < |Txs(chain)| ==> Txs(chain)[j].id != tx.vin[k].txid
    ensures VerifyTransaction(bc, tx, c) == Failure(TransactionNotFound)
  {
    FindTransactionOnChain(bc, tx.vin[k].txid, chain);
    var r := PrevTransactions(bc, tx.vin);
    var k' :| 0 <= k' < |tx.vin| && FindTransaction(bc, tx.vin[k'].txid) == Failure(r.error);
    FindTransactionOnChain(bc, tx.vin[k'].txid, chain);
  }
}
