/** FindUTXOInTransactions: one backward scan of the whole chain that keeps,
    per transaction id, the output indices seen spent so far and the
    (index, output) pairs found unspent. */
module Resolver {
  import opened Wrappers
  import opened Utils
  import opened LedgerTypes
  import opened Chain

  /** All transactions in the order the scan visits them: blocks newest
      first, and within a block in the order the block lists them. */
  function Txs(chain: seq<Block>): (txs: seq<Transaction>)
    decreases |chain|
  {
    if |chain| == 0 then [] else chain[0].transactions + Txs(chain[1..])
  }

  /** The scan's two maps, `spentTXOs` and `unspentTXOs`. */
  datatype ScanState = ScanState(spent: map<TxId, seq<int>>, unspent: map<TxId, seq<OutIndexAndData>>)

  /** The output indices listed under `id` in a map from transaction id to
      indices, such as `spentTXOs` here or the selection `unspentOutputs` of
      FindSpendableOutputs; Go yields an empty list for a missing key. */
  function IndicesOf(m: map<TxId, seq<int>>, id: TxId): seq<int> {
    if id in m then m[id] else []
  }

  /** `unspentTXOs[id]`, empty for a missing key. */
  function FoundOf(unspent: map<TxId, seq<OutIndexAndData>>, id: TxId): seq<OutIndexAndData> {
    if id in unspent then unspent[id] else []
  }

  /** The (transaction, output index) pairs an input list consumes. */
  function Refs(vin: seq<TXInput>): set<(TxId, int)> {
    set k | 0 <= k < |vin| :: (vin[k].txid, vin[k].vout)
  }

  /** What a transaction spends as far as the scan is concerned: nothing
      for a coinbase, every input otherwise. */
  function SpendsOf(tx: Transaction, isCoinbase: Transaction -> bool): set<(TxId, int)> {
    if isCoinbase(tx) then {} else Refs(tx.vin)
  }

  /** The spends recorded by the given transactions: the reference
      definition of "spent earlier in the scan". */
  function SpentSet(txs: seq<Transaction>, isCoinbase: Transaction -> bool): set<(TxId, int)>
    decreases |txs|
  {
    if |txs| == 0 then {}
    else SpentSet(txs[..|txs| - 1], isCoinbase) + SpendsOf(txs[|txs| - 1], isCoinbase)
  }

  /** The `Outputs:` loop over indices 0 .. n-1 of one transaction: keep an
      output when it is locked with `pubKeyHash` and its index is not in
      `spent`, in ascending index order. */
  function Collect(vout: seq<TXOutput>, pubKeyHash: seq<byte>, spent: seq<int>, n: nat): (r: seq<OutIndexAndData>)
    requires n <= |vout|
    ensures forall p :: p in r <==>
      0 <= p.i < n && p.out == vout[p.i] && IsLockedWithKey(p.out, pubKeyHash) && p.i !in spent
  {
    if n == 0 then []
    else
      Collect(vout, pubKeyHash, spent, n - 1)
      + (if IsLockedWithKey(vout[n - 1], pubKeyHash) && n - 1 !in spent
         then [OutIndexAndData(n - 1, vout[n - 1])] else [])
  }

  /** The loop over a transaction's inputs: append each input's Vout to
      the spent list of the transaction it names, in input order. */
  function RecordSpends(spent: map<TxId, seq<int>>, vin: seq<TXInput>): (r: map<TxId, seq<int>>)
    ensures forall id, i :: i in IndicesOf(r, id) <==> i in IndicesOf(spent, id) || (id, i) in Refs(vin)
    decreases |vin|
  {
    if |vin| == 0 then spent
    else
      var input := vin[|vin| - 1];
      var before := RecordSpends(spent, vin[..|vin| - 1]);
      assert forall id, i :: (id, i) in Refs(vin) <==>
        (id, i) in Refs(vin[..|vin| - 1]) || (id, i) == (input.txid, input.vout) by {
        forall id, i | (id, i) in Refs(vin) ensures
          (id, i) in Refs(vin[..|vin| - 1]) || (id, i) == (input.txid, input.vout) {
          var k :| 0 <= k < |vin| && (vin[k].txid, vin[k].vout) == (id, i);
          if k < |vin| - 1 {
            assert vin[..|vin| - 1][k] == vin[k];
          }
        }
      }
      before[input.txid := IndicesOf(before, input.txid) + [input.vout]]
  }

  /** `p` is an output of `tx` locked with `pubKeyHash` whose index none of
      the transactions visited before `tx` spends. */
  predicate UnspentIn(before: seq<Transaction>, tx: Transaction, p: OutIndexAndData,
                      pubKeyHash: seq<byte>, isCoinbase: Transaction -> bool)
  {
    && 0 <= p.i < |tx.vout|
    && p.out == tx.vout[p.i]
    && IsLockedWithKey(p.out, pubKeyHash)
    && (tx.id, p.i) !in SpentSet(before, isCoinbase)
  }

  /** One iteration of the loop over a block's transactions: first collect
      this transaction's unspent outputs against the spends seen so far,
      then (unless it is a coinbase) record its own inputs as spent. */
  function ScanTx(st: ScanState, tx: Transaction, pubKeyHash: seq<byte>,
                  isCoinbase: Transaction -> bool): (r: ScanState)
    ensures forall id, i :: i in IndicesOf(r.spent, id) <==>
      i in IndicesOf(st.spent, id) || (id, i) in SpendsOf(tx, isCoinbase)
    ensures isCoinbase(tx) ==> r.spent == st.spent
    ensures forall id, p :: p in FoundOf(r.unspent, id) <==>
      p in FoundOf(st.unspent, id)
      || (id == tx.id && 0 <= p.i < |tx.vout| && p.out == tx.vout[p.i]
          && IsLockedWithKey(p.out, pubKeyHash) && p.i !in IndicesOf(st.spent, tx.id))
    ensures forall id :: id in r.unspent && id !in st.unspent ==> |r.unspent[id]| > 0
  {
    var found := Collect(tx.vout, pubKeyHash, IndicesOf(st.spent, tx.id), |tx.vout|);
    var unspent :=
      if |found| == 0 then st.unspent
      else st.unspent[tx.id := FoundOf(st.unspent, tx.id) + found];
    var spent := if isCoinbase(tx) then st.spent else RecordSpends(st.spent, tx.vin);
    ScanState(spent, unspent)
  }

  /** The scan over a sequence of transactions, in order. Afterwards the
      spent map records exactly the spends of the non-coinbase transactions
      scanned, and no transaction id is recorded with an empty list. */
  function Scan(txs: seq<Transaction>, pubKeyHash: seq<byte>, isCoinbase: Transaction -> bool): (r: ScanState)
    ensures forall id, i {:trigger i in IndicesOf(r.spent, id)} :: i in IndicesOf(r.spent, id) <==> (id, i) in SpentSet(txs, isCoinbase)
    ensures forall id :: id in r.unspent ==> |r.unspent[id]| > 0
    decreases |txs|
  {
    if |txs| == 0 then ScanState(map[], map[])
    else ScanTx(Scan(txs[..|txs| - 1], pubKeyHash, isCoinbase), txs[|txs| - 1], pubKeyHash, isCoinbase)
  }

  /** The resolver's central property: a pair is recorded under `id` exactly
      when some transaction with that id has that output, locked with the
      key, and no transaction visited before it spends that index. */
  lemma {:induction false} ScanUnspent(txs: seq<Transaction>, pubKeyHash: seq<byte>, isCoinbase: Transaction -> bool)
    ensures forall id, p :: p in FoundOf(Scan(txs, pubKeyHash, isCoinbase).unspent, id) <==>
      exists j :: 0 <= j < |txs| && txs[j].id == id && UnspentIn(txs[..j], txs[j], p, pubKeyHash, isCoinbase)
    decreases |txs|
  {
    if |txs| > 0 {
      var n := |txs|;
      var init := txs[..n - 1];
      var tx := txs[n - 1];
      var st := Scan(init, pubKeyHash, isCoinbase);
      var r := Scan(txs, pubKeyHash, isCoinbase);
      ScanUnspent(init, pubKeyHash, isCoinbase);
      assert txs[..n - 1] == init;
      forall id, p
        ensures p in FoundOf(r.unspent, id) <==>
          exists j :: 0 <= j < n && txs[j].id == id && UnspentIn(txs[..j], txs[j], p, pubKeyHash, isCoinbase)
      {
        if p in FoundOf(r.unspent, id) {
          if p in FoundOf(st.unspent, id) {
            var j :| 0 <= j < n - 1 && init[j].id == id && UnspentIn(init[..j], init[j], p, pubKeyHash, isCoinbase);
            assert init[..j] == txs[..j];
          } else {
            assert UnspentIn(txs[..n - 1], txs[n - 1], p, pubKeyHash, isCoinbase);
          }
        }
        if exists j :: 0 <= j < n && txs[j].id == id && UnspentIn(txs[..j], txs[j], p, pubKeyHash, isCoinbase) {
          var j :| 0 <= j < n && txs[j].id == id && UnspentIn(txs[..j], txs[j], p, pubKeyHash, isCoinbase);
          if j < n - 1 {
            assert init[..j] == txs[..j] && init[j] == txs[j];
          }
        }
      }
    }
  }

  /** FindUTXOInTransactions: decode the address, scan the chain from the
      tip, and return the unspent pairs per transaction id. It fails when
      the address is too short or the chain cannot be walked to genesis;
      otherwise its map holds exactly the outputs characterised by
      `ScanUnspent` over the chain's transactions, and no empty lists. */
  function FindUTXOInTransactions(bc: Blockchain, address: seq<byte>, c: Collaborators)
    : (r: Result<map<TxId, seq<OutIndexAndData>>, LedgerError>)
    ensures r.Success? <==>
      DecodeAddressToPubKeyHash(address, c.checksumLen).Some? && Blocks(bc).Success?
    ensures r.Success? ==>
      var pubKeyHash := DecodeAddressToPubKeyHash(address, c.checksumLen).value;
      var txs := Txs(Blocks(bc).value);
      && (forall id, p :: p in FoundOf(r.value, id) <==>
            exists j :: 0 <= j < |txs| && txs[j].id == id && UnspentIn(txs[..j], txs[j], p, pubKeyHash, c.isCoinbase))
      && (forall id :: id in r.value ==> |r.value[id]| > 0)
  {
    match DecodeAddressToPubKeyHash(address, c.checksumLen)
    case None => Failure(MalformedAddress)
    case Some(pubKeyHash) =>
      match Blocks(bc)
      case Failure(e) => Failure(e)
      case Success(chain) =>
        ScanUnspent(Txs(chain), pubKeyHash, c.isCoinbase);
        Success(Scan(Txs(chain), pubKeyHash, c.isCoinbase).unspent)
  }

  /** Ordering within a block: a spend made by a transaction visited AFTER
      the one holding the output (a later transaction of the same block)
      does not exclude that output from the result. */
  lemma {:induction false} LaterSpendDoesNotExclude(txs: seq<Transaction>, pubKeyHash: seq<byte>, isCoinbase: Transaction -> bool,
                                 j: nat, k: nat, idx: nat)
    requires j < k < |txs|
    requires idx < |txs[j].vout| && IsLockedWithKey(txs[j].vout[idx], pubKeyHash)
    requires (txs[j].id, idx) in SpendsOf(txs[k], isCoinbase)
    requires (txs[j].id, idx) !in SpentSet(txs[..j], isCoinbase)
    ensures OutIndexAndData(idx, txs[j].vout[idx]) in FoundOf(Scan(txs, pubKeyHash, isCoinbase).unspent, txs[j].id)
  {
    ScanUnspent(txs, pubKeyHash, isCoinbase);
    assert UnspentIn(txs[..j], txs[j], OutIndexAndData(idx, txs[j].vout[idx]), pubKeyHash, isCoinbase);
  }

  /** Every spend visited earlier adds to SpentSet. */
  lemma {:induction false} SpentSetContains(txs: seq<Transaction>, isCoinbase: Transaction -> bool, k: nat)
    requires k < |txs|
    ensures SpendsOf(txs[k], isCoinbase) <= SpentSet(txs, isCoinbase)
    decreases |txs|
  {
    if k < |txs| - 1 {
      SpentSetContains(txs[..|txs| - 1], isCoinbase, k);
    }
  }

  /** A spend by a non-coinbase transaction visited before every transaction
      carrying the output id removes the output from the result. */
  lemma {:induction false} EarlierSpendExcludes(txs: seq<Transaction>, pubKeyHash: seq<byte>, isCoinbase: Transaction -> bool,
                             k: nat, id: TxId, idx: int)
    requires k < |txs|
    requires (id, idx) in SpendsOf(txs[k], isCoinbase)
    requires forall j :: 0 <= j <= k ==> txs[j].id != id
    ensures forall p :: p in FoundOf(Scan(txs, pubKeyHash, isCoinbase).unspent, id) ==> p.i != idx
  {
    ScanUnspent(txs, pubKeyHash, isCoinbase);
    forall p | p in FoundOf(Scan(txs, pubKeyHash, isCoinbase).unspent, id)
      ensures p.i != idx
    {
      var j :| 0 <= j < |txs| && txs[j].id == id && UnspentIn(txs[..j], txs[j], p, pubKeyHash, isCoinbase);
      assert j > k;
      SpentSetContains(txs[..j], isCoinbase, k);
    }
  }
}
