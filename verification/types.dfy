/** The records the ledger engine reads: blocks, transactions, their inputs
    and outputs, the resolver's (index, output) pairing, the ledger's error
    conditions, and the collaborators whose code lies outside the engine. */
module LedgerTypes {
  import opened Utils

  /** A block hash, used as the block's key in the blocks bucket. */
  type Hash = seq<byte>

  /** A transaction identifier. The Go code keys its maps by the hex
      encoding of the identifier; hex encoding is injective, so the raw
      bytes serve as the key here. */
  type TxId = seq<byte>

  /** Consumes output `vout` of transaction `txid`. */
  datatype TXInput = TXInput(txid: TxId, vout: int, signature: seq<byte>, pubKey: seq<byte>)

  /** An amount locked to a recipient's public-key hash. */
  datatype TXOutput = TXOutput(value: int, pubKeyHash: seq<byte>)

  datatype Transaction = Transaction(id: TxId, vin: seq<TXInput>, vout: seq<TXOutput>)

  /** The fields of a block the ledger engine reads. Timestamp and nonce
      only feed the block's hash, which is opaque here. */
  datatype Block = Block(transactions: seq<Transaction>, prevBlockHash: Hash, hash: Hash)

  /** OutIndexAndData: an output and its index within its transaction. The
      Go record points into the transaction; this one holds a copy. */
  datatype OutIndexAndData = OutIndexAndData(i: int, out: TXOutput)

  /** An output is locked with a key when it names that public-key hash. */
  predicate IsLockedWithKey(out: TXOutput, pubKeyHash: seq<byte>) {
    out.pubKeyHash == pubKeyHash
  }

  datatype LedgerError =
    | BlockNotFound(hash: Hash)   // the iterator fetched a hash the store lacks
    | EndlessChain                // the iterator revisits a block and never reaches genesis
    | TransactionNotFound         // FindTransaction exhausted the chain
    | InvalidTransaction          // MineBlock met a transaction that fails verification
    | MalformedAddress            // the decoded address is too short to slice
    | BlockchainExists            // CreateBlockchain over an existing database

  /** The code the engine calls but which is defined elsewhere: coinbase
      recognition, ECDSA signing and verification, the proof-of-work that
      yields a new block's hash, and the address checksum length. Each is
      uninterpreted: every property proved here holds whatever they are. */
  datatype Collaborators = Collaborators(
    isCoinbase: Transaction -> bool,
    verify: (Transaction, map<TxId, Transaction>) -> bool,
    sign: (Transaction, seq<byte>, map<TxId, Transaction>) -> Transaction,
    blockHash: (seq<Transaction>, Hash) -> Hash,
    checksumLen: nat)
}
