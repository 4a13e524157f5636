# Ledger engine of a minimal UTXO blockchain, in Dafny

This project models the ledger engine of a small Go blockchain
(`blockchain.go`) and the two byte helpers it uses (`utils.go`), and proves
properties of the model with Dafny.

The bolt database becomes an immutable `Store`: a map from block hash to
block, plus the value of the reserved key `"l"`, which holds the tip's hash.
A `Blockchain` pairs that store with the in-memory `tip`. The code the engine
calls but does not define is bundled in one `Collaborators` value. That
covers `IsCoinbase`, ECDSA `Sign`/`Verify`, the proof-of-work that gives a
new block its hash, and `addressChecksumLen`. Most proofs hold for every
collaborator. Two lemmas about `MineBlock`, `MineBlockExtendsChain` and
`MinedBlockScannedFirst`, assume that the hash the proof-of-work gives the
new block is not already a key of the store. `IsLockedWithKey` is public-key-hash equality.

Modules, by source component:

- `Wrappers` (`wrappers.dfy`): `Option` and `Result`. In most operations a
  `log.Panic` and an `error` return both become a `Failure`. `MineBlock` is
  the exception: its abort at `log.Panic` becomes a `Mined` result that keeps
  the ledger unchanged and carries the error as `Some(e)`, and `Rejection` and
  `FirstInvalid` report that error as an `Option`.
- `Utils` (`utils.dfy`): `IntToHex` and `DecodeAddressToPubKeyHash`.
- `LedgerTypes` (`types.dfy`): blocks, transactions, inputs, outputs,
  `OutIndexAndData`, the error conditions and the collaborators.
- `Chain` (`chain.dfy`): the store, `Iterator`, `Next`, and `Walk`. `Walk`
  models the "call `Next` until the block with an empty `PrevBlockHash`" loop
  of `FindUTXOInTransactions`. `FindTransaction`'s loop, which returns early,
  is `Lookup.FindTransactionFrom`.
- `Resolver` (`resolver.dfy`): `FindUTXOInTransactions` as a fold over the
  chain's transactions. Blocks are visited tip first, and the transactions
  in a block in their listed order.
- `Views` (`views.dfy`): `FindUTXO` and `FindSpendableOutputs`. Go map
  iteration order is an explicit `order` argument that lists each key once.
- `Lookup` (`lookup.dfy`): `FindTransaction`, and the previous-transaction
  map that `SignTransaction` and `VerifyTransaction` build.
- `Controller` (`controller.dfy`): `MineBlock` and `CreateBlockchain`.

Two ordering details of the resolver are stated, not hidden:

- A transaction's outputs are checked before its own inputs are recorded as
  spent.
- The transactions inside a block are visited forwards.

So a spend by a later transaction of the same block does not remove an
output collected from an earlier one (`Resolver.LaterSpendDoesNotExclude`).
A spend visited earlier does remove it (`Resolver.EarlierSpendExcludes`). The
usual UTXO rule treats an output as spent once any input in the chain names
it. This code only excludes spends visited before the output, and the model
follows the code.

`VerifyTransaction` here does not skip coinbase transactions: it looks up every
input's transaction. On a chain that reaches genesis, any transaction with an
input that names no transaction on the chain makes verification abort with
not-found (`Lookup.UnresolvedInputAbortsVerification`). A coinbase whose
placeholder input names no transaction is one such case. The model follows
the code here too.

## Model

| member | source | states |
|---|---|---|
| Utils.IntToHex | utils.go:12-19 | the encoding is exactly 8 bytes, and reading them back big-endian as a two's-complement int64 gives the number |
| Utils.IntToHexInjective | utils.go:12-19 | distinct int64 values have distinct encodings |
| Utils.IntToHexOnto | utils.go:12-19 | every 8-byte string is the encoding of the int64 it denotes |
| Utils.IntToHexSign | utils.go:14 | the first byte holds the sign bit: the number is negative iff byte 0 is at least 128 |
| Utils.IntToHexSmall | utils.go:14 | a number in 0..255 encodes as seven zero bytes followed by the number |
| Utils.BigEndianHead | utils.go:14 | byte 0 is the most significant, weighing 256^(n-1), and the rest is read the same way |
| Utils.FromToBigEndian | utils.go:14 | an n-byte big-endian encoding of a number below 256^n decodes back to that number |
| Utils.ToFromBigEndian | utils.go:14 | re-encoding the number that a byte string denotes gives back the same bytes |
| Utils.DecodeAddressToPubKeyHash | utils.go:21-26 | defined iff the decoded address has at least 1 + checksumLen bytes; the hash then has length len - 1 - checksumLen, and the version byte, the hash and the checksum make up the address again |
| Chain.Next | blockchain.go:171-188 | the fetch fails with BlockNotFound iff the cursor's hash is not stored; on success it returns the stored block, moves the cursor to that block's PrevBlockHash and leaves the store alone |
| Chain.Walk | blockchain.go:198-233 | the loop that calls Next until the block with an empty PrevBlockHash yields a chain linked from its start hash that ends at that block, and stops only with BlockNotFound or EndlessChain otherwise |
| Chain.Blocks | blockchain.go:196-233 | iteration from the tip yields the chain linked from the tip to genesis, or fails with BlockNotFound or EndlessChain |
| Chain.WalkComplete | blockchain.go:196-233 | given enough steps, the loop yields exactly the linked chain from its start hash |
| Chain.LinkedUnique | blockchain.go:171-188 | following PrevBlockHash from a hash reaches only one block sequence |
| Chain.LinkedSuffix | blockchain.go:186 | each suffix of a chain is the chain linked from the matching hash on its path |
| Chain.ChainIsAcyclic | blockchain.go:198-233 | a chain that reaches genesis never fetches the same hash twice, so each block is visited exactly once |
| Chain.PathInStore | blockchain.go:177 | every hash the iteration fetches is a key of the store |
| Chain.ChainFitsStore | blockchain.go:198-233 | a chain that reaches genesis is no longer than the store has blocks |
| Chain.BlocksIffLinked | blockchain.go:196-233 | iterating from the tip ends, yielding a given block list, iff that list is the chain that links the tip to genesis |
| Chain.LinkedFromFresh | blockchain.go:146 | storing a block under a fresh hash leaves every existing chain intact |
| Resolver.Collect | blockchain.go:205-219 | an (index, output) pair is collected iff the index is in range, the output is there, it is locked with the key and the index is not listed as spent |
| Resolver.RecordSpends | blockchain.go:222-225 | after the input loop, an index is listed as spent for an id iff it was before or some input names that (id, index) |
| Resolver.ScanTx | blockchain.go:201-227 | a coinbase adds no spends and a non-coinbase adds exactly its inputs' references; outputs are checked against the spends recorded before this transaction's own inputs |
| Resolver.Scan | blockchain.go:193-233 | after the scan, the spent map lists exactly the references made by the inputs of the non-coinbase transactions visited, and no id maps to an empty list of unspent outputs |
| Resolver.ScanUnspent | blockchain.go:193-233 | a pair is in the result under id iff some transaction with that id has that output locked with the key and no transaction visited before it spends that index |
| Resolver.FindUTXOInTransactions | blockchain.go:190-235 | fails iff the address is too short or the chain cannot be walked to genesis; otherwise the result is the ScanUnspent characterisation over the chain's transactions |
| Resolver.LaterSpendDoesNotExclude | blockchain.go:201-226 | a spend made by a transaction visited after the one holding the output, such as a later transaction of the same block, leaves the output in the result |
| Resolver.SpentSetContains | blockchain.go:221-226 | the spends of every visited non-coinbase transaction stay in the spent set for the rest of the scan |
| Resolver.EarlierSpendExcludes | blockchain.go:206-216 | a spend visited before every transaction with that id keeps the spent index out of the result |
| Views.PairsPrefix | blockchain.go:258-259 | visiting keys in order only extends the sequence of pairs already visited |
| Views.PairsIgnoresOtherKeys | blockchain.go:242 | map entries that the iteration does not visit do not affect the visited pairs |
| Views.PairsMembers | blockchain.go:242-243 | the flattened iteration holds exactly the (id, pair) entries of the map |
| Views.AllOutputsRemove | blockchain.go:242-246 | the order-independent multiset of the map's outputs splits off any key's outputs |
| Views.OutputsOfTag | blockchain.go:243-244 | copying one key's pairs yields exactly that key's outputs |
| Views.EnumeratesInit | blockchain.go:242 | an iteration order without its last key lists each key of the rest of the map once |
| Views.OutputsAppend | blockchain.go:243-244 | the outputs copied from two runs of pairs are the outputs of each run together |
| Views.FlattenAnyOrder | blockchain.go:240-246 | in every iteration order, the flattened outputs are exactly the map's outputs, counted with multiplicity |
| Views.FindUTXO | blockchain.go:237-249 | fails iff the resolver fails; otherwise returns exactly the resolver's outputs, with multiplicity, whatever the map order, one output per unspent pair |
| Views.CutFrom | blockchain.go:257-266 | the search for the stopping point returns the first prefix length from m whose sum reaches the amount, or all pairs |
| Views.Cut | blockchain.go:257-266 | the selection is the shortest non-empty prefix whose value reaches the amount, or every pair if none does |
| Views.CutUnique | blockchain.go:257-266 | the conditions that the greedy loop establishes determine the stopping point |
| Views.TakeStep | blockchain.go:260-261 | taking one more pair adds its value to the total and its index to its id's selection |
| Views.KeySlice | blockchain.go:258-259 | the pairs of the i-th key sit, in order, right after those of the keys before it |
| Views.TakeKey | blockchain.go:259-265 | the inner loop keeps the total and the selection equal to the pairs taken so far, and stops at the first pair that reaches the amount; it reports how many pairs it has taken |
| Views.Accumulate | blockchain.go:256-268 | the total is the summed value of the selected pairs, and the selection groups their indices by id, where the selected pairs are the greedy prefix |
| Views.FindSpendableOutputs | blockchain.go:251-269 | fails iff the resolver fails; otherwise behaves as Accumulate over the resolver's map |
| Views.GroupMembers | blockchain.go:260 | an index is selected under an id iff a selected pair carries both |
| Views.SelectedAreUnspent | blockchain.go:252-269 | every selected (id, index) names an unspent pair of the resolver |
| Views.ShortfallSelectsAll | blockchain.go:257-268 | if the total falls short of the amount, every unspent pair was selected |
| Views.SomethingSelected | blockchain.go:259-264 | whenever an unspent output exists, something is selected, even for an amount of zero or less |
| Lookup.FindFirst | blockchain.go:277-281 | returns the first position whose transaction has the id, or none iff no position has it |
| Lookup.FirstMatchAppend | blockchain.go:274-286 | a match in the earlier blocks decides the lookup, and without one the later blocks do |
| Lookup.FindTransactionFrom | blockchain.go:274-288 | a transaction the lookup returns has the requested id |
| Lookup.FindTransaction | blockchain.go:271-289 | a transaction returned has the requested id |
| Lookup.FindFromOnChain | blockchain.go:274-288 | over a linked chain, the lookup loop equals the first match in tip-to-genesis, in-block order |
| Lookup.FindTransactionOnChain | blockchain.go:271-289 | on a chain that reaches genesis, returns the first transaction with the id in tip-to-genesis, in-block order, and not-found iff no transaction has it |
| Lookup.PrevTransactions | blockchain.go:292-300 | succeeds iff every input's lookup succeeds; its keys are then exactly the inputs' ids, each mapped to the looked-up transaction; on failure, the error is that of the first input whose lookup fails |
| Lookup.VerifyTransaction | blockchain.go:305-318 | aborts iff some input's lookup fails; otherwise the verdict is the signature check over the assembled map |
| Lookup.SignTransaction | blockchain.go:291-303 | aborts iff some input's lookup fails; otherwise signs over the assembled map |
| Lookup.UnresolvedInputAbortsVerification | blockchain.go:305-318 | on a chain that reaches genesis, an input naming no transaction on the chain makes verification abort with not-found |
| Controller.Rejection | blockchain.go:127-128 | a transaction is let through iff its verification succeeds with true; a failed lookup rejects it with the lookup's error, a false verdict with InvalidTransaction |
| Controller.FirstInvalid | blockchain.go:126-130 | reports nothing iff every transaction verifies; otherwise it reports the rejection of the first transaction that does not |
| Controller.MineBlock | blockchain.go:122-163 | aborts iff some transaction does not verify, with the rejection of the first such transaction, and then changes nothing; otherwise it stores the block built from the given transactions and the previous "l" value under that block's proof-of-work hash, and points "l" and the tip at that hash, leaving every other block unchanged |
| Controller.MineBlockExtendsChain | blockchain.go:142-159 | after a successful append onto a consistent ledger, tip and "l" agree, and the chain is the new block followed by the old chain |
| Controller.MinedBlockScannedFirst | blockchain.go:142-159 | after a successful append, the resolver visits the new block's transactions before those of the old chain |
| Controller.CreateBlockchain | blockchain.go:76-120 | fails iff the database exists; otherwise the store holds only the genesis block, keyed by its proof-of-work hash, "l" and the tip are that hash, and the chain is that one block |
| Controller.GenesisUnspent | blockchain.go:84-110 | right after creation, the owner's unspent outputs are exactly the coinbase outputs locked with their key |

`Iterator` (blockchain.go:165-169) appears as `Chain.Iterator`, a bare
constructor. The table has no row for it.

## Left out

- The bolt database: `Open`, `View`/`Update`, buckets and serialization. The
  store is a map, and the atomicity of bolt's write transactions is assumed.
- `NewBlockchain` and the `dbExists`/`os.Exit` file checks. Whether the
  database exists is a parameter of `CreateBlockchain`. A model `Blockchain`
  pairs any tip with any store. `NewBlockchain` would set the tip to the
  value under "l"; the chain lemmas take `tip == db.last` as a hypothesis
  instead.
- Proof-of-work, block construction and timestamps: the new block's hash
  comes from `Collaborators.blockHash`. `NewCoinbaseTX` is a given
  transaction.
- ECDSA signing and verification, and `IsCoinbase`: these are uninterpreted
  collaborator functions.
- Hex encoding of map keys: raw identifiers are the keys, because the
  encoding is injective.
- Base58 decoding: the decoded address is a given byte sequence.
  `addressChecksumLen` is a given natural number.
- The order in which Go iterates over a map: an `order` argument listing each
  key once, and every property holds for every such order.
- The zero `Transaction{}` that `FindTransaction` returns with its error: the
  model returns only the error.
- `SignTransaction` signs in place in Go; the model returns the signed
  transaction.
- Chain.Walk: a chain that loops never reaches genesis, and the Go loop then
  runs forever. The model stops after one more fetch than the store has
  blocks, `|blocks| + 1` in all, and reports EndlessChain. It is proved that iteration succeeds exactly on
  chains that reach genesis. It is not proved that EndlessChain occurs only
  on a cycle rather than on a missing block.
- Lookup.FindTransactionFrom: the loop in `FindTransaction`
  (blockchain.go:274-286) runs forever on a chain that loops when no block on
  the loop holds the id. The model then reports EndlessChain after
  `|blocks| + 1` fetches. When a fetched block holds the id, the model
  returns that transaction, as Go does (blockchain.go:278-279), on a looping
  chain too.
- Views.Accumulate: amounts are unbounded integers, so the 64-bit
  wrap-around of Go's `int` in `accumulated` is not modelled.
- Views.FindSpendableOutputs: the same unbounded `accumulated` as
  `Accumulate`.
- Controller.MineBlock: the model keeps "l" apart from the block keys and
  accepts any hash from `Collaborators.blockHash`. In Go both share one
  bucket: an empty hash makes bolt's `Put` fail and the code panic
  (blockchain.go:146-149), and a hash equal to "l" would have its block
  overwritten by the `Put` of "l" (blockchain.go:151). Block hashes are
  assumed non-empty and different from "l"; a proof-of-work hash is 32 bytes.
- Controller.CreateBlockchain: the same assumption about the genesis hash,
  for the `Put` calls at blockchain.go:98-101 and 103.
- Controller.MineBlockExtendsChain: it needs the new hash to be new to the
  store and the tip to be non-empty. Block hashes are unique and bolt
  refuses empty keys; neither is modelled.
- Controller.MinedBlockScannedFirst: it has the same two hypotheses, for the
  same reasons: the new block's hash is new to the store and the tip is
  non-empty. When a hash repeats, a stored block is overwritten and no
  promise about the chain after the append is made.
- Conservation of value across the chain: it depends on how transactions
  are built and on signature checking, which are both outside the engine.
