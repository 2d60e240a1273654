# Account ledger of a toy proof-of-work blockchain, in Dafny

This project models the ledger core of a small Python blockchain. In that
ledger every public key starts with 100 coins. A transaction moves `amount`
from a sender to a receiver and pays `fee` to the miner. A block carries a
list of transactions and is linked to its predecessor by hash. A block is
accepted when its SHA-256 hash starts with four `'0'` characters and
recomputes correctly. Nodes pool pending transactions in a mempool, mine
blocks from the highest-fee ones, and adopt the longest valid chain they
hear of, re-injecting transactions that only the abandoned chain held.

The model follows the source files. `Node.py` is split in two modules: its list logic and its `Node` class. Three support modules, in two files, stand in for Python's `None`, exceptions and dictionaries:

| file | module | models |
|---|---|---|
| `wrappers.dfy` | `Wrappers` | `Option` (Python's `None`) and `Result` (a raised exception) |
| `json.dfy` | `Json`, `JsonFields` | the dictionaries that `to_dict`/`from_dict` exchange, and reading their fields |
| `transaction.dfy` | `Transactions` | `Transaction.py` |
| `block.dfy` | `Blocks` | `Block.py` |
| `blockchain.dfy` | `Chain` | `Blockchain.py`; the `Blockchain` class holds the chain in place |
| `mempool.dfy` | `MempoolRules` | the list logic of `Node.py`: membership by id, removal, fee ordering, and the id maps built from a chain |
| `node.dfy` | `Nodes` | `Node.py`; the `Node` class holds the mempool and peers in place |

The model treats the following as parameters:

- SHA-256 over sorted-key JSON is a function `Hasher = Value -> string`, fixed per `Blockchain`.
- ECDSA signing and verification are functions `Signer` and `Verifier`, fixed per `Node`.
- `uuid4()` and `time.time()` values are arguments: `freshId`, `now`, `ids`, `rewardId`, `txTime` and `blockTime`.

A dictionary whose field has the wrong type decodes to an error. Python
would store the value and fail later.

## Model

| member | source | states |
|---|---|---|
| Transactions.NewTransaction | Transaction.py:10-17 | every field is as given, except that a falsy id (None or "") becomes the fresh uuid and a falsy timestamp (None or 0) becomes the current time |
| Transactions.ToDict | Transaction.py:19-28 | the dictionary form has exactly the seven field keys, with the transaction's id and signature (None as null) under `tx_id` and `signature` |
| Transactions.SigningData | Transaction.py:30-40 | what is signed is the dictionary form without its `signature` entry |
| Transactions.FromDict | Transaction.py:42-52 | decoding needs a dictionary with `sender_pubkey`, `receiver_pubkey`, `amount` and `tx_id`; a missing key is an error; a missing fee reads as 0, a missing signature as None and a missing timestamp as the current time |
| Transactions.FromDictOfToDict | Transaction.py:10-28 | decoding a transaction's dictionary gives back the transaction, with an empty id replaced by the fresh uuid and a zero timestamp by the current time |
| Transactions.RoundTripExactly | Transaction.py:10-28 | the dictionary round trip is exact if and only if the id is non-empty and the timestamp non-zero (or the regenerated value happens to equal them) |
| Transactions.ToDictInjective | Transaction.py:19-28 | the dictionary form loses no field: equal dictionaries mean equal transactions |
| Transactions.SigningDataIgnoresSignature | Transaction.py:30-40 | setting or changing the signature leaves the signed data unchanged |
| Transactions.SigningDataCoversAllButSignature | Transaction.py:30-40 | equal signing data means equal transactions in every field except the signature |
| Transactions.Eq | Transaction.py:54-60 | transactions that `__eq__` calls equal have the same `__hash__`, whatever the string hash |
| Transactions.EqAgreesWithHash | Transaction.py:54-60 | equality is by `tx_id` alone, whatever the other fields; it is reflexive and symmetric; equal transactions hash alike |
| Transactions.RewardTransaction | Transaction.py:65-75 | the reward has sender "COINBASE", the miner as receiver, amount reward plus fees, fee 0 and signature "COINBASE" |
| Blocks.NewBlock | Block.py:7-13 | a missing timestamp (`is None`, so 0 is kept) becomes the current time; without `hash_val`, the stored hash is the block's generated hash |
| Blocks.HashInput | Block.py:15-24 | the hashed dictionary has exactly the keys index, timestamp, transactions, prev_hash and nonce; the stored hash is not among them |
| Blocks.ToDict | Block.py:28-37 | the dictionary form is the hashed dictionary plus the stored hash under `hash` |
| Blocks.GenerateHashIgnoresStoredHash | Block.py:15-26 | the generated hash does not depend on the stored hash field |
| Blocks.SignatureChangesHashInput | Block.py:15-26 | a transaction's signature is part of what is hashed: changing it changes the hashed value |
| Blocks.DecodeEntry | Block.py:41-42 | only a dictionary with a `tx_id` key is decoded as a Transaction; anything else passes through unchanged |
| Blocks.DecodeEntries | Block.py:41-42 | the decoded list has one entry per value, each decoded as above |
| Blocks.FromDict | Block.py:39-50 | `transactions`, `index` and `prev_hash` are required; a missing or null hash is recomputed and a given one kept; one entry per stored transaction value, and non-transaction entries are kept as they are |
| Blocks.FromDictDefaults | Block.py:39-50 | a decoded block takes its index and previous hash from the dictionary; a missing nonce reads as 0 and a given one is kept; a missing timestamp is the current time and a given one is kept |
| Blocks.DecodeEntriesOfValues | Block.py:28-42 | entries that round-trip decode back from their dictionary forms |
| Blocks.RoundTrip | Block.py:28-50 | decoding a block's dictionary gives back the block when its transactions round-trip |
| Chain.Genesis | Blockchain.py:17-28 | the genesis block has index 0, prev_hash "0", timestamp 0, nonce 0, the genesis marker as its only entry, and its generated hash; it depends only on the hash function, so every node builds the same one |
| Chain.IsValidBlock | Blockchain.py:46-50 | a hash is accepted exactly when it starts with four '0' characters and is the generated hash of the block, whichever hash the block stores |
| Chain.GenesisIsValid | Blockchain.py:12-28 | a fresh chain passes `is_valid_chain` |
| Chain.FirstBlockUnchecked | Blockchain.py:52-59 | a one-block chain is valid exactly when its prev_hash is "0"; nothing else about block 0 is checked |
| Chain.ValidChainSnoc | Blockchain.py:34-72 | a chain extended by one block is valid if and only if the chain is valid and `add_block` would accept the block with its own hash |
| Chain.AddBlockPreservesValidity | Blockchain.py:34-72 | appending a block that `add_block` accepts keeps the chain valid |
| Chain.ValidChainPrefix | Blockchain.py:52-72 | every non-empty prefix of a valid chain is valid |
| Chain.ValidChainIsReplay | Blockchain.py:34-72 | a chain is valid if and only if its first block has prev_hash "0" and every later block is one that `add_block` would accept on the blocks before it |
| Chain.BlockDeltaIsReceivedMinusSent | Blockchain.py:100-105 | a block changes a balance by what the key received minus what it sent (amount plus fee), over Transaction entries only |
| Chain.ChainDeltaIsReceivedMinusSent | Blockchain.py:99-105 | the same over a list of blocks |
| Chain.SentAppend | Blockchain.py:99-105 | what was sent and received over two lists adds up |
| Chain.BalanceIsReceivedMinusSent | Blockchain.py:94-107 | a balance is 100 plus received minus sent, over the Transactions of blocks 1 onward; genesis and non-Transaction entries do not count |
| Chain.BalanceAfterAppend | Blockchain.py:94-107 | appending a block changes a balance by that block's effect alone |
| Chain.SentNonNegative | Blockchain.py:114-117 | with non-negative amounts and fees, nothing sent is negative |
| Chain.MempoolBalanceAtMostBalance | Blockchain.py:110-119 | with non-negative amounts and fees, the balance net of the mempool is at most the chain balance |
| Chain.TransferScenario | Blockchain.py:94-107 | after one block holding the reward and a payment of 10 with fee 1, the sender holds 89, the receiver 110 and the miner 111 |
| Chain.Blockchain.constructor | Blockchain.py:12-28 | a new chain is the genesis block alone, and it is valid |
| Chain.Blockchain.LastBlock | Blockchain.py:30-32 | the tip is the last block |
| Chain.Blockchain.AddBlock | Blockchain.py:34-50 | succeeds if and only if the block links to the tip, the hash meets the difficulty and the hash recomputes; on success the chain grows by the block with that hash, otherwise it is unchanged; validity is kept |
| Chain.Blockchain.IsValidChain | Blockchain.py:52-72 | the early-return loop computes exactly chain validity |
| Chain.Blockchain.ReplaceChain | Blockchain.py:74-80 | replaces if and only if the new chain is strictly longer and valid; otherwise nothing changes; the length never decreases |
| Chain.Blockchain.ProofOfWork | Blockchain.py:86-92 | returns a hash that meets the difficulty and is the generated hash at the final nonce, which is the least nonce from 0 that meets it; nothing but the nonce changes |
| Chain.Blockchain.GetBalance | Blockchain.py:94-107 | the nested loop computes the replayed balance |
| Chain.Blockchain.GetBalanceWithMempool | Blockchain.py:110-119 | the loop computes the chain balance minus amount plus fee of each pending transaction the key sent |
| MempoolRules.InPoolIsIdSet | Transaction.py:54-57 | `tx in mempool` holds exactly when the transaction's id is among the mempool's ids |
| MempoolRules.InPoolIsEqMember | Transaction.py:54-57 | `tx in mempool` under `__eq__` holds exactly when some mempool entry equals the transaction by id |
| MempoolRules.WithoutIds | Node.py:379-382 | the filtered mempool is no longer than the mempool and holds no entry whose id is in the set |
| MempoolRules.WithoutIdsMembers | Node.py:379-382 | the mempool filter keeps exactly the entries whose id is not in the given set |
| MempoolRules.WithoutIdsKeepsOrder | Node.py:379-382 | the filter keeps the remaining entries in their order |
| MempoolRules.WithoutIdsDistinct | Node.py:379-382 | the filter keeps ids distinct |
| MempoolRules.WithoutIdsTwice | Node.py:231-233 | filtering by one set and then another is filtering by their union |
| MempoolRules.RemoveFirst | Node.py:232-233 | `list.remove` of an absent transaction changes nothing; of a present one, removes exactly one entry |
| MempoolRules.RemoveFirstIsFilter | Node.py:232-233 | with distinct ids, `list.remove` of one transaction drops every entry with its id |
| MempoolRules.TxMapOfFacts | Node.py:359-363 | the id map has exactly the ids of the transactions as keys, and maps each id to one of those transactions with that id |
| MempoolRules.TxsOfMembers | Node.py:187-188 | a transaction is among a block's Transactions exactly when some entry holds it |
| MempoolRules.ChainTxsMembers | Node.py:186-188 | a transaction is on a list of blocks exactly when it is among some block's Transactions |
| MempoolRules.ChainTxIdsAt | Node.py:185-190 | an id is among a chain's ids exactly when some entry of some block is a Transaction with that id |
| MempoolRules.SortByFee | Node.py:491 | the sort puts the highest fee first and only rearranges the mempool |
| MempoolRules.SortByFeeIsStable | Node.py:491 | the sort is stable: the entries of one fee keep their mempool order |
| MempoolRules.InsertByFeeMultiset | Node.py:491 | one insertion step adds exactly the inserted entry |
| MempoolRules.InsertByFeeSorted | Node.py:491 | one insertion step keeps the fee order |
| MempoolRules.InsertByFeeWithFee | Node.py:491 | one insertion step adds the entry after nothing of its own fee |
| MempoolRules.SliceTo | Node.py:492 | Python's `s[:limit]`, including a negative limit counted from the end |
| MempoolRules.Picked | Node.py:491-492 | the picked entries are in fee order, highest first, and are drawn from the mempool |
| MempoolRules.PickedAreTopFees | Node.py:487-492 | with a limit of 0 or more, the picked entries number the smaller of the limit and the mempool size; they come from the mempool, highest fee first; no mempool entry left out pays more than one picked |
| MempoolRules.SortedPrefixOutranksRest | Node.py:491-492 | a prefix of any fee-sorted rearrangement of the mempool outranks every entry left out |
| MempoolRules.PrefixOutranks | Node.py:491-492 | in a fee-descending list, nothing after the cut pays more than anything before it |
| Nodes.TxsOfAsEntries | Node.py:462 | the picked transactions placed in a block are exactly its Transactions after the reward |
| Nodes.Candidate | Node.py:455-465 | the candidate block has index tip+1, the tip's hash as prev_hash, the block time, nonce 0 and its generated hash |
| Nodes.Verifies | Node.py:135-160 | holds exactly when the sender is "COINBASE", or the signature is accepted and 100 plus received minus sent over blocks 1 onward, minus what the mempool already sends, covers amount plus fee |
| Nodes.CandidateFacts | Node.py:451-465 | the mined block has index tip+1 and the tip's hash as prev_hash; its first entry pays the miner the reward plus the picked fees; the rest are picked mempool entries; it holds at most the block-size limit and, with a non-empty mempool, at least one picked entry |
| Nodes.MinedOntoIntro | Node.py:451-477 | the solved candidate appended to the chain, with the picked ids filtered out of the mempool, is what mining on that chain and mempool leaves |
| Nodes.DecodeChain | Node.py:353 | a decoded chain has one block per received value, in order, each the decoding of its value |
| Nodes.DecodeChainSucceeds | Node.py:353 | the received chain decodes when every block decodes |
| Nodes.DecodeChainOfDecodable | Node.py:353 | values that decode one by one to blocks decode together to that chain |
| Nodes.ChainRoundTrip | Node.py:339-353 | a chain in the form `send_chain` transmits is decoded back to itself by any decoder that inverts the block dictionary form |
| Nodes.SentChainRoundTrip | Node.py:339-353 | a chain in the form `send_chain` transmits is decoded by `Block.from_dict` back to itself when its entries round-trip |
| Nodes.ChainHasTxId | Node.py:185-190 | the nested scan finds the id exactly when it is on the chain (genesis included) |
| Nodes.CollectTxMap | Node.py:359-363 | the loop builds the id map of the blocks, a later transaction replacing an earlier one |
| Nodes.CollectEntryStep | Node.py:367-369 | reading one entry adds its id when it is a Transaction and nothing otherwise |
| Nodes.CollectTxIds | Node.py:365-369 | the loop collects exactly the ids of the blocks |
| Nodes.RemoveEntryStep | Node.py:231-233 | one step of removing a block's Transactions keeps mempool ids distinct and filters out the ids seen so far |
| Nodes.ReinjectStep | Node.py:387-395 | appending an orphan that verifies keeps every re-injected entry a verified orphan from the old chain's map |
| Nodes.ConsideredStep | Node.py:387-395 | after visiting an orphan id, it is pooled or failed verification, and earlier ids stay so |
| Nodes.ReinjectLoopStep | Node.py:387-395 | one iteration of the re-injection loop keeps the loop's invariant |
| Nodes.Node.constructor | Node.py:21-29 | a new node has the genesis chain, an empty mempool and no peers |
| Nodes.Node.VerifyTransaction | Node.py:135-160 | a "COINBASE" sender is accepted; a missing or empty signature is rejected; otherwise the signature must verify and the balance net of the mempool must cover amount plus fee |
| Nodes.Node.CreateAndSignTransaction | Node.py:163-179 | nothing if and only if the node's own balance net of the mempool is below amount plus fee; otherwise a new transaction from the node's key, signed over its signing data, which passes verification when the signer is sound |
| Nodes.Node.AddTransaction | Node.py:181-205 | accepted if and only if the id is on no block of the chain, the transaction verifies and no mempool entry has its id; accepted means appended, rejected means unchanged; mempool ids stay distinct |
| Nodes.Node.RemoveIncluded | Node.py:231-233 | removing a block's Transactions one by one leaves only the mempool entries whose id is not in the block |
| Nodes.Node.ReceiveBlock | Node.py:218-247 | the block is appended under `add_block`'s rule; then no transaction of the block remains in the mempool and the rest keep their order; otherwise nothing changes |
| Nodes.Node.HandleChainResponse | Node.py:349-401 | replaces under the longest-chain rule; otherwise nothing changes; when replaced, the mempool is the entries not on the new chain, then re-injected old-chain-only transactions, each verified when added; no mempool id is on `new_chain[1:]`; every orphan id is pooled or failed verification |
| Nodes.Node.Reinject | Node.py:386-395 | the loop only appends, each appended entry is an orphan that verified against the mempool before it, ids stay distinct, and every orphan is pooled or failed verification |
| Nodes.Node.Mine | Node.py:443-485 | a non-miner or an empty mempool changes nothing; otherwise the chain grows by exactly one block, which is the candidate on the old tip with the nonce and hash the proof of work found, meeting the difficulty and recomputing; the mempool becomes the old mempool without the ids of the picked transactions |
| Nodes.Node.BuildCandidate | Node.py:451-465 | the block built is the candidate on the chain's tip, and the list offered to it is the fee pick of the mempool |
| Nodes.Node.SolveAndAppend | Node.py:464-469 | `add_block` always accepts the solved block: the chain grows by exactly that block, which is the candidate with a new nonce and hash, meeting the difficulty and recomputing; the chain stays valid |
| Nodes.Node.PickTransactions | Node.py:487-492 | the stable fee sort cut at the limit; with a limit of 0 or more, as many entries as the limit allows, drawn from the mempool, highest fee first, with no entry left out paying more than one picked |
| Nodes.Node.AddPeer | Node.py:327-330 | appends a new (host, port) unless it is already listed or has the node's own port; the peer list never gains a duplicate or its own port |

## Left out

- Sockets, the server loop, message dispatch, broadcast and chain requests (Node.py:260-325, 336-347, 403-437) are network I/O. `handle_chain_response` takes the received dictionaries as an argument. The gossip of accepted transactions and blocks is not modelled.
- A failed `receive_block` asks peers for their chain (Node.py:246). That is network I/O and is not modelled.
- Threads, locks and the periodic sync loop are not modelled. Every operation is atomic and sequential.
- Key generation, PEM files and the `.env` file (Node.py:50-121) are file I/O and are not modelled. A public key is its PEM text.
- ECDSA, including the hex decoding of a signature, is not modelled. It is a `Verifier` function, and any exception it would raise counts as `false`.
- SHA-256 and `json.dumps` are not modelled. They are a `Hasher` function of the dictionary value. The JSON text and its key order are not modelled either.
- `uuid4()` and `time.time()` are arguments, not computed. `Blocks.FromDict` gives all of a block's transactions the same `now`.
- Timestamps are `real`. The genesis block's integer timestamp 0 is the real 0.0, which the opaque hash cannot tell apart.
- `save_blockchain`, `ensure_blockchain_file` and `load_blockchain` (Node.py:497-524) are file I/O and are not modelled.
- `run_node.py` and `simulate_transactions.py` are drivers and are not part of this model.
- Print statements and the broad `except` clauses are not modelled. An exception means no state change: a chain that fails to decode is ignored.
- Transactions.FromDict, Blocks.FromDict: a field of the wrong type (a string amount, for example) decodes to an error. Python would store the value and fail later or never.
- Chain.Blockchain.ProofOfWork: the source changes the block's nonce in place. Here the method returns the block with the final nonce. The method requires some nonce to meet the difficulty, because the source's loop would otherwise never end.
- Nodes.Node.Mine: requires its candidate block to be solvable, for the same reason. The source also checks whether the picked list is empty (Node.py:452-453). With a non-empty mempool and a limit of 2, that check can never succeed, so it is not modelled.
- Nodes.Node.HandleChainResponse: the orphan ids are visited in an unspecified order, like Python's set iteration. The contract says that every orphan is pooled or failed verification at some point of the loop, not which one for a given order.
- The `fee=0` defaults of the `Transaction` constructor (Transaction.py:10) and of `create_and_sign_transaction` (Node.py:163) are not modelled. Every call in the model passes a fee, and `Transactions.FromDict` supplies 0 for a missing one.
- `Node.get_balance` and `__repr__` are one-line wrappers. They are not modelled.
- The mempool holds only `Transaction` objects, so the `isinstance` tests on its entries always succeed and are not modelled.
