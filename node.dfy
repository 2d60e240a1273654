/**
 * A node's ledger logic (Node.py): the mempool of pending transactions,
 * the checks a transaction passes before it is pooled, accepting a block,
 * adopting a longer chain with re-injection of orphaned transactions,
 * mining, and the peer list. Sockets, threads, keys on disk and the
 * blockchain file are not part of this model.
 */
module Nodes {
  import opened Wrappers
  import opened Json
  import opened Transactions
  import opened Blocks
  import opened Chain
  import opened MempoolRules

  datatype Peer = Peer(host: string, port: int)

  /** The peer list holds no duplicate and never the node's own port. */
  predicate PeersOk(peers: seq<Peer>, ownPort: int) {
    (forall i, j :: 0 <= i < j < |peers| ==> peers[i] != peers[j])
    && forall i :: 0 <= i < |peers| ==> peers[i].port != ownPort
  }

  /** ECDSA verification as an uninterpreted function of public key, hex signature and signed value. */
  type Verifier = (string, string, Value) -> bool

  /** ECDSA signing with the node's private key, uninterpreted. */
  type Signer = Value -> string

  /** The signature is present, non-empty, and verifies under the sender's key. */
  predicate SignatureAccepted(tx: Transaction, verify: Verifier) {
    tx.signature.Some? && tx.signature.value != ""
    && verify(tx.sender, tx.signature.value, SigningData(tx))
  }

  /**
   * `verify_transaction` against a chain and a mempool: a coinbase sender
   * passes; anything else needs an accepted signature and a mempool-adjusted
   * balance covering amount and fee.
   */
  predicate Verifies(tx: Transaction, chain: seq<Block>, mempool: seq<Transaction>, verify: Verifier): (r: bool)
    ensures r <==> (tx.sender == Coinbase
      || (SignatureAccepted(tx, verify)
          && InitialBalance + Received(ChainTxs(Tail(chain)), tx.sender)
             >= Sent(ChainTxs(Tail(chain)), tx.sender) + Sent(mempool, tx.sender) + tx.amount + tx.fee))
  {
    BalanceIsReceivedMinusSent(chain, tx.sender);
    tx.sender == Coinbase
    || (SignatureAccepted(tx, verify) && BalanceWithMempool(chain, tx.sender, mempool) >= tx.amount + tx.fee)
  }

  /** A signer whose signatures are non-empty and always verify under `key`. */
  ghost predicate SoundSigner(key: string, sign: Signer, verify: Verifier) {
    forall d :: sign(d) != "" && verify(key, sign(d), d)
  }

  /** Transactions as block entries. */
  function AsEntries(txs: seq<Transaction>): (es: seq<Entry>)
    ensures |es| == |txs|
    ensures forall k :: 0 <= k < |txs| ==> es[k] == Tx(txs[k])
  {
    seq(|txs|, k requires 0 <= k < |txs| => Tx(txs[k]))
  }

  lemma {:induction false} TxsOfAsEntries(txs: seq<Transaction>)
    ensures TxsOf(AsEntries(txs)) == txs
  {
    if |txs| > 0 {
      var init := txs[..|txs| - 1];
      TxsOfAsEntries(init);
      assert AsEntries(txs)[..|txs| - 1] == AsEntries(init);
      assert txs == init + [txs[|txs| - 1]];
    }
  }

  /**
   * The block `mine` builds on `tip`: index one more, linked to the tip's
   * hash, the reward transaction first and then the picked transactions.
   */
  function Candidate(tip: Block, miner: string, mempool: seq<Transaction>,
                     rewardId: string, txTime: real, blockTime: real, hasher: Hasher): (b: Block)
    ensures b.index == tip.index + 1 && b.prevHash == tip.hash && b.timestamp == blockTime
    ensures b.nonce == 0 && b.hash == GenerateHash(b, hasher)
  {
    var picked := Picked(mempool, BlockSizeLimit - 1);
    var reward := RewardTransaction(miner, MiningReward, SumFees(picked), rewardId, txTime);
    NewBlock(tip.index + 1, [Tx(reward)] + AsEntries(picked), tip.hash, None, 0, None, blockTime, hasher)
  }

  /** `b` is `cand` with the nonce and hash the proof of work found. */
  predicate SolvedFrom(b: Block, cand: Block) {
    b == cand.(nonce := b.nonce, hash := b.hash)
  }

  /** The block `mine` assembles step by step is the candidate. */
  /**
   * `chain'` and `pool'` are what mining on `chain` with mempool `pool`
   * leaves: the candidate block, solved, appended, and the picked
   * transactions gone from the mempool.
   */
  ghost predicate MinedOnto(chain: seq<Block>, pool: seq<Transaction>, chain': seq<Block>, pool': seq<Transaction>,
                            miner: string, rewardId: string, txTime: real, blockTime: real, hasher: Hasher)
  {
    |chain| > 0 && |chain'| == |chain| + 1 && chain'[..|chain|] == chain
    && SolvedFrom(chain'[|chain|], Candidate(chain[|chain| - 1], miner, pool, rewardId, txTime, blockTime, hasher))
    && MeetsDifficulty(chain'[|chain|].hash)
    && chain'[|chain|].hash == GenerateHash(chain'[|chain|], hasher)
    && pool' == WithoutIds(pool, IdSet(Picked(pool, BlockSizeLimit - 1)))
  }

  lemma MinedOntoIntro(chain: seq<Block>, pool: seq<Transaction>, mined: Block, pool': seq<Transaction>,
                       cand: Block, picked: seq<Transaction>,
                       miner: string, rewardId: string, txTime: real, blockTime: real, hasher: Hasher)
    requires |chain| > 0
    requires cand == Candidate(chain[|chain| - 1], miner, pool, rewardId, txTime, blockTime, hasher)
    requires picked == Picked(pool, BlockSizeLimit - 1) && TxsOf(AsEntries(picked)) == picked
    requires SolvedFrom(mined, cand) && MeetsDifficulty(mined.hash) && mined.hash == GenerateHash(mined, hasher)
    requires pool' == WithoutIds(pool, IdSet(TxsOf(AsEntries(picked))))
    ensures MinedOnto(chain, pool, chain + [mined], pool', miner, rewardId, txTime, blockTime, hasher)
  {
    assert (chain + [mined])[..|chain|] == chain;
  }

  /**
   * The mined block extends the tip, pays the miner the reward plus the
   * fees of what it carries, carries the highest-fee mempool entries and,
   * with the reward, no more than the block-size limit.
   */
  lemma CandidateFacts(tip: Block, miner: string, mempool: seq<Transaction>,
                       rewardId: string, txTime: real, blockTime: real, hasher: Hasher)
    ensures var b := Candidate(tip, miner, mempool, rewardId, txTime, blockTime, hasher);
      var picked := Picked(mempool, BlockSizeLimit - 1);
      && b.index == tip.index + 1 && b.prevHash == tip.hash && b.timestamp == blockTime
      && 1 <= |b.transactions| <= BlockSizeLimit
      && b.transactions[0].Tx? && b.transactions[0].tx.sender == Coinbase
      && b.transactions[0].tx.receiver == miner
      && b.transactions[0].tx.amount == MiningReward + SumFees(picked)
      && TxsOf(b.transactions[1..]) == picked
      && multiset(picked) <= multiset(mempool)
      && (|mempool| > 0 ==> |b.transactions| >= 2)
  {
    var picked := Picked(mempool, BlockSizeLimit - 1);
    var b := Candidate(tip, miner, mempool, rewardId, txTime, blockTime, hasher);
    PickedAreTopFees(mempool, BlockSizeLimit - 1);
    assert b.transactions[1..] == AsEntries(picked);
    TxsOfAsEntries(picked);
  }

  /** A decoder for the `k`-th block of a received chain. */
  type BlockDecoder = (nat, Value) -> Result<Block, DecodeError>

  /** `Block.from_dict` on the `k`-th block of a received chain, drawing its uuids from `ids(k)`. */
  function FromDictAt(ids: nat -> nat -> string, now: real, hasher: Hasher): BlockDecoder {
    (k: nat, v: Value) => Blocks.FromDict(v, ids(k), now, hasher)
  }

  /** `[Block.from_dict(b) for b in chain_data]`: the first failure is the result. */
  function DecodeChain(data: seq<Value>, from: nat, decode: BlockDecoder): (r: Result<seq<Block>, DecodeError>)
    requires from <= |data|
    ensures r.Ok? ==> (|r.value| == |data| - from
      && forall k :: from <= k < |data| ==> decode(k, data[k]) == Ok(r.value[k - from]))
    decreases |data| - from
  {
    if from == |data| then Ok([])
    else
      var b :- decode(from, data[from]);
      var rest :- DecodeChain(data, from + 1, decode);
      Ok([b] + rest)
  }

  /** The received chain decodes if every block does. */
  lemma {:induction false} DecodeChainSucceeds(data: seq<Value>, from: nat, decode: BlockDecoder)
    requires from <= |data|
    requires forall k :: from <= k < |data| ==> decode(k, data[k]).Ok?
    ensures DecodeChain(data, from, decode).Ok?
    decreases |data| - from
  {
    if from < |data| {
      DecodeChainSucceeds(data, from + 1, decode);
    }
  }

  /** What `send_chain` transmits: every block's dictionary form. */
  function ChainValues(bs: seq<Block>): (vs: seq<Value>)
    ensures |vs| == |bs|
    ensures forall k :: 0 <= k < |bs| ==> vs[k] == Blocks.ToDict(bs[k])
  {
    seq(|bs|, k requires 0 <= k < |bs| => Blocks.ToDict(bs[k]))
  }

  /** Values that decode one by one to the blocks `bs` decode together to `bs`. */
  lemma {:induction false} DecodeChainOfDecodable(vs: seq<Value>, bs: seq<Block>, from: nat, decode: BlockDecoder)
    requires from <= |vs| == |bs|
    requires forall k :: from <= k < |vs| ==> decode(k, vs[k]) == Ok(bs[k])
    ensures DecodeChain(vs, from, decode) == Ok(bs[from..])
    decreases |vs| - from
  {
    if from < |vs| {
      DecodeChainOfDecodable(vs, bs, from + 1, decode);
      assert bs[from..] == [bs[from]] + bs[from + 1..];
    }
  }

  /** A chain in `send_chain` form is received intact by a decoder that inverts `to_dict` on its blocks. */
  lemma ChainRoundTrip(bs: seq<Block>, from: nat, decode: BlockDecoder)
    requires from <= |bs|
    requires forall k :: 0 <= k < |bs| ==> decode(k, Blocks.ToDict(bs[k])) == Ok(bs[k])
    ensures DecodeChain(ChainValues(bs), from, decode) == Ok(bs[from..])
  {
    DecodeChainOfDecodable(ChainValues(bs), bs, from, decode);
  }

  /** A chain sent by `send_chain` is received intact by `Block.from_dict` when its blocks' entries round-trip. */
  lemma SentChainRoundTrip(bs: seq<Block>, ids: nat -> nat -> string, now: real, hasher: Hasher)
    requires forall k :: 0 <= k < |bs| ==> EntriesRoundTrip(bs[k].transactions)
    ensures DecodeChain(ChainValues(bs), 0, FromDictAt(ids, now, hasher)) == Ok(bs)
  {
    var decode := FromDictAt(ids, now, hasher);
    forall k | 0 <= k < |bs|
      ensures decode(k, Blocks.ToDict(bs[k])) == Ok(bs[k])
    {
      RoundTrip(bs[k], ids(k), now, hasher);
    }
    ChainRoundTrip(bs, 0, decode);
    assert bs[0..] == bs;
  }

  /** The mempool after one entry of `remove_included`: a pooled transaction is removed once. */
  function AfterEntry(m: seq<Transaction>, e: Entry): seq<Transaction> {
    if e.Tx? && InPool(m, e.tx.txId) then RemoveFirst(m, e.tx.txId) else m
  }

  /** Each entry handled by `remove_included` filters its transaction's id out of the mempool. */
  lemma RemoveEntryStep(pool: seq<Transaction>, es: seq<Entry>, j: nat, m: seq<Transaction>)
    requires j < |es| && m == WithoutIds(pool, IdSet(TxsOf(es[..j]))) && DistinctIds(m)
    ensures DistinctIds(AfterEntry(m, es[j]))
    ensures AfterEntry(m, es[j]) == WithoutIds(pool, IdSet(TxsOf(es[..j + 1])))
  {
    var e := es[j];
    assert es[..j + 1][..j] == es[..j];
    var done := IdSet(TxsOf(es[..j]));
    if e.Tx? {
      IdSetAppend(TxsOf(es[..j]), [e.tx]);
      assert IdSet([e.tx]) == {e.tx.txId};
      assert IdSet(TxsOf(es[..j + 1])) == done + {e.tx.txId};
      WithoutIdsTwice(pool, done, {e.tx.txId});
      if InPool(m, e.tx.txId) {
        RemoveFirstIsFilter(m, e.tx.txId);
        WithoutIdsDistinct(m, {e.tx.txId});
      } else {
        WithoutAbsentIds(m, {e.tx.txId});
      }
    } else {
      assert TxsOf(es[..j + 1]) == TxsOf(es[..j]);
    }
  }

  /** The mempool entries from position `start` on are re-injected orphans, each verified when it was added. */
  ghost predicate Reinjected(m: seq<Transaction>, start: nat, orphans: set<string>,
                             txMap: map<string, Transaction>, chain: seq<Block>, verify: Verifier)
  {
    start <= |m|
    && forall k :: start <= k < |m| ==>
         m[k].txId in orphans && m[k].txId in txMap && m[k] == txMap[m[k].txId]
         && Verifies(m[k], chain, m[..k], verify)
  }

  /** Every id in `handled` is pooled, or its transaction failed verification at some point of the re-injection. */
  ghost predicate OrphansConsidered(m: seq<Transaction>, start: nat, handled: set<string>,
                                    txMap: map<string, Transaction>, chain: seq<Block>, verify: Verifier)
  {
    start <= |m|
    && forall id :: id in handled ==>
         id in txMap
         && (InPool(m, id) || exists j :: start <= j <= |m| && !Verifies(txMap[id], chain, m[..j], verify))
  }

  /** The ids on `oldChain[1:]` that are not on `newChain[1:]`. */
  function OrphanIds(oldChain: seq<Block>, newChain: seq<Block>): set<string> {
    TxMap(Tail(oldChain)).Keys - ChainTxIds(Tail(newChain))
  }

  /** Is `id` the id of a Transaction anywhere on the chain? The nested scan of `add_transaction`. */
  method ChainHasTxId(chain: seq<Block>, id: string) returns (found: bool)
    ensures found == (id in ChainTxIds(chain))
  {
    var i := 0;
    while i < |chain|
      invariant 0 <= i <= |chain|
      invariant id !in IdSet(ChainTxs(chain[..i]))
    {
      var txs := chain[i].transactions;
      var j := 0;
      while j < |txs|
        invariant 0 <= j <= |txs|
        invariant id !in IdSet(ChainTxs(chain[..i]) + TxsOf(txs[..j]))
      {
        var e := txs[j];
        if e.Tx? && e.tx.txId == id {
          ChainTxIdsAt(chain, id);
          return true;
        }
        assert txs[..j + 1][..j] == txs[..j];
        IdSetAppend(ChainTxs(chain[..i]), TxsOf(txs[..j]));
        IdSetAppend(ChainTxs(chain[..i]), TxsOf(txs[..j + 1]));
        IdSetAppend(TxsOf(txs[..j]), if e.Tx? then [e.tx] else []);
        j := j + 1;
      }
      assert txs[..j] == txs;
      assert chain[..i + 1][..i] == chain[..i];
      i := i + 1;
    }
    assert chain[..i] == chain;
    return false;
  }

  /** `old_tx_map`: every Transaction on the blocks by id, a later one replacing an earlier one. */
  method CollectTxMap(blocks: seq<Block>) returns (m: map<string, Transaction>)
    ensures m == TxMap(blocks)
  {
    m := map[];
    var i := 0;
    while i < |blocks|
      invariant 0 <= i <= |blocks|
      invariant m == TxMapOf(ChainTxs(blocks[..i]))
    {
      var txs := blocks[i].transactions;
      var j := 0;
      assert ChainTxs(blocks[..i]) + TxsOf(txs[..j]) == ChainTxs(blocks[..i]);
      while j < |txs|
        invariant 0 <= j <= |txs|
        invariant m == TxMapOf(ChainTxs(blocks[..i]) + TxsOf(txs[..j]))
      {
        var e := txs[j];
        TxsOfStep(txs, j);
        ghost var before := ChainTxs(blocks[..i]) + TxsOf(txs[..j]);
        if e.Tx? {
          assert ChainTxs(blocks[..i]) + TxsOf(txs[..j + 1]) == before + [e.tx];
          TxMapOfSnoc(before, e.tx);
          m := m[e.tx.txId := e.tx];
        } else {
          assert ChainTxs(blocks[..i]) + TxsOf(txs[..j + 1]) == before;
        }
        j := j + 1;
      }
      assert txs[..j] == txs;
      ChainTxsStep(blocks, i);
      i := i + 1;
    }
    assert blocks[..i] == blocks;
  }

  /** One entry read by `new_tx_ids`: a Transaction adds its id, anything else nothing. */
  lemma CollectEntryStep(prefix: seq<Transaction>, txs: seq<Entry>, j: nat)
    requires j < |txs|
    ensures IdSet(prefix + TxsOf(txs[..j + 1]))
         == IdSet(prefix + TxsOf(txs[..j])) + (if txs[j].Tx? then {txs[j].tx.txId} else {})
  {
    assert txs[..j + 1][..j] == txs[..j];
    if txs[j].Tx? {
      assert prefix + TxsOf(txs[..j + 1]) == (prefix + TxsOf(txs[..j])) + [txs[j].tx];
      IdSetAppend(prefix + TxsOf(txs[..j]), [txs[j].tx]);
      assert IdSet([txs[j].tx]) == {txs[j].tx.txId};
    } else {
      assert TxsOf(txs[..j + 1]) == TxsOf(txs[..j]);
    }
  }

  /** `new_tx_ids`: the ids of every Transaction on the blocks. */
  method CollectTxIds(blocks: seq<Block>) returns (ids: set<string>)
    ensures ids == ChainTxIds(blocks)
  {
    ids := {};
    var i := 0;
    while i < |blocks|
      invariant 0 <= i <= |blocks|
      invariant ids == IdSet(ChainTxs(blocks[..i]))
    {
      var txs := blocks[i].transactions;
      var j := 0;
      assert ChainTxs(blocks[..i]) + TxsOf(txs[..j]) == ChainTxs(blocks[..i]);
      while j < |txs|
        invariant 0 <= j <= |txs|
        invariant ids == IdSet(ChainTxs(blocks[..i]) + TxsOf(txs[..j]))
      {
        var e := txs[j];
        CollectEntryStep(ChainTxs(blocks[..i]), txs, j);
        if e.Tx? {
          ids := ids + {e.tx.txId};
        }
        j := j + 1;
      }
      assert txs[..j] == txs;
      ChainTxsStep(blocks, i);
      i := i + 1;
    }
    assert blocks[..i] == blocks;
  }

  class Node {
    const port: int
    const isMiner: bool
    /** The node's public key, as PEM text. */
    const publicKey: string
    const blockchain: Blockchain
    const sign: Signer
    const verify: Verifier
    var mempool: seq<Transaction>
    var peers: seq<Peer>

    /** The chain is valid, no two pooled transactions share an id, and the peer list is clean. */
    ghost predicate Valid()
      reads this, blockchain
    {
      blockchain.Valid() && DistinctIds(mempool) && PeersOk(peers, port)
    }

    constructor (port: int, isMiner: bool, publicKey: string, hasher: Hasher, sign: Signer, verify: Verifier)
      ensures Valid()
      ensures this.port == port && this.isMiner == isMiner && this.publicKey == publicKey
      ensures this.sign == sign && this.verify == verify && blockchain.hasher == hasher
      ensures blockchain.chain == [Genesis(hasher)] && mempool == [] && peers == []
      ensures fresh(blockchain)
    {
      this.port := port;
      this.isMiner := isMiner;
      this.publicKey := publicKey;
      this.sign := sign;
      this.verify := verify;
      blockchain := new Blockchain(hasher);
      mempool := [];
      peers := [];
    }

    /**
     * `verify_transaction`: coinbase transactions pass; a missing or empty
     * signature fails; otherwise the signature must verify and the
     * sender's balance net of the mempool must cover amount plus fee.
     */
    method VerifyTransaction(tx: Transaction) returns (ok: bool)
      ensures ok == Verifies(tx, blockchain.chain, mempool, verify)
      ensures tx.sender == Coinbase ==> ok
      ensures tx.sender != Coinbase && (tx.signature == None || tx.signature == Some("")) ==> !ok
      ensures tx.sender != Coinbase && BalanceWithMempool(blockchain.chain, tx.sender, mempool) < tx.amount + tx.fee ==> !ok
      ensures ok && tx.sender != Coinbase ==> verify(tx.sender, tx.signature.value, SigningData(tx))
    {
      if tx.sender == Coinbase {
        return true;
      }
      if tx.signature == None || tx.signature == Some("") {
        return false;
      }
      if !verify(tx.sender, tx.signature.value, SigningData(tx)) {
        return false;
      }
      var balance := blockchain.GetBalanceWithMempool(tx.sender, mempool);
      if balance < tx.amount + tx.fee {
        return false;
      }
      return true;
    }

    /**
     * `create_and_sign_transaction`: nothing when the node's own balance net
     * of the mempool is short; otherwise a fresh transaction from the node's
     * key, signed over its signing data.
     */
    method CreateAndSignTransaction(receiver: string, amount: int, fee: int, freshId: string, now: real)
      returns (r: Option<Transaction>)
      ensures r.None? <==> BalanceWithMempool(blockchain.chain, publicKey, mempool) < amount + fee
      ensures r.Some? ==> (r.value.sender == publicKey && r.value.receiver == receiver
        && r.value.amount == amount && r.value.fee == fee
        && r.value.txId == freshId && r.value.timestamp == now)
      ensures r.Some? ==> r.value.signature == Some(sign(SigningData(r.value)))
      ensures r.Some? && SoundSigner(publicKey, sign, verify) ==> Verifies(r.value, blockchain.chain, mempool, verify)
    {
      var balance := blockchain.GetBalanceWithMempool(publicKey, mempool);
      if balance < amount + fee {
        return None;
      }
      var tx := NewTransaction(publicKey, receiver, amount, fee, None, None, None, freshId, now);
      var signed := tx.(signature := Some(sign(SigningData(tx))));
      SigningDataIgnoresSignature(tx, Some(sign(SigningData(tx))));
      return Some(signed);
    }

    /**
     * `add_transaction`: refused when a Transaction with the same id is
     * anywhere on the chain, when it does not verify, or when the mempool
     * already holds its id; otherwise appended.
     */
    method AddTransaction(tx: Transaction) returns (ok: bool)
      requires Valid()
      modifies this
      ensures Valid()
      ensures ok == (tx.txId !in ChainTxIds(blockchain.chain)
                     && Verifies(tx, blockchain.chain, old(mempool), verify)
                     && !InPool(old(mempool), tx.txId))
      ensures mempool == if ok then old(mempool) + [tx] else old(mempool)
      ensures peers == old(peers)
    {
      var onChain := ChainHasTxId(blockchain.chain, tx.txId);
      if onChain {
        return false;
      }
      var verified := VerifyTransaction(tx);
      if !verified {
        return false;
      }
      if InPool(mempool, tx.txId) {
        return false;
      }
      AppendFreshDistinct(mempool, tx);
      mempool := mempool + [tx];
      return true;
    }

    /** `for tx in ...: if tx in self.mempool: self.mempool.remove(tx)` over the Transactions among `es`. */
    method RemoveIncluded(es: seq<Entry>)
      requires DistinctIds(mempool)
      modifies this
      ensures DistinctIds(mempool)
      ensures mempool == WithoutIds(old(mempool), IdSet(TxsOf(es)))
      ensures peers == old(peers)
    {
      var j := 0;
      assert IdSet(TxsOf(es[..0])) == {};
      assert WithoutIds(mempool, {}) == mempool by {
        WithoutAbsentIds(mempool, {});
      }
      while j < |es|
        invariant 0 <= j <= |es|
        invariant DistinctIds(mempool)
        invariant mempool == WithoutIds(old(mempool), IdSet(TxsOf(es[..j])))
        invariant peers == old(peers)
      {
        RemoveEntryStep(old(mempool), es, j, mempool);
        var e := es[j];
        if e.Tx? && InPool(mempool, e.tx.txId) {
          mempool := RemoveFirst(mempool, e.tx.txId);
        }
        j := j + 1;
      }
      assert es[..j] == es;
    }

    /**
     * `receive_block`: the block is offered to the chain with its own hash;
     * when appended, its Transactions leave the mempool and the remaining
     * entries keep their order; otherwise nothing changes.
     */
    method ReceiveBlock(b: Block) returns (appended: bool)
      requires Valid()
      modifies this, blockchain
      ensures Valid()
      ensures appended == CanAppend(old(blockchain.chain), b, b.hash, blockchain.hasher)
      ensures blockchain.chain == if appended then old(blockchain.chain) + [b] else old(blockchain.chain)
      ensures mempool == if appended then WithoutIds(old(mempool), IdSet(TxsOf(b.transactions))) else old(mempool)
      ensures appended ==> forall t :: t in mempool ==> t in old(mempool) && t.txId !in IdSet(TxsOf(b.transactions))
      ensures IsSubsequence(mempool, old(mempool))
      ensures peers == old(peers)
    {
      appended := blockchain.AddBlock(b, b.hash);
      if appended {
        RemoveIncluded(b.transactions);
        WithoutIdsMembers(old(mempool), IdSet(TxsOf(b.transactions)));
        WithoutIdsKeepsOrder(old(mempool), IdSet(TxsOf(b.transactions)));
      } else {
        WithoutIdsKeepsOrder(mempool, {});
        WithoutAbsentIds(mempool, {});
      }
    }

    /**
     * `handle_chain_response`: decode the received chain; adopt it by the
     * longest-chain rule; if adopted, drop every mempool entry whose id is
     * on the new chain after genesis, then append each transaction that was
     * only on the old chain (after genesis), if it still verifies and its id
     * is not pooled. The orphan ids are visited in an unspecified order.
     */
    method HandleChainResponse(chainData: seq<Value>, ids: nat -> nat -> string, now: real) returns (replaced: bool)
      requires Valid()
      modifies this, blockchain
      ensures Valid()
      ensures var d := DecodeChain(chainData, 0, FromDictAt(ids, now, blockchain.hasher));
        replaced == (d.Ok? && |d.value| > |old(blockchain.chain)| && ValidChain(d.value, blockchain.hasher))
      ensures !replaced ==> blockchain.chain == old(blockchain.chain) && mempool == old(mempool)
      ensures replaced ==>
        var newChain := DecodeChain(chainData, 0, FromDictAt(ids, now, blockchain.hasher)).value;
        var kept := WithoutIds(old(mempool), ChainTxIds(Tail(newChain)));
        var orphans := OrphanIds(old(blockchain.chain), newChain);
        var txMap := TxMap(Tail(old(blockchain.chain)));
        && blockchain.chain == newChain
        && |kept| <= |mempool| && mempool[..|kept|] == kept
        && Reinjected(mempool, |kept|, orphans, txMap, newChain, verify)
        && OrphansConsidered(mempool, |kept|, orphans, txMap, newChain, verify)
        && (forall t :: t in mempool ==> t.txId !in ChainTxIds(Tail(newChain)))
      ensures peers == old(peers)
    {
      var decoded := DecodeChain(chainData, 0, FromDictAt(ids, now, blockchain.hasher));
      if decoded.Err? {
        return false;
      }
      var newChain := decoded.value;
      var oldChain := blockchain.chain;
      var oldTxMap := CollectTxMap(Tail(oldChain));
      var newTxIds := CollectTxIds(Tail(newChain));
      replaced := blockchain.ReplaceChain(newChain);
      if !replaced {
        return;
      }
      WithoutIdsDistinct(mempool, newTxIds);
      WithoutIdsMembers(mempool, newTxIds);
      mempool := WithoutIds(mempool, newTxIds);
      ghost var kept := mempool;
      TxMapOfFacts(ChainTxs(Tail(oldChain)));
      Reinject(oldTxMap.Keys - newTxIds, oldTxMap);
      forall t | t in mempool
        ensures t.txId !in newTxIds
      {
        var k :| 0 <= k < |mempool| && mempool[k] == t;
        if k < |kept| {
          assert mempool[..|kept|][k] == t;
        }
      }
    }

    /**
     * The re-injection loop of `handle_chain_response`: each orphan id's
     * transaction is appended when it verifies against the current chain and
     * mempool and its id is not pooled yet.
     */
    method Reinject(orphans: set<string>, txMap: map<string, Transaction>)
      requires blockchain.Valid() && DistinctIds(mempool)
      requires forall id :: id in orphans ==> id in txMap && txMap[id].txId == id
      modifies this
      ensures DistinctIds(mempool) && peers == old(peers)
      ensures |old(mempool)| <= |mempool| && mempool[..|old(mempool)|] == old(mempool)
      ensures Reinjected(mempool, |old(mempool)|, orphans, txMap, blockchain.chain, verify)
      ensures OrphansConsidered(mempool, |old(mempool)|, orphans, txMap, blockchain.chain, verify)
    {
      ghost var start := |mempool|;
      var pending := orphans;
      assert ReinjectLoop(mempool, old(mempool), orphans, pending, txMap, blockchain.chain, verify);
      while pending != {}
        invariant peers == old(peers)
        invariant ReinjectLoop(mempool, old(mempool), orphans, pending, txMap, blockchain.chain, verify)
        decreases |pending|
      {
        var id :| id in pending;
        var tx := txMap[id];
        var ok := VerifyTransaction(tx);
        ghost var before := mempool;
        if ok && !InPool(mempool, tx.txId) {
          mempool := mempool + [tx];
        }
        ReinjectLoopStep(before, mempool, old(mempool), orphans, pending, txMap, blockchain.chain, verify, id, ok);
        pending := pending - {id};
      }
      assert orphans - pending == orphans;
    }

    /**
     * `mine`: nothing unless the node is a miner with a non-empty mempool.
     * Otherwise the candidate block is solved by proof of work, which
     * `add_block` always accepts, and the picked transactions leave the
     * mempool.
     */
    method Mine(rewardId: string, txTime: real, blockTime: real)
      requires Valid()
      requires isMiner && |mempool| > 0 ==>
        Solvable(Candidate(blockchain.chain[|blockchain.chain| - 1], publicKey, mempool,
                           rewardId, txTime, blockTime, blockchain.hasher), blockchain.hasher)
      modifies this, blockchain
      ensures Valid()
      ensures !isMiner || |old(mempool)| == 0 ==> blockchain.chain == old(blockchain.chain) && mempool == old(mempool)
      ensures isMiner && |old(mempool)| > 0 ==>
        MinedOnto(old(blockchain.chain), old(mempool), blockchain.chain, mempool,
                  publicKey, rewardId, txTime, blockTime, blockchain.hasher)
      ensures peers == old(peers)
    {
      if !isMiner || |mempool| == 0 {
        return;
      }
      var newBlock, picked := BuildCandidate(rewardId, txTime, blockTime);
      ghost var oldChain := blockchain.chain;
      ghost var oldPool := mempool;
      var mined := SolveAndAppend(newBlock);
      TxsOfAsEntries(picked);
      RemoveIncluded(AsEntries(picked));
      MinedOntoIntro(oldChain, oldPool, mined, mempool, newBlock, picked, publicKey, rewardId, txTime, blockTime, blockchain.hasher);
    }

    /**
     * The block `mine` builds before proof of work: the reward, paying the
     * fees of the picked transactions, followed by those transactions, on
     * top of the tip.
     */
    method BuildCandidate(rewardId: string, txTime: real, blockTime: real) returns (b: Block, picked: seq<Transaction>)
      requires blockchain.Valid()
      ensures picked == Picked(mempool, BlockSizeLimit - 1)
      ensures b == Candidate(blockchain.chain[|blockchain.chain| - 1], publicKey, mempool, rewardId, txTime, blockTime, blockchain.hasher)
    {
      picked := PickTransactions(BlockSizeLimit - 1);
      var tip := blockchain.LastBlock();
      b := Candidate(tip, publicKey, mempool, rewardId, txTime, blockTime, blockchain.hasher);
    }

    /** The proof-of-work and `add_block` steps of `mine`: a solved block linked to the tip is always appended. */
    method SolveAndAppend(b: Block) returns (mined: Block)
      requires blockchain.Valid() && Solvable(b, blockchain.hasher)
      requires b.prevHash == blockchain.chain[|blockchain.chain| - 1].hash
      modifies blockchain
      ensures blockchain.Valid()
      ensures blockchain.chain == old(blockchain.chain) + [mined]
      ensures SolvedFrom(mined, b) && MeetsDifficulty(mined.hash)
      ensures mined.hash == GenerateHash(mined, blockchain.hasher)
    {
      ghost var oldChain := blockchain.chain;
      var blockHash, solved := blockchain.ProofOfWork(b);
      assert CanAppend(oldChain, solved, blockHash, blockchain.hasher);
      var appended := blockchain.AddBlock(solved, blockHash);
      assert appended;
      mined := solved.(hash := blockHash);
    }

    /** `pick_transactions`: the mempool sorted by fee, highest first and ties in mempool order, cut to `limit`. */
    method PickTransactions(limit: int) returns (r: seq<Transaction>)
      ensures r == Picked(mempool, limit)
      ensures limit >= 0 ==> TopByFee(r, mempool, limit)
    {
      r := SliceTo(SortByFee(mempool), limit);
      if limit >= 0 {
        PickedAreTopFees(mempool, limit);
      }
    }

    /** `add_peer`: a new (host, port) other than the node's own port is appended. */
    method AddPeer(host: string, peerPort: int)
      requires Valid()
      modifies this
      ensures Valid()
      ensures peers == if Peer(host, peerPort) !in old(peers) && peerPort != port
                       then old(peers) + [Peer(host, peerPort)] else old(peers)
      ensures mempool == old(mempool)
    {
      var p := Peer(host, peerPort);
      if p !in peers && peerPort != port {
        peers := peers + [p];
      }
    }
  }

  /** One re-injected orphan keeps the re-injection invariant. */
  lemma ReinjectStep(m: seq<Transaction>, start: nat, orphans: set<string>,
                     txMap: map<string, Transaction>, chain: seq<Block>, verify: Verifier, tx: Transaction)
    requires Reinjected(m, start, orphans, txMap, chain, verify)
    requires tx.txId in orphans && tx.txId in txMap && tx == txMap[tx.txId]
    requires Verifies(tx, chain, m, verify)
    ensures Reinjected(m + [tx], start, orphans, txMap, chain, verify)
  {
    var m' := m + [tx];
    forall k | start <= k < |m'|
      ensures m'[k].txId in orphans && m'[k].txId in txMap && m'[k] == txMap[m'[k].txId]
      ensures Verifies(m'[k], chain, m'[..k], verify)
    {
      if k < |m| {
        assert m'[k] == m[k] && m'[..k] == m[..k];
      } else {
        assert m'[..k] == m;
      }
    }
  }

  /** The orphan `id` just visited is considered, and the ones before stay considered. */
  lemma ConsideredStep(m: seq<Transaction>, m': seq<Transaction>, start: nat, handled: set<string>,
                       txMap: map<string, Transaction>, chain: seq<Block>, verify: Verifier, id: string)
    requires OrphansConsidered(m, start, handled, txMap, chain, verify)
    requires id in txMap && txMap[id].txId == id
    requires m' == m || m' == m + [txMap[id]]
    requires m' == m ==> InPool(m, id) || !Verifies(txMap[id], chain, m, verify)
    ensures OrphansConsidered(m', start, handled + {id}, txMap, chain, verify)
  {
    assert m[..|m|] == m;
    forall x | x in handled + {id}
      ensures InPool(m', x) || exists j :: start <= j <= |m'| && !Verifies(txMap[x], chain, m'[..j], verify)
    {
      if x == id {
        if m' != m {
          assert m'[|m|].txId == id;
        } else if !InPool(m, id) {
          assert !Verifies(txMap[id], chain, m'[..|m'|], verify);
        }
      } else if InPool(m, x) {
        var i :| 0 <= i < |m| && m[i].txId == x;
        assert m'[i] == m[i];
      } else {
        var j :| start <= j <= |m| && !Verifies(txMap[x], chain, m[..j], verify);
        assert m'[..j] == m[..j];
      }
    }
  }

  /** The state of the re-injection loop, with `pending` orphan ids still to visit. */
  ghost predicate ReinjectLoop(m: seq<Transaction>, kept: seq<Transaction>, orphans: set<string>, pending: set<string>,
                               txMap: map<string, Transaction>, chain: seq<Block>, verify: Verifier)
  {
    && pending <= orphans
    && (forall id :: id in orphans ==> id in txMap && txMap[id].txId == id)
    && DistinctIds(m)
    && |kept| <= |m| && m[..|kept|] == kept
    && Reinjected(m, |kept|, orphans, txMap, chain, verify)
    && (forall k :: |kept| <= k < |m| ==> m[k].txId !in pending)
    && OrphansConsidered(m, |kept|, orphans - pending, txMap, chain, verify)
  }

  /** Visiting orphan `id` keeps the loop state. */
  lemma ReinjectLoopStep(m: seq<Transaction>, m': seq<Transaction>, kept: seq<Transaction>,
                         orphans: set<string>, pending: set<string>,
                         txMap: map<string, Transaction>, chain: seq<Block>, verify: Verifier,
                         id: string, ok: bool)
    requires ReinjectLoop(m, kept, orphans, pending, txMap, chain, verify)
    requires id in pending
    requires ok == Verifies(txMap[id], chain, m, verify)
    requires m' == if ok && !InPool(m, txMap[id].txId) then m + [txMap[id]] else m
    ensures ReinjectLoop(m', kept, orphans, pending - {id}, txMap, chain, verify)
  {
    var tx := txMap[id];
    if ok && !InPool(m, tx.txId) {
      AppendFreshDistinct(m, tx);
      ReinjectStep(m, |kept|, orphans, txMap, chain, verify, tx);
      assert m'[..|kept|] == m[..|kept|];
      forall k | |kept| <= k < |m'|
        ensures m'[k].txId !in pending - {id}
      {
        if k < |m| {
          assert m'[k] == m[k];
        }
      }
    }
    ConsideredStep(m, m', |kept|, orphans - pending, txMap, chain, verify, id);
    assert (orphans - pending) + {id} == orphans - (pending - {id});
  }
}
