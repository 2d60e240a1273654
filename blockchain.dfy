/**
 * The chain state machine (Blockchain.py): a fixed genesis block, appending
 * a block that links to the tip and carries a valid proof of work, checking a
 * whole chain, the longest-chain replacement rule, the nonce search, and
 * account balances replayed from the chain.
 */
module Chain {
  import opened Wrappers
  import opened Json
  import opened Transactions
  import opened Blocks

  /** Number of leading '0' characters a block hash must have. */
  const Difficulty: nat := 4
  /** Transactions per mined block, the reward included. */
  const BlockSizeLimit: int := 3
  const MiningReward: int := 10
  /** Every account starts with this balance. */
  const InitialBalance: int := 100

  function Zeros(n: nat): string {
    seq(n, _ => '0')
  }

  /** `h.startswith("0" * difficulty)` */
  predicate MeetsDifficulty(h: string) {
    Zeros(Difficulty) <= h
  }

  /** The marker dictionary that is the genesis block's only entry. */
  const GenesisMarker: Value := Obj(map["type" := Str("genesis"), "message" := Str("Genesis Block")])

  /**
   * `create_genesis_block`: fixed index, timestamp, nonce and previous hash,
   * so every node (sharing the hash function) builds the same block.
   */
  function Genesis(hasher: Hasher): (g: Block)
    ensures g.index == 0 && g.prevHash == "0" && g.timestamp == 0.0 && g.nonce == 0
    ensures g.transactions == [Raw(GenesisMarker)]
    ensures g.hash == GenerateHash(g, hasher)
  {
    var g := NewBlock(0, [Raw(GenesisMarker)], "0", Some(0.0), 0, None, 0.0, hasher);
    g.(hash := GenerateHash(g, hasher))
  }

  /** `is_valid_block`: the claimed hash meets the difficulty and is the block's generated hash. */
  predicate IsValidBlock(b: Block, h: string, hasher: Hasher): (r: bool)
    ensures r ==> |h| >= Difficulty && forall i :: 0 <= i < Difficulty ==> h[i] == '0'
    ensures r <==> MeetsDifficulty(h) && GenerateHash(b.(hash := h), hasher) == h
  {
    MeetsDifficulty(h) && GenerateHash(b, hasher) == h
  }

  /** What `add_block` checks before appending `b` with hash `h`. */
  predicate CanAppend(chain: seq<Block>, b: Block, h: string, hasher: Hasher)
    requires |chain| > 0
  {
    chain[|chain| - 1].hash == b.prevHash && IsValidBlock(b, h, hasher)
  }

  /** The checks `is_valid_chain` makes of block `i` against block `i - 1`. */
  predicate LinkedAt(c: seq<Block>, i: int, hasher: Hasher)
    requires 1 <= i < |c|
  {
    c[i].prevHash == c[i - 1].hash && MeetsDifficulty(c[i].hash) && GenerateHash(c[i], hasher) == c[i].hash
  }

  /**
   * `is_valid_chain`: non-empty, a first block whose previous hash is "0"
   * (nothing else about it is checked), and every later block linked and
   * carrying a valid proof of work. Indexes, sizes, coinbase amounts,
   * signatures, duplicate ids and balances are not checked.
   */
  predicate ValidChain(c: seq<Block>, hasher: Hasher) {
    |c| > 0 && c[0].prevHash == "0" && forall i :: 1 <= i < |c| ==> LinkedAt(c, i, hasher)
  }

  /** The genesis block on its own is a valid chain. */
  lemma GenesisIsValid(hasher: Hasher)
    ensures ValidChain([Genesis(hasher)], hasher)
  {
  }

  /** Only the previous hash of the first block is looked at. */
  lemma FirstBlockUnchecked(b: Block, hasher: Hasher)
    ensures ValidChain([b], hasher) <==> b.prevHash == "0"
  {
  }

  /** A chain extended by one block is valid iff the chain is valid and the block passes `add_block`'s checks. */
  lemma ValidChainSnoc(c: seq<Block>, b: Block, hasher: Hasher)
    requires |c| > 0
    ensures ValidChain(c + [b], hasher) <==> ValidChain(c, hasher) && CanAppend(c, b, b.hash, hasher)
  {
    var c' := c + [b];
    forall i | 1 <= i < |c|
      ensures LinkedAt(c', i, hasher) == LinkedAt(c, i, hasher)
    {
      assert c'[i] == c[i] && c'[i - 1] == c[i - 1];
    }
    assert c'[|c|] == b && c'[|c| - 1] == c[|c| - 1];
    if ValidChain(c', hasher) {
      assert LinkedAt(c', |c|, hasher);
    }
  }

  /** `add_block` keeps a chain valid: the stored block carries the checked hash. */
  lemma AddBlockPreservesValidity(c: seq<Block>, b: Block, h: string, hasher: Hasher)
    requires ValidChain(c, hasher) && CanAppend(c, b, h, hasher)
    ensures ValidChain(c + [b.(hash := h)], hasher)
  {
    GenerateHashIgnoresStoredHash(b, h, hasher);
    ValidChainSnoc(c, b.(hash := h), hasher);
  }

  /** Every non-empty prefix of a valid chain is valid. */
  lemma ValidChainPrefix(c: seq<Block>, n: int, hasher: Hasher)
    requires ValidChain(c, hasher) && 1 <= n <= |c|
    ensures ValidChain(c[..n], hasher)
  {
    forall i | 1 <= i < n
      ensures LinkedAt(c[..n], i, hasher)
    {
      assert LinkedAt(c, i, hasher);
      assert c[..n][i] == c[i] && c[..n][i - 1] == c[i - 1];
    }
  }

  /**
   * A chain is valid exactly when it is what successive `add_block` calls
   * build from a first block whose previous hash is "0": each block passes
   * `add_block`'s checks against the prefix before it.
   */
  lemma ValidChainIsReplay(c: seq<Block>, hasher: Hasher)
    ensures ValidChain(c, hasher) <==>
      |c| > 0 && c[0].prevHash == "0" && forall n :: 1 <= n < |c| ==> CanAppend(c[..n], c[n], c[n].hash, hasher)
  {
    if |c| > 0 {
      forall n | 1 <= n < |c|
        ensures CanAppend(c[..n], c[n], c[n].hash, hasher) == LinkedAt(c, n, hasher)
      {
        assert c[..n][n - 1] == c[n - 1];
      }
    }
  }

  /** The block `c` at nonce `n`, hashed. */
  function HashAtNonce(b: Block, n: int, hasher: Hasher): string {
    GenerateHash(b.(nonce := n), hasher)
  }

  /** Some nonce from 0 upward gives the block a hash that meets the difficulty. */
  ghost predicate Solvable(b: Block, hasher: Hasher) {
    exists n: nat :: MeetsDifficulty(HashAtNonce(b, n, hasher))
  }

  // ---------------------------------------------------------------------
  // Balances
  // ---------------------------------------------------------------------

  /** Python's `s[1:]`. */
  function Tail<T>(s: seq<T>): seq<T> {
    if |s| == 0 then [] else s[1..]
  }

  /** The change one entry makes to `p`'s balance; entries that are not Transactions count for nothing. */
  function EntryDelta(e: Entry, p: string): int {
    match e
    case Raw(_) => 0
    case Tx(t) =>
      (if t.sender == p then -(t.amount + t.fee) else 0) + (if t.receiver == p then t.amount else 0)
  }

  function BlockDelta(es: seq<Entry>, p: string): int {
    if |es| == 0 then 0 else BlockDelta(es[..|es| - 1], p) + EntryDelta(es[|es| - 1], p)
  }

  function ChainDelta(bs: seq<Block>, p: string): int {
    if |bs| == 0 then 0 else ChainDelta(bs[..|bs| - 1], p) + BlockDelta(bs[|bs| - 1].transactions, p)
  }

  /** `get_balance`: the initial balance replayed over every block after the first. */
  function Balance(chain: seq<Block>, p: string): int {
    InitialBalance + ChainDelta(Tail(chain), p)
  }

  /** What `p` has sent in `txs`: the sum of `amount + fee` over the transactions whose sender is `p`. */
  function Sent(txs: seq<Transaction>, p: string): int {
    if |txs| == 0 then 0
    else Sent(txs[..|txs| - 1], p) + (if txs[|txs| - 1].sender == p then txs[|txs| - 1].amount + txs[|txs| - 1].fee else 0)
  }

  /** What `p` has received in `txs`. */
  function Received(txs: seq<Transaction>, p: string): int {
    if |txs| == 0 then 0
    else Received(txs[..|txs| - 1], p) + (if txs[|txs| - 1].receiver == p then txs[|txs| - 1].amount else 0)
  }

  /** `get_balance_with_mempool`: the chain balance net of what `p` has pending in the mempool. */
  function BalanceWithMempool(chain: seq<Block>, p: string, mempool: seq<Transaction>): int {
    Balance(chain, p) - Sent(mempool, p)
  }

  /** The Transactions among a block's entries, in order. */
  function TxsOf(es: seq<Entry>): seq<Transaction> {
    if |es| == 0 then []
    else TxsOf(es[..|es| - 1]) + (if es[|es| - 1].Tx? then [es[|es| - 1].tx] else [])
  }

  /** Every Transaction on a list of blocks, in chain order. */
  function ChainTxs(bs: seq<Block>): seq<Transaction> {
    if |bs| == 0 then [] else ChainTxs(bs[..|bs| - 1]) + TxsOf(bs[|bs| - 1].transactions)
  }

  lemma {:induction false} SentAppend(a: seq<Transaction>, b: seq<Transaction>, p: string)
    ensures Sent(a + b, p) == Sent(a, p) + Sent(b, p)
    ensures Received(a + b, p) == Received(a, p) + Received(b, p)
    decreases |b|
  {
    if |b| > 0 {
      var b' := b[..|b| - 1];
      assert (a + b)[..|a + b| - 1] == a + b';
      assert (a + b)[|a + b| - 1] == b[|b| - 1];
      SentAppend(a, b', p);
    } else {
      assert a + b == a;
    }
  }

  lemma {:induction false} BlockDeltaIsReceivedMinusSent(es: seq<Entry>, p: string)
    ensures BlockDelta(es, p) == Received(TxsOf(es), p) - Sent(TxsOf(es), p)
  {
    if |es| > 0 {
      var es' := es[..|es| - 1];
      BlockDeltaIsReceivedMinusSent(es', p);
      var last := if es[|es| - 1].Tx? then [es[|es| - 1].tx] else [];
      SentAppend(TxsOf(es'), last, p);
      if es[|es| - 1].Tx? {
        assert last[..0] == [];
      }
    }
  }

  lemma {:induction false} ChainDeltaIsReceivedMinusSent(bs: seq<Block>, p: string)
    ensures ChainDelta(bs, p) == Received(ChainTxs(bs), p) - Sent(ChainTxs(bs), p)
  {
    if |bs| > 0 {
      var bs' := bs[..|bs| - 1];
      ChainDeltaIsReceivedMinusSent(bs', p);
      BlockDeltaIsReceivedMinusSent(bs[|bs| - 1].transactions, p);
      SentAppend(ChainTxs(bs'), TxsOf(bs[|bs| - 1].transactions), p);
    }
  }

  /**
   * The balance is 100, plus everything received, minus `amount + fee` of
   * everything sent, over the Transactions of every block after the first.
   */
  lemma BalanceIsReceivedMinusSent(chain: seq<Block>, p: string)
    ensures Balance(chain, p) == InitialBalance + Received(ChainTxs(Tail(chain)), p) - Sent(ChainTxs(Tail(chain)), p)
  {
    ChainDeltaIsReceivedMinusSent(Tail(chain), p);
  }

  /** Appending a block changes a balance by that block's own transactions only. */
  lemma BalanceAfterAppend(chain: seq<Block>, b: Block, p: string)
    requires |chain| > 0
    ensures Balance(chain + [b], p) == Balance(chain, p) + BlockDelta(b.transactions, p)
  {
    var t := Tail(chain + [b]);
    assert t == Tail(chain) + [b];
    assert t[..|t| - 1] == Tail(chain);
  }

  lemma {:induction false} SentNonNegative(txs: seq<Transaction>, p: string)
    requires forall t :: t in txs ==> t.amount >= 0 && t.fee >= 0
    ensures Sent(txs, p) >= 0
  {
    if |txs| > 0 {
      assert txs[|txs| - 1] in txs;
      assert forall t :: t in txs[..|txs| - 1] ==> t in txs;
      SentNonNegative(txs[..|txs| - 1], p);
    }
  }

  /** With non-negative amounts and fees pending, the mempool-adjusted balance never exceeds the chain balance. */
  lemma MempoolBalanceAtMostBalance(chain: seq<Block>, p: string, mempool: seq<Transaction>)
    requires forall t :: t in mempool ==> t.amount >= 0 && t.fee >= 0
    ensures BalanceWithMempool(chain, p, mempool) <= Balance(chain, p)
  {
    SentNonNegative(mempool, p);
  }

  /**
   * The two-node scenario: after a block holding a reward to `m` and a
   * transfer of 10 with fee 1 from `a` to `b`, `a` has 89, `b` 110 and the
   * miner 100 + 10 + 1.
   */
  lemma TransferScenario(hasher: Hasher, a: string, b: string, m: string, blk: Block, tx: Transaction, reward: Transaction)
    requires a != b && a != m && b != m && Coinbase !in {a, b, m}
    requires tx.sender == a && tx.receiver == b && tx.amount == 10 && tx.fee == 1
    requires reward == RewardTransaction(m, MiningReward, tx.fee, reward.txId, reward.timestamp)
    requires blk.transactions == [Tx(reward), Tx(tx)]
    ensures Balance([Genesis(hasher), blk], a) == 89
    ensures Balance([Genesis(hasher), blk], b) == 110
    ensures Balance([Genesis(hasher), blk], m) == 111
  {
    var c := [Genesis(hasher), blk];
    var es := blk.transactions;
    assert Tail(c) == [blk] && [blk][..0] == [];
    assert es[..1] == [Tx(reward)] && es[..1][..0] == [];
    forall p | p in {a, b, m}
      ensures Balance(c, p) == InitialBalance + EntryDelta(Tx(reward), p) + EntryDelta(Tx(tx), p)
    {
      assert ChainDelta(Tail(c), p) == ChainDelta([], p) + BlockDelta(es, p);
      assert BlockDelta(es, p) == BlockDelta(es[..1], p) + EntryDelta(Tx(tx), p);
      assert BlockDelta(es[..1], p) == BlockDelta([], p) + EntryDelta(Tx(reward), p);
    }
    assert a in {a, b, m} && b in {a, b, m} && m in {a, b, m};
  }

  // ---------------------------------------------------------------------
  // The chain object
  // ---------------------------------------------------------------------

  class Blockchain {
    /** The block hash function, the same on every node. */
    const hasher: Hasher
    var chain: seq<Block>

    /** The chain always passes `is_valid_chain`; in particular it is never empty. */
    ghost predicate Valid()
      reads this
    {
      ValidChain(chain, hasher)
    }

    constructor (hasher: Hasher)
      ensures Valid()
      ensures this.hasher == hasher && chain == [Genesis(hasher)]
    {
      this.hasher := hasher;
      chain := [Genesis(hasher)];
    }

    /** `last_block`: the tip. */
    method LastBlock() returns (b: Block)
      requires Valid()
      ensures b == chain[|chain| - 1]
    {
      b := chain[|chain| - 1];
    }

    /**
     * `add_block`: appends `b` with its hash set to `h` when `b` links to
     * the tip and `h` is a valid proof of work for it; otherwise nothing
     * changes.
     */
    method AddBlock(b: Block, h: string) returns (ok: bool)
      requires Valid()
      modifies this
      ensures Valid()
      ensures ok == CanAppend(old(chain), b, h, hasher)
      ensures chain == if ok then old(chain) + [b.(hash := h)] else old(chain)
    {
      var prevHash := chain[|chain| - 1].hash;
      if prevHash != b.prevHash {
        return false;
      }
      if !IsValidBlock(b, h, hasher) {
        return false;
      }
      AddBlockPreservesValidity(chain, b, h, hasher);
      chain := chain + [b.(hash := h)];
      return true;
    }

    /** `is_valid_chain`: an index loop that stops at the first failed check. */
    method IsValidChain(c: seq<Block>) returns (ok: bool)
      ensures ok == ValidChain(c, hasher)
    {
      if |c| == 0 {
        return false;
      }
      if c[0].prevHash != "0" {
        return false;
      }
      var i := 1;
      while i < |c|
        invariant 1 <= i <= |c|
        invariant forall j :: 1 <= j < i ==> LinkedAt(c, j, hasher)
      {
        var curr, prev := c[i], c[i - 1];
        if curr.prevHash != prev.hash {
          assert !LinkedAt(c, i, hasher);
          return false;
        }
        if !MeetsDifficulty(curr.hash) {
          assert !LinkedAt(c, i, hasher);
          return false;
        }
        if GenerateHash(curr, hasher) != curr.hash {
          assert !LinkedAt(c, i, hasher);
          return false;
        }
        i := i + 1;
      }
      return true;
    }

    /**
     * `replace_chain`, the longest-chain rule: adopt `newChain` only when it
     * is strictly longer and valid; there is no tie-break.
     */
    method ReplaceChain(newChain: seq<Block>) returns (ok: bool)
      requires Valid()
      modifies this
      ensures Valid()
      ensures ok == (|newChain| > |old(chain)| && ValidChain(newChain, hasher))
      ensures chain == if ok then newChain else old(chain)
      ensures |chain| >= |old(chain)|
    {
      ok := false;
      if |newChain| > |chain| {
        ok := IsValidChain(newChain);
        if ok {
          chain := newChain;
        }
      }
    }

    /**
     * `proof_of_work`: counts the nonce up from 0 until the hash meets the
     * difficulty. The source mutates the block's nonce; here the block with
     * the final nonce is returned. The search ends only if some nonce works.
     */
    method ProofOfWork(b: Block) returns (h: string, solved: Block)
      requires Solvable(b, hasher)
      ensures solved == b.(nonce := solved.nonce) && solved.nonce >= 0
      ensures MeetsDifficulty(h) && h == GenerateHash(solved, hasher)
      ensures forall n :: 0 <= n < solved.nonce ==> !MeetsDifficulty(HashAtNonce(b, n, hasher))
    {
      ghost var w: nat :| MeetsDifficulty(HashAtNonce(b, w, hasher));
      solved := b.(nonce := 0);
      h := GenerateHash(solved, hasher);
      while !MeetsDifficulty(h)
        invariant 0 <= solved.nonce <= w
        invariant solved == b.(nonce := solved.nonce)
        invariant h == GenerateHash(solved, hasher)
        invariant forall n :: 0 <= n < solved.nonce ==> !MeetsDifficulty(HashAtNonce(b, n, hasher))
        decreases w - solved.nonce
      {
        solved := solved.(nonce := solved.nonce + 1);
        h := GenerateHash(solved, hasher);
      }
    }

    /** `get_balance`: replay every Transaction of the blocks after the first. */
    method GetBalance(p: string) returns (balance: int)
      ensures balance == Balance(chain, p)
    {
      balance := InitialBalance;
      var blocks := Tail(chain);
      var i := 0;
      while i < |blocks|
        invariant 0 <= i <= |blocks|
        invariant balance == InitialBalance + ChainDelta(blocks[..i], p)
      {
        var txs := blocks[i].transactions;
        var j := 0;
        while j < |txs|
          invariant 0 <= j <= |txs|
          invariant balance == InitialBalance + ChainDelta(blocks[..i], p) + BlockDelta(txs[..j], p)
        {
          var e := txs[j];
          if e.Tx? {
            if e.tx.sender == p {
              balance := balance - (e.tx.amount + e.tx.fee);
            }
            if e.tx.receiver == p {
              balance := balance + e.tx.amount;
            }
          }
          assert txs[..j + 1][..j] == txs[..j];
          j := j + 1;
        }
        assert txs[..j] == txs;
        assert blocks[..i + 1][..i] == blocks[..i];
        i := i + 1;
      }
      assert blocks[..i] == blocks;
    }

    /** `get_balance_with_mempool`: the chain balance minus `amount + fee` of each pending transaction `p` sent. */
    method GetBalanceWithMempool(p: string, mempool: seq<Transaction>) returns (balance: int)
      ensures balance == BalanceWithMempool(chain, p, mempool)
    {
      balance := GetBalance(p);
      var i := 0;
      while i < |mempool|
        invariant 0 <= i <= |mempool|
        invariant balance == Balance(chain, p) - Sent(mempool[..i], p)
      {
        var tx := mempool[i];
        if tx.sender == p {
          balance := balance - (tx.amount + tx.fee);
        }
        assert mempool[..i + 1][..i] == mempool[..i];
        i := i + 1;
      }
      assert mempool[..i] == mempool;
    }
  }
}
