/**
 * The list logic behind a node's mempool (Node.py): membership by
 * transaction id (Transaction equality), removal of included transactions,
 * the ids and id-to-transaction maps collected from a chain, and the
 * fee-ordered selection of transactions for a block.
 */
module MempoolRules {
  import opened Transactions
  import opened Blocks
  import opened Chain

  /** `tx in mempool`: some entry has the same id. */
  predicate InPool(m: seq<Transaction>, id: string) {
    exists i :: 0 <= i < |m| && m[i].txId == id
  }

  /** Membership by id is the source's `tx in mempool`, which compares with `__eq__`. */
  lemma InPoolIsEqMember(m: seq<Transaction>, t: Transaction)
    ensures InPool(m, t.txId) <==> exists u :: u in m && Eq(u, t)
  {
    if InPool(m, t.txId) {
      var i :| 0 <= i < |m| && m[i].txId == t.txId;
      assert m[i] in m && Eq(m[i], t);
    }
  }

  /** No two entries share an id. */
  predicate DistinctIds(m: seq<Transaction>) {
    forall i, j :: 0 <= i < j < |m| ==> m[i].txId != m[j].txId
  }

  function IdSet(txs: seq<Transaction>): set<string> {
    set t | t in txs :: t.txId
  }

  lemma InPoolIsIdSet(m: seq<Transaction>, id: string)
    ensures InPool(m, id) <==> id in IdSet(m)
  {
    if id in IdSet(m) {
      var t :| t in m && t.txId == id;
      var i :| 0 <= i < |m| && m[i] == t;
    }
  }

  lemma IdSetAppend(a: seq<Transaction>, b: seq<Transaction>)
    ensures IdSet(a + b) == IdSet(a) + IdSet(b)
  {
    forall id | id in IdSet(a + b)
      ensures id in IdSet(a) + IdSet(b)
    {
      var t :| t in a + b && t.txId == id;
    }
    forall id | id in IdSet(a) + IdSet(b)
      ensures id in IdSet(a + b)
    {
      if id in IdSet(a) {
        var t :| t in a && t.txId == id;
        assert t in a + b;
      } else {
        var t :| t in b && t.txId == id;
        assert t in a + b;
      }
    }
  }

  /** Appending an entry whose id is not yet present keeps the ids distinct. */
  lemma AppendFreshDistinct(m: seq<Transaction>, t: Transaction)
    requires DistinctIds(m) && !InPool(m, t.txId)
    ensures DistinctIds(m + [t])
  {
    var m' := m + [t];
    forall i, j | 0 <= i < j < |m'|
      ensures m'[i].txId != m'[j].txId
    {
      assert m'[i] == m[i];
      if j < |m| {
        assert m'[j] == m[j];
      }
    }
  }

  /** `a` is `b` with some elements left out, the rest in their order. */
  predicate IsSubsequence<T(==)>(a: seq<T>, b: seq<T>)
    decreases |b|
  {
    |a| == 0 || (|b| > 0 && ((a[0] == b[0] && IsSubsequence(a[1..], b[1..])) || IsSubsequence(a, b[1..])))
  }

  /** The entries of `m` whose ids are not in `ids`, in their order. */
  function WithoutIds(m: seq<Transaction>, ids: set<string>): (r: seq<Transaction>)
    ensures |r| <= |m|
    ensures forall i :: 0 <= i < |r| ==> r[i].txId !in ids
  {
    if |m| == 0 then []
    else (if m[0].txId in ids then [] else [m[0]]) + WithoutIds(m[1..], ids)
  }

  /** The filter keeps exactly the entries whose id is not among `ids`. */
  lemma {:induction false} WithoutIdsMembers(m: seq<Transaction>, ids: set<string>)
    ensures forall t :: t in WithoutIds(m, ids) <==> t in m && t.txId !in ids
  {
    if |m| > 0 {
      WithoutIdsMembers(m[1..], ids);
      assert m == [m[0]] + m[1..];
    }
  }

  /** The filter keeps the other entries in their relative order. */
  lemma {:induction false} WithoutIdsKeepsOrder(m: seq<Transaction>, ids: set<string>)
    ensures IsSubsequence(WithoutIds(m, ids), m)
  {
    if |m| > 0 {
      WithoutIdsKeepsOrder(m[1..], ids);
      var r := WithoutIds(m, ids);
      if m[0].txId !in ids {
        assert r[0] == m[0] && r[1..] == WithoutIds(m[1..], ids);
      } else {
        assert r == WithoutIds(m[1..], ids);
      }
    }
  }

  lemma {:induction false} WithoutIdsDistinct(m: seq<Transaction>, ids: set<string>)
    requires DistinctIds(m)
    ensures DistinctIds(WithoutIds(m, ids))
  {
    if |m| > 0 {
      var rest := WithoutIds(m[1..], ids);
      WithoutIdsDistinct(m[1..], ids);
      WithoutIdsMembers(m[1..], ids);
      if m[0].txId !in ids {
        var r := [m[0]] + rest;
        forall i, j | 0 <= i < j < |r|
          ensures r[i].txId != r[j].txId
        {
          if i == 0 {
            assert r[j] == rest[j - 1] && rest[j - 1] in rest;
            assert r[j] in m[1..];
            var k :| 0 <= k < |m[1..]| && m[1..][k] == r[j];
            assert m[k + 1] == r[j] && r[0] == m[0];
          } else {
            assert r[i] == rest[i - 1] && r[j] == rest[j - 1];
          }
        }
      }
    }
  }

  /** Filtering twice is filtering once by both sets. */
  lemma {:induction false} WithoutIdsTwice(m: seq<Transaction>, a: set<string>, b: set<string>)
    ensures WithoutIds(WithoutIds(m, a), b) == WithoutIds(m, a + b)
  {
    if |m| > 0 {
      WithoutIdsTwice(m[1..], a, b);
      if m[0].txId !in a {
        var w := WithoutIds(m, a);
        assert w == [m[0]] + WithoutIds(m[1..], a);
        assert w[0] == m[0] && w[1..] == WithoutIds(m[1..], a);
        assert WithoutIds(w, b) == (if m[0].txId in b then [] else [m[0]]) + WithoutIds(w[1..], b);
        assert WithoutIds(m, a + b) == (if m[0].txId in b then [] else [m[0]]) + WithoutIds(m[1..], a + b);
      } else {
        assert WithoutIds(m, a) == WithoutIds(m[1..], a);
        assert WithoutIds(m, a + b) == WithoutIds(m[1..], a + b);
      }
    }
  }

  /** `list.remove`: drop the first entry with the given id (the source tests membership first). */
  function RemoveFirst(m: seq<Transaction>, id: string): (r: seq<Transaction>)
    ensures !InPool(m, id) ==> r == m
    ensures InPool(m, id) ==> |r| == |m| - 1
  {
    if |m| == 0 then []
    else if m[0].txId == id then m[1..]
    else [m[0]] + RemoveFirst(m[1..], id)
  }

  lemma {:induction false} WithoutAbsentIds(m: seq<Transaction>, ids: set<string>)
    requires forall i :: 0 <= i < |m| ==> m[i].txId !in ids
    ensures WithoutIds(m, ids) == m
  {
    if |m| > 0 {
      WithoutAbsentIds(m[1..], ids);
    }
  }

  /** With distinct ids, removing the first match removes every match. */
  lemma {:induction false} RemoveFirstIsFilter(m: seq<Transaction>, id: string)
    requires DistinctIds(m)
    ensures RemoveFirst(m, id) == WithoutIds(m, {id})
  {
    if |m| > 0 {
      if m[0].txId == id {
        forall i | 0 <= i < |m[1..]|
          ensures m[1..][i].txId !in {id}
        {
          assert m[1..][i] == m[i + 1];
        }
        WithoutAbsentIds(m[1..], {id});
      } else {
        RemoveFirstIsFilter(m[1..], id);
      }
    }
  }

  // ---------------------------------------------------------------------
  // Ids and transactions collected from a chain
  // ---------------------------------------------------------------------

  /** The ids of every Transaction on a list of blocks. */
  function ChainTxIds(bs: seq<Block>): set<string> {
    IdSet(ChainTxs(bs))
  }

  /** `d[tx.tx_id] = tx` over a list of transactions: the last one with an id wins. */
  function TxMapOf(txs: seq<Transaction>): map<string, Transaction> {
    if |txs| == 0 then map[]
    else TxMapOf(txs[..|txs| - 1])[txs[|txs| - 1].txId := txs[|txs| - 1]]
  }

  /** The id-to-transaction map over every Transaction on a list of blocks. */
  function TxMap(bs: seq<Block>): map<string, Transaction> {
    TxMapOf(ChainTxs(bs))
  }

  lemma TxsOfStep(es: seq<Entry>, j: nat)
    requires j < |es|
    ensures TxsOf(es[..j + 1]) == TxsOf(es[..j]) + (if es[j].Tx? then [es[j].tx] else [])
  {
    assert es[..j + 1][..j] == es[..j];
  }

  lemma ChainTxsStep(bs: seq<Block>, i: nat)
    requires i < |bs|
    ensures ChainTxs(bs[..i + 1]) == ChainTxs(bs[..i]) + TxsOf(bs[i].transactions)
  {
    assert bs[..i + 1][..i] == bs[..i];
  }

  lemma TxMapOfSnoc(txs: seq<Transaction>, t: Transaction)
    ensures TxMapOf(txs + [t]) == TxMapOf(txs)[t.txId := t]
  {
    assert (txs + [t])[..|txs|] == txs;
  }

  /** The map has exactly the ids of the list as keys, and maps each id to a transaction of the list with that id. */
  lemma {:induction false} TxMapOfFacts(txs: seq<Transaction>)
    ensures TxMapOf(txs).Keys == IdSet(txs)
    ensures forall id :: id in TxMapOf(txs) ==> TxMapOf(txs)[id].txId == id && TxMapOf(txs)[id] in txs
  {
    if |txs| > 0 {
      var init := txs[..|txs| - 1];
      TxMapOfFacts(init);
      assert txs == init + [txs[|txs| - 1]];
      assert IdSet(txs) == IdSet(init) + {txs[|txs| - 1].txId};
    }
  }

  lemma {:induction false} TxsOfMembers(es: seq<Entry>, t: Transaction)
    ensures t in TxsOf(es) <==> exists k :: 0 <= k < |es| && es[k] == Tx(t)
  {
    if |es| > 0 {
      var init := es[..|es| - 1];
      TxsOfMembers(init, t);
      if exists k :: 0 <= k < |init| && init[k] == Tx(t) {
        var k :| 0 <= k < |init| && init[k] == Tx(t);
        assert es[k] == Tx(t);
      }
      if exists k :: 0 <= k < |es| && es[k] == Tx(t) {
        var k :| 0 <= k < |es| && es[k] == Tx(t);
        if k < |init| {
          assert init[k] == Tx(t);
        }
      }
    }
  }

  lemma {:induction false} ChainTxsMembers(bs: seq<Block>, t: Transaction)
    ensures t in ChainTxs(bs) <==> exists i :: 0 <= i < |bs| && t in TxsOf(bs[i].transactions)
  {
    if |bs| > 0 {
      var init := bs[..|bs| - 1];
      ChainTxsMembers(init, t);
      if exists i :: 0 <= i < |init| && t in TxsOf(init[i].transactions) {
        var i :| 0 <= i < |init| && t in TxsOf(init[i].transactions);
        assert bs[i] == init[i];
      }
      if exists i :: 0 <= i < |bs| && t in TxsOf(bs[i].transactions) {
        var i :| 0 <= i < |bs| && t in TxsOf(bs[i].transactions);
        if i < |init| {
          assert init[i] == bs[i];
        }
      }
    }
  }

  /** An id is among a chain's ids iff some block holds a Transaction with that id. */
  lemma ChainTxIdsAt(bs: seq<Block>, id: string)
    ensures id in ChainTxIds(bs) <==>
      exists i, k :: 0 <= i < |bs| && 0 <= k < |bs[i].transactions|
        && bs[i].transactions[k].Tx? && bs[i].transactions[k].tx.txId == id
  {
    if id in ChainTxIds(bs) {
      var t :| t in ChainTxs(bs) && t.txId == id;
      ChainTxsMembers(bs, t);
      var i :| 0 <= i < |bs| && t in TxsOf(bs[i].transactions);
      TxsOfMembers(bs[i].transactions, t);
      var k :| 0 <= k < |bs[i].transactions| && bs[i].transactions[k] == Tx(t);
    }
    if exists i, k :: 0 <= i < |bs| && 0 <= k < |bs[i].transactions|
        && bs[i].transactions[k].Tx? && bs[i].transactions[k].tx.txId == id {
      var i, k :| 0 <= i < |bs| && 0 <= k < |bs[i].transactions|
        && bs[i].transactions[k].Tx? && bs[i].transactions[k].tx.txId == id;
      var t := bs[i].transactions[k].tx;
      TxsOfMembers(bs[i].transactions, t);
      ChainTxsMembers(bs, t);
    }
  }

  // ---------------------------------------------------------------------
  // Choosing transactions for a block
  // ---------------------------------------------------------------------

  /** Place `t` before the first entry whose fee does not exceed its own. */
  function InsertByFee(t: Transaction, s: seq<Transaction>): seq<Transaction> {
    if |s| == 0 || s[0].fee <= t.fee then [t] + s
    else [s[0]] + InsertByFee(t, s[1..])
  }

  /** `sorted(..., key=fee, reverse=True)`: highest fee first, a stable sort. */
  function SortByFee(m: seq<Transaction>): (r: seq<Transaction>)
    ensures FeeDescending(r)
    ensures multiset(r) == multiset(m)
  {
    if |m| == 0 then []
    else
      var rest := SortByFee(m[1..]);
      InsertByFeeSorted(m[0], rest);
      InsertByFeeMultiset(m[0], rest);
      assert m == [m[0]] + m[1..];
      InsertByFee(m[0], rest)
  }

  predicate FeeDescending(s: seq<Transaction>) {
    forall i, j :: 0 <= i < j < |s| ==> s[i].fee >= s[j].fee
  }

  lemma {:induction false} InsertByFeeMultiset(t: Transaction, s: seq<Transaction>)
    ensures multiset(InsertByFee(t, s)) == multiset(s) + multiset{t}
  {
    if |s| > 0 && s[0].fee > t.fee {
      InsertByFeeMultiset(t, s[1..]);
      assert s == [s[0]] + s[1..];
    }
  }

  lemma {:induction false} InsertByFeeMembers(t: Transaction, s: seq<Transaction>)
    ensures forall x :: x in InsertByFee(t, s) <==> x == t || x in s
  {
    if |s| > 0 && s[0].fee > t.fee {
      InsertByFeeMembers(t, s[1..]);
      assert s == [s[0]] + s[1..];
    }
  }

  /** Every fee in `s` is at most `f`. */
  predicate FeesAtMost(s: seq<Transaction>, f: int) {
    forall i :: 0 <= i < |s| ==> s[i].fee <= f
  }

  lemma {:induction false} InsertByFeeSorted(t: Transaction, s: seq<Transaction>)
    requires FeeDescending(s)
    ensures FeeDescending(InsertByFee(t, s))
  {
    var r := InsertByFee(t, s);
    if |s| > 0 && s[0].fee > t.fee {
      var rest := InsertByFee(t, s[1..]);
      InsertByFeeSorted(t, s[1..]);
      InsertByFeeMembers(t, s[1..]);
      assert FeesAtMost(rest, s[0].fee) by {
        forall j | 0 <= j < |rest|
          ensures rest[j].fee <= s[0].fee
        {
          assert rest[j] in rest;
          if rest[j] != t {
            var k :| 0 <= k < |s[1..]| && s[1..][k] == rest[j];
            assert s[k + 1] == rest[j];
          }
        }
      }
      assert r == [s[0]] + rest;
      ConsSorted(s[0], rest);
    } else {
      assert r == [t] + s;
      assert FeesAtMost(s, t.fee);
      ConsSorted(t, s);
    }
  }

  lemma ConsSorted(x: Transaction, s: seq<Transaction>)
    requires FeeDescending(s) && FeesAtMost(s, x.fee)
    ensures FeeDescending([x] + s)
  {
    var r := [x] + s;
    forall i, j | 0 <= i < j < |r|
      ensures r[i].fee >= r[j].fee
    {
      assert r[j] == s[j - 1];
      if i > 0 {
        assert r[i] == s[i - 1];
      }
    }
  }

  /** The entries of `s` whose fee is `f`, in order. */
  function WithFee(s: seq<Transaction>, f: int): seq<Transaction> {
    if |s| == 0 then [] else (if s[0].fee == f then [s[0]] else []) + WithFee(s[1..], f)
  }

  lemma {:induction false} InsertByFeeWithFee(t: Transaction, s: seq<Transaction>, f: int)
    ensures WithFee(InsertByFee(t, s), f) == (if t.fee == f then [t] else []) + WithFee(s, f)
  {
    var r := InsertByFee(t, s);
    if |s| > 0 && s[0].fee > t.fee {
      InsertByFeeWithFee(t, s[1..], f);
      assert r == [s[0]] + InsertByFee(t, s[1..]);
      assert r[0] == s[0] && r[1..] == InsertByFee(t, s[1..]);
      assert WithFee(r, f) == (if s[0].fee == f then [s[0]] else []) + WithFee(InsertByFee(t, s[1..]), f);
      assert WithFee(s, f) == (if s[0].fee == f then [s[0]] else []) + WithFee(s[1..], f);
      assert s[0].fee != f || t.fee != f;
    } else {
      assert r == [t] + s;
      assert r[0] == t && r[1..] == s;
      assert WithFee(r, f) == (if t.fee == f then [t] else []) + WithFee(s, f);
    }
  }

  /** Stability: the entries of any one fee come out in their mempool order. */
  lemma {:induction false} SortByFeeIsStable(m: seq<Transaction>, f: int)
    ensures WithFee(SortByFee(m), f) == WithFee(m, f)
  {
    if |m| > 0 {
      SortByFeeIsStable(m[1..], f);
      InsertByFeeWithFee(m[0], SortByFee(m[1..]), f);
    }
  }

  /** Python's `s[:limit]`, a negative limit counting from the end. */
  function SliceTo(s: seq<Transaction>, limit: int): (r: seq<Transaction>)
    ensures 0 <= limit <= |s| ==> r == s[..limit]
    ensures |s| < limit ==> r == s
    ensures limit < 0 ==> r == s[..if |s| + limit < 0 then 0 else |s| + limit]
  {
    if limit >= 0 then s[..if limit < |s| then limit else |s|]
    else s[..if |s| + limit < 0 then 0 else |s| + limit]
  }

  /** `pick_transactions(limit)` as a value. */
  function Picked(m: seq<Transaction>, limit: int): (r: seq<Transaction>)
    ensures FeeDescending(r)
    ensures multiset(r) <= multiset(m)
  {
    var s := SortByFee(m);
    var r := SliceTo(s, limit);
    assert s == r + s[|r|..];
    r
  }

  /** No entry of `m` left out of `r` pays a higher fee than an entry of `r`. */
  predicate OutranksRest(r: seq<Transaction>, m: seq<Transaction>) {
    forall x, y :: x in r && y in multiset(m) - multiset(r) ==> x.fee >= y.fee
  }

  /**
   * `r` is what picking at most `limit` entries of `m` by fee should give:
   * as many as the limit allows, from `m`, highest fee first, and none left
   * behind paying more than one picked.
   */
  predicate TopByFee(r: seq<Transaction>, m: seq<Transaction>, limit: nat) {
    && |r| == (if limit < |m| then limit else |m|)
    && FeeDescending(r)
    && multiset(r) <= multiset(m)
    && OutranksRest(r, m)
  }

  /**
   * The picked transactions are the `limit` highest-fee mempool entries (all
   * of them if fewer), highest fee first: no entry left behind pays more
   * than an entry picked.
   */
  lemma PickedAreTopFees(m: seq<Transaction>, limit: int)
    requires limit >= 0
    ensures |Picked(m, limit)| == if limit < |m| then limit else |m|
    ensures FeeDescending(Picked(m, limit))
    ensures multiset(Picked(m, limit)) <= multiset(m)
    ensures OutranksRest(Picked(m, limit), m)
  {
    var s := SortByFee(m);
    assert |s| == |m| by {
      assert |multiset(s)| == |s| && |multiset(m)| == |m|;
    }
    var n := if limit < |m| then limit else |m|;
    assert Picked(m, limit) == s[..n];
    SortedPrefixOutranksRest(m, s, n);
  }

  /** The first `n` entries of a fee-descending arrangement of `m` outrank every other entry of `m`. */
  lemma SortedPrefixOutranksRest(m: seq<Transaction>, s: seq<Transaction>, n: nat)
    requires FeeDescending(s) && multiset(s) == multiset(m) && n <= |s|
    ensures OutranksRest(s[..n], m)
  {
    assert s == s[..n] + s[n..];
    assert multiset(m) - multiset(s[..n]) == multiset(s[n..]) by {
      assert multiset(s) == multiset(s[..n]) + multiset(s[n..]);
    }
    PrefixOutranks(s, n);
    forall x, y | x in s[..n] && y in multiset(m) - multiset(s[..n])
      ensures x.fee >= y.fee
    {
      assert y in s[n..];
    }
  }

  /** In a fee-descending list, nothing after position `n` pays more than anything before it. */
  lemma PrefixOutranks(s: seq<Transaction>, n: nat)
    requires FeeDescending(s) && n <= |s|
    ensures FeeDescending(s[..n])
    ensures forall x, y :: x in s[..n] && y in s[n..] ==> x.fee >= y.fee
  {
    forall x, y | x in s[..n] && y in s[n..]
      ensures x.fee >= y.fee
    {
      var i :| 0 <= i < n && s[..n][i] == x;
      var j :| 0 <= j < |s| - n && s[n..][j] == y;
      assert s[i] == x && s[n + j] == y;
    }
  }

  /** Sum of the fees of a list of transactions. */
  function SumFees(txs: seq<Transaction>): int {
    if |txs| == 0 then 0 else txs[0].fee + SumFees(txs[1..])
  }
}
