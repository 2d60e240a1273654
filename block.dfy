/**
 * Blocks (Block.py). A block's transaction list holds Transaction objects
 * and, in the genesis block, plain dictionaries; `Entry` keeps the two apart
 * the way the source's `isinstance(tx, Transaction)` tests do.
 */
module Blocks {
  import opened Wrappers
  import opened Json
  import opened JsonFields
  import opened Transactions

  datatype Entry = Tx(tx: Transaction) | Raw(value: Value)

  datatype Block = Block(
    index: int,
    timestamp: real,
    transactions: seq<Entry>,
    prevHash: string,
    nonce: int,
    hash: string)

  /** SHA-256 of the sorted-key JSON text of a value, left uninterpreted. */
  type Hasher = Value -> string

  /** An entry as it appears in a dictionary: a Transaction by its `to_dict`, anything else as is. */
  function EntryValue(e: Entry): Value {
    match e
    case Tx(t) => Transactions.ToDict(t)
    case Raw(v) => v
  }

  function EntryValues(es: seq<Entry>): (vs: seq<Value>)
    ensures |vs| == |es|
    ensures forall k :: 0 <= k < |es| ==> vs[k] == EntryValue(es[k])
  {
    seq(|es|, k requires 0 <= k < |es| => EntryValue(es[k]))
  }

  /** The dictionary that is hashed: every field except the stored hash. */
  function HashInput(b: Block): (d: Value)
    ensures d.Obj? && d.fields.Keys == {"index", "timestamp", "transactions", "prev_hash", "nonce"}
  {
    Obj(map[
      "index" := Int(b.index),
      "timestamp" := Real(b.timestamp),
      "transactions" := Arr(EntryValues(b.transactions)),
      "prev_hash" := Str(b.prevHash),
      "nonce" := Int(b.nonce)])
  }

  /** `generate_hash`: the hash of the hashed dictionary. */
  function GenerateHash(b: Block, hasher: Hasher): string {
    hasher(HashInput(b))
  }

  /** Changing the stored hash does not change the generated one. */
  lemma GenerateHashIgnoresStoredHash(b: Block, h: string, hasher: Hasher)
    ensures GenerateHash(b.(hash := h), hasher) == GenerateHash(b, hasher)
  {
  }

  /**
   * The constructor: a missing timestamp is the current time (`is None`, so
   * 0 is kept) and a missing hash is the block's own generated hash.
   */
  function NewBlock(
    index: int, txs: seq<Entry>, prevHash: string, timestamp: Option<real>,
    nonce: int, hashVal: Option<string>, now: real, hasher: Hasher): (b: Block)
    ensures b.index == index && b.transactions == txs && b.prevHash == prevHash && b.nonce == nonce
    ensures b.timestamp == (if timestamp.Some? then timestamp.value else now)
    ensures hashVal.Some? ==> b.hash == hashVal.value
    ensures hashVal.None? ==> b.hash == GenerateHash(b, hasher)
  {
    var unhashed := Block(index, if timestamp.Some? then timestamp.value else now, txs, prevHash, nonce, "");
    unhashed.(hash := if hashVal.Some? then hashVal.value else GenerateHash(unhashed, hasher))
  }

  /**
   * The signatures of a block's transactions are hashed: replacing one
   * transaction's signature by a different one changes the hashed value.
   */
  lemma SignatureChangesHashInput(b: Block, k: nat, s: Option<string>)
    requires k < |b.transactions| && b.transactions[k].Tx?
    requires s != b.transactions[k].tx.signature
    ensures HashInput(b.(transactions := b.transactions[k := Tx(b.transactions[k].tx.(signature := s))]))
         != HashInput(b)
  {
    var t := b.transactions[k].tx;
    var b' := b.(transactions := b.transactions[k := Tx(t.(signature := s))]);
    if HashInput(b') == HashInput(b) {
      assert HashInput(b').fields["transactions"] == HashInput(b).fields["transactions"];
      assert EntryValues(b'.transactions)[k] == EntryValues(b.transactions)[k];
      ToDictInjective(t.(signature := s), t);
      assert false;
    }
  }

  /** `to_dict`: the hashed dictionary plus the stored hash. */
  function ToDict(b: Block): (d: Value)
    ensures d.Obj? && d.fields.Keys == {"index", "timestamp", "transactions", "prev_hash", "nonce", "hash"}
    ensures d.fields["hash"] == Str(b.hash) && d.fields - {"hash"} == HashInput(b).fields
  {
    Obj(map[
      "index" := Int(b.index),
      "timestamp" := Real(b.timestamp),
      "transactions" := Arr(EntryValues(b.transactions)),
      "prev_hash" := Str(b.prevHash),
      "nonce" := Int(b.nonce),
      "hash" := Str(b.hash)])
  }

  /** Only a dictionary holding a `tx_id` key is read as a Transaction. */
  predicate LooksLikeTransaction(v: Value) {
    v.Obj? && "tx_id" in v.fields
  }

  function DecodeEntry(v: Value, freshId: string, now: real): (r: Result<Entry, DecodeError>)
    ensures !LooksLikeTransaction(v) ==> r == Ok(Raw(v))
    ensures LooksLikeTransaction(v) && r.Ok? ==> r.value.Tx? && Transactions.FromDict(v, freshId, now) == Ok(r.value.tx)
    ensures LooksLikeTransaction(v) ==> (r.Err? <==> Transactions.FromDict(v, freshId, now).Err?)
  {
    if LooksLikeTransaction(v) then
      var t :- Transactions.FromDict(v, freshId, now);
      Ok(Tx(t))
    else Ok(Raw(v))
  }

  /** Decoding `vs[from..]`; the entry at position `k` takes `ids(k)` as its fresh uuid. */
  function DecodeEntries(vs: seq<Value>, from: nat, ids: nat -> string, now: real): (r: Result<seq<Entry>, DecodeError>)
    requires from <= |vs|
    ensures r.Ok? ==> |r.value| == |vs| - from
    ensures r.Ok? ==> forall k :: from <= k < |vs| ==> DecodeEntry(vs[k], ids(k), now) == Ok(r.value[k - from])
    decreases |vs| - from
  {
    if from == |vs| then Ok([])
    else
      var e :- DecodeEntry(vs[from], ids(from), now);
      var rest :- DecodeEntries(vs, from + 1, ids, now);
      Ok([e] + rest)
  }

  /**
   * `from_dict`: `transactions`, `index` and `prev_hash` are required; a
   * missing timestamp is the current time, a missing nonce 0, and a missing
   * hash the generated one.
   */
  function FromDict(d: Value, ids: nat -> string, now: real, hasher: Hasher): (r: Result<Block, DecodeError>)
    ensures r.Ok? ==> d.Obj? && {"transactions", "index", "prev_hash"} <= d.fields.Keys
    ensures r.Ok? && ("hash" !in d.fields || d.fields["hash"] == Null) ==> r.value.hash == GenerateHash(r.value, hasher)
    ensures r.Ok? && "hash" in d.fields && d.fields["hash"].Str? ==> r.value.hash == d.fields["hash"].s
    ensures r.Ok? ==> (d.fields["transactions"].Arr?
      && |r.value.transactions| == |d.fields["transactions"].items|
      && forall k :: 0 <= k < |r.value.transactions| && !LooksLikeTransaction(d.fields["transactions"].items[k])
           ==> r.value.transactions[k] == Raw(d.fields["transactions"].items[k]))
  {
    if !d.Obj? then Err(NotAnObject)
    else
      var f := d.fields;
      var txValues :- RequireArr(f, "transactions");
      var txs :- DecodeEntries(txValues, 0, ids, now);
      var index :- RequireInt(f, "index");
      var prevHash :- RequireStr(f, "prev_hash");
      var timestamp :- GetNumber(f, "timestamp");
      var nonce :- IntOr(f, "nonce", 0);
      var hashVal :- GetStr(f, "hash");
      Ok(NewBlock(index, txs, prevHash, timestamp, nonce, hashVal, now, hasher))
  }

  /** The defaults `from_dict` fills in: nonce 0 and the current time. */
  lemma FromDictDefaults(d: Value, ids: nat -> string, now: real, hasher: Hasher)
    requires FromDict(d, ids, now, hasher).Ok?
    ensures "nonce" !in d.fields ==> FromDict(d, ids, now, hasher).value.nonce == 0
    ensures "nonce" in d.fields && d.fields["nonce"].Int? ==> FromDict(d, ids, now, hasher).value.nonce == d.fields["nonce"].i
    ensures "timestamp" !in d.fields ==> FromDict(d, ids, now, hasher).value.timestamp == now
    ensures "timestamp" in d.fields && d.fields["timestamp"].Real? ==> FromDict(d, ids, now, hasher).value.timestamp == d.fields["timestamp"].r
    ensures FromDict(d, ids, now, hasher).value.index == d.fields["index"].i
    ensures FromDict(d, ids, now, hasher).value.prevHash == d.fields["prev_hash"].s
  {
  }

  /** The entries whose dictionary form decodes back to themselves. */
  predicate EntriesRoundTrip(es: seq<Entry>) {
    forall k :: 0 <= k < |es| ==>
      match es[k]
      case Tx(t) => t.txId != "" && t.timestamp != 0.0
      case Raw(v) => !LooksLikeTransaction(v)
  }

  lemma {:induction false} DecodeEntriesOfValues(es: seq<Entry>, from: nat, ids: nat -> string, now: real)
    requires from <= |es| && EntriesRoundTrip(es)
    ensures DecodeEntries(EntryValues(es), from, ids, now) == Ok(es[from..])
    decreases |es| - from
  {
    if from < |es| {
      var vs := EntryValues(es);
      match es[from] {
        case Tx(t) =>
          FromDictOfToDict(t, ids(from), now);
          assert DecodeEntry(vs[from], ids(from), now) == Ok(es[from]);
        case Raw(v) =>
          assert DecodeEntry(vs[from], ids(from), now) == Ok(es[from]);
      }
      DecodeEntriesOfValues(es, from + 1, ids, now);
      assert es[from..] == [es[from]] + es[from + 1..];
    } else {
      assert |EntryValues(es)| == from && es[from..] == [];
      assert DecodeEntries(EntryValues(es), from, ids, now) == Ok([]);
    }
  }

  /**
   * `from_dict(to_dict(b))` is `b` when its transactions round-trip: every
   * Transaction has a non-empty id and a non-zero timestamp, and no other
   * entry is a dictionary with a `tx_id` key.
   */
  lemma RoundTrip(b: Block, ids: nat -> string, now: real, hasher: Hasher)
    requires EntriesRoundTrip(b.transactions)
    ensures FromDict(ToDict(b), ids, now, hasher) == Ok(b)
  {
    var f := ToDict(b).fields;
    assert f["transactions"] == Arr(EntryValues(b.transactions));
    DecodeEntriesOfValues(b.transactions, 0, ids, now);
    assert b.transactions[0..] == b.transactions;
    assert f["index"] == Int(b.index);
    assert f["prev_hash"] == Str(b.prevHash);
    assert f["timestamp"] == Real(b.timestamp);
    assert f["nonce"] == Int(b.nonce);
    assert f["hash"] == Str(b.hash);
  }
}
