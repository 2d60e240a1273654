/**
 * Transactions of the account ledger (Transaction.py): a transfer of `amount`
 * from `sender` to `receiver` paying `fee` to the miner, identified by its
 * `txId`. Public keys are the PEM text of the key, kept as strings.
 */
module Transactions {
  import opened Wrappers
  import opened Json
  import opened JsonFields

  /** The sender and the signature of a mining reward. */
  const Coinbase: string := "COINBASE"

  datatype Transaction = Transaction(
    txId: string,
    sender: string,
    receiver: string,
    amount: int,
    fee: int,
    timestamp: real,
    signature: Option<string>)

  /** Python truthiness of an optional id: None and "" are falsy. */
  predicate IdGiven(txId: Option<string>) {
    txId.Some? && txId.value != ""
  }

  /** Python truthiness of an optional timestamp: None and 0 are falsy. */
  predicate TimeGiven(timestamp: Option<real>) {
    timestamp.Some? && timestamp.value != 0.0
  }

  /**
   * The constructor. A falsy id is replaced by a fresh uuid and a falsy
   * timestamp by the current time; both are supplied by the caller here.
   */
  function NewTransaction(
    sender: string, receiver: string, amount: int, fee: int,
    txId: Option<string>, signature: Option<string>, timestamp: Option<real>,
    freshId: string, now: real): (t: Transaction)
    ensures t.sender == sender && t.receiver == receiver && t.signature == signature
    ensures t.amount == amount && t.fee == fee
    ensures IdGiven(txId) ==> t.txId == txId.value
    ensures !IdGiven(txId) ==> t.txId == freshId
    ensures TimeGiven(timestamp) ==> t.timestamp == timestamp.value
    ensures !TimeGiven(timestamp) ==> t.timestamp == now
  {
    Transaction(
      if IdGiven(txId) then txId.value else freshId,
      sender, receiver, amount, fee,
      if TimeGiven(timestamp) then timestamp.value else now,
      signature)
  }

  function SignatureValue(s: Option<string>): Value {
    match s
    case None => Null
    case Some(x) => Str(x)
  }

  /** The dictionary form, one entry per field. */
  function ToDict(t: Transaction): (d: Value)
    ensures d.Obj? && d.fields.Keys == {"tx_id", "sender_pubkey", "receiver_pubkey", "amount", "fee", "timestamp", "signature"}
    ensures d.fields["tx_id"] == Str(t.txId) && d.fields["signature"] == SignatureValue(t.signature)
  {
    Obj(map[
      "tx_id" := Str(t.txId),
      "sender_pubkey" := Str(t.sender),
      "receiver_pubkey" := Str(t.receiver),
      "amount" := Int(t.amount),
      "fee" := Int(t.fee),
      "timestamp" := Real(t.timestamp),
      "signature" := SignatureValue(t.signature)])
  }

  /**
   * What is signed: every field except the signature. The JSON text and its
   * byte encoding are not modelled; signer and verifier take this value.
   */
  function SigningData(t: Transaction): (d: Value)
    ensures d.Obj? && d.fields == ToDict(t).fields - {"signature"}
  {
    Obj(map[
      "tx_id" := Str(t.txId),
      "sender_pubkey" := Str(t.sender),
      "receiver_pubkey" := Str(t.receiver),
      "amount" := Int(t.amount),
      "fee" := Int(t.fee),
      "timestamp" := Real(t.timestamp)])
  }

  /**
   * `from_dict`: the sender, receiver, amount and tx_id keys are required,
   * `fee` defaults to 0, `signature` and `timestamp` to None; the constructor
   * then regenerates a falsy id or timestamp.
   */
  function FromDict(d: Value, freshId: string, now: real): (r: Result<Transaction, DecodeError>)
    ensures r.Ok? ==> d.Obj?
    ensures d.Obj? && "tx_id" !in d.fields ==> r.Err?
    ensures d.Obj? && "sender_pubkey" !in d.fields ==> r == Err(MissingKey("sender_pubkey"))
    ensures r.Ok? ==> {"tx_id", "sender_pubkey", "receiver_pubkey", "amount"} <= d.fields.Keys
    ensures r.Ok? && "fee" !in d.fields ==> r.value.fee == 0
    ensures r.Ok? && "signature" !in d.fields ==> r.value.signature == None
    ensures r.Ok? && "timestamp" !in d.fields ==> r.value.timestamp == now
  {
    if !d.Obj? then Err(NotAnObject)
    else
      var f := d.fields;
      var sender :- RequireStr(f, "sender_pubkey");
      var receiver :- RequireStr(f, "receiver_pubkey");
      var amount :- RequireInt(f, "amount");
      var fee :- IntOr(f, "fee", 0);
      var txId :- if "tx_id" in f then StrOrNone(f["tx_id"], "tx_id") else Err(MissingKey("tx_id"));
      var signature :- GetStr(f, "signature");
      var timestamp :- GetNumber(f, "timestamp");
      Ok(NewTransaction(sender, receiver, amount, fee, txId, signature, timestamp, freshId, now))
  }

  /**
   * Decoding the dictionary form gives back the transaction, except that an
   * empty id and a zero timestamp are regenerated.
   */
  lemma FromDictOfToDict(t: Transaction, freshId: string, now: real)
    ensures FromDict(ToDict(t), freshId, now) == Ok(t.(
      txId := if t.txId == "" then freshId else t.txId,
      timestamp := if t.timestamp == 0.0 then now else t.timestamp))
  {
    var f := ToDict(t).fields;
    assert f["sender_pubkey"] == Str(t.sender);
    assert f["receiver_pubkey"] == Str(t.receiver);
    assert f["amount"] == Int(t.amount);
    assert f["fee"] == Int(t.fee);
    assert f["tx_id"] == Str(t.txId);
    assert f["timestamp"] == Real(t.timestamp);
    assert f["signature"] == SignatureValue(t.signature);
    assert GetStr(f, "signature") == Ok(t.signature);
  }

  /** The round trip is exact precisely when the regenerated fields are not falsy (or happen to be regenerated to themselves). */
  lemma RoundTripExactly(t: Transaction, freshId: string, now: real)
    ensures FromDict(ToDict(t), freshId, now) == Ok(t)
        <==> (t.txId != "" || freshId == "") && (t.timestamp != 0.0 || now == 0.0)
  {
    FromDictOfToDict(t, freshId, now);
  }

  /** Two transactions with the same dictionary form are the same transaction. */
  lemma ToDictInjective(a: Transaction, b: Transaction)
    requires ToDict(a) == ToDict(b)
    ensures a == b
  {
    var fa, fb := ToDict(a).fields, ToDict(b).fields;
    assert fa["tx_id"] == fb["tx_id"];
    assert fa["sender_pubkey"] == fb["sender_pubkey"];
    assert fa["receiver_pubkey"] == fb["receiver_pubkey"];
    assert fa["amount"] == fb["amount"];
    assert fa["fee"] == fb["fee"];
    assert fa["timestamp"] == fb["timestamp"];
    assert fa["signature"] == fb["signature"];
    assert a.signature == b.signature by {
      match a.signature
      case None =>
      case Some(_) =>
    }
  }

  /** Setting or changing the signature does not change what is signed. */
  lemma SigningDataIgnoresSignature(t: Transaction, s: Option<string>)
    ensures SigningData(t.(signature := s)) == SigningData(t)
  {
  }

  /** The signing data determines every field except the signature. */
  lemma SigningDataCoversAllButSignature(a: Transaction, b: Transaction)
    requires SigningData(a) == SigningData(b)
    ensures a.(signature := b.signature) == b
  {
    var fa, fb := SigningData(a).fields, SigningData(b).fields;
    assert fa["tx_id"] == fb["tx_id"];
    assert fa["sender_pubkey"] == fb["sender_pubkey"];
    assert fa["receiver_pubkey"] == fb["receiver_pubkey"];
    assert fa["amount"] == fb["amount"];
    assert fa["fee"] == fb["fee"];
    assert fa["timestamp"] == fb["timestamp"];
  }

  /** `__eq__` between two transactions: equal ids, whatever the other fields; equal transactions hash alike. */
  predicate Eq(a: Transaction, b: Transaction): (r: bool)
    ensures r ==> forall strHash :: HashOf(a, strHash) == HashOf(b, strHash)
  {
    a.txId == b.txId
  }

  /** `__hash__`: Python's string hash of the id, here an arbitrary function of it. */
  function HashOf(t: Transaction, strHash: string -> int): int {
    strHash(t.txId)
  }

  /** Equality by id is an equivalence that ignores every other field, and the hash agrees with it. */
  lemma EqAgreesWithHash(a: Transaction, b: Transaction, strHash: string -> int)
    ensures Eq(a, b) <==> Eq(b, a)
    ensures Eq(a, a)
    ensures Eq(a, b) ==> HashOf(a, strHash) == HashOf(b, strHash)
    ensures Eq(a, b) <==> Eq(a.(sender := b.sender, receiver := b.receiver, amount := b.amount,
                                 fee := b.fee, timestamp := b.timestamp, signature := b.signature), b)
  {
  }

  /**
   * `create_reward_transaction`: the miner's payment. Its id is a fresh uuid
   * and its timestamp the current time, both supplied by the caller.
   */
  function RewardTransaction(miner: string, amount: int, feeSum: int, freshId: string, now: real): (t: Transaction)
    ensures t.sender == Coinbase && t.receiver == miner
    ensures t.amount == amount + feeSum && t.fee == 0
    ensures t.signature == Some(Coinbase)
    ensures t.txId == freshId && t.timestamp == now
  {
    NewTransaction(Coinbase, miner, amount + feeSum, 0, Some(freshId), None, None, freshId, now)
      .(signature := Some(Coinbase))
  }
}
