/**
 * The transfer record of the coin ledger (blockchain/Transaction.js): a
 * sender key (absent for an issuance), a recipient key and an amount, signed
 * by the sender over the text `from + to + amount` and verified against its
 * own `from` key.
 */
module Transactions {
  import opened Crypto

  /** A transaction as it is stored in the pending pool and in blocks (a snapshot of the object). */
  datatype TxRecord = TxRecord(from: Option<string>, to: string, amount: int, signature: Option<string>)

  /** JavaScript's `null + s` starts with the text "null". */
  function FromText(from: Option<string>): string
  {
    match from
    case None => "null"
    case Some(key) => key
  }

  /** The signing payload `from + to + amount`, the same for signing and verifying. */
  function PayloadOf(from: Option<string>, to: string, amount: int): string
  {
    FromText(from) + to + IntText(amount)
  }

  /** For a fixed sender and recipient the payload determines the amount, so a signature over one amount is a signature over no other. */
  lemma PayloadBindsAmount(from: Option<string>, to: string, a1: int, a2: int)
    requires PayloadOf(from, to, a1) == PayloadOf(from, to, a2)
    ensures a1 == a2
  {
    var n := |FromText(from) + to|;
    assert PayloadOf(from, to, a1)[n..] == IntText(a1);
    assert PayloadOf(from, to, a2)[n..] == IntText(a2);
    IntTextInjective(a1, a2);
  }

  /** `!this.signature` fails for a missing signature and for the empty string. */
  predicate HasSignature(signature: Option<string>)
  {
    signature.Some? && signature.value != ""
  }

  /** Verification of a stored record, with the record's own `from` as the public key. */
  function Verifies(signer: Signer, t: TxRecord): (ok: bool)
    ensures ok <==> HasSignature(t.signature) && t.from.Some?
                    && signer.verify(t.from.value, PayloadOf(t.from, t.to, t.amount), t.signature.value)
  {
    if !HasSignature(t.signature) then false
    else match t.from
      case None => false
      case Some(key) => signer.verify(key, PayloadOf(t.from, t.to, t.amount), t.signature.value)
  }

  /** The record after `signTransaction(privateKey)`: only the signature is new. */
  function SignedWith(signer: Signer, t: TxRecord, privateKey: string): (r: TxRecord)
    ensures r.from == t.from && r.to == t.to && r.amount == t.amount
    ensures r.signature == Some(signer.sign(PayloadOf(t.from, t.to, t.amount), privateKey))
  {
    t.(signature := Some(signer.sign(PayloadOf(t.from, t.to, t.amount), privateKey)))
  }

  /** Signing with the private key that matches the sender key makes the record verify. */
  lemma SignThenVerify(signer: Signer, t: TxRecord, publicKey: string, privateKey: string)
    requires t.from == Some(publicKey)
    requires MatchingKeys(signer, publicKey, privateKey)
    ensures Verifies(signer, SignedWith(signer, t, privateKey))
    ensures SignedWith(signer, t, privateKey).from == t.from
    ensures SignedWith(signer, t, privateKey).to == t.to
    ensures SignedWith(signer, t, privateKey).amount == t.amount
  {
    var payload := PayloadOf(t.from, t.to, t.amount);
    assert signer.sign(payload, privateKey) != "";
  }

  /** Changing the key, recipient or amount of a signed record leaves a signature that is checked over a different payload. */
  lemma VerifyUsesOwnFields(signer: Signer, t: TxRecord, u: TxRecord)
    requires t.signature == u.signature
    requires Verifies(signer, t) != Verifies(signer, u)
    ensures HasSignature(t.signature)
    ensures t.from != u.from || PayloadOf(t.from, t.to, t.amount) != PayloadOf(u.from, u.to, u.amount)
  {
  }

  class Transaction {
    var from: Option<string>
    var to: string
    var amount: int
    var signature: Option<string>

    constructor (from: Option<string>, to: string, amount: int)
      ensures this.from == from && this.to == to && this.amount == amount
      ensures signature == None
    {
      this.from := from;
      this.to := to;
      this.amount := amount;
      signature := None;
    }

    function Payload(): string
      reads this
    {
      PayloadOf(from, to, amount)
    }

    /** The plain-object copy `{ ...tx }` of this transaction. */
    function Record(): (r: TxRecord)
      reads this
      ensures r.from == from && r.to == to && r.amount == amount && r.signature == signature
      ensures PayloadOf(r.from, r.to, r.amount) == Payload()
    {
      TxRecord(from, to, amount, signature)
    }

    method SignTransaction(signer: Signer, privateKey: string)
      modifies this
      ensures from == old(from) && to == old(to) && amount == old(amount)
      ensures signature == Some(signer.sign(old(Payload()), privateKey))
      ensures Record() == SignedWith(signer, old(Record()), privateKey)
    {
      signature := Some(signer.sign(Payload(), privateKey));
    }

    function VerifySignature(signer: Signer): (ok: bool)
      reads this
      ensures ok <==> HasSignature(signature) && from.Some? && signer.verify(from.value, Payload(), signature.value)
    {
      Verifies(signer, Record())
    }
  }
}
