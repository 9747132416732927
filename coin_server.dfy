/**
 * The coin server (server.js): six fixed users, a genesis block funding each
 * of them, the admission of a transfer into the pending pool and mining the
 * whole pool into one new block. The server's module-level `blockchain` and
 * `pendingTransactions` are the fields of the class Ledger.
 */
module CoinServer {
  import opened Crypto
  import opened Transactions
  import opened CoinChain

  /** The user names, in the order genesis funds them. */
  const USERS: seq<string> := ["Alice", "Bob", "Charlie", "Dave", "Eve", "Frank"]

  /** What genesis issues to every user. */
  const GenesisGrant: int := 100

  /** A key pair produced by key generation (not modelled). */
  datatype KeyPair = KeyPair(publicKey: string, privateKey: string)

  datatype User = User(name: string, publicKey: string, privateKey: string)

  /** The answer of `/api/transaction`. */
  datatype Verdict = Accepted | InvalidUsers | DoubleSpendDetected | InsufficientBalance | InvalidSignature

  /** The answer of `/api/mine`. */
  datatype MineOutcome = NothingToMine | Mined(block: Block)

  function Roster(keys: seq<KeyPair>): seq<User>
    requires |keys| == |USERS|
  {
    seq(|USERS|, i requires 0 <= i < |USERS| => User(USERS[i], keys[i].publicKey, keys[i].privateKey))
  }

  /** `users[name]`: the first user with that name, or nothing. */
  function FindUser(users: seq<User>, name: string): (r: Option<User>)
    ensures r.Some? ==> r.value in users && r.value.name == name
    ensures r.None? <==> forall i :: 0 <= i < |users| ==> users[i].name != name
  {
    if users == [] then None
    else if users[0].name == name then Some(users[0])
    else FindUser(users[1..], name)
  }

  ghost predicate IsUserKey(users: seq<User>, key: string)
  {
    exists i :: 0 <= i < |users| && users[i].publicKey == key
  }

  ghost predicate DistinctKeys(users: seq<User>)
  {
    forall i, j :: 0 <= i < j < |users| ==> users[i].publicKey != users[j].publicKey
  }

  /** The users' public keys, in order. */
  function PublicKeys(users: seq<User>): (keys: seq<string>)
    ensures |keys| == |users|
    ensures forall i :: 0 <= i < |users| ==> keys[i] == users[i].publicKey
  {
    seq(|users|, i requires 0 <= i < |users| => users[i].publicKey)
  }

  /** The genesis transactions: one unsigned issuance of the grant to each user, in order. */
  function Issuance(users: seq<User>): (txs: seq<TxRecord>)
    ensures |txs| == |users|
    ensures forall i :: 0 <= i < |txs| ==>
      && txs[i].from.None? && txs[i].signature.None?
      && txs[i].to == users[i].publicKey && txs[i].amount == GenesisGrant
  {
    seq(|users|, i requires 0 <= i < |users| => TxRecord(None, users[i].publicKey, GenesisGrant, None))
  }

  /** The double-spending heuristic: some pending transaction has the same sender key and the same amount. */
  predicate DoubleSpendAttempt(pending: seq<TxRecord>, senderKey: string, amount: int)
  {
    exists i :: 0 <= i < |pending| && pending[i].from == Some(senderKey) && pending[i].amount == amount
  }

  /** Pushing a transaction onto the pool trips the heuristic for exactly its own (sender, amount) pair, in addition to the old ones. */
  lemma DoubleSpendAppend(pending: seq<TxRecord>, t: TxRecord, senderKey: string, amount: int)
    ensures DoubleSpendAttempt(pending + [t], senderKey, amount)
        <==> DoubleSpendAttempt(pending, senderKey, amount) || (t.from == Some(senderKey) && t.amount == amount)
  {
    var all := pending + [t];
    if DoubleSpendAttempt(all, senderKey, amount) {
      var i :| 0 <= i < |all| && all[i].from == Some(senderKey) && all[i].amount == amount;
      if i < |pending| { assert all[i] == pending[i]; }
    }
    if DoubleSpendAttempt(pending, senderKey, amount) {
      var i :| 0 <= i < |pending| && pending[i].from == Some(senderKey) && pending[i].amount == amount;
      assert all[i] == pending[i];
    }
    if t.from == Some(senderKey) && t.amount == amount {
      assert all[|pending|] == t;
    }
  }

  /** The transaction the server builds and signs with the sender's private key. */
  function SignedTransfer(signer: Signer, sender: User, recipient: User, amount: int): (t: TxRecord)
    ensures t.from == Some(sender.publicKey) && t.to == recipient.publicKey && t.amount == amount
    ensures MatchingKeys(signer, sender.publicKey, sender.privateKey) ==> Verifies(signer, t)
  {
    SignedWith(signer, TxRecord(Some(sender.publicKey), recipient.publicKey, amount, None), sender.privateKey)
  }

  /**
   * The admission decision of `/api/transaction`, checks in the server's order:
   * known users, the double-spending heuristic, the committed balance, the signature.
   */
  function Screen(chain: seq<Block>, pending: seq<TxRecord>, users: seq<User>, signer: Signer,
                  from: string, to: string, amount: int): (v: Verdict)
    ensures v == InvalidUsers <==> FindUser(users, from).None? || FindUser(users, to).None?
    ensures v == Accepted <==>
      && FindUser(users, from).Some? && FindUser(users, to).Some?
      && !DoubleSpendAttempt(pending, FindUser(users, from).value.publicKey, amount)
      && amount <= Balance(chain, FindUser(users, from).value.publicKey)
      && Verifies(signer, SignedTransfer(signer, FindUser(users, from).value, FindUser(users, to).value, amount))
    ensures FindUser(users, from).Some? && FindUser(users, to).Some? ==>
      (v == DoubleSpendDetected <==> DoubleSpendAttempt(pending, FindUser(users, from).value.publicKey, amount))
    ensures FindUser(users, from).Some? && FindUser(users, to).Some? ==>
      (v == InsufficientBalance <==>
        && !DoubleSpendAttempt(pending, FindUser(users, from).value.publicKey, amount)
        && amount > Balance(chain, FindUser(users, from).value.publicKey))
    ensures FindUser(users, from).Some? && FindUser(users, to).Some? ==>
      (v == InvalidSignature <==>
        && !DoubleSpendAttempt(pending, FindUser(users, from).value.publicKey, amount)
        && amount <= Balance(chain, FindUser(users, from).value.publicKey)
        && !Verifies(signer, SignedTransfer(signer, FindUser(users, from).value, FindUser(users, to).value, amount)))
  {
    match (FindUser(users, from), FindUser(users, to))
    case (Some(sender), Some(recipient)) =>
      var senderKey := sender.publicKey;
      if DoubleSpendAttempt(pending, senderKey, amount) then DoubleSpendDetected
      else if amount > Balance(chain, senderKey) then InsufficientBalance
      else if !Verifies(signer, SignedTransfer(signer, sender, recipient, amount)) then InvalidSignature
      else Accepted
    case _ => InvalidUsers
  }

  /** With honestly generated keys the signature check never rejects: the server signs with the sender's own private key. */
  lemma HonestKeysPassSignature(chain: seq<Block>, pending: seq<TxRecord>, users: seq<User>, signer: Signer,
                                from: string, to: string, amount: int)
    requires forall u :: u in users ==> MatchingKeys(signer, u.publicKey, u.privateKey)
    ensures Screen(chain, pending, users, signer, from, to, amount) != InvalidSignature
  {
    var s, r := FindUser(users, from), FindUser(users, to);
    if s.Some? && r.Some? {
      var unsigned := TxRecord(Some(s.value.publicKey), r.value.publicKey, amount, None);
      SignThenVerify(signer, unsigned, s.value.publicKey, s.value.privateKey);
    }
  }

  /** The balance check reads the committed chain only: a pending pool that does not trip the heuristic makes no difference. */
  lemma PendingDebitsIgnored(chain: seq<Block>, pending: seq<TxRecord>, users: seq<User>, signer: Signer,
                             from: string, to: string, amount: int)
    requires FindUser(users, from).Some?
    requires !DoubleSpendAttempt(pending, FindUser(users, from).value.publicKey, amount)
    ensures Screen(chain, pending, users, signer, from, to, amount) == Screen(chain, [], users, signer, from, to, amount)
  {
  }

  /**
   * The weakness of the heuristic: two transfers from one sender with different amounts,
   * each within the committed balance but together beyond it, are both admitted.
   */
  lemma OverdraftWindow(chain: seq<Block>, pending: seq<TxRecord>, users: seq<User>, signer: Signer,
                        from: string, to: string, first: int, second: int)
    requires forall u :: u in users ==> MatchingKeys(signer, u.publicKey, u.privateKey)
    requires FindUser(users, from).Some? && FindUser(users, to).Some?
    requires first != second
    requires first <= Balance(chain, FindUser(users, from).value.publicKey)
    requires second <= Balance(chain, FindUser(users, from).value.publicKey)
    requires first + second > Balance(chain, FindUser(users, from).value.publicKey)
    requires forall t :: t in pending ==> t.from != Some(FindUser(users, from).value.publicKey)
    ensures Screen(chain, pending, users, signer, from, to, first) == Accepted
    ensures Screen(chain, pending + [SignedTransfer(signer, FindUser(users, from).value, FindUser(users, to).value, first)],
                   users, signer, from, to, second) == Accepted
  {
    var sender, recipient := FindUser(users, from).value, FindUser(users, to).value;
    var tx := SignedTransfer(signer, sender, recipient, first);
    HonestKeysPassSignature(chain, pending, users, signer, from, to, first);
    HonestKeysPassSignature(chain, pending + [tx], users, signer, from, to, second);
    assert !DoubleSpendAttempt(pending, sender.publicKey, first) by {
      forall i | 0 <= i < |pending| ensures pending[i].from != Some(sender.publicKey) {
        assert pending[i] in pending;
      }
    }
    assert !DoubleSpendAttempt(pending + [tx], sender.publicKey, second) by {
      forall i | 0 <= i < |pending + [tx]|
        ensures !((pending + [tx])[i].from == Some(sender.publicKey) && (pending + [tx])[i].amount == second)
      {
        if i < |pending| { assert (pending + [tx])[i] in pending; }
      }
    }
  }

  /** Mining those two transfers (sender and recipient different) leaves the sender with less than it had by the sum of both. */
  lemma OverdraftMined(chain: seq<Block>, b: Block, users: seq<User>, signer: Signer, sender: User, recipient: User,
                       first: int, second: int)
    requires sender.publicKey != recipient.publicKey
    requires b.transactions == [SignedTransfer(signer, sender, recipient, first), SignedTransfer(signer, sender, recipient, second)]
    requires first + second > Balance(chain, sender.publicKey)
    ensures Balance(chain + [b], sender.publicKey) == Balance(chain, sender.publicKey) - first - second
    ensures Balance(chain + [b], sender.publicKey) < 0
  {
    BalanceAppend(chain, b, sender.publicKey);
    var txs, key := b.transactions, sender.publicKey;
    assert txs[..1][..0] == [];
    assert txs[..|txs| - 1] == txs[..1];
    assert Received(txs[..1], key) == 0 && Sent(txs[..1], key) == first;
    assert Received(txs, key) == 0 && Sent(txs, key) == first + second;
  }

  /** The server never asks for a positive amount: a negative one within the committed balance passes every check. */
  lemma NegativeAmountAccepted(chain: seq<Block>, pending: seq<TxRecord>, users: seq<User>, signer: Signer,
                               from: string, to: string, amount: int)
    requires forall u :: u in users ==> MatchingKeys(signer, u.publicKey, u.privateKey)
    requires FindUser(users, from).Some? && FindUser(users, to).Some?
    requires amount < 0 && amount <= Balance(chain, FindUser(users, from).value.publicKey)
    requires !DoubleSpendAttempt(pending, FindUser(users, from).value.publicKey, amount)
    ensures Screen(chain, pending, users, signer, from, to, amount) == Accepted
  {
    HonestKeysPassSignature(chain, pending, users, signer, from, to, amount);
  }

  /** Once mined, a transfer of a negative amount between two different keys takes value from its recipient. */
  lemma NegativeTransferDebitsRecipient(chain: seq<Block>, b: Block, signer: Signer, sender: User, recipient: User, amount: int)
    requires sender.publicKey != recipient.publicKey
    requires b.transactions == [SignedTransfer(signer, sender, recipient, amount)]
    requires amount < 0
    ensures Balance(chain + [b], recipient.publicKey) < Balance(chain, recipient.publicKey)
    ensures Balance(chain + [b], sender.publicKey) > Balance(chain, sender.publicKey)
  {
    TransferConserves(chain, b, sender.publicKey, recipient.publicKey);
  }

  /** Every issuance transaction's sender is absent, so genesis debits nobody. */
  lemma {:induction false} IssuanceSendsNothing(users: seq<User>, key: string, n: nat)
    requires n <= |users|
    ensures Sent(Issuance(users)[..n], key) == 0
    decreases n
  {
    if n > 0 {
      var txs := Issuance(users);
      assert txs[..n][..n - 1] == txs[..n - 1];
      IssuanceSendsNothing(users, key, n - 1);
    }
  }

  /** The first `n` issuance transactions credit `key` the grant exactly when one of the first `n` users holds it. */
  lemma {:induction false} IssuanceReceived(users: seq<User>, key: string, n: nat)
    requires DistinctKeys(users)
    requires n <= |users|
    ensures Received(Issuance(users)[..n], key)
         == if exists j :: 0 <= j < n && users[j].publicKey == key then GenesisGrant else 0
    decreases n
  {
    if n > 0 {
      var txs := Issuance(users);
      assert txs[..n][..n - 1] == txs[..n - 1];
      IssuanceReceived(users, key, n - 1);
      if users[n - 1].publicKey == key {
        assert !exists j :: 0 <= j < n - 1 && users[j].publicKey == key;
      }
    }
  }

  /** After genesis every user holds exactly the grant, and every other key holds nothing. */
  lemma GenesisBalances(users: seq<User>, genesis: Block, key: string)
    requires DistinctKeys(users)
    requires genesis.transactions == Issuance(users)
    ensures Balance([genesis], key) == if IsUserKey(users, key) then GenesisGrant else 0
  {
    var txs := Issuance(users);
    HistoryAppend([], genesis);
    assert [] + [genesis] == [genesis];
    assert History([genesis]) == txs;
    assert txs[..|users|] == txs;
    IssuanceSendsNothing(users, key, |users|);
    IssuanceReceived(users, key, |users|);
  }

  lemma EveryUserFunded(users: seq<User>, genesis: Block)
    requires DistinctKeys(users)
    requires genesis.transactions == Issuance(users)
    ensures forall i :: 0 <= i < |users| ==> Balance([genesis], users[i].publicKey) == GenesisGrant
  {
    forall i | 0 <= i < |users| ensures Balance([genesis], users[i].publicKey) == GenesisGrant {
      GenesisBalances(users, genesis, users[i].publicKey);
    }
  }

  /** The money in circulation after genesis: the grant, once per user. */
  lemma {:induction false} GenesisSupply(users: seq<User>, genesis: Block, n: nat)
    requires DistinctKeys(users)
    requires genesis.transactions == Issuance(users)
    requires n <= |users|
    ensures Holdings([genesis], PublicKeys(users)[n..]) == GenesisGrant * (|users| - n)
    decreases |users| - n
  {
    var keys := PublicKeys(users);
    if n < |users| {
      GenesisSupply(users, genesis, n + 1);
      assert keys[n..][1..] == keys[n + 1..];
      GenesisBalances(users, genesis, keys[n]);
      assert IsUserKey(users, keys[n]);
    } else {
      assert keys[n..] == [];
    }
  }

  /** The chain holding only the genesis block is linked and, with distinct keys, funds every user and holds the whole supply. */
  lemma GenesisChain(h: Hasher, users: seq<User>, genesis: Block)
    requires Extends(h, [], genesis) && genesis.transactions == Issuance(users)
    ensures Linked(h, [genesis])
    ensures DistinctKeys(users) ==> Holdings([genesis], PublicKeys(users)) == GenesisGrant * |users|
    ensures DistinctKeys(users) ==> forall i :: 0 <= i < |users| ==> Balance([genesis], users[i].publicKey) == GenesisGrant
  {
    LinkedStep(h, [], genesis);
    assert [] + [genesis] == [genesis];
    if DistinctKeys(users) {
      EveryUserFunded(users, genesis);
      GenesisSupply(users, genesis, 0);
      assert PublicKeys(users)[0..] == PublicKeys(users);
    }
  }

  /** Admitted transfers move value between users only, so mining them keeps the users' total. */
  lemma AdmittedKeepSupply(chain: seq<Block>, b: Block, users: seq<User>, signer: Signer)
    requires DistinctKeys(users)
    requires AllAdmitted(users, signer, b.transactions)
    ensures Holdings(chain + [b], PublicKeys(users)) == Holdings(chain, PublicKeys(users))
  {
    var keys, txs := PublicKeys(users), b.transactions;
    assert DistinctStrings(keys);
    forall i | 0 <= i < |txs| ensures txs[i].from.Some? && txs[i].from.value in keys && txs[i].to in keys {
      assert Admitted(users, signer, txs[i]);
      var s :| 0 <= s < |users| && users[s].publicKey == txs[i].from.value;
      var r :| 0 <= r < |users| && users[r].publicKey == txs[i].to;
      assert keys[s] == txs[i].from.value && keys[r] == txs[i].to;
    }
    TransfersConserve(txs, keys);
    HoldingsAppend(chain, b, keys);
  }

  /** A transaction the server admitted: a user's key as sender, a user's key as recipient, a verifying signature. */
  ghost predicate Admitted(users: seq<User>, signer: Signer, t: TxRecord)
  {
    && t.from.Some? && IsUserKey(users, t.from.value)
    && IsUserKey(users, t.to)
    && Verifies(signer, t)
  }

  ghost predicate AllAdmitted(users: seq<User>, signer: Signer, txs: seq<TxRecord>)
  {
    forall i :: 0 <= i < |txs| ==> Admitted(users, signer, txs[i])
  }

  /** No two pending transactions share both sender and amount. */
  ghost predicate NoRepeatedSpend(pending: seq<TxRecord>)
  {
    forall i, j :: 0 <= i < j < |pending| ==> !(pending[i].from == pending[j].from && pending[i].amount == pending[j].amount)
  }

  /** Pushing an admitted transaction that does not trip the heuristic keeps the pool admitted and free of repeated spends. */
  lemma PoolGrows(pending: seq<TxRecord>, t: TxRecord, users: seq<User>, signer: Signer)
    requires AllAdmitted(users, signer, pending) && NoRepeatedSpend(pending)
    requires Admitted(users, signer, t) && !DoubleSpendAttempt(pending, t.from.value, t.amount)
    ensures AllAdmitted(users, signer, pending + [t]) && NoRepeatedSpend(pending + [t])
  {
    var all := pending + [t];
    forall i | 0 <= i < |all| ensures Admitted(users, signer, all[i]) {
      if i < |pending| { assert all[i] == pending[i]; }
    }
    forall i, j | 0 <= i < j < |all| ensures !(all[i].from == all[j].from && all[i].amount == all[j].amount) {
      assert all[i] == pending[i];
      if j < |pending| { assert all[j] == pending[j]; }
    }
  }

  class Ledger {
    const users: seq<User>
    const signer: Signer
    const blockchain: Blockchain
    var pending: seq<TxRecord>

    /**
     * The server's invariant: a linked chain starting with the genesis block; every later
     * block and the pending pool hold only admitted transfers; every pending transfer fits
     * the sender's committed balance; no two pending transfers share sender and amount.
     */
    ghost predicate Valid()
      reads this, blockchain
    {
      var chain := blockchain.chain;
      && |users| == |USERS|
      && |chain| >= 1
      && Linked(blockchain.hasher, chain)
      && chain[0].transactions == Issuance(users)
      && (forall i :: 1 <= i < |chain| ==> AllAdmitted(users, signer, chain[i].transactions))
      && AllAdmitted(users, signer, pending)
      && (forall i :: 0 <= i < |pending| ==>
            pending[i].from.Some? && pending[i].amount <= Balance(chain, pending[i].from.value))
      && NoRepeatedSpend(pending)
      && (DistinctKeys(users) ==> Holdings(chain, PublicKeys(users)) == GenesisGrant * |USERS|)
    }

    /** Server start-up: the users with their generated keys, then the genesis block built through the pending pool. */
    constructor (keys: seq<KeyPair>, signer: Signer, hasher: Hasher, now: nat)
      requires |keys| == |USERS|
      ensures Valid() && fresh(blockchain)
      ensures users == Roster(keys) && this.signer == signer && blockchain.hasher == hasher
      ensures blockchain.chain == [NewBlock(hasher, 0, Decimal(now), Issuance(users), Sentinel)]
      ensures pending == []
      ensures DistinctKeys(users) ==>
        forall i :: 0 <= i < |users| ==> Balance(blockchain.chain, users[i].publicKey) == GenesisGrant
    {
      users := Roster(keys);
      this.signer := signer;
      blockchain := new Blockchain(hasher);
      new;
      pending := [];
      for i := 0 to |users|
        invariant pending == Issuance(users)[..i]
        invariant blockchain.chain == []
      {
        var tx := new Transaction(None, users[i].publicKey, GenesisGrant);
        assert tx.Record() == Issuance(users)[i];
        assert Issuance(users)[..i + 1] == Issuance(users)[..i] + [Issuance(users)[i]];
        pending := pending + [tx.Record()];
      }
      assert Issuance(users)[..|users|] == Issuance(users);
      var genesisBlock := blockchain.CreateBlockFromTransactions(pending, now);
      GenesisChain(hasher, users, genesisBlock);
      blockchain.AddBlock(genesisBlock);
      assert blockchain.chain == [genesisBlock];
      pending := [];
    }

    /** `/api/transaction`: screen the transfer and, when accepted, push the signed transaction onto the pending pool. */
    method SubmitTransaction(from: string, to: string, amount: int) returns (v: Verdict)
      requires Valid()
      modifies this
      ensures Valid()
      ensures blockchain.chain == old(blockchain.chain)
      ensures v == Screen(blockchain.chain, old(pending), users, signer, from, to, amount)
      ensures v == Accepted ==>
        pending == old(pending) + [SignedTransfer(signer, FindUser(users, from).value, FindUser(users, to).value, amount)]
      ensures v != Accepted ==> pending == old(pending)
    {
      ghost var expected := Screen(blockchain.chain, pending, users, signer, from, to, amount);
      var sender, recipient := FindUser(users, from), FindUser(users, to);
      if sender.None? || recipient.None? {
        return InvalidUsers;
      }
      var senderKey := sender.value.publicKey;
      var senderBalance := blockchain.GetBalance(senderKey);
      if DoubleSpendAttempt(pending, senderKey, amount) {
        assert expected == DoubleSpendDetected;
        return DoubleSpendDetected;
      }
      if amount > senderBalance {
        assert expected == InsufficientBalance;
        return InsufficientBalance;
      }
      var tx := new Transaction(Some(senderKey), recipient.value.publicKey, amount);
      tx.SignTransaction(signer, sender.value.privateKey);
      var record := tx.Record();
      assert record == SignedTransfer(signer, sender.value, recipient.value, amount);
      var verified := tx.VerifySignature(signer);
      assert verified == Verifies(signer, record);
      if !verified {
        assert expected == InvalidSignature;
        return InvalidSignature;
      }
      assert expected == Accepted;
      assert Admitted(users, signer, record);
      PoolGrows(pending, record, users, signer);
      pending := pending + [record];
      v := Accepted;
    }

    /** `/api/mine`: refuse an empty pool; otherwise drain the whole pool into one new block. */
    method Mine(now: nat) returns (r: MineOutcome)
      requires Valid()
      modifies this, blockchain
      ensures Valid()
      ensures old(pending) == [] ==>
        r == NothingToMine && blockchain.chain == old(blockchain.chain) && pending == []
      ensures old(pending) != [] ==>
        && r.Mined?
        && r.block == old(blockchain.CreateBlockFromTransactions(pending, now))
        && r.block.transactions == old(pending)
        && blockchain.chain == old(blockchain.chain) + [r.block]
        && pending == []
    {
      if pending == [] {
        return NothingToMine;
      }
      var block := blockchain.CreateBlockFromTransactions(pending, now);
      ghost var before := blockchain.chain;
      LinkedStep(blockchain.hasher, before, block);
      blockchain.AddBlock(block);
      assert forall i :: 1 <= i < |before| ==> blockchain.chain[i] == before[i];
      if DistinctKeys(users) {
        AdmittedKeepSupply(before, block, users, signer);
      }
      pending := [];
      r := Mined(block);
    }
  }
}
