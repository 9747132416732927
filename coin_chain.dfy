/**
 * The coin ledger of blockchain/Blockchain.js: blocks linked by the previous
 * block's hash, an append-only chain, balances derived by replaying every
 * transaction and the flattened transaction history.
 */
module CoinChain {
  import opened Crypto
  import opened Transactions

  type Hasher = Hashing<seq<TxRecord>>

  /** The `prevHash` of a block created on an empty chain. */
  const Sentinel: string := "0"

  datatype Block = Block(index: nat, timestamp: string, transactions: seq<TxRecord>, prevHash: string, hash: string)

  /** The text this file's `calculateHash` hashes: index, timestamp, serialised transactions, previous hash. */
  function HashInput(h: Hasher, index: nat, timestamp: string, transactions: seq<TxRecord>, prevHash: string): string
  {
    Decimal(index) + timestamp + h.stringify(transactions) + prevHash
  }

  function CalculateHash(h: Hasher, b: Block): string
  {
    h.sha256(HashInput(h, b.index, b.timestamp, b.transactions, b.prevHash))
  }

  ghost predicate Sealed(h: Hasher, b: Block)
  {
    b.hash == CalculateHash(h, b)
  }

  /** `new Block(index, timestamp, transactions, prevHash = '')`: the hash is computed once, from the stored fields. */
  function NewBlock(h: Hasher, index: nat, timestamp: string, transactions: seq<TxRecord>, prevHash: string := ""): (b: Block)
    ensures b.index == index && b.timestamp == timestamp
    ensures b.transactions == transactions && b.prevHash == prevHash
    ensures Sealed(h, b)
  {
    Block(index, timestamp, transactions, prevHash, h.sha256(HashInput(h, index, timestamp, transactions, prevHash)))
  }

  /** The chain invariant: position = index, every block sealed, the first linked to the sentinel, every later one to its predecessor's hash. */
  ghost predicate Linked(h: Hasher, chain: seq<Block>)
  {
    forall i :: 0 <= i < |chain| ==> LinkedAt(h, chain, i)
  }

  ghost predicate LinkedAt(h: Hasher, chain: seq<Block>, i: nat)
    requires i < |chain|
  {
    && chain[i].index == i
    && Sealed(h, chain[i])
    && chain[i].prevHash == (if i == 0 then Sentinel else chain[i - 1].hash)
  }

  /** What `createBlockFromTransactions` promises of the block it returns for `chain`. */
  ghost predicate Extends(h: Hasher, chain: seq<Block>, b: Block)
  {
    && b.index == |chain|
    && b.prevHash == (if chain == [] then Sentinel else chain[|chain| - 1].hash)
    && Sealed(h, b)
  }

  /** Appending a block created for the current chain keeps the chain linked. */
  lemma {:induction false} LinkedStep(h: Hasher, chain: seq<Block>, b: Block)
    requires Linked(h, chain)
    requires Extends(h, chain, b)
    ensures Linked(h, chain + [b])
  {
    var c := chain + [b];
    forall i | 0 <= i < |c|
      ensures LinkedAt(h, c, i)
    {
      if i < |chain| {
        assert LinkedAt(h, chain, i);
        assert c[i] == chain[i];
        if i > 0 { assert c[i - 1] == chain[i - 1]; }
      } else {
        assert c[i] == b;
        if i > 0 { assert c[i - 1] == chain[|chain| - 1]; }
      }
    }
  }

  /** The four fields `calculateHash` reads agree. */
  predicate SameContent(a: Block, b: Block)
  {
    a.index == b.index && a.timestamp == b.timestamp && a.transactions == b.transactions && a.prevHash == b.prevHash
  }

  /** Two sealed blocks with the same content are the same block: the stored hash is determined by the four fields. */
  lemma ContentFixesHash(h: Hasher, a: Block, b: Block)
    requires Sealed(h, a) && Sealed(h, b) && SameContent(a, b)
    ensures a == b
  {
  }

  /** `calculateHash` has no collision between blocks at the same position of `c1` and `c2`. */
  ghost predicate NoCollisionBetween(h: Hasher, c1: seq<Block>, c2: seq<Block>)
  {
    forall i :: 0 <= i < |c1| && i < |c2| ==> NoCollisionAt(h, c1, c2, i)
  }

  ghost predicate NoCollisionAt(h: Hasher, c1: seq<Block>, c2: seq<Block>, i: nat)
    requires i < |c1| && i < |c2|
  {
    CalculateHash(h, c1[i]) == CalculateHash(h, c2[i]) ==> SameContent(c1[i], c2[i])
  }

  /**
   * Tamper evidence: unless the hash collides, two linked chains of the same length whose
   * last blocks carry the same hash are the same chain, so editing any block is visible at the tip.
   */
  lemma TamperEvident(h: Hasher, c1: seq<Block>, c2: seq<Block>)
    requires Linked(h, c1) && Linked(h, c2) && |c1| == |c2| >= 1
    requires NoCollisionBetween(h, c1, c2)
    requires c1[|c1| - 1].hash == c2[|c2| - 1].hash
    ensures c1 == c2
  {
    AgreeUpTo(h, c1, c2, |c1| - 1);
  }

  /** Equal hashes at position `k` propagate down the links to every earlier position. */
  lemma {:induction false} AgreeUpTo(h: Hasher, c1: seq<Block>, c2: seq<Block>, k: nat)
    requires Linked(h, c1) && Linked(h, c2) && |c1| == |c2| && k < |c1|
    requires NoCollisionBetween(h, c1, c2)
    requires c1[k].hash == c2[k].hash
    ensures forall i :: 0 <= i <= k ==> c1[i] == c2[i]
    decreases k
  {
    assert LinkedAt(h, c1, k) && LinkedAt(h, c2, k);
    assert NoCollisionAt(h, c1, c2, k);
    assert SameContent(c1[k], c2[k]);
    assert c1[k] == c2[k];
    if k > 0 {
      assert c1[k - 1].hash == c2[k - 1].hash;
      AgreeUpTo(h, c1, c2, k - 1);
    }
  }

  /** Every transaction of every block, block by block, in chain order. */
  function History(chain: seq<Block>): seq<TxRecord>
  {
    if chain == [] then [] else History(chain[..|chain| - 1]) + chain[|chain| - 1].transactions
  }

  /** The number of transactions held by the blocks. */
  function TxCount(chain: seq<Block>): nat
  {
    if chain == [] then 0 else TxCount(chain[1..]) + |chain[0].transactions|
  }

  lemma {:induction false} HistoryAppend(chain: seq<Block>, b: Block)
    ensures History(chain + [b]) == History(chain) + b.transactions
  {
    assert (chain + [b])[..|chain|] == chain;
  }

  lemma {:induction false} TxCountAppend(chain: seq<Block>, b: Block)
    ensures TxCount(chain + [b]) == TxCount(chain) + |b.transactions|
    decreases |chain|
  {
    if chain != [] {
      assert (chain + [b])[1..] == chain[1..] + [b];
      TxCountAppend(chain[1..], b);
    }
  }

  /** The history holds exactly as many transactions as the blocks together. */
  lemma {:induction false} HistoryLength(chain: seq<Block>)
    ensures |History(chain)| == TxCount(chain)
    decreases |chain|
  {
    if chain != [] {
      var init := chain[..|chain| - 1];
      HistoryLength(init);
      assert chain == init + [chain[|chain| - 1]];
      TxCountAppend(init, chain[|chain| - 1]);
    }
  }

  /** The sum of the amounts sent to `key`. */
  function Received(txs: seq<TxRecord>, key: string): int
  {
    if txs == [] then 0
    else Received(txs[..|txs| - 1], key) + (if txs[|txs| - 1].to == key then txs[|txs| - 1].amount else 0)
  }

  /** The sum of the amounts sent from `key`. */
  function Sent(txs: seq<TxRecord>, key: string): int
  {
    if txs == [] then 0
    else Sent(txs[..|txs| - 1], key) + (if txs[|txs| - 1].from == Some(key) then txs[|txs| - 1].amount else 0)
  }

  /** The balance of `key`: everything it received minus everything it sent, over the whole chain. */
  function Balance(chain: seq<Block>, key: string): int
  {
    Received(History(chain), key) - Sent(History(chain), key)
  }

  /** What the transactions `txs` add to the balance of `key`. */
  function Flow(txs: seq<TxRecord>, key: string): int
  {
    Received(txs, key) - Sent(txs, key)
  }

  lemma {:induction false} FlowConcat(a: seq<TxRecord>, b: seq<TxRecord>, key: string)
    ensures Received(a + b, key) == Received(a, key) + Received(b, key)
    ensures Sent(a + b, key) == Sent(a, key) + Sent(b, key)
    decreases |b|
  {
    if b == [] {
      assert a + b == a;
    } else {
      var init := b[..|b| - 1];
      FlowConcat(a, init, key);
      assert (a + b)[..|a + b| - 1] == a + init;
    }
  }

  /** Appending a block changes each balance by exactly that block's incoming minus outgoing amounts. */
  lemma BalanceAppend(chain: seq<Block>, b: Block, key: string)
    ensures Balance(chain + [b], key) == Balance(chain, key) + Flow(b.transactions, key)
  {
    HistoryAppend(chain, b);
    FlowConcat(History(chain), b.transactions, key);
  }

  /** A block holding one transfer between two different keys moves the amount from one to the other and touches no other balance. */
  lemma TransferConserves(chain: seq<Block>, b: Block, sender: string, recipient: string)
    requires |b.transactions| == 1
    requires b.transactions[0].from == Some(sender) && b.transactions[0].to == recipient
    requires sender != recipient
    ensures Balance(chain + [b], sender) == Balance(chain, sender) - b.transactions[0].amount
    ensures Balance(chain + [b], recipient) == Balance(chain, recipient) + b.transactions[0].amount
    ensures Balance(chain + [b], sender) + Balance(chain + [b], recipient) == Balance(chain, sender) + Balance(chain, recipient)
    ensures forall k :: k != sender && k != recipient ==> Balance(chain + [b], k) == Balance(chain, k)
  {
    var txs := b.transactions;
    assert txs[..0] == [];
    BalanceAppend(chain, b, sender);
    BalanceAppend(chain, b, recipient);
    forall k | k != sender && k != recipient
      ensures Balance(chain + [b], k) == Balance(chain, k)
    {
      BalanceAppend(chain, b, k);
    }
  }

  /** A transaction whose sender and recipient are the same key. */
  predicate SelfTransfer(t: TxRecord)
  {
    t.from == Some(t.to)
  }

  lemma {:induction false} SelfTransfersFlowNothing(txs: seq<TxRecord>, key: string)
    requires forall i :: 0 <= i < |txs| ==> SelfTransfer(txs[i])
    ensures Flow(txs, key) == 0
    decreases |txs|
  {
    if txs != [] {
      SelfTransfersFlowNothing(txs[..|txs| - 1], key);
    }
  }

  /** A block of self-transfers changes no balance. */
  lemma SelfTransfersChangeNothing(chain: seq<Block>, b: Block, key: string)
    requires forall i :: 0 <= i < |b.transactions| ==> SelfTransfer(b.transactions[i])
    ensures Balance(chain + [b], key) == Balance(chain, key)
  {
    BalanceAppend(chain, b, key);
    SelfTransfersFlowNothing(b.transactions, key);
  }

  /** The balances of `keys`, added up. */
  function Holdings(chain: seq<Block>, keys: seq<string>): int
  {
    if keys == [] then 0 else Balance(chain, keys[0]) + Holdings(chain, keys[1..])
  }

  /** What the transactions `txs` add to the balances of `keys`, added up. */
  function Spread(txs: seq<TxRecord>, keys: seq<string>): int
  {
    if keys == [] then 0 else Flow(txs, keys[0]) + Spread(txs, keys[1..])
  }

  predicate DistinctStrings(keys: seq<string>)
  {
    forall i, j :: 0 <= i < j < |keys| ==> keys[i] != keys[j]
  }

  lemma {:induction false} HoldingsAppend(chain: seq<Block>, b: Block, keys: seq<string>)
    ensures Holdings(chain + [b], keys) == Holdings(chain, keys) + Spread(b.transactions, keys)
    decreases |keys|
  {
    if keys != [] {
      BalanceAppend(chain, b, keys[0]);
      HoldingsAppend(chain, b, keys[1..]);
    }
  }

  lemma {:induction false} SpreadSplit(txs: seq<TxRecord>, t: TxRecord, keys: seq<string>)
    ensures Spread(txs + [t], keys) == Spread(txs, keys) + Spread([t], keys)
    decreases |keys|
  {
    if keys != [] {
      FlowConcat(txs, [t], keys[0]);
      SpreadSplit(txs, t, keys[1..]);
    }
  }

  /** One transaction adds its amount to the keys if its recipient is among them and takes it away if its sender is. */
  lemma {:induction false} SpreadOne(t: TxRecord, keys: seq<string>)
    requires DistinctStrings(keys)
    ensures Spread([t], keys)
         == (if t.to in keys then t.amount else 0) - (if t.from.Some? && t.from.value in keys then t.amount else 0)
    decreases |keys|
  {
    if keys != [] {
      var rest := keys[1..];
      assert [t][..0] == [];
      assert keys == [keys[0]] + rest;
      assert keys[0] !in rest by {
        forall j | 0 <= j < |rest| ensures rest[j] != keys[0] {
          assert rest[j] == keys[j + 1];
        }
      }
      assert DistinctStrings(rest) by {
        forall i, j | 0 <= i < j < |rest| ensures rest[i] != rest[j] {
          assert rest[i] == keys[i + 1] && rest[j] == keys[j + 1];
        }
      }
      SpreadOne(t, rest);
      assert Received([t], keys[0]) == Received([t][..0], keys[0]) + (if t.to == keys[0] then t.amount else 0);
      assert Sent([t], keys[0]) == Sent([t][..0], keys[0]) + (if t.from == Some(keys[0]) then t.amount else 0);
      assert Flow([t], keys[0])
          == (if t.to == keys[0] then t.amount else 0) - (if t.from == Some(keys[0]) then t.amount else 0);
      assert t.to in keys <==> t.to == keys[0] || t.to in rest;
      assert t.from.Some? ==> (t.from.value in keys <==> t.from.value == keys[0] || t.from.value in rest);
    }
  }

  /**
   * Transfers whose sender and recipient are both among the distinct `keys` move value
   * between those keys and leave their total unchanged.
   */
  lemma {:induction false} TransfersConserve(txs: seq<TxRecord>, keys: seq<string>)
    requires DistinctStrings(keys)
    requires forall i :: 0 <= i < |txs| ==> txs[i].from.Some? && txs[i].from.value in keys && txs[i].to in keys
    ensures Spread(txs, keys) == 0
    decreases |txs|
  {
    if txs == [] {
      SpreadOfNothing(keys);
    } else {
      var init, last := txs[..|txs| - 1], txs[|txs| - 1];
      assert txs == init + [last];
      TransfersConserve(init, keys);
      SpreadSplit(init, last, keys);
      SpreadOne(last, keys);
    }
  }

  lemma {:induction false} SpreadOfNothing(keys: seq<string>)
    ensures Spread([], keys) == 0
    decreases |keys|
  {
    if keys != [] {
      SpreadOfNothing(keys[1..]);
    }
  }

  class Blockchain {
    const hasher: Hasher
    var chain: seq<Block>

    constructor (hasher: Hasher)
      ensures this.hasher == hasher
      ensures chain == []
    {
      this.hasher := hasher;
      chain := [];
    }

    /** `getLastBlock()`: undefined (None) on an empty chain. */
    function GetLastBlock(): (r: Option<Block>)
      reads this
      ensures r.None? <==> chain == []
      ensures r.Some? ==> r.value == chain[|chain| - 1]
    {
      if chain == [] then None else Some(chain[|chain| - 1])
    }

    /** `createBlockFromTransactions(transactions)` at time `now`; it does not change the chain. */
    function CreateBlockFromTransactions(transactions: seq<TxRecord>, now: nat): (b: Block)
      reads this
      ensures Extends(hasher, chain, b)
      ensures b.transactions == transactions && b.timestamp == Decimal(now)
    {
      var prevHash := match GetLastBlock() case Some(prev) => prev.hash case None => Sentinel;
      NewBlock(hasher, |chain|, Decimal(now), transactions, prevHash)
    }

    method AddBlock(block: Block)
      modifies this
      ensures chain == old(chain) + [block]
    {
      chain := chain + [block];
    }

    /** `getBalance(publicKey)`: replays every transaction of every block in order. */
    method GetBalance(publicKey: string) returns (balance: int)
      ensures balance == Balance(chain, publicKey)
    {
      balance := 0;
      var i := 0;
      while i < |chain|
        invariant 0 <= i <= |chain|
        invariant balance == Balance(chain[..i], publicKey)
      {
        var txs := chain[i].transactions;
        var j := 0;
        while j < |txs|
          invariant 0 <= j <= |txs|
          invariant balance == Balance(chain[..i], publicKey) + Flow(txs[..j], publicKey)
        {
          var tx := txs[j];
          if tx.from == Some(publicKey) {
            balance := balance - tx.amount;
          }
          if tx.to == publicKey {
            balance := balance + tx.amount;
          }
          assert txs[..j + 1][..j] == txs[..j];
          j := j + 1;
        }
        assert txs[..j] == txs;
        assert chain[..i + 1] == chain[..i] + [chain[i]];
        BalanceAppend(chain[..i], chain[i], publicKey);
        i := i + 1;
      }
      assert chain[..i] == chain;
    }

    /** `getTransactionHistory()`: a copy of every transaction, block by block, in chain order. */
    method GetTransactionHistory() returns (history: seq<TxRecord>)
      ensures history == History(chain)
      ensures |history| == TxCount(chain)
    {
      history := [];
      var i := 0;
      while i < |chain|
        invariant 0 <= i <= |chain|
        invariant history == History(chain[..i])
      {
        var txs := chain[i].transactions;
        var j := 0;
        while j < |txs|
          invariant 0 <= j <= |txs|
          invariant history == History(chain[..i]) + txs[..j]
        {
          history := history + [txs[j]];
          assert txs[..j + 1] == txs[..j] + [txs[j]];
          j := j + 1;
        }
        assert txs[..j] == txs;
        assert chain[..i + 1] == chain[..i] + [chain[i]];
        HistoryAppend(chain[..i], chain[i]);
        i := i + 1;
      }
      assert chain[..i] == chain;
      HistoryLength(chain);
    }
  }
}
