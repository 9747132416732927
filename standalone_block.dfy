/**
 * The stand-alone block of blockchain/Block.js. No other file uses it; it is
 * kept apart from the block inside blockchain/Blockchain.js because the two
 * name the link field differently and hash their fields in a different order.
 */
module StandaloneBlock {
  import opened Crypto
  import opened Transactions

  datatype Block = Block(index: nat, timestamp: string, transactions: seq<TxRecord>, previousHash: string, hash: string)

  /** The text hashed by Block.js: index, previous hash, timestamp, serialised transactions. */
  function HashInput(h: Hashing<seq<TxRecord>>, index: nat, previousHash: string, timestamp: string, transactions: seq<TxRecord>): string
  {
    Decimal(index) + previousHash + timestamp + h.stringify(transactions)
  }

  /** `calculateHash()`: reads the four content fields of the block, never its stored hash. */
  function CalculateHash(h: Hashing<seq<TxRecord>>, b: Block): string
  {
    h.sha256(HashInput(h, b.index, b.previousHash, b.timestamp, b.transactions))
  }

  /** A block whose stored hash is the one recomputed from its fields. */
  ghost predicate Sealed(h: Hashing<seq<TxRecord>>, b: Block)
  {
    b.hash == CalculateHash(h, b)
  }

  /** `new Block(index, timestamp, transactions, previousHash = '')`. */
  function NewBlock(h: Hashing<seq<TxRecord>>, index: nat, timestamp: string, transactions: seq<TxRecord>, previousHash: string := ""): (b: Block)
    ensures b.index == index && b.timestamp == timestamp
    ensures b.transactions == transactions && b.previousHash == previousHash
    ensures Sealed(h, b)
  {
    Block(index, timestamp, transactions, previousHash, h.sha256(HashInput(h, index, previousHash, timestamp, transactions)))
  }

  /** Leaving out the previous hash is the same as passing the empty string. */
  lemma OmittedPreviousHashIsEmpty(h: Hashing<seq<TxRecord>>, index: nat, timestamp: string, transactions: seq<TxRecord>)
    ensures NewBlock(h, index, timestamp, transactions).previousHash == ""
    ensures NewBlock(h, index, timestamp, transactions) == NewBlock(h, index, timestamp, transactions, "")
  {
  }

  /** Two sealed blocks with the same four content fields are the same block: the hash is determined by the content. */
  lemma SealedIsDeterministic(h: Hashing<seq<TxRecord>>, b1: Block, b2: Block)
    requires Sealed(h, b1) && Sealed(h, b2)
    requires b1.index == b2.index && b1.timestamp == b2.timestamp
    requires b1.transactions == b2.transactions && b1.previousHash == b2.previousHash
    ensures b1 == b2
  {
  }
}
