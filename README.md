# Secure_coin ledger and voting chain, modelled in Dafny

This project models the two small blockchains in the Secure_coin repository and proves
properties about them.

**The coin ledger.** It has four parts:

- the signed transfer record (`blockchain/Transaction.js`);
- the hash-linked block and chain (`blockchain/Blockchain.js`, plus the separate `blockchain/Block.js`);
- balances, which are recomputed by replaying the whole history;
- the server (`server.js`). It starts with six fixed users and a genesis block that gives each
  of them 100 coins. `/api/transaction` admits transfers into a pending pool, and `/api/mine`
  drains that pool into a new block.

**The voting chain.** It has two parts:

- `vote/decentralized-voting/blockchain.js`: a genesis block, ballot blocks, the "already voted"
  lookup and the tally;
- the `/vote` handler in `vote/decentralized-voting/server.js`.

## Modules

| file | module | models |
|---|---|---|
| `crypto.dfy` | `Crypto` | SHA-256 and `JSON.stringify` (the `Hashing` record), RSA signing and verifying (the `Signer` record), and the decimal text of numbers |
| `transaction.dfy` | `Transactions` | `Transaction`, as a class whose `SignTransaction` updates `signature` in place, and `TxRecord`, the `{ ...tx }` snapshot the chain stores |
| `standalone_block.dfy` | `StandaloneBlock` | `Block.js` |
| `coin_chain.dfy` | `CoinChain` | `Blockchain.js`: its own `Block`, the `Blockchain` class, and history, balance and supply as functions of the chain |
| `coin_server.dfy` | `CoinServer` | `server.js`: the admission decision `Screen` and the `Ledger` class, whose fields are the server's `blockchain` and `pendingTransactions` |
| `vote_chain.dfy` | `VoteChain` | the voting `blockchain.js` |
| `vote_server.dfy` | `VoteServer` | the `/vote` handler |

## Modelling choices

- **Crypto primitives are values.** The hash function, the serializer and the RSA primitives are
  function values handed to the model. Nothing is assumed about SHA-256 or `JSON.stringify`.
  The only assumption about RSA is the hypothesis `MatchingKeys(signer, publicKey, privateKey)`:
  a signature made with the private key is non-empty and verifies under the matching public key.
- **Time is a parameter.** `Date.now()` becomes a parameter `now`.
  - `Blockchain.js` stores `Date.now().toString()`, which is modelled as `Decimal(now)`.
  - The voting chain stores the number itself.
- **Numbers are unbounded integers.** An amount is an `int`. For integer amounts below 1e21 in
  magnitude, `this.from + this.to + this.amount` is the text `FromText(from) + to + IntText(amount)`,
  where a `null` sender prints as `"null"`.
- **Snapshots, not shared objects.** The server pushes `Transaction` objects and never changes
  them after pushing. The model therefore stores their `TxRecord` snapshots.
- **Key generation is an input.** Key generation (`server.js:15-22`) is not modelled. The
  `Ledger` constructor receives the six key pairs instead.
- **Each `Block` stays apart.** The two block classes of the coin code hash their fields in
  different orders and name the link field differently, so each is its own datatype.
  - `Block.js` hashes index, previousHash, timestamp, transactions.
  - `Blockchain.js` hashes index, timestamp, transactions, prevHash.
- **What the admission rule does not check.** Lemmas state these gaps of `server.js` as
  they are.
  - `server.js` never checks that an amount is positive. Any amount up to the committed
    balance is accepted, negative ones included (`NegativeAmountAccepted`). A mined negative
    transfer takes value from its recipient (`NegativeTransferDebitsRecipient`).
  - The balance check reads only the committed chain (`PendingDebitsIgnored`). Pending
    transfers are caught only when they repeat an equal (sender, amount) pair. Two transfers
    with different amounts, each within the balance but together beyond it, are both accepted
    (`OverdraftWindow`). Once mined, the sender's balance is negative (`OverdraftMined`).
  - The verdict names follow the server's messages: `InvalidUsers`, `DoubleSpendDetected`,
    `InsufficientBalance`, `InvalidSignature`, `NothingToMine`.
- **Tamper evidence.** The chain is tamper-evident only as far as SHA-256 has no collisions:
  `TamperEvident` assumes no collision between the two chains it compares, and nothing more.
- **What is proved about the ledger.**
  - The `Ledger` invariant `Valid()` is established by the constructor and kept by
    `SubmitTransaction` and `Mine`. It says:
    - the chain is linked;
    - genesis holds the six issuances;
    - every later block and the pending pool hold only admitted, signature-checked transfers
      between user keys;
    - each pending amount fits its sender's committed balance;
    - no two pending transfers share a sender and an amount;
    - when the users' keys are distinct, the users together hold exactly 600 coins.
  - `GetBalance` and `GetTransactionHistory` are proved against the functions `Balance` and
    `History`.

## Model

| member | source | states |
|---|---|---|
| Crypto.Decimal | Secure_coin/Secure_coin/blockchain/Blockchain.js:35 | the text of a timestamp is non-empty, all digits, starts with `0` only for zero, and denotes the number itself |
| Crypto.IntText | Secure_coin/Secure_coin/blockchain/Transaction.js:12 | the text of an amount is non-empty, starts with `-` exactly for a negative amount, and denotes the amount |
| Crypto.IntTextInjective | Secure_coin/Secure_coin/blockchain/Transaction.js:12 | different amounts have different texts |
| Transactions.PayloadBindsAmount | Secure_coin/Secure_coin/blockchain/Transaction.js:10-21 | for a fixed sender and recipient the signed text `from + to + amount` determines the amount |
| Transactions.Verifies | Secure_coin/Secure_coin/blockchain/Transaction.js:16-21 | true exactly when a non-empty signature is present, there is a sender key, and the signer accepts the signature over `from + to + amount` under that key |
| Transactions.SignedWith | Secure_coin/Secure_coin/blockchain/Transaction.js:10-14 | signing keeps sender, recipient and amount and sets the signature to the signer's output over the payload |
| Transactions.SignThenVerify | Secure_coin/Secure_coin/blockchain/Transaction.js:10-21 | signing with the private key that matches the sender key makes the record verify, and keeps sender, recipient and amount |
| Transactions.VerifyUsesOwnFields | Secure_coin/Secure_coin/blockchain/Transaction.js:16-20 | if two records carry the same signature but only one verifies, the signature is present and they differ in sender key or signed payload |
| Transactions.Transaction.constructor | Secure_coin/Secure_coin/blockchain/Transaction.js:4-8 | stores sender, recipient and amount; there is no signature yet |
| Transactions.Transaction.SignTransaction | Secure_coin/Secure_coin/blockchain/Transaction.js:10-14 | sets only the signature, to the signer's output over the current payload |
| Transactions.Transaction.Record | Secure_coin/Secure_coin/blockchain/Blockchain.js:64 | the `{ ...tx }` copy carries the object's four fields and so the same signed payload |
| Transactions.Transaction.VerifySignature | Secure_coin/Secure_coin/blockchain/Transaction.js:16-21 | true exactly when a non-empty signature is present, `from` is a key, and the verifier accepts the signature over the payload under `from` |
| StandaloneBlock.NewBlock | Secure_coin/Secure_coin/blockchain/Block.js:4-16 | stores the four fields and a hash computed from them (index, previousHash, timestamp, transactions) |
| StandaloneBlock.OmittedPreviousHashIsEmpty | Secure_coin/Secure_coin/blockchain/Block.js:4 | leaving out the previous hash gives the block built with `''` |
| StandaloneBlock.SealedIsDeterministic | Secure_coin/Secure_coin/blockchain/Block.js:12-16 | two sealed blocks with equal content fields are equal |
| CoinChain.NewBlock | Secure_coin/Secure_coin/blockchain/Blockchain.js:3-22 | stores the fields and a hash over index, timestamp, transactions, prevHash |
| CoinChain.ContentFixesHash | Secure_coin/Secure_coin/blockchain/Blockchain.js:12-22 | `calculateHash` reads only index, timestamp, transactions and prevHash: two sealed blocks that agree on them are equal |
| CoinChain.TamperEvident | Secure_coin/Secure_coin/blockchain/Blockchain.js:12-45 | unless the hash collides, two linked chains of equal length with the same last hash are the same chain |
| CoinChain.LinkedStep | Secure_coin/Secure_coin/blockchain/Blockchain.js:31-45 | appending a block built for the current tail keeps every index, seal and hash link of the chain |
| CoinChain.HistoryAppend | Secure_coin/Secure_coin/blockchain/Blockchain.js:60-68 | the history of a chain with one more block is the old history followed by that block's transactions |
| CoinChain.HistoryLength | Secure_coin/Secure_coin/blockchain/Blockchain.js:60-68 | the history holds exactly as many transactions as the blocks do together |
| CoinChain.BalanceAppend | Secure_coin/Secure_coin/blockchain/Blockchain.js:48-57 | one more block changes a balance by exactly that block's incoming minus outgoing amounts |
| CoinChain.TransferConserves | Secure_coin/Secure_coin/blockchain/Blockchain.js:50-55 | a block with one transfer between two different keys debits the sender, credits the recipient, keeps their sum and leaves every other balance alone |
| CoinChain.SelfTransfersChangeNothing | Secure_coin/Secure_coin/blockchain/Blockchain.js:52-53 | a block of transfers from a key to itself changes no balance |
| CoinChain.TransfersConserve | Secure_coin/Secure_coin/blockchain/Blockchain.js:50-55 | transfers among a set of distinct keys leave those keys' total unchanged |
| CoinChain.HoldingsAppend | Secure_coin/Secure_coin/blockchain/Blockchain.js:48-57 | one more block changes the total held by a set of keys by that block's net flow into the set |
| CoinChain.Blockchain.constructor | Secure_coin/Secure_coin/blockchain/Blockchain.js:26-28 | the chain starts empty |
| CoinChain.Blockchain.GetLastBlock | Secure_coin/Secure_coin/blockchain/Blockchain.js:71-73 | none (undefined) exactly when the chain is empty, otherwise the last block |
| CoinChain.Blockchain.CreateBlockFromTransactions | Secure_coin/Secure_coin/blockchain/Blockchain.js:31-40 | the block extends the chain: index is the length, the link is the tail's hash or `'0'`, it is sealed, and it holds the given transactions and the time's text |
| CoinChain.Blockchain.AddBlock | Secure_coin/Secure_coin/blockchain/Blockchain.js:43-45 | the chain becomes the old chain followed by the block |
| CoinChain.Blockchain.GetBalance | Secure_coin/Secure_coin/blockchain/Blockchain.js:48-57 | the replay loop returns `Balance`: everything received by the key minus everything it sent, over the whole history |
| CoinChain.Blockchain.GetTransactionHistory | Secure_coin/Secure_coin/blockchain/Blockchain.js:60-68 | the copy is every transaction of every block in chain order, with `TxCount` entries |
| CoinServer.FindUser | Secure_coin/Secure_coin/server.js:63-67 | a found user is on the roster under that name; nothing is found exactly when no user has the name |
| CoinServer.PublicKeys | Secure_coin/Secure_coin/server.js:40-41 | the users' public keys, one per user, in roster order |
| CoinServer.Issuance | Secure_coin/Secure_coin/server.js:40-43 | one transaction per user, in order: no sender, no signature, the user's key as recipient, amount 100 |
| CoinServer.DoubleSpendAppend | Secure_coin/Secure_coin/server.js:71-73 | after a push, the same-sender-same-amount test fires exactly for the old pairs and the pushed transaction's own pair |
| CoinServer.SignedTransfer | Secure_coin/Secure_coin/server.js:82-83 | the server-built transfer names the sender's key, the recipient's key and the amount, and verifies when the sender's key pair matches |
| CoinServer.Screen | Secure_coin/Secure_coin/server.js:60-91 | the checks run in the server's order: invalid users exactly when a name is unknown; for known users, double-spend exactly when the heuristic fires, insufficient balance exactly when it does not and the amount exceeds the committed balance, invalid signature exactly when both pass and the signature fails, accepted exactly when all pass |
| CoinServer.HonestKeysPassSignature | Secure_coin/Secure_coin/server.js:82-87 | with matching key pairs the signature check never rejects |
| CoinServer.PendingDebitsIgnored | Secure_coin/Secure_coin/server.js:67-80 | if the heuristic does not fire, the pending pool makes no difference to the verdict |
| CoinServer.OverdraftWindow | Secure_coin/Secure_coin/server.js:70-80 | two different amounts from one sender, each within the balance and together beyond it, are both accepted one after the other |
| CoinServer.OverdraftMined | Secure_coin/Secure_coin/server.js:93-98 | mining those two transfers lowers the sender by both amounts and leaves the balance negative |
| CoinServer.NegativeAmountAccepted | Secure_coin/Secure_coin/server.js:60-91 | a negative amount within the committed balance is accepted, since no check asks for a positive amount |
| CoinServer.NegativeTransferDebitsRecipient | Secure_coin/Secure_coin/server.js:82-98 | a mined negative transfer lowers the recipient's balance and raises the sender's |
| CoinServer.IssuanceSendsNothing | Secure_coin/Secure_coin/server.js:40-43 | the genesis issuances debit no key |
| CoinServer.IssuanceReceived | Secure_coin/Secure_coin/server.js:40-43 | with distinct keys, the issuances credit a key 100 exactly when it belongs to a user |
| CoinServer.GenesisBalances | Secure_coin/Secure_coin/server.js:39-46 | with distinct keys, after genesis a user's key holds 100 and any other key holds 0 |
| CoinServer.EveryUserFunded | Secure_coin/Secure_coin/server.js:39-46 | with distinct keys, after genesis every user holds 100 |
| CoinServer.GenesisSupply | Secure_coin/Secure_coin/server.js:39-46 | with distinct keys, after genesis the users hold 100 coins each between them (600 for six users) |
| CoinServer.GenesisChain | Secure_coin/Secure_coin/server.js:39-46 | the chain holding only the genesis block is linked; with distinct keys every user holds 100 and the users hold 100 each between them |
| CoinServer.PoolGrows | Secure_coin/Secure_coin/server.js:71-89 | pushing an admitted transfer that did not trip the heuristic keeps the pool admitted and free of repeated (sender, amount) pairs |
| CoinServer.AdmittedKeepSupply | Secure_coin/Secure_coin/server.js:93-98 | with distinct keys, mining a block of admitted transfers keeps the users' total |
| CoinServer.Ledger.constructor | Secure_coin/Secure_coin/server.js:13-46 | start-up builds the six issuances through the pending pool, commits them as block 0 linked to `'0'`, empties the pool and establishes the invariant; each user holds 100 |
| CoinServer.Ledger.SubmitTransaction | Secure_coin/Secure_coin/server.js:60-91 | the verdict is `Screen` of the old state; the chain is untouched; the signed transfer is appended to the pool exactly when accepted; the invariant is kept |
| CoinServer.Ledger.Mine | Secure_coin/Secure_coin/server.js:93-100 | an empty pool is refused and nothing changes; otherwise the whole pool becomes the next block, the pool is emptied and the invariant is kept |
| VoteChain.NewBlock | Secure_coin/Secure_coin/vote/decentralized-voting/blockchain.js:3-16 | stores the fields and a hash over index, previousHash, timestamp, data |
| VoteChain.ContentFixesHash | Secure_coin/Secure_coin/vote/decentralized-voting/blockchain.js:12-16 | `calculateHash` reads only index, previousHash, timestamp and data: two sealed blocks that agree on them are equal |
| VoteChain.VotedIn | Secure_coin/Secure_coin/vote/decentralized-voting/blockchain.js:43-45 | true exactly when some block holds a ballot of this voter |
| VoteChain.NoBallotNoVotes | Secure_coin/Secure_coin/vote/decentralized-voting/blockchain.js:47-54 | a candidate on no ballot has no votes |
| VoteChain.CandidatesAppend | Secure_coin/Secure_coin/vote/decentralized-voting/blockchain.js:49-51 | one more ballot adds exactly its candidate to the candidates named |
| VoteChain.TallyCoversBallots | Secure_coin/Secure_coin/vote/decentralized-voting/blockchain.js:47-54 | over ballots only, the tallies of a duplicate-free list that covers every named candidate add up to the number of ballots |
| VoteChain.ResultsAddUp | Secure_coin/Secure_coin/vote/decentralized-voting/blockchain.js:47-54 | on a well-formed chain the tallies add up to the number of blocks after genesis |
| VoteChain.Blockchain.constructor | Secure_coin/Secure_coin/vote/decentralized-voting/blockchain.js:20-22 | the chain is the genesis block alone and is well formed |
| VoteChain.Blockchain.CreateGenesisBlock | Secure_coin/Secure_coin/vote/decentralized-voting/blockchain.js:24-26 | index 0, link `'0'`, data `{ votes: [] }`, sealed |
| VoteChain.Blockchain.GetLatestBlock | Secure_coin/Secure_coin/vote/decentralized-voting/blockchain.js:28-30 | the last block of the chain; on a well-formed chain it is sealed and carries the last index |
| VoteChain.Blockchain.AddBlock | Secure_coin/Secure_coin/vote/decentralized-voting/blockchain.js:32-41 | appends a sealed ballot block at the next index, linked to the latest block's hash; the chain stays well formed |
| VoteChain.Blockchain.IsVoterAlreadyVoted | Secure_coin/Secure_coin/vote/decentralized-voting/blockchain.js:43-45 | true exactly when some block of the chain holds a ballot of this voter |
| VoteChain.Blockchain.GetResults | Secure_coin/Secure_coin/vote/decentralized-voting/blockchain.js:47-54 | the keys are exactly the candidates on the ballots after genesis, and each count is that candidate's number of ballots |
| VoteServer.Present | Secure_coin/Secure_coin/vote/decentralized-voting/server.js:17 | a field passes `!field` exactly when it is neither absent nor the empty string |
| VoteServer.Eligible | Secure_coin/Secure_coin/vote/decentralized-voting/server.js:21-28 | eligible exactly when the voter is registered and has no ballot on the chain |
| VoteServer.BallotKeepsOneVote | Secure_coin/Secure_coin/vote/decentralized-voting/server.js:21-30 | appending an eligible voter's ballot keeps one ballot per registered voter |
| VoteServer.Server.constructor | Secure_coin/Secure_coin/vote/decentralized-voting/server.js:10-12 | a fresh voting chain holding only its genesis block |
| VoteServer.Server.Vote | Secure_coin/Secure_coin/vote/decentralized-voting/server.js:14-32 | missing fields, then an unknown voter, then an earlier ballot are refused in that order and leave the chain unchanged; otherwise the ballot is recorded as the next block; one ballot per registered voter is kept |

## Left out

- Express routing, HTTP status codes and response bodies. Verdict datatypes take their place.
- Key generation with RSA-2048 (`server.js:15-22`) and the per-user JSON files (`server.js:24-34`). They are I/O; the key pairs are an input.
- The read-only routes `/api/balances`, `/api/user-balance`, `/api/blockchain`, `/api/current-block`, `/api/full-chain`, `/api/transactions`, `/api/balances/csv` and the voting `/results`. Each only calls `GetBalance`, `GetLastBlock`, `GetResults` or reads the chain, all of which are modelled.
- `/api/save`, `/api/load`, `/api/connect-peer` and `listen`. They are file and network I/O, and loading replaces the chain with unverified data.
- Reading `voterRegistry.json`. The registry is the list of registered voter ids, given to the server's constructor.
- The internals of SHA-256, RSA, `JSON.stringify` and `Date.now`. They are parameters of the model.
- JavaScript's dynamic typing:
  - an amount that is not a number, such as a string that `+` concatenates and `>` coerces;
  - names such as `"toString"` that `users[from]` finds on the object prototype;
  - candidate names such as `"toString"` or `"__proto__"` in `getResults`. `counts[candidate]` starts from the inherited member there (a string count, or an ignored assignment). The model counts every name exactly;
  - request fields that are not strings.
- Amounts are JavaScript numbers (IEEE doubles), modelled as unbounded integers. Three things are
  not modelled:
  - fractional JSON amounts such as `0.5`, which `server.js` accepts and mines;
  - rounding of balances above 2^53;
  - the exponent text (`"-1e+21"`) that `+` produces for amounts of 1e21 and more, which `IntText` does not match.
  The browser client sends `parseInt` values, which are integers.
- Transactions.Verifies: with a `null` sender, Node's `verify` throws. The model answers false instead. Only genesis issuances have no sender, and the code never verifies them.
- VoteChain.Blockchain.AddBlock: takes a ballot `(voterId, candidate)` rather than arbitrary data. The `/vote` handler is the only caller, and it always passes a ballot.
- CoinServer.Ledger.constructor: it states the 100-coin balance of each user and the 600-coin total only when the six generated public keys are distinct. Nothing is assumed about the key generator.
- Concurrency. Node runs each handler to completion, so the model runs one request at a time.
- Object identity. Transactions and blocks are values, not shared references. The code never mutates them after they are stored.
