/**
 * The voting chain (vote/decentralized-voting/blockchain.js): a genesis block,
 * blocks appended with the latest block's hash as their link, the "already
 * voted" lookup and the per-candidate tally that skips genesis.
 */
module VoteChain {
  import opened Crypto

  /** The `previousHash` of the genesis block. */
  const Sentinel: string := "0"

  /** A block's data: the genesis payload `{ votes: [] }` or a ballot `{ voterId, candidate }`. */
  datatype VoteData = Genesis(votes: seq<string>) | Ballot(voterId: string, candidate: string)

  datatype Block = Block(index: nat, timestamp: nat, data: VoteData, previousHash: string, hash: string)

  type Hasher = Hashing<VoteData>

  /** The text this file's `calculateHash` hashes: index, previous hash, timestamp, serialised data. */
  function HashInput(h: Hasher, index: nat, previousHash: string, timestamp: nat, data: VoteData): string
  {
    Decimal(index) + previousHash + Decimal(timestamp) + h.stringify(data)
  }

  function CalculateHash(h: Hasher, b: Block): string
  {
    h.sha256(HashInput(h, b.index, b.previousHash, b.timestamp, b.data))
  }

  ghost predicate Sealed(h: Hasher, b: Block)
  {
    b.hash == CalculateHash(h, b)
  }

  /** `new Block(index, timestamp, data, previousHash = '')`: the hash is computed once, from the stored fields. */
  function NewBlock(h: Hasher, index: nat, timestamp: nat, data: VoteData, previousHash: string := ""): (b: Block)
    ensures b.index == index && b.timestamp == timestamp && b.data == data && b.previousHash == previousHash
    ensures Sealed(h, b)
  {
    Block(index, timestamp, data, previousHash, h.sha256(HashInput(h, index, previousHash, timestamp, data)))
  }

  /** Two sealed blocks with the same index, previous hash, timestamp and data are the same block. */
  lemma ContentFixesHash(h: Hasher, a: Block, b: Block)
    requires Sealed(h, a) && Sealed(h, b)
    requires a.index == b.index && a.previousHash == b.previousHash && a.timestamp == b.timestamp && a.data == b.data
    ensures a == b
  {
  }

  ghost predicate LinkedAt(h: Hasher, chain: seq<Block>, i: nat)
    requires i < |chain|
  {
    && chain[i].index == i
    && Sealed(h, chain[i])
    && chain[i].previousHash == (if i == 0 then Sentinel else chain[i - 1].hash)
  }

  /**
   * The chain invariant: never empty, genesis first, ballots after it, every block
   * sealed, at its own index and linked to its predecessor's hash.
   */
  ghost predicate WellFormed(h: Hasher, chain: seq<Block>)
  {
    && |chain| >= 1
    && chain[0].data == Genesis([])
    && (forall i :: 0 <= i < |chain| ==> LinkedAt(h, chain, i))
    && (forall i :: 1 <= i < |chain| ==> chain[i].data.Ballot?)
  }

  /** `chain.some(block => block.data.voterId === voterId)`, scanning from the front. */
  function VotedIn(blocks: seq<Block>, voterId: string): (r: bool)
    ensures r <==> exists i :: 0 <= i < |blocks| && blocks[i].data.Ballot? && blocks[i].data.voterId == voterId
  {
    if blocks == [] then false
    else (blocks[0].data.Ballot? && blocks[0].data.voterId == voterId) || VotedIn(blocks[1..], voterId)
  }

  /** The candidates named by the ballots among `blocks`. */
  ghost function Candidates(blocks: seq<Block>): set<string>
  {
    set i | 0 <= i < |blocks| && blocks[i].data.Ballot? :: blocks[i].data.candidate
  }

  /** The number of ballots among `blocks` naming `candidate`. */
  function Votes(blocks: seq<Block>, candidate: string): nat
  {
    if blocks == [] then 0
    else
      var last := blocks[|blocks| - 1];
      Votes(blocks[..|blocks| - 1], candidate) + (if last.data.Ballot? && last.data.candidate == candidate then 1 else 0)
  }

  lemma {:induction false} NoBallotNoVotes(blocks: seq<Block>, candidate: string)
    requires candidate !in Candidates(blocks)
    ensures Votes(blocks, candidate) == 0
    decreases |blocks|
  {
    if blocks != [] {
      var init := blocks[..|blocks| - 1];
      assert Candidates(init) <= Candidates(blocks) by {
        forall c | c in Candidates(init) ensures c in Candidates(blocks) {
          var i :| 0 <= i < |init| && init[i].data.Ballot? && init[i].data.candidate == c;
          assert blocks[i] == init[i];
        }
      }
      NoBallotNoVotes(init, candidate);
      if blocks[|blocks| - 1].data.Ballot? {
        assert blocks[|blocks| - 1].data.candidate in Candidates(blocks);
      }
    }
  }

  lemma CandidatesAppend(blocks: seq<Block>, b: Block)
    requires b.data.Ballot?
    ensures Candidates(blocks + [b]) == Candidates(blocks) + {b.data.candidate}
  {
    var all := blocks + [b];
    forall c | c in Candidates(all) ensures c in Candidates(blocks) + {b.data.candidate} {
      var i :| 0 <= i < |all| && all[i].data.Ballot? && all[i].data.candidate == c;
      if i < |blocks| { assert all[i] == blocks[i]; }
    }
    forall c | c in Candidates(blocks) ensures c in Candidates(all) {
      var i :| 0 <= i < |blocks| && blocks[i].data.Ballot? && blocks[i].data.candidate == c;
      assert all[i] == blocks[i];
    }
    assert all[|blocks|] == b;
  }

  /** The sum of the tallies of the candidates `cs`. */
  function VoteSum(blocks: seq<Block>, cs: seq<string>): nat
  {
    if cs == [] then 0 else Votes(blocks, cs[0]) + VoteSum(blocks, cs[1..])
  }

  /** How often `x` occurs in `cs`. */
  function Occurrences(cs: seq<string>, x: string): nat
  {
    if cs == [] then 0 else (if cs[0] == x then 1 else 0) + Occurrences(cs[1..], x)
  }

  ghost predicate NoDuplicates(cs: seq<string>)
  {
    forall i, j :: 0 <= i < j < |cs| ==> cs[i] != cs[j]
  }

  lemma {:induction false} OccursOnce(cs: seq<string>, x: string)
    requires NoDuplicates(cs)
    ensures Occurrences(cs, x) == if x in cs then 1 else 0
    decreases |cs|
  {
    if cs != [] {
      OccursOnce(cs[1..], x);
      if cs[0] == x {
        assert x !in cs[1..] by {
          forall j | 0 <= j < |cs[1..]| ensures cs[1..][j] != x {
            assert cs[1..][j] == cs[j + 1];
          }
        }
      } else {
        assert x in cs <==> x in cs[1..] by {
          assert cs == [cs[0]] + cs[1..];
        }
      }
    }
  }

  lemma {:induction false} VoteSumStep(blocks: seq<Block>, cs: seq<string>)
    requires blocks != [] && blocks[|blocks| - 1].data.Ballot?
    ensures VoteSum(blocks, cs)
         == VoteSum(blocks[..|blocks| - 1], cs) + Occurrences(cs, blocks[|blocks| - 1].data.candidate)
    decreases |cs|
  {
    if cs != [] {
      VoteSumStep(blocks, cs[1..]);
    }
  }

  /**
   * The tallies of a list of distinct candidates that names every candidate on the ballots
   * add up to the number of ballots.
   */
  lemma {:induction false} TallyCoversBallots(blocks: seq<Block>, cs: seq<string>)
    requires forall i :: 0 <= i < |blocks| ==> blocks[i].data.Ballot?
    requires NoDuplicates(cs)
    requires forall c :: c in Candidates(blocks) ==> c in cs
    ensures VoteSum(blocks, cs) == |blocks|
    decreases |blocks|
  {
    if blocks == [] {
      VoteSumOfNothing(cs);
    } else {
      var init, last := blocks[..|blocks| - 1], blocks[|blocks| - 1];
      assert blocks == init + [last];
      CandidatesAppend(init, last);
      TallyCoversBallots(init, cs);
      VoteSumStep(blocks, cs);
      OccursOnce(cs, last.data.candidate);
    }
  }

  lemma {:induction false} VoteSumOfNothing(cs: seq<string>)
    ensures VoteSum([], cs) == 0
    decreases |cs|
  {
    if cs != [] {
      VoteSumOfNothing(cs[1..]);
    }
  }

  class Blockchain {
    const hasher: Hasher
    var chain: seq<Block>

    ghost predicate Valid()
      reads this
    {
      WellFormed(hasher, chain)
    }

    constructor (hasher: Hasher, now: nat)
      ensures this.hasher == hasher
      ensures Valid()
      ensures chain == [CreateGenesisBlock(now)]
    {
      this.hasher := hasher;
      chain := [NewBlock(hasher, 0, now, Genesis([]), Sentinel)];
    }

    /** `createGenesisBlock()`: index 0, data `{ votes: [] }`, previous hash "0". */
    function CreateGenesisBlock(now: nat): (b: Block)
      ensures b.index == 0 && b.timestamp == now && b.data == Genesis([]) && b.previousHash == Sentinel
      ensures Sealed(hasher, b)
    {
      NewBlock(hasher, 0, now, Genesis([]), Sentinel)
    }

    /** `getLatestBlock()`: on a valid chain, the block at the last index. */
    function GetLatestBlock(): (b: Block)
      reads this
      requires chain != []
      ensures b == chain[|chain| - 1]
      ensures Valid() ==> b.index == |chain| - 1 && Sealed(hasher, b)
    {
      assert Valid() ==> LinkedAt(hasher, chain, |chain| - 1);
      chain[|chain| - 1]
    }

    /** `addBlock(newData)` with the ballot `{ voterId, candidate }`; returns the appended block. */
    method AddBlock(voterId: string, candidate: string, now: nat) returns (newBlock: Block)
      requires Valid()
      modifies this
      ensures Valid()
      ensures chain == old(chain) + [newBlock]
      ensures newBlock.index == old(|chain|) && newBlock.previousHash == old(GetLatestBlock()).hash
      ensures newBlock.data == Ballot(voterId, candidate) && newBlock.timestamp == now
      ensures Sealed(hasher, newBlock)
    {
      newBlock := NewBlock(hasher, |chain|, now, Ballot(voterId, candidate), GetLatestBlock().hash);
      ghost var before := chain;
      chain := chain + [newBlock];
      forall i | 0 <= i < |chain| ensures LinkedAt(hasher, chain, i) {
        if i < |before| {
          assert LinkedAt(hasher, before, i);
          assert chain[i] == before[i];
          if i > 0 { assert chain[i - 1] == before[i - 1]; }
        }
      }
    }

    /** `isVoterAlreadyVoted(voterId)`: some block carries a ballot of this voter. */
    function IsVoterAlreadyVoted(voterId: string): (r: bool)
      reads this
      ensures r <==> exists i :: 0 <= i < |chain| && chain[i].data.Ballot? && chain[i].data.voterId == voterId
    {
      VotedIn(chain, voterId)
    }

    /** `getResults()`: for each candidate on a ballot after genesis, the number of ballots naming it. */
    method GetResults() returns (counts: map<string, nat>)
      requires Valid()
      ensures forall c :: c in counts <==> c in Candidates(chain[1..])
      ensures forall c :: c in counts ==> counts[c] == Votes(chain[1..], c)
    {
      counts := map[];
      var ballots := chain[1..];
      var i := 0;
      while i < |ballots|
        invariant 0 <= i <= |ballots|
        invariant forall c :: c in counts <==> c in Candidates(ballots[..i])
        invariant forall c :: c in counts ==> counts[c] == Votes(ballots[..i], c)
      {
        assert ballots[i] == chain[i + 1];
        var candidate := ballots[i].data.candidate;
        if candidate !in counts {
          NoBallotNoVotes(ballots[..i], candidate);
        }
        counts := counts[candidate := (if candidate in counts then counts[candidate] else 0) + 1];
        assert ballots[..i + 1] == ballots[..i] + [ballots[i]];
        CandidatesAppend(ballots[..i], ballots[i]);
        i := i + 1;
      }
      assert ballots[..i] == ballots;
    }
  }

  /** On a well-formed chain the tallies of all candidates add up to the number of blocks after genesis. */
  lemma ResultsAddUp(h: Hasher, chain: seq<Block>, cs: seq<string>)
    requires WellFormed(h, chain)
    requires NoDuplicates(cs)
    requires forall c :: c in Candidates(chain[1..]) ==> c in cs
    ensures VoteSum(chain[1..], cs) == |chain| - 1
  {
    var ballots := chain[1..];
    forall i | 0 <= i < |ballots| ensures ballots[i].data.Ballot? {
      assert ballots[i] == chain[i + 1];
    }
    TallyCoversBallots(ballots, cs);
  }
}
