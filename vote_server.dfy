/**
 * The voting server (vote/decentralized-voting/server.js): the `/vote`
 * handler checks that both fields are present, that the voter is registered
 * and has not voted yet, and only then appends a ballot block. The voter
 * registry is given as the list of the registered voters' ids.
 */
module VoteServer {
  import opened Crypto
  import opened VoteChain

  /** The answer of `/vote`. */
  datatype VoteOutcome = MissingFields | InvalidVoter | AlreadyVoted | Recorded(block: Block)

  /** A request field passes `!field` only when it is there and not the empty string. */
  predicate Present(field: Option<string>)
    ensures Present(field) <==> field != None && field != Some("")
  {
    field.Some? && field.value != ""
  }

  /** Every ballot after genesis comes from a registered voter, and no voter has two ballots. */
  ghost predicate OneVotePerVoter(registry: seq<string>, chain: seq<Block>)
  {
    && (forall i :: 1 <= i < |chain| ==> chain[i].data.Ballot? && chain[i].data.voterId in registry)
    && (forall i, j :: 1 <= i < j < |chain| && chain[i].data.Ballot? && chain[j].data.Ballot? ==>
          chain[i].data.voterId != chain[j].data.voterId)
  }

  /** The registry membership and "already voted" checks together, as the handler applies them after the field check. */
  function Eligible(registry: seq<string>, chain: seq<Block>, voterId: string): (ok: bool)
    ensures ok <==>
      && voterId in registry
      && forall i :: 0 <= i < |chain| && chain[i].data.Ballot? ==> chain[i].data.voterId != voterId
  {
    voterId in registry && !VotedIn(chain, voterId)
  }

  /** Appending a ballot of an eligible voter keeps one vote per registered voter. */
  lemma BallotKeepsOneVote(registry: seq<string>, chain: seq<Block>, b: Block)
    requires OneVotePerVoter(registry, chain)
    requires b.data.Ballot? && Eligible(registry, chain, b.data.voterId)
    ensures OneVotePerVoter(registry, chain + [b])
  {
    var all := chain + [b];
    forall i | 1 <= i < |all| ensures all[i].data.Ballot? && all[i].data.voterId in registry {
      if i < |chain| { assert all[i] == chain[i]; }
    }
    forall i, j | 1 <= i < j < |all| && all[i].data.Ballot? && all[j].data.Ballot?
      ensures all[i].data.voterId != all[j].data.voterId
    {
      assert all[i] == chain[i];
      if j < |chain| { assert all[j] == chain[j]; }
    }
  }

  class Server {
    const registry: seq<string>
    const votingChain: Blockchain

    ghost predicate Valid()
      reads this, votingChain
    {
      votingChain.Valid() && OneVotePerVoter(registry, votingChain.chain)
    }

    /** Server start-up: a fresh voting chain holding only its genesis block. */
    constructor (registry: seq<string>, hasher: Hasher, now: nat)
      ensures Valid() && fresh(votingChain)
      ensures this.registry == registry && votingChain.hasher == hasher
      ensures votingChain.chain == [votingChain.CreateGenesisBlock(now)]
    {
      this.registry := registry;
      votingChain := new Blockchain(hasher, now);
    }

    /** The `/vote` handler. */
    method Vote(voterId: Option<string>, candidate: Option<string>, now: nat) returns (r: VoteOutcome)
      requires Valid()
      modifies votingChain
      ensures Valid()
      ensures !Present(voterId) || !Present(candidate) ==> r == MissingFields
      ensures Present(voterId) && Present(candidate) && voterId.value !in registry ==> r == InvalidVoter
      ensures (Present(voterId) && Present(candidate) && voterId.value in registry
               && old(votingChain.IsVoterAlreadyVoted(voterId.value))) ==> r == AlreadyVoted
      ensures r.Recorded? <==>
              (Present(voterId) && Present(candidate) && Eligible(registry, old(votingChain.chain), voterId.value))
      ensures r.Recorded? ==>
              && votingChain.chain == old(votingChain.chain) + [r.block]
              && r.block.data == Ballot(voterId.value, candidate.value)
              && r.block.index == old(|votingChain.chain|)
              && r.block.previousHash == old(votingChain.GetLatestBlock()).hash
              && r.block.timestamp == now
      ensures !r.Recorded? ==> votingChain.chain == old(votingChain.chain)
    {
      if !Present(voterId) || !Present(candidate) {
        return MissingFields;
      }
      if voterId.value !in registry {
        return InvalidVoter;
      }
      if votingChain.IsVoterAlreadyVoted(voterId.value) {
        return AlreadyVoted;
      }
      ghost var before := votingChain.chain;
      var block := votingChain.AddBlock(voterId.value, candidate.value, now);
      BallotKeepsOneVote(registry, before, block);
      r := Recorded(block);
    }
  }
}
