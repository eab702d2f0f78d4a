/** A participant: a name and the append-only list of values they proposed, one per round. */
module Participants {
  import opened Wrappers
  import opened Seqs

  /** The ways a vote can be refused, one per exception the process raises. */
  datatype VoteError =
    | KeyError            // the name is not on the roster
    | ValueError          // the value is outside a non-empty set of admissible answers
    | AlreadyVotedError   // the participant already voted in the current round
    | DuplicateError      // the participant proposed this value in some earlier round

  datatype Participant = Participant(name: string, votes: seq<string>)

  /** A participant who has not voted yet. */
  function Fresh(name: string): Participant {
    Participant(name, [])
  }

  /** Appends `value` to the participant's acceptable choices, refusing a value
      proposed before in any round. */
  function AddVote(p: Participant, value: string): (r: Result<Participant, VoteError>)
    ensures r.Err? <==> value in p.votes
    ensures r.Err? ==> r.error == DuplicateError
    ensures r.Ok? ==> r.value.name == p.name && |r.value.votes| == |p.votes| + 1
    ensures r.Ok? ==> r.value.votes[..|p.votes|] == p.votes && r.value.votes[|p.votes|] == value
    ensures r.Ok? && NoDuplicates(p.votes) ==> NoDuplicates(r.value.votes)
  {
    if value !in p.votes then
      Ok(p.(votes := p.votes + [value]))
    else
      Err(DuplicateError)
  }

  /** The zero-based rank of `value` among the participant's choices. */
  function GetScore(p: Participant, value: string): (rank: nat)
    requires value in p.votes
    ensures rank < |p.votes| && p.votes[rank] == value
    ensures forall k :: 0 <= k < rank ==> p.votes[k] != value
  {
    IndexOf(p.votes, value)
  }

  /** Whether the participant has already voted in round `roundNumber`: round R
      is recorded at position R of the vote list. */
  predicate HasVoted(p: Participant, roundNumber: nat) {
    |p.votes| > roundNumber
  }

  /** With no repeated values, the rank of the value proposed in round k is k. */
  lemma GetScoreOfRound(p: Participant, k: nat)
    requires NoDuplicates(p.votes)
    requires k < |p.votes|
    ensures GetScore(p, p.votes[k]) == k
  {
  }

  /** A successful vote never changes the rank of a value proposed earlier. */
  lemma GetScoreStableUnderAddVote(p: Participant, value: string, earlier: string)
    requires AddVote(p, value).Ok?
    requires earlier in p.votes
    ensures earlier in AddVote(p, value).value.votes
    ensures GetScore(AddVote(p, value).value, earlier) == GetScore(p, earlier)
  {
    IndexOfStableUnderAppend(p.votes, value, earlier);
  }

  /** An accepted vote fills exactly the next round: the participant has now
      voted in round r iff they had before, or r is the round just recorded. */
  lemma HasVotedAfterAddVote(p: Participant, value: string, r: nat)
    requires AddVote(p, value).Ok?
    ensures HasVoted(AddVote(p, value).value, r) <==> HasVoted(p, r) || r == |p.votes|
  {
  }
}
