# sedeprot in Dafny

A model of sedeprot, a self-enforcing protocol for collaborative decision-making.
A fixed roster of participants proposes values round by round. Each participant
holds an append-only list of distinct proposals, one per round, earliest first.
A decision process has three parts:

- vote intake (`add_vote`) checks a vote and appends it to one participant's list;
- vote lookup (`get_votes`) returns every list, or one of them;
- the consent check (`check_consent`) does nothing until everyone has voted in the
  current round. It then starts the next round if no value is common to every
  participant's full history. Otherwise it reports the least combined score, the
  sum of each participant's zero-based rank of a common value, and the common
  values that reach it.

Files:

- `wrappers.dfy`: `Option` (Python's `None`) and `Result` (a value or the exception raised).
- `seqs.dfy`: duplicate-freedom, `list.index`, the set of a list, filtering.
- `participant.dfy`: the participant record (`Participant.add_vote`, `get_score`, `has_voted`)
  and the four exceptions as the `VoteError` enum.
- `decision.dfy`: the process state and its operations. The participants dictionary is a
  `Roster`: a sequence of participants with distinct names.
- `properties.dfy`: the invariant, its preservation, idempotence of the consent check, the
  freeze after consent, uniqueness of the verdict, score bounds, and runs of many calls.
- `scenarios.dfy`: the repository's test sessions as chains of concrete states, starting
  from `Init`; each lemma checks the calls of one step of a session.

Each operation is a pure function of an immutable state. An operation that raises in
the source returns `Err(e)`, and the caller keeps the old state. This is how "a refused
vote changes nothing" is modelled (`DecisionProperties.Step`).

After consent the process is frozen. The round is not advanced, and everyone has already
voted in it, so every later vote is refused (`ConsentFreezesVotes`, `ConsentIsFinal`).

## Model

| member | source | states |
|---|---|---|
| Participants.AddVote | sedeprot.py:31-36 | a vote is refused with DuplicateError exactly when the value is already anywhere in the list; otherwise the list grows by exactly that value at the end, and a duplicate-free list stays duplicate-free |
| Participants.HasVoted | sedeprot.py:42-44 | the participant has voted in round r exactly when the list holds more than r values; round r is recorded at position r |
| Participants.HasVotedAfterAddVote | sedeprot.py:31-44 | after an accepted vote the participant has voted in round r exactly when they had before, or r is the position just filled |
| Participants.GetScore | sedeprot.py:38-40 | the rank is a valid position holding the value, and no earlier position holds it (first occurrence, as `list.index`) |
| Participants.GetScoreOfRound | sedeprot.py:38-40 | in a duplicate-free list, the value proposed in round k has rank k (`index` inverts indexing) |
| Participants.GetScoreStableUnderAddVote | sedeprot.py:31-40 | an accepted vote never changes the rank of a value proposed earlier |
| Decisions.Collapse | sedeprot.py:68 | the roster built from a name list has exactly the set of listed names, one entry per name, none with votes, and no more entries than names |
| Decisions.Init | sedeprot.py:48-70 | a new process is in round 0, keeps the admissible answers, and has one vote-less participant per distinct name |
| Decisions.Admits | sedeprot.py:79 | a value passes the admissible-answers check when there is no set, when the set is empty (falsy), or when the value is in it |
| Decisions.AddVote | sedeprot.py:72-85 | checks in order: unknown name gives KeyError, then an inadmissible value gives ValueError (an absent or empty admissible set admits everything), then a vote already cast this round gives AlreadyVotedError, then a value used in an earlier round gives DuplicateError; success exactly when all checks pass, and then only the named participant's list changes, by appending the value, with round and admissible set kept |
| Decisions.AllVotes | sedeprot.py:97 | the map's keys are exactly the roster names and each maps to that participant's full list |
| Decisions.GetVotes | sedeprot.py:87-97 | no name or the empty name returns every roster name with its exact list; a non-empty unknown name gives KeyError; a known name gives a one-entry map with its list |
| Decisions.Intersection | sedeprot.py:112 | a value is in the folded set intersection exactly when every participant proposed it in some round |
| Decisions.Score | sedeprot.py:116 | the combined score of a value every participant proposed: the sum over participants of its zero-based rank in their list |
| Decisions.Lowest | sedeprot.py:114-117 | the result is the combined score of some candidate and at most the score of every candidate (the minimum) |
| Decisions.CheckConsent | sedeprot.py:99-122 | votes and admissible set never change; the round never decreases and grows by at most one; if someone has not voted this round, the state is untouched and the verdict is (round, None, None); if all voted and no value is common, the round is incremented and the verdict is (round+1, None, None); if some value is common, the state is untouched and the score is the least combined score over common values, with the winners being exactly the common values reaching it (never empty) |
| DecisionProperties.HasVotedMeansOneAhead | sedeprot.py:42-44 | under the invariant, has_voted in the current round holds exactly when the list is one longer than the round number, and fails exactly when it equals the round number |
| DecisionProperties.InitValid | sedeprot.py:68-70 | a new process satisfies the invariant, and get_votes() maps each distinct roster name, once, to an empty list |
| DecisionProperties.AddVotePreservesValid | sedeprot.py:72-85 | an accepted vote keeps every list duplicate-free and every list length between round and round+1 |
| DecisionProperties.AddVoteKeepsNames | sedeprot.py:85 | an accepted vote keeps the roster's names |
| DecisionProperties.CheckConsentPreservesValid | sedeprot.py:111-122 | the consent check keeps the invariant, including when it starts a new round |
| DecisionProperties.CheckConsentIdempotent | sedeprot.py:111-122 | under the invariant, checking consent twice in a row gives the same state and the same triple as checking once, in all three outcomes |
| DecisionProperties.ScoreReportedIffConsented | sedeprot.py:111-122 | the check reports a score and winners exactly when everyone has voted this round and some value is common to all, and the winners then meet the consent specification |
| DecisionProperties.ConsentFreezesVotes | sedeprot.py:82-83 | once consent is reached, every vote is refused; a roster member with an admissible value is refused with AlreadyVotedError |
| DecisionProperties.ConsentIsFinal | sedeprot.py:111-119 | once consent is reached, no sequence of votes and checks changes the state, and every later check returns the same triple |
| DecisionProperties.StepPreservesValid | sedeprot.py:72-122 | one call keeps the invariant and the roster names, and never lowers the round |
| DecisionProperties.RunPreservesValid | sedeprot.py:72-122 | any sequence of calls keeps the invariant and the roster names, and never lowers the round |
| DecisionProperties.ReachableStatesValid | sedeprot.py:68-122 | every state reached from a new process with a non-empty roster by any sequence of calls satisfies the invariant and keeps exactly the distinct roster names |
| DecisionProperties.ScoreBoundsEachRank | sedeprot.py:116 | each participant's rank of a common value is at most its combined score |
| DecisionProperties.ScoreZeroIffFirstChoice | sedeprot.py:116 | a common value scores 0 exactly when it was every participant's first proposal |
| DecisionProperties.ScoreAtMostRoundPerParticipant | sedeprot.py:116 | when no list is longer than r+1, a combined score is at most r times the number of participants |
| DecisionProperties.ConsentIsUnique | sedeprot.py:113-119 | any two (score, winners) pairs meeting the consent specification are equal, so the verdict does not depend on the order in which the common values are visited |
| DecisionProperties.ConsentScoreBound | sedeprot.py:113-119 | under the invariant, the score reported at consent is at most the round number times the number of participants |
| Scenarios.InitialState | test_sedeprot.py:6-8 | two participants with no votes: the check reports (0, None, None) |
| Scenarios.WaitingForVotes | sedeprot.py:52-63 | with one participant still to vote, the check reports the current round and changes nothing |
| Scenarios.SimpleConsent | test_sedeprot.py:42-47 | both vote "foo" in round 0: consent (0, 0, {"foo"}) |
| Scenarios.NoCommonValueAdvances | test_sedeprot.py:70-74 | "foo" against "bar" in round 0: the check starts round 1 |
| Scenarios.MultiConsent | test_sedeprot.py:75-80 | after swapping choices in round 1, both values tie: consent (1, 1, {"foo", "bar"}) |
| Scenarios.RefusedVotes | test_sedeprot.py:11-30 | an unknown name, a second vote in one round and a value repeated from an earlier round are refused with the matching error |
| Scenarios.AdmissibleVotesAccepted | test_sedeprot.py:33-37 | with admissible answers "foo" and "bar", the process starts from `Init`, both admissible votes are accepted, and the check starts round 1 |
| Scenarios.AdmissibleAnswers | test_sedeprot.py:38-39 | in the state so reached, "baz" is refused with ValueError; with an empty admissible set it would be accepted |
| Scenarios.LookupsBeforeVoting | test_sedeprot.py:103-116 | before any vote every name maps to an empty list, a single name to its empty list, and an unknown name gives KeyError |
| Scenarios.LookupsAfterVoting | test_sedeprot.py:83-100 | after two rounds every name maps to its exact list, the empty name returns everything, and a single name gets its own list |
| Scenarios.DuplicateParticipants | test_sedeprot.py:119-121 | a roster naming "a" twice has a single participant "a" |
| Scenarios.ComplexInit | test_sedeprot.py:50-51 | a roster of "a", "b" and "c" starts with three vote-less participants in round 0 |
| Scenarios.ComplexRound0Votes | test_sedeprot.py:52-54 | the round-0 votes "a", "p", "x" are accepted, in turn, from the initial state |
| Scenarios.ComplexRound1Votes | test_sedeprot.py:56-58 | after the advance to round 1, the votes "x", "a", "y" are accepted |
| Scenarios.ComplexRound2Votes | test_sedeprot.py:60-62 | after the advance to round 2, the votes "b", "q", "b" are accepted |
| Scenarios.ComplexRound3Votes | test_sedeprot.py:64-66 | after the advance to round 3, the votes "y", "b", "a" are accepted |
| Scenarios.ComplexRoundsAdvance | test_sedeprot.py:50-63 | three participants: rounds 0, 1 and 2 end with no common value, and the check reports rounds 1, 2 and 3 |
| Scenarios.ComplexConsent | test_sedeprot.py:64-67 | in round 3, "a" scores 4 and "b" scores 7: consent (3, 4, {"a"}) |

## Left out

- Decisions.CheckConsent: requires a non-empty roster. On an empty roster Python's `set.intersection()` is called with no arguments and raises TypeError, which is not a designed outcome; that error path is not modelled.
- The order of `best_solution`: the source builds it by iterating over a set, so its order is hash-dependent. The model returns the winners as a set, and the tests compare them as a set.
- `valid_answers` is modelled as an optional set. The source only tests its truthiness and membership, and a list with the same elements behaves the same under both.
- Aliasing: `get_votes` returns the participants' own lists in Python, and a caller could mutate them. The model returns values.
- Exception classes are modelled as the `VoteError` enum carried by `Result`; Python's exception hierarchy and messages are not modelled.
- Names and values other than strings (any hashable in Python) are not modelled.
- setup.py (packaging metadata, reading the version from a file) is I/O and not part of this model.
- Concurrency is not modelled: the process is single-threaded and synchronous, and callers serialise access.
