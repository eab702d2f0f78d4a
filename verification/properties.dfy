/** Invariants of the decision process and properties relating several calls. */
module DecisionProperties {
  import opened Wrappers
  import opened Seqs
  import opened Participants
  import opened Decisions

  /** The invariant every reachable process keeps: nobody repeats a value, and
      every participant has voted in each earlier round and at most once in the
      current one. */
  predicate Valid(dp: Process) {
    forall i :: 0 <= i < |dp.participants| ==>
      && NoDuplicates(dp.participants[i].votes)
      && dp.round <= |dp.participants[i].votes| <= dp.round + 1
  }

  /** Consent has been reached: everyone voted this round and some value is
      common to all of them. */
  ghost predicate Consented(dp: Process) {
    AllVoted(dp.participants, dp.round) && exists v :: InEveryHistory(dp.participants, v)
  }

  /** One call made by the process's caller. */
  datatype Op = Vote(name: string, value: string) | Check

  /** The state after one call; a refused vote leaves it unchanged. */
  function Step(dp: Process, op: Op): Process
    requires |dp.participants| > 0
  {
    match op
    case Vote(name, value) =>
      (match Decisions.AddVote(dp, name, value)
       case Ok(next) => next
       case Err(_) => dp)
    case Check => CheckConsent(dp).0
  }

  /** The state after a sequence of calls. */
  function Run(dp: Process, ops: seq<Op>): (last: Process)
    requires |dp.participants| > 0
    ensures |last.participants| == |dp.participants|
    ensures last.validAnswers == dp.validAnswers
    decreases |ops|
  {
    if |ops| == 0 then dp
    else
      var next := Step(dp, ops[0]);
      assert |next.participants| == |dp.participants|;
      Run(next, ops[1..])
  }

  /** Under the invariant, having voted in the current round means exactly one
      vote more than the number of completed rounds. */
  lemma HasVotedMeansOneAhead(dp: Process, i: nat)
    requires Valid(dp)
    requires i < |dp.participants|
    ensures HasVoted(dp.participants[i], dp.round) <==> |dp.participants[i].votes| == dp.round + 1
    ensures !HasVoted(dp.participants[i], dp.round) <==> |dp.participants[i].votes| == dp.round
  {
  }

  /** A new process satisfies the invariant and reports every roster name, once,
      with no votes. */
  lemma InitValid(names: seq<string>, validAnswers: Option<set<string>>)
    ensures Valid(Init(names, validAnswers))
    ensures GetVotes(Init(names, validAnswers), None) == Ok(map n | n in Elems(names) :: [])
  {
    var dp := Init(names, validAnswers);
    var m := GetVotes(dp, None).value;
    var expected := map n | n in Elems(names) :: [];
    assert m.Keys == expected.Keys;
    forall n | n in m.Keys
      ensures m[n] == expected[n]
    {
      var p :| p in dp.participants && p.name == n;
      var i :| 0 <= i < |dp.participants| && dp.participants[i] == p;
    }
    assert m == expected;
  }

  /** A successful vote keeps the invariant; in particular no participant ever
      holds the same value twice. */
  lemma AddVotePreservesValid(dp: Process, name: string, value: string)
    requires Valid(dp)
    requires Decisions.AddVote(dp, name, value).Ok?
    ensures Valid(Decisions.AddVote(dp, name, value).value)
  {
  }

  /** The consent check keeps the invariant. */
  lemma CheckConsentPreservesValid(dp: Process)
    requires |dp.participants| > 0
    requires Valid(dp)
    ensures Valid(CheckConsent(dp).0)
  {
  }

  /** Under the invariant a second consent check right after the first returns
      the same triple and the same state: after an advance nobody has voted in
      the new round yet. */
  lemma CheckConsentIdempotent(dp: Process)
    requires |dp.participants| > 0
    requires Valid(dp)
    ensures CheckConsent(CheckConsent(dp).0) == CheckConsent(dp)
  {
  }

  /** The consent check reports a score exactly when consent has been reached,
      and then its winners meet the consent specification: a corollary of the
      contract of `CheckConsent`, restated in terms of `Consented`. */
  lemma ScoreReportedIffConsented(dp: Process)
    requires |dp.participants| > 0
    ensures CheckConsent(dp).1.score.Some? <==> Consented(dp)
    ensures CheckConsent(dp).1.winners.Some? <==> Consented(dp)
    ensures Consented(dp) ==>
              IsConsent(dp.participants, CheckConsent(dp).1.score.value, CheckConsent(dp).1.winners.value)
  {
  }

  /** Once consent is reached every vote is refused, and a roster member with an
      admissible value is refused because they already voted this round. */
  lemma ConsentFreezesVotes(dp: Process, name: string, value: string)
    requires Consented(dp)
    ensures Decisions.AddVote(dp, name, value).Err?
    ensures name in Names(dp.participants) && Admits(dp.validAnswers, value) ==>
              Decisions.AddVote(dp, name, value) == Err(AlreadyVotedError)
  {
  }

  /** Once consent is reached no sequence of calls changes the state, so every
      later consent check returns the same triple. */
  lemma {:induction false} ConsentIsFinal(dp: Process, ops: seq<Op>)
    requires |dp.participants| > 0
    requires Consented(dp)
    ensures Run(dp, ops) == dp
    ensures CheckConsent(Run(dp, ops)) == CheckConsent(dp)
    decreases |ops|
  {
    if |ops| > 0 {
      if ops[0].Vote? {
        ConsentFreezesVotes(dp, ops[0].name, ops[0].value);
      }
      assert Step(dp, ops[0]) == dp;
      ConsentIsFinal(dp, ops[1..]);
    }
  }

  /** A successful vote leaves the roster's names as they were. */
  lemma AddVoteKeepsNames(dp: Process, name: string, value: string)
    requires Decisions.AddVote(dp, name, value).Ok?
    ensures Names(Decisions.AddVote(dp, name, value).value.participants) == Names(dp.participants)
  {
  }

  /** One call keeps the invariant and the roster, and never moves the round
      backwards. */
  lemma StepPreservesValid(dp: Process, op: Op)
    requires |dp.participants| > 0
    requires Valid(dp)
    ensures Valid(Step(dp, op))
    ensures Names(Step(dp, op).participants) == Names(dp.participants)
    ensures Step(dp, op).round >= dp.round
  {
  }

  /** Any sequence of calls keeps the invariant and the roster, and never moves
      the round backwards. */
  lemma {:induction false} RunPreservesValid(dp: Process, ops: seq<Op>)
    requires |dp.participants| > 0
    requires Valid(dp)
    ensures Valid(Run(dp, ops))
    ensures Names(Run(dp, ops).participants) == Names(dp.participants)
    ensures Run(dp, ops).round >= dp.round
    decreases |ops|
  {
    if |ops| > 0 {
      StepPreservesValid(dp, ops[0]);
      RunPreservesValid(Step(dp, ops[0]), ops[1..]);
    }
  }

  /** Every state reached from a new process with a non-empty roster, by any
      sequence of calls, satisfies the invariant and keeps the roster. */
  lemma ReachableStatesValid(names: seq<string>, validAnswers: Option<set<string>>, ops: seq<Op>)
    requires |names| > 0
    ensures |Init(names, validAnswers).participants| > 0
    ensures Valid(Run(Init(names, validAnswers), ops))
    ensures Names(Run(Init(names, validAnswers), ops).participants) == Elems(names)
  {
    assert names[0] in Elems(names);
    InitValid(names, validAnswers);
    RunPreservesValid(Init(names, validAnswers), ops);
  }

  /** Each participant's rank of a common value is at most its combined score. */
  lemma {:induction false} ScoreBoundsEachRank(ps: seq<Participant>, v: string, i: nat)
    requires InEveryHistory(ps, v)
    requires i < |ps|
    ensures GetScore(ps[i], v) <= Score(ps, v)
  {
    if i < |ps| - 1 {
      ScoreBoundsEachRank(ps[..|ps| - 1], v, i);
    }
  }

  /** A common value scores 0 exactly when it was everyone's first choice. */
  lemma {:induction false} ScoreZeroIffFirstChoice(ps: seq<Participant>, v: string)
    requires InEveryHistory(ps, v)
    ensures Score(ps, v) == 0 <==> forall i :: 0 <= i < |ps| ==> ps[i].votes[0] == v
  {
    if |ps| > 0 {
      var init := ps[..|ps| - 1];
      ScoreZeroIffFirstChoice(init, v);
      assert forall i :: 0 <= i < |init| ==> init[i] == ps[i];
      var last := ps[|ps| - 1];
      assert GetScore(last, v) == 0 <==> last.votes[0] == v;
    }
  }

  /** When every participant has at most r + 1 votes, a combined score is at
      most r per participant. */
  lemma {:induction false} ScoreAtMostRoundPerParticipant(ps: seq<Participant>, v: string, r: nat)
    requires InEveryHistory(ps, v)
    requires forall i :: 0 <= i < |ps| ==> |ps[i].votes| <= r + 1
    ensures Score(ps, v) <= |ps| * r
  {
    if |ps| > 0 {
      var init := ps[..|ps| - 1];
      var last := ps[|ps| - 1];
      var n := |init|;
      assert forall i :: 0 <= i < n ==> init[i] == ps[i];
      ScoreAtMostRoundPerParticipant(init, v, r);
      assert GetScore(last, v) <= r by {
        assert GetScore(last, v) < |last.votes|;
      }
      assert (n + 1) * r == n * r + r;
    }
  }

  /** The reported score and winners are determined by the state alone: any two
      pairs meeting the consent specification are equal, whatever order the
      common values are visited in. */
  lemma ConsentIsUnique(ps: seq<Participant>, low1: nat, winners1: set<string>, low2: nat, winners2: set<string>)
    requires IsConsent(ps, low1, winners1)
    requires IsConsent(ps, low2, winners2)
    ensures low1 == low2 && winners1 == winners2
  {
  }

  /** At consent under the invariant the best score is at most the round number
      times the number of participants. */
  lemma ConsentScoreBound(dp: Process)
    requires |dp.participants| > 0
    requires Valid(dp)
    requires Consented(dp)
    ensures CheckConsent(dp).1.score.Some?
    ensures CheckConsent(dp).1.score.value <= |dp.participants| * dp.round
  {
    var verdict := CheckConsent(dp).1;
    var w :| w in verdict.winners.value;
    ScoreAtMostRoundPerParticipant(dp.participants, w, dp.round);
  }
}
