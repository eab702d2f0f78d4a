/** The decision process: a fixed roster of participants, the optional set of
    admissible answers and the current round, with vote intake, vote lookup and
    the consent check that drives the rounds. */
module Decisions {
  import opened Wrappers
  import opened Seqs
  import opened Participants

  /** No two participants share a name. */
  predicate DistinctNames(ps: seq<Participant>) {
    forall i, j :: 0 <= i < j < |ps| ==> ps[i].name != ps[j].name
  }

  /** The participants dictionary: one entry per name. */
  type Roster = ps: seq<Participant> | DistinctNames(ps) witness []

  datatype Process = Process(participants: Roster, validAnswers: Option<set<string>>, round: nat)

  /** The triple returned by the consent check: the round, and the best score
      and the winning values once consent is reached. */
  datatype Verdict = Verdict(round: nat, score: Option<nat>, winners: Option<set<string>>)

  /** The names on the roster. */
  function Names(ps: seq<Participant>): set<string> {
    set p | p in ps :: p.name
  }

  /** The position of the participant called `name`, if any. */
  function Find(ps: seq<Participant>, name: string): (r: Option<nat>)
    ensures r.None? <==> name !in Names(ps)
    ensures r.Some? ==> r.value < |ps| && ps[r.value].name == name
  {
    if |ps| == 0 then None
    else if ps[0].name == name then Some(0)
    else
      assert Names(ps) == {ps[0].name} + Names(ps[1..]) by {
        assert ps == [ps[0]] + ps[1..];
      }
      match Find(ps[1..], name)
      case None => None
      case Some(i) => Some(i + 1)
  }

  /** Builds the participants dictionary from a list of names: a repeated name
      keeps a single entry, with no votes. */
  function Collapse(names: seq<string>): (ps: Roster)
    ensures Names(ps) == Elems(names)
    ensures |ps| <= |names|
    ensures forall i :: 0 <= i < |ps| ==> ps[i].votes == []
  {
    if |names| == 0 then []
    else
      var init := names[..|names| - 1];
      var last := names[|names| - 1];
      var rest := Collapse(init);
      assert Elems(names) == Elems(init) + {last} by {
        assert names == init + [last];
      }
      if last in Names(rest) then rest
      else
        var ps := rest + [Fresh(last)];
        assert Names(ps) == Names(rest) + {last};
        ps
  }

  /** A new process in round 0, nobody having voted. */
  function Init(names: seq<string>, validAnswers: Option<set<string>>): (dp: Process)
    ensures Names(dp.participants) == Elems(names)
    ensures forall i :: 0 <= i < |dp.participants| ==> dp.participants[i].votes == []
    ensures dp.validAnswers == validAnswers && dp.round == 0
  {
    Process(Collapse(names), validAnswers, 0)
  }

  /** Whether `value` passes the admissible-answers check: no set, or an empty
      set (which is falsy), places no restriction. */
  predicate Admits(validAnswers: Option<set<string>>, value: string) {
    validAnswers.None? || validAnswers.value == {} || value in validAnswers.value
  }

  /** Records `value` as the vote of `name` in the current round, running the
      checks in order: unknown name, inadmissible value, already voted this
      round, value already proposed in an earlier round. */
  function AddVote(dp: Process, name: string, value: string): (r: Result<Process, VoteError>)
    ensures name !in Names(dp.participants) ==> r == Err(KeyError)
    ensures name in Names(dp.participants) && !Admits(dp.validAnswers, value) ==> r == Err(ValueError)
    ensures forall i :: 0 <= i < |dp.participants| && dp.participants[i].name == name
                        && Admits(dp.validAnswers, value) ==>
              && (HasVoted(dp.participants[i], dp.round) ==> r == Err(AlreadyVotedError))
              && (!HasVoted(dp.participants[i], dp.round) && value in dp.participants[i].votes ==>
                    r == Err(DuplicateError))
    ensures r.Ok? <==>
              && name in Names(dp.participants)
              && Admits(dp.validAnswers, value)
              && forall i :: 0 <= i < |dp.participants| && dp.participants[i].name == name ==>
                   !HasVoted(dp.participants[i], dp.round) && value !in dp.participants[i].votes
    ensures r.Ok? ==>
              && r.value.round == dp.round
              && r.value.validAnswers == dp.validAnswers
              && |r.value.participants| == |dp.participants|
              && forall i :: 0 <= i < |dp.participants| ==>
                   r.value.participants[i] ==
                     if dp.participants[i].name == name
                     then Participant(name, dp.participants[i].votes + [value])
                     else dp.participants[i]
  {
    match Find(dp.participants, name)
    case None => Err(KeyError)
    case Some(i) =>
      var p := dp.participants[i];
      if !Admits(dp.validAnswers, value) then Err(ValueError)
      else if HasVoted(p, dp.round) then Err(AlreadyVotedError)
      else
        match Participants.AddVote(p, value)
        case Err(e) => Err(e)
        case Ok(p') =>
          assert p' == Participant(name, p.votes + [value]);
          var ps: Roster := dp.participants[i := p'];
          Ok(dp.(participants := ps))
  }

  /** Every participant's full list of votes, keyed by name. */
  function AllVotes(ps: Roster): (m: map<string, seq<string>>)
    ensures m.Keys == Names(ps)
    ensures forall i :: 0 <= i < |ps| ==> m[ps[i].name] == ps[i].votes
  {
    map p | p in ps :: p.name := p.votes
  }

  /** The votes of one participant, or of all of them when no name, or the
      empty name, is given. */
  function GetVotes(dp: Process, name: Option<string>): (r: Result<map<string, seq<string>>, VoteError>)
    ensures (name.None? || name.value == "") ==>
              && r.Ok?
              && r.value.Keys == Names(dp.participants)
              && forall i :: 0 <= i < |dp.participants| ==>
                   r.value[dp.participants[i].name] == dp.participants[i].votes
    ensures name.Some? && name.value != "" && name.value !in Names(dp.participants) ==>
              r == Err(KeyError)
    ensures name.Some? && name.value != "" ==>
              forall i :: 0 <= i < |dp.participants| && dp.participants[i].name == name.value ==>
                r == Ok(map[name.value := dp.participants[i].votes])
  {
    if name.Some? && name.value != "" then
      match Find(dp.participants, name.value)
      case None => Err(KeyError)
      case Some(i) => Ok(map[name.value := dp.participants[i].votes])
    else
      Ok(AllVotes(dp.participants))
  }

  /** Every participant has voted in round `r`. */
  predicate AllVoted(ps: seq<Participant>, r: nat) {
    forall i :: 0 <= i < |ps| ==> HasVoted(ps[i], r)
  }

  /** `v` was proposed by every participant, in some round. */
  predicate InEveryHistory(ps: seq<Participant>, v: string) {
    forall i :: 0 <= i < |ps| ==> v in ps[i].votes
  }

  /** The intersection of the sets of every participant's votes. */
  function Intersection(ps: seq<Participant>): (common: set<string>)
    requires |ps| > 0
    ensures forall v :: v in common <==> InEveryHistory(ps, v)
  {
    if |ps| == 1 then Elems(ps[0].votes)
    else Intersection(ps[..|ps| - 1]) * Elems(ps[|ps| - 1].votes)
  }

  /** The combined score of a common value: the sum over participants of its
      zero-based rank in their votes. */
  function Score(ps: seq<Participant>, v: string): nat
    requires InEveryHistory(ps, v)
  {
    if |ps| == 0 then 0
    else Score(ps[..|ps| - 1], v) + GetScore(ps[|ps| - 1], v)
  }

  /** The least combined score among `cands`. */
  function Lowest(ps: seq<Participant>, cands: seq<string>): (low: nat)
    requires |cands| > 0
    requires forall k :: 0 <= k < |cands| ==> InEveryHistory(ps, cands[k])
    ensures exists k :: 0 <= k < |cands| && Score(ps, cands[k]) == low
    ensures forall k :: 0 <= k < |cands| ==> low <= Score(ps, cands[k])
  {
    if |cands| == 1 then Score(ps, cands[0])
    else
      var rest := Lowest(ps, cands[1..]);
      var s := Score(ps, cands[0]);
      assert forall k :: 1 <= k < |cands| ==> cands[k] == cands[1..][k - 1];
      if s < rest then s else rest
  }

  /** `low` is the least combined score over the values every participant
      proposed, and `winners` are exactly the common values scoring `low`. */
  ghost predicate IsConsent(ps: seq<Participant>, low: nat, winners: set<string>) {
    && winners != {}
    && (forall v :: v in winners <==> InEveryHistory(ps, v) && Score(ps, v) == low)
    && (forall v :: InEveryHistory(ps, v) ==> low <= Score(ps, v))
  }

  /** The consent check. While someone has not voted in the current round it
      reports the round and changes nothing; once everyone has, it starts the
      next round if no value is common to all, and otherwise reports the best
      combined score and the values achieving it. */
  function CheckConsent(dp: Process): (res: (Process, Verdict))
    requires |dp.participants| > 0
    ensures res.0.participants == dp.participants && res.0.validAnswers == dp.validAnswers
    ensures res.1.round == res.0.round
    ensures dp.round <= res.0.round <= dp.round + 1
    ensures !AllVoted(dp.participants, dp.round) ==>
              res.0 == dp && res.1 == Verdict(dp.round, None, None)
    ensures AllVoted(dp.participants, dp.round) && (forall v :: !InEveryHistory(dp.participants, v)) ==>
              res.0.round == dp.round + 1 && res.1 == Verdict(dp.round + 1, None, None)
    ensures AllVoted(dp.participants, dp.round) && (exists v :: InEveryHistory(dp.participants, v)) ==>
              && res.0 == dp
              && res.1.score.Some? && res.1.winners.Some?
              && IsConsent(dp.participants, res.1.score.value, res.1.winners.value)
  {
    var ps := dp.participants;
    if !AllVoted(ps, dp.round) then (dp, Verdict(dp.round, None, None))
    else
      var common := Intersection(ps);
      if common == {} then
        var next := dp.(round := dp.round + 1);
        (next, Verdict(next.round, None, None))
      else
        var cands := Filter(ps[0].votes, common);
        assert cands != [] by {
          var v :| v in common;
          assert v in cands;
        }
        var low := Lowest(ps, cands);
        var winners := set v | v in common && Score(ps, v) == low;
        assert winners != {} by {
          var k :| 0 <= k < |cands| && Score(ps, cands[k]) == low;
          assert cands[k] in winners;
        }
        assert forall v :: InEveryHistory(ps, v) ==> low <= Score(ps, v) by {
          forall v | InEveryHistory(ps, v)
            ensures low <= Score(ps, v)
          {
            assert v in cands;
            var k :| 0 <= k < |cands| && cands[k] == v;
          }
        }
        (dp, Verdict(dp.round, Some(low), Some(winners)))
  }
}
