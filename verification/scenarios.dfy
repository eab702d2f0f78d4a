/** Concrete sessions of the decision process, as exercised by the repository's
    tests. Each session is a chain of named states; each lemma checks one call. */
module Scenarios {
  import opened Wrappers
  import opened Seqs
  import opened Participants
  import opened Decisions
  import opened DecisionProperties

  /** Two-participant session: "a" and "b", no admissible-answer restriction. */
  const S0: Process := Process([Participant("a", []), Participant("b", [])], None, 0)
  const S1: Process := Process([Participant("a", ["foo"]), Participant("b", [])], None, 0)
  const S2: Process := Process([Participant("a", ["foo"]), Participant("b", ["bar"])], None, 0)
  const S3: Process := Process([Participant("a", ["foo"]), Participant("b", ["bar"])], None, 1)
  const S4: Process := Process([Participant("a", ["foo", "bar"]), Participant("b", ["bar"])], None, 1)
  const S5: Process := Process([Participant("a", ["foo", "bar"]), Participant("b", ["bar", "foo"])], None, 1)
  const T2: Process := Process([Participant("a", ["foo"]), Participant("b", ["foo"])], None, 0)

  /** A vote meeting every check yields exactly the expected state. */
  lemma VoteAccepted(dp: Process, i: nat, name: string, value: string, expected: Process)
    requires i < |dp.participants| && dp.participants[i].name == name
    requires Admits(dp.validAnswers, value)
    requires !HasVoted(dp.participants[i], dp.round) && value !in dp.participants[i].votes
    requires expected.round == dp.round && expected.validAnswers == dp.validAnswers
    requires |expected.participants| == |dp.participants|
    requires expected.participants[i] == Participant(name, dp.participants[i].votes + [value])
    requires forall j :: 0 <= j < |dp.participants| && j != i ==> expected.participants[j] == dp.participants[j]
    ensures Decisions.AddVote(dp, name, value) == Ok(expected)
  {
    assert dp.participants[i] in dp.participants;
    var r := Decisions.AddVote(dp, name, value);
    assert r.Ok?;
    assert r.value.participants == expected.participants;
  }

  lemma InitialState()
    ensures Init(["a", "b"], None) == S0
    ensures CheckConsent(S0) == (S0, Verdict(0, None, None))
  {
  }

  lemma FirstRoundVotes()
    ensures Decisions.AddVote(S0, "a", "foo") == Ok(S1)
    ensures Decisions.AddVote(S1, "b", "bar") == Ok(S2)
    ensures Decisions.AddVote(S1, "b", "foo") == Ok(T2)
  {
    VoteAccepted(S0, 0, "a", "foo", S1);
    VoteAccepted(S1, 1, "b", "bar", S2);
    VoteAccepted(S1, 1, "b", "foo", T2);
  }

  /** Only "a" has voted: the check waits. */
  lemma WaitingForVotes()
    ensures CheckConsent(S1) == (S1, Verdict(0, None, None))
    ensures CheckConsent(S4) == (S4, Verdict(1, None, None))
  {
  }

  /** Both voted "foo" in round 0: consent with score 0. */
  lemma SimpleConsent()
    ensures CheckConsent(T2) == (T2, Verdict(0, Some(0), Some({"foo"})))
  {
    var ps := T2.participants;
    assert AllVoted(ps, 0);
    assert InEveryHistory(ps, "foo");
    ScoreZeroIffFirstChoice(ps, "foo");
    var v := CheckConsent(T2).1;
    assert v.winners.value == {"foo"} by {
      forall w | w in v.winners.value ensures w == "foo" {
        assert w in ps[0].votes;
      }
    }
  }

  /** Different values in round 0: no common value, round 1 starts. */
  lemma NoCommonValueAdvances()
    ensures CheckConsent(S2) == (S3, Verdict(1, None, None))
  {
  }

  lemma SecondRoundVotes()
    ensures Decisions.AddVote(S3, "a", "bar") == Ok(S4)
    ensures Decisions.AddVote(S4, "b", "foo") == Ok(S5)
  {
    VoteAccepted(S3, 0, "a", "bar", S4);
    VoteAccepted(S4, 1, "b", "foo", S5);
  }

  /** Both values are now common to both, each with score 1: a tie. */
  lemma MultiConsent()
    ensures CheckConsent(S5) == (S5, Verdict(1, Some(1), Some({"foo", "bar"})))
  {
    var ps := S5.participants;
    assert AllVoted(ps, 1);
    assert InEveryHistory(ps, "foo") && InEveryHistory(ps, "bar");
    assert Score(ps, "foo") == 1 by {
      assert GetScore(ps[0], "foo") == 0;
      assert GetScore(ps[1], "foo") == 1;
      assert ps[..1] == [ps[0]];
    }
    assert Score(ps, "bar") == 1 by {
      assert GetScore(ps[0], "bar") == 1;
      assert GetScore(ps[1], "bar") == 0;
      assert ps[..1] == [ps[0]];
    }
    var v := CheckConsent(S5).1;
    assert v.winners.value == {"foo", "bar"} by {
      forall w | w in v.winners.value ensures w in {"foo", "bar"} {
        assert w in ps[0].votes;
      }
    }
  }

  /** A second vote in one round, a value repeated from an earlier round and an
      unknown name are refused. */
  lemma RefusedVotes()
    ensures Decisions.AddVote(S0, "c", "foo") == Err(KeyError)
    ensures Decisions.AddVote(S1, "a", "bar") == Err(AlreadyVotedError)
    ensures Decisions.AddVote(S3, "a", "foo") == Err(DuplicateError)
  {
  }

  /** Session with admissible answers "foo" and "bar". */
  const Answers: Option<set<string>> := Some({"foo", "bar"})
  const V0: Process := Process([Participant("a", []), Participant("b", [])], Answers, 0)
  const V1: Process := Process([Participant("a", ["foo"]), Participant("b", [])], Answers, 0)
  const V2: Process := Process([Participant("a", ["foo"]), Participant("b", ["bar"])], Answers, 0)
  const V3: Process := Process([Participant("a", ["foo"]), Participant("b", ["bar"])], Answers, 1)

  /** Admissible votes are accepted and round 0 ends without a common value. */
  lemma AdmissibleVotesAccepted()
    ensures Init(["a", "b"], Answers) == V0
    ensures Decisions.AddVote(V0, "a", "foo") == Ok(V1)
    ensures Decisions.AddVote(V1, "b", "bar") == Ok(V2)
    ensures CheckConsent(V2) == (V3, Verdict(1, None, None))
  {
    VoteAccepted(V0, 0, "a", "foo", V1);
    VoteAccepted(V1, 1, "b", "bar", V2);
    var ps := V2.participants;
    assert AllVoted(ps, 0);
    forall w ensures !InEveryHistory(ps, w) {
      if w in ps[0].votes {
        assert w !in ps[1].votes;
      }
    }
  }

  /** A value outside the non-empty admissible set is refused; an empty set,
      being falsy, admits anything. */
  lemma AdmissibleAnswers()
    ensures Decisions.AddVote(V3, "a", "baz") == Err(ValueError)
    ensures Decisions.AddVote(V3.(validAnswers := Some({})), "a", "baz").Ok?
  {
    assert V3.participants[0] in V3.participants;
  }

  /** Before any vote every name maps to an empty list; an unknown name is refused. */
  lemma LookupsBeforeVoting()
    ensures GetVotes(S0, None) == Ok(map["a" := [], "b" := []])
    ensures GetVotes(S0, Some("a")) == Ok(map["a" := []])
    ensures GetVotes(S0, Some("c")) == Err(KeyError)
  {
    assert Names(S0.participants) == {"a", "b"} by {
      assert S0.participants[0] in S0.participants;
      assert S0.participants[1] in S0.participants;
    }
    var m := GetVotes(S0, None).value;
    assert m[S0.participants[0].name] == [];
    assert m[S0.participants[1].name] == [];
    assert m == map["a" := [], "b" := []];
  }

  /** After two rounds each name maps to its exact list; the empty name returns
      everything. */
  lemma LookupsAfterVoting()
    ensures GetVotes(S5, None) == Ok(map["a" := ["foo", "bar"], "b" := ["bar", "foo"]])
    ensures GetVotes(S5, Some("")) == GetVotes(S5, None)
    ensures GetVotes(S5, Some("a")) == Ok(map["a" := ["foo", "bar"]])
  {
    assert Names(S5.participants) == {"a", "b"} by {
      assert S5.participants[0] in S5.participants;
      assert S5.participants[1] in S5.participants;
    }
    var m := GetVotes(S5, None).value;
    assert m[S5.participants[0].name] == ["foo", "bar"];
    assert m[S5.participants[1].name] == ["bar", "foo"];
    assert m == map["a" := ["foo", "bar"], "b" := ["bar", "foo"]];
  }

  /** A roster naming "a" twice has a single participant "a". */
  lemma DuplicateParticipants()
    ensures Init(["a", "a"], None) == Process([Participant("a", [])], None, 0)
    ensures GetVotes(Init(["a", "a"], None), None) == Ok(map["a" := []])
  {
    var dp := Init(["a", "a"], None);
    assert Names(dp.participants) == {"a"} by {
      assert Elems(["a", "a"]) == {"a"};
    }
    assert Names([Participant("a", [])]) == {"a"};
    var m := GetVotes(dp, None).value;
    assert m[dp.participants[0].name] == [];
    assert m == map["a" := []];
  }

  /** Three-participant session: the state after each vote. The states Ck hold
      the lists once everyone has voted in round k; the states Dka and Dkb lie
      between the votes of round k. */
  const D0: Process := Process([Participant("a", []), Participant("b", []), Participant("c", [])], None, 0)
  const D0a: Process := Process([Participant("a", ["a"]), Participant("b", []), Participant("c", [])], None, 0)
  const D0b: Process := Process([Participant("a", ["a"]), Participant("b", ["p"]), Participant("c", [])], None, 0)
  const C0: Process := Process([Participant("a", ["a"]), Participant("b", ["p"]), Participant("c", ["x"])], None, 0)
  const D1a: Process := Process([Participant("a", ["a", "x"]), Participant("b", ["p"]),
                                 Participant("c", ["x"])], None, 1)
  const D1b: Process := Process([Participant("a", ["a", "x"]), Participant("b", ["p", "a"]),
                                 Participant("c", ["x"])], None, 1)
  const C1: Process := Process([Participant("a", ["a", "x"]), Participant("b", ["p", "a"]),
                                Participant("c", ["x", "y"])], None, 1)
  const D2a: Process := Process([Participant("a", ["a", "x", "b"]), Participant("b", ["p", "a"]),
                                 Participant("c", ["x", "y"])], None, 2)
  const D2b: Process := Process([Participant("a", ["a", "x", "b"]), Participant("b", ["p", "a", "q"]),
                                 Participant("c", ["x", "y"])], None, 2)
  const C2: Process := Process([Participant("a", ["a", "x", "b"]), Participant("b", ["p", "a", "q"]),
                                Participant("c", ["x", "y", "b"])], None, 2)
  const D3a: Process := Process([Participant("a", ["a", "x", "b", "y"]), Participant("b", ["p", "a", "q"]),
                                 Participant("c", ["x", "y", "b"])], None, 3)
  const D3b: Process := Process([Participant("a", ["a", "x", "b", "y"]), Participant("b", ["p", "a", "q", "b"]),
                                 Participant("c", ["x", "y", "b"])], None, 3)
  const C3: Process := Process([Participant("a", ["a", "x", "b", "y"]), Participant("b", ["p", "a", "q", "b"]),
                                Participant("c", ["x", "y", "b", "a"])], None, 3)

  /** The three-participant process starts with three vote-less participants. */
  lemma ComplexInit()
    ensures Init(["a", "b", "c"], None) == D0
  {
    var ab := Collapse(["a", "b"]);
    assert ["a", "b"][..1] == ["a"];
    assert ["a", "b", "c"][..2] == ["a", "b"];
    assert Collapse(["a"]) == [Participant("a", [])];
    assert ab == [Participant("a", []), Participant("b", [])];
    assert Names(ab) == {"a", "b"} by {
      assert ab[0] in ab && ab[1] in ab;
    }
  }

  /** Round 0 votes: "a", "p", "x". */
  lemma ComplexRound0Votes()
    ensures Decisions.AddVote(D0, "a", "a") == Ok(D0a)
    ensures Decisions.AddVote(D0a, "b", "p") == Ok(D0b)
    ensures Decisions.AddVote(D0b, "c", "x") == Ok(C0)
  {
    VoteAccepted(D0, 0, "a", "a", D0a);
    VoteAccepted(D0a, 1, "b", "p", D0b);
    VoteAccepted(D0b, 2, "c", "x", C0);
  }

  /** Round 1 votes: "x", "a", "y". */
  lemma ComplexRound1Votes()
    ensures Decisions.AddVote(C0.(round := 1), "a", "x") == Ok(D1a)
    ensures Decisions.AddVote(D1a, "b", "a") == Ok(D1b)
    ensures Decisions.AddVote(D1b, "c", "y") == Ok(C1)
  {
    VoteAccepted(C0.(round := 1), 0, "a", "x", D1a);
    VoteAccepted(D1a, 1, "b", "a", D1b);
    VoteAccepted(D1b, 2, "c", "y", C1);
  }

  /** Round 2 votes: "b", "q", "b". */
  lemma ComplexRound2Votes()
    ensures Decisions.AddVote(C1.(round := 2), "a", "b") == Ok(D2a)
    ensures Decisions.AddVote(D2a, "b", "q") == Ok(D2b)
    ensures Decisions.AddVote(D2b, "c", "b") == Ok(C2)
  {
    VoteAccepted(C1.(round := 2), 0, "a", "b", D2a);
    VoteAccepted(D2a, 1, "b", "q", D2b);
    VoteAccepted(D2b, 2, "c", "b", C2);
  }

  /** Round 3 votes: "y", "b", "a". */
  lemma ComplexRound3Votes()
    ensures Decisions.AddVote(C2.(round := 3), "a", "y") == Ok(D3a)
    ensures Decisions.AddVote(D3a, "b", "b") == Ok(D3b)
    ensures Decisions.AddVote(D3b, "c", "a") == Ok(C3)
  {
    VoteAccepted(C2.(round := 3), 0, "a", "y", D3a);
    VoteAccepted(D3a, 1, "b", "b", D3b);
    VoteAccepted(D3b, 2, "c", "a", C3);
  }

  /** Rounds 0 to 2 end with no value common to all three. */
  lemma ComplexRoundsAdvance()
    ensures CheckConsent(C0) == (C0.(round := 1), Verdict(1, None, None))
    ensures CheckConsent(C1) == (C1.(round := 2), Verdict(2, None, None))
    ensures CheckConsent(C2) == (C2.(round := 3), Verdict(3, None, None))
  {
    assert AllVoted(C0.participants, 0);
    forall w ensures !InEveryHistory(C0.participants, w) {
      if w in C0.participants[0].votes { assert w !in C0.participants[1].votes; }
    }
    assert AllVoted(C1.participants, 1);
    forall w ensures !InEveryHistory(C1.participants, w) {
      if w in C1.participants[0].votes && w in C1.participants[1].votes {
        assert w !in C1.participants[2].votes;
      }
    }
    assert AllVoted(C2.participants, 2);
    forall w ensures !InEveryHistory(C2.participants, w) {
      if w in C2.participants[0].votes && w in C2.participants[1].votes {
        assert w !in C2.participants[2].votes;
      }
    }
  }

  /** In round 3 exactly "a" and "b" are common to all three. */
  lemma ComplexCommonValues()
    ensures InEveryHistory(C3.participants, "a") && InEveryHistory(C3.participants, "b")
    ensures forall w :: InEveryHistory(C3.participants, w) ==> w == "a" || w == "b"
  {
    var ps := C3.participants;
    forall w | InEveryHistory(ps, w) ensures w == "a" || w == "b" {
      assert w in ps[0].votes && w in ps[1].votes;
    }
  }

  /** "a" scores 0 + 1 + 3 = 4. */
  lemma ComplexScoreOfA()
    ensures InEveryHistory(C3.participants, "a") && Score(C3.participants, "a") == 4
  {
    var ps := C3.participants;
    assert ps[..2][..1] == [ps[0]];
    assert [ps[0]][..0] == [];
    assert Score(ps, "a") == Score(ps[..2], "a") + GetScore(ps[2], "a");
    assert Score(ps[..2], "a") == Score([ps[0]], "a") + GetScore(ps[1], "a");
    assert Score([ps[0]], "a") == GetScore(ps[0], "a");
    assert GetScore(ps[0], "a") == 0;
    assert GetScore(ps[1], "a") == 1;
    assert GetScore(ps[2], "a") == 3;
  }

  /** "b" scores 2 + 3 + 2 = 7. */
  lemma ComplexScoreOfB()
    ensures InEveryHistory(C3.participants, "b") && Score(C3.participants, "b") == 7
  {
    var ps := C3.participants;
    assert ps[..2][..1] == [ps[0]];
    assert [ps[0]][..0] == [];
    assert Score(ps, "b") == Score(ps[..2], "b") + GetScore(ps[2], "b");
    assert Score(ps[..2], "b") == Score([ps[0]], "b") + GetScore(ps[1], "b");
    assert Score([ps[0]], "b") == GetScore(ps[0], "b");
    assert GetScore(ps[0], "b") == 2;
    assert GetScore(ps[1], "b") == 3;
    assert GetScore(ps[2], "b") == 2;
  }

  /** In round 3 "a" alone wins with score 4. */
  lemma ComplexConsent()
    ensures CheckConsent(C3) == (C3, Verdict(3, Some(4), Some({"a"})))
  {
    var ps := C3.participants;
    assert AllVoted(ps, 3);
    ComplexCommonValues();
    ComplexScoreOfA();
    ComplexScoreOfB();
    assert IsConsent(ps, 4, {"a"});
    var v := CheckConsent(C3).1;
    ConsentIsUnique(ps, v.score.value, v.winners.value, 4, {"a"});
  }
}
