/**
 A worked session: Ann and Bo join, play two rounds, Ann scores 15 in the first,
 an unreadable entry for Bo in the second counts as 0, and a new game clears
 the sheet but keeps both players.
 */
module Scenario {
  import opened JsText
  import opened Session
  import opened Ranking

  /** A name that starts and ends with a visible ASCII character is kept as
      typed. */
  lemma PlainName(name: string)
    requires |name| > 0
    requires 0x20 < name[0] as int < 0x7F && 0x20 < name[|name| - 1] as int < 0x7F
    ensures Trim(name) == name
  {
    VisibleAsciiNotWhite(name[0]);
    VisibleAsciiNotWhite(name[|name| - 1]);
    TrimPadded([], name, []);
    assert [] + name + [] == name;
  }

  lemma Score15()
    ensures ParseScore("15") == 15
  {
    ParseScoreRoundTrip(15);
    assert NatToDecimal(15) == "15";
  }
  lemma ScoreAbc()
    ensures ParseScore("abc") == 0
  {
    VisibleAsciiNotWhite('a');
    NoLeadingWhite("abc");
    ParseNoDigits("abc");
  }

  /** Both players in, before the first game and again after the new game. */
  const Lineup: State := State([Player("1", "Ann", [], 0), Player("2", "Bo", [], 0)], "", false)

  /** Two rounds on the sheet, nothing scored. */
  const TwoRounds: State := State([Player("1", "Ann", [0, 0], 0), Player("2", "Bo", [0, 0], 0)], "", true)

  /** Ann has scored 15 in the first round. */
  const Scored: State := State([Player("1", "Ann", [15, 0], 15), Player("2", "Bo", [0, 0], 0)], "", true)

  lemma JoinAnn()
    ensures Session.AddPlayer(Session.EditName(Initial(), "Ann"), "1") == State([Player("1", "Ann", [], 0)], "", false)
  {
    PlainName("Ann");
  }

  lemma JoinBo()
    ensures Session.AddPlayer(Session.EditName(State([Player("1", "Ann", [], 0)], "", false), "Bo"), "2") == Lineup
  {
    var s := State([Player("1", "Ann", [], 0)], "", false);
    var t := Session.EditName(s, "Bo");
    assert t.newPlayerName == "Bo" && !t.gameStarted && t.players == s.players;
    PlainName("Bo");
    var r := Session.AddPlayer(t, "2");
    assert |r.players| == 2;
    assert r.players[..1] == s.players && r.players[1] == Player("2", "Bo", [], 0);
    assert r.players == [r.players[0], r.players[1]];
  }

  lemma StartTwo()
    ensures Session.AddRound(Session.StartGame(Lineup)) == TwoRounds
  {
    var t := Session.StartGame(Lineup);
    assert t.players == [Player("1", "Ann", [0], 0), Player("2", "Bo", [0], 0)];
    assert t.players[0].scores + [0] == [0, 0];
    assert Session.AddRound(t).players == TwoRounds.players;
  }

  lemma ScoreAnn()
    ensures Session.UpdateScore(TwoRounds, "1", 0, "15") == Scored
  {
    assert UniqueIds(TwoRounds.players);
    UpdateScoreAt(TwoRounds, 0, 0, "15");
    Score15();
    assert SetScore(TwoRounds.players[0], 0, 15) == Scored.players[0] by {
      assert [0, 0][0 := 15] == [15, 0];
      assert Sum([15, 0]) == 15;
    }
  }

  lemma ScoreBo()
    ensures Session.UpdateScore(Scored, "2", 1, "abc") == Scored
  {
    assert UniqueIds(Scored.players);
    UpdateScoreAt(Scored, 1, 1, "abc");
    ScoreAbc();
    assert SetScore(Scored.players[1], 1, 0) == Scored.players[1] by {
      assert [0, 0][1 := 0] == [0, 0];
      assert Sum([0, 0]) == 0;
    }
  }

  lemma RankTwo()
    ensures TopPlayers(Scored.players) == Scored.players
    ensures MedalIcon(Scored.players, "1") == Gold && MedalIcon(Scored.players, "2") == Silver
  {
    var ps := Scored.players;
    assert ps[1..] == [ps[1]];
    assert SortByTotal([ps[1]]) == [ps[1]];
    assert Insert(ps[0], [ps[1]]) == ps;
    assert SortByTotal(ps) == ps;
    var top := TopPlayers(ps);
    assert top == ps[..2] == ps;
    assert top[0].id == "1" && top[1].id == "2";
  }

  lemma ResetTwo()
    ensures Session.ResetGame(Scored) == Lineup
  {
  }

  /** Joining: from first render to both players on the list. */
  lemma AnnAndBoJoin()
    ensures Session.AddPlayer(Session.EditName(Session.AddPlayer(Session.EditName(Initial(), "Ann"), "1"), "Bo"), "2") == Lineup
  {
    JoinAnn();
    JoinBo();
  }

  /** Starting: one round on the sheet, then two. */
  lemma AnnAndBoStart()
    ensures MaxRounds(Session.StartGame(Lineup).players) == 1
    ensures Session.AddRound(Session.StartGame(Lineup)) == TwoRounds
    ensures MaxRounds(TwoRounds.players) == 2
  {
    StartTwo();
    assert Session.StartGame(Lineup).players == [Player("1", "Ann", [0], 0), Player("2", "Bo", [0], 0)];
    MaxRoundsAligned(Session.StartGame(Lineup).players, 1);
    MaxRoundsAligned(TwoRounds.players, 2);
  }

  /** Scoring, ranking and the new game. */
  lemma AnnAndBoPlay()
    ensures Session.UpdateScore(TwoRounds, "1", 0, "15") == Scored
    ensures Session.UpdateScore(Scored, "2", 1, "abc") == Scored
    ensures TopPlayers(Scored.players) == Scored.players
    ensures MedalIcon(Scored.players, "1") == Gold && MedalIcon(Scored.players, "2") == Silver
    ensures Session.ResetGame(Scored) == Lineup
    ensures MaxRounds(Lineup.players) == 0
  {
    ScoreAnn();
    ScoreBo();
    RankTwo();
    ResetTwo();
  }
}
