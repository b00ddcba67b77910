/**
 The score sheet as a whole: the consistency the handlers maintain between
 them, and the actions the rendered page can trigger.

 The page shows one of two screens. The setup screen offers the name field, the
 add button (and the Enter key), a remove button per player and, from two
 players on, the start button. The game screen offers the add-round button, a
 score cell per player and round, and the new-game button. `startGame` and
 `addRound` do not check the phase themselves; it is the screen that keeps
 them out of the wrong phase, and `Enabled` records that.
 */
module Game {
  import opened JsText
  import opened Session

  /** Every player's name is what `trim` leaves of a non-blank entry. */
  predicate NamesTrimmed(ps: seq<Player>) {
    forall p :: p in ps ==> p.name != [] && IsTrimmed(p.name)
  }

  /** The consistency of the state between two events. In the setup phase
      nobody has scores yet; during a game at least two players have played the
      same positive number of rounds. In both, totals are sums and ids are
      distinct. */
  predicate Inv(s: State) {
    && TotalsMatch(s.players)
    && UniqueIds(s.players)
    && NamesTrimmed(s.players)
    && if s.gameStarted then
         && |s.players| >= 2
         && MaxRounds(s.players) >= 1
         && Aligned(s.players, MaxRounds(s.players))
       else
         Blank(s.players)
  }

  /** The events the page can deliver. `AddPlayer` carries the id the clock
      produced at that moment. */
  datatype Action =
    | EditName(text: string)
    | AddPlayer(id: string)
    | RemovePlayer(id: string)
    | StartGame
    | AddRound
    | UpdateScore(id: string, round: nat, text: string)
    | ResetGame

  /** Whether the screen for the current phase offers the action. A new id is
      one no player has yet, since the clock does not repeat a value. */
  predicate Enabled(s: State, a: Action) {
    match a
    case EditName(_) => !s.gameStarted
    case AddPlayer(id) => !s.gameStarted && forall j :: 0 <= j < |s.players| ==> s.players[j].id != id
    case RemovePlayer(_) => !s.gameStarted
    case StartGame => !s.gameStarted && |s.players| >= 2
    case AddRound => s.gameStarted
    case UpdateScore(_, i, _) => s.gameStarted && i < MaxRounds(s.players)
    case ResetGame => s.gameStarted
  }

  /** The same players, with the same names, in the same order. */
  predicate SameRoster(a: seq<Player>, b: seq<Player>) {
    |a| == |b| && forall k :: 0 <= k < |a| ==> a[k].id == b[k].id && a[k].name == b[k].name
  }

  /** Ids and names are all that uniqueness and trimming look at. */
  lemma RosterKeepsShape(a: seq<Player>, b: seq<Player>)
    requires SameRoster(a, b) && UniqueIds(b) && NamesTrimmed(b)
    ensures UniqueIds(a) && NamesTrimmed(a)
  {
    forall p | p in a ensures p.name != [] && IsTrimmed(p.name) {
      var k :| 0 <= k < |a| && a[k] == p;
      assert b[k] in b;
    }
  }

  lemma AddPlayerKeepsInv(s: State, id: string)
    requires Inv(s) && Enabled(s, Action.AddPlayer(id))
    ensures Inv(Session.AddPlayer(s, id))
  {
    var r := Session.AddPlayer(s, id);
    if |r.players| > |s.players| {
      var p := Player(id, Trim(s.newPlayerName), [], 0);
      assert r.players == s.players + [p];
      forall q | q in r.players ensures q == p || q in s.players {
      }
      SnocUnique(s.players, p);
    }
  }

  lemma RemovePlayerKeepsInv(s: State, id: string)
    requires Inv(s) && Enabled(s, Action.RemovePlayer(id))
    ensures Inv(Session.RemovePlayer(s, id))
  {
    WithoutIdKeepsUnique(s.players, id);
  }

  lemma StartGameKeepsInv(s: State)
    requires Inv(s) && Enabled(s, Action.StartGame)
    ensures Inv(Session.StartGame(s))
  {
    var r := Session.StartGame(s);
    StartGameKeepsTotals(s);
    MaxRoundsAligned(r.players, 1);
    RosterKeepsShape(r.players, s.players);
  }

  lemma AddRoundKeepsInv(s: State)
    requires Inv(s) && Enabled(s, Action.AddRound)
    ensures Inv(Session.AddRound(s))
  {
    var r := Session.AddRound(s);
    var n := MaxRounds(s.players);
    AddRoundKeepsTotals(s);
    AddRoundKeepsAligned(s, n);
    MaxRoundsAligned(r.players, n + 1);
    RosterKeepsShape(r.players, s.players);
  }

  lemma UpdateScoreKeepsInv(s: State, id: string, i: nat, text: string)
    requires Inv(s) && Enabled(s, Action.UpdateScore(id, i, text))
    ensures Inv(Session.UpdateScore(s, id, i, text))
  {
    var r := Session.UpdateScore(s, id, i, text);
    var n := MaxRounds(s.players);
    UpdateScoreKeepsTotals(s, id, i, text, n);
    MaxRoundsAligned(r.players, n);
    assert SameRoster(r.players, s.players);
    RosterKeepsShape(r.players, s.players);
  }

  lemma ResetGameKeepsInv(s: State)
    requires Inv(s) && Enabled(s, Action.ResetGame)
    ensures Inv(Session.ResetGame(s))
  {
    var r := Session.ResetGame(s);
    assert Blank(r.players) by {
      forall p | p in r.players ensures p.scores == [] && p.total == 0 {
        var k :| 0 <= k < |r.players| && r.players[k] == p;
      }
    }
    RosterKeepsShape(r.players, s.players);
  }

  /** The handler behind each action, applied to a consistent state; the
      result is consistent again. */
  function Step(s: State, a: Action): (r: State)
    requires Inv(s) && Enabled(s, a)
    ensures Inv(r)
  {
    match a
    case EditName(text) => Session.EditName(s, text)
    case AddPlayer(id) => AddPlayerKeepsInv(s, id); Session.AddPlayer(s, id)
    case RemovePlayer(id) => RemovePlayerKeepsInv(s, id); Session.RemovePlayer(s, id)
    case StartGame => StartGameKeepsInv(s); Session.StartGame(s)
    case AddRound => AddRoundKeepsInv(s); Session.AddRound(s)
    case UpdateScore(id, i, text) => UpdateScoreKeepsInv(s, id, i, text); Session.UpdateScore(s, id, i, text)
    case ResetGame => ResetGameKeepsInv(s); Session.ResetGame(s)
  }

  /** A sequence of events from a consistent state. An event the current screen
      does not offer cannot happen, so it is passed over. */
  function Run(s: State, actions: seq<Action>): (r: State)
    requires Inv(s)
    ensures Inv(r)
    decreases |actions|
  {
    if actions == [] then s
    else
      var next := if Enabled(s, actions[0]) then Step(s, actions[0]) else s;
      Run(next, actions[1..])
  }

  /** Any session, from the page's first render on. */
  function Play(actions: seq<Action>): (r: State)
    ensures Inv(r)
    ensures r.gameStarted ==> |r.players| >= 2 && Aligned(r.players, MaxRounds(r.players))
    ensures !r.gameStarted ==> MaxRounds(r.players) == 0
  {
    var r := Run(Initial(), actions);
    if !r.gameStarted then BlankNoRounds(r.players); r else r
  }

  /** Once a game has started, no event but a reset ends it, and none changes
      who plays. */
  lemma GameKeepsRoster(s: State, a: Action)
    requires Inv(s) && s.gameStarted && Enabled(s, a)
    ensures a != Action.ResetGame ==> Step(s, a).gameStarted
    ensures SameRoster(Step(s, a).players, s.players)
  {
  }

  /** During a game the number of rounds never goes down. */
  lemma GameKeepsRounds(s: State, a: Action)
    requires Inv(s) && s.gameStarted && Enabled(s, a) && a != Action.ResetGame
    ensures MaxRounds(Step(s, a).players) >= MaxRounds(s.players)
  {
    var n := MaxRounds(s.players);
    match a {
      case AddRound =>
        var r := Session.AddRound(s);
        AddRoundKeepsAligned(s, n);
        MaxRoundsAligned(r.players, n + 1);
      case UpdateScore(id, i, text) =>
        var r := Session.UpdateScore(s, id, i, text);
        UpdateScoreKeepsTotals(s, id, i, text, n);
        MaxRoundsAligned(r.players, n);
    }
  }
}
