/**
 The state of one score sheet and the handlers that change it.

 The component keeps three pieces of state: the list of players, the name
 being typed for the next player, and whether a game has started. Each
 handler replaces that state in one step, so each is modelled as a pure
 function from the state before to the state after. Rendering is not modelled.
 */
module Session {
  import opened Seqs
  import opened JsText

  /** One column of the score sheet. `total` is stored, not derived: the
      handlers are responsible for keeping it equal to the sum of `scores`. */
  datatype Player = Player(id: string, name: string, scores: seq<int>, total: int)

  datatype State = State(players: seq<Player>, newPlayerName: string, gameStarted: bool)

  /** The component's initial state: no players, an empty name field, no game. */
  function Initial(): State {
    State([], "", false)
  }

  /** `scores.reduce((sum, s) => sum + s, 0)`: a left fold from 0. */
  function Sum(xs: seq<int>): int {
    if xs == [] then 0 else Sum(xs[..|xs| - 1]) + xs[|xs| - 1]
  }

  lemma SumAppendZero(xs: seq<int>)
    ensures Sum(xs + [0]) == Sum(xs)
  {
    assert (xs + [0])[..|xs|] == xs;
  }

  /** Overwriting one entry moves the sum by the difference. */
  lemma {:induction false} SumUpdate(xs: seq<int>, i: nat, v: int)
    requires i < |xs|
    ensures Sum(xs[i := v]) == Sum(xs) - xs[i] + v
    decreases |xs|
  {
    var ys := xs[i := v];
    var n := |xs| - 1;
    if i < n {
      assert ys[..n] == xs[..n][i := v];
      SumUpdate(xs[..n], i, v);
    } else {
      assert ys[..n] == xs[..n];
    }
  }

  /** No two players share an id. */
  predicate UniqueIds(ps: seq<Player>) {
    forall i, j :: 0 <= i < |ps| && 0 <= j < |ps| && ps[i].id == ps[j].id ==> i == j
  }

  /** Every stored total is the sum of that player's scores. */
  predicate TotalsMatch(ps: seq<Player>) {
    forall p :: p in ps ==> p.total == Sum(p.scores)
  }

  /** Every player has played exactly `n` rounds. */
  predicate Aligned(ps: seq<Player>, n: nat) {
    forall p :: p in ps ==> |p.scores| == n
  }

  /** The shape of a player list before a game: no scores, totals 0. */
  predicate Blank(ps: seq<Player>) {
    forall p :: p in ps ==> p.scores == [] && p.total == 0
  }

  // ---------------------------------------------------------------------------
  // Handlers
  // ---------------------------------------------------------------------------

  /** The name field's change handler: the typed text replaces the draft name. */
  function EditName(s: State, text: string): State {
    s.(newPlayerName := text)
  }

  /** `addPlayer`: when the trimmed draft name is non-empty and no game has
      started, append one player with that name, no scores and total 0, and
      clear the draft. `id` is the value the clock supplied. */
  function AddPlayer(s: State, id: string): (r: State)
    ensures |r.players| == |s.players| + 1 <==> Trim(s.newPlayerName) != [] && !s.gameStarted
    ensures |r.players| >= |s.players| && r.players[..|s.players|] == s.players
    ensures |r.players| > |s.players| ==>
      && r.players[|s.players|] == Player(id, Trim(s.newPlayerName), [], 0)
      && r.newPlayerName == []
      && r.gameStarted == s.gameStarted
    ensures |r.players| <= |s.players| + 1
    ensures !(Trim(s.newPlayerName) != [] && !s.gameStarted) ==> r == s
  {
    var name := Trim(s.newPlayerName);
    if name != [] && !s.gameStarted then
      var r := s.(players := s.players + [Player(id, name, [], 0)], newPlayerName := []);
      assert r.players[..|s.players|] == s.players;
      r
    else
      s
  }

  /** `players.filter((player) => player.id !== id)`. */
  function WithoutId(ps: seq<Player>, id: string): (r: seq<Player>)
    ensures |r| <= |ps|
  {
    if ps == [] then []
    else (if ps[0].id == id then [] else [ps[0]]) + WithoutId(ps[1..], id)
  }

  /** The filter keeps exactly the players whose id differs. */
  lemma {:induction false} WithoutIdMembers(ps: seq<Player>, id: string)
    ensures forall p :: p in WithoutId(ps, id) <==> p in ps && p.id != id
    decreases |ps|
  {
    if ps != [] {
      WithoutIdMembers(ps[1..], id);
      assert forall p :: p in ps <==> p == ps[0] || p in ps[1..];
    }
  }

  /** The filter distributes over concatenation, so the players it keeps stay
      in their original relative order. */
  lemma {:induction false} WithoutIdAppend(a: seq<Player>, b: seq<Player>, id: string)
    ensures WithoutId(a + b, id) == WithoutId(a, id) + WithoutId(b, id)
    decreases |a|
  {
    if a == [] {
      assert a + b == b;
    } else {
      assert (a + b)[1..] == a[1..] + b;
      WithoutIdAppend(a[1..], b, id);
    }
  }

  /** When no player carries the id, the filter keeps the list as it is. */
  lemma {:induction false} WithoutIdAbsent(ps: seq<Player>, id: string)
    requires forall j :: 0 <= j < |ps| ==> ps[j].id != id
    ensures WithoutId(ps, id) == ps
    decreases |ps|
  {
    if ps != [] {
      WithoutIdAbsent(ps[1..], id);
    }
  }

  /** Putting a player with a new id in front keeps ids unique. */
  lemma ConsUnique(p: Player, xs: seq<Player>)
    requires UniqueIds(xs)
    requires forall j :: 0 <= j < |xs| ==> xs[j].id != p.id
    ensures UniqueIds([p] + xs)
  {
    var ys := [p] + xs;
    assert forall i :: 0 < i < |ys| ==> ys[i] == xs[i - 1];
  }

  /** Appending a player with a new id keeps ids unique. */
  lemma SnocUnique(xs: seq<Player>, p: Player)
    requires UniqueIds(xs)
    requires forall j :: 0 <= j < |xs| ==> xs[j].id != p.id
    ensures UniqueIds(xs + [p])
  {
    var ys := xs + [p];
    assert forall i :: 0 <= i < |xs| ==> ys[i] == xs[i];
  }

  /** Filtering keeps ids unique. */
  lemma {:induction false} WithoutIdKeepsUnique(ps: seq<Player>, id: string)
    requires UniqueIds(ps)
    ensures UniqueIds(WithoutId(ps, id))
    decreases |ps|
  {
    if ps != [] {
      var tail := ps[1..];
      var rest := WithoutId(tail, id);
      assert UniqueIds(tail);
      WithoutIdKeepsUnique(tail, id);
      WithoutIdMembers(tail, id);
      if ps[0].id != id {
        forall j | 0 <= j < |rest| ensures rest[j].id != ps[0].id {
          assert rest[j] in rest;
          var i :| 0 <= i < |tail| && tail[i] == rest[j];
          assert ps[i + 1] == rest[j];
        }
        ConsUnique(ps[0], rest);
      }
    }
  }

  /** `removePlayer`: outside a game, drop the players with the given id. */
  function RemovePlayer(s: State, id: string): (r: State)
    ensures r.gameStarted == s.gameStarted && r.newPlayerName == s.newPlayerName
    ensures s.gameStarted ==> r.players == s.players
    ensures !s.gameStarted ==> forall p :: p in r.players <==> p in s.players && p.id != id
  {
    if !s.gameStarted then
      WithoutIdMembers(s.players, id);
      s.(players := WithoutId(s.players, id))
    else
      s
  }

  /** With unique ids, removing the id of the player at position `k` removes
      exactly that player and keeps the others in order. */
  lemma RemoveUniqueId(s: State, k: nat)
    requires !s.gameStarted && UniqueIds(s.players) && k < |s.players|
    ensures RemovePlayer(s, s.players[k].id).players == s.players[..k] + s.players[k + 1..]
  {
    WithoutIdUnique(s.players, k);
  }

  lemma WithoutIdUnique(ps: seq<Player>, k: nat)
    requires UniqueIds(ps) && k < |ps|
    ensures WithoutId(ps, ps[k].id) == ps[..k] + ps[k + 1..]
  {
    OthersKeep(ps, k);
    WithoutIdAt(ps, k);
  }

  lemma WithoutIdAt(ps: seq<Player>, k: nat)
    requires k < |ps|
    requires WithoutId(ps[..k], ps[k].id) == ps[..k]
    requires WithoutId(ps[k + 1..], ps[k].id) == ps[k + 1..]
    ensures WithoutId(ps, ps[k].id) == ps[..k] + ps[k + 1..]
  {
    SplitAt(ps, k);
    WithoutIdSplit(ps[..k], ps[k], ps[k + 1..]);
  }

  /** Filtering out the id of a player whose neighbours all survive removes
      just that player. */
  lemma WithoutIdSplit(front: seq<Player>, p: Player, back: seq<Player>)
    requires WithoutId(front, p.id) == front && WithoutId(back, p.id) == back
    ensures WithoutId(front + ([p] + back), p.id) == front + back
  {
    WithoutIdAppend(front, [p] + back, p.id);
    WithoutIdAppend([p], back, p.id);
    assert WithoutId([p], p.id) == [];
    assert [] + back == back;
  }

  /** With unique ids, the players before and after position `k` all survive
      the filter on the id at `k`. */
  lemma OthersKeep(ps: seq<Player>, k: nat)
    requires UniqueIds(ps) && k < |ps|
    ensures WithoutId(ps[..k], ps[k].id) == ps[..k]
    ensures WithoutId(ps[k + 1..], ps[k].id) == ps[k + 1..]
  {
    var id := ps[k].id;
    var front, back := ps[..k], ps[k + 1..];
    assert forall j :: 0 <= j < |front| ==> front[j].id != id by {
      forall j | 0 <= j < |front| ensures front[j].id != id {
        assert front[j] == ps[j];
      }
    }
    assert forall j :: 0 <= j < |back| ==> back[j].id != id by {
      forall j | 0 <= j < |back| ensures back[j].id != id {
        assert back[j] == ps[k + 1 + j];
      }
    }
    WithoutIdAbsent(front, id);
    WithoutIdAbsent(back, id);
  }

  /** `startGame`: with at least two players, start the game and give every
      player a first round scored 0. Totals are left as they were; that they
      stay correct is a consequence of the setup-phase invariant. */
  function StartGame(s: State): (r: State)
    ensures |s.players| < 2 ==> r == s
    ensures |s.players| >= 2 ==>
      && r.gameStarted
      && r.newPlayerName == s.newPlayerName
      && |r.players| == |s.players|
      && forall k :: 0 <= k < |s.players| ==>
           && r.players[k].id == s.players[k].id
           && r.players[k].name == s.players[k].name
           && r.players[k].total == s.players[k].total
           && r.players[k].scores == [0]
  {
    if |s.players| >= 2 then
      s.(gameStarted := true,
         players := seq(|s.players|, k requires 0 <= k < |s.players| => s.players[k].(scores := [0])))
    else
      s
  }

  /** `startGame` keeps stored totals as they were; they agree with the new
      one-round score lists only because in the setup phase every total is 0. */
  lemma StartGameKeepsTotals(s: State)
    requires !s.gameStarted && Blank(s.players)
    ensures TotalsMatch(StartGame(s).players)
    ensures |s.players| >= 2 ==> Aligned(StartGame(s).players, 1)
  {
    var r := StartGame(s);
    if |s.players| >= 2 {
      forall p | p in r.players ensures p.total == Sum(p.scores) && |p.scores| == 1 {
        var k :| 0 <= k < |r.players| && r.players[k] == p;
        assert s.players[k] in s.players;
      }
    }
  }

  /** The handler itself does not check the phase: run in the middle of a game,
      with a round already scored, it leaves a total that no longer matches the
      scores. Only the setup screen offers the start button. */
  lemma StartGameMidGameBreaksTotals()
    ensures var s := State([Player("1", "Ann", [15], 15), Player("2", "Bo", [0], 0)], "", true);
      TotalsMatch(s.players) && !TotalsMatch(StartGame(s).players)
  {
    var s := State([Player("1", "Ann", [15], 15), Player("2", "Bo", [0], 0)], "", true);
    assert Sum([15]) == 15 && Sum([0]) == 0 && Sum([]) == 0;
    assert forall p :: p in s.players ==> p == s.players[0] || p == s.players[1];
    assert StartGame(s).players[0] == Player("1", "Ann", [0], 15);
  }

  /** `addRound`: every player gets one more round, scored 0. */
  function AddRound(s: State): (r: State)
    ensures r.gameStarted == s.gameStarted && r.newPlayerName == s.newPlayerName
    ensures |r.players| == |s.players|
    ensures forall k :: 0 <= k < |s.players| ==>
      && r.players[k].id == s.players[k].id
      && r.players[k].name == s.players[k].name
      && r.players[k].total == s.players[k].total
      && |r.players[k].scores| == |s.players[k].scores| + 1
      && r.players[k].scores[..|s.players[k].scores|] == s.players[k].scores
      && r.players[k].scores[|s.players[k].scores|] == 0
  {
    var ps := seq(|s.players|, k requires 0 <= k < |s.players| =>
      s.players[k].(scores := s.players[k].scores + [0]));
    assert forall k :: 0 <= k < |s.players| ==> ps[k].scores[..|s.players[k].scores|] == s.players[k].scores;
    s.(players := ps)
  }

  /** A trailing 0 leaves every sum as it was, so totals still match. */
  lemma AddRoundKeepsTotals(s: State)
    requires TotalsMatch(s.players)
    ensures TotalsMatch(AddRound(s).players)
  {
    var r := AddRound(s);
    forall p | p in r.players ensures p.total == Sum(p.scores) {
      var k :| 0 <= k < |r.players| && r.players[k] == p;
      var q := s.players[k];
      assert q in s.players;
      assert p.scores == q.scores + [0];
      SumAppendZero(q.scores);
    }
  }

  /** Score lists of one common length `n` grow to one common length `n + 1`. */
  lemma AddRoundKeepsAligned(s: State, n: nat)
    requires Aligned(s.players, n)
    ensures Aligned(AddRound(s).players, n + 1)
  {
    var r := AddRound(s);
    forall p | p in r.players ensures |p.scores| == n + 1 {
      var k :| 0 <= k < |r.players| && r.players[k] == p;
      assert s.players[k] in s.players;
    }
  }

  /** One player's cell edit: score `v` in round `i`, and the total recomputed
      from the new scores. The new total differs from the old sum by exactly
      the change in that one cell. */
  function SetScore(p: Player, i: nat, v: int): (q: Player)
    requires i < |p.scores|
    ensures q.id == p.id && q.name == p.name
    ensures |q.scores| == |p.scores| && q.scores[i] == v
    ensures forall j :: 0 <= j < |p.scores| && j != i ==> q.scores[j] == p.scores[j]
    ensures q.total == Sum(q.scores)
    ensures q.total == Sum(p.scores) - p.scores[i] + v
  {
    SumUpdate(p.scores, i, v);
    var scores := p.scores[i := v];
    p.(scores := scores, total := Sum(scores))
  }

  /** `updateScore`: parse the typed text as `parseInt(text) || 0` and write it
      into round `i` of every player with the given id; nobody else changes. */
  function UpdateScore(s: State, id: string, i: nat, text: string): (r: State)
    requires forall p :: p in s.players && p.id == id ==> i < |p.scores|
    ensures r.gameStarted == s.gameStarted && r.newPlayerName == s.newPlayerName
    ensures |r.players| == |s.players|
    ensures forall k :: 0 <= k < |s.players| ==>
      r.players[k].id == s.players[k].id && r.players[k].name == s.players[k].name
    ensures forall k :: 0 <= k < |s.players| && s.players[k].id != id ==> r.players[k] == s.players[k]
    ensures forall k :: 0 <= k < |s.players| && s.players[k].id == id ==>
      r.players[k] == SetScore(s.players[k], i, ParseScore(text))
  {
    var v := ParseScore(text);
    s.(players := seq(|s.players|, k requires 0 <= k < |s.players| =>
      if s.players[k].id == id then SetScore(s.players[k], i, v) else s.players[k]))
  }

  /** With unique ids, a score edit replaces exactly the one player who carries
      the id. */
  lemma UpdateScoreAt(s: State, k: nat, i: nat, text: string)
    requires UniqueIds(s.players) && k < |s.players| && i < |s.players[k].scores|
    ensures forall p :: p in s.players && p.id == s.players[k].id ==> i < |p.scores|
    ensures UpdateScore(s, s.players[k].id, i, text).players
      == s.players[k := SetScore(s.players[k], i, ParseScore(text))]
  {
    forall p | p in s.players && p.id == s.players[k].id ensures i < |p.scores| {
      var j :| 0 <= j < |s.players| && s.players[j] == p;
    }
  }

  /** A score edit keeps every total equal to its sum and every player's
      number of rounds as it was. */
  lemma UpdateScoreKeepsTotals(s: State, id: string, i: nat, text: string, n: nat)
    requires TotalsMatch(s.players) && Aligned(s.players, n) && i < n
    ensures TotalsMatch(UpdateScore(s, id, i, text).players)
    ensures Aligned(UpdateScore(s, id, i, text).players, n)
  {
    var r := UpdateScore(s, id, i, text);
    forall p | p in r.players ensures p.total == Sum(p.scores) && |p.scores| == n {
      var k :| 0 <= k < |r.players| && r.players[k] == p;
      assert s.players[k] in s.players;
    }
  }

  /** `resetGame`: back to setup with every player kept, scores cleared and
      totals zeroed. */
  function ResetGame(s: State): (r: State)
    ensures !r.gameStarted && r.newPlayerName == s.newPlayerName
    ensures |r.players| == |s.players|
    ensures forall k :: 0 <= k < |s.players| ==>
      && r.players[k].id == s.players[k].id
      && r.players[k].name == s.players[k].name
      && r.players[k].scores == []
      && r.players[k].total == 0
  {
    s.(gameStarted := false,
       players := seq(|s.players|, k requires 0 <= k < |s.players| => s.players[k].(scores := [], total := 0)))
  }

  // ---------------------------------------------------------------------------
  // Round count
  // ---------------------------------------------------------------------------

  function Max(a: int, b: int): int {
    if a < b then b else a
  }

  /** `getMaxRounds`: `Math.max(...players.map((p) => p.scores.length), 0)`,
      the least bound on every player's number of rounds that is 0 or attained. */
  function MaxRounds(ps: seq<Player>): (n: nat)
    ensures forall p :: p in ps ==> |p.scores| <= n
    ensures n == 0 || exists p :: p in ps && |p.scores| == n
  {
    if ps == [] then 0
    else
      var rest := MaxRounds(ps[1..]);
      assert forall p :: p in ps ==> p == ps[0] || p in ps[1..];
      Max(|ps[0].scores|, rest)
  }

  /** When every player has `n` rounds, `n` is the round count. */
  lemma MaxRoundsAligned(ps: seq<Player>, n: nat)
    requires |ps| > 0
    requires forall p :: p in ps ==> |p.scores| == n
    ensures MaxRounds(ps) == n
  {
    assert ps[0] in ps;
  }

  /** Before a game the round count is 0. */
  lemma BlankNoRounds(ps: seq<Player>)
    requires Blank(ps)
    ensures MaxRounds(ps) == 0
  {
    forall p | p in ps ensures |p.scores| == 0 {
    }
  }

  /** Immediately after a reset the round count is 0. */
  lemma ResetClearsRounds(s: State)
    ensures MaxRounds(ResetGame(s).players) == 0
  {
    var ps := ResetGame(s).players;
    forall p | p in ps ensures p.scores == [] && p.total == 0 {
      var k :| 0 <= k < |ps| && ps[k] == p;
    }
    BlankNoRounds(ps);
  }
}
