# Scrabble score sheet — a Dafny model

The repository is a single React component, `App` in `src/App.tsx`. It keeps
three pieces of state: a list of players, the name being typed for the next
player, and a "game started" flag. It offers handlers that change them:

- `addPlayer`, `removePlayer` and `startGame` during setup;
- `addRound` and `updateScore` during a game;
- `resetGame` to go back to setup.

It also offers three queries over the list:

- `getMaxRounds`, the number of rounds so far;
- `getTopPlayers`, the three best totals;
- `getMedalIcon`, the medal shown above a player's column.

This project models that logic as pure functions over immutable values and
proves the properties the page relies on.

| module | file | models |
|---|---|---|
| `JsText` | `js_text.dfy` | the two ECMAScript built-ins the handlers call: `String.prototype.trim`, with the full WhiteSpace and LineTerminator sets, and `parseInt` without a radix (section 19.2.5 of ECMA-262), including the sign, the `0x` prefix and the stop at the first non-digit |
| `Seqs` | `seqs.dfy` | no part of the component: the facts about slicing and concatenating sequences that the other proofs cite |
| `Session` | `session.dfy` | the `Player` record and the component's state, each handler as a `State -> State` function, and `getMaxRounds` |
| `Ranking` | `ranking.dfy` | `getTopPlayers`, with the engine's stable `Array.prototype.sort` modelled as a stable insertion sort, and `getMedalIcon` |
| `Game` | `game.dfy` | the consistency that holds between two events (totals are sums, ids are distinct, names are trimmed, one column per round for everybody during a game), the events each screen offers, and any run of events from the first render |
| `Scenario` | `scenario.dfy` | a concrete session: Ann and Bo join, two rounds are played, Ann scores 15, "abc" is typed for Bo, the podium is read, and the game is reset |

The handlers are modelled as the code is written, not as the screen uses them.

- `startGame` and `addRound` do not check the phase.
- `updateScore` writes into every player carrying the id.
- `removePlayer` drops every player carrying the id.

The screen is what keeps those handlers out of the wrong phase. The `Game`
module records this as `Enabled`, and proves that every enabled event keeps
the state consistent.

## Model

| member | source | states |
|---|---|---|
| JsText.Trim | src/App.tsx:17-20 | the trimmed name has no white space at either end; it is empty exactly when the entry is all white space; it is the entry minus its leading and trailing white runs |
| JsText.TrimPadded | src/App.tsx:17-20 | trimming any white padding around an already trimmed string gives back exactly that string |
| JsText.TrimIdempotent | src/App.tsx:20 | a stored name is a fixed point of `trim`: trimming twice is trimming once |
| JsText.ParseSkipsWhite | src/App.tsx:48 | white space in front of a score does not change what `parseInt` reads |
| JsText.ParseSignedDecimal | src/App.tsx:48 | an optional sign, then decimal digits, then text that does not continue the numeral, reads as the digits' value, negated for a minus sign; a lone `0` followed by `x` or `X` selects radix 16 instead |
| JsText.ParseHex | src/App.tsx:48 | an optional sign, then `0x` or `0X`, then hexadecimal digits, reads as the hexadecimal value, negated for a minus sign, because `parseInt` without a radix honours that prefix |
| JsText.ParseHexNoDigits | src/App.tsx:48 | an optional sign and a `0x` or `0X` prefix with no hexadecimal digit after it give NaN, so the stored score is 0 |
| JsText.ParseNoDigits | src/App.tsx:48 | when no digit follows the white space and sign, `parseInt` gives NaN and the stored score is 0; the parse never fails the handler |
| JsText.ParseScoreRoundTrip | src/App.tsx:48 | reading back the decimal numeral of any integer gives that integer, so every integer score can be entered |
| Session.AddPlayer | src/App.tsx:16-27 | a player is appended exactly when the trimmed entry is non-empty and no game has started; the new player carries the given id, the trimmed name, no scores and total 0; the field is cleared; the earlier players are unchanged; otherwise nothing changes |
| Session.RemovePlayer | src/App.tsx:29-33 | during a game the list is unchanged; in setup a player remains exactly when it was present and has a different id |
| Session.WithoutIdMembers | src/App.tsx:31 | `filter` by id keeps exactly the players with another id |
| Session.WithoutIdAppend | src/App.tsx:31 | `filter` by id distributes over concatenation, so the survivors keep their order |
| Session.WithoutIdKeepsUnique | src/App.tsx:31 | removing players keeps the remaining ids distinct |
| Session.RemoveUniqueId | src/App.tsx:29-33 | with distinct ids, removing the k-th player's id in setup leaves the list with just position k cut out |
| Session.StartGame | src/App.tsx:35-41 | with fewer than two players nothing changes; otherwise the game starts and each player, in the same order, keeps id, name and total and gets the single score 0 |
| Session.StartGameKeepsTotals | src/App.tsx:35-41 | started from setup, totals still equal sums and, with at least two players, everybody has exactly one round |
| Session.StartGameMidGameBreaksTotals | src/App.tsx:35-41 | a state where Ann has 15 points, run through `startGame` a second time, keeps her total of 15 against scores summing to 0; the handler itself does not check the phase |
| Session.AddRound | src/App.tsx:43-45 | every player, in the same order, keeps id, name, total and old scores, and gains one trailing score 0 |
| Session.AddRoundKeepsTotals | src/App.tsx:43-45 | if totals equal sums before a new round, they still do after it |
| Session.AddRoundKeepsAligned | src/App.tsx:43-45 | if everybody had n rounds, everybody has n + 1 |
| Session.SumUpdate | src/App.tsx:52-54 | summing the scores after overwriting cell i gives the old sum minus the old cell plus the new value |
| Session.SetScore | src/App.tsx:51-55 | the edited player keeps id and name and the number of rounds; cell i holds the new value; every other cell is unchanged; the total is the new scores' sum |
| Session.UpdateScore | src/App.tsx:47-60 | the phase, field, roster order, ids and names are kept; players with another id are unchanged; a player with the id gets the parsed score written into round i |
| Session.UpdateScoreAt | src/App.tsx:47-60 | with distinct ids, editing the k-th player's cell changes position k and nothing else in the list |
| Session.UpdateScoreKeepsTotals | src/App.tsx:47-60 | when everybody has n rounds and i < n, an edit keeps totals equal to sums and everybody at n rounds |
| Session.ResetGame | src/App.tsx:62-65 | setup is restored; every player, in the same order, keeps id and name and has no scores and total 0 |
| Session.ResetClearsRounds | src/App.tsx:62-69 | after a reset the round count is 0, whatever the state was before |
| Session.MaxRounds | src/App.tsx:67-69 | the round count bounds every player's number of scores and is reached by some player, or is 0 |
| Session.MaxRoundsAligned | src/App.tsx:67-69 | when a non-empty list has n scores for everybody, the round count is n |
| Session.BlankNoRounds | src/App.tsx:67-69 | with nobody holding a score, the round count is 0 |
| Ranking.Insert | src/App.tsx:72 | placing one player into a list adds exactly that player, as a multiset |
| Ranking.InsertSorted | src/App.tsx:72 | placing a player into a list ordered by non-increasing total keeps it ordered |
| Ranking.InsertWithTotal | src/App.tsx:72 | placing a player keeps, for every total, the order of the players sharing that total, the new one in front of its ties |
| Ranking.SortByTotal | src/App.tsx:72 | the sorted copy is a permutation of the players, ordered by non-increasing total |
| Ranking.SortStable | src/App.tsx:72 | for every total, the players with that total appear in the sorted copy in their original order |
| Ranking.StableSortUnique | src/App.tsx:72 | two lists ordered by total that agree on the order of every group of ties are equal |
| Ranking.SortByTotalUnique | src/App.tsx:72 | any list ordered by total that keeps every group of ties in original order is the sorted copy, so the choice of stable algorithm does not matter |
| Ranking.SortKeepsUnique | src/App.tsx:72 | sorting keeps the ids distinct |
| Ranking.TopPlayers | src/App.tsx:71-73 | the podium has min(3, n) players, is ordered by non-increasing total, and is drawn from the players without duplication |
| Ranking.TopPlayersBeatRest | src/App.tsx:71-73 | a player left off the podium has a total no greater than anybody on it |
| Ranking.TopPlayersStable | src/App.tsx:71-73 | for every total, the podium's players with that total are the first of the players with that total, in list order |
| Ranking.TopKeepsUnique | src/App.tsx:71-73 | podium ids are distinct when the players' ids are |
| Ranking.FindIndex | src/App.tsx:77 | the result is -1 exactly when no player has the id, and otherwise the first position that has it |
| Ranking.MedalIcon | src/App.tsx:75-89 | a medal is shown exactly when the id is on the podium, and it is the medal of the first podium position holding that id |
| Ranking.MedalsDistinct | src/App.tsx:79-88 | the three medals are non-empty and pairwise different |
| Ranking.MedalByPosition | src/App.tsx:75-89 | with distinct ids, the player in podium position k shows medal k |
| Ranking.NoMedalOutsideTop | src/App.tsx:75-89 | with distinct ids, a player who is not on the podium shows no medal, even when tied with somebody who is |
| Game.AddPlayerKeepsInv | src/App.tsx:16-27 | adding a player with a fresh id during setup keeps the state consistent |
| Game.RemovePlayerKeepsInv | src/App.tsx:29-33 | removing a player during setup keeps the state consistent |
| Game.StartGameKeepsInv | src/App.tsx:35-41 | starting with at least two players gives a consistent game with one round |
| Game.AddRoundKeepsInv | src/App.tsx:43-45 | adding a round during a game keeps the state consistent |
| Game.UpdateScoreKeepsInv | src/App.tsx:47-60 | editing any shown cell, with any text, keeps the state consistent |
| Game.ResetGameKeepsInv | src/App.tsx:62-65 | resetting a game gives a consistent setup state |
| Game.Step | src/App.tsx:98-196 | any event the current screen offers takes a consistent state to a consistent state |
| Game.Run | src/App.tsx:98-196 | any sequence of events keeps a consistent state consistent |
| Game.Play | src/App.tsx:12-14 | from the first render on, the state is always consistent: during a game at least two players have the same number of rounds, and in setup the round count is 0 |
| Game.GameKeepsRoster | src/App.tsx:98-196 | during a game, no event changes who plays, their names or their order, and only a reset ends the game |
| Game.GameKeepsRounds | src/App.tsx:134-175 | during a game, no event but a reset lowers the round count |
| Scenario.AnnAndBoJoin | src/App.tsx:16-27 | typing "Ann" and adding, then "Bo" and adding, gives two players in that order with no scores |
| Scenario.AnnAndBoStart | src/App.tsx:35-45 | starting gives one round and adding a round gives two, all scores 0 |
| Scenario.AnnAndBoPlay | src/App.tsx:47-89 | "15" for Ann in round 1 gives her total 15; "abc" for Bo reads as 0; the podium is Ann then Bo with gold and silver; a reset returns both players, names kept, with no rounds |

## Left out

- Rendering: the JSX, the CSS and the page layout are not modelled. Neither is the display rule `scores[roundIndex] || ""` that shows a 0 score as an empty cell. The model keeps only which events each screen offers.
- React's state hooks and their batching are not modelled. Each handler is one function from the state before to the state after, which is what one click produces.
- The id clock, `Date.now().toString()`, is not modelled. The id is a parameter of `AddPlayer`. `Game.Enabled` requires a fresh id, which assumes two additions never fall in the same millisecond.
- JavaScript Numbers are modelled as unbounded integers. The model leaves out rounding beyond 2^53, `parseInt` results with more than about 16 significant digits, and totals that overflow to Infinity. For integers, `-0` and `0` behave alike under `|| 0`, which is modelled.
- The sort comparator `b.total - a.total` is modelled as a comparison of totals, which matches the subtraction's sign for exact integers. The engine's own sort algorithm is not modelled. Any stable sort gives the same result (`Ranking.SortByTotalUnique`).
- Strings are modelled as sequences of Unicode scalar values, whereas JavaScript strings are UTF-16 code units. Every white-space character and every digit lies in the Basic Multilingual Plane, so `trim` and `parseInt` agree on both.
- Session.UpdateScore: requires round i to exist for the players carrying the id. JavaScript would write past the end of a shorter scores array and leave holes. The screen only offers cells below the round count, and during a game every player has exactly that many rounds (`Game.Inv`).
- Game.Step: requires a consistent state and an event the current screen offers. The handlers in `Session` themselves take any state; `Session.StartGameMidGameBreaksTotals` shows what an unguarded `startGame` in the middle of a game would do.
- getTopPlayers leaves `players` unchanged because it sorts a copy. Here every function is pure, so there is nothing to state.
