# go-geo-go trivia server, modelled in Dafny

This project models the bookkeeping core of the go-geo-go multiplayer geography-trivia server, in two generations.

The room server (`server/`) has three parts:
- a hub that creates game rooms under random ids, records which player belongs to which room, and admits joining players;
- rooms that fill a fixed roster, play a fixed number of timed rounds with a cooperative stop signal, score answers by correctness and speed, compute a leaderboard and hand themselves back to the hub to be reaped;
- a question generator that draws distinct dataset entries by retry and picks the correct answer among them.

The first generation (`server.go`) pairs exactly two players. It plays rounds whose answer wait skips answers to other questions, and it ends with a winner decision.

Modules:
- `Wrappers` (`wrappers.dfy`): `Option`, `Result`, and the zero-default lookup of a Go map.
- `Protocol` (`protocol.dfy`): the message tags of `server/main.go` and the message shapes.
- `Scoring` (`scoring.dfy`): the speed-weighted points `int((1 - elapsed/ttl) * 100)` as integer arithmetic, and `scores[id] += points`.
- `Questions` (`questions.dfy`): `generateQuestion`, as array-filling methods with an inner retry loop. They are proved against a recursive specification of the selection.
- `Room` (`room.dfy`): `server/game.go` as class `Game`. A round is described by supplied outcomes: whether each question send succeeds, what each answer wait sees first (a frame, a read error, the timer), and whether each reply send succeeds. Each method is proved against specification functions of those outcomes.
- `Hub` (`hub.dfy`): `server/hub.go` as class `Registry`, over the maps `games`, `playerGameMap` and `connections`.
- `FirstServer` (`first_server.dfy`): `server.go`, with its generator, answer wait, round loop, winner decision and pairing step.

Abstractions:
- **Random draws.** The random source is a supplied sequence of raw draws. `r1.Intn(b)` takes the next draw modulo `b`, and the question uuid is a parameter.
- **Time.** Elapsed time and the deadline are natural numbers of milliseconds. The points are `100 * (ttl - elapsed)` divided by `ttl`, truncated toward zero, as Go's float-to-int conversion truncates.
- **Stop signal.** The `StopGame` channel is the boolean `stopRequested`. The round loop reads it at each round boundary.
- **Answer waits.** The concurrent answer waits of a round run one after another in roster order. Each changes only its own player's entry, so every order gives the same table. The source's unsynchronised map writes are not captured (see "## Left out").

Where the code differs from what a reader would expect, the model follows the code:
- `CreateGame` draws the id with `rand.Intn(10000)`. It does not check for collisions: a game already under that id is overwritten. It does not reject an empty player list or a non-positive round count.
- The points are truncated, not rounded. They are not clamped at 0: an answer that wins the race against the timer after the deadline scores 0 or less (`Scoring.RoundScoreLate`).
- In the room server's `waitForAnswers`, an answer to another question does not keep the wait going. `processAnswer` runs once, the player is sent the empty message, and the wait ends. Only the first-generation wait skips such answers and keeps waiting.
- A failed question send ends the whole fan-out of that round. Later players get neither the question nor a wait.
- The leaderboard list is sorted, but it is then put back into a map. The game-over message carries the unordered score table, with the same entries as before.
- The round in which the stop signal is raised still runs all its registered waits, and those scores count.
- Nothing keeps one id from holding two seats. `CreateGame` accepts an id listed twice, and a repeat join before the room fills passes the handler, because the assignment is kept and `addPlayer` does not check for duplicates. That id's score can then rise by 200 in one round, which is why `Room.WaitsBounded` and `Room.ScoresGrowBoundedly` require distinct ids.
- Two situations make the hub panic: a join to a game that has disappeared, and a join to an already complete game. The reaper panics on an id with no game, and on a roster slot nobody joined. The model reports these as the outcomes `Aborted` and `Crashed`.

## Model

| member | source | states |
|---|---|---|
| Protocol.TagsDistinct | server/main.go:16-22 | the seven message tags are pairwise distinct strings |
| Scoring.TruncDiv | server/game.go:189 | the quotient truncated toward zero: the floor for non-negative dividends, the ceiling for negative ones |
| Scoring.RoundScoreInTime | server/game.go:189 | within the deadline the points are the largest integer not above 100·(1 − elapsed/ttl), lie in [0, 100], are 100 exactly for an instant answer and 0 exactly when less than one point's worth of time is left |
| Scoring.RoundScoreLate | server/game.go:151-152 | an answer timed past the deadline never earns positive points |
| Scoring.RoundScoreMonotone | server.go:176-180 | an earlier answer never earns fewer points than a later one |
| Scoring.AddPoints | server/game.go:190 | `+=` on a Go map: the entry becomes its old value (0 when absent) plus the points, the key set gains only that key, every other entry is unchanged |
| Questions.Intn | server/main.go:83 | a draw reduced below its bound |
| Questions.FirstFresh | server/main.go:83-87 | where the retry loop stops: a draw at or after the start whose index is not yet selected |
| Questions.FirstFreshSkipsSelected | server/main.go:84-87 | every draw the retry loop skips is already selected; when the supply runs out, every remaining draw was |
| Questions.Pick | server/main.go:82-91 | the selection of k slots gives exactly k indices and the position of the next unused draw |
| Questions.PickDistinct | server/main.go:82-88 | the selected indices are pairwise distinct and all below the number of entries |
| Questions.PickExhaustedStays | server/main.go:82-88 | once a slot cannot be filled, no later slot is |
| Questions.TooFewEntriesNeverFill | server/main.go:82-88 | with more slots than entries the selection never completes (the source's retry loop does not terminate) |
| Questions.AnswerIsAnOption | server/main.go:93-97 | the correct answer is one of the options |
| Questions.DrawFresh | server/main.go:83-87 | the retry loop returns exactly the first fresh draw of the specification, or reports that the draws ran out |
| Questions.Record | server/main.go:89-90 | slot i gets the entry and its capital; every other slot of both arrays is unchanged |
| Questions.FillOptions | server/main.go:78-91 | the selection loop fills `capitalsSet[i]` with the i-th chosen entry and `options[i]` with its capital, exactly as the specification chooses them |
| Questions.GenerateQuestion | server/main.go:75-99 | n options from n distinct in-range entries, in draw order; the country and the answer belong to the same chosen entry, picked by the final draw; the answer is an option; the id is the supplied uuid; no question when there are more slots than entries or when the draws run out |
| Room.Registered | server/game.go:96-104 | the number of waits the fan-out registers: all players before the first failed send, and the send at that index failed |
| Room.WaitsTouchOnlyTheirPlayers | server/game.go:140-175 | the waits of a round never add, remove or change the entry of a player that did not wait |
| Room.WaitsKeepKeys | server/game.go:190 | when every waiting player already has an entry, a round adds no entry |
| Room.WaitsBounded | server/game.go:140-202 | with in-time answers and distinct players, a round raises each score by between 0 and 100 |
| Room.RoundsFrom | server/game.go:52-56 | the round count never falls below the starting round, and passes numberOfRounds only when no round is played |
| Room.RoundsFromMeaning | server/game.go:52-67 | no round starts once a stop is pending at its boundary; every round but the last one played completed without raising a stop; ending before numberOfRounds means a stop was raised |
| Room.UpdatesCarryTables | server/game.go:59-63 | one score update per round played, the r-th carrying the score table after round r |
| Room.ScoresGrowBoundedly | server/game.go:51-71 | over n rounds of in-time answers among distinct players, each score grows by between 0 and 100·n |
| Room.Insert | server/game.go:121 | inserting an entry into an ascending list keeps it ascending and adds exactly that entry |
| Room.SortByScore | server/game.go:121 | the sorted list is ascending by score and a permutation of its input |
| Room.RebuildGivesTableBack | server/game.go:122-126 | rebuilding a map from any listing of a table's entries gives back exactly that table |
| Room.ListEntries | server/game.go:117-120 | the range loop lists every entry of the table exactly once |
| Room.Rebuild | server/game.go:122-125 | the rebuild loop stores each listed entry, later entries overwriting earlier ones |
| Room.Game.New | server/game.go:27-39 | a valid empty room: the roster has the requested size with zero-valued slots, no scores, the join barrier at the roster size, no stop pending |
| Room.Game.AddPlayer | server/game.go:41-49 | with a free seat the player takes slot onlinePlayers with score 0 and the count rises by one; on a full roster nothing changes; other slots are never touched; the roster bound and the joined-ids-equal-score-keys invariant are kept |
| Room.Game.JoinDone | server/hub.go:59 | the join barrier drops by one while positive; at zero, where `Done` panics, failure is reported |
| Room.Game.ProcessAnswer | server/game.go:177-202 | a mismatched question id is an error with no score change; a correct capital adds the time-weighted points to this player only and reports them; a wrong capital reports false and 0 points with no score change |
| Room.Game.WaitForAnswers | server/game.go:140-175 | exactly one event is consumed: a read error signals stop, scores nothing and sends nothing; a frame is processed once and its reply is sent, the empty message for a mismatched id; the timer sends the timeout notice; a failed reply send signals stop |
| Room.Game.SendQuestionToAllPlayers | server/game.go:94-105 | when the send at index k fails, exactly k waits are registered, k+1 players were sent the question and stop is signalled; with no failure every player gets one wait and no stop |
| Room.Game.AwaitRegistered | server/game.go:100-110 | the registered waits leave the scores of those waits in roster order; stop is signalled exactly when one of them raises it |
| Room.Game.PlayQuestion | server/game.go:107-110 | the scores after a round are those of the registered waits in roster order; stop is signalled exactly when the round raises it; the room stays valid |
| Room.Game.CalculateLeaderboard | server/game.go:112-127 | the leaderboard is ascending by score and lists every score entry exactly once; the rebuilt score table equals the old one |
| Room.Game.FinishGame | server/game.go:129-138 | the leaderboard as above; the game-over message carries the unchanged score table; the room's own id goes to the registry; it counts one finish |
| Room.Game.PlayRounds | server/game.go:52-69 | the round loop plays the number of rounds the round specification gives, leaves the scores of those rounds and sends the update sequence of those rounds |
| Room.Game.Play | server/game.go:50-70 | the number of rounds played is what the round specification says; the scores are those of these rounds; one score update follows each round, carrying the table after it; finishGame runs exactly once; the game-over message carries the final table |
| Hub.GameIdOf | server/hub.go:75 | the game id lies in [0, 10000) |
| Hub.Registry.InitHub | server/hub.go:100-104 | an empty, valid registry |
| Hub.Registry.CreateGame | server/hub.go:64-93 | the drawn id in [0, 10000); a fresh room with one zero-valued seat per listed player, the given rounds, nobody joined, no stop pending, stored over any room under that id; every listed player is assigned to it and admitted by it; other assignments and all connections are unchanged |
| Hub.Registry.Handler | server/hub.go:37-63 | a player not assigned to the requested game gets NotFound, and neither the tables nor the requested room and its roster change; otherwise the connection is recorded; a missing game aborts; a full game aborts with its room and roster unchanged; any other game seats the player in the next slot with score 0, the join barrier drops by one, and the other slots and the stop flag are untouched; assignments are kept, so a repeat join passes the check again |
| Hub.Registry.Enter | server/hub.go:56-59 | on a room with a free seat the player takes the next slot with score 0 and the join barrier drops by one, with the other slots and the stop flag untouched; a full room aborts with the room and its roster unchanged; the registry stays valid |
| Hub.Registry.Reap | server/hub.go:108-138 | an unknown id crashes with nothing changed; otherwise the joined players lose their assignment and connection, and a full room is then deleted from the registry; an unjoined slot crashes it before deleting the room; other players and games are unchanged |
| Hub.Registry.DropPlayers | server/hub.go:129-135 | the reaper's loop removes exactly the first n roster ids from both maps |
| FirstServer.GenerateQuestion | server.go:239-263 | the same selection over Capital records: n options from distinct entries; the answer city is an option; the country belongs to the same entry |
| FirstServer.Winner | server.go:148-155 | exactly one result: p1 wins iff its score is higher, p2 iff lower, a tie iff equal |
| FirstServer.WinnerIsSymmetric | server.go:148-155 | swapping the scores swaps the winner and keeps a tie |
| FirstServer.FirstDecisive | server.go:165-195 | the event that ends the wait is the timer or an answer to the current question |
| FirstServer.FirstDecisiveSkipsStale | server.go:173-175 | every event before it is an answer to another question; without one, every event is |
| FirstServer.ReplyFor | server.go:177-194 | the timer gets the timeout tag, an answer an acknowledgement whose verdict is whether the capital is right |
| FirstServer.Completed | server.go:124-133 | the count of completed rounds lies between the starting round and the limit |
| FirstServer.CompletedMeaning | server.go:124-133 | every counted round completes, and the count stops short of the limit only at a round that does not |
| FirstServer.TimerEndsWait | server.go:163-195 | events that include the timer always hold a deciding event, so the wait ends |
| FirstServer.TimedRoundsComplete | server.go:124-133 | when both waits of every round see the timer, play completes all its rounds |
| FirstServer.WaitEffectBounded | server.go:176-185 | a wait changes at most its own player's entry, by between 0 and 100 for an in-time answer |
| FirstServer.ScoresOverBounded | server.go:123-147 | between two distinct players, each gains between 0 and 100 points a round |
| FirstServer.FirstGame.constructor | server.go:218 | the new game holds both players with scores {p1: 0, p2: 0} |
| FirstServer.FirstGame.WaitForAnswers | server.go:162-199 | answers to other questions are skipped without a score change; the first deciding event ends the wait: a correct answer adds the time-weighted points to this player, a wrong one nothing, the timer sends the timeout notice; with no deciding event the wait stays blocked |
| FirstServer.FirstGame.Play | server.go:123-160 | max(rounds, 0) rounds with two answer waits each, unless a round blocks; then the scores of the rounds played; the winner decision on both scores only when all rounds complete |
| FirstServer.PairKeysCollide | server.go:204-206 | any pair whose names concatenate to a stored key finds that game, in either order of lookup |
| FirstServer.DistinctPairsShareKey | server.go:204-206 | the distinct pairs ("ab", "c") and ("a", "bc") share a key, so one finds the other's game |
| FirstServer.FirstHub.constructor | server.go:102-103 | no games and no connections |
| FirstServer.FirstHub.WaitForOpponentStep | server.go:203-227 | a game under p1+p2 or p2+p1 ends the wait with nothing changed; otherwise, with p2 connected, a fresh game for the pair with both scores 0 is stored under p1+p2; otherwise nothing changes |

## Left out

- Concurrency: goroutines, `sync.WaitGroup`, mutexes, `sync.Map` and the `select` races are replaced by the sequential order described above. The join barrier wait in `startGame`, and the start of the read loops and play that follow it, are not modelled.
- Room.Game.SendQuestionToAllPlayers: the StopGame channel holds at most two values and a third send blocks. This is not modelled: the flag can be raised any number of times. In a room of three or more players, several failures in one round can block the source here.
- Room.Game.WaitForAnswers: the same blocking of a third StopGame send is not modelled.
- Room.Game.Play: the one-second pause between rounds and the stopping of the players' read loops in finishGame are not modelled. Play requires a full roster, the state startGame establishes before play.
- Room.Game.Play: the question of each round is supplied, not generated. `Questions.GenerateQuestion` models the generator separately.
- Room.Game.CalculateLeaderboard: `sort.Slice` sorts the slice in place. The model sorts by a function on sequences. Its contract fixes only the order and the permutation, which leaves ties in any order, as `sort.Slice` does.
- Scoring.RoundScore: the source computes the fraction in floating point. The model uses exact integer arithmetic, so a product that rounds just below an integer can make the source award one point less. An answer after 27 s of a 30 s deadline gives (1 − 0.9)·100 = 9.999999999999998 in double precision, so the source awards 9 where the model awards 10.
- Questions.GenerateQuestion: a supply of draws that runs out gives no question. This stands for the source's retry loop running on; it is not a behaviour of the source.
- FirstServer.FirstGame.WaitForAnswers: the events are a finite supplied sequence. A sequence with no deciding event stands for a wait that has not ended yet. In the source the timer always ends the wait within the deadline: `FirstServer.TimerEndsWait` shows that any sequence holding the timer decides.
- FirstServer.FirstHub.WaitForOpponentStep: only one pass of the polling loop is modelled. The loop repeats that pass until it returns Found or Created, and the game started with `go hub.startGame` is not modelled.
- FirstServer.FirstHub.WaitForOpponentStep: the Found branch returns while still holding `GamesMux`, whose `Unlock` is then never reached (server.go:203-209). In a pairing one of the two waits ends in Found, so every later `waitForOpponent` in the source blocks on `Lock` forever. The model has no lock and does not capture this.
- Room.Game.AwaitRegistered and FirstServer.FirstGame.Play: the source's answer waits are goroutines that write `g.scores[...] +=` to one Go map without synchronisation (server/game.go:103 and 190, server.go:130-132 and 181). Go's runtime may abort the process on such concurrent map writes, even for different keys. The model runs the waits in sequence and does not capture this.
- FirstServer.FirstGame.WaitForAnswers: a read error makes `readJSON` panic and end the process (server.go:66-69). The inbound events therefore have no error case.
- Questions.GenerateQuestion: `0 < |capitals|` is required because `Intn(0)` panics on an empty dataset. `fetchCapitals` ignores the error of `json.Unmarshal` (server/main.go:72), so a malformed data file leaves the dataset empty and the first question panics. This panic is not modelled.
- Room.Game.JoinDone: on a counter at zero, `Done` stores −1 and then panics. The model keeps the counter at zero and reports failure. The stored −1 is never seen, for `Wait` has already returned.
- FirstServer.FirstGame.Play: every send in this version panics on error, so sends are modelled as always succeeding. The per-round acknowledgement texts and the 5-second pause are not modelled. `startGame` calls play with 10 rounds; the round count is a parameter here.
- Hub.Registry.Handler: reading the `userID` and `gameID` headers is not modelled; their values are parameters. `strconv.Atoi` gives 0 for a non-numeric id. The websocket upgrade and its panic on error are not modelled, nor the 404 response itself.
- Hub.Registry.Reap: closing the sockets (`dropConnection`) is not modelled beyond the crash on a slot that never got a connection. The `UnregisterGame` channel is replaced by the caller passing the id.
- HTTP bodies, JSON encoding and decoding, and `mapstructure.Decode` are not modelled: a decoded frame is a given value. The message type of an inbound frame is only logged by the source, so the model ignores it too.
- Message texts built with `fmt.Sprintf`, and all logging.
- `fetchCapitals`: loading the dataset from a file is not modelled; the dataset is a parameter.
- server/player.go (the socket read loop, send mutex and close), the client programs and the stress test are not part of this model.
