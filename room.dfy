/**
 * A game room (server/game.go): a fixed roster filled by joins, a score table,
 * the round loop with its cooperative stop check, the question fan-out that
 * stops at the first failed send, the single-event answer wait, scoring, and the
 * leaderboard computed when the game finishes.
 *
 * Concurrency is replaced by sequence: the answer waits of one round run one after
 * the other in roster order (each changes only its own player's entry, so every
 * order gives the same table; the source's unsynchronised map writes, which Go
 * may abort on, are not captured); the StopGame channel is the flag `stopRequested`, consulted by the
 * round loop at each round boundary; the outcome of every read, send and timer
 * is a supplied value.
 */
module Room {
  import opened Wrappers
  import opened Protocol
  import opened Scoring

  /** QUESTION_TIMEOUT, 30 seconds, in milliseconds. */
  const QuestionTimeout: nat := 30000

  /** A player as the room sees it; its connection and channels are not modelled. */
  datatype Player = Player(id: string)

  /** What one answer wait sees first. */
  datatype AnswerEvent =
    | Received(frame: Frame, elapsed: nat)  // a decoded frame, `elapsed` ms after the wait started
    | ReadFailed                            // the player's read loop reported a transport error
    | TimerFired                            // the deadline passed first

  /** The error processAnswer returns. */
  datatype AnswerError = IdMismatch

  /**
   * The environment of one round: the generated question and its answer, and per
   * player in roster order whether the question send succeeds, what the wait sees
   * and whether the reply send succeeds.
   */
  datatype RoundInput = RoundInput(question: Question, rightAnswer: string,
                                   sendOk: seq<bool>, events: seq<AnswerEvent>, replyOk: seq<bool>)

  predicate WellFormed(input: RoundInput, players: nat)
  {
    |input.sendOk| == players && |input.events| == players && |input.replyOk| == players
  }

  /** The ids of a roster, in order. */
  function IdsOf(ps: seq<Player>): (r: seq<string>)
    ensures |r| == |ps| && forall i :: 0 <= i < |ps| ==> r[i] == ps[i].id
  {
    seq(|ps|, i requires 0 <= i < |ps| => ps[i].id)
  }

  // ---------------------------------------------------------------------------
  // Specification of one round

  /** How many answer waits the question fan-out registers: the players before the first failed send. */
  function Registered(sendOk: seq<bool>): (k: nat)
    ensures k <= |sendOk|
    ensures forall i :: 0 <= i < k ==> sendOk[i]
    ensures k < |sendOk| ==> !sendOk[k]
  {
    if |sendOk| == 0 || !sendOk[0] then 0 else 1 + Registered(sendOk[1..])
  }

  /** The score table after one answer wait of player `id`: only a correct answer to this question scores. */
  function ScoresAfterWait(scores: map<string, int>, id: string, ev: AnswerEvent,
                           q: Question, right: string, ttl: nat): map<string, int>
    requires ttl > 0
  {
    match ev
    case Received(f, elapsed) =>
      if f.answer.id == q.id && f.answer.capital == right then AddPoints(scores, id, RoundScore(elapsed, ttl))
      else scores
    case ReadFailed => scores
    case TimerFired => scores
  }

  /** Whether one answer wait signals StopGame: on a read error, or when its reply cannot be sent. */
  predicate WaitStops(ev: AnswerEvent, replyOk: bool)
  {
    ev.ReadFailed? || !replyOk
  }

  /** The score table after the first k waits of a round. */
  function ScoresAfterWaits(scores: map<string, int>, ids: seq<string>, events: seq<AnswerEvent>,
                            q: Question, right: string, ttl: nat, k: nat): map<string, int>
    requires ttl > 0 && k <= |ids| && k <= |events|
    decreases k
  {
    if k == 0 then scores
    else ScoresAfterWait(ScoresAfterWaits(scores, ids, events, q, right, ttl, k - 1),
                         ids[k - 1], events[k - 1], q, right, ttl)
  }

  /** The score table after a whole round: the registered waits have run. */
  function RoundScores(scores: map<string, int>, ids: seq<string>, input: RoundInput, ttl: nat): map<string, int>
    requires ttl > 0 && WellFormed(input, |ids|)
  {
    ScoresAfterWaits(scores, ids, input.events, input.question, input.rightAnswer, ttl, Registered(input.sendOk))
  }

  /** A round signals StopGame when a question send fails or a registered wait stops. */
  predicate RoundStops(input: RoundInput, n: nat)
    requires WellFormed(input, n)
  {
    var k := Registered(input.sendOk);
    k < |input.sendOk| || exists i :: 0 <= i < k && WaitStops(input.events[i], input.replyOk[i])
  }

  /** A wait changes at most its own player's entry. */
  lemma {:induction false} WaitsTouchOnlyTheirPlayers(scores: map<string, int>, ids: seq<string>, events: seq<AnswerEvent>,
                                                      q: Question, right: string, ttl: nat, k: nat, other: string)
    requires ttl > 0 && k <= |ids| && k <= |events|
    requires forall i :: 0 <= i < k ==> ids[i] != other
    ensures other in ScoresAfterWaits(scores, ids, events, q, right, ttl, k) <==> other in scores
    ensures other in scores ==> ScoresAfterWaits(scores, ids, events, q, right, ttl, k)[other] == scores[other]
  {
    if k > 0 {
      WaitsTouchOnlyTheirPlayers(scores, ids, events, q, right, ttl, k - 1, other);
    }
  }

  /** When every waiting player already has an entry, a round adds no entry. */
  lemma {:induction false} WaitsKeepKeys(scores: map<string, int>, ids: seq<string>, events: seq<AnswerEvent>,
                                         q: Question, right: string, ttl: nat, k: nat)
    requires ttl > 0 && k <= |ids| && k <= |events|
    requires forall i :: 0 <= i < k ==> ids[i] in scores
    ensures ScoresAfterWaits(scores, ids, events, q, right, ttl, k).Keys == scores.Keys
  {
    if k > 0 {
      WaitsKeepKeys(scores, ids, events, q, right, ttl, k - 1);
    }
  }

  /** Every answer event arrived no later than the deadline. */
  predicate InTime(events: seq<AnswerEvent>, ttl: nat)
  {
    forall i :: 0 <= i < |events| && events[i].Received? ==> events[i].elapsed <= ttl
  }

  /**
   * With in-time answers and distinct players, a round never lowers a score and
   * raises each by at most 100.
   */
  lemma {:induction false} WaitsBounded(scores: map<string, int>, ids: seq<string>, events: seq<AnswerEvent>,
                                        q: Question, right: string, ttl: nat, k: nat, p: string)
    requires ttl > 0 && k <= |ids| && k <= |events| && InTime(events, ttl)
    requires forall i, j :: 0 <= i < j < k ==> ids[i] != ids[j]
    requires p in scores
    ensures p in ScoresAfterWaits(scores, ids, events, q, right, ttl, k)
    ensures scores[p] <= ScoresAfterWaits(scores, ids, events, q, right, ttl, k)[p] <= scores[p] + 100
  {
    if k > 0 {
      var before := ScoresAfterWaits(scores, ids, events, q, right, ttl, k - 1);
      WaitsBounded(scores, ids, events, q, right, ttl, k - 1, p);
      if ids[k - 1] == p {
        WaitsTouchOnlyTheirPlayers(scores, ids, events, q, right, ttl, k - 1, p);
        if events[k - 1].Received? {
          RoundScoreInTime(events[k - 1].elapsed, ttl);
        }
      }
    }
  }

  // ---------------------------------------------------------------------------
  // Specification of the round loop

  /**
   * The number of rounds play runs from round i on, when a stop is already
   * pending or not: it stops at the first boundary that sees a stop, and after
   * `rounds` rounds.
   */
  function RoundsFrom(stop: bool, inputs: seq<RoundInput>, n: nat, i: nat, rounds: int): (r: nat)
    requires rounds <= |inputs| && forall j :: 0 <= j < |inputs| ==> WellFormed(inputs[j], n)
    decreases rounds - i
    ensures i <= r && (r == i || r <= rounds)
  {
    if rounds <= i || stop then i else RoundsFrom(RoundStops(inputs[i], n), inputs, n, i + 1, rounds)
  }

  /**
   * What the round count means: no round starts past `rounds` or once a stop is
   * pending; every round before the last one played ran without raising a stop;
   * and ending before `rounds` means the last round played raised one.
   */
  lemma {:induction false} RoundsFromMeaning(stop: bool, inputs: seq<RoundInput>, n: nat, i: nat, rounds: int)
    requires rounds <= |inputs| && forall j :: 0 <= j < |inputs| ==> WellFormed(inputs[j], n)
    decreases rounds - i
    ensures var r := RoundsFrom(stop, inputs, n, i, rounds);
      && (stop || rounds <= i ==> r == i)
      && (forall j :: i <= j < r - 1 ==> !RoundStops(inputs[j], n))
      && (r < rounds ==> (stop && r == i) || (i < r && RoundStops(inputs[r - 1], n)))
  {
    if i < rounds && !stop {
      RoundsFromMeaning(RoundStops(inputs[i], n), inputs, n, i + 1, rounds);
    }
  }

  /** The score table after the first n rounds. */
  function ScoresOverRounds(scores: map<string, int>, ids: seq<string>, inputs: seq<RoundInput>, n: nat, ttl: nat): map<string, int>
    requires ttl > 0 && n <= |inputs| && forall j :: 0 <= j < |inputs| ==> WellFormed(inputs[j], |ids|)
  {
    if n == 0 then scores else RoundScores(ScoresOverRounds(scores, ids, inputs, n - 1, ttl), ids, inputs[n - 1], ttl)
  }

  /** The score updates broadcast after each of the first n rounds. */
  function UpdatesOf(scores: map<string, int>, ids: seq<string>, inputs: seq<RoundInput>, n: nat, ttl: nat): seq<Message>
    requires ttl > 0 && n <= |inputs| && forall j :: 0 <= j < |inputs| ==> WellFormed(inputs[j], |ids|)
  {
    if n == 0 then []
    else UpdatesOf(scores, ids, inputs, n - 1, ttl) + [Message(ScoreUpdate, ScoreTable(ScoresOverRounds(scores, ids, inputs, n, ttl)))]
  }

  /** One update per round, the r-th carrying the table after round r. */
  lemma {:induction false} UpdatesCarryTables(scores: map<string, int>, ids: seq<string>, inputs: seq<RoundInput>, n: nat, ttl: nat)
    requires ttl > 0 && n <= |inputs| && forall j :: 0 <= j < |inputs| ==> WellFormed(inputs[j], |ids|)
    ensures |UpdatesOf(scores, ids, inputs, n, ttl)| == n
    ensures forall r :: 0 <= r < n ==>
      UpdatesOf(scores, ids, inputs, n, ttl)[r] == Message(ScoreUpdate, ScoreTable(ScoresOverRounds(scores, ids, inputs, r + 1, ttl)))
  {
    if n > 0 {
      UpdatesCarryTables(scores, ids, inputs, n - 1, ttl);
    }
  }

  /** Scores only grow over a game of in-time answers among distinct players, by at most 100 a round. */
  lemma {:induction false} ScoresGrowBoundedly(scores: map<string, int>, ids: seq<string>, inputs: seq<RoundInput>,
                                               n: nat, ttl: nat, p: string)
    requires ttl > 0 && n <= |inputs| && forall j :: 0 <= j < |inputs| ==> WellFormed(inputs[j], |ids|)
    requires forall j :: 0 <= j < |inputs| ==> InTime(inputs[j].events, ttl)
    requires forall i, j :: 0 <= i < j < |ids| ==> ids[i] != ids[j]
    requires p in scores
    ensures p in ScoresOverRounds(scores, ids, inputs, n, ttl)
    ensures scores[p] <= ScoresOverRounds(scores, ids, inputs, n, ttl)[p] <= scores[p] + 100 * n
  {
    if n > 0 {
      ScoresGrowBoundedly(scores, ids, inputs, n - 1, ttl, p);
      var before := ScoresOverRounds(scores, ids, inputs, n - 1, ttl);
      var input := inputs[n - 1];
      WaitsBounded(before, ids, input.events, input.question, input.rightAnswer, ttl, Registered(input.sendOk), p);
    }
  }

  // ---------------------------------------------------------------------------
  // The leaderboard

  /** A leaderboard entry. */
  datatype Entry = Entry(player: string, score: int)

  /** Ascending by score, as the sort.Slice comparator orders it. */
  predicate Ascending(s: seq<Entry>)
  {
    forall i, j :: 0 <= i < j < |s| ==> s[i].score <= s[j].score
  }

  /** The entries of a score table. */
  function EntrySet(m: map<string, int>): set<Entry>
  {
    set k | k in m :: Entry(k, m[k])
  }

  /** The list holds every entry of the table exactly once, in some order. */
  predicate ListsEntriesOf(s: seq<Entry>, m: map<string, int>)
  {
    multiset(s) == multiset(EntrySet(m))
  }

  /** Removing a key removes exactly its entry. */
  lemma EntrySetRemove(m: map<string, int>, k: string)
    requires k in m
    ensures EntrySet(m) == EntrySet(m - {k}) + {Entry(k, m[k])}
    ensures Entry(k, m[k]) !in EntrySet(m - {k})
  {
    forall x | x in EntrySet(m) ensures x in EntrySet(m - {k}) + {Entry(k, m[k])} {
      var j :| j in m && x == Entry(j, m[j]);
      if j != k {
        assert x == Entry(j, (m - {k})[j]);
      }
    }
  }

  /** The players of a table's entries are its keys. */
  lemma EntryPlayersAreKeys(m: map<string, int>)
    ensures m.Keys == set e | e in EntrySet(m) :: e.player
  {
    forall k | k in m ensures k in set e | e in EntrySet(m) :: e.player {
      assert Entry(k, m[k]) in EntrySet(m);
    }
  }

  /** Only the empty table has the empty listing. */
  lemma EmptyListing(m: map<string, int>)
    requires ListsEntriesOf([], m)
    ensures m == map[]
  {
    assert |EntrySet(m)| == |multiset(EntrySet(m))| == 0;
    EntryPlayersAreKeys(m);
  }

  /** Every entry scores at least v. */
  predicate AllAtLeast(v: int, s: seq<Entry>)
  {
    forall i :: 0 <= i < |s| ==> v <= s[i].score
  }

  /** An entry not above an ascending list's scores can go in front of it. */
  lemma PrependAscending(x: Entry, s: seq<Entry>)
    requires Ascending(s) && AllAtLeast(x.score, s)
    ensures Ascending([x] + s)
  {
  }

  /** A lower bound carries over to a list with the same entries plus one above the bound. */
  lemma AtLeastByMultiset(v: int, t: seq<Entry>, u: seq<Entry>, e: Entry)
    requires AllAtLeast(v, u) && v <= e.score && multiset(t) == multiset(u) + multiset{e}
    ensures AllAtLeast(v, t)
  {
    forall i | 0 <= i < |t| ensures v <= t[i].score {
      assert t[i] in multiset(t);
      if t[i] != e {
        assert t[i] in multiset(u);
        var j :| 0 <= j < |u| && u[j] == t[i];
      }
    }
  }

  /** Insert into an ascending list after the entries with a lower score. */
  function Insert(e: Entry, s: seq<Entry>): (r: seq<Entry>)
    requires Ascending(s)
    ensures Ascending(r) && multiset(r) == multiset(s) + multiset{e}
  {
    if s == [] || e.score <= s[0].score then
      PrependAscending(e, s);
      [e] + s
    else
      var t := Insert(e, s[1..]);
      assert multiset(s) == multiset{s[0]} + multiset(s[1..]) by {
        assert s == [s[0]] + s[1..];
      }
      AtLeastByMultiset(s[0].score, t, s[1..], e);
      PrependAscending(s[0], t);
      assert multiset([s[0]] + t) == multiset{s[0]} + multiset(t);
      [s[0]] + t
  }

  /** The sort the source delegates to sort.Slice: ascending by score, a permutation of its input. */
  function SortByScore(s: seq<Entry>): (r: seq<Entry>)
    ensures Ascending(r) && multiset(r) == multiset(s)
  {
    if s == [] then []
    else
      assert s == [s[0]] + s[1..];
      Insert(s[0], SortByScore(s[1..]))
  }

  /** The map a list of entries rebuilds, later entries overwriting earlier ones. */
  function ToMap(s: seq<Entry>): map<string, int>
  {
    if s == [] then map[] else ToMap(s[..|s| - 1])[s[|s| - 1].player := s[|s| - 1].score]
  }

  /** Rebuilding a table from any listing of its entries gives the table back: the order is lost. */
  lemma {:induction false} RebuildGivesTableBack(s: seq<Entry>, m: map<string, int>)
    requires ListsEntriesOf(s, m)
    ensures ToMap(s) == m
  {
    if s == [] {
      EmptyListing(m);
    } else {
      var last, init := s[|s| - 1], s[..|s| - 1];
      var k := last.player;
      LastEntryListed(s, m);
      EntrySetRemove(m, k);
      ListingWithoutLast(s, m - {k}, last);
      RebuildGivesTableBack(init, m - {k});
      assert ToMap(s) == (m - {k})[k := m[k]];
    }
  }

  /** The last entry of a listing is the table's entry for its player. */
  lemma LastEntryListed(s: seq<Entry>, m: map<string, int>)
    requires s != [] && ListsEntriesOf(s, m)
    ensures s[|s| - 1].player in m && s[|s| - 1] == Entry(s[|s| - 1].player, m[s[|s| - 1].player])
  {
    var last := s[|s| - 1];
    assert last in multiset(s);
    assert last in EntrySet(m);
  }

  /** Dropping the last entry of a listing lists the table without that entry. */
  lemma ListingWithoutLast(s: seq<Entry>, rest: map<string, int>, last: Entry)
    requires s != [] && last == s[|s| - 1]
    requires multiset(s) == multiset(EntrySet(rest) + {last}) && last !in EntrySet(rest)
    ensures ListsEntriesOf(s[..|s| - 1], rest)
  {
    assert s == s[..|s| - 1] + [last];
    assert multiset(s) == multiset(s[..|s| - 1]) + multiset{last};
    assert multiset(EntrySet(rest) + {last}) == multiset(EntrySet(rest)) + multiset{last};
    assert multiset(s[..|s| - 1]) == multiset(s) - multiset{last};
    assert multiset(EntrySet(rest)) == multiset(EntrySet(rest) + {last}) - multiset{last};
  }

  /** The range loop over a score table: one entry per key, in an unspecified order. */
  method ListEntries(m: map<string, int>) returns (s: seq<Entry>)
    ensures ListsEntriesOf(s, m)
  {
    s := [];
    var rest := m.Keys;
    while rest != {}
      invariant rest <= m.Keys
      invariant multiset(s) == multiset(EntrySet(m - rest))
      decreases rest
    {
      var k :| k in rest;
      assert (m - (rest - {k})) - {k} == m - rest;
      EntrySetRemove(m - (rest - {k}), k);
      s := s + [Entry(k, m[k])];
      rest := rest - {k};
    }
    assert m - rest == m;
  }

  /** The loop that stores each listed entry back into a fresh table. */
  method Rebuild(s: seq<Entry>) returns (m: map<string, int>)
    ensures m == ToMap(s)
  {
    m := map[];
    var i := 0;
    while i < |s|
      invariant i <= |s| && m == ToMap(s[..i])
    {
      assert s[..i + 1][..i] == s[..i];
      m := m[s[i].player := s[i].score];
      i := i + 1;
    }
    assert s[..i] == s;
  }

  // ---------------------------------------------------------------------------
  // The room

  class Game {
    const id: int
    const players: array<Player>
    const numberOfPlayers: nat
    const numberOfRounds: int
    var onlinePlayers: nat
    var scores: map<string, int>
    /** The counter of JoinSemaphore: joins still awaited. */
    var joinPending: int
    /** A stop signal is waiting on the StopGame channel. */
    var stopRequested: bool
    /** How often finishGame has run. */
    ghost var finishCount: nat

    /** The ids of the players that have joined. */
    ghost function JoinedIds(): set<string>
      reads this`onlinePlayers, players
    {
      set i | 0 <= i < onlinePlayers && i < players.Length :: players[i].id
    }

    /** The roster has its fixed size, the fill counter stays within it, and exactly the joined players have scores. */
    ghost predicate Valid()
      reads this, players
    {
      && players.Length == numberOfPlayers
      && onlinePlayers <= numberOfPlayers
      && scores.Keys == JoinedIds()
    }

    /** The roster is complete: play may start. */
    predicate Full()
      reads this
    {
      onlinePlayers == numberOfPlayers
    }

    /** Game.New: an empty roster of the given size, no scores, the join barrier set to the roster size. */
    constructor New(numOfPlayers: nat, numOfRounds: int, gameID: int)
      ensures Valid() && fresh(players)
      ensures id == gameID && numberOfPlayers == numOfPlayers && numberOfRounds == numOfRounds
      ensures onlinePlayers == 0 && scores == map[] && joinPending == numOfPlayers
      ensures !stopRequested && finishCount == 0
      ensures forall i :: 0 <= i < players.Length ==> players[i] == Player("")
    {
      id := gameID;
      players := new Player[numOfPlayers](_ => Player(""));
      numberOfPlayers := numOfPlayers;
      numberOfRounds := numOfRounds;
      onlinePlayers := 0;
      scores := map[];
      joinPending := numOfPlayers;
      stopRequested := false;
      finishCount := 0;
    }

    /**
     * addPlayer: while seats are free, seat the player in the next slot and seed
     * its score at 0; on a full roster change nothing.
     */
    method AddPlayer(player: Player)
      requires Valid()
      modifies this`onlinePlayers, this`scores, players
      ensures Valid()
      ensures old(onlinePlayers) < numberOfPlayers ==>
        && players[old(onlinePlayers)] == player
        && scores == old(scores)[player.id := 0]
        && onlinePlayers == old(onlinePlayers) + 1
      ensures old(onlinePlayers) == numberOfPlayers ==> unchanged(this, players)
      ensures forall i :: 0 <= i < players.Length && i != old(onlinePlayers) ==> players[i] == old(players[i])
    {
      if onlinePlayers < numberOfPlayers {
        ghost var before := JoinedIds();
        players[onlinePlayers] := player;
        scores := scores[player.id := 0];
        onlinePlayers := onlinePlayers + 1;
        assert JoinedIds() == before + {player.id} by {
          forall x | x in JoinedIds() ensures x in before + {player.id} {
            var i :| 0 <= i < onlinePlayers && i < players.Length && players[i].id == x;
            if i < onlinePlayers - 1 {
              assert x in before by {
                assert old(players[i]) == players[i];
              }
            }
          }
          forall x | x in before + {player.id} ensures x in JoinedIds() {
            if x != player.id {
              var i :| 0 <= i < old(onlinePlayers) && i < players.Length && old(players[i]).id == x;
              assert players[i] == old(players[i]);
            } else {
              assert players[onlinePlayers - 1].id == x;
            }
          }
        }
      }
    }

    /** JoinSemaphore.Done: release one join; on a released barrier Done panics, reported here as failure with the counter kept at zero. */
    method JoinDone() returns (ok: bool)
      modifies this`joinPending
      ensures ok == (old(joinPending) > 0)
      ensures joinPending == if ok then old(joinPending) - 1 else old(joinPending)
    {
      ok := joinPending > 0;
      if ok {
        joinPending := joinPending - 1;
      }
    }

    /**
     * processAnswer: an answer to another question is an error and scores nothing;
     * a correct capital adds the time-weighted points to this player's entry; a
     * wrong one adds nothing. The reply is the status for the player.
     */
    method ProcessAnswer(frame: Frame, q: Question, right: string, player: Player, elapsed: nat, ttl: nat)
      returns (reply: Result<Message, AnswerError>)
      requires ttl > 0
      modifies this`scores
      ensures frame.answer.id != q.id ==> reply == Failure(IdMismatch) && scores == old(scores)
      ensures frame.answer.id == q.id && frame.answer.capital == right ==>
        && reply == Success(Message(StatusTag, StatusBody(true, RoundScore(elapsed, ttl))))
        && scores == AddPoints(old(scores), player.id, RoundScore(elapsed, ttl))
      ensures frame.answer.id == q.id && frame.answer.capital != right ==>
        reply == Success(Message(StatusTag, StatusBody(false, 0))) && scores == old(scores)
      ensures scores == ScoresAfterWait(old(scores), player.id, Received(frame, elapsed), q, right, ttl)
    {
      var answer := frame.answer;
      if answer.id != q.id {
        return Failure(IdMismatch);
      }
      if answer.capital == right {
        var score := RoundScore(elapsed, ttl);
        scores := AddPoints(scores, player.id, score);
        reply := Success(Message(StatusTag, StatusBody(true, score)));
      } else {
        reply := Success(Message(StatusTag, StatusBody(false, 0)));
      }
    }

    /**
     * waitForAnswers: consume exactly one event. A read error signals StopGame and
     * sends nothing; a frame is processed once (whatever its id) and its reply,
     * the empty message for a mismatched id, is sent; a timeout sends the timeout
     * notice. A failed send signals StopGame.
     */
    method WaitForAnswers(player: Player, q: Question, right: string, ttl: nat, ev: AnswerEvent, replyOk: bool)
      returns (sent: Option<Message>)
      requires ttl > 0
      modifies this`scores, this`stopRequested
      ensures scores == ScoresAfterWait(old(scores), player.id, ev, q, right, ttl)
      ensures stopRequested == (old(stopRequested) || WaitStops(ev, replyOk))
      ensures ev.ReadFailed? ==> sent == None
      ensures ev.TimerFired? ==> sent == Some(Message(Timeout, Notice))
      ensures ev.Received? && ev.frame.answer.id != q.id ==> sent == Some(Message("", Empty))
      ensures ev.Received? && ev.frame.answer.id == q.id ==>
        sent == Some(Message(StatusTag, StatusBody(ev.frame.answer.capital == right,
                             if ev.frame.answer.capital == right then RoundScore(ev.elapsed, ttl) else 0)))
    {
      match ev
      case ReadFailed =>
        stopRequested := true;
        sent := None;
      case Received(frame, elapsed) =>
        var reply := ProcessAnswer(frame, q, right, player, elapsed, ttl);
        var m := if reply.Success? then reply.value else Message("", Empty);
        if !replyOk {
          stopRequested := true;
        }
        sent := Some(m);
      case TimerFired =>
        if !replyOk {
          stopRequested := true;
        }
        sent := Some(Message(Timeout, Notice));
    }

    /**
     * sendQuestionToAllPlayers: send to each player in roster order and register
     * one answer wait per successful send; the first failed send signals StopGame
     * and ends the fan-out, so later players get neither the question nor a wait.
     */
    method SendQuestionToAllPlayers(sendOk: seq<bool>) returns (registered: nat, questioned: nat)
      requires |sendOk| == players.Length
      modifies this`stopRequested
      ensures registered <= players.Length
      ensures forall i :: 0 <= i < registered ==> sendOk[i]
      ensures registered < players.Length ==> !sendOk[registered]
      ensures questioned == if registered < players.Length then registered + 1 else registered
      ensures stopRequested == (old(stopRequested) || registered < players.Length)
    {
      registered, questioned := 0, 0;
      while registered < players.Length
        invariant registered <= players.Length && questioned == registered
        invariant forall i :: 0 <= i < registered ==> sendOk[i]
        invariant stopRequested == old(stopRequested)
      {
        questioned := questioned + 1;
        if !sendOk[registered] {
          stopRequested := true;
          return;
        }
        registered := registered + 1;
      }
    }

    /** playQuestion: the fan-out, then every registered wait runs to completion. */
    method PlayQuestion(input: RoundInput, ttl: nat)
      requires Valid() && Full() && WellFormed(input, numberOfPlayers) && ttl > 0
      modifies this`scores, this`stopRequested
      ensures Valid()
      ensures scores == RoundScores(old(scores), IdsOf(players[..]), input, ttl)
      ensures stopRequested == (old(stopRequested) || RoundStops(input, numberOfPlayers))
    {
      ghost var ids := IdsOf(players[..]);
      var k, _ := SendQuestionToAllPlayers(input.sendOk);
      assert k == Registered(input.sendOk);
      forall i | 0 <= i < players.Length ensures ids[i] in scores {
        assert players[i].id in JoinedIds();
      }
      WaitsKeepKeys(scores, ids, input.events, input.question, input.rightAnswer, ttl, k);
      AwaitRegistered(input, k, ttl);
    }

    /** The registered answer waits of one round, one after the other in roster order. */
    method AwaitRegistered(input: RoundInput, k: nat, ttl: nat)
      requires WellFormed(input, players.Length) && k <= players.Length && ttl > 0
      modifies this`scores, this`stopRequested
      ensures scores == ScoresAfterWaits(old(scores), IdsOf(players[..]), input.events, input.question, input.rightAnswer, ttl, k)
      ensures stopRequested == (old(stopRequested) || exists j :: 0 <= j < k && WaitStops(input.events[j], input.replyOk[j]))
    {
      ghost var ids := IdsOf(players[..]);
      var i := 0;
      while i < k
        invariant i <= k
        invariant scores == ScoresAfterWaits(old(scores), ids, input.events, input.question, input.rightAnswer, ttl, i)
        invariant stopRequested == (old(stopRequested) || exists j :: 0 <= j < i && WaitStops(input.events[j], input.replyOk[j]))
      {
        var _ := WaitForAnswers(players[i], input.question, input.rightAnswer, ttl, input.events[i], input.replyOk[i]);
        i := i + 1;
      }
    }

    /**
     * calculateLeaderbaord: list the table's entries, sort the list ascending by
     * score, and rebuild the table from the list. The rebuilt table equals the old
     * one; the sorted list is returned.
     */
    method CalculateLeaderboard() returns (leaderboard: seq<Entry>)
      modifies this`scores
      ensures scores == old(scores)
      ensures Ascending(leaderboard) && ListsEntriesOf(leaderboard, old(scores))
    {
      var listed := ListEntries(scores);
      leaderboard := SortByScore(listed);
      var sorted := Rebuild(leaderboard);
      RebuildGivesTableBack(leaderboard, scores);
      scores := sorted;
    }

    /**
     * finishGame: compute the leaderboard, broadcast the game-over message carrying
     * the score table, and hand the game id to the registry for reaping.
     */
    method FinishGame() returns (gameOver: Message, leaderboard: seq<Entry>, unregister: int)
      requires Valid()
      modifies this`scores, this`finishCount
      ensures Valid() && scores == old(scores) && finishCount == old(finishCount) + 1
      ensures Ascending(leaderboard) && ListsEntriesOf(leaderboard, scores)
      ensures gameOver == Message(GameOver, ScoreTable(scores)) && unregister == id
    {
      leaderboard := CalculateLeaderboard();
      gameOver := Message(GameOver, ScoreTable(scores));
      finishCount := finishCount + 1;
      unregister := id;
    }

    /**
     * play: up to numberOfRounds rounds, each started only when no stop signal is
     * pending at its boundary and followed by a broadcast of the score table;
     * finishGame runs once when the loop ends, whichever way it ends.
     */
    method Play(inputs: seq<RoundInput>) returns (played: nat, updates: seq<Message>, gameOver: Message, unregister: int)
      requires Valid() && Full()
      requires numberOfRounds <= |inputs| && forall j :: 0 <= j < |inputs| ==> WellFormed(inputs[j], numberOfPlayers)
      modifies this`scores, this`stopRequested, this`finishCount
      ensures Valid()
      ensures played == RoundsFrom(old(stopRequested), inputs, numberOfPlayers, 0, numberOfRounds)
      ensures scores == ScoresOverRounds(old(scores), IdsOf(players[..]), inputs, played, QuestionTimeout)
      ensures |updates| == played
      ensures forall r :: 0 <= r < played ==>
        updates[r] == Message(ScoreUpdate, ScoreTable(ScoresOverRounds(old(scores), IdsOf(players[..]), inputs, r + 1, QuestionTimeout)))
      ensures finishCount == old(finishCount) + 1
      ensures gameOver == Message(GameOver, ScoreTable(scores)) && unregister == id
    {
      played, updates := PlayRounds(inputs);
      UpdatesCarryTables(old(scores), IdsOf(players[..]), inputs, played, QuestionTimeout);
      var leaderboard;
      gameOver, leaderboard, unregister := FinishGame();
    }

    /** The round loop of play, without the final finishGame. */
    method PlayRounds(inputs: seq<RoundInput>) returns (played: nat, updates: seq<Message>)
      requires Valid() && Full()
      requires numberOfRounds <= |inputs| && forall j :: 0 <= j < |inputs| ==> WellFormed(inputs[j], numberOfPlayers)
      modifies this`scores, this`stopRequested
      ensures Valid()
      ensures played == RoundsFrom(old(stopRequested), inputs, numberOfPlayers, 0, numberOfRounds)
      ensures scores == ScoresOverRounds(old(scores), IdsOf(players[..]), inputs, played, QuestionTimeout)
      ensures updates == UpdatesOf(old(scores), IdsOf(players[..]), inputs, played, QuestionTimeout)
    {
      ghost var ids := IdsOf(players[..]);
      assert forall j :: 0 <= j < |inputs| ==> WellFormed(inputs[j], |ids|);
      played, updates := 0, [];
      while played < numberOfRounds
        invariant played <= |inputs| && Valid() && Full() && |ids| == numberOfPlayers
        invariant RoundsFrom(old(stopRequested), inputs, numberOfPlayers, 0, numberOfRounds) == RoundsFrom(stopRequested, inputs, numberOfPlayers, played, numberOfRounds)
        invariant scores == ScoresOverRounds(old(scores), ids, inputs, played, QuestionTimeout)
        invariant updates == UpdatesOf(old(scores), ids, inputs, played, QuestionTimeout)
        decreases numberOfRounds - played
      {
        if stopRequested {
          break;
        }
        PlayQuestion(inputs[played], QuestionTimeout);
        updates := updates + [Message(ScoreUpdate, ScoreTable(scores))];
        played := played + 1;
      }
    }
  }
}
