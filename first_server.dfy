/**
 * The first, two-player version of the server (server.go): question generation
 * over Capital records, the answer wait that ignores answers to other questions,
 * the fixed-length round loop with its winner decision, and the pairing of two
 * players in the hub.
 *
 * Every send in this version panics on error; sends are modelled as succeeding.
 */
module FirstServer {
  import opened Wrappers
  import opened Protocol
  import opened Scoring
  import Questions

  /** The answer deadline of this version: 10 seconds, in milliseconds. */
  const AnswerTimeout: nat := 10000

  /** A country with its capital city, as this version's data file lists it. */
  datatype Capital = Capital(country: string, city: string)

  /** The capital records in the generator's terms. */
  function AsCountries(capitals: seq<Capital>): (r: seq<Country>)
    ensures |r| == |capitals|
    ensures forall i :: 0 <= i < |capitals| ==> r[i] == Country(capitals[i].country, capitals[i].city)
  {
    seq(|capitals|, i requires 0 <= i < |capitals| => Country(capitals[i].country, capitals[i].city))
  }

  /**
   * generateQuestion of this version: the same selection as the room server's,
   * over the Capital records; the question asks for the country's city.
   */
  method GenerateQuestion(capitals: seq<Capital>, n: nat, draws: seq<nat>, id: string)
    returns (r: Option<Questions.Generated>)
    requires 0 < n && 0 < |capitals|
    ensures |capitals| < n ==> r.None?
    ensures r.None? <==> Questions.Pick(draws, |capitals|, n).None? || Questions.Pick(draws, |capitals|, n).value.1 == |draws|
    ensures r.Some? ==>
      var (chosen, pos) := Questions.Pick(draws, |capitals|, n).value;
      var k := Questions.Intn(draws[pos], n);
      && Questions.DrawnFrom(AsCountries(capitals), chosen, r.value)
      && r.value.question.id == id
      && r.value.question.country == capitals[chosen[k]].country
      && r.value.answer == capitals[chosen[k]].city
      && r.value.answer in r.value.question.options
  {
    r := Questions.GenerateQuestion(AsCountries(capitals), n, draws, id);
  }

  // ---------------------------------------------------------------------------
  // The winner

  /** How a game ends. */
  datatype EndResult = P1Won | P2Won | Tie

  /** The end-of-game decision: the higher score wins, equal scores tie. */
  function Winner(s1: int, s2: int): (r: EndResult)
    ensures r == P1Won <==> s1 > s2
    ensures r == P2Won <==> s1 < s2
    ensures r == Tie <==> s1 == s2
  {
    if s1 > s2 then P1Won else if s1 < s2 then P2Won else Tie
  }

  /** The same result told from the other player's side. */
  function Mirror(e: EndResult): EndResult
  {
    match e
    case P1Won => P2Won
    case P2Won => P1Won
    case Tie => Tie
  }

  /** The decision treats both players alike: swapping the scores swaps the winner. */
  lemma WinnerIsSymmetric(s1: int, s2: int)
    ensures Winner(s2, s1) == Mirror(Winner(s1, s2))
  {
  }

  // ---------------------------------------------------------------------------
  // The answer wait

  /** What a player's read channel delivers to this version's wait, or the timer. */
  datatype FirstEvent =
    | Inbound(frame: Frame, elapsed: nat)  // a frame read `elapsed` ms after the wait started
    | Expired                              // the deadline passed

  /** An event that ends the wait: the timer, or an answer to this question. */
  predicate Decides(ev: FirstEvent, qid: string)
  {
    ev.Expired? || ev.frame.answer.id == qid
  }

  /** The position of the event that ends the wait, from position `from` on. */
  function FirstDecisive(events: seq<FirstEvent>, qid: string, from: nat): (r: Option<nat>)
    requires from <= |events|
    decreases |events| - from
    ensures r.Some? ==> from <= r.value < |events| && Decides(events[r.value], qid)
  {
    if from == |events| then None
    else if Decides(events[from], qid) then Some(from)
    else FirstDecisive(events, qid, from + 1)
  }

  /** Every event before the deciding one is a stale answer, and without one no event decides. */
  lemma {:induction false} FirstDecisiveSkipsStale(events: seq<FirstEvent>, qid: string, from: nat)
    requires from <= |events|
    decreases |events| - from
    ensures FirstDecisive(events, qid, from).Some? ==>
      forall j :: from <= j < FirstDecisive(events, qid, from).value ==> events[j].Inbound? && events[j].frame.answer.id != qid
    ensures FirstDecisive(events, qid, from).None? ==>
      forall j :: from <= j < |events| ==> events[j].Inbound? && events[j].frame.answer.id != qid
  {
    if from < |events| && !Decides(events[from], qid) {
      FirstDecisiveSkipsStale(events, qid, from + 1);
    }
  }

  /** The acknowledgement the deciding event gets: timeout notice, or the verdict with the points. */
  function ReplyFor(ev: FirstEvent, right: string, ttl: nat): (m: Message)
    requires ttl > 0
    ensures ev.Expired? ==> m.tag == Timeout
    ensures ev.Inbound? ==> m.tag == Acknowledged && m.content.StatusBody? && (m.content.result <==> ev.frame.answer.capital == right)
  {
    match ev
    case Expired => Message(Timeout, Notice)
    case Inbound(f, elapsed) =>
      if f.answer.capital == right then Message(Acknowledged, StatusBody(true, RoundScore(elapsed, ttl)))
      else Message(Acknowledged, StatusBody(false, 0))
  }

  /** The score table after a player's wait: only a correct answer scores. */
  function WaitEffect(scores: map<string, int>, player: string, events: seq<FirstEvent>,
                      qid: string, right: string, ttl: nat): map<string, int>
    requires ttl > 0
  {
    match FirstDecisive(events, qid, 0)
    case None => scores
    case Some(i) =>
      if events[i].Inbound? && events[i].frame.answer.capital == right
      then AddPoints(scores, player, RoundScore(events[i].elapsed, ttl))
      else scores
  }

  /** One round of this version: the question and, per player, what its read channel and timer deliver. */
  datatype FirstRound = FirstRound(question: Question, rightAnswer: string,
                                   events1: seq<FirstEvent>, events2: seq<FirstEvent>)

  /** Both waits of the round end, so the round's barrier releases. */
  predicate Completes(r: FirstRound)
  {
    FirstDecisive(r.events1, r.question.id, 0).Some? && FirstDecisive(r.events2, r.question.id, 0).Some?
  }

  /** The score table after a round: each wait that ends applies its effect. */
  function RoundEffect(scores: map<string, int>, p1: string, p2: string, r: FirstRound, ttl: nat): map<string, int>
    requires ttl > 0
  {
    WaitEffect(WaitEffect(scores, p1, r.events1, r.question.id, r.rightAnswer, ttl),
               p2, r.events2, r.question.id, r.rightAnswer, ttl)
  }

  /** The score table after the first n rounds. */
  function ScoresOver(scores: map<string, int>, p1: string, p2: string, rounds: seq<FirstRound>, n: nat, ttl: nat): map<string, int>
    requires ttl > 0 && n <= |rounds|
  {
    if n == 0 then scores else RoundEffect(ScoresOver(scores, p1, p2, rounds, n - 1, ttl), p1, p2, rounds[n - 1], ttl)
  }

  /** How many rounds complete before the first that stalls, counting at most `limit`. */
  function Completed(rounds: seq<FirstRound>, i: nat, limit: nat): (c: nat)
    requires i <= limit <= |rounds|
    decreases limit - i
    ensures i <= c <= limit
  {
    if limit <= i then i
    else if Completes(rounds[i]) then Completed(rounds, i + 1, limit)
    else i
  }

  /** The counted rounds all complete, and the count stops short of the limit only at a round that does not. */
  lemma {:induction false} CompletedMeaning(rounds: seq<FirstRound>, i: nat, limit: nat)
    requires i <= limit <= |rounds|
    decreases limit - i
    ensures forall j :: i <= j < Completed(rounds, i, limit) ==> Completes(rounds[j])
    ensures Completed(rounds, i, limit) < limit ==> !Completes(rounds[Completed(rounds, i, limit)])
  {
    if i < limit && Completes(rounds[i]) {
      CompletedMeaning(rounds, i + 1, limit);
    }
  }

  /** The timer ends the wait: events that include it always hold a deciding one. */
  lemma {:induction false} TimerEndsWait(events: seq<FirstEvent>, qid: string, from: nat)
    requires from <= |events|
    requires exists j :: from <= j < |events| && events[j].Expired?
    decreases |events| - from
    ensures FirstDecisive(events, qid, from).Some?
  {
    if !events[from].Expired? && events[from].frame.answer.id != qid {
      var j :| from <= j < |events| && events[j].Expired?;
      assert j != from;
      TimerEndsWait(events, qid, from + 1);
    }
  }

  /** When both waits of every round see the timer, all rounds up to the limit complete. */
  lemma TimedRoundsComplete(rounds: seq<FirstRound>, limit: nat)
    requires limit <= |rounds|
    requires forall j :: 0 <= j < limit ==>
      (exists k :: 0 <= k < |rounds[j].events1| && rounds[j].events1[k].Expired?) &&
      (exists k :: 0 <= k < |rounds[j].events2| && rounds[j].events2[k].Expired?)
    ensures Completed(rounds, 0, limit) == limit
  {
    CompletedMeaning(rounds, 0, limit);
    var c := Completed(rounds, 0, limit);
    if c < limit {
      TimerEndsWait(rounds[c].events1, rounds[c].question.id, 0);
      TimerEndsWait(rounds[c].events2, rounds[c].question.id, 0);
    }
  }

  /** A wait changes at most its own player's entry, by at most 100 for an in-time answer. */
  lemma WaitEffectBounded(scores: map<string, int>, player: string, events: seq<FirstEvent>,
                          qid: string, right: string, ttl: nat, p: string)
    requires ttl > 0 && p in scores
    requires forall j :: 0 <= j < |events| && events[j].Inbound? ==> events[j].elapsed <= ttl
    ensures p in WaitEffect(scores, player, events, qid, right, ttl)
    ensures p != player ==> WaitEffect(scores, player, events, qid, right, ttl)[p] == scores[p]
    ensures scores[p] <= WaitEffect(scores, player, events, qid, right, ttl)[p] <= scores[p] + 100
  {
    var d := FirstDecisive(events, qid, 0);
    if d.Some? && events[d.value].Inbound? {
      RoundScoreInTime(events[d.value].elapsed, ttl);
    }
  }

  /** The events of a round all arrive no later than the deadline. */
  predicate InTime(r: FirstRound, ttl: nat)
  {
    && (forall j :: 0 <= j < |r.events1| && r.events1[j].Inbound? ==> r.events1[j].elapsed <= ttl)
    && (forall j :: 0 <= j < |r.events2| && r.events2[j].Inbound? ==> r.events2[j].elapsed <= ttl)
  }

  /** Between two distinct players, each gains between 0 and 100 points a round when answers come in time. */
  lemma {:induction false} ScoresOverBounded(scores: map<string, int>, p1: string, p2: string,
                                             rounds: seq<FirstRound>, n: nat, ttl: nat, p: string)
    requires ttl > 0 && n <= |rounds| && p1 != p2 && p in scores
    requires forall i :: 0 <= i < |rounds| ==> InTime(rounds[i], ttl)
    ensures p in ScoresOver(scores, p1, p2, rounds, n, ttl)
    ensures scores[p] <= ScoresOver(scores, p1, p2, rounds, n, ttl)[p] <= scores[p] + 100 * n
  {
    if n > 0 {
      ScoresOverBounded(scores, p1, p2, rounds, n - 1, ttl, p);
      var before := ScoresOver(scores, p1, p2, rounds, n - 1, ttl);
      var r := rounds[n - 1];
      var mid := WaitEffect(before, p1, r.events1, r.question.id, r.rightAnswer, ttl);
      WaitEffectBounded(before, p1, r.events1, r.question.id, r.rightAnswer, ttl, p);
      WaitEffectBounded(mid, p2, r.events2, r.question.id, r.rightAnswer, ttl, p);
    }
  }

  // ---------------------------------------------------------------------------
  // The game

  class FirstGame {
    const p1: string
    const p2: string
    var scores: map<string, int>

    /** The game waitForOpponent creates: both players seeded at 0. */
    constructor (p1: string, p2: string)
      ensures this.p1 == p1 && this.p2 == p2 && scores == map[p1 := 0, p2 := 0]
    {
      this.p1 := p1;
      this.p2 := p2;
      scores := map[p1 := 0, p2 := 0];
    }

    /**
     * waitForAnswers of this version: answers to another question are skipped and
     * the wait goes on; the first answer to this question, or the timer, ends it
     * with an acknowledgement. In the source the timer always fires within the
     * deadline (TimerEndsWait); a supplied sequence that holds neither stands for
     * a wait that has not ended yet.
     */
    method WaitForAnswers(player: string, q: Question, right: string, ttl: nat, events: seq<FirstEvent>)
      returns (reply: Option<Message>)
      requires ttl > 0
      modifies this`scores
      ensures scores == WaitEffect(old(scores), player, events, q.id, right, ttl)
      ensures reply.Some? <==> FirstDecisive(events, q.id, 0).Some?
      ensures reply.Some? ==> reply.value == ReplyFor(events[FirstDecisive(events, q.id, 0).value], right, ttl)
    {
      var i := 0;
      while i < |events|
        invariant i <= |events| && scores == old(scores)
        invariant FirstDecisive(events, q.id, 0) == FirstDecisive(events, q.id, i)
        decreases |events| - i
      {
        match events[i]
        case Expired =>
          return Some(Message(Timeout, Notice));
        case Inbound(frame, elapsed) =>
          if frame.answer.id != q.id {
            i := i + 1;
            continue;
          }
          if frame.answer.capital == right {
            var score := RoundScore(elapsed, ttl);
            scores := AddPoints(scores, player, score);
            return Some(Message(Acknowledged, StatusBody(true, score)));
          }
          return Some(Message(Acknowledged, StatusBody(false, 0)));
      }
      reply := None;
    }

    /**
     * play: `rounds` rounds of a question and two answer waits each, then the
     * winner decision on the two scores. A round whose supplied events hold no
     * deciding event has not ended yet, and no decision is reached; every round
     * that carries the timer completes (TimedRoundsComplete).
     */
    method Play(rounds: int, inputs: seq<FirstRound>) returns (waits: nat, result: Option<EndResult>)
      requires rounds <= |inputs|
      modifies this`scores
      ensures var n := if rounds < 0 then 0 else rounds;
        var c := Completed(inputs, 0, n);
        && (result.Some? <==> c == n)
        && waits == 2 * (if c < n then c + 1 else c)
        && scores == ScoresOver(old(scores), p1, p2, inputs, if c < n then c + 1 else c, AnswerTimeout)
        && (result.Some? ==> result.value == Winner(GetOrZero(scores, p1), GetOrZero(scores, p2)))
    {
      ghost var n := if rounds < 0 then 0 else rounds;
      var i := 0;
      waits := 0;
      while i < rounds
        invariant 0 <= i <= n && waits == 2 * i
        invariant Completed(inputs, 0, n) == Completed(inputs, i, n)
        invariant scores == ScoresOver(old(scores), p1, p2, inputs, i, AnswerTimeout)
      {
        var r := inputs[i];
        var reply1 := WaitForAnswers(p1, r.question, r.rightAnswer, AnswerTimeout, r.events1);
        var reply2 := WaitForAnswers(p2, r.question, r.rightAnswer, AnswerTimeout, r.events2);
        waits := waits + 2;
        if reply1.None? || reply2.None? {
          return waits, None;
        }
        i := i + 1;
      }
      result := Some(Winner(GetOrZero(scores, p1), GetOrZero(scores, p2)));
    }
  }

  // ---------------------------------------------------------------------------
  // Pairing

  /** One pass of the pairing loop. */
  datatype PairingStep =
    | Found         // a game already exists under either concatenation of the names
    | Created       // the opponent is connected: a game was stored under p1+p2
    | Waiting       // neither: the loop polls again

  /** Whether a game exists for the pair, under either concatenation of the names. */
  predicate HasGame(keys: set<string>, p1: string, p2: string)
  {
    p1 + p2 in keys || p2 + p1 in keys
  }

  /** Games are keyed by concatenated names: any pair whose names concatenate to a stored key finds that game. */
  lemma PairKeysCollide(p1: string, p2: string, q1: string, q2: string)
    requires p1 + p2 == q1 + q2
    ensures HasGame({q1 + q2}, p1, p2) && HasGame({q1 + q2}, q1, q2)
  {
  }

  /** Distinct pairs do share a key: ("ab", "c") finds the game of ("a", "bc"). */
  lemma DistinctPairsShareKey()
    ensures ("ab", "c") != ("a", "bc") && HasGame({"a" + "bc"}, "ab", "c")
  {
    assert "ab" + "c" == "a" + "bc";
    PairKeysCollide("ab", "c", "a", "bc");
  }

  class FirstHub {
    var games: map<string, FirstGame>
    var connections: map<string, Conn>

    constructor ()
      ensures games == map[] && connections == map[]
    {
      games := map[];
      connections := map[];
    }

    /**
     * One pass of waitForOpponent: an existing game under p1+p2 or p2+p1 ends the
     * wait; otherwise, when p2 is connected, a game for the pair is stored under
     * p1+p2; otherwise nothing changes.
     */
    method WaitForOpponentStep(p1: string, p2: string) returns (step: PairingStep, game: FirstGame?)
      modifies this`games
      ensures HasGame(old(games).Keys, p1, p2) ==> step == Found && games == old(games)
      ensures !HasGame(old(games).Keys, p1, p2) && p2 in connections ==>
        && step == Created && game != null && fresh(game)
        && game.p1 == p1 && game.p2 == p2 && game.scores == map[p1 := 0, p2 := 0]
        && games == old(games)[p1 + p2 := game]
      ensures !HasGame(old(games).Keys, p1, p2) && p2 !in connections ==> step == Waiting && games == old(games)
    {
      if p1 + p2 in games || p2 + p1 in games {
        return Found, null;
      }
      if p2 in connections {
        game := new FirstGame(p1, p2);
        games := games[p1 + p2 := game];
        return Created, game;
      }
      return Waiting, null;
    }
  }
}
