/**
 * The wire vocabulary of the trivia server (server/main.go): the message tags,
 * the envelope, and the payloads the room and the question generator exchange.
 * Message texts built with Sprintf are not modelled; a payload keeps only the
 * data the text reports.
 */
module Protocol {

  /** The message tags of server/main.go. */
  const Acknowledged: string := "acknowledged"
  const QuestionTag: string := "question"
  const Timeout: string := "timeout"
  const AnswerTag: string := "answer"
  const StatusTag: string := "status"
  const ScoreUpdate: string := "scoreUpdate"
  const GameOver: string := "gameOver"

  /** All tags, in declaration order. */
  function Tags(): seq<string>
  {
    [Acknowledged, QuestionTag, Timeout, AnswerTag, StatusTag, ScoreUpdate, GameOver]
  }

  /** The tags are pairwise distinct, so dispatching on a tag is unambiguous. */
  lemma TagsDistinct()
    ensures |Tags()| == 7
    ensures forall i, j :: 0 <= i < j < |Tags()| ==> Tags()[i] != Tags()[j]
  {
  }

  /** One dataset entry: a country and its capital. */
  datatype Country = Country(name: string, capital: string)

  /** A question: an id, the country asked about, and the candidate capitals. */
  datatype Question = Question(id: string, country: string, options: seq<string>)

  /** An answer as decoded from a client frame (a payload that fails to decode gives the zero answer). */
  datatype Answer = Answer(id: string, capital: string)

  /** A decoded inbound frame: its tag and the answer its content decodes to. */
  datatype Frame = Frame(tag: string, answer: Answer)

  /** Outbound payloads. Notice stands for a free-text message. */
  datatype Content =
    | Empty
    | Notice
    | QuestionBody(question: Question)
    | StatusBody(result: bool, points: int)
    | ScoreTable(scores: map<string, int>)

  /** The envelope every frame uses. */
  datatype Message = Message(tag: string, content: Content)

  /** An opaque handle for a player's websocket connection. */
  datatype Conn = Conn(handle: nat)
}
