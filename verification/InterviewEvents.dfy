/** The events of the interview stream, with the payload fields the client reads. */
module InterviewEvents {
  import opened Options

  /** A question or a score as the server sends it. An absent text is "", an absent score 0.0. */
  datatype Card = Card(questionNo: Option<int>, question: string, score: real, overallScore: Option<real>,
                       dimension: string, feedback: string, expectedPoints: seq<string>,
                       hints: seq<string>, subScores: map<string, real>)

  datatype PointsSummary = PointsSummary(reserved: Option<int>, settled: Option<int>, currency: string)

  /** An event's payload: its own card fields, a nested summary, and the runtime envelope. */
  datatype Payload = Payload(own: Card, summary: Option<Card>, currentQuestion: Option<int>, content: string,
                             checkpointId: string, taskId: string, executionId: string,
                             availableActions: Option<seq<string>>, pointsSummary: Option<PointsSummary>)

  datatype Kind =
    | NodeStarted | NodeCompleted | TokenDelta | RoundScore | ScoreDelivered | NextQuestion
    | PlanStatus | ErrorEvent | Other(name: string)

  datatype Event = Event(kind: Kind, node: string, payload: Payload, sequence: Option<int>)

  /** The sequence numbers of the sequenced events, in order. */
  function Sequences(events: seq<Event>): seq<int> {
    if events == [] then []
    else
      var e := events[|events| - 1];
      Sequences(events[..|events| - 1]) + if e.sequence.Some? then [e.sequence.value] else []
  }
}
