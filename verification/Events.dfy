/** The event envelope and the journal record built around it (src/events.rs, src/journal.rs). */
module Events {
  import opened Prelude

  datatype EventType =
    | SessionStarted | TurnCompleted | SessionStopped
    | ToolRequested | ToolCompleted | MutationObserved | DecisionRecorded | EvidenceRecorded
    | AgentStarted | AgentStopped | ContextCompacting | ContextCompacted
    | CaptureGap
    | OtherEvent(name: string)  // every type without a rule of its own

  datatype CaptureGrade = GradeA | GradeB | GradeC | GradeD

  datatype Context = Context(session: string, route: Option<string>, branch: Option<string>, head: Option<string>)

  /** `grade` is the payload's `capture_grade`; `text` stands for everything else in the payload. */
  datatype Payload = Payload(grade: Option<CaptureGrade>, text: string)

  datatype Event = Event(
    id: string,
    eventType: EventType,
    sequence: nat,
    occurredAt: string,
    host: string,
    actor: string,
    context: Context,
    payload: Payload)

  datatype Record = Record(sequence: nat, event: Event, previous: Option<string>, sha: string)

  function RecordIds(records: seq<Record>): (ids: seq<string>)
    ensures |ids| == |records|
  {
    seq(|records|, i requires 0 <= i < |records| => records[i].event.id)
  }
}
