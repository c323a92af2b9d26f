/**
 * The records of `types.ts`: the stored task classification and the
 * result the remote classifier hands back.
 */
module Types {
  import opened Wrappers

  datatype Quadrant = Q1 | Q2 | Q3 | Q4

  /** The quadrant's code as stored and shown: "Q1" .. "Q4". */
  function QuadrantCode(q: Quadrant): string
  {
    match q
    case Q1 => "Q1"
    case Q2 => "Q2"
    case Q3 => "Q3"
    case Q4 => "Q4"
  }

  datatype Status = Open | Done

  datatype Explanation = Explanation(urgency: string, importance: string, nextAction: string)

  /** One stored task. Timestamps are milliseconds since the epoch. */
  datatype TaskClassification = TaskClassification(
    id: string,
    originalText: string,
    quadrant: Quadrant,
    quadrantLabel: string,
    uScore: int,
    iScore: int,
    dueAt: Option<int>,
    status: Status,
    completedAt: Option<int>,
    explanation: Explanation,
    timestamp: int)

  /** A score as the classifier may send it: a finite number or not. */
  datatype Score = Finite(value: int) | NonFinite

  /** The classifier's explanation; any field may be missing. */
  datatype RawExplanation = RawExplanation(
    urgency: Option<string>,
    importance: Option<string>,
    nextAction: Option<string>)

  /** The classifier's answer; the explanation object itself may be missing. */
  datatype ClassificationResult = ClassificationResult(
    quadrant: string,
    u: Score,
    i: Score,
    explanation: Option<RawExplanation>)

  /** What the awaited classifier call ends with: a result or a thrown error. */
  datatype ClassifierOutcome = Returned(result: ClassificationResult) | Threw(message: string)

  /** JavaScript truthiness of a `number | null` timestamp: null and 0 are false. */
  predicate Truthy(t: Option<int>)
  {
    t.Some? && t.value != 0
  }
}
