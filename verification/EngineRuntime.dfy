/** The engine contract: pure functions over a state only the engine understands. */
module EngineRuntime {
  import opened Prelude

  datatype Correctness = Correct | Incorrect

  datatype EvaluationResult =
    | Evaluated(correctness: Correctness, score: nat, evidence: string)
    | NotEvaluated(reason: string)

  /** The fields of a semantic action that engines read. */
  datatype SemanticAction = SemanticAction(actionType: string, targetRole: Option<string>, payload: string)

  datatype ActionOutcome<S> = ActionOutcome(accepted: bool, state: S, reason: Option<string>)

  datatype Engine<!C, !S, !A> = Engine(
    canonicalEngineId: string,
    runtimeAdapterId: string,
    engineVersion: string,
    validateConfig: string -> Option<C>,
    initState: C -> S,
    applyAction: (S, C, A) -> ActionOutcome<S>,
    evaluate: (S, C) -> EvaluationResult)
}
