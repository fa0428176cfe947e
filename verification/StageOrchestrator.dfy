/**
 * The stage orchestrator: pure functions from one sequence state to the next.
 * An operation that throws in the program returns Err here.
 */
module StageOrchestrator {
  import opened Prelude
  import opened StableSorting
  import opened EngineRuntime

  datatype TriggerType = OnEngineEvaluationCorrect | OnEngineEvaluationAny | OnStageConfirm | Manual

  datatype ProgressionRule = ProgressionRule(triggerType: TriggerType, maxAttemptsBeforeRemediation: Option<nat>)

  datatype RemediationPolicy = RemediationPolicy(targetStageId: Option<string>)

  datatype StageDefinition = StageDefinition(
    stageId: string,
    order: nat,
    progressionRule: Option<ProgressionRule>,
    maxHintLevel: Option<nat>,
    remediationPolicy: Option<RemediationPolicy>,
    isCheckpoint: Option<bool>)

  datatype SequenceDefinition = SequenceDefinition(
    sequenceId: string,
    sequenceVersion: string,
    stages: seq<StageDefinition>)

  datatype StageStatus = NotStarted | InProgress | Completed | Skipped

  datatype TransitionEvent =
    | SequenceStarted | StageEntered | EngineResultReceived | HintRequested
    | HintLevelAdvanced | RemediationTriggeredEvent | StageAdvanced | SequenceCompleted

  datatype StageState = StageState(
    stageId: string,
    status: StageStatus,
    hintLevel: nat,
    hintCount: nat,
    attemptsForStage: nat,
    checkpointReached: bool,
    remediationTriggered: bool,
    lastTransitionEvent: TransitionEvent)

  datatype AttemptReference = AttemptReference(stageId: string, attemptId: string)

  datatype CompletionState = SequenceNotStarted | SequenceInProgress | SequenceComplete | SequenceAbandoned

  datatype SequenceState = SequenceState(
    runtimeStateId: string,
    sequenceId: string,
    sequenceVersion: string,
    currentStageId: string,
    stageStates: seq<StageState>,
    attemptReferences: seq<AttemptReference>,
    completion: CompletionState)

  datatype OrchestratorError =
    | NoStages
    | UnknownStage(stageId: string)
    | NoProgressionRule(stageId: string)
    | NoRemediationTarget(stageId: string)
    | Unreachable

  datatype ProgressionOutcome = Advanced | Retry | RemediationTriggered | AwaitingManualAdvance

  // ---------------------------------------------------------------- lookups

  function SortedStages(d: SequenceDefinition): seq<StageDefinition> {
    SortBy(d.stages, (s: StageDefinition) => s.order)
  }

  /** Position of the first stage with this id, or |stages|. */
  function StageIndex(stages: seq<StageDefinition>, id: string): (i: nat)
    ensures i <= |stages|
    ensures i < |stages| ==> stages[i].stageId == id
    ensures forall j :: 0 <= j < i ==> stages[j].stageId != id
  {
    First(stages, (s: StageDefinition) => s.stageId == id)
  }

  function FindStage(d: SequenceDefinition, id: string): Result<StageDefinition, OrchestratorError> {
    var i := StageIndex(d.stages, id);
    if i < |d.stages| then Ok(d.stages[i]) else Err(UnknownStage(id))
  }

  /** Position of the first entry with this id, or |entries|. */
  function EntryIndex(entries: seq<StageState>, id: string): (i: nat)
    ensures i <= |entries|
    ensures i < |entries| ==> entries[i].stageId == id
    ensures forall j :: 0 <= j < i ==> entries[j].stageId != id
  {
    First(entries, (e: StageState) => e.stageId == id)
  }

  predicate HasEntry(entries: seq<StageState>, id: string) {
    EntryIndex(entries, id) < |entries|
  }

  function Entry(entries: seq<StageState>, id: string): StageState
    requires HasEntry(entries, id)
  {
    entries[EntryIndex(entries, id)]
  }

  /** Every entry with this id becomes `next`; with no such entry, `next` is appended. */
  function PutEntry(entries: seq<StageState>, id: string, next: StageState): seq<StageState> {
    if HasEntry(entries, id) then
      seq(|entries|, i requires 0 <= i < |entries| => if entries[i].stageId == id then next else entries[i])
    else entries + [next]
  }

  /** `createIfMissing` is None where the program throws instead of creating. */
  function WithStageState(s: SequenceState, id: string, update: StageState -> StageState,
                          createIfMissing: Option<StageState>): Result<SequenceState, OrchestratorError>
  {
    if HasEntry(s.stageStates, id) then
      Ok(s.(stageStates := PutEntry(s.stageStates, id, update(Entry(s.stageStates, id)))))
    else match createIfMissing
      case None => Err(Unreachable)
      case Some(created) => Ok(s.(stageStates := PutEntry(s.stageStates, id, update(created))))
  }

  function FreshEntry(id: string, attempts: nat, event: TransitionEvent): StageState {
    StageState(id, InProgress, 0, 0, attempts, false, false, event)
  }

  // ---------------------------------------------------------------- operations

  function InitializeSequence(d: SequenceDefinition, runtimeStateId: string): Result<SequenceState, OrchestratorError> {
    var stages := SortedStages(d);
    if |stages| == 0 then Err(NoStages)
    else Ok(SequenceState(runtimeStateId, d.sequenceId, d.sequenceVersion, stages[0].stageId,
                          [FreshEntry(stages[0].stageId, 0, SequenceStarted)], [], SequenceInProgress))
  }

  function CompleteEntry(stage: StageDefinition, e: StageState): StageState {
    e.(status := Completed,
       checkpointReached := if stage.isCheckpoint == Some(true) then true else e.checkpointReached)
  }

  function MarkStageComplete(d: SequenceDefinition, s: SequenceState, id: string):
    Result<SequenceState, OrchestratorError>
  {
    match FindStage(d, id)
    case Err(e) => Err(e)
    case Ok(stage) => WithStageState(s, id, (e: StageState) => CompleteEntry(stage, e), None)
  }

  datatype EngineResultOutcome = EngineResultOutcome(state: SequenceState, outcome: ProgressionOutcome)

  predicate IsCorrect(evaluation: EvaluationResult) {
    evaluation.Evaluated? && evaluation.correctness == Correct
  }

  function CountAttempt(e: StageState): StageState {
    e.(attemptsForStage := e.attemptsForStage + 1, lastTransitionEvent := EngineResultReceived)
  }

  function FlagRemediation(e: StageState): StageState {
    e.(remediationTriggered := true, lastTransitionEvent := RemediationTriggeredEvent)
  }

  function ReceiveEngineResult(d: SequenceDefinition, s: SequenceState, evaluation: EvaluationResult):
    Result<EngineResultOutcome, OrchestratorError>
  {
    match FindStage(d, s.currentStageId)
    case Err(e) => Err(e)
    case Ok(stage) =>
      if stage.progressionRule.None? then Err(NoProgressionRule(stage.stageId))
      else
        var rule := stage.progressionRule.value;
        match WithStageState(s, stage.stageId, CountAttempt, Some(FreshEntry(stage.stageId, 1, EngineResultReceived)))
        case Err(e) => Err(e)
        case Ok(counted) =>
          if rule.triggerType == OnEngineEvaluationAny || rule.triggerType == OnStageConfirm
             || (rule.triggerType == OnEngineEvaluationCorrect && IsCorrect(evaluation)) then
            match MarkStageComplete(d, counted, stage.stageId)
            case Err(e) => Err(e)
            case Ok(done) => Ok(EngineResultOutcome(done, Advanced))
          else if rule.triggerType == Manual then Ok(EngineResultOutcome(counted, AwaitingManualAdvance))
          else if rule.maxAttemptsBeforeRemediation.Some? && stage.remediationPolicy.Some?
               && HasEntry(counted.stageStates, stage.stageId)
               && Entry(counted.stageStates, stage.stageId).attemptsForStage >= rule.maxAttemptsBeforeRemediation.value then
            match WithStageState(counted, stage.stageId, FlagRemediation, None)
            case Err(e) => Err(e)
            case Ok(flagged) => Ok(EngineResultOutcome(flagged, RemediationTriggered))
          else Ok(EngineResultOutcome(counted, Retry))
  }

  function MaxHintLevel(stage: StageDefinition): nat {
    if stage.maxHintLevel.Some? then stage.maxHintLevel.value else 0
  }

  function CountHint(e: StageState, maxHintLevel: nat): StageState {
    if e.hintLevel < maxHintLevel then
      e.(hintCount := e.hintCount + 1, hintLevel := e.hintLevel + 1, lastTransitionEvent := HintLevelAdvanced)
    else
      e.(hintCount := e.hintCount + 1, lastTransitionEvent := HintRequested)
  }

  function RequestHint(d: SequenceDefinition, s: SequenceState): Result<SequenceState, OrchestratorError> {
    match FindStage(d, s.currentStageId)
    case Err(e) => Err(e)
    case Ok(stage) =>
      WithStageState(s, stage.stageId, (e: StageState) => CountHint(e, MaxHintLevel(stage)), None)
  }

  function Enter(s: SequenceState, id: string): Result<SequenceState, OrchestratorError> {
    WithStageState(s, id, (e: StageState) => e.(status := InProgress, lastTransitionEvent := StageEntered),
                   Some(FreshEntry(id, 0, StageEntered)))
  }

  function AdvanceStage(d: SequenceDefinition, s: SequenceState): Result<SequenceState, OrchestratorError> {
    var stages := SortedStages(d);
    var i := StageIndex(stages, s.currentStageId);
    if i == |stages| then Err(UnknownStage(s.currentStageId))
    else match MarkStageComplete(d, s, s.currentStageId)
      case Err(e) => Err(e)
      case Ok(completed) =>
        match WithStageState(completed, s.currentStageId,
                             (e: StageState) => e.(lastTransitionEvent := StageAdvanced), None)
        case Err(e) => Err(e)
        case Ok(advanced) =>
          if i + 1 == |stages| then
            match WithStageState(advanced, s.currentStageId,
                                 (e: StageState) => e.(lastTransitionEvent := SequenceCompleted), None)
            case Err(e) => Err(e)
            case Ok(last) => Ok(last.(completion := SequenceComplete))
          else
            match Enter(advanced, stages[i + 1].stageId)
            case Err(e) => Err(e)
            case Ok(entered) => Ok(entered.(currentStageId := stages[i + 1].stageId))
  }

  function RedirectToRemediationTarget(d: SequenceDefinition, s: SequenceState):
    Result<SequenceState, OrchestratorError>
  {
    match FindStage(d, s.currentStageId)
    case Err(e) => Err(e)
    case Ok(stage) =>
      // An empty target id is falsy in the program, hence treated as absent.
      if stage.remediationPolicy.None? || stage.remediationPolicy.value.targetStageId.None?
         || stage.remediationPolicy.value.targetStageId.value == "" then
        Err(NoRemediationTarget(stage.stageId))
      else
        var target := stage.remediationPolicy.value.targetStageId.value;
        match FindStage(d, target)
        case Err(e) => Err(e)
        case Ok(_) => Enter(s, target)
  }

  function AddAttemptReference(s: SequenceState, stageId: string, attemptId: string): SequenceState {
    var reference := AttemptReference(stageId, attemptId);
    if reference in s.attemptReferences then s
    else s.(attemptReferences := s.attemptReferences + [reference])
  }

  function AbandonSequence(s: SequenceState): SequenceState {
    s.(completion := SequenceAbandoned)
  }

  predicate IsSequenceComplete(s: SequenceState) {
    s.completion == SequenceComplete
  }
}
