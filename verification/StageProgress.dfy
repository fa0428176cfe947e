/** Theorems about whole runs of the orchestrator, from `initializeSequence` on. */
module StageProgress {
  import opened Prelude
  import opened StableSorting
  import opened EngineRuntime
  import opened StageOrchestrator
  import opened StageRuns

  lemma StartIsConsistent(d: SequenceDefinition, runtimeStateId: string)
    requires WellFormed(d)
    ensures InitializeSequence(d, runtimeStateId).Ok?
    ensures Consistent(d, InitializeSequence(d, runtimeStateId).value)
    ensures forall id :: Attempts(InitializeSequence(d, runtimeStateId).value.stageStates, id) == 0
  {
    SortedStagesAreTheStages(d);
    var s := InitializeSequence(d, runtimeStateId).value;
    EntryIndexUnique(s.stageStates, 0);
  }

  /** A sequence starts at its first stage in order, in progress; only a definition without stages has no start. */
  lemma StartsAtTheFirstStage(d: SequenceDefinition, runtimeStateId: string)
    ensures InitializeSequence(d, runtimeStateId) == Err(NoStages) <==> d.stages == []
    ensures InitializeSequence(d, runtimeStateId).Ok? <==> d.stages != []
    ensures InitializeSequence(d, runtimeStateId).Ok? ==>
      var s := InitializeSequence(d, runtimeStateId).value;
      && |s.stageStates| == 1 && s.stageStates[0].stageId == s.currentStageId
      && s.stageStates[0].status == InProgress && s.stageStates[0].lastTransitionEvent == SequenceStarted
      && s.attemptReferences == [] && s.completion == SequenceInProgress
      && exists first :: first in d.stages && first.stageId == s.currentStageId
                      && forall other :: other in d.stages ==> first.order <= other.order
  {
    var rank := (stage: StageDefinition) => stage.order;
    SortIsOrderedPermutation(d.stages, rank);
    var sorted := SortBy(d.stages, rank);
    assert sorted == SortedStages(d);
    if d.stages != [] {
      assert sorted[0] in sorted;
      forall other | other in d.stages ensures sorted[0].order <= other.order {
        assert other in sorted;
        var i :| 0 <= i < |sorted| && sorted[i] == other;
        assert i > 0 ==> rank(sorted[0]) <= rank(sorted[i]);
      }
    }
  }

  function Start(d: SequenceDefinition, runtimeStateId: string): (s: SequenceState)
    requires WellFormed(d)
    ensures Consistent(d, s)
    ensures s.runtimeStateId == runtimeStateId
  {
    StartIsConsistent(d, runtimeStateId);
    InitializeSequence(d, runtimeStateId).value
  }

  lemma {:induction false} RunKeeps(d: SequenceDefinition, s: SequenceState, ops: seq<Op>)
    requires WellFormed(d) && Consistent(d, s)
    ensures Consistent(d, RunFrom(d, s, ops))
    ensures Evolves(s, RunFrom(d, s, ops))
  {
    if |ops| > 0 {
      RunKeeps(d, s, Front(ops));
      var before := RunFrom(d, s, Front(ops));
      StepIsGood(d, before, Last(ops));
      EvolvesTransitively(s, before, RunFrom(d, s, ops));
    }
  }

  /**
   * Every state reachable by any operations, redirects and abandons included, is
   * consistent, and the next operation throws exactly when the definition makes it.
   */
  lemma ReachableIsConsistent(d: SequenceDefinition, runtimeStateId: string, ops: seq<Op>, op: Op)
    requires WellFormed(d)
    ensures var s := RunFrom(d, Start(d, runtimeStateId), ops);
            && Consistent(d, s)
            && s.runtimeStateId == runtimeStateId
            && (match ExpectedError(d, s, op)
                case Some(e) => e != Unreachable && Step(d, s, op) == Err(e)
                case None => Step(d, s, op).Ok?)
  {
    StartIsConsistent(d, runtimeStateId);
    RunKeeps(d, Start(d, runtimeStateId), ops);
    StepIsGood(d, RunFrom(d, Start(d, runtimeStateId), ops), op);
  }

  /** How many results a run delivers to the stage `id`. */
  function ResultsReceived(d: SequenceDefinition, s: SequenceState, ops: seq<Op>, id: string): nat {
    if |ops| == 0 then 0
    else
      var before := RunFrom(d, s, Front(ops));
      ResultsReceived(d, s, Front(ops), id)
      + if Last(ops).Receive? && before.currentStageId == id && Step(d, before, Last(ops)).Ok? then 1 else 0
  }

  /** `attemptsForStage` is exactly the number of results received there, whatever else happened. */
  lemma {:induction false} AttemptsCountResults(d: SequenceDefinition, runtimeStateId: string, ops: seq<Op>, id: string)
    requires WellFormed(d)
    ensures Attempts(RunFrom(d, Start(d, runtimeStateId), ops).stageStates, id) ==
            ResultsReceived(d, Start(d, runtimeStateId), ops, id)
  {
    var start := Start(d, runtimeStateId);
    StartIsConsistent(d, runtimeStateId);
    if |ops| > 0 {
      AttemptsCountResults(d, runtimeStateId, Front(ops), id);
      RunKeeps(d, start, Front(ops));
      StepIsGood(d, RunFrom(d, start, Front(ops)), Last(ops));
    }
  }

  /** How many hints a run requests at the stage `id`. */
  function HintsRequested(d: SequenceDefinition, start: SequenceState, ops: seq<Op>, id: string): nat {
    if |ops| == 0 then 0
    else
      HintsRequested(d, start, Front(ops), id)
      + if Last(ops).Hint? && RunFrom(d, start, Front(ops)).currentStageId == id then 1 else 0
  }

  /** `hintCount` is exactly the number of hints requested there, and the level rises with it up to the maximum. */
  lemma {:induction false} HintsAreCounted(d: SequenceDefinition, runtimeStateId: string, ops: seq<Op>, id: string)
    requires WellFormed(d)
    ensures var t := RunFrom(d, Start(d, runtimeStateId), ops);
            var hints := HintsRequested(d, Start(d, runtimeStateId), ops, id);
            && Hints(t.stageStates, id) == hints
            && (HasEntry(t.stageStates, id) ==>
                  Known(d, id)
                  && Entry(t.stageStates, id).hintCount == hints
                  && Entry(t.stageStates, id).hintLevel ==
                       var max := StageOf(d, id).maxHintLevel;
                       if max.None? then 0 else if hints <= max.value then hints else max.value)
  {
    var start := Start(d, runtimeStateId);
    StartIsConsistent(d, runtimeStateId);
    RunKeeps(d, start, ops);
    if |ops| > 0 {
      HintsAreCounted(d, runtimeStateId, Front(ops), id);
      RunKeeps(d, start, Front(ops));
      StepIsGood(d, RunFrom(d, start, Front(ops)), Last(ops));
    }
  }

  /** The attempt references are exactly those that were added. */
  lemma {:induction false} ReferencesAreTheAdded(d: SequenceDefinition, runtimeStateId: string, ops: seq<Op>,
                                                 stageId: string, attemptId: string)
    requires WellFormed(d)
    ensures AttemptReference(stageId, attemptId) in RunFrom(d, Start(d, runtimeStateId), ops).attemptReferences
      <==> AddReference(stageId, attemptId) in ops
  {
    var start := Start(d, runtimeStateId);
    StartIsConsistent(d, runtimeStateId);
    if |ops| > 0 {
      ReferencesAreTheAdded(d, runtimeStateId, Front(ops), stageId, attemptId);
      RunKeeps(d, start, Front(ops));
      assert ops == Front(ops) + [Last(ops)];
      OnlyAddingAddsReferences(d, RunFrom(d, start, Front(ops)), Last(ops));
    }
  }

  lemma OnlyAddingAddsReferences(d: SequenceDefinition, s: SequenceState, op: Op)
    requires WellFormed(d) && Consistent(d, s)
    ensures forall reference :: reference in Apply(d, s, op).attemptReferences <==>
      reference in s.attemptReferences || op == AddReference(reference.stageId, reference.attemptId)
  {
    if op.Receive? && StageOf(d, s.currentStageId).progressionRule.Some? {
      ReceiveUnfolds(d, s, op.evaluation);
    } else if op.Advance? {
      AdvanceUnfolds(d, s);
    }
  }

  /** The verdict on a result, read off the stage's rule. */
  lemma VerdictFollowsTheRule(d: SequenceDefinition, s: SequenceState, evaluation: EvaluationResult)
    requires WellFormed(d) && Consistent(d, s) && StageOf(d, s.currentStageId).progressionRule.Some?
    ensures ReceiveEngineResult(d, s, evaluation).Ok?
    ensures var id := s.currentStageId;
            var stage := StageOf(d, id);
            var rule := stage.progressionRule.value;
            var correct := evaluation.Evaluated? && evaluation.correctness == Correct;
            var EngineResultOutcome(t, outcome) := ReceiveEngineResult(d, s, evaluation).value;
            && HasEntry(t.stageStates, id)
            && (outcome == Advanced <==>
                  rule.triggerType == OnEngineEvaluationAny || rule.triggerType == OnStageConfirm
                  || (rule.triggerType == OnEngineEvaluationCorrect && correct))
            && (outcome == AwaitingManualAdvance <==> rule.triggerType == Manual)
            && (outcome == RemediationTriggered <==>
                  && rule.triggerType == OnEngineEvaluationCorrect && !correct
                  && rule.maxAttemptsBeforeRemediation.Some? && stage.remediationPolicy.Some?
                  && Attempts(s.stageStates, id) + 1 >= rule.maxAttemptsBeforeRemediation.value)
            && (outcome == Advanced ==> Entry(t.stageStates, id).status == Completed)
            && (outcome == RemediationTriggered ==> Entry(t.stageStates, id).remediationTriggered)
  {
    ReceiveUnfolds(d, s, evaluation);
    var id := s.currentStageId;
    var stage := StageOf(d, id);
    var (next, _) := ReceivedEntry(stage, stage.progressionRule.value, ReceivingEntry(s), evaluation);
    PutOneEntry(s.stageStates, id, next);
  }

  // ---------------------------------------------------------------- what an entry shows

  /** What an operation leaves on a stage's entry: a status, if it sets one, and an event. */
  datatype Mark = Mark(status: Option<StageStatus>, event: TransitionEvent)

  function MarkOf(d: SequenceDefinition, s: SequenceState, op: Op, id: string): Option<Mark>
    requires WellFormed(d) && Known(d, s.currentStageId)
  {
    var here := id == s.currentStageId;
    var stage := StageOf(d, s.currentStageId);
    match op
    case Receive(evaluation) =>
      if !here || ReceiveEngineResult(d, s, evaluation).Err? then None
      else (match ReceiveEngineResult(d, s, evaluation).value.outcome
            case Advanced => Some(Mark(Some(Completed), EngineResultReceived))
            case RemediationTriggered => Some(Mark(None, RemediationTriggeredEvent))
            case _ => Some(Mark(None, EngineResultReceived)))
    case Hint =>
      if !here then None
      else if stage.maxHintLevel.Some? && Hints(s.stageStates, id) < stage.maxHintLevel.value
      then Some(Mark(None, HintLevelAdvanced)) else Some(Mark(None, HintRequested))
    case Advance =>
      var n := |SortedStages(d)|;
      var i := StageIndex(SortedStages(d), s.currentStageId);
      if i + 1 >= n then (if here then Some(Mark(Some(Completed), SequenceCompleted)) else None)
      else if here then Some(Mark(Some(Completed), StageAdvanced))
      else if id == SortedStages(d)[i + 1].stageId then Some(Mark(Some(InProgress), StageEntered))
      else None
    case Redirect =>
      if ExpectedError(d, s, Redirect).None? && id == stage.remediationPolicy.value.targetStageId.value
      then Some(Mark(Some(InProgress), StageEntered)) else None
    case _ => None
  }

  /** The entry after an operation shows its mark, and what was there before where it has none. */
  ghost predicate ShowsMark(entries: seq<StageState>, later: seq<StageState>, id: string, mark: Option<Mark>) {
    match mark
    case None =>
      && (HasEntry(later, id) <==> HasEntry(entries, id))
      && (HasEntry(later, id) ==>
            Entry(later, id).status == Entry(entries, id).status
            && Entry(later, id).lastTransitionEvent == Entry(entries, id).lastTransitionEvent)
    case Some(m) =>
      && HasEntry(later, id)
      && Entry(later, id).lastTransitionEvent == m.event
      && (m.status.Some? ==> Entry(later, id).status == m.status.value)
      && (m.status.None? && HasEntry(entries, id) ==> Entry(later, id).status == Entry(entries, id).status)
  }

  lemma ReceiveShowsMark(d: SequenceDefinition, s: SequenceState, evaluation: EvaluationResult, id: string)
    requires WellFormed(d) && Consistent(d, s)
    ensures ShowsMark(s.stageStates, Apply(d, s, Receive(evaluation)).stageStates, id, MarkOf(d, s, Receive(evaluation), id))
  {
    var current := s.currentStageId;
    var stage := StageOf(d, current);
    if stage.progressionRule.Some? {
      ReceiveUnfolds(d, s, evaluation);
      var (next, _) := ReceivedEntry(stage, stage.progressionRule.value, Entry(s.stageStates, current), evaluation);
      PutOneEntry(s.stageStates, current, next);
    }
  }

  lemma HintShowsMark(d: SequenceDefinition, s: SequenceState, id: string)
    requires WellFormed(d) && Consistent(d, s)
    ensures ShowsMark(s.stageStates, Apply(d, s, Hint).stageStates, id, MarkOf(d, s, Hint, id))
  {
    var current := s.currentStageId;
    assert EntryFits(d, Entry(s.stageStates, current));
    PutOneEntry(s.stageStates, current, CountHint(Entry(s.stageStates, current), MaxHintLevel(StageOf(d, current))));
  }

  lemma RedirectShowsMark(d: SequenceDefinition, s: SequenceState, id: string)
    requires WellFormed(d) && Consistent(d, s)
    ensures ShowsMark(s.stageStates, Apply(d, s, Redirect).stageStates, id, MarkOf(d, s, Redirect, id))
  {
    if ExpectedError(d, s, Redirect).None? {
      var target := StageOf(d, s.currentStageId).remediationPolicy.value.targetStageId.value;
      PutOneEntry(s.stageStates, target, EnteredEntry(s.stageStates, target));
    }
  }

  lemma LeavingShowsMark(d: SequenceDefinition, s: SequenceState, id: string)
    requires WellFormed(d) && Consistent(d, s)
    ensures var event := if OnLastStage(d, s) then SequenceCompleted else StageAdvanced;
            ShowsMark(s.stageStates, LeftEntries(d, s), id,
                      if id == s.currentStageId then Some(Mark(Some(Completed), event)) else None)
  {
    var current := s.currentStageId;
    PutOneEntry(s.stageStates, current, LeftEntry(StageOf(d, current), Entry(s.stageStates, current), OnLastStage(d, s)));
  }

  lemma EnteringShowsMark(entries: seq<StageState>, next: string, id: string)
    requires DistinctEntries(entries)
    ensures ShowsMark(entries, PutEntry(entries, next, EnteredEntry(entries, next)), id,
                      if id == next then Some(Mark(Some(InProgress), StageEntered)) else None)
  {
    PutOneEntry(entries, next, EnteredEntry(entries, next));
  }

  lemma AdvanceShowsMark(d: SequenceDefinition, s: SequenceState, id: string)
    requires WellFormed(d) && Consistent(d, s)
    ensures ShowsMark(s.stageStates, Apply(d, s, Advance).stageStates, id, MarkOf(d, s, Advance, id))
  {
    AdvanceUnfolds(d, s);
    LeavingShowsMark(d, s, id);
    if !OnLastStage(d, s) {
      SortedStagesAreTheStages(d);
      LeavingKeeps(d, s);
      EnteringShowsMark(LeftEntries(d, s), NextStageId(d, s), id);
    }
  }

  lemma StepShowsMark(d: SequenceDefinition, s: SequenceState, op: Op, id: string)
    requires WellFormed(d) && Consistent(d, s)
    ensures ShowsMark(s.stageStates, Apply(d, s, op).stageStates, id, MarkOf(d, s, op, id))
  {
    match op {
      case Receive(evaluation) => ReceiveShowsMark(d, s, evaluation, id);
      case Hint => HintShowsMark(d, s, id);
      case Advance => AdvanceShowsMark(d, s, id);
      case Redirect => RedirectShowsMark(d, s, id);
      case AddReference(_, _) =>
      case Abandon =>
    }
  }

  /** The last status and event that a run has marked a stage with. */
  function LastMark(d: SequenceDefinition, runtimeStateId: string, ops: seq<Op>, id: string): Option<Mark>
    requires WellFormed(d)
  {
    if |ops| == 0 then
      if id == SortedStages(d)[0].stageId then Some(Mark(Some(InProgress), SequenceStarted)) else None
    else
      var earlier := LastMark(d, runtimeStateId, Front(ops), id);
      RunKeeps(d, Start(d, runtimeStateId), Front(ops));
      match MarkOf(d, RunFrom(d, Start(d, runtimeStateId), Front(ops)), Last(ops), id)
      case None => earlier
      case Some(m) =>
        if m.status.None? && earlier.Some? then Some(Mark(earlier.value.status, m.event)) else Some(m)
  }

  /**
   * Over a whole run, a stage has an entry exactly if some operation marked it, and the entry's
   * status and last event are those of the last mark.
   */
  lemma {:induction false} EntryShowsLastMark(d: SequenceDefinition, runtimeStateId: string, ops: seq<Op>, id: string)
    requires WellFormed(d)
    ensures var entries := RunFrom(d, Start(d, runtimeStateId), ops).stageStates;
            match LastMark(d, runtimeStateId, ops, id)
            case None => !HasEntry(entries, id)
            case Some(m) =>
              && HasEntry(entries, id)
              && m.status == Some(Entry(entries, id).status)
              && m.event == Entry(entries, id).lastTransitionEvent
  {
    var start := Start(d, runtimeStateId);
    StartIsConsistent(d, runtimeStateId);
    SortedStagesAreTheStages(d);
    if |ops| > 0 {
      EntryShowsLastMark(d, runtimeStateId, Front(ops), id);
      RunKeeps(d, start, Front(ops));
      StepShowsMark(d, RunFrom(d, start, Front(ops)), Last(ops), id);
    }
  }

  // ---------------------------------------------------------------- progress by advances

  function Advances(ops: seq<Op>): nat {
    Count(ops, (op: Op) => op.Advance?)
  }

  /** The completion flag as the last completing or abandoning operation leaves it. */
  function ExpectedCompletion(stages: nat, ops: seq<Op>): CompletionState {
    if |ops| == 0 then SequenceInProgress
    else match Last(ops)
      case Abandon => SequenceAbandoned
      case Advance => if Advances(ops) >= stages then SequenceComplete else ExpectedCompletion(stages, Front(ops))
      case _ => ExpectedCompletion(stages, Front(ops))
  }

  lemma SortedIndex(d: SequenceDefinition, i: nat)
    requires WellFormed(d) && i < |SortedStages(d)|
    ensures StageIndex(SortedStages(d), SortedStages(d)[i].stageId) == i
  {
    SortedStagesAreTheStages(d);
    var k := StageIndex(SortedStages(d), SortedStages(d)[i].stageId);
    assert k < |SortedStages(d)| && SortedStages(d)[k].stageId == SortedStages(d)[i].stageId;
  }

  /** Only `advanceStage` moves the current stage; only it and `abandonSequence` touch completion. */
  lemma OthersStay(d: SequenceDefinition, s: SequenceState, op: Op)
    requires WellFormed(d) && Consistent(d, s) && !op.Advance?
    ensures Apply(d, s, op).currentStageId == s.currentStageId
    ensures Apply(d, s, op).completion == if op.Abandon? then SequenceAbandoned else s.completion
  {
    if op.Receive? && StageOf(d, s.currentStageId).progressionRule.Some? {
      ReceiveUnfolds(d, s, op.evaluation);
    }
  }

  lemma AdvanceMoves(d: SequenceDefinition, s: SequenceState, c: nat)
    requires WellFormed(d) && Consistent(d, s) && c < |SortedStages(d)|
    requires s.currentStageId == SortedStages(d)[c].stageId
    ensures var t := Apply(d, s, Advance);
            var n := |SortedStages(d)|;
            && t.currentStageId == SortedStages(d)[Min(c + 1, n - 1)].stageId
            && t.completion == if c + 1 == n then SequenceComplete else s.completion
  {
    SortedIndex(d, c);
    AdvanceUnfolds(d, s);
  }

  /**
   * Where a run stands depends on its advances alone: after k of them the current
   * stage is number min(k, n - 1) in order, however results, hints, redirects and
   * abandons are mixed in; the sequence is complete from the n-th advance on,
   * unless abandoned afterwards.
   */
  lemma {:induction false} PositionIsNumberOfAdvances(d: SequenceDefinition, runtimeStateId: string, ops: seq<Op>)
    requires WellFormed(d)
    ensures var s := RunFrom(d, Start(d, runtimeStateId), ops);
            var n := |SortedStages(d)|;
            && n == |d.stages|
            && s.currentStageId == SortedStages(d)[Min(Advances(ops), n - 1)].stageId
            && s.completion == ExpectedCompletion(n, ops)
  {
    SortedStagesAreTheStages(d);
    var start := Start(d, runtimeStateId);
    StartIsConsistent(d, runtimeStateId);
    if |ops| > 0 {
      PositionIsNumberOfAdvances(d, runtimeStateId, Front(ops));
      RunKeeps(d, start, Front(ops));
      var before := RunFrom(d, start, Front(ops));
      if Last(ops).Advance? {
        AdvanceMoves(d, before, Min(Advances(Front(ops)), |SortedStages(d)| - 1));
      } else {
        OthersStay(d, before, Last(ops));
      }
    }
  }

  /** Without abandons, n advances complete an n-stage sequence and fewer never do. */
  lemma {:induction false} CompleteAfterAllAdvances(d: SequenceDefinition, runtimeStateId: string, ops: seq<Op>)
    requires WellFormed(d)
    requires Abandon !in ops
    ensures IsSequenceComplete(RunFrom(d, Start(d, runtimeStateId), ops)) <==> Advances(ops) >= |d.stages|
  {
    PositionIsNumberOfAdvances(d, runtimeStateId, ops);
    CompletionWithoutAbandon(|d.stages|, ops);
  }

  lemma {:induction false} CompletionWithoutAbandon(n: nat, ops: seq<Op>)
    requires n > 0 && Abandon !in ops
    ensures ExpectedCompletion(n, ops) == if Advances(ops) >= n then SequenceComplete else SequenceInProgress
  {
    if |ops| > 0 {
      CompletionWithoutAbandon(n, Front(ops));
    }
  }

  /** Stage entries are exactly the first `c + 1` stages in order, all but the last completed. */
  ghost predicate IsPrefix(d: SequenceDefinition, s: SequenceState, c: nat) {
    && c < |SortedStages(d)|
    && |s.stageStates| == c + 1
    && (forall i :: 0 <= i <= c ==> s.stageStates[i].stageId == SortedStages(d)[i].stageId)
    && (forall i :: 0 <= i < c ==> s.stageStates[i].status == Completed)
  }

  /** Writing the current entry keeps the prefix. */
  lemma PutCurrentKeepsPrefix(d: SequenceDefinition, s: SequenceState, c: nat, next: StageState)
    requires WellFormed(d) && Consistent(d, s) && IsPrefix(d, s, c)
    requires s.currentStageId == SortedStages(d)[c].stageId == next.stageId
    ensures Entry(s.stageStates, s.currentStageId) == s.stageStates[c]
    ensures PutEntry(s.stageStates, s.currentStageId, next) == s.stageStates[c := next]
    ensures IsPrefix(d, s.(stageStates := s.stageStates[c := next]), c)
  {
    EntryIndexUnique(s.stageStates, c);
    PutAt(s.stageStates, c, next);
  }

  lemma NonAdvanceKeepsPrefix(d: SequenceDefinition, s: SequenceState, c: nat, op: Op)
    requires WellFormed(d) && Consistent(d, s) && IsPrefix(d, s, c)
    requires s.currentStageId == SortedStages(d)[c].stageId
    requires !op.Advance? && !op.Redirect?
    ensures IsPrefix(d, Apply(d, s, op), c)
  {
    var stage := StageOf(d, s.currentStageId);
    if op.Receive? && stage.progressionRule.Some? {
      ReceiveUnfolds(d, s, op.evaluation);
      var (next, _) := ReceivedEntry(stage, stage.progressionRule.value, ReceivingEntry(s), op.evaluation);
      PutCurrentKeepsPrefix(d, s, c, next);
    } else if op.Hint? {
      PutCurrentKeepsPrefix(d, s, c, CountHint(Entry(s.stageStates, s.currentStageId), MaxHintLevel(stage)));
    }
  }

  /** Leaving the current stage keeps the prefix and completes its last entry. */
  lemma LeavingKeepsPrefix(d: SequenceDefinition, s: SequenceState, c: nat)
    requires WellFormed(d) && Consistent(d, s) && IsPrefix(d, s, c)
    requires s.currentStageId == SortedStages(d)[c].stageId
    ensures |LeftEntries(d, s)| == c + 1 && LeftEntries(d, s)[c].status == Completed
    ensures IsPrefix(d, s.(stageStates := LeftEntries(d, s)), c)
  {
    var left := LeftEntry(StageOf(d, s.currentStageId), Entry(s.stageStates, s.currentStageId), OnLastStage(d, s));
    PutCurrentKeepsPrefix(d, s, c, left);
  }

  lemma AdvanceExtendsPrefix(d: SequenceDefinition, s: SequenceState, c: nat)
    requires WellFormed(d) && Consistent(d, s) && IsPrefix(d, s, c)
    requires s.currentStageId == SortedStages(d)[c].stageId
    ensures IsPrefix(d, Apply(d, s, Advance), Min(c + 1, |SortedStages(d)| - 1))
  {
    AdvanceUnfolds(d, s);
    SortedIndex(d, c);
    LeavingKeepsPrefix(d, s, c);
    if c + 1 < |SortedStages(d)| {
      NextIsNew(d, LeftEntries(d, s), c);
    }
  }

  lemma NextIsNew(d: SequenceDefinition, entries: seq<StageState>, c: nat)
    requires WellFormed(d) && c + 1 < |SortedStages(d)| && |entries| == c + 1
    requires forall i :: 0 <= i <= c ==> entries[i].stageId == SortedStages(d)[i].stageId
    ensures !HasEntry(entries, SortedStages(d)[c + 1].stageId)
  {
    SortedStagesAreTheStages(d);
  }

  /** In a redirect-free run the entries are the sorted prefix of stages up to the current one. */
  lemma {:induction false} RedirectFreeRunIsPrefix(d: SequenceDefinition, runtimeStateId: string, ops: seq<Op>)
    requires WellFormed(d)
    requires Redirect !in ops
    ensures IsPrefix(d, RunFrom(d, Start(d, runtimeStateId), ops), Min(Advances(ops), |SortedStages(d)| - 1))
  {
    SortedStagesAreTheStages(d);
    StartIsConsistent(d, runtimeStateId);
    if |ops| > 0 {
      RedirectFreeRunIsPrefix(d, runtimeStateId, Front(ops));
      PositionIsNumberOfAdvances(d, runtimeStateId, Front(ops));
      RunKeeps(d, Start(d, runtimeStateId), Front(ops));
      var before := RunFrom(d, Start(d, runtimeStateId), Front(ops));
      var c := Min(Advances(Front(ops)), |SortedStages(d)| - 1);
      assert Last(ops) != Redirect;
      if Last(ops).Advance? {
        AdvanceExtendsPrefix(d, before, c);
      } else {
        NonAdvanceKeepsPrefix(d, before, c, Last(ops));
      }
    }
  }

  /** Advancing again right after the last stage was left changes nothing. */
  lemma AdvanceAfterCompletionIsIdle(d: SequenceDefinition, s: SequenceState)
    requires WellFormed(d) && Consistent(d, s) && OnLastStage(d, s)
    ensures AdvanceStage(d, s).Ok? && IsSequenceComplete(AdvanceStage(d, s).value)
    ensures AdvanceStage(d, AdvanceStage(d, s).value) == AdvanceStage(d, s)
  {
    AdvanceUnfolds(d, s);
    AdvanceKeeps(d, s);
    var t := AdvanceStage(d, s).value;
    AdvanceUnfolds(d, t);
    var id := s.currentStageId;
    var left := LeftEntry(StageOf(d, id), Entry(s.stageStates, id), true);
    PutOneEntry(s.stageStates, id, left);
    PutTwice(s.stageStates, id, left, LeftEntry(StageOf(d, id), left, true));
    assert LeftEntry(StageOf(d, id), left, true) == left;
  }

  // ---------------------------------------------------------------- a stage's stream of results

  /** The stage asks for a correct result, allows `limit` attempts and has a remediation policy. */
  predicate Remediable(stage: StageDefinition, limit: nat) {
    && stage.progressionRule == Some(ProgressionRule(OnEngineEvaluationCorrect, Some(limit)))
    && stage.remediationPolicy.Some?
  }

  /** Results that are not correct, mixed with anything but results and advances. */
  predicate IsStruggling(op: Op) {
    !op.Advance? && (op.Receive? ==> !IsCorrect(op.evaluation))
  }

  function ResultsIn(ops: seq<Op>): nat {
    Count(ops, (op: Op) => op.Receive?)
  }

  /** What the stage of `s` has become in `t` after `results` further results that were not correct. */
  ghost predicate HasStruggled(d: SequenceDefinition, s: SequenceState, t: SequenceState, limit: nat, results: nat)
    requires HasEntry(s.stageStates, s.currentStageId)
  {
    var id := s.currentStageId;
    && Consistent(d, t) && t.currentStageId == id
    && Entry(t.stageStates, id).attemptsForStage == Entry(s.stageStates, id).attemptsForStage + results
    && Entry(t.stageStates, id).remediationTriggered ==
         (Entry(s.stageStates, id).remediationTriggered
          || (results > 0 && Entry(t.stageStates, id).attemptsForStage >= limit))
    && (Entry(s.stageStates, id).status == InProgress ==> Entry(t.stageStates, id).status == InProgress)
  }

  lemma IncorrectResultCounts(d: SequenceDefinition, t: SequenceState, limit: nat, evaluation: EvaluationResult)
    requires WellFormed(d) && Consistent(d, t)
    requires Remediable(StageOf(d, t.currentStageId), limit) && !IsCorrect(evaluation)
    ensures HasStruggled(d, t, Apply(d, t, Receive(evaluation)), limit, 1)
  {
    var id := t.currentStageId;
    var stage := StageOf(d, id);
    ReceiveUnfolds(d, t, evaluation);
    ReceiveKeeps(d, t, evaluation);
    var (entry, _) := ReceivedEntry(stage, stage.progressionRule.value, Entry(t.stageStates, id), evaluation);
    PutOneEntry(t.stageStates, id, entry);
  }

  lemma HintCountsNothing(d: SequenceDefinition, t: SequenceState, limit: nat)
    requires WellFormed(d) && Consistent(d, t)
    ensures HasStruggled(d, t, Apply(d, t, Hint), limit, 0)
  {
    var id := t.currentStageId;
    HintKeeps(d, t);
    PutOneEntry(t.stageStates, id, CountHint(Entry(t.stageStates, id), MaxHintLevel(StageOf(d, id))));
  }

  /** Entering a stage, the current one or another, changes no count and no flag. */
  lemma EnteringCountsNothing(t: SequenceState, target: string)
    requires DistinctEntries(t.stageStates) && HasEntry(t.stageStates, t.currentStageId)
    ensures var entered := PutEntry(t.stageStates, target, EnteredEntry(t.stageStates, target));
            && HasEntry(entered, t.currentStageId)
            && var e, f := Entry(t.stageStates, t.currentStageId), Entry(entered, t.currentStageId);
               && f.attemptsForStage == e.attemptsForStage
               && f.remediationTriggered == e.remediationTriggered
               && (e.status == InProgress ==> f.status == InProgress)
  {
    PutOneEntry(t.stageStates, target, EnteredEntry(t.stageStates, target));
  }

  lemma RedirectCountsNothing(d: SequenceDefinition, t: SequenceState, limit: nat)
    requires WellFormed(d) && Consistent(d, t)
    ensures HasStruggled(d, t, Apply(d, t, Redirect), limit, 0)
  {
    RedirectKeeps(d, t);
    if ExpectedError(d, t, Redirect).None? {
      var target := StageOf(d, t.currentStageId).remediationPolicy.value.targetStageId.value;
      EnteringCountsNothing(t, target);
      assert Apply(d, t, Redirect)
          == t.(stageStates := PutEntry(t.stageStates, target, EnteredEntry(t.stageStates, target)));
    }
  }

  lemma BookkeepingCountsNothing(d: SequenceDefinition, t: SequenceState, limit: nat, op: Op)
    requires WellFormed(d) && Consistent(d, t)
    requires op.AddReference? || op.Abandon?
    ensures HasStruggled(d, t, Apply(d, t, op), limit, 0)
  {
    BookkeepingKeeps(d, t, op);
  }

  lemma StrugglesAddUp(d: SequenceDefinition, s: SequenceState, t: SequenceState, u: SequenceState, limit: nat,
                       m: nat, n: nat)
    requires HasEntry(s.stageStates, s.currentStageId) && HasEntry(t.stageStates, t.currentStageId)
    requires HasStruggled(d, s, t, limit, m) && HasStruggled(d, t, u, limit, n)
    ensures HasStruggled(d, s, u, limit, m + n)
  {
  }

  /**
   * Closed form of a stage's stream: results that are not correct are counted exactly, whatever
   * hints, redirects, references and abandons are mixed in; the flag goes up at the limit and
   * stays up; and the stage stays in progress.
   */
  lemma {:induction false} StruggleIsCounted(d: SequenceDefinition, s: SequenceState, limit: nat, ops: seq<Op>)
    requires WellFormed(d) && Consistent(d, s)
    requires Remediable(StageOf(d, s.currentStageId), limit)
    requires forall i :: 0 <= i < |ops| ==> IsStruggling(ops[i])
    ensures HasStruggled(d, s, RunFrom(d, s, ops), limit, ResultsIn(ops))
  {
    if |ops| > 0 {
      StruggleIsCounted(d, s, limit, Front(ops));
      var before := RunFrom(d, s, Front(ops));
      var op := Last(ops);
      assert IsStruggling(op) by { assert op == ops[|ops| - 1]; }
      if op.Receive? {
        IncorrectResultCounts(d, before, limit, op.evaluation);
      } else if op.Hint? {
        HintCountsNothing(d, before, limit);
      } else if op.Redirect? {
        RedirectCountsNothing(d, before, limit);
      } else {
        BookkeepingCountsNothing(d, before, limit, op);
      }
      StrugglesAddUp(d, s, before, RunFrom(d, s, ops), limit, ResultsIn(Front(ops)), if op.Receive? then 1 else 0);
    }
  }

  /** The answer to one more result depends on the attempts alone. */
  lemma NextResultIsJudged(d: SequenceDefinition, t: SequenceState, limit: nat, next: EvaluationResult)
    requires WellFormed(d) && Consistent(d, t) && Remediable(StageOf(d, t.currentStageId), limit)
    ensures ReceiveEngineResult(d, t, next).Ok?
    ensures ReceiveEngineResult(d, t, next).value.outcome ==
            if IsCorrect(next) then Advanced
            else if Attempts(t.stageStates, t.currentStageId) + 1 < limit then Retry
            else RemediationTriggered
  {
    ReceiveUnfolds(d, t, next);
  }

  /**
   * After any such stream, the next result answers RETRY while the attempts stay below the limit
   * and REMEDIATION_TRIGGERED from the limit on, and a correct one advances whatever came before.
   */
  lemma IncorrectStream(d: SequenceDefinition, s: SequenceState, limit: nat, ops: seq<Op>, next: EvaluationResult)
    requires WellFormed(d) && Consistent(d, s)
    requires Remediable(StageOf(d, s.currentStageId), limit)
    requires forall i :: 0 <= i < |ops| ==> IsStruggling(ops[i])
    ensures ReceiveEngineResult(d, RunFrom(d, s, ops), next).Ok?
    ensures ReceiveEngineResult(d, RunFrom(d, s, ops), next).value.outcome ==
            if IsCorrect(next) then Advanced
            else if Attempts(s.stageStates, s.currentStageId) + ResultsIn(ops) + 1 < limit then Retry
            else RemediationTriggered
  {
    StruggleIsCounted(d, s, limit, ops);
    NextResultIsJudged(d, RunFrom(d, s, ops), limit, next);
  }

  /** From the entry of a stage, the i-th incorrect result before any correct one is judged by i alone. */
  lemma StreamFromEntry(d: SequenceDefinition, s: SequenceState, limit: nat, ops: seq<Op>, next: EvaluationResult)
    requires WellFormed(d) && Consistent(d, s)
    requires Remediable(StageOf(d, s.currentStageId), limit)
    requires Attempts(s.stageStates, s.currentStageId) == 0
    requires !IsCorrect(next) && forall i :: 0 <= i < |ops| ==> IsStruggling(ops[i])
    ensures ReceiveEngineResult(d, RunFrom(d, s, ops), next).Ok?
    ensures var i := ResultsIn(ops) + 1;
            ReceiveEngineResult(d, RunFrom(d, s, ops), next).value.outcome ==
              if i < limit then Retry else RemediationTriggered
  {
    IncorrectStream(d, s, limit, ops, next);
  }

  // ---------------------------------------------------------------- where the code surprises

  /**
   * On a state that lacks an entry for its current stage, one result is counted
   * as two attempts: the created entry starts at one and is then incremented.
   * With an entry the count grows by exactly one.
   */
  lemma MissingEntryCountsTwice(d: SequenceDefinition, s: SequenceState, evaluation: EvaluationResult)
    requires DistinctEntries(s.stageStates) && Known(d, s.currentStageId)
    requires StageOf(d, s.currentStageId).progressionRule.Some?
    ensures ReceiveEngineResult(d, s, evaluation).Ok?
    ensures Attempts(ReceiveEngineResult(d, s, evaluation).value.state.stageStates, s.currentStageId) ==
            Attempts(s.stageStates, s.currentStageId) + if HasEntry(s.stageStates, s.currentStageId) then 1 else 2
  {
    ReceiveUnfolds(d, s, evaluation);
    var stage := StageOf(d, s.currentStageId);
    var (next, _) := ReceivedEntry(stage, stage.progressionRule.value, ReceivingEntry(s), evaluation);
    PutOneEntry(s.stageStates, s.currentStageId, next);
  }

  /** A redirect enters its target, completed or not, but never moves the current stage there. */
  lemma RedirectReopensWithoutMoving(d: SequenceDefinition, s: SequenceState)
    requires WellFormed(d) && Consistent(d, s)
    requires ExpectedError(d, s, Redirect) == None
    ensures RedirectToRemediationTarget(d, s).Ok?
    ensures var target := StageOf(d, s.currentStageId).remediationPolicy.value.targetStageId.value;
            var t := RedirectToRemediationTarget(d, s).value;
            && t.currentStageId == s.currentStageId
            && t.completion == s.completion
            && HasEntry(t.stageStates, target)
            && Entry(t.stageStates, target).status == InProgress
            && forall other :: other != target && HasEntry(s.stageStates, other) ==>
                 HasEntry(t.stageStates, other) && Entry(t.stageStates, other) == Entry(s.stageStates, other)
  {
    var target := StageOf(d, s.currentStageId).remediationPolicy.value.targetStageId.value;
    PutOneEntry(s.stageStates, target, EnteredEntry(s.stageStates, target));
  }
}
