/** Which runnable engine serves a stage. */
module EngineDispatch {
  import opened Prelude
  import opened EngineRegistries
  import opened SupportEvaluator
  import opened SupportProperties

  datatype ResolutionMode = ByRuntimeAdapterId | BySupportEvaluator

  datatype DispatchRef = DispatchRef(
    resolutionMode: ResolutionMode,
    runtimeAdapterId: Option<string>,
    requiredCapabilities: Option<seq<string>>)

  datatype Refusal =
    | NoDispatchRef
    | AdapterIdRequired
    | UnknownAdapterId
    | CapabilitiesRequired
    | RegistriesRequired
    | CapabilityOutsideVocabulary
    | NoEngineSelected
    | NoWebAdapter
    | NoRuntimeEngine

  datatype Resolution = Resolved(engine: RuntimeEngine) | Unresolved(reason: Refusal)

  /** The empty string is as good as none. */
  function Given(text: Option<string>): Option<string> {
    if text == Some("") then None else text
  }

  function WebAdapter(e: EngineEntry): Option<string> {
    var i := First(e.runtimeAdapters, (a: RuntimeAdapter) => a.channel == WebChannel);
    if i < |e.runtimeAdapters| then Given(Some(e.runtimeAdapters[i].runtimeAdapterId)) else None
  }

  /** The adapter of an engine is its first WEB one, unless that has an empty id. */
  lemma WebAdapterIsTheFirst(e: EngineEntry, id: string)
    ensures WebAdapter(e) == Some(id) <==>
      exists i :: 0 <= i < |e.runtimeAdapters| && e.runtimeAdapters[i] == RuntimeAdapter(WebChannel, id) && id != ""
               && forall j :: 0 <= j < i ==> e.runtimeAdapters[j].channel != WebChannel
  {
    var k := First(e.runtimeAdapters, (a: RuntimeAdapter) => a.channel == WebChannel);
    if k < |e.runtimeAdapters| {
      assert e.runtimeAdapters[k] == RuntimeAdapter(WebChannel, e.runtimeAdapters[k].runtimeAdapterId);
    }
  }

  /** Only the first two levels select one for dispatch; an empty id is as good as none here, too. */
  function SelectedEngine(o: Outcome): Option<string> {
    match o
    case Supported(e) => Given(Some(e))
    case SupportedWithTemplate(e, _) => Given(Some(e))
    case _ => None
  }

  /** The activity put to the evaluator; a dispatch states no preference. */
  function StageActivity(required: seq<string>): Activity {
    Activity(required, None)
  }

  predicate InVocabulary(required: seq<string>, vocabulary: set<string>) {
    forall c :: c in required ==> c in vocabulary
  }

  ghost predicate IsRunnable(runtime: seq<RuntimeEngine>, engine: RuntimeEngine, adapterId: Option<string>) {
    engine in runtime && adapterId == Some(engine.runtimeAdapterId)
  }

  /** What makes the evaluator mode resolve to `engine`. */
  ghost predicate EvaluatorSelects(
    required: seq<string>, governance: seq<EngineEntry>, templates: seq<TemplateEntry>, assessments: seq<Assessment>,
    runtime: seq<RuntimeEngine>, engine: RuntimeEngine)
  {
    var selected := SelectedEngine(Evaluate(StageActivity(required), governance, templates, assessments));
    && required != []
    && selected.Some? && GetEngine(governance, selected.value).Some?
    && IsRunnable(runtime, engine, WebAdapter(GetEngine(governance, selected.value).value))
  }

  /** The first thing that is missing. */
  function RefusalFor(
    dispatch: Option<DispatchRef>, runtime: seq<RuntimeEngine>, governance: Option<seq<EngineEntry>>,
    templates: Option<seq<TemplateEntry>>, options: Option<Option<seq<Assessment>>>, vocabulary: set<string>): Refusal
  {
    if dispatch.None? then NoDispatchRef
    else if dispatch.value.resolutionMode == ByRuntimeAdapterId then
      if dispatch.value.runtimeAdapterId in {None, Some("")} then AdapterIdRequired else UnknownAdapterId
    else if dispatch.value.requiredCapabilities in {None, Some([])} then CapabilitiesRequired
    else if governance.None? || templates.None? || options.None? then RegistriesRequired
    else if !InVocabulary(dispatch.value.requiredCapabilities.value, vocabulary) then CapabilityOutsideVocabulary
    else
      var outcome := Evaluate(StageActivity(dispatch.value.requiredCapabilities.value), governance.value, templates.value,
                              AssessmentsOf(options.value));
      if SelectedEngine(outcome).None? then NoEngineSelected
      else
        var entry := GetEngine(governance.value, SelectedEngine(outcome).value);
        if entry.None? || WebAdapter(entry.value).None? then NoWebAdapter else NoRuntimeEngine
  }

  /** No fallback: an engine is returned only if it is the one that the mode names. */
  method ResolveEngineDispatch(
      dispatch: Option<DispatchRef>,
      runtimeRegistry: EngineRuntimeRegistry,
      governanceRegistry: EngineRegistry?,
      templateRegistry: TemplateRegistry?,
      options: Option<Option<seq<Assessment>>>,
      vocabulary: set<string>)
    returns (r: Resolution)
    requires runtimeRegistry.Valid()
    requires governanceRegistry != null ==> governanceRegistry.Valid()
    ensures dispatch.None? ==> r == Unresolved(NoDispatchRef)
    ensures dispatch.Some? && dispatch.value.resolutionMode == ByRuntimeAdapterId ==>
      forall engine :: r == Resolved(engine)
        <==> IsRunnable(runtimeRegistry.engines, engine, Given(dispatch.value.runtimeAdapterId))
    ensures dispatch.Some? && dispatch.value.resolutionMode == BySupportEvaluator ==>
      forall engine :: r == Resolved(engine)
        <==> && dispatch.value.requiredCapabilities.Some?
             && governanceRegistry != null && templateRegistry != null && options.Some?
             && InVocabulary(dispatch.value.requiredCapabilities.value, vocabulary)
             && EvaluatorSelects(dispatch.value.requiredCapabilities.value, governanceRegistry.entries,
                                 templateRegistry.templates, AssessmentsOf(options.value),
                                 runtimeRegistry.engines, engine)
    ensures r.Unresolved? ==> r.reason == RefusalFor(
      dispatch, runtimeRegistry.engines,
      if governanceRegistry != null then Some(governanceRegistry.entries) else None,
      if templateRegistry != null then Some(templateRegistry.templates) else None, options, vocabulary)
  {
    if dispatch.None? {
      return Unresolved(NoDispatchRef);
    }
    if dispatch.value.resolutionMode == ByRuntimeAdapterId {
      var id := Given(dispatch.value.runtimeAdapterId);
      if id.None? {
        return Unresolved(AdapterIdRequired);
      }
      var found := runtimeRegistry.GetByRuntimeAdapterId(id.value);
      OnlyOneIsRunnable(runtimeRegistry.engines, id.value);
      return if found.Some? then Resolved(found.value) else Unresolved(UnknownAdapterId);
    }
    if dispatch.value.requiredCapabilities.None? || dispatch.value.requiredCapabilities.value == [] {
      return Unresolved(CapabilitiesRequired);
    }
    var required := dispatch.value.requiredCapabilities.value;
    if governanceRegistry == null || templateRegistry == null || options.None? {
      return Unresolved(RegistriesRequired);
    }
    if !InVocabulary(required, vocabulary) {
      return Unresolved(CapabilityOutsideVocabulary);
    }
    var evaluation := EvaluateSupport(StageActivity(required), governanceRegistry, templateRegistry, options.value);
    var selected := SelectedEngine(evaluation.value);
    if selected.None? {
      return Unresolved(NoEngineSelected);
    }
    var entry := GetEngine(governanceRegistry.entries, selected.value);
    var adapterId := if entry.Some? then WebAdapter(entry.value) else None;
    if adapterId.None? {
      return Unresolved(NoWebAdapter);
    }
    var engine := runtimeRegistry.GetByRuntimeAdapterId(adapterId.value);
    OnlyOneIsRunnable(runtimeRegistry.engines, adapterId.value);
    return if engine.Some? then Resolved(engine.value) else Unresolved(NoRuntimeEngine);
  }

  lemma OnlyOneIsRunnable(runtime: seq<RuntimeEngine>, id: string)
    requires DistinctAdapters(runtime)
    ensures forall e, f :: IsRunnable(runtime, e, Some(id)) && IsRunnable(runtime, f, Some(id)) ==> e == f
  {
  }

  // ---------------------------------------------------------------- the engine that runs is the engine selected

  predicate IsDispatchable(e: EngineEntry) {
    e.lifecycleStatus == Active && e.canonicalEngineId != ""
  }

  /** A runnable engine behind a dispatchable entry's first WEB adapter is that entry's engine. */
  ghost predicate AdaptersAgree(governance: seq<EngineEntry>, runtime: seq<RuntimeEngine>) {
    forall e, r :: e in governance && IsDispatchable(e) && IsRunnable(runtime, r, WebAdapter(e)) ==>
      r.canonicalEngineId == e.canonicalEngineId
  }

  lemma SelectedIsActive(
    required: seq<string>, governance: seq<EngineEntry>, templates: seq<TemplateEntry>, assessments: seq<Assessment>)
    requires DistinctEngines(governance)
    ensures var selected := SelectedEngine(Evaluate(StageActivity(required), governance, templates, assessments));
      selected.Some? ==> IsActive(governance, selected.value)
  {
    match Evaluate(StageActivity(required), governance, templates, assessments) {
      case Supported(_) =>
        var e := FirstAdmittedIsBest(StageActivity(required), governance, templates, assessments);
        GetsItself(governance, e);
      case SupportedWithTemplate(_, _) =>
        var t := SelectedTemplateIsAdmissible(StageActivity(required), governance, templates, assessments);
      case _ =>
    }
  }

  lemma GetsItself(governance: seq<EngineEntry>, e: EngineEntry)
    requires DistinctEngines(governance) && e in governance
    ensures GetEngine(governance, e.canonicalEngineId) == Some(e)
  {
    var k :| 0 <= k < |governance| && governance[k] == e;
    assert EngineIndex(governance, e.canonicalEngineId) == k;
  }

  function Lossy(id: string): Assessment {
    Assessment(id, None, false, false, false, false, false, None)
  }

  /** Assessments that rule out every engine on its own. */
  function VetoAll(governance: seq<EngineEntry>): seq<Assessment> {
    seq(|governance|, i requires 0 <= i < |governance| => Lossy(governance[i].canonicalEngineId))
  }

  lemma VetoAllVetoes(governance: seq<EngineEntry>, f: EngineEntry)
    requires f in governance
    ensures !AdmitsEngine(VetoAll(governance), f)
  {
    var k :| 0 <= k < |governance| && governance[k] == f;
    var assessments := VetoAll(governance);
    assert assessments[k] == Lossy(f.canonicalEngineId);
    assert assessments[k] in assessments;
    assert IsAbout(assessments[k], f.canonicalEngineId, None);
  }

  lemma VetoAllSparesTemplates(governance: seq<EngineEntry>, id: string, templateId: string)
    ensures Losses(VetoAll(governance), id, Some(templateId)) == []
  {
  }

  /** Any ACTIVE engine can be the selected one, through a template on it. */
  lemma AnyActiveEngineCanBeSelected(governance: seq<EngineEntry>, e: EngineEntry, capability: string)
    requires DistinctEngines(governance) && e in governance && e.lifecycleStatus == Active
    ensures Evaluate(StageActivity([capability]), governance,
                     [TemplateEntry("t", "1", e.canonicalEngineId, [capability])], VetoAll(governance))
         == SupportedWithTemplate(e.canonicalEngineId, "t")
  {
    var activity := StageActivity([capability]);
    var templates := [TemplateEntry("t", "1", e.canonicalEngineId, [capability])];
    var assessments := VetoAll(governance);
    LevelIsHighestAvailable(activity, governance, templates, assessments);
    forall f ensures !EngineIsAdmissible(activity, governance, assessments, f) {
      if f in governance {
        VetoAllVetoes(governance, f);
      }
    }
    GetsItself(governance, e);
    VetoAllSparesTemplates(governance, e.canonicalEngineId, "t");
    assert TemplateIsAdmissible(activity, governance, templates, assessments, templates[0]);
    var t := SelectedTemplateIsAdmissible(activity, governance, templates, assessments);
  }

  lemma AgreeingAdaptersRunTheSelected(
    required: seq<string>, governance: seq<EngineEntry>, templates: seq<TemplateEntry>, assessments: seq<Assessment>,
    runtime: seq<RuntimeEngine>, r: RuntimeEngine)
    requires DistinctEngines(governance) && AdaptersAgree(governance, runtime)
    requires EvaluatorSelects(required, governance, templates, assessments, runtime, r)
    ensures SelectedEngine(Evaluate(StageActivity(required), governance, templates, assessments))
         == Some(r.canonicalEngineId)
  {
    SelectedIsActive(required, governance, templates, assessments);
  }

  lemma DisagreeingAdapterRunsAnother(governance: seq<EngineEntry>, runtime: seq<RuntimeEngine>, capability: string,
                                      e: EngineEntry, r: RuntimeEngine)
    requires DistinctEngines(governance) && e in governance && IsDispatchable(e)
    requires IsRunnable(runtime, r, WebAdapter(e)) && r.canonicalEngineId != e.canonicalEngineId
    ensures var templates := [TemplateEntry("t", "1", e.canonicalEngineId, [capability])];
      && EvaluatorSelects([capability], governance, templates, VetoAll(governance), runtime, r)
      && SelectedEngine(Evaluate(StageActivity([capability]), governance, templates, VetoAll(governance)))
         != Some(r.canonicalEngineId)
  {
    AnyActiveEngineCanBeSelected(governance, e, capability);
    GetsItself(governance, e);
  }

  /**
   * The dispatcher never compares the runnable engine's canonical id with the selected one. They
   * are equal for every request exactly when the two registries agree about WEB adapters.
   */
  lemma DispatchRunsTheSelectedEngineIffAdaptersAgree(
    governance: seq<EngineEntry>, runtime: seq<RuntimeEngine>, vocabulary: set<string>)
    requires DistinctEngines(governance) && DistinctAdapters(runtime) && vocabulary != {}
    ensures AdaptersAgree(governance, runtime) <==>
      forall required, templates, assessments, r |
        InVocabulary(required, vocabulary) && EvaluatorSelects(required, governance, templates, assessments, runtime, r) ::
        SelectedEngine(Evaluate(StageActivity(required), governance, templates, assessments)) == Some(r.canonicalEngineId)
  {
    if AdaptersAgree(governance, runtime) {
      forall required, templates, assessments, r |
        EvaluatorSelects(required, governance, templates, assessments, runtime, r)
        ensures SelectedEngine(Evaluate(StageActivity(required), governance, templates, assessments))
             == Some(r.canonicalEngineId)
      {
        AgreeingAdaptersRunTheSelected(required, governance, templates, assessments, runtime, r);
      }
    } else {
      var e, r :| e in governance && IsDispatchable(e) && IsRunnable(runtime, r, WebAdapter(e))
                  && r.canonicalEngineId != e.canonicalEngineId;
      var capability :| capability in vocabulary;
      assert InVocabulary([capability], vocabulary);
      DisagreeingAdapterRunsAnother(governance, runtime, capability, e, r);
    }
  }
}
