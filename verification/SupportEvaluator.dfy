/**
 * Choosing an engine for an activity: exact match, then template, then declared
 * limitations, then a gap report.
 */
module SupportEvaluator {
  import opened Prelude
  import opened StableSorting
  import opened EngineRegistries

  datatype Dimension = PedagogicalObjective | ReasoningType | InteractionModel | EvidenceModel | EvaluationModel

  datatype Limitation = Limitation(description: string, pedagogicallySubstantial: bool)

  datatype Assessment = Assessment(
    canonicalEngineId: string,
    templateId: Option<string>,
    preservesPedagogicalObjective: bool,
    preservesReasoningType: bool,
    preservesInteractionModel: bool,
    preservesEvidenceModel: bool,
    preservesEvaluationModel: bool,
    limitations: Option<seq<Limitation>>)

  datatype Activity = Activity(requiredCapabilities: seq<string>, preferredCanonicalEngineIds: Option<seq<string>>)

  datatype Reason =
    | RegistryIsEmpty
    | EngineLoses(canonicalEngineId: string, lost: seq<Dimension>)
    | TemplateLoses(templateId: string, canonicalEngineId: string, lost: seq<Dimension>)
    | LimitationLoses(canonicalEngineId: string, lost: seq<Dimension>)
    | NothingDeclares(required: seq<string>)

  datatype Resolution = NewEngine | NoResolutionAvailable

  datatype GapReport = GapReport(
    evaluatedEngines: seq<string>,
    evaluatedTemplates: seq<string>,
    incompatibilityReasons: seq<Reason>,
    recommendedResolution: Resolution)

  datatype Outcome =
    | Supported(selectedEngine: string)
    | SupportedWithTemplate(selectedEngine: string, selectedTemplate: string)
    | SupportedWithLimitations(selectedEngine: string, limitations: seq<Limitation>)
    | EngineGap(report: GapReport)

  predicate PreservesAllDimensions(a: Assessment) {
    && a.preservesPedagogicalObjective
    && a.preservesReasoningType
    && a.preservesInteractionModel
    && a.preservesEvidenceModel
    && a.preservesEvaluationModel
  }

  function ViolatedDimensions(a: Assessment): (lost: seq<Dimension>)
    ensures lost == [] <==> PreservesAllDimensions(a)
    ensures Distinct(lost)
  {
    (if a.preservesPedagogicalObjective then [] else [PedagogicalObjective])
    + (if a.preservesReasoningType then [] else [ReasoningType])
    + (if a.preservesInteractionModel then [] else [InteractionModel])
    + (if a.preservesEvidenceModel then [] else [EvidenceModel])
    + (if a.preservesEvaluationModel then [] else [EvaluationModel])
  }

  predicate IsAbout(a: Assessment, canonicalEngineId: string, templateId: Option<string>) {
    a.canonicalEngineId == canonicalEngineId && a.templateId == templateId
  }

  /** The first assessment of that engine and template. */
  function FindAssessment(assessments: seq<Assessment>, canonicalEngineId: string, templateId: Option<string>)
    : (found: Option<Assessment>)
    ensures found.Some? ==> found.value in assessments && IsAbout(found.value, canonicalEngineId, templateId)
    ensures found.None? ==> forall a :: a in assessments ==> !IsAbout(a, canonicalEngineId, templateId)
  {
    var i := First(assessments, (a: Assessment) => IsAbout(a, canonicalEngineId, templateId));
    if i < |assessments| then Some(assessments[i]) else None
  }

  /** The dimensions its first assessment gives up; none without an assessment. */
  function Losses(assessments: seq<Assessment>, canonicalEngineId: string, templateId: Option<string>): seq<Dimension> {
    var found := FindAssessment(assessments, canonicalEngineId, templateId);
    if found.Some? then ViolatedDimensions(found.value) else []
  }

  predicate IsActive(engines: seq<EngineEntry>, canonicalEngineId: string) {
    var found := GetEngine(engines, canonicalEngineId);
    found.Some? && found.value.lifecycleStatus == Active
  }

  /** Position among the preferred ids; the unlisted come last, together. */
  function PreferenceRank(activity: Activity, canonicalEngineId: string): (rank: nat) {
    match activity.preferredCanonicalEngineIds
    case None => 0
    case Some(preferred) => First(preferred, (id: string) => id == canonicalEngineId)
  }

  // ---------------------------------------------------------------- admissible candidates

  predicate AdmitsEngine(assessments: seq<Assessment>, e: EngineEntry) {
    Losses(assessments, e.canonicalEngineId, None) == []
  }

  predicate AdmitsTemplate(engines: seq<EngineEntry>, assessments: seq<Assessment>, t: TemplateEntry) {
    && IsActive(engines, t.canonicalEngineId)
    && Losses(assessments, t.canonicalEngineId, Some(t.templateId)) == []
  }

  predicate HasLimitations(engines: seq<EngineEntry>, a: Assessment) {
    a.limitations.Some? && a.limitations.value != [] && IsActive(engines, a.canonicalEngineId)
  }

  predicate AdmitsLimitations(engines: seq<EngineEntry>, a: Assessment) {
    && HasLimitations(engines, a)
    && PreservesAllDimensions(a)
    && forall l :: l in a.limitations.value ==> !l.pedagogicallySubstantial
  }

  /** The three tests as predicates of their candidate. */
  function EngineTest(assessments: seq<Assessment>): EngineEntry -> bool {
    (e: EngineEntry) => AdmitsEngine(assessments, e)
  }

  function TemplateTest(engines: seq<EngineEntry>, assessments: seq<Assessment>): TemplateEntry -> bool {
    (t: TemplateEntry) => AdmitsTemplate(engines, assessments, t)
  }

  function LimitationTest(engines: seq<EngineEntry>): Assessment -> bool {
    (a: Assessment) => AdmitsLimitations(engines, a)
  }

  function SortedExactMatches(activity: Activity, engines: seq<EngineEntry>): seq<EngineEntry> {
    SortBy(ExactMatches(engines, activity.requiredCapabilities),
           (e: EngineEntry) => PreferenceRank(activity, e.canonicalEngineId))
  }

  // ---------------------------------------------------------------- reasons

  function Collect<T>(s: seq<T>, reasons: T -> seq<Reason>): seq<Reason> {
    if |s| == 0 then [] else Collect(Front(s), reasons) + reasons(Last(s))
  }

  function EngineReasons(assessments: seq<Assessment>, e: EngineEntry): seq<Reason> {
    var lost := Losses(assessments, e.canonicalEngineId, None);
    if lost == [] then [] else [EngineLoses(e.canonicalEngineId, lost)]
  }

  function TemplateReasons(engines: seq<EngineEntry>, assessments: seq<Assessment>, t: TemplateEntry): seq<Reason> {
    var lost := Losses(assessments, t.canonicalEngineId, Some(t.templateId));
    if !IsActive(engines, t.canonicalEngineId) || lost == [] then []
    else [TemplateLoses(t.templateId, t.canonicalEngineId, lost)]
  }

  function LimitationReasons(engines: seq<EngineEntry>, a: Assessment): seq<Reason> {
    if !HasLimitations(engines, a) || PreservesAllDimensions(a) then []
    else [LimitationLoses(a.canonicalEngineId, ViolatedDimensions(a))]
  }

  function EngineComplaint(assessments: seq<Assessment>): EngineEntry -> seq<Reason> {
    (e: EngineEntry) => EngineReasons(assessments, e)
  }

  function TemplateComplaint(engines: seq<EngineEntry>, assessments: seq<Assessment>): TemplateEntry -> seq<Reason> {
    (t: TemplateEntry) => TemplateReasons(engines, assessments, t)
  }

  function LimitationComplaint(engines: seq<EngineEntry>): Assessment -> seq<Reason> {
    (a: Assessment) => LimitationReasons(engines, a)
  }

  /** Everything the three passes complain about when none of them admits a candidate. */
  function Complaints(
    activity: Activity, engines: seq<EngineEntry>, templates: seq<TemplateEntry>, assessments: seq<Assessment>)
    : seq<Reason>
  {
    (if engines == [] then [RegistryIsEmpty] else [])
    + Collect(SortedExactMatches(activity, engines), EngineComplaint(assessments))
    + Collect(CoveringTemplates(templates, activity.requiredCapabilities),
              TemplateComplaint(engines, assessments))
    + Collect(assessments, LimitationComplaint(engines))
  }

  function IdsOf(engines: seq<EngineEntry>): seq<string> {
    seq(|engines|, i requires 0 <= i < |engines| => engines[i].canonicalEngineId)
  }

  function TemplateIdsOf(templates: seq<TemplateEntry>): seq<string> {
    seq(|templates|, i requires 0 <= i < |templates| => templates[i].templateId)
  }

  function GapOf(
    activity: Activity, engines: seq<EngineEntry>, templates: seq<TemplateEntry>, assessments: seq<Assessment>)
    : GapReport
  {
    var complaints := Complaints(activity, engines, templates, assessments);
    GapReport(
      IdsOf(engines),
      TemplateIdsOf(templates),
      if complaints == [] then [NothingDeclares(activity.requiredCapabilities)] else complaints,
      if engines == [] then NewEngine else NoResolutionAvailable)
  }

  /** The first admissible candidate of the highest level that has one. */
  function Evaluate(
    activity: Activity, engines: seq<EngineEntry>, templates: seq<TemplateEntry>, assessments: seq<Assessment>)
    : Outcome
  {
    var exact := SortedExactMatches(activity, engines);
    var covering := CoveringTemplates(templates, activity.requiredCapabilities);
    var i := First(exact, EngineTest(assessments));
    var j := First(covering, TemplateTest(engines, assessments));
    var k := First(assessments, LimitationTest(engines));
    if i < |exact| then Supported(exact[i].canonicalEngineId)
    else if j < |covering| then SupportedWithTemplate(covering[j].canonicalEngineId, covering[j].templateId)
    else if k < |assessments| then
      SupportedWithLimitations(assessments[k].canonicalEngineId, assessments[k].limitations.value)
    else EngineGap(GapOf(activity, engines, templates, assessments))
  }

  // ---------------------------------------------------------------- the loops

  /** Err stands for the "at least one incompatibilityReason" error. */
  function BuildEngineGapReport(report: GapReport): Result<GapReport, string> {
    if report.incompatibilityReasons == []
    then Err("EngineGapReport requires at least one incompatibilityReason")
    else Ok(report)
  }

  lemma FirstUpTo<T>(s: seq<T>, ok: T -> bool, i: nat)
    requires i <= |s|
    requires forall j :: 0 <= j < i ==> !ok(s[j])
    ensures i == |s| || ok(s[i]) ==> First(s, ok) == i
  {
  }

  lemma CollectNext<T>(s: seq<T>, reasons: T -> seq<Reason>, i: nat)
    requires i < |s|
    ensures Collect(s[..i + 1], reasons) == Collect(s[..i], reasons) + reasons(s[i])
  {
    assert Front(s[..i + 1]) == s[..i];
  }

  datatype Verdict = Admitted | Skipped | Rejected(reason: Reason)

  function Complaint(v: Verdict): seq<Reason> {
    if v.Rejected? then [v.reason] else []
  }

  function JudgeEngine(assessments: seq<Assessment>, e: EngineEntry): (v: Verdict)
    ensures v.Admitted? <==> EngineTest(assessments)(e)
    ensures Complaint(v) == EngineComplaint(assessments)(e)
  {
    var assessment := FindAssessment(assessments, e.canonicalEngineId, None);
    if assessment.Some? && !PreservesAllDimensions(assessment.value) then
      Rejected(EngineLoses(e.canonicalEngineId, ViolatedDimensions(assessment.value)))
    else Admitted
  }

  function JudgeTemplate(engines: seq<EngineEntry>, assessments: seq<Assessment>, t: TemplateEntry): (v: Verdict)
    ensures v.Admitted? <==> TemplateTest(engines, assessments)(t)
    ensures Complaint(v) == TemplateComplaint(engines, assessments)(t)
  {
    if !IsActive(engines, t.canonicalEngineId) then Skipped
    else
      var assessment := FindAssessment(assessments, t.canonicalEngineId, Some(t.templateId));
      if assessment.Some? && !PreservesAllDimensions(assessment.value) then
        Rejected(TemplateLoses(t.templateId, t.canonicalEngineId, ViolatedDimensions(assessment.value)))
      else Admitted
  }

  function JudgeLimitations(engines: seq<EngineEntry>, a: Assessment): (v: Verdict)
    ensures v.Admitted? <==> LimitationTest(engines)(a)
    ensures Complaint(v) == LimitationComplaint(engines)(a)
  {
    if a.limitations.None? || a.limitations.value == [] || !IsActive(engines, a.canonicalEngineId) then Skipped
    else if !PreservesAllDimensions(a) then Rejected(LimitationLoses(a.canonicalEngineId, ViolatedDimensions(a)))
    else if exists l :: l in a.limitations.value && l.pedagogicallySubstantial then Skipped
    else Admitted
  }

  /** The loop that all three passes share: stop at the first candidate admitted, note why others are rejected. */
  method Search<T(!new)>(candidates: seq<T>, judge: T -> Verdict, ghost admits: T -> bool, ghost complains: T -> seq<Reason>)
    returns (i: nat, reasons: seq<Reason>)
    requires forall x :: (judge(x).Admitted? <==> admits(x)) && Complaint(judge(x)) == complains(x)
    ensures i == First(candidates, admits)
    ensures i == |candidates| ==> reasons == Collect(candidates, complains)
  {
    i, reasons := 0, [];
    while i < |candidates|
      invariant i <= |candidates|
      invariant forall j :: 0 <= j < i ==> !admits(candidates[j])
      invariant reasons == Collect(candidates[..i], complains)
    {
      CollectNext(candidates, complains, i);
      FirstUpTo(candidates, admits, i);
      var verdict := judge(candidates[i]);
      if verdict.Admitted? {
        return;
      }
      reasons := reasons + Complaint(verdict);
      i := i + 1;
    }
    FirstUpTo(candidates, admits, i);
    assert candidates[..i] == candidates;
  }

  /** First pass: the ACTIVE covering engines in preference order. */
  method TryEngines(exact: seq<EngineEntry>, assessments: seq<Assessment>) returns (i: nat, reasons: seq<Reason>)
    ensures i == First(exact, EngineTest(assessments))
    ensures i == |exact| ==> reasons == Collect(exact, EngineComplaint(assessments))
  {
    i, reasons := Search(exact, (e: EngineEntry) => JudgeEngine(assessments, e),
                         EngineTest(assessments), EngineComplaint(assessments));
  }

  /** Second pass: the covering templates. */
  method TryTemplates(covering: seq<TemplateEntry>, engines: seq<EngineEntry>, assessments: seq<Assessment>)
    returns (i: nat, reasons: seq<Reason>)
    ensures i == First(covering, TemplateTest(engines, assessments))
    ensures i == |covering| ==> reasons == Collect(covering, TemplateComplaint(engines, assessments))
  {
    i, reasons := Search(covering, (t: TemplateEntry) => JudgeTemplate(engines, assessments, t),
                         TemplateTest(engines, assessments), TemplateComplaint(engines, assessments));
  }

  /** Third pass: the assessments themselves. */
  method TryLimitations(engines: seq<EngineEntry>, assessments: seq<Assessment>)
    returns (i: nat, reasons: seq<Reason>)
    ensures i == First(assessments, LimitationTest(engines))
    ensures i == |assessments| ==> reasons == Collect(assessments, LimitationComplaint(engines))
  {
    i, reasons := Search(assessments, (a: Assessment) => JudgeLimitations(engines, a),
                         LimitationTest(engines), LimitationComplaint(engines));
  }

  function AssessmentsOf(fidelityAssessments: Option<seq<Assessment>>): seq<Assessment> {
    if fidelityAssessments.Some? then fidelityAssessments.value else []
  }

  /** Err stands for the report builder's error; it does not occur. */
  method EvaluateSupport(
      activity: Activity,
      registry: EngineRegistry,
      templateRegistry: TemplateRegistry,
      fidelityAssessments: Option<seq<Assessment>>)
    returns (result: Result<Outcome, string>)
    ensures result == Ok(Evaluate(activity, registry.entries, templateRegistry.templates,
                                  AssessmentsOf(fidelityAssessments)))
  {
    var assessments := AssessmentsOf(fidelityAssessments);
    var engines, templates := registry.entries, templateRegistry.templates;
    var reasons: seq<Reason> := if engines == [] then [RegistryIsEmpty] else [];

    var exact := SortedExactMatches(activity, engines);
    var i, engineReasons := TryEngines(exact, assessments);
    if i < |exact| {
      return Ok(Supported(exact[i].canonicalEngineId));
    }

    var covering := CoveringTemplates(templates, activity.requiredCapabilities);
    var j, templateReasons := TryTemplates(covering, engines, assessments);
    if j < |covering| {
      return Ok(SupportedWithTemplate(covering[j].canonicalEngineId, covering[j].templateId));
    }

    var k, limitationReasons := TryLimitations(engines, assessments);
    if k < |assessments| {
      return Ok(SupportedWithLimitations(assessments[k].canonicalEngineId, assessments[k].limitations.value));
    }

    reasons := reasons + engineReasons + templateReasons + limitationReasons;
    if reasons == [] {
      reasons := [NothingDeclares(activity.requiredCapabilities)];
    }
    var report := BuildEngineGapReport(
      GapReport(IdsOf(engines), TemplateIdsOf(templates), reasons,
                if engines == [] then NewEngine else NoResolutionAvailable));
    match report {
      case Ok(r) => result := Ok(EngineGap(r));
      case Err(e) => result := Err(e);
    }
  }
}
