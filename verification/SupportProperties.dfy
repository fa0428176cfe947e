/** What the evaluation promises: the best candidate, the highest level, and an honest gap. */
module SupportProperties {
  import opened Prelude
  import opened StableSorting
  import opened EngineRegistries
  import opened SupportEvaluator

  // ---------------------------------------------------------------- searching

  lemma FirstFinds<T>(s: seq<T>, ok: T -> bool)
    ensures First(s, ok) < |s| <==> exists x :: x in s && ok(x)
  {
    if First(s, ok) < |s| {
      assert s[First(s, ok)] in s;
    }
  }

  lemma {:induction false} CollectMembers<T>(s: seq<T>, reasons: T -> seq<Reason>, r: Reason)
    ensures r in Collect(s, reasons) <==> exists x :: x in s && r in reasons(x)
  {
    if |s| > 0 {
      CollectMembers(Front(s), reasons, r);
      assert s == Front(s) + [Last(s)];
    }
  }

  lemma FilteredIsMember<T>(s: seq<T>, keep: T -> bool, i: nat)
    requires i < |Filter(s, keep)|
    ensures Filter(s, keep)[i] in s
  {
    FilterMembers(s, keep);
    assert Filter(s, keep)[i] in Filter(s, keep);
  }

  lemma {:induction false} FilterKeepsPositions<T>(s: seq<T>, keep: T -> bool, pos: T -> int)
    requires forall i, j :: 0 <= i < j < |s| ==> pos(s[i]) < pos(s[j])
    ensures forall i, j :: 0 <= i < j < |Filter(s, keep)| ==> pos(Filter(s, keep)[i]) < pos(Filter(s, keep)[j])
  {
    if |s| > 0 {
      FilterKeepsPositions(Front(s), keep, pos);
      var front := Filter(Front(s), keep);
      forall i | 0 <= i < |front| ensures pos(front[i]) < pos(Last(s)) {
        FilteredIsMember(Front(s), keep, i);
        var k :| 0 <= k < |Front(s)| && Front(s)[k] == front[i];
        assert s[k] == front[i];
      }
    }
  }

  lemma ExactMatchMembers(activity: Activity, engines: seq<EngineEntry>, e: EngineEntry)
    ensures e in SortedExactMatches(activity, engines)
      <==> e in engines && IsExactMatch(e, activity.requiredCapabilities)
  {
    var required := activity.requiredCapabilities;
    FilterMembers(engines, (e: EngineEntry) => IsExactMatch(e, required));
    SortIsOrderedPermutation(ExactMatches(engines, required),
                             (e: EngineEntry) => PreferenceRank(activity, e.canonicalEngineId));
  }

  lemma CoveringMembers(templates: seq<TemplateEntry>, required: seq<string>, t: TemplateEntry)
    ensures t in CoveringTemplates(templates, required) <==> t in templates && Covers(t.requiredCapabilities, required)
  {
    FilterMembers(templates, (t: TemplateEntry) => Covers(t.requiredCapabilities, required));
  }

  // ---------------------------------------------------------------- levels

  ghost predicate EngineIsAdmissible(
    activity: Activity, engines: seq<EngineEntry>, assessments: seq<Assessment>, e: EngineEntry)
  {
    e in engines && IsExactMatch(e, activity.requiredCapabilities) && AdmitsEngine(assessments, e)
  }

  ghost predicate TemplateIsAdmissible(
    activity: Activity, engines: seq<EngineEntry>, templates: seq<TemplateEntry>, assessments: seq<Assessment>,
    t: TemplateEntry)
  {
    && t in templates
    && Covers(t.requiredCapabilities, activity.requiredCapabilities)
    && AdmitsTemplate(engines, assessments, t)
  }

  ghost predicate LimitationIsAdmissible(engines: seq<EngineEntry>, assessments: seq<Assessment>, a: Assessment) {
    a in assessments && AdmitsLimitations(engines, a)
  }

  /** 0 is best. */
  function Level(o: Outcome): nat {
    match o
    case Supported(_) => 0
    case SupportedWithTemplate(_, _) => 1
    case SupportedWithLimitations(_, _) => 2
    case EngineGap(_) => 3
  }

  lemma EngineLevel(activity: Activity, engines: seq<EngineEntry>, assessments: seq<Assessment>)
    ensures var exact := SortedExactMatches(activity, engines);
      First(exact, EngineTest(assessments)) < |exact|
      <==> exists e :: EngineIsAdmissible(activity, engines, assessments, e)
  {
    var exact := SortedExactMatches(activity, engines);
    FirstFinds(exact, EngineTest(assessments));
    forall e ensures e in exact && EngineTest(assessments)(e) <==> EngineIsAdmissible(activity, engines, assessments, e)
    {
      ExactMatchMembers(activity, engines, e);
    }
  }

  lemma TemplateLevel(
    activity: Activity, engines: seq<EngineEntry>, templates: seq<TemplateEntry>, assessments: seq<Assessment>)
    ensures var covering := CoveringTemplates(templates, activity.requiredCapabilities);
      First(covering, TemplateTest(engines, assessments)) < |covering|
      <==> exists t :: TemplateIsAdmissible(activity, engines, templates, assessments, t)
  {
    var covering := CoveringTemplates(templates, activity.requiredCapabilities);
    FirstFinds(covering, TemplateTest(engines, assessments));
    forall t ensures t in covering && TemplateTest(engines, assessments)(t)
      <==> TemplateIsAdmissible(activity, engines, templates, assessments, t)
    {
      CoveringMembers(templates, activity.requiredCapabilities, t);
    }
  }

  lemma LimitationLevel(engines: seq<EngineEntry>, assessments: seq<Assessment>)
    ensures First(assessments, LimitationTest(engines)) < |assessments|
      <==> exists a :: LimitationIsAdmissible(engines, assessments, a)
  {
    FirstFinds(assessments, LimitationTest(engines));
    assert forall a ::
      LimitationIsAdmissible(engines, assessments, a) <==> a in assessments && LimitationTest(engines)(a);
  }

  /** A level is used exactly when it has a candidate and no higher level has one. */
  lemma LevelIsHighestAvailable(
    activity: Activity, engines: seq<EngineEntry>, templates: seq<TemplateEntry>, assessments: seq<Assessment>)
    ensures var level := Level(Evaluate(activity, engines, templates, assessments));
      var byEngine := exists e :: EngineIsAdmissible(activity, engines, assessments, e);
      var byTemplate := exists t :: TemplateIsAdmissible(activity, engines, templates, assessments, t);
      var byLimitation := exists a :: LimitationIsAdmissible(engines, assessments, a);
      level == if byEngine then 0 else if byTemplate then 1 else if byLimitation then 2 else 3
  {
    EngineLevel(activity, engines, assessments);
    TemplateLevel(activity, engines, templates, assessments);
    LimitationLevel(engines, assessments);
  }

  /** Registering any more engines and templates never worsens the level. */
  lemma RegisteringMoreNeverHurts(
    activity: Activity, engines: seq<EngineEntry>, moreEngines: seq<EngineEntry>,
    templates: seq<TemplateEntry>, moreTemplates: seq<TemplateEntry>, assessments: seq<Assessment>)
    ensures Level(Evaluate(activity, engines + moreEngines, templates + moreTemplates, assessments))
         <= Level(Evaluate(activity, engines, templates, assessments))
  {
    var allEngines, allTemplates := engines + moreEngines, templates + moreTemplates;
    LevelIsHighestAvailable(activity, engines, templates, assessments);
    LevelIsHighestAvailable(activity, allEngines, allTemplates, assessments);
    forall id | IsActive(engines, id) ensures IsActive(allEngines, id) {
      ActiveStaysActive(engines, moreEngines, id);
    }
    forall e | EngineIsAdmissible(activity, engines, assessments, e)
      ensures EngineIsAdmissible(activity, allEngines, assessments, e)
    {
    }
    forall t | TemplateIsAdmissible(activity, engines, templates, assessments, t)
      ensures TemplateIsAdmissible(activity, allEngines, allTemplates, assessments, t)
    {
    }
    forall a | LimitationIsAdmissible(engines, assessments, a)
      ensures LimitationIsAdmissible(allEngines, assessments, a)
    {
    }
  }

  lemma ActiveStaysActive(engines: seq<EngineEntry>, more: seq<EngineEntry>, id: string)
    requires IsActive(engines, id)
    ensures IsActive(engines + more, id)
  {
    var i := EngineIndex(engines, id);
    assert (engines + more)[i] == engines[i];
    assert EngineIndex(engines + more, id) == i;
  }

  // ---------------------------------------------------------------- the chosen candidate

  /** Smaller preference rank first, earlier registration second. */
  ghost predicate NotAfter(activity: Activity, engines: seq<EngineEntry>, e: EngineEntry, f: EngineEntry) {
    var rankE, rankF := PreferenceRank(activity, e.canonicalEngineId), PreferenceRank(activity, f.canonicalEngineId);
    rankE < rankF
    || (rankE == rankF && EngineIndex(engines, e.canonicalEngineId) <= EngineIndex(engines, f.canonicalEngineId))
  }

  ghost predicate IsBestEngine(
    activity: Activity, engines: seq<EngineEntry>, assessments: seq<Assessment>, e: EngineEntry)
  {
    && EngineIsAdmissible(activity, engines, assessments, e)
    && forall f :: EngineIsAdmissible(activity, engines, assessments, f) ==> NotAfter(activity, engines, e, f)
  }

  lemma MatchesAreLexOrdered(activity: Activity, engines: seq<EngineEntry>)
    requires DistinctEngines(engines)
    ensures LexOrdered(SortedExactMatches(activity, engines),
                       (e: EngineEntry) => PreferenceRank(activity, e.canonicalEngineId),
                       (e: EngineEntry) => EngineIndex(engines, e.canonicalEngineId))
  {
    var required := activity.requiredCapabilities;
    var pos := (e: EngineEntry) => EngineIndex(engines, e.canonicalEngineId);
    forall i | 0 <= i < |engines| ensures pos(engines[i]) == i {
    }
    FilterKeepsPositions(engines, (e: EngineEntry) => IsExactMatch(e, required), pos);
    SortIsLexOrdered(ExactMatches(engines, required),
                     (e: EngineEntry) => PreferenceRank(activity, e.canonicalEngineId), pos);
  }

  /** No admissible engine comes before the first one admitted. */
  lemma FirstAdmittedComesFirst(activity: Activity, engines: seq<EngineEntry>, assessments: seq<Assessment>, f: EngineEntry)
    requires DistinctEngines(engines) && EngineIsAdmissible(activity, engines, assessments, f)
    ensures var exact := SortedExactMatches(activity, engines);
      var i := First(exact, EngineTest(assessments));
      i < |exact| && NotAfter(activity, engines, exact[i], f)
  {
    var exact := SortedExactMatches(activity, engines);
    MatchesAreLexOrdered(activity, engines);
    ExactMatchMembers(activity, engines, f);
    var k :| 0 <= k < |exact| && exact[k] == f;
    assert EngineTest(assessments)(exact[k]);
    assert k >= First(exact, EngineTest(assessments));
  }

  lemma FirstAdmittedIsBest(
    activity: Activity, engines: seq<EngineEntry>, templates: seq<TemplateEntry>, assessments: seq<Assessment>)
    returns (e: EngineEntry)
    requires DistinctEngines(engines)
    requires Evaluate(activity, engines, templates, assessments).Supported?
    ensures Evaluate(activity, engines, templates, assessments) == Supported(e.canonicalEngineId)
    ensures IsBestEngine(activity, engines, assessments, e)
  {
    var exact := SortedExactMatches(activity, engines);
    e := exact[First(exact, EngineTest(assessments))];
    ExactMatchMembers(activity, engines, e);
    forall f | EngineIsAdmissible(activity, engines, assessments, f) ensures NotAfter(activity, engines, e, f) {
      FirstAdmittedComesFirst(activity, engines, assessments, f);
    }
  }

  /** An exact engine is selected exactly when it is the best admissible one. */
  lemma SelectedEngineIsBest(
    activity: Activity, engines: seq<EngineEntry>, templates: seq<TemplateEntry>, assessments: seq<Assessment>,
    id: string)
    requires DistinctEngines(engines)
    ensures Evaluate(activity, engines, templates, assessments) == Supported(id)
      <==> exists e: EngineEntry :: e.canonicalEngineId == id && IsBestEngine(activity, engines, assessments, e)
  {
    LevelIsHighestAvailable(activity, engines, templates, assessments);
    if Evaluate(activity, engines, templates, assessments).Supported? {
      var best := FirstAdmittedIsBest(activity, engines, templates, assessments);
      forall e: EngineEntry | e.canonicalEngineId == id && IsBestEngine(activity, engines, assessments, e)
        ensures id == best.canonicalEngineId
      {
        assert NotAfter(activity, engines, e, best) && NotAfter(activity, engines, best, e);
        assert EngineIndex(engines, id) == EngineIndex(engines, best.canonicalEngineId) < |engines|;
      }
    }
  }

  /** A newcomer replaces the selected engine only by being strictly more preferred. */
  lemma NewcomerWinsOnlyByPreference(
    activity: Activity, engines: seq<EngineEntry>, newcomer: EngineEntry,
    templates: seq<TemplateEntry>, assessments: seq<Assessment>, id: string)
    requires DistinctEngines(engines + [newcomer])
    requires Evaluate(activity, engines, templates, assessments) == Supported(id)
    ensures var after := Evaluate(activity, engines + [newcomer], templates, assessments);
      || after == Supported(id)
      || (after == Supported(newcomer.canonicalEngineId)
          && PreferenceRank(activity, newcomer.canonicalEngineId) < PreferenceRank(activity, id))
  {
    var all := engines + [newcomer];
    assert DistinctEngines(engines) by {
      forall i, j | 0 <= i < j < |engines| ensures engines[i].canonicalEngineId != engines[j].canonicalEngineId {
        assert all[i] == engines[i] && all[j] == engines[j];
      }
    }
    RegisteringMoreNeverHurts(activity, engines, [newcomer], templates, [], assessments);
    assert templates + [] == templates;
    var was := FirstAdmittedIsBest(activity, engines, templates, assessments);
    var chosen := FirstAdmittedIsBest(activity, all, templates, assessments);
    assert EngineIsAdmissible(activity, all, assessments, was);
    assert NotAfter(activity, all, chosen, was);
    forall e | e in engines
      ensures EngineIndex(all, e.canonicalEngineId) == EngineIndex(engines, e.canonicalEngineId) < |engines|
    {
      IndexIsKept(engines, newcomer, e);
    }
    assert all[|engines|] == newcomer;
    if chosen in engines {
      assert EngineIsAdmissible(activity, engines, assessments, chosen);
      assert NotAfter(activity, engines, was, chosen);
      assert EngineIndex(engines, was.canonicalEngineId) == EngineIndex(engines, chosen.canonicalEngineId);
    } else {
      assert chosen == newcomer;
      assert EngineIndex(all, newcomer.canonicalEngineId) == |engines|;
    }
  }

  lemma IndexIsKept(engines: seq<EngineEntry>, newcomer: EngineEntry, e: EngineEntry)
    requires e in engines
    ensures EngineIndex(engines + [newcomer], e.canonicalEngineId) == EngineIndex(engines, e.canonicalEngineId)
    ensures EngineIndex(engines, e.canonicalEngineId) < |engines|
  {
    var all := engines + [newcomer];
    var i := EngineIndex(engines, e.canonicalEngineId);
    var k :| 0 <= k < |engines| && engines[k] == e;
    assert all[i] == engines[i];
    forall j | 0 <= j < i ensures all[j].canonicalEngineId != e.canonicalEngineId {
      assert all[j] == engines[j];
    }
  }

  /** An engine listed before another, or listed when the other is not, is preferred to it; two unlisted ones are equal. */
  lemma EarlierListedIsPreferred(activity: Activity, preferred: seq<string>, i: nat, x: string, y: string)
    requires activity.preferredCanonicalEngineIds == Some(preferred)
    ensures (i < |preferred| && preferred[i] == x && y !in preferred[..i + 1]) ==>
      PreferenceRank(activity, x) < PreferenceRank(activity, y)
    ensures x !in preferred && y !in preferred ==> PreferenceRank(activity, x) == PreferenceRank(activity, y)
  {
    var rankX, rankY := PreferenceRank(activity, x), PreferenceRank(activity, y);
    if i < |preferred| && preferred[i] == x && y !in preferred[..i + 1] {
      assert rankX <= i;
      assert forall j :: 0 <= j <= i ==> preferred[j] == preferred[..i + 1][j];
      assert rankY > i;
    }
    if x !in preferred {
      assert rankX == |preferred|;
    }
    if y !in preferred {
      assert rankY == |preferred|;
    }
  }

  /** So an admissible engine listed earlier keeps a later or unlisted one from being selected. */
  lemma ListedEarlierWins(
    activity: Activity, engines: seq<EngineEntry>, templates: seq<TemplateEntry>, assessments: seq<Assessment>,
    preferred: seq<string>, i: nat, e: EngineEntry, other: string)
    requires DistinctEngines(engines) && EngineIsAdmissible(activity, engines, assessments, e)
    requires activity.preferredCanonicalEngineIds == Some(preferred)
    requires i < |preferred| && preferred[i] == e.canonicalEngineId && other !in preferred[..i + 1]
    ensures Evaluate(activity, engines, templates, assessments) != Supported(other)
  {
    EarlierListedIsPreferred(activity, preferred, i, e.canonicalEngineId, other);
    if Evaluate(activity, engines, templates, assessments).Supported? {
      var best := FirstAdmittedIsBest(activity, engines, templates, assessments);
      assert NotAfter(activity, engines, best, e);
    }
  }

  /** Without preferences the earliest registered admissible engine is selected. */
  lemma EarliestRegisteredWinsWithoutPreference(
    activity: Activity, engines: seq<EngineEntry>, templates: seq<TemplateEntry>, assessments: seq<Assessment>, i: nat)
    requires DistinctEngines(engines) && activity.preferredCanonicalEngineIds == None
    requires i < |engines| && EngineIsAdmissible(activity, engines, assessments, engines[i])
    requires forall j :: 0 <= j < i ==> !EngineIsAdmissible(activity, engines, assessments, engines[j])
    ensures Evaluate(activity, engines, templates, assessments) == Supported(engines[i].canonicalEngineId)
  {
    LevelIsHighestAvailable(activity, engines, templates, assessments);
    var best := FirstAdmittedIsBest(activity, engines, templates, assessments);
    var b := EngineIndex(engines, best.canonicalEngineId);
    var k :| 0 <= k < |engines| && engines[k] == best;
    assert b == k && EngineIndex(engines, engines[i].canonicalEngineId) == i;
    assert NotAfter(activity, engines, best, engines[i]);
  }

  // ---------------------------------------------------------------- lower levels

  /** The template selected is an admissible one, and no engine alone was. */
  lemma SelectedTemplateIsAdmissible(
    activity: Activity, engines: seq<EngineEntry>, templates: seq<TemplateEntry>, assessments: seq<Assessment>)
    returns (t: TemplateEntry)
    requires Evaluate(activity, engines, templates, assessments).SupportedWithTemplate?
    ensures Evaluate(activity, engines, templates, assessments)
         == SupportedWithTemplate(t.canonicalEngineId, t.templateId)
    ensures TemplateIsAdmissible(activity, engines, templates, assessments, t)
  {
    var covering := CoveringTemplates(templates, activity.requiredCapabilities);
    t := covering[First(covering, TemplateTest(engines, assessments))];
    CoveringMembers(templates, activity.requiredCapabilities, t);
  }

  lemma SelectedLimitationIsAdmissible(
    activity: Activity, engines: seq<EngineEntry>, templates: seq<TemplateEntry>, assessments: seq<Assessment>)
    returns (a: Assessment)
    requires Evaluate(activity, engines, templates, assessments).SupportedWithLimitations?
    ensures LimitationIsAdmissible(engines, assessments, a)
    ensures Evaluate(activity, engines, templates, assessments)
         == SupportedWithLimitations(a.canonicalEngineId, a.limitations.value)
  {
    a := assessments[First(assessments, LimitationTest(engines))];
  }

  /** A dimension is lost exactly if the assessment does not preserve it. */
  lemma LossesAreTheUnpreserved(a: Assessment)
    ensures PedagogicalObjective in ViolatedDimensions(a) <==> !a.preservesPedagogicalObjective
    ensures ReasoningType in ViolatedDimensions(a) <==> !a.preservesReasoningType
    ensures InteractionModel in ViolatedDimensions(a) <==> !a.preservesInteractionModel
    ensures EvidenceModel in ViolatedDimensions(a) <==> !a.preservesEvidenceModel
    ensures EvaluationModel in ViolatedDimensions(a) <==> !a.preservesEvaluationModel
  {
  }

  predicate PreservesEverything(a: Assessment) {
    && a.preservesPedagogicalObjective && a.preservesReasoningType && a.preservesInteractionModel
    && a.preservesEvidenceModel && a.preservesEvaluationModel
  }

  /** Assessment `i` is the first about the pair. */
  ghost predicate IsFirstAbout(assessments: seq<Assessment>, i: nat, id: string, templateId: Option<string>) {
    && i < |assessments| && assessments[i].canonicalEngineId == id && assessments[i].templateId == templateId
    && forall j :: 0 <= j < i ==> !(assessments[j].canonicalEngineId == id && assessments[j].templateId == templateId)
  }

  /** No assessment of the pair, or a first one that preserves every dimension. */
  ghost predicate IsNotVetoed(assessments: seq<Assessment>, id: string, templateId: Option<string>) {
    forall i: nat :: IsFirstAbout(assessments, i, id, templateId) ==> PreservesEverything(assessments[i])
  }

  lemma NoLossMeansNotVetoed(assessments: seq<Assessment>, id: string, templateId: Option<string>)
    ensures Losses(assessments, id, templateId) == [] <==> IsNotVetoed(assessments, id, templateId)
  {
    var i := First(assessments, (a: Assessment) => IsAbout(a, id, templateId));
    if i < |assessments| {
      assert IsFirstAbout(assessments, i, id, templateId);
      assert Losses(assessments, id, templateId) == ViolatedDimensions(assessments[i]);
    }
  }

  ghost predicate IsActiveEngine(engines: seq<EngineEntry>, id: string) {
    exists e :: e in engines && e.canonicalEngineId == id && e.lifecycleStatus == Active
  }

  lemma ActiveMeansActive(engines: seq<EngineEntry>, id: string)
    requires DistinctEngines(engines)
    ensures IsActive(engines, id) <==> IsActiveEngine(engines, id)
  {
    if e :| e in engines && e.canonicalEngineId == id && e.lifecycleStatus == Active {
      var k :| 0 <= k < |engines| && engines[k] == e;
      assert EngineIndex(engines, id) == k;
    }
  }

  /**
   * Whatever is selected, at any level, is ACTIVE and was not vetoed; with limitations, they come
   * from an assessment that preserves everything and calls none of them substantial.
   */
  lemma SelectionIsSound(
    activity: Activity, engines: seq<EngineEntry>, templates: seq<TemplateEntry>, assessments: seq<Assessment>)
    requires DistinctEngines(engines)
    ensures match Evaluate(activity, engines, templates, assessments)
      case Supported(id) =>
        && IsActiveEngine(engines, id) && IsNotVetoed(assessments, id, None)
        && exists e :: e in engines && e.canonicalEngineId == id
                    && forall c :: c in activity.requiredCapabilities ==> c in e.required || c in e.optional
      case SupportedWithTemplate(id, templateId) =>
        && IsActiveEngine(engines, id) && IsNotVetoed(assessments, id, Some(templateId))
        && exists t :: t in templates && t.canonicalEngineId == id && t.templateId == templateId
                    && forall c :: c in activity.requiredCapabilities ==> c in t.requiredCapabilities
      case SupportedWithLimitations(id, limitations) =>
        && IsActiveEngine(engines, id) && limitations != []
        && (forall l :: l in limitations ==> !l.pedagogicallySubstantial)
        && exists a :: a in assessments && a.canonicalEngineId == id && a.limitations == Some(limitations)
                    && PreservesEverything(a)
      case EngineGap(_) => true
  {
    match Evaluate(activity, engines, templates, assessments) {
      case Supported(id) => SelectedEngineIsSound(activity, engines, templates, assessments);
      case SupportedWithTemplate(id, templateId) =>
        var t := SelectedTemplateIsAdmissible(activity, engines, templates, assessments);
        ActiveMeansActive(engines, id);
        NoLossMeansNotVetoed(assessments, id, Some(templateId));
      case SupportedWithLimitations(id, limitations) =>
        var a := SelectedLimitationIsAdmissible(activity, engines, templates, assessments);
        ActiveMeansActive(engines, id);
      case EngineGap(_) =>
    }
  }

  lemma SelectedEngineIsSound(
    activity: Activity, engines: seq<EngineEntry>, templates: seq<TemplateEntry>, assessments: seq<Assessment>)
    requires DistinctEngines(engines) && Evaluate(activity, engines, templates, assessments).Supported?
    ensures var id := Evaluate(activity, engines, templates, assessments).selectedEngine;
      && IsActiveEngine(engines, id) && IsNotVetoed(assessments, id, None)
      && exists e :: e in engines && e.canonicalEngineId == id
                  && forall c :: c in activity.requiredCapabilities ==> c in e.required || c in e.optional
  {
    var e := FirstAdmittedIsBest(activity, engines, templates, assessments);
    ExactMatchMembers(activity, engines, e);
    assert e.lifecycleStatus == Active;
    NoLossMeansNotVetoed(assessments, e.canonicalEngineId, None);
    assert forall c :: c in activity.requiredCapabilities ==> c in e.required + e.optional;
  }

  /**
   * The limitations level does not look at capabilities: whatever engine it selects either
   * lacks a required one, or its own assessment declares a loss.
   */
  lemma LimitationsMeanMissingOrVetoed(
    activity: Activity, engines: seq<EngineEntry>, templates: seq<TemplateEntry>, assessments: seq<Assessment>,
    e: EngineEntry)
    requires Evaluate(activity, engines, templates, assessments).SupportedWithLimitations?
    requires e in engines && e.lifecycleStatus == Active
    requires e.canonicalEngineId == Evaluate(activity, engines, templates, assessments).selectedEngine
    ensures Covers(e.required + e.optional, activity.requiredCapabilities)
      ==> Losses(assessments, e.canonicalEngineId, None) != []
  {
    LevelIsHighestAvailable(activity, engines, templates, assessments);
    assert !EngineIsAdmissible(activity, engines, assessments, e);
  }

  // ---------------------------------------------------------------- the gap report

  /** What each kind of reason stands for: which candidate was ruled out, and by exactly which losses. */
  ghost predicate IsComplaint(
    activity: Activity, engines: seq<EngineEntry>, templates: seq<TemplateEntry>, assessments: seq<Assessment>, r: Reason)
  {
    match r
    case RegistryIsEmpty => engines == []
    case EngineLoses(id, lost) => exists e :: LosesAtEngineLevel(activity, engines, assessments, e, id, lost)
    case TemplateLoses(templateId, id, lost) =>
      exists t :: LosesAtTemplateLevel(activity, engines, templates, assessments, t, templateId, id, lost)
    case LimitationLoses(id, lost) => exists a :: LosesAtLimitationLevel(engines, assessments, a, id, lost)
    case NothingDeclares(_) => false
  }

  ghost predicate LosesAtEngineLevel(
    activity: Activity, engines: seq<EngineEntry>, assessments: seq<Assessment>, e: EngineEntry,
    id: string, lost: seq<Dimension>)
  {
    && e in engines && IsExactMatch(e, activity.requiredCapabilities) && e.canonicalEngineId == id
    && lost != [] && lost == Losses(assessments, id, None)
  }

  ghost predicate LosesAtTemplateLevel(
    activity: Activity, engines: seq<EngineEntry>, templates: seq<TemplateEntry>, assessments: seq<Assessment>,
    t: TemplateEntry, templateId: string, id: string, lost: seq<Dimension>)
  {
    && t in templates && Covers(t.requiredCapabilities, activity.requiredCapabilities)
    && t.templateId == templateId && t.canonicalEngineId == id && IsActive(engines, id)
    && lost != [] && lost == Losses(assessments, id, Some(templateId))
  }

  ghost predicate LosesAtLimitationLevel(
    engines: seq<EngineEntry>, assessments: seq<Assessment>, a: Assessment, id: string, lost: seq<Dimension>)
  {
    && a in assessments && a.canonicalEngineId == id && HasLimitations(engines, a)
    && lost != [] && lost == ViolatedDimensions(a)
  }

  lemma EngineComplaints(activity: Activity, engines: seq<EngineEntry>, assessments: seq<Assessment>, r: Reason)
    ensures r in Collect(SortedExactMatches(activity, engines), EngineComplaint(assessments))
      <==> r.EngineLoses? && exists e :: LosesAtEngineLevel(activity, engines, assessments, e, r.canonicalEngineId, r.lost)
  {
    var exact := SortedExactMatches(activity, engines);
    CollectMembers(exact, EngineComplaint(assessments), r);
    forall e ensures e in exact && r in EngineComplaint(assessments)(e)
      <==> r.EngineLoses? && LosesAtEngineLevel(activity, engines, assessments, e, r.canonicalEngineId, r.lost)
    {
      ExactMatchMembers(activity, engines, e);
    }
  }

  lemma TemplateComplaints(
    activity: Activity, engines: seq<EngineEntry>, templates: seq<TemplateEntry>, assessments: seq<Assessment>, r: Reason)
    ensures r in Collect(CoveringTemplates(templates, activity.requiredCapabilities), TemplateComplaint(engines, assessments))
      <==> r.TemplateLoses? && exists t :: LosesAtTemplateLevel(activity, engines, templates, assessments, t,
                                                                r.templateId, r.canonicalEngineId, r.lost)
  {
    var covering := CoveringTemplates(templates, activity.requiredCapabilities);
    CollectMembers(covering, TemplateComplaint(engines, assessments), r);
    forall t ensures t in covering && r in TemplateComplaint(engines, assessments)(t)
      <==> r.TemplateLoses? && LosesAtTemplateLevel(activity, engines, templates, assessments, t,
                                                    r.templateId, r.canonicalEngineId, r.lost)
    {
      CoveringMembers(templates, activity.requiredCapabilities, t);
    }
  }

  lemma LimitationComplaints(engines: seq<EngineEntry>, assessments: seq<Assessment>, r: Reason)
    ensures r in Collect(assessments, LimitationComplaint(engines))
      <==> r.LimitationLoses? && exists a :: LosesAtLimitationLevel(engines, assessments, a, r.canonicalEngineId, r.lost)
  {
    CollectMembers(assessments, LimitationComplaint(engines), r);
    forall a ensures a in assessments && r in LimitationComplaint(engines)(a)
      <==> r.LimitationLoses? && LosesAtLimitationLevel(engines, assessments, a, r.canonicalEngineId, r.lost)
    {
    }
  }

  /** The three passes report exactly the losses that ruled a candidate out. */
  lemma ComplaintsAreExact(
    activity: Activity, engines: seq<EngineEntry>, templates: seq<TemplateEntry>, assessments: seq<Assessment>, r: Reason)
    ensures r in Complaints(activity, engines, templates, assessments)
      <==> IsComplaint(activity, engines, templates, assessments, r)
  {
    EngineComplaints(activity, engines, assessments, r);
    TemplateComplaints(activity, engines, templates, assessments, r);
    LimitationComplaints(engines, assessments, r);
  }

  /**
   * A gap report always has a reason, so building it never fails: all losses that ruled a
   * candidate out, or, if there is none, that nothing declares the required capabilities. A new
   * engine is recommended exactly when none is registered.
   */
  lemma GapIsAccountedFor(
    activity: Activity, engines: seq<EngineEntry>, templates: seq<TemplateEntry>, assessments: seq<Assessment>)
    ensures var report := GapOf(activity, engines, templates, assessments);
      && report.incompatibilityReasons != []
      && BuildEngineGapReport(report) == Ok(report)
      && (report.recommendedResolution == NewEngine <==> engines == [])
      && |report.evaluatedEngines| == |engines| && |report.evaluatedTemplates| == |templates|
      && (forall i :: 0 <= i < |engines| ==> report.evaluatedEngines[i] == engines[i].canonicalEngineId)
      && (forall i :: 0 <= i < |templates| ==> report.evaluatedTemplates[i] == templates[i].templateId)
      && (forall r :: r in report.incompatibilityReasons <==>
           if exists c :: IsComplaint(activity, engines, templates, assessments, c)
           then IsComplaint(activity, engines, templates, assessments, r)
           else r == NothingDeclares(activity.requiredCapabilities))
  {
    var complaints := Complaints(activity, engines, templates, assessments);
    forall r ensures r in complaints <==> IsComplaint(activity, engines, templates, assessments, r) {
      ComplaintsAreExact(activity, engines, templates, assessments, r);
    }
    if complaints != [] {
      assert complaints[0] in complaints;
    }
  }

  /** In a gap, every ACTIVE covering engine is accounted for with what it loses. */
  lemma GapNamesEveryExactMatch(
    activity: Activity, engines: seq<EngineEntry>, templates: seq<TemplateEntry>, assessments: seq<Assessment>,
    e: EngineEntry)
    requires Evaluate(activity, engines, templates, assessments).EngineGap?
    requires e in engines && IsExactMatch(e, activity.requiredCapabilities)
    ensures var lost := Losses(assessments, e.canonicalEngineId, None);
      && lost != []
      && EngineLoses(e.canonicalEngineId, lost)
         in Evaluate(activity, engines, templates, assessments).report.incompatibilityReasons
  {
    EngineLevel(activity, engines, assessments);
    assert !EngineIsAdmissible(activity, engines, assessments, e);
    var r := EngineLoses(e.canonicalEngineId, Losses(assessments, e.canonicalEngineId, None));
    assert LosesAtEngineLevel(activity, engines, assessments, e, r.canonicalEngineId, r.lost);
    EngineComplaints(activity, engines, assessments, r);
    assert r in Complaints(activity, engines, templates, assessments);
  }

  // ---------------------------------------------------------------- the fidelity rule

  ghost predicate LossIsDeclared(assessments: seq<Assessment>, id: string, templateId: Option<string>) {
    exists a :: a in assessments && IsAbout(a, id, templateId) && !PreservesAllDimensions(a)
  }

  /** No declared loss on what was selected: "any declared loss is a gap, never a downgrade". */
  ghost predicate KeepsFidelity(o: Outcome, assessments: seq<Assessment>) {
    match o
    case Supported(e) => !LossIsDeclared(assessments, e, None)
    case SupportedWithTemplate(e, t) => !LossIsDeclared(assessments, e, Some(t))
    case SupportedWithLimitations(e, _) => forall t :: !LossIsDeclared(assessments, e, t)
    case EngineGap(_) => true
  }

  predicate OffersMinorLimitations(a: Assessment) {
    && a.limitations.Some? && a.limitations.value != []
    && PreservesAllDimensions(a)
    && forall l :: l in a.limitations.value ==> !l.pedagogicallySubstantial
  }

  /**
   * A preserving first assessment is not contradicted later, and no engine with a loss declared
   * for itself or for any template on it has another assessment that offers minor limitations.
   */
  ghost predicate Consistent(assessments: seq<Assessment>) {
    && (forall id, t :: FindAssessment(assessments, id, t).Some? && LossIsDeclared(assessments, id, t) ==>
         !PreservesAllDimensions(FindAssessment(assessments, id, t).value))
    && (forall a, t :: a in assessments && OffersMinorLimitations(a) ==>
         !LossIsDeclared(assessments, a.canonicalEngineId, t))
  }

  lemma ConsistentAssessmentsKeepFidelity(
    activity: Activity, engines: seq<EngineEntry>, templates: seq<TemplateEntry>, assessments: seq<Assessment>)
    requires DistinctEngines(engines) && Consistent(assessments)
    ensures KeepsFidelity(Evaluate(activity, engines, templates, assessments), assessments)
  {
    match Evaluate(activity, engines, templates, assessments) {
      case Supported(_) =>
        var e := FirstAdmittedIsBest(activity, engines, templates, assessments);
        NoLossWhenFirstPreserves(assessments, e.canonicalEngineId, None);
      case SupportedWithTemplate(_, _) =>
        var t := SelectedTemplateIsAdmissible(activity, engines, templates, assessments);
        NoLossWhenFirstPreserves(assessments, t.canonicalEngineId, Some(t.templateId));
      case SupportedWithLimitations(_, _) =>
        var a := SelectedLimitationIsAdmissible(activity, engines, templates, assessments);
        assert OffersMinorLimitations(a);
      case EngineGap(_) =>
    }
  }

  lemma NoLossWhenFirstPreserves(assessments: seq<Assessment>, id: string, t: Option<string>)
    requires Consistent(assessments) && Losses(assessments, id, t) == []
    ensures !LossIsDeclared(assessments, id, t)
  {
    var found := FindAssessment(assessments, id, t);
    assert found.Some? ==> PreservesAllDimensions(found.value);
  }

  function Bare(id: string): EngineEntry {
    EngineEntry(id, Active, [], [], [])
  }

  lemma BareEngine(id: string, required: seq<string>)
    ensures IsExactMatch(Bare(id), required) <==> required == []
    ensures forall other :: IsActive([Bare(id)], other) <==> other == id
  {
    if required != [] {
      assert required[0] in required;
    }
    forall other ensures IsActive([Bare(id)], other) <==> other == id {
      assert EngineIndex([Bare(id)], other) == 0 <==> other == id by {
        assert [Bare(id)][0].canonicalEngineId == id;
      }
    }
  }

  /** An engine without any capability is selected for an activity that needs one. */
  lemma LimitationsIgnoreCapabilities(assessments: seq<Assessment>, a: Assessment)
    requires a in assessments && OffersMinorLimitations(a)
    ensures var outcome := Evaluate(Activity(["x"], None), [Bare(a.canonicalEngineId)], [], assessments);
      outcome.SupportedWithLimitations? && outcome.selectedEngine == a.canonicalEngineId
  {
    var activity, engines := Activity(["x"], None), [Bare(a.canonicalEngineId)];
    BareEngine(a.canonicalEngineId, ["x"]);
    LevelIsHighestAvailable(activity, engines, [], assessments);
    assert LimitationIsAdmissible(engines, assessments, a);
    var chosen := SelectedLimitationIsAdmissible(activity, engines, [], assessments);
  }

  /** Whatever engine the limitations level selects covers the required capabilities. */
  ghost predicate RespectsCapabilities(activity: Activity, engines: seq<EngineEntry>, o: Outcome) {
    forall e :: e in engines && o.SupportedWithLimitations? && o.selectedEngine == e.canonicalEngineId ==>
      Covers(e.required + e.optional, activity.requiredCapabilities)
  }

  /**
   * The limitations level respects capabilities, for every activity and registry, exactly when
   * there is nothing for it to select.
   */
  lemma LimitationsRespectCapabilitiesIffNoneOffered(assessments: seq<Assessment>)
    ensures (forall a :: a in assessments ==> !OffersMinorLimitations(a)) <==>
      forall activity, engines, templates :: DistinctEngines(engines) && DistinctTemplates(templates) ==>
        RespectsCapabilities(activity, engines, Evaluate(activity, engines, templates, assessments))
  {
    if a :| a in assessments && OffersMinorLimitations(a) {
      LimitationsIgnoreCapabilities(assessments, a);
      var activity, engines := Activity(["x"], None), [Bare(a.canonicalEngineId)];
      assert engines[0] in engines && "x" in activity.requiredCapabilities;
      assert DistinctEngines(engines) && DistinctTemplates([]);
      assert !RespectsCapabilities(activity, engines, Evaluate(activity, engines, [], assessments));
    } else {
      forall activity, engines, templates | DistinctEngines(engines) && DistinctTemplates(templates)
        ensures RespectsCapabilities(activity, engines, Evaluate(activity, engines, templates, assessments))
      {
        NothingOfferedNothingSelected(activity, engines, templates, assessments);
      }
    }
  }

  lemma NothingOfferedNothingSelected(
    activity: Activity, engines: seq<EngineEntry>, templates: seq<TemplateEntry>, assessments: seq<Assessment>)
    requires forall a :: a in assessments ==> !OffersMinorLimitations(a)
    ensures !Evaluate(activity, engines, templates, assessments).SupportedWithLimitations?
  {
    LevelIsHighestAvailable(activity, engines, templates, assessments);
    forall a ensures !LimitationIsAdmissible(engines, assessments, a) {
      assert AdmitsLimitations(engines, a) ==> OffersMinorLimitations(a);
    }
  }

  /** A registry for which a preserving first assessment hides a later loss on the engine itself. */
  lemma EngineLossSlipsThrough(assessments: seq<Assessment>, id: string)
    requires Losses(assessments, id, None) == [] && LossIsDeclared(assessments, id, None)
    ensures !KeepsFidelity(Evaluate(Activity([], None), [Bare(id)], [], assessments), assessments)
  {
    var activity, engines := Activity([], None), [Bare(id)];
    BareEngine(id, []);
    LevelIsHighestAvailable(activity, engines, [], assessments);
    assert EngineIsAdmissible(activity, engines, assessments, engines[0]);
    var e := FirstAdmittedIsBest(activity, engines, [], assessments);
  }

  /** The same for a template. */
  lemma TemplateLossSlipsThrough(assessments: seq<Assessment>, id: string, name: string)
    requires Losses(assessments, id, Some(name)) == [] && LossIsDeclared(assessments, id, Some(name))
    ensures !KeepsFidelity(Evaluate(Activity(["x"], None), [Bare(id)], [TemplateEntry(name, "1", id, ["x"])],
                                    assessments), assessments)
  {
    var activity, engines, templates := Activity(["x"], None), [Bare(id)], [TemplateEntry(name, "1", id, ["x"])];
    BareEngine(id, ["x"]);
    LevelIsHighestAvailable(activity, engines, templates, assessments);
    assert TemplateIsAdmissible(activity, engines, templates, assessments, templates[0]);
    var chosen := SelectedTemplateIsAdmissible(activity, engines, templates, assessments);
  }

  /** An engine with a declared loss, on its own or with a template, is selected through another assessment's limitations. */
  lemma LimitationsBypassLoss(assessments: seq<Assessment>, a: Assessment, t: Option<string>)
    requires a in assessments && OffersMinorLimitations(a)
    requires LossIsDeclared(assessments, a.canonicalEngineId, t)
    ensures !KeepsFidelity(Evaluate(Activity(["x"], None), [Bare(a.canonicalEngineId)], [], assessments), assessments)
  {
    LimitationsIgnoreCapabilities(assessments, a);
  }

  lemma InconsistentAssessmentsBreakFidelity(assessments: seq<Assessment>)
    returns (activity: Activity, engines: seq<EngineEntry>, templates: seq<TemplateEntry>)
    requires !Consistent(assessments)
    ensures DistinctEngines(engines) && DistinctTemplates(templates)
    ensures !KeepsFidelity(Evaluate(activity, engines, templates, assessments), assessments)
  {
    if id, t :| && FindAssessment(assessments, id, t).Some? && LossIsDeclared(assessments, id, t)
                && PreservesAllDimensions(FindAssessment(assessments, id, t).value) {
      engines := [Bare(id)];
      match t {
        case None =>
          activity, templates := Activity([], None), [];
          EngineLossSlipsThrough(assessments, id);
        case Some(name) =>
          activity, templates := Activity(["x"], None), [TemplateEntry(name, "1", id, ["x"])];
          TemplateLossSlipsThrough(assessments, id, name);
      }
    } else {
      var a, t :| a in assessments && OffersMinorLimitations(a) && LossIsDeclared(assessments, a.canonicalEngineId, t);
      activity, engines, templates := Activity(["x"], None), [Bare(a.canonicalEngineId)], [];
      LimitationsBypassLoss(assessments, a, t);
    }
  }

  /** The fidelity rule holds for every activity and registry exactly when the assessments are consistent. */
  lemma FidelityHoldsIffConsistent(assessments: seq<Assessment>)
    ensures Consistent(assessments) <==>
      forall activity, engines, templates :: DistinctEngines(engines) && DistinctTemplates(templates) ==>
        KeepsFidelity(Evaluate(activity, engines, templates, assessments), assessments)
  {
    if Consistent(assessments) {
      forall activity, engines, templates | DistinctEngines(engines) && DistinctTemplates(templates)
        ensures KeepsFidelity(Evaluate(activity, engines, templates, assessments), assessments)
      {
        ConsistentAssessmentsKeepFidelity(activity, engines, templates, assessments);
      }
    } else {
      var activity, engines, templates := InconsistentAssessmentsBreakFidelity(assessments);
    }
  }
}
