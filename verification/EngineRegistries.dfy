/** The governance registry, the template registry, and the runtime registry with its two indexes. */
module EngineRegistries {
  import opened Prelude

  datatype LifecycleStatus = Draft | Active | Deprecated | Retired

  datatype Channel = WebChannel | RobloxChannel

  datatype RuntimeAdapter = RuntimeAdapter(channel: Channel, runtimeAdapterId: string)

  datatype EngineEntry = EngineEntry(
    canonicalEngineId: string,
    lifecycleStatus: LifecycleStatus,
    required: seq<string>,
    optional: seq<string>,
    runtimeAdapters: seq<RuntimeAdapter>)

  predicate Covers(declared: seq<string>, required: seq<string>) {
    forall c :: c in required ==> c in declared
  }

  /** ACTIVE, and required and optional capabilities together cover the request. */
  predicate IsExactMatch(e: EngineEntry, required: seq<string>) {
    e.lifecycleStatus == Active && Covers(e.required + e.optional, required)
  }

  ghost predicate DistinctEngines(entries: seq<EngineEntry>) {
    forall i, j :: 0 <= i < j < |entries| ==> entries[i].canonicalEngineId != entries[j].canonicalEngineId
  }

  /** Registration order position of an id, or |entries|. */
  function EngineIndex(entries: seq<EngineEntry>, id: string): (i: nat)
    ensures i <= |entries|
    ensures i < |entries| ==> entries[i].canonicalEngineId == id
    ensures forall j :: 0 <= j < i ==> entries[j].canonicalEngineId != id
  {
    First(entries, (e: EngineEntry) => e.canonicalEngineId == id)
  }

  function GetEngine(entries: seq<EngineEntry>, id: string): Option<EngineEntry> {
    var i := EngineIndex(entries, id);
    if i < |entries| then Some(entries[i]) else None
  }

  function ExactMatches(entries: seq<EngineEntry>, required: seq<string>): seq<EngineEntry> {
    Filter(entries, (e: EngineEntry) => IsExactMatch(e, required))
  }

  /** Found by capabilities: the ACTIVE engines that declare every requested one as required or optional. */
  lemma FoundByCapabilities(entries: seq<EngineEntry>, required: seq<string>, e: EngineEntry)
    ensures e in ExactMatches(entries, required) <==>
      && e in entries && e.lifecycleStatus == Active
      && forall c :: c in required ==> c in e.required || c in e.optional
  {
    FilterMembers(entries, (e: EngineEntry) => IsExactMatch(e, required));
  }

  predicate HasAdapter(e: EngineEntry, runtimeAdapterId: string) {
    exists a :: a in e.runtimeAdapters && a.runtimeAdapterId == runtimeAdapterId
  }

  /** A JavaScript Map keeps insertion order; `entries` is that order. */
  class EngineRegistry {
    var entries: seq<EngineEntry>

    ghost predicate Valid()
      reads this
    {
      DistinctEngines(entries)
    }

    constructor ()
      ensures Valid() && entries == []
    {
      entries := [];
    }

    /** False stands for the "already registered" error. */
    method Register(entry: EngineEntry) returns (registered: bool)
      requires Valid()
      modifies this
      ensures Valid()
      ensures registered <==> GetEngine(old(entries), entry.canonicalEngineId) == None
      ensures entries == if registered then old(entries) + [entry] else old(entries)
    {
      registered := EngineIndex(entries, entry.canonicalEngineId) == |entries|;
      if registered {
        entries := entries + [entry];
      }
    }

    method GetByRuntimeAdapterId(runtimeAdapterId: string) returns (found: Option<EngineEntry>)
      ensures found.Some? ==> exists i ::
        && 0 <= i < |entries| && entries[i] == found.value && HasAdapter(entries[i], runtimeAdapterId)
        && forall j :: 0 <= j < i ==> !HasAdapter(entries[j], runtimeAdapterId)
      ensures found.Some? ==> exists a :: a in found.value.runtimeAdapters && a.runtimeAdapterId == runtimeAdapterId
      ensures found.None? ==> forall j :: 0 <= j < |entries| ==> !HasAdapter(entries[j], runtimeAdapterId)
    {
      for i := 0 to |entries|
        invariant forall j :: 0 <= j < i ==> !HasAdapter(entries[j], runtimeAdapterId)
      {
        if HasAdapter(entries[i], runtimeAdapterId) {
          return Some(entries[i]);
        }
      }
      return None;
    }
  }

  // ---------------------------------------------------------------- templates

  datatype TemplateEntry = TemplateEntry(
    templateId: string,
    templateVersion: string,
    canonicalEngineId: string,
    requiredCapabilities: seq<string>)

  /** The Map key. */
  function TemplateKey(templateId: string, templateVersion: string): string {
    templateId + "@" + templateVersion
  }

  function KeyOf(t: TemplateEntry): string {
    TemplateKey(t.templateId, t.templateVersion)
  }

  ghost predicate DistinctTemplates(templates: seq<TemplateEntry>) {
    forall i, j :: 0 <= i < j < |templates| ==> KeyOf(templates[i]) != KeyOf(templates[j])
  }

  function CoveringTemplates(templates: seq<TemplateEntry>, required: seq<string>): seq<TemplateEntry> {
    Filter(templates, (t: TemplateEntry) => Covers(t.requiredCapabilities, required))
  }

  /** Templates found by capabilities: those that require every requested one. */
  lemma TemplatesFoundByCapabilities(templates: seq<TemplateEntry>, required: seq<string>, t: TemplateEntry)
    ensures t in CoveringTemplates(templates, required) <==>
      t in templates && forall c :: c in required ==> c in t.requiredCapabilities
  {
    FilterMembers(templates, (t: TemplateEntry) => Covers(t.requiredCapabilities, required));
  }

  class TemplateRegistry {
    var templates: seq<TemplateEntry>

    ghost predicate Valid()
      reads this
    {
      DistinctTemplates(templates)
    }

    constructor ()
      ensures Valid() && templates == []
    {
      templates := [];
    }

    method Register(entry: TemplateEntry) returns (registered: bool)
      requires Valid()
      modifies this
      ensures Valid()
      ensures registered <==> forall i :: 0 <= i < |old(templates)| ==> KeyOf(old(templates)[i]) != KeyOf(entry)
      ensures templates == if registered then old(templates) + [entry] else old(templates)
    {
      registered := First(templates, (t: TemplateEntry) => KeyOf(t) == KeyOf(entry)) == |templates|;
      if registered {
        templates := templates + [entry];
      }
    }
  }

  /** The first key's separator comes earlier, inside the second template's id. */
  ghost predicate Overlaps(id1: string, version1: string, id2: string, version2: string) {
    exists middle :: id2 == id1 + "@" + middle && version1 == middle + "@" + version2
  }

  lemma EarlierSeparator(id1: string, version1: string, id2: string, version2: string)
    requires |id1| < |id2|
    ensures TemplateKey(id1, version1) == TemplateKey(id2, version2) <==> Overlaps(id1, version1, id2, version2)
  {
    var k1, k2 := TemplateKey(id1, version1), TemplateKey(id2, version2);
    if k1 == k2 {
      var middle := id2[|id1| + 1..];
      assert id2 == k1[..|id2|] && k1[..|id1|] == id1 && k1[|id1|] == '@';
      assert id2 == id1 + "@" + middle;
      assert version1 == k2[|id1| + 1..] == middle + "@" + version2;
    }
    if middle :| id2 == id1 + "@" + middle && version1 == middle + "@" + version2 {
      assert k2 == id1 + "@" + (middle + "@" + version2);
    }
  }

  /** All pairs of templates that share a key. */
  lemma TemplateKeysAgreeIff(id1: string, version1: string, id2: string, version2: string)
    ensures TemplateKey(id1, version1) == TemplateKey(id2, version2) <==>
      || (id1 == id2 && version1 == version2)
      || Overlaps(id1, version1, id2, version2)
      || Overlaps(id2, version2, id1, version1)
  {
    var k1, k2 := TemplateKey(id1, version1), TemplateKey(id2, version2);
    if |id1| < |id2| {
      EarlierSeparator(id1, version1, id2, version2);
    } else if |id2| < |id1| {
      EarlierSeparator(id2, version2, id1, version1);
    } else {
      assert k1[..|id1|] == id1 && k2[..|id2|] == id2;
      assert k1[|id1| + 1..] == version1 && k2[|id2| + 1..] == version2;
    }
  }

  predicate EndsWith(text: string, tail: string) {
    |tail| <= |text| && text[|text| - |tail|..] == tail
  }

  /** Two different templates can share a key, and the second be refused, exactly for these versions. */
  lemma VersionsCanCollideIff(version1: string, version2: string)
    ensures (exists id1, id2 :: (id1 != id2 || version1 != version2)
                             && TemplateKey(id1, version1) == TemplateKey(id2, version2))
      <==> version1 != version2 && (EndsWith(version1, "@" + version2) || EndsWith(version2, "@" + version1))
  {
    if id1, id2 :| (id1 != id2 || version1 != version2) && TemplateKey(id1, version1) == TemplateKey(id2, version2) {
      TemplateKeysAgreeIff(id1, version1, id2, version2);
      OverlapIsATail(id1, version1, id2, version2);
      OverlapIsATail(id2, version2, id1, version1);
    }
    if EndsWith(version1, "@" + version2) { TailOverlaps(version1, version2); }
    if EndsWith(version2, "@" + version1) { TailOverlaps(version2, version1); }
  }

  lemma OverlapIsATail(id1: string, version1: string, id2: string, version2: string)
    ensures Overlaps(id1, version1, id2, version2) ==> version1 != version2 && EndsWith(version1, "@" + version2)
  {
    if middle :| id2 == id1 + "@" + middle && version1 == middle + "@" + version2 {
      assert version1 == middle + ("@" + version2);
      assert |version1| > |version2|;
    }
  }

  lemma TailOverlaps(version1: string, version2: string)
    requires EndsWith(version1, "@" + version2)
    ensures exists id :: TemplateKey("", version1) == TemplateKey(id, version2) && id != ""
  {
    var middle := version1[..|version1| - |version2| - 1];
    assert version1 == middle + ("@" + version2) == middle + "@" + version2;
    assert Overlaps("", version1, "" + "@" + middle, version2);
    TemplateKeysAgreeIff("", version1, "" + "@" + middle, version2);
  }

  // ---------------------------------------------------------------- the runtime registry

  datatype RuntimeEngine = RuntimeEngine(canonicalEngineId: string, runtimeAdapterId: string, engineVersion: string)

  function OfCanonical(engines: seq<RuntimeEngine>, canonicalEngineId: string): seq<RuntimeEngine> {
    Filter(engines, (e: RuntimeEngine) => e.canonicalEngineId == canonicalEngineId)
  }

  ghost predicate DistinctAdapters(engines: seq<RuntimeEngine>) {
    forall i, j :: 0 <= i < j < |engines| ==> engines[i].runtimeAdapterId != engines[j].runtimeAdapterId
  }

  ghost predicate HasEngineOf(engines: seq<RuntimeEngine>, c: string) {
    exists i :: 0 <= i < |engines| && engines[i].canonicalEngineId == c
  }

  /** The first index holds exactly `engines`, its keys inserted in that order. */
  ghost predicate IsAdapterIndex(
    byAdapter: map<string, RuntimeEngine>, adapterIds: seq<string>, engines: seq<RuntimeEngine>)
  {
    && |adapterIds| == |engines|
    && (forall i :: 0 <= i < |engines| ==>
         && adapterIds[i] == engines[i].runtimeAdapterId
         && adapterIds[i] in byAdapter && byAdapter[adapterIds[i]] == engines[i])
    && (forall id :: id in byAdapter ==> id in adapterIds)
  }

  /** The second index holds exactly `engines`, grouped, each group in that order. */
  ghost predicate IsCanonicalIndex(byCanonical: map<string, seq<RuntimeEngine>>, engines: seq<RuntimeEngine>) {
    && (forall c :: c in byCanonical <==> HasEngineOf(engines, c))
    && (forall c :: c in byCanonical ==> byCanonical[c] == OfCanonical(engines, c))
  }

  function SiblingsOf(byCanonical: map<string, seq<RuntimeEngine>>, c: string): seq<RuntimeEngine> {
    if c in byCanonical then byCanonical[c] else []
  }

  lemma {:induction false} NoneOfCanonical(engines: seq<RuntimeEngine>, c: string)
    ensures HasEngineOf(engines, c) <==> OfCanonical(engines, c) != []
  {
    if |engines| > 0 {
      NoneOfCanonical(Front(engines), c);
      assert Last(engines) == engines[|engines| - 1];
      assert HasEngineOf(Front(engines), c) ==> HasEngineOf(engines, c) by {
        if i :| 0 <= i < |Front(engines)| && Front(engines)[i].canonicalEngineId == c {
          assert engines[i].canonicalEngineId == c;
        }
      }
    }
  }

  lemma CanonicalLookup(byCanonical: map<string, seq<RuntimeEngine>>, engines: seq<RuntimeEngine>, c: string)
    requires IsCanonicalIndex(byCanonical, engines)
    ensures SiblingsOf(byCanonical, c) == OfCanonical(engines, c)
  {
    NoneOfCanonical(engines, c);
  }

  lemma AddToCanonicalIndex(
    byCanonical: map<string, seq<RuntimeEngine>>, engines: seq<RuntimeEngine>, engine: RuntimeEngine)
    requires IsCanonicalIndex(byCanonical, engines)
    ensures IsCanonicalIndex(
              byCanonical[engine.canonicalEngineId := SiblingsOf(byCanonical, engine.canonicalEngineId) + [engine]],
              engines + [engine])
  {
    var grown := engines + [engine];
    forall c
      ensures OfCanonical(grown, c) == OfCanonical(engines, c) + if engine.canonicalEngineId == c then [engine] else []
      ensures HasEngineOf(grown, c) <==> HasEngineOf(engines, c) || c == engine.canonicalEngineId
    {
      assert Front(grown) == engines && Last(grown) == engine;
      NoneOfCanonical(engines, c);
      NoneOfCanonical(grown, c);
    }
    CanonicalLookup(byCanonical, engines, engine.canonicalEngineId);
  }

  lemma AddToAdapterIndex(
    byAdapter: map<string, RuntimeEngine>, adapterIds: seq<string>, engines: seq<RuntimeEngine>, engine: RuntimeEngine)
    requires IsAdapterIndex(byAdapter, adapterIds, engines) && engine.runtimeAdapterId !in byAdapter
    ensures IsAdapterIndex(
              byAdapter[engine.runtimeAdapterId := engine],
              adapterIds + [engine.runtimeAdapterId],
              engines + [engine])
  {
  }

  /** An adapter id that the index does not hold is new. */
  lemma AddDistinct(
    byAdapter: map<string, RuntimeEngine>, adapterIds: seq<string>, engines: seq<RuntimeEngine>, engine: RuntimeEngine)
    requires IsAdapterIndex(byAdapter, adapterIds, engines) && engine.runtimeAdapterId !in byAdapter
    requires DistinctAdapters(engines)
    ensures DistinctAdapters(engines + [engine])
  {
    AdapterIndexLookup(byAdapter, adapterIds, engines, engine.runtimeAdapterId);
  }

  lemma AdapterIndexLookup(
    byAdapter: map<string, RuntimeEngine>, adapterIds: seq<string>, engines: seq<RuntimeEngine>, id: string)
    requires IsAdapterIndex(byAdapter, adapterIds, engines)
    ensures id in byAdapter <==> exists i :: 0 <= i < |engines| && engines[i].runtimeAdapterId == id
    ensures id in byAdapter ==> byAdapter[id] in engines && byAdapter[id].runtimeAdapterId == id
  {
    if id in byAdapter {
      var i :| 0 <= i < |adapterIds| && adapterIds[i] == id;
      assert engines[i].runtimeAdapterId == id && byAdapter[id] == engines[i];
    }
  }

  /** The array kept for one canonical id; callers are handed the array itself. */
  class Siblings {
    var engines: seq<RuntimeEngine>

    constructor ()
      ensures engines == []
    {
      engines := [];
    }
  }

  class EngineRuntimeRegistry {
    var byRuntimeAdapterId: map<string, RuntimeEngine>
    /** Insertion order of the first map's keys. */
    var adapterIds: seq<string>
    var byCanonicalEngineId: map<string, Siblings>
    /** Everything registered, in registration order. */
    ghost var engines: seq<RuntimeEngine>

    /** The contents of the second index. */
    ghost function Groups(): map<string, seq<RuntimeEngine>>
      reads this`byCanonicalEngineId, byCanonicalEngineId.Values
    {
      map c | c in byCanonicalEngineId :: byCanonicalEngineId[c].engines
    }

    /** Both indexes hold the registered engines, each once, in registration order; no array is shared. */
    ghost predicate Valid()
      reads this, byCanonicalEngineId.Values
    {
      && IsAdapterIndex(byRuntimeAdapterId, adapterIds, engines)
      && IsCanonicalIndex(Groups(), engines)
      && DistinctAdapters(engines)
      && Separate()
    }

    ghost predicate Separate()
      reads this`byCanonicalEngineId
    {
      forall c, d :: c in byCanonicalEngineId && d in byCanonicalEngineId && c != d ==>
        byCanonicalEngineId[c] != byCanonicalEngineId[d]
    }

    constructor ()
      ensures Valid() && engines == [] && byCanonicalEngineId == map[]
    {
      byRuntimeAdapterId := map[];
      adapterIds := [];
      byCanonicalEngineId := map[];
      engines := [];
    }

    /** False stands for the "already registered" error, which leaves both indexes alone. */
    method Register(engine: RuntimeEngine) returns (registered: bool)
      requires Valid()
      modifies this, byCanonicalEngineId.Values
      ensures Valid()
      ensures registered <==> forall i :: 0 <= i < |old(engines)| ==>
        old(engines)[i].runtimeAdapterId != engine.runtimeAdapterId
      ensures engines == if registered then old(engines) + [engine] else old(engines)
      ensures !registered ==>
        && byRuntimeAdapterId == old(byRuntimeAdapterId) && adapterIds == old(adapterIds)
        && byCanonicalEngineId == old(byCanonicalEngineId) && Groups() == old(Groups())
      ensures forall c :: c in old(byCanonicalEngineId) ==>
        c in byCanonicalEngineId && byCanonicalEngineId[c] == old(byCanonicalEngineId[c])
      ensures forall c :: c in byCanonicalEngineId && c !in old(byCanonicalEngineId) ==> fresh(byCanonicalEngineId[c])
    {
      AdapterIndexLookup(byRuntimeAdapterId, adapterIds, engines, engine.runtimeAdapterId);
      registered := engine.runtimeAdapterId !in byRuntimeAdapterId;
      if registered {
        Add(engine);
      }
    }

    /** Both index updates for an engine whose adapter id is new. */
    method Add(engine: RuntimeEngine)
      requires Valid() && engine.runtimeAdapterId !in byRuntimeAdapterId
      modifies this, byCanonicalEngineId.Values
      ensures Valid()
      ensures engines == old(engines) + [engine]
      ensures forall c :: c in old(byCanonicalEngineId) ==>
        c in byCanonicalEngineId && byCanonicalEngineId[c] == old(byCanonicalEngineId[c])
      ensures forall c :: c in byCanonicalEngineId && c !in old(byCanonicalEngineId) ==> fresh(byCanonicalEngineId[c])
    {
      AppendSibling(engine, engines);
      SetAdapter(engine);
    }

    method SetAdapter(engine: RuntimeEngine)
      requires IsAdapterIndex(byRuntimeAdapterId, adapterIds, engines) && DistinctAdapters(engines)
      requires engine.runtimeAdapterId !in byRuntimeAdapterId
      modifies this`byRuntimeAdapterId, this`adapterIds, this`engines
      ensures IsAdapterIndex(byRuntimeAdapterId, adapterIds, engines) && DistinctAdapters(engines)
      ensures engines == old(engines) + [engine]
    {
      AddToAdapterIndex(byRuntimeAdapterId, adapterIds, engines, engine);
      AddDistinct(byRuntimeAdapterId, adapterIds, engines, engine);
      byRuntimeAdapterId := byRuntimeAdapterId[engine.runtimeAdapterId := engine];
      adapterIds := adapterIds + [engine.runtimeAdapterId];
      engines := engines + [engine];
    }

    /** The array of the engine's canonical id, created when missing, grows in place. */
    method AppendSibling(engine: RuntimeEngine, ghost before: seq<RuntimeEngine>)
      requires Separate() && IsCanonicalIndex(Groups(), before)
      modifies this`byCanonicalEngineId, byCanonicalEngineId.Values
      ensures Separate() && IsCanonicalIndex(Groups(), before + [engine])
      ensures forall c :: c in old(byCanonicalEngineId) ==>
        c in byCanonicalEngineId && byCanonicalEngineId[c] == old(byCanonicalEngineId[c])
      ensures forall c :: c in byCanonicalEngineId && c !in old(byCanonicalEngineId) ==> fresh(byCanonicalEngineId[c])
    {
      AddToCanonicalIndex(Groups(), before, engine);
      ghost var grown := Groups()[engine.canonicalEngineId :=
                                    SiblingsOf(Groups(), engine.canonicalEngineId) + [engine]];
      var siblings: Siblings;
      if engine.canonicalEngineId in byCanonicalEngineId {
        siblings := byCanonicalEngineId[engine.canonicalEngineId];
      } else {
        siblings := new Siblings();
      }
      siblings.engines := siblings.engines + [engine];
      byCanonicalEngineId := byCanonicalEngineId[engine.canonicalEngineId := siblings];
      assert Groups() == grown;
    }

    method GetByRuntimeAdapterId(runtimeAdapterId: string) returns (found: Option<RuntimeEngine>)
      requires Valid()
      ensures found.Some? ==> found.value in engines && found.value.runtimeAdapterId == runtimeAdapterId
      ensures found.None? ==> forall e :: e in engines ==> e.runtimeAdapterId != runtimeAdapterId
    {
      AdapterIndexLookup(byRuntimeAdapterId, adapterIds, engines, runtimeAdapterId);
      found := if runtimeAdapterId in byRuntimeAdapterId then Some(byRuntimeAdapterId[runtimeAdapterId]) else None;
    }

    /** The registry's own array, or a new empty one that the registry does not keep. */
    method GetByCanonicalEngineId(canonicalEngineId: string) returns (found: Siblings)
      requires Valid()
      ensures found.engines == OfCanonical(engines, canonicalEngineId)
      ensures if canonicalEngineId in byCanonicalEngineId then found == byCanonicalEngineId[canonicalEngineId]
              else fresh(found)
    {
      CanonicalLookup(Groups(), engines, canonicalEngineId);
      if canonicalEngineId in byCanonicalEngineId {
        found := byCanonicalEngineId[canonicalEngineId];
      } else {
        found := new Siblings();
      }
    }

    /** The values of the first map, in insertion order. */
    method List() returns (all: seq<RuntimeEngine>)
      requires Valid()
      ensures all == engines
    {
      all := [];
      for i := 0 to |adapterIds|
        invariant all == engines[..i]
      {
        all := all + [byRuntimeAdapterId[adapterIds[i]]];
      }
    }
  }

  /** What both getters answer agrees with what List answers, whatever was registered. */
  method LookupsAgree(registry: EngineRuntimeRegistry, id: string) returns (
      all: seq<RuntimeEngine>, byAdapter: Option<RuntimeEngine>, byCanonical: seq<RuntimeEngine>)
    requires registry.Valid()
    ensures byCanonical == OfCanonical(all, id)
    ensures byAdapter.Some? <==> exists e :: e in all && e.runtimeAdapterId == id
    ensures byAdapter.Some? ==> byAdapter.value in OfCanonical(all, byAdapter.value.canonicalEngineId)
    ensures DistinctAdapters(all)
  {
    all := registry.List();
    byAdapter := registry.GetByRuntimeAdapterId(id);
    var siblings := registry.GetByCanonicalEngineId(id);
    byCanonical := siblings.engines;
    if byAdapter.Some? {
      var c := byAdapter.value.canonicalEngineId;
      FilterMembers(all, (e: RuntimeEngine) => e.canonicalEngineId == c);
    }
  }

  /**
   * A looked-up array is live: after a later registration it still answers the lookup, unless the
   * lookup had found nothing; then it stays empty.
   */
  method RegisterAfterLookup(registry: EngineRuntimeRegistry, c: string, engine: RuntimeEngine)
    returns (found: Siblings, registered: bool)
    requires registry.Valid()
    modifies registry, registry.byCanonicalEngineId.Values
    ensures registry.Valid()
    ensures found.engines == if c in old(registry.byCanonicalEngineId) then OfCanonical(registry.engines, c) else []
  {
    found := registry.GetByCanonicalEngineId(c);
    NoneOfCanonical(registry.engines, c);
    ghost var known := c in registry.byCanonicalEngineId;
    registered := registry.Register(engine);
    CanonicalLookup(registry.Groups(), registry.engines, c);
  }
}
