/**
 * The Merlin data-exchange engine: sizes its worker pool, parses the configuration files, fills
 * its caches of templates, quality versions and per-template measures from the Merlin web
 * service, then walks every configuration's exchange sets in order, exchanging each set's
 * measures into the set's destination DSS file, until the run ends or is cancelled.
 *
 * The web service, the configuration parser, the platform's notion of an absolute path and the
 * moments at which another thread asks to cancel are collaborators given to the engine.
 */
module ExchangeEngine {
  import opened Wrappers
  import opened JavaStrings
  import opened Streams
  import opened MerlinTypes
  import opened ExchangeParameters
  import opened CompletionTracking
  import opened Progress
  import opened Dss
  import opened DssWritePath
  import opened DaoReader
  import opened DaoWriter

  const PERCENT_COMPLETE_ALLOCATED_FOR_INITIAL_SETUP: int := 5
  const THREAD_COUNT: int := 5
  const THREAD_PROPERTY_KEY: string := "merlin.dataexchange.threadpool.size"
  /** The percentage reported once the configuration files are parsed. */
  const CONFIGURATIONS_PARSED_PERCENT: int := 1
  /** `(int) (5 * 0.4)` and `(int) (5 * 0.6)`: the percentages reported after each cache fetch. */
  const TEMPLATES_RETRIEVED_PERCENT: int := 2
  const QUALITY_VERSIONS_RETRIEVED_PERCENT: int := 3

  // ---------------------------------------------------------------------------------------------
  // Worker-pool sizing

  datatype NumberFormatException = NumberFormatException(text: string)

  function Max(a: int, b: int): int {
    if a >= b then a else b
  }

  /** Half the logical processors, since hyper-threading cannot be detected. */
  function GetCoreCount(availableProcessors: nat): nat {
    availableProcessors / 2
  }

  /**
   * The pool size: the system property's value raised to at least 1 when the property is set
   * (an unparsable value raises `NumberFormatException`), otherwise five threads per core,
   * counting at least one core.
   */
  function GetThreadPoolSize(threadPoolProperty: Option<string>, availableProcessors: nat): (r: Result<int, NumberFormatException>)
    ensures r.Success? ==> r.value >= 1
    ensures threadPoolProperty.Some? ==> (r.Success? <==> ParseInt(threadPoolProperty.value).Some?)
    ensures threadPoolProperty.Some? && r.Success? ==> r.value == Max(ParseInt(threadPoolProperty.value).value, 1)
    ensures threadPoolProperty.None? ==> r.Success? && r.value % THREAD_COUNT == 0 && r.value >= THREAD_COUNT
    ensures threadPoolProperty.None? ==> r == Success(THREAD_COUNT * Max(availableProcessors / 2, 1))
  {
    match threadPoolProperty
    case Some(text) =>
      (match ParseInt(text)
       case Some(n) => Success(Max(n, 1))
       case None => Failure(NumberFormatException(text)))
    case None =>
      var coreCount := Max(GetCoreCount(availableProcessors), 1);
      Success(THREAD_COUNT * coreCount)
  }

  /** Without the property, a machine with 8 logical processors gets 20 threads and a single-processor machine 5. */
  lemma DefaultPoolSizes()
    ensures GetThreadPoolSize(None, 8) == Success(20)
    ensures GetThreadPoolSize(None, 1) == Success(5)
  {
  }

  /** A property written as digits, "0" included, yields its value but never fewer than one thread. */
  lemma PoolSizeAtLeastOne(digits: string)
    requires 0 < |digits| && forall i :: 0 <= i < |digits| ==> IsDigit(digits[i])
    requires DecimalValue(digits) <= INT_MAX_VALUE
    ensures GetThreadPoolSize(Some(digits), 0) == Success(Max(DecimalValue(digits), 1))
  {
    ParseIntOfDigits(digits);
  }

  // ---------------------------------------------------------------------------------------------
  // Resolving a set's template, quality version and destination

  predicate TemplateNameMatches(t: TemplateWrapper, exchangeSet: DataExchangeSet) {
    EqualsIgnoreCase(t.name, exchangeSet.templateName)
  }

  predicate TemplateIdMatches(t: TemplateWrapper, exchangeSet: DataExchangeSet) {
    t.dprId == exchangeSet.templateId
  }

  /**
   * The set's template: the first cached template whose name equals the set's template name
   * ignoring case; only when none does, the first whose id equals the set's template id;
   * otherwise none.
   */
  function GetTemplateFromDataExchangeSet(cachedTemplates: seq<TemplateWrapper>, exchangeSet: DataExchangeSet): (r: Option<TemplateWrapper>)
    ensures r.Some? ==> r.value in cachedTemplates
    ensures (exists i :: 0 <= i < |cachedTemplates| && TemplateNameMatches(cachedTemplates[i], exchangeSet)) ==>
      exists i :: 0 <= i < |cachedTemplates| && r == Some(cachedTemplates[i]) && TemplateNameMatches(cachedTemplates[i], exchangeSet)
        && forall j :: 0 <= j < i ==> !TemplateNameMatches(cachedTemplates[j], exchangeSet)
    ensures (forall i :: 0 <= i < |cachedTemplates| ==> !TemplateNameMatches(cachedTemplates[i], exchangeSet)) ==>
      (r.Some? <==> exists i :: 0 <= i < |cachedTemplates| && TemplateIdMatches(cachedTemplates[i], exchangeSet))
    ensures (forall i :: 0 <= i < |cachedTemplates| ==> !TemplateNameMatches(cachedTemplates[i], exchangeSet)) && r.Some? ==>
      exists i :: 0 <= i < |cachedTemplates| && r == Some(cachedTemplates[i]) && TemplateIdMatches(cachedTemplates[i], exchangeSet)
        && forall j :: 0 <= j < i ==> !TemplateIdMatches(cachedTemplates[j], exchangeSet)
  {
    match FindFirst(cachedTemplates, t => TemplateNameMatches(t, exchangeSet))
    case Some(i) => Some(cachedTemplates[i])
    case None =>
      match FindFirst(cachedTemplates, t => TemplateIdMatches(t, exchangeSet))
      case Some(i) => Some(cachedTemplates[i])
      case None => None
  }

  /** A name match wins over an earlier id match. */
  lemma NameMatchTakesPrecedence()
    ensures var byId := TemplateWrapper(7, "Reservoir");
      var byName := TemplateWrapper(9, "SHASTA");
      var exchangeSet := DataExchangeSet("shasta", 7, "", Some(0), "SI", "a", DataStoreRef("a"), DataStoreRef("b"));
      GetTemplateFromDataExchangeSet([byId, byName], exchangeSet) == Some(byName)
  {
    var byId := TemplateWrapper(7, "Reservoir");
    var byName := TemplateWrapper(9, "SHASTA");
    var exchangeSet := DataExchangeSet("shasta", 7, "", Some(0), "SI", "a", DataStoreRef("a"), DataStoreRef("b"));
    assert !TemplateNameMatches(byId, exchangeSet);
    assert TemplateNameMatches(byName, exchangeSet);
  }

  predicate QualityVersionNameMatches(q: QualityVersionWrapper, exchangeSet: DataExchangeSet) {
    EqualsIgnoreCase(q.qualityVersionName, exchangeSet.qualityVersionName)
  }

  predicate QualityVersionIdMatches(q: QualityVersionWrapper, qualityVersionId: int) {
    q.qualityVersionId == qualityVersionId
  }

  /** Unboxing the set's absent quality-version id. */
  datatype NullPointerException = NullPointerException

  /**
   * The set's quality version, by the same two steps as templates: first match by name ignoring
   * case, else first match by id; a version that is not found is simply absent. The id step
   * unboxes the set's id as soon as it inspects a cached version, so a set without an id whose
   * name matches nothing in a non-empty cache raises `NullPointerException`.
   */
  function GetQualityVersionIdFromDataExchangeSet(cachedQualityVersions: seq<QualityVersionWrapper>, exchangeSet: DataExchangeSet)
    : (r: Result<Option<QualityVersionWrapper>, NullPointerException>)
    ensures r.Failure? <==>
      && (forall i :: 0 <= i < |cachedQualityVersions| ==> !QualityVersionNameMatches(cachedQualityVersions[i], exchangeSet))
      && |cachedQualityVersions| > 0 && exchangeSet.qualityVersionId.None?
    ensures r.Success? && r.value.Some? ==> r.value.value in cachedQualityVersions
    ensures (exists i :: 0 <= i < |cachedQualityVersions| && QualityVersionNameMatches(cachedQualityVersions[i], exchangeSet)) ==>
      exists i :: 0 <= i < |cachedQualityVersions| && r == Success(Some(cachedQualityVersions[i]))
        && QualityVersionNameMatches(cachedQualityVersions[i], exchangeSet)
        && forall j :: 0 <= j < i ==> !QualityVersionNameMatches(cachedQualityVersions[j], exchangeSet)
    ensures (forall i :: 0 <= i < |cachedQualityVersions| ==> !QualityVersionNameMatches(cachedQualityVersions[i], exchangeSet))
            && exchangeSet.qualityVersionId.Some? ==>
      var id := exchangeSet.qualityVersionId.value;
      && r.Success?
      && (r.value.Some? <==> exists i :: 0 <= i < |cachedQualityVersions| && QualityVersionIdMatches(cachedQualityVersions[i], id))
      && (r.value.Some? ==>
            exists i :: 0 <= i < |cachedQualityVersions| && r.value == Some(cachedQualityVersions[i])
              && QualityVersionIdMatches(cachedQualityVersions[i], id)
              && forall j :: 0 <= j < i ==> !QualityVersionIdMatches(cachedQualityVersions[j], id))
  {
    match FindFirst(cachedQualityVersions, q => QualityVersionNameMatches(q, exchangeSet))
    case Some(i) => Success(Some(cachedQualityVersions[i]))
    case None =>
      if |cachedQualityVersions| == 0 then Success(None)
      else match exchangeSet.qualityVersionId
        case None => Failure(NullPointerException)
        case Some(id) =>
          match FindFirst(cachedQualityVersions, q => QualityVersionIdMatches(q, id))
          case Some(i) => Success(Some(cachedQualityVersions[i]))
          case None => Success(None)
  }

  /** The reference data flows to: A when the set's source is B (ignoring case), B otherwise. */
  function DestinationRef(exchangeSet: DataExchangeSet): (r: DataStoreRef)
    ensures r == exchangeSet.dataStoreRefA || r == exchangeSet.dataStoreRefB
    ensures r == exchangeSet.dataStoreRefA <== EqualsIgnoreCase(exchangeSet.sourceId, exchangeSet.dataStoreRefB.id)
    ensures r == exchangeSet.dataStoreRefB <== !EqualsIgnoreCase(exchangeSet.sourceId, exchangeSet.dataStoreRefB.id)
  {
    if EqualsIgnoreCase(exchangeSet.sourceId, exchangeSet.dataStoreRefB.id) then exchangeSet.dataStoreRefA else exchangeSet.dataStoreRefB
  }

  /** When the source is one of two distinct references, data flows to the other one. */
  lemma DestinationIsNotSource(exchangeSet: DataExchangeSet)
    requires EqualsIgnoreCase(exchangeSet.sourceId, exchangeSet.dataStoreRefA.id) || EqualsIgnoreCase(exchangeSet.sourceId, exchangeSet.dataStoreRefB.id)
    requires !EqualsIgnoreCase(exchangeSet.dataStoreRefA.id, exchangeSet.dataStoreRefB.id)
    ensures !EqualsIgnoreCase(DestinationRef(exchangeSet).id, exchangeSet.sourceId)
  {
    var a, b, s := exchangeSet.dataStoreRefA.id, exchangeSet.dataStoreRefB.id, exchangeSet.sourceId;
    if EqualsIgnoreCase(s, b) {
      if EqualsIgnoreCase(a, s) {
        EqualsIgnoreCaseTransitive(a, s, b);
      }
    } else {
      assert EqualsIgnoreCase(s, a);
      if EqualsIgnoreCase(b, s) {
        EqualsIgnoreCaseSymmetric(b, s);
      }
    }
  }

  // ---------------------------------------------------------------------------------------------
  // The measures cache, specified as a fold over the parsed configurations

  /** The measures cache together with what filling it reported and which templates it fetched. */
  datatype CacheState = CacheState(
    measures: map<TemplateWrapper, seq<MeasureWrapper>>,
    events: seq<Event>,
    requests: seq<TemplateWrapper>)

  /** Every cached template was fetched exactly once, and only cached templates were fetched. */
  ghost predicate CacheConsistent(st: CacheState) {
    && (forall i, j :: 0 <= i < j < |st.requests| ==> st.requests[i] != st.requests[j])
    && (forall t :: t in st.measures <==> t in st.requests)
  }

  function MeasuresEvent(fetched: Result<seq<MeasureWrapper>, AccessError>, t: TemplateWrapper): Event {
    if fetched.Success? then Message(MeasuresRetrieved(|fetched.value|), Important, Some(PERCENT_COMPLETE_ALLOCATED_FOR_INITIAL_SETUP))
    else Message(MeasuresRetrievalFailed(t.dprId), Error, None)
  }

  /** One set's turn: an unresolvable template is reported; a resolved one is fetched unless already cached. */
  function CacheAfterSet(st: CacheState, exchangeSet: DataExchangeSet, templates: seq<TemplateWrapper>,
                         fetch: TemplateWrapper -> Result<seq<MeasureWrapper>, AccessError>): CacheState
  {
    match GetTemplateFromDataExchangeSet(templates, exchangeSet)
    case None => st.(events := st.events + [Message(TemplateNotFound(exchangeSet.templateName, exchangeSet.templateId), Error, None)])
    case Some(t) =>
      if t in st.measures then st
      else CacheState(st.measures[t := MeasuresOrEmpty(fetch(t))], st.events + [MeasuresEvent(fetch(t), t)], st.requests + [t])
  }

  function CacheAfterSets(st: CacheState, sets: seq<DataExchangeSet>, templates: seq<TemplateWrapper>,
                          fetch: TemplateWrapper -> Result<seq<MeasureWrapper>, AccessError>): CacheState
  {
    if |sets| == 0 then st
    else CacheAfterSet(CacheAfterSets(st, sets[..|sets| - 1], templates, fetch), sets[|sets| - 1], templates, fetch)
  }

  /** The cache after every set of every parsed configuration, in order; unparsed configurations are skipped. */
  function CacheAfterConfigs(st: CacheState, configs: seq<Option<DataExchangeConfiguration>>, templates: seq<TemplateWrapper>,
                             fetch: TemplateWrapper -> Result<seq<MeasureWrapper>, AccessError>): CacheState
  {
    if |configs| == 0 then st
    else
      var before := CacheAfterConfigs(st, configs[..|configs| - 1], templates, fetch);
      match configs[|configs| - 1]
      case None => before
      case Some(config) => CacheAfterSets(before, config.dataExchangeSets, templates, fetch)
  }

  /**
   * The cache fill as the engine's code is written: it asks an unparsed (null) configuration for
   * its sets, which throws, failing the whole initialisation with whatever was cached before.
   */
  function CacheAfterConfigsAsWritten(st: CacheState, configs: seq<Option<DataExchangeConfiguration>>, templates: seq<TemplateWrapper>,
                                      fetch: TemplateWrapper -> Result<seq<MeasureWrapper>, AccessError>): Result<CacheState, CacheState>
  {
    if |configs| == 0 then Success(st)
    else
      match CacheAfterConfigsAsWritten(st, configs[..|configs| - 1], templates, fetch)
      case Failure(partial) => Failure(partial)
      case Success(before) =>
        match configs[|configs| - 1]
        case None => Failure(before)
        case Some(config) => Success(CacheAfterSets(before, config.dataExchangeSets, templates, fetch))
  }

  /** As written, the fill agrees with the corrected one exactly when every configuration parsed. */
  lemma {:induction false} AsWrittenAgreesWhenAllParsed(st: CacheState, configs: seq<Option<DataExchangeConfiguration>>,
                                                       templates: seq<TemplateWrapper>,
                                                       fetch: TemplateWrapper -> Result<seq<MeasureWrapper>, AccessError>)
    ensures (forall i :: 0 <= i < |configs| ==> configs[i].Some?) ==>
      CacheAfterConfigsAsWritten(st, configs, templates, fetch) == Success(CacheAfterConfigs(st, configs, templates, fetch))
    ensures (exists i :: 0 <= i < |configs| && configs[i].None?) ==>
      CacheAfterConfigsAsWritten(st, configs, templates, fetch).Failure?
  {
    if |configs| > 0 {
      var init := configs[..|configs| - 1];
      AsWrittenAgreesWhenAllParsed(st, init, templates, fetch);
      assert forall i :: 0 <= i < |init| ==> init[i] == configs[i];
      if exists i :: 0 <= i < |configs| && configs[i].None? {
        var i :| 0 <= i < |configs| && configs[i].None?;
        if i < |configs| - 1 {
          assert init[i].None?;
        }
      }
    }
  }

  /** One configuration file that fails to parse makes the whole cache initialisation fail. */
  lemma UnparsedConfigurationFailsInitialization(st: CacheState, parsed: DataExchangeConfiguration, templates: seq<TemplateWrapper>,
                                                 fetch: TemplateWrapper -> Result<seq<MeasureWrapper>, AccessError>)
    ensures CacheAfterConfigsAsWritten(st, [Some(parsed), None], templates, fetch).Failure?
    ensures CacheAfterConfigs(st, [Some(parsed), None], templates, fetch) == CacheAfterSets(st, parsed.dataExchangeSets, templates, fetch)
  {
    var configs := [Some(parsed), None];
    AsWrittenAgreesWhenAllParsed(st, configs, templates, fetch);
    assert configs[..1] == [Some(parsed)];
    assert [Some(parsed)][..0] == [];
    assert CacheAfterConfigs(st, configs, templates, fetch) == CacheAfterConfigs(st, [Some(parsed)], templates, fetch);
    assert CacheAfterConfigs(st, [Some(parsed)], templates, fetch)
        == CacheAfterSets(CacheAfterConfigs(st, [], templates, fetch), parsed.dataExchangeSets, templates, fetch);
  }

  /** Filling keeps every entry already cached, unchanged. */
  lemma {:induction false} CacheSetsKeepEntries(st: CacheState, sets: seq<DataExchangeSet>, templates: seq<TemplateWrapper>,
                                                fetch: TemplateWrapper -> Result<seq<MeasureWrapper>, AccessError>)
    ensures var r := CacheAfterSets(st, sets, templates, fetch);
      forall t :: t in st.measures ==> t in r.measures && r.measures[t] == st.measures[t]
  {
    if |sets| > 0 {
      CacheSetsKeepEntries(st, sets[..|sets| - 1], templates, fetch);
    }
  }

  lemma {:induction false} CacheConfigsKeepEntries(st: CacheState, configs: seq<Option<DataExchangeConfiguration>>,
                                                   templates: seq<TemplateWrapper>,
                                                   fetch: TemplateWrapper -> Result<seq<MeasureWrapper>, AccessError>)
    ensures var r := CacheAfterConfigs(st, configs, templates, fetch);
      forall t :: t in st.measures ==> t in r.measures && r.measures[t] == st.measures[t]
  {
    if |configs| > 0 {
      var before := CacheAfterConfigs(st, configs[..|configs| - 1], templates, fetch);
      CacheConfigsKeepEntries(st, configs[..|configs| - 1], templates, fetch);
      if configs[|configs| - 1].Some? {
        CacheSetsKeepEntries(before, configs[|configs| - 1].value.dataExchangeSets, templates, fetch);
      }
    }
  }

  /** Each template is fetched at most once: filling keeps the cache consistent with its fetch log. */
  lemma {:induction false} CacheSetsStayConsistent(st: CacheState, sets: seq<DataExchangeSet>, templates: seq<TemplateWrapper>,
                                                   fetch: TemplateWrapper -> Result<seq<MeasureWrapper>, AccessError>)
    requires CacheConsistent(st)
    ensures CacheConsistent(CacheAfterSets(st, sets, templates, fetch))
  {
    if |sets| > 0 {
      CacheSetsStayConsistent(st, sets[..|sets| - 1], templates, fetch);
    }
  }

  lemma {:induction false} CacheConfigsStayConsistent(st: CacheState, configs: seq<Option<DataExchangeConfiguration>>,
                                                      templates: seq<TemplateWrapper>,
                                                      fetch: TemplateWrapper -> Result<seq<MeasureWrapper>, AccessError>)
    requires CacheConsistent(st)
    ensures CacheConsistent(CacheAfterConfigs(st, configs, templates, fetch))
  {
    if |configs| > 0 {
      var before := CacheAfterConfigs(st, configs[..|configs| - 1], templates, fetch);
      CacheConfigsStayConsistent(st, configs[..|configs| - 1], templates, fetch);
      if configs[|configs| - 1].Some? {
        CacheSetsStayConsistent(before, configs[|configs| - 1].value.dataExchangeSets, templates, fetch);
      }
    }
  }

  /** Every set's resolvable template has an entry in `measures`. */
  predicate CoversSet(measures: map<TemplateWrapper, seq<MeasureWrapper>>, exchangeSet: DataExchangeSet, templates: seq<TemplateWrapper>) {
    GetTemplateFromDataExchangeSet(templates, exchangeSet).Some? ==>
      GetTemplateFromDataExchangeSet(templates, exchangeSet).value in measures
  }

  predicate CoversSets(measures: map<TemplateWrapper, seq<MeasureWrapper>>, sets: seq<DataExchangeSet>, templates: seq<TemplateWrapper>) {
    forall j :: 0 <= j < |sets| ==> CoversSet(measures, sets[j], templates)
  }

  /** Every parsed configuration's sets are covered. */
  predicate CoversConfigs(measures: map<TemplateWrapper, seq<MeasureWrapper>>, configs: seq<Option<DataExchangeConfiguration>>,
                          templates: seq<TemplateWrapper>) {
    forall i :: 0 <= i < |configs| && configs[i].Some? ==> CoversSets(measures, configs[i].value.dataExchangeSets, templates)
  }

  lemma {:induction false} CacheSetsCover(st: CacheState, sets: seq<DataExchangeSet>, templates: seq<TemplateWrapper>,
                                          fetch: TemplateWrapper -> Result<seq<MeasureWrapper>, AccessError>)
    ensures CoversSets(CacheAfterSets(st, sets, templates, fetch).measures, sets, templates)
  {
    if |sets| > 0 {
      var init := sets[..|sets| - 1];
      var before := CacheAfterSets(st, init, templates, fetch);
      CacheSetsCover(st, init, templates, fetch);
      var after := CacheAfterSets(st, sets, templates, fetch);
      assert after == CacheAfterSet(before, sets[|sets| - 1], templates, fetch);
      assert forall t :: t in before.measures ==> t in after.measures;
      forall j | 0 <= j < |sets| && GetTemplateFromDataExchangeSet(templates, sets[j]).Some?
        ensures GetTemplateFromDataExchangeSet(templates, sets[j]).value in after.measures
      {
        if j < |sets| - 1 {
          assert sets[j] == init[j];
        }
      }
    }
  }

  /**
   * After the fill, every resolvable template of every parsed configuration's sets is cached,
   * so the extraction later finds a measure list for each set it exchanges.
   */
  lemma {:induction false} CacheConfigsCover(st: CacheState, configs: seq<Option<DataExchangeConfiguration>>,
                                             templates: seq<TemplateWrapper>,
                                             fetch: TemplateWrapper -> Result<seq<MeasureWrapper>, AccessError>)
    ensures CoversConfigs(CacheAfterConfigs(st, configs, templates, fetch).measures, configs, templates)
  {
    if |configs| > 0 {
      var init := configs[..|configs| - 1];
      var before := CacheAfterConfigs(st, init, templates, fetch);
      var after := CacheAfterConfigs(st, configs, templates, fetch);
      CacheConfigsCover(st, init, templates, fetch);
      if configs[|configs| - 1].Some? {
        var sets := configs[|configs| - 1].value.dataExchangeSets;
        assert after == CacheAfterSets(before, sets, templates, fetch);
        CacheSetsKeepEntries(before, sets, templates, fetch);
        CacheSetsCover(before, sets, templates, fetch);
      } else {
        assert after == before;
      }
      forall i | 0 <= i < |configs| && configs[i].Some?
        ensures CoversSets(after.measures, configs[i].value.dataExchangeSets, templates)
      {
        if i < |configs| - 1 {
          assert configs[i] == init[i];
          CoversSetsGrow(before.measures, after.measures, configs[i].value.dataExchangeSets, templates);
        }
      }
    }
  }

  /** Coverage survives adding entries to the cache. */
  lemma CoversSetsGrow(m1: map<TemplateWrapper, seq<MeasureWrapper>>, m2: map<TemplateWrapper, seq<MeasureWrapper>>,
                       sets: seq<DataExchangeSet>, templates: seq<TemplateWrapper>)
    requires m1.Keys <= m2.Keys && CoversSets(m1, sets, templates)
    ensures CoversSets(m2, sets, templates)
  {
    forall j | 0 <= j < |sets|
      ensures CoversSet(m2, sets[j], templates)
    {
      assert CoversSet(m1, sets[j], templates);
    }
  }

  /** A template enters the cache only as the resolution of some set. */
  lemma {:induction false} CacheSetsAddOnlyResolved(st: CacheState, sets: seq<DataExchangeSet>, templates: seq<TemplateWrapper>,
                                                    fetch: TemplateWrapper -> Result<seq<MeasureWrapper>, AccessError>)
    ensures forall t :: t in CacheAfterSets(st, sets, templates, fetch).measures ==>
      t in st.measures || exists j :: 0 <= j < |sets| && GetTemplateFromDataExchangeSet(templates, sets[j]) == Some(t)
  {
    if |sets| > 0 {
      var init := sets[..|sets| - 1];
      CacheSetsAddOnlyResolved(st, init, templates, fetch);
      forall t | t in CacheAfterSets(st, sets, templates, fetch).measures
        ensures t in st.measures || exists j :: 0 <= j < |sets| && GetTemplateFromDataExchangeSet(templates, sets[j]) == Some(t)
      {
        if !(t in st.measures) && t in CacheAfterSets(st, init, templates, fetch).measures {
          var j :| 0 <= j < |init| && GetTemplateFromDataExchangeSet(templates, init[j]) == Some(t);
          assert sets[j] == init[j];
        }
      }
    }
  }

  // ---------------------------------------------------------------------------------------------
  // The total measure count

  /** The sum of the list sizes over all cached templates. */
  ghost function SumOfSizes(m: map<TemplateWrapper, seq<MeasureWrapper>>): nat
    decreases |m|
  {
    if |m| == 0 then 0
    else
      var k := SomeKey(m);
      |m[k]| + SumOfSizes(m - {k})
  }

  ghost function SomeKey(m: map<TemplateWrapper, seq<MeasureWrapper>>): (k: TemplateWrapper)
    requires |m| > 0
    ensures k in m
  {
    var k :| k in m; k
  }

  /** The sum does not depend on which key is taken first. */
  lemma {:induction false} SumOfSizesRemove(m: map<TemplateWrapper, seq<MeasureWrapper>>, k: TemplateWrapper)
    requires k in m
    ensures SumOfSizes(m) == |m[k]| + SumOfSizes(m - {k})
    decreases |m|
  {
    assert k in m.Keys;
    var j := SomeKey(m);
    if j != k {
      var mj, mk := m - {j}, m - {k};
      assert mj.Keys == m.Keys - {j} && mk.Keys == m.Keys - {k};
      assert k in mj && j in mk;
      SumOfSizesRemove(mj, k);
      SumOfSizesRemove(mk, j);
      assert mj - {k} == mk - {j};
    }
  }

  /** No template's list is longer than the total, so a tracker sized by the total covers every set. */
  lemma SizeAtMostSum(m: map<TemplateWrapper, seq<MeasureWrapper>>, k: TemplateWrapper)
    requires k in m
    ensures |m[k]| <= SumOfSizes(m)
  {
    SumOfSizesRemove(m, k);
  }

  // ---------------------------------------------------------------------------------------------
  // Positions of the sets, in the order the extraction visits them

  datatype SetPosition = SetPosition(config: nat, setIndex: nat)

  function SetPositions(configIndex: nat, config: Option<DataExchangeConfiguration>): (r: seq<SetPosition>)
    ensures config.None? ==> r == []
    ensures config.Some? ==> |r| == |config.value.dataExchangeSets|
    ensures config.Some? ==> forall j :: 0 <= j < |r| ==> r[j] == SetPosition(configIndex, j)
  {
    match config
    case None => []
    case Some(c) => seq(|c.dataExchangeSets|, j requires 0 <= j => SetPosition(configIndex, j))
  }

  /** No set of `ran` had a cancel request waiting at the moment its turn came. */
  predicate ClearAtTurn(ran: seq<SetPosition>, cancelRequested: Checkpoint -> bool) {
    forall k :: 0 <= k < |ran| ==> !cancelRequested(BeforeSet(ran[k].config, ran[k].setIndex))
  }

  /** Every set of every parsed configuration, configuration by configuration, in file order. */
  function AllSets(configs: seq<Option<DataExchangeConfiguration>>): seq<SetPosition> {
    if |configs| == 0 then []
    else AllSets(configs[..|configs| - 1]) + SetPositions(|configs| - 1, configs[|configs| - 1])
  }

  // ---------------------------------------------------------------------------------------------
  // The engine

  /** The points at which the engine reads its cancel flag; a cancel request may arrive just before any of them. */
  datatype Checkpoint =
    | BeforeCachingMeasures
    | BeforeExtracting
    | BeforeSet(config: nat, setIndex: nat)
    | BeforeMeasure(config: nat, setIndex: nat, measure: nat)
    | BeforeFetch(config: nat, setIndex: nat, measure: nat)
    | BeforeConvert(config: nat, setIndex: nat, measure: nat)
    | BeforeWrite(config: nat, setIndex: nat, measure: nat)
    | BeforeFinishing

  /** No checkpoint of `trace` at an index in [lo, hi) carried a cancel request. */
  ghost predicate ClearBetween(trace: seq<Checkpoint>, lo: int, hi: int, cancelRequested: Checkpoint -> bool) {
    forall u :: lo <= u < hi && 0 <= u < |trace| ==> !cancelRequested(trace[u])
  }

  lemma ClearBetweenGrow(t1: seq<Checkpoint>, t2: seq<Checkpoint>, lo: int, hi: int, cancelRequested: Checkpoint -> bool)
    requires t1 <= t2 && hi <= |t1| && ClearBetween(t1, lo, hi, cancelRequested)
    ensures ClearBetween(t2, lo, hi, cancelRequested)
  {
    forall u | lo <= u < hi && 0 <= u < |t2|
      ensures !cancelRequested(t2[u])
    {
      assert t2[u] == t1[u];
    }
  }

  /** Nothing was requested in [lo, hi) exactly when nothing was requested in [lo, mid) and in [mid, hi). */
  lemma ClearBetweenSplit(t1: seq<Checkpoint>, t2: seq<Checkpoint>, lo: int, hi: int, cancelRequested: Checkpoint -> bool)
    requires t1 <= t2 && 0 <= lo <= |t1| <= hi <= |t2|
    ensures ClearBetween(t2, lo, hi, cancelRequested)
      <==> ClearBetween(t1, lo, |t1|, cancelRequested) && ClearBetween(t2, |t1|, hi, cancelRequested)
  {
    if ClearBetween(t1, lo, |t1|, cancelRequested) && ClearBetween(t2, |t1|, hi, cancelRequested) {
      forall u | lo <= u < hi && 0 <= u < |t2|
        ensures !cancelRequested(t2[u])
      {
        if u < |t1| {
          assert t2[u] == t1[u];
        }
      }
    }
    if ClearBetween(t2, lo, hi, cancelRequested) {
      ClearBetweenShrink(t1, t2, lo, |t1|, hi, cancelRequested);
    }
  }

  lemma ClearBetweenShrink(t1: seq<Checkpoint>, t2: seq<Checkpoint>, lo: int, mid: int, hi: int,
                           cancelRequested: Checkpoint -> bool)
    requires t1 <= t2 && mid <= |t1| && mid <= hi && ClearBetween(t2, lo, hi, cancelRequested)
    ensures ClearBetween(t1, lo, mid, cancelRequested)
  {
    forall u | lo <= u < mid && 0 <= u < |t1|
      ensures !cancelRequested(t1[u])
    {
      assert t1[u] == t2[u];
    }
  }

  /**
   * The cancel flag follows the checkpoints observed since `start`: the log only grows, and the
   * flag is set exactly when it was set at `start` (`wasCancelled`) or one of the new checkpoints
   * carried a cancel request.
   */
  ghost predicate FlagFollowsTrace(start: seq<Checkpoint>, trace: seq<Checkpoint>, wasCancelled: bool, cancelled: bool,
                                   cancelRequested: Checkpoint -> bool) {
    start <= trace && (cancelled <==> wasCancelled || !ClearBetween(trace, |start|, |trace|, cancelRequested))
  }

  /** With no new checkpoint, a flag that did not change follows the log. */
  lemma FlagFollowsUnchangedTrace(trace: seq<Checkpoint>, cancelled: bool, cancelRequested: Checkpoint -> bool)
    ensures FlagFollowsTrace(trace, trace, cancelled, cancelled, cancelRequested)
  {
  }

  lemma FlagFollowsTraceTrans(t0: seq<Checkpoint>, t1: seq<Checkpoint>, t2: seq<Checkpoint>, c0: bool, c1: bool, c2: bool,
                              cancelRequested: Checkpoint -> bool)
    requires FlagFollowsTrace(t0, t1, c0, c1, cancelRequested) && FlagFollowsTrace(t1, t2, c1, c2, cancelRequested)
    ensures FlagFollowsTrace(t0, t2, c0, c2, cancelRequested)
  {
    ClearBetweenSplit(t1, t2, |t0|, |t2|, cancelRequested);
  }

  /**
   * Set `ran[k]` had its turn at checkpoint `turns[k]` of `trace`, and no checkpoint observed
   * from `start` up to and including that turn carried a cancel request.
   */
  ghost predicate ClearAtTurns(ran: seq<SetPosition>, turns: seq<nat>, trace: seq<Checkpoint>, start: nat,
                               cancelRequested: Checkpoint -> bool) {
    |turns| == |ran| && forall k :: 0 <= k < |ran| ==> TurnClear(ran, turns, trace, start, cancelRequested, k)
  }

  /** The `k`-th set of `ran` had its turn at `turns[k]`, with nothing requested from `start` up to it. */
  ghost predicate TurnClear(ran: seq<SetPosition>, turns: seq<nat>, trace: seq<Checkpoint>, start: nat,
                            cancelRequested: Checkpoint -> bool, k: int) {
    && 0 <= k < |ran| && k < |turns|
    && start <= turns[k] < |trace|
    && trace[turns[k]] == BeforeSet(ran[k].config, ran[k].setIndex)
    && ClearBetween(trace, start, turns[k] + 1, cancelRequested)
  }

  lemma ClearAtTurnsGrow(ran: seq<SetPosition>, turns: seq<nat>, t1: seq<Checkpoint>, t2: seq<Checkpoint>, start: nat,
                         cancelRequested: Checkpoint -> bool)
    requires t1 <= t2 && ClearAtTurns(ran, turns, t1, start, cancelRequested)
    ensures ClearAtTurns(ran, turns, t2, start, cancelRequested)
  {
    forall k | 0 <= k < |ran|
      ensures TurnClear(ran, turns, t2, start, cancelRequested, k)
    {
      assert TurnClear(ran, turns, t1, start, cancelRequested, k);
      assert t2[turns[k]] == t1[turns[k]];
      ClearBetweenGrow(t1, t2, start, turns[k] + 1, cancelRequested);
    }
  }

  /** Sets that ran from `mid` on join those that ran from `start`, when nothing was requested in between. */
  lemma ClearAtTurnsAppend(ran: seq<SetPosition>, turns: seq<nat>, step: seq<SetPosition>, steps: seq<nat>,
                           trace: seq<Checkpoint>, start: nat, mid: nat, cancelRequested: Checkpoint -> bool)
    requires start <= mid
    requires ClearAtTurns(ran, turns, trace, start, cancelRequested) && ClearAtTurns(step, steps, trace, mid, cancelRequested)
    requires |step| > 0 ==> ClearBetween(trace, start, mid, cancelRequested)
    ensures ClearAtTurns(ran + step, turns + steps, trace, start, cancelRequested)
  {
    forall k | 0 <= k < |ran + step|
      ensures TurnClear(ran + step, turns + steps, trace, start, cancelRequested, k)
    {
      if k < |ran| {
        assert TurnClear(ran, turns, trace, start, cancelRequested, k);
      } else {
        assert TurnClear(step, steps, trace, mid, cancelRequested, k - |ran|);
        assert (turns + steps)[k] == steps[k - |ran|] && (ran + step)[k] == step[k - |ran|];
      }
    }
  }

  /**
   * One step of a run that began at `t0`: the sets that ran in the step, from `t1` to `t2`, join
   * those that ran before it, and the flag still follows the log.
   */
  lemma JoinTurns(t0: seq<Checkpoint>, t1: seq<Checkpoint>, t2: seq<Checkpoint>, c0: bool, c1: bool, c2: bool,
                  ran: seq<SetPosition>, turns: seq<nat>, step: seq<SetPosition>, steps: seq<nat>,
                  cancelRequested: Checkpoint -> bool)
    requires FlagFollowsTrace(t0, t1, c0, c1, cancelRequested) && FlagFollowsTrace(t1, t2, c1, c2, cancelRequested)
    requires c1 ==> step == []
    requires ClearAtTurns(ran, turns, t1, |t0|, cancelRequested) && ClearAtTurns(step, steps, t2, |t1|, cancelRequested)
    ensures FlagFollowsTrace(t0, t2, c0, c2, cancelRequested)
    ensures ClearAtTurns(ran + step, turns + steps, t2, |t0|, cancelRequested)
  {
    FlagFollowsTraceTrans(t0, t1, t2, c0, c1, c2, cancelRequested);
    ClearAtTurnsGrow(ran, turns, t1, t2, |t0|, cancelRequested);
    if !c1 {
      ClearBetweenGrow(t1, t2, |t0|, |t1|, cancelRequested);
    }
    ClearAtTurnsAppend(ran, turns, step, steps, t2, |t0|, |t1|, cancelRequested);
  }

  /** Sets gated from `t1` on are gated from an earlier `t0` when the flag was clear at `t1`. */
  lemma GatedFromEarlier(t0: seq<Checkpoint>, t1: seq<Checkpoint>, t2: seq<Checkpoint>, c0: bool, c1: bool, c2: bool,
                         ran: seq<SetPosition>, turns: seq<nat>, cancelRequested: Checkpoint -> bool)
    requires FlagFollowsTrace(t0, t1, c0, c1, cancelRequested) && FlagFollowsTrace(t1, t2, c1, c2, cancelRequested)
    requires c1 ==> ran == []
    requires ClearAtTurns(ran, turns, t2, |t1|, cancelRequested)
    ensures FlagFollowsTrace(t0, t2, c0, c2, cancelRequested)
    ensures ClearAtTurns(ran, turns, t2, |t0|, cancelRequested)
  {
    JoinTurns(t0, t1, t2, c0, c1, c2, [], [], ran, turns, cancelRequested);
    assert [] + ran == ran && [] + turns == turns;
  }

  /** A set whose turn came with nothing requested since the start had no request at its own turn. */
  lemma TurnsClearAtTurn(ran: seq<SetPosition>, turns: seq<nat>, trace: seq<Checkpoint>, start: nat,
                         cancelRequested: Checkpoint -> bool)
    requires ClearAtTurns(ran, turns, trace, start, cancelRequested)
    ensures ClearAtTurn(ran, cancelRequested)
  {
    forall k | 0 <= k < |ran|
      ensures !cancelRequested(BeforeSet(ran[k].config, ran[k].setIndex))
    {
      assert TurnClear(ran, turns, trace, start, cancelRequested, k);
    }
  }

  /**
   * A run that began with checkpoint log `t0` and has reached `trace`: the sets that ran are a
   * prefix of `all`, all of them unless the flag is set, and each ran with nothing requested
   * since the start up to its turn.
   */
  ghost predicate GatedPrefix(all: seq<SetPosition>, ran: seq<SetPosition>, turns: seq<nat>, t0: seq<Checkpoint>,
                              trace: seq<Checkpoint>, wasCancelled: bool, cancelled: bool, cancelRequested: Checkpoint -> bool) {
    && |ran| <= |all| && ran == all[..|ran|]
    && (!cancelled ==> ran == all)
    && FlagFollowsTrace(t0, trace, wasCancelled, cancelled, cancelRequested)
    && ClearAtTurns(ran, turns, trace, |t0|, cancelRequested)
  }

  /** A gated run over `done` followed by a step over `next` is a gated run over `done + next`. */
  lemma GatedPrefixExtends(done: seq<SetPosition>, next: seq<SetPosition>, ran: seq<SetPosition>, turns: seq<nat>,
                           step: seq<SetPosition>, steps: seq<nat>, t0: seq<Checkpoint>, t1: seq<Checkpoint>,
                           t2: seq<Checkpoint>, c0: bool, c1: bool, c2: bool, crashed: bool, cancelRequested: Checkpoint -> bool)
    requires GatedPrefix(done, ran, turns, t0, t1, c0, c1, cancelRequested)
    requires |step| <= |next| && step == next[..|step|] && (!crashed && !c2 ==> step == next)
    requires FlagFollowsTrace(t1, t2, c1, c2, cancelRequested) && ClearAtTurns(step, steps, t2, |t1|, cancelRequested)
    requires c1 ==> step == []
    ensures |ran + step| <= |done + next| && ran + step == (done + next)[..|ran + step|]
    ensures FlagFollowsTrace(t0, t2, c0, c2, cancelRequested)
    ensures ClearAtTurns(ran + step, turns + steps, t2, |t0|, cancelRequested)
    ensures !crashed ==> GatedPrefix(done + next, ran + step, turns + steps, t0, t2, c0, c2, cancelRequested)
  {
    PrefixExtends(done, next, ran, step, c1);
    JoinTurns(t0, t1, t2, c0, c1, c2, ran, turns, step, steps, cancelRequested);
  }

  /** The Merlin web-service calls the engine makes. */
  datatype MerlinAccess = MerlinAccess(
    getTemplates: TokenContainer -> Result<seq<TemplateWrapper>, AccessError>,
    getQualityVersions: TokenContainer -> Result<seq<QualityVersionWrapper>, AccessError>,
    getMeasurementsByTemplate: (TokenContainer, TemplateWrapper) -> Result<seq<MeasureWrapper>, AccessError>,
    reader: ReaderAccess)
  {
    /** The per-template measures fetch made with `token`, as the cache folds take it. */
    function MeasuresFetch(token: TokenContainer): TemplateWrapper -> Result<seq<MeasureWrapper>, AccessError> {
      t => getMeasurementsByTemplate(token, t)
    }
  }

  datatype HttpAccessException = HttpAccessException

  /** How a run ends: authentication throws; the returned future fails or completes. */
  datatype RunOutcome = AuthenticationFailed | InitializationFailed | ExchangeFailed | Completed

  /** What the engine caches between runs. */
  datatype EngineCache = EngineCache(
    templates: seq<TemplateWrapper>,
    qualityVersions: seq<QualityVersionWrapper>,
    measures: map<TemplateWrapper, seq<MeasureWrapper>>,
    requests: seq<TemplateWrapper>)

  class MerlinDataExchangeEngine {
    const access: MerlinAccess
    const parseXmlFile: string -> Option<DataExchangeConfiguration>
    const isAbsolute: string -> bool
    const cancelRequested: Checkpoint -> bool
    const dssFileManager: DssFileManager
    var cachedTemplates: seq<TemplateWrapper>
    var cachedQualityVersions: seq<QualityVersionWrapper>
    var cachedTemplateToMeasurements: map<TemplateWrapper, seq<MeasureWrapper>>
    var isCancelled: bool
    var progressListener: ProgressListener?
    /** Every template whose measures were fetched, in fetch order. */
    ghost var measureRequests: seq<TemplateWrapper>
    /** Every set that was exchanged, in order. */
    ghost var setsRun: seq<SetPosition>
    /** Every checkpoint at which the cancel flag was read, in order. */
    ghost var trace: seq<Checkpoint>

    ghost function Cache(): EngineCache
      reads this
    {
      EngineCache(cachedTemplates, cachedQualityVersions, cachedTemplateToMeasurements, measureRequests)
    }

    ghost function MeasuresCache(): CacheState
      reads this, progressListener
      requires progressListener != null
    {
      CacheState(cachedTemplateToMeasurements, progressListener.events, measureRequests)
    }

    /** The measures cache holds exactly the templates fetched, each fetched once. */
    ghost predicate Valid()
      reads this
    {
      CacheConsistent(CacheState(cachedTemplateToMeasurements, [], measureRequests))
    }

    constructor (access: MerlinAccess, parseXmlFile: string -> Option<DataExchangeConfiguration>, isAbsolute: string -> bool,
                 cancelRequested: Checkpoint -> bool, dssFileManager: DssFileManager)
      ensures this.access == access && this.parseXmlFile == parseXmlFile && this.isAbsolute == isAbsolute
      ensures this.cancelRequested == cancelRequested && this.dssFileManager == dssFileManager
      ensures Cache() == EngineCache([], [], map[], [])
      ensures !isCancelled && progressListener == null && setsRun == [] && trace == []
      ensures Valid()
    {
      this.access := access;
      this.parseXmlFile := parseXmlFile;
      this.isAbsolute := isAbsolute;
      this.cancelRequested := cancelRequested;
      this.dssFileManager := dssFileManager;
      cachedTemplates := [];
      cachedQualityVersions := [];
      cachedTemplateToMeasurements := map[];
      isCancelled := false;
      progressListener := null;
      measureRequests := [];
      setsRun := [];
      trace := [];
    }

    /** Sets the cancel flag and, once a run has started, reports the request. */
    method CancelExtract()
      modifies this, progressListener
      ensures isCancelled
      ensures progressListener == old(progressListener)
      ensures progressListener != null ==>
        progressListener.events == old(progressListener.events) + [Message(CancelRequested, Important, None)]
      ensures Cache() == old(Cache()) && setsRun == old(setsRun) && trace == old(trace)
    {
      isCancelled := true;
      if progressListener != null {
        progressListener.Progress(CancelRequested, Important, None);
      }
    }

    /** A read of the cancel flag at `cp`, after any cancel request that arrives there. */
    method Observe(cp: Checkpoint) returns (cancelled: bool)
      requires progressListener != null
      modifies this, progressListener
      ensures isCancelled == (old(isCancelled) || cancelRequested(cp)) && cancelled == isCancelled
      ensures progressListener == old(progressListener)
      ensures progressListener.events == old(progressListener.events)
        + (if cancelRequested(cp) then [Message(CancelRequested, Important, None)] else [])
      ensures ExtendsWithMessages(old(progressListener.events), progressListener.events)
      ensures Cache() == old(Cache()) && setsRun == old(setsRun)
      ensures trace == old(trace) + [cp] && FlagFollowsTrace(old(trace), trace, old(isCancelled), isCancelled, cancelRequested)
    {
      if cancelRequested(cp) {
        CancelExtract();
      }
      trace := trace + [cp];
      assert trace[|old(trace)|] == cp;
      cancelled := isCancelled;
    }

    /** Parses one file; a file that cannot be read or parsed is reported and yields null. */
    method ParseDataExchangeConfiguration(file: string) returns (config: Option<DataExchangeConfiguration>)
      requires progressListener != null
      modifies progressListener
      ensures config == parseXmlFile(file)
      ensures progressListener.events == old(progressListener.events) + ParseEvents([file], parseXmlFile)
    {
      config := parseXmlFile(file);
      if config.None? {
        progressListener.Progress(ConfigurationParseFailed(file), Error, None);
      }
    }

    /** Parses every file, in order, then reports that parsing is done. */
    method ParseConfigurations(files: seq<string>) returns (configs: seq<Option<DataExchangeConfiguration>>)
      requires progressListener != null
      modifies progressListener
      ensures |configs| == |files| && forall i :: 0 <= i < |files| ==> configs[i] == parseXmlFile(files[i])
      ensures progressListener.events == old(progressListener.events) + ParseEvents(files, parseXmlFile)
        + [Message(ConfigurationsParsed, Important, Some(CONFIGURATIONS_PARSED_PERCENT))]
    {
      configs := [];
      var i := 0;
      while i < |files|
        invariant 0 <= i <= |files|
        invariant |configs| == i && forall k :: 0 <= k < i ==> configs[k] == parseXmlFile(files[k])
        invariant progressListener.events == old(progressListener.events) + ParseEvents(files[..i], parseXmlFile)
      {
        var config := ParseDataExchangeConfiguration(files[i]);
        assert files[..i + 1] == files[..i] + [files[i]];
        ParseEventsAppend(files[..i], [files[i]], parseXmlFile);
        configs := configs + [config];
        i := i + 1;
      }
      assert files[..i] == files;
      progressListener.Progress(ConfigurationsParsed, Important, Some(CONFIGURATIONS_PARSED_PERCENT));
    }

    /** Fills the measures cache from one configuration's sets. */
    method CacheMeasuresOfSets(sets: seq<DataExchangeSet>, token: TokenContainer)
      requires progressListener != null
      modifies this, progressListener
      ensures progressListener == old(progressListener)
      ensures MeasuresCache() == CacheAfterSets(old(MeasuresCache()), sets, cachedTemplates,
                                                access.MeasuresFetch(token))
      ensures cachedTemplates == old(cachedTemplates) && cachedQualityVersions == old(cachedQualityVersions)
      ensures isCancelled == old(isCancelled) && setsRun == old(setsRun) && trace == old(trace)
    {
      var fetch := access.MeasuresFetch(token);
      var j := 0;
      while j < |sets|
        invariant 0 <= j <= |sets|
        invariant progressListener == old(progressListener)
        invariant MeasuresCache() == CacheAfterSets(old(MeasuresCache()), sets[..j], cachedTemplates, fetch)
        invariant cachedTemplates == old(cachedTemplates) && cachedQualityVersions == old(cachedQualityVersions)
        invariant isCancelled == old(isCancelled) && setsRun == old(setsRun) && trace == old(trace)
      {
        var exchangeSet := sets[j];
        assert sets[..j + 1][..j] == sets[..j];
        var template := GetTemplateFromDataExchangeSet(cachedTemplates, exchangeSet);
        match template {
          case None =>
            progressListener.Progress(TemplateNotFound(exchangeSet.templateName, exchangeSet.templateId), Error, None);
          case Some(t) =>
            if t !in cachedTemplateToMeasurements {
              var measures := RetrieveMeasures(token, t);
              cachedTemplateToMeasurements := cachedTemplateToMeasurements[t := measures];
            }
        }
        j := j + 1;
      }
      assert sets[..j] == sets;
    }

    /** Fetches a template's measures; a failed fetch is reported and yields an empty list. */
    method RetrieveMeasures(token: TokenContainer, template: TemplateWrapper) returns (measures: seq<MeasureWrapper>)
      requires progressListener != null
      modifies this, progressListener
      ensures progressListener == old(progressListener)
      ensures measures == MeasuresOrEmpty(access.getMeasurementsByTemplate(token, template))
      ensures measureRequests == old(measureRequests) + [template]
      ensures progressListener.events == old(progressListener.events) + [MeasuresEvent(access.getMeasurementsByTemplate(token, template), template)]
      ensures cachedTemplates == old(cachedTemplates) && cachedQualityVersions == old(cachedQualityVersions)
      ensures cachedTemplateToMeasurements == old(cachedTemplateToMeasurements)
      ensures isCancelled == old(isCancelled) && setsRun == old(setsRun) && trace == old(trace)
    {
      measureRequests := measureRequests + [template];
      var fetched := access.getMeasurementsByTemplate(token, template);
      if fetched.Success? {
        measures := fetched.value;
        progressListener.Progress(MeasuresRetrieved(|measures|), Important, Some(PERCENT_COMPLETE_ALLOCATED_FOR_INITIAL_SETUP));
      } else {
        measures := [];
        progressListener.Progress(MeasuresRetrievalFailed(template.dprId), Error, None);
      }
    }

    /**
     * Fills the measures cache from every parsed configuration, in order, fetching each resolved
     * template at most once. Unparsed configurations are skipped.
     */
    method InitializeCachedMeasurements(configs: seq<Option<DataExchangeConfiguration>>, token: TokenContainer)
      requires progressListener != null
      requires Valid()
      modifies this, progressListener
      ensures Valid()
      ensures progressListener == old(progressListener)
      ensures MeasuresCache() == CacheAfterConfigs(old(MeasuresCache()), configs, cachedTemplates,
                                                   access.MeasuresFetch(token))
      ensures CoversConfigs(cachedTemplateToMeasurements, configs, cachedTemplates)
      ensures cachedTemplates == old(cachedTemplates) && cachedQualityVersions == old(cachedQualityVersions)
      ensures isCancelled == old(isCancelled) && setsRun == old(setsRun) && trace == old(trace)
    {
      var fetch := access.MeasuresFetch(token);
      var i := 0;
      while i < |configs|
        invariant 0 <= i <= |configs|
        invariant progressListener == old(progressListener)
        invariant MeasuresCache() == CacheAfterConfigs(old(MeasuresCache()), configs[..i], cachedTemplates, fetch)
        invariant cachedTemplates == old(cachedTemplates) && cachedQualityVersions == old(cachedQualityVersions)
        invariant isCancelled == old(isCancelled) && setsRun == old(setsRun) && trace == old(trace)
      {
        assert configs[..i + 1][..i] == configs[..i];
        ghost var before := MeasuresCache();
        if configs[i].Some? {
          CacheMeasuresOfSets(configs[i].value.dataExchangeSets, token);
        }
        assert MeasuresCache() == if configs[i].Some? then CacheAfterSets(before, configs[i].value.dataExchangeSets, cachedTemplates, fetch)
                                  else before;
        i := i + 1;
      }
      assert configs[..i] == configs;
      CacheConfigsStayConsistent(CacheState(old(cachedTemplateToMeasurements), old(progressListener.events), old(measureRequests)),
                                 configs, cachedTemplates, fetch);
      CacheConfigsCover(old(MeasuresCache()), configs, cachedTemplates, fetch);
    }

    /** The number of measures over all cached templates. */
    method TotalMeasures() returns (total: nat)
      ensures total == SumOfSizes(cachedTemplateToMeasurements)
    {
      var remaining := cachedTemplateToMeasurements;
      total := 0;
      while |remaining| > 0
        invariant total + SumOfSizes(remaining) == SumOfSizes(cachedTemplateToMeasurements)
        decreases |remaining|
      {
        var k :| k in remaining;
        SumOfSizesRemove(remaining, k);
        total := total + |remaining[k]|;
        remaining := remaining - {k};
      }
    }

    /**
     * The measures step after the templates and quality versions were fetched: the flag is read,
     * and the measures are cached unless it reads set.
     */
    method CacheMeasuresUnlessCancelled(configs: seq<Option<DataExchangeConfiguration>>, token: TokenContainer)
      requires progressListener != null
      requires Valid()
      modifies this, progressListener
      ensures Valid()
      ensures progressListener == old(progressListener) && setsRun == old(setsRun)
      ensures cachedTemplates == old(cachedTemplates) && cachedQualityVersions == old(cachedQualityVersions)
      ensures trace == old(trace) + [BeforeCachingMeasures]
      ensures isCancelled == (old(isCancelled) || cancelRequested(BeforeCachingMeasures))
      ensures FlagFollowsTrace(old(trace), trace, old(isCancelled), isCancelled, cancelRequested)
      ensures ExtendsWithMessages(old(progressListener.events), progressListener.events)
      ensures !isCancelled ==> CoversConfigs(cachedTemplateToMeasurements, configs, cachedTemplates)
      ensures var noticed := CacheState(old(cachedTemplateToMeasurements),
                                        old(progressListener.events)
                                          + (if cancelRequested(BeforeCachingMeasures)
                                             then [Message(CancelRequested, Important, None)] else []),
                                        old(measureRequests));
        MeasuresCache() == if isCancelled then noticed
                           else CacheAfterConfigs(noticed, configs, cachedTemplates, access.MeasuresFetch(token))
    {
      var cancelled := Observe(BeforeCachingMeasures);
      if !cancelled {
        ghost var noticed := MeasuresCache();
        InitializeCachedMeasurements(configs, token);
        CacheConfigsAppendMessages(noticed, configs, cachedTemplates, access.MeasuresFetch(token));
        ExtendsWithMessagesTrans(old(progressListener.events), noticed.events, progressListener.events);
      }
    }

    /**
     * Fills the caches before extraction. When either the template or the quality-version list is
     * empty, both are fetched and appended, and the measures are cached unless a cancel has
     * arrived; a failed fetch is reported and fails the initialisation. Otherwise only the
     * measures are cached.
     */
    method InitializeCache(configs: seq<Option<DataExchangeConfiguration>>, token: TokenContainer) returns (initError: bool)
      requires progressListener != null
      requires Valid()
      modifies this, progressListener
      ensures Valid()
      ensures progressListener == old(progressListener) && setsRun == old(setsRun)
      ensures ExtendsWithMessages(old(progressListener.events), progressListener.events)
      ensures !initError && !isCancelled ==> CoversConfigs(cachedTemplateToMeasurements, configs, cachedTemplates)
      ensures FlagFollowsTrace(old(trace), trace, old(isCancelled), isCancelled, cancelRequested)
      ensures var refetch := |old(cachedTemplates)| == 0 || |old(cachedQualityVersions)| == 0;
        var fetched := access.getTemplates(token);
        var fetchedQualityVersions := access.getQualityVersions(token);
        && (!refetch ==>
              && !initError
              && cachedTemplates == old(cachedTemplates) && cachedQualityVersions == old(cachedQualityVersions)
              && isCancelled == old(isCancelled)
              && MeasuresCache() == CacheAfterConfigs(old(MeasuresCache()), configs, cachedTemplates,
                                                      access.MeasuresFetch(token)))
        && (refetch ==> (initError <==> fetched.Failure? || fetchedQualityVersions.Failure?))
        && (refetch && fetched.Failure? ==>
              && Cache() == old(Cache()) && isCancelled == old(isCancelled)
              && progressListener.events == old(progressListener.events) + [Message(CacheRetrievalFailed, Error, None)])
        && (refetch && fetched.Success? ==> cachedTemplates == old(cachedTemplates) + fetched.value)
        && (refetch && fetched.Success? && fetchedQualityVersions.Failure? ==>
              && cachedQualityVersions == old(cachedQualityVersions)
              && cachedTemplateToMeasurements == old(cachedTemplateToMeasurements) && measureRequests == old(measureRequests)
              && isCancelled == old(isCancelled)
              && progressListener.events == old(progressListener.events)
                   + [Message(TemplatesRetrieved(|cachedTemplates|), Important, Some(TEMPLATES_RETRIEVED_PERCENT)),
                      Message(CacheRetrievalFailed, Error, None)])
        && (refetch && fetched.Success? && fetchedQualityVersions.Success? ==>
              var notices := old(progressListener.events)
                + [Message(TemplatesRetrieved(|cachedTemplates|), Important, Some(TEMPLATES_RETRIEVED_PERCENT)),
                   Message(QualityVersionsRetrieved(|cachedQualityVersions|), Important, Some(QUALITY_VERSIONS_RETRIEVED_PERCENT))]
                + (if cancelRequested(BeforeCachingMeasures) then [Message(CancelRequested, Important, None)] else []);
              var fetchedState := CacheState(old(cachedTemplateToMeasurements), notices, old(measureRequests));
              && cachedQualityVersions == old(cachedQualityVersions) + fetchedQualityVersions.value
              && isCancelled == (old(isCancelled) || cancelRequested(BeforeCachingMeasures))
              && MeasuresCache() == if isCancelled then fetchedState
                                    else CacheAfterConfigs(fetchedState, configs, cachedTemplates,
                                                           access.MeasuresFetch(token)))
    {
      initError := false;
      if |cachedTemplates| == 0 || |cachedQualityVersions| == 0 {
        var templates := access.getTemplates(token);
        FlagFollowsUnchangedTrace(trace, isCancelled, cancelRequested);
        if templates.Failure? {
          progressListener.Progress(CacheRetrievalFailed, Error, None);
          return true;
        }
        cachedTemplates := cachedTemplates + templates.value;
        progressListener.Progress(TemplatesRetrieved(|cachedTemplates|), Important, Some(TEMPLATES_RETRIEVED_PERCENT));
        var qualityVersions := access.getQualityVersions(token);
        if qualityVersions.Failure? {
          progressListener.Progress(CacheRetrievalFailed, Error, None);
          return true;
        }
        cachedQualityVersions := cachedQualityVersions + qualityVersions.value;
        progressListener.Progress(QualityVersionsRetrieved(|cachedQualityVersions|), Important, Some(QUALITY_VERSIONS_RETRIEVED_PERCENT));
        ghost var fetchedEvents := progressListener.events;
        assert fetchedEvents == old(progressListener.events)
          + [Message(TemplatesRetrieved(|cachedTemplates|), Important, Some(TEMPLATES_RETRIEVED_PERCENT)),
             Message(QualityVersionsRetrieved(|cachedQualityVersions|), Important, Some(QUALITY_VERSIONS_RETRIEVED_PERCENT))];
        assert cachedTemplateToMeasurements == old(cachedTemplateToMeasurements) && measureRequests == old(measureRequests);
        CacheMeasuresUnlessCancelled(configs, token);
        ExtendsWithMessagesTrans(old(progressListener.events), fetchedEvents, progressListener.events);
      } else {
        FlagFollowsUnchangedTrace(trace, isCancelled, cancelRequested);
        InitializeCachedMeasurements(configs, token);
        CacheConfigsAppendMessages(old(MeasuresCache()), configs, cachedTemplates, access.MeasuresFetch(token));
      }
    }

    /**
     * The reader's part of one measure: the flag is read before the fetch and again before the
     * conversion, and the reader runs with what it read at each point.
     */
    method ReadMeasure(ci: nat, si: nat, mi: nat, parameters: MerlinDataExchangeParameters, measure: MeasureWrapper,
                       qualityVersion: Option<QualityVersionWrapper>, token: TokenContainer, unitSystemToConvertTo: string,
                       tracker: MerlinExchangeDaoCompletionTracker)
      returns (outcome: ReadOutcome)
      requires progressListener != null
      requires tracker.numberOfMeasuresToComplete > 0
      modifies this, progressListener, tracker
      ensures Cache() == old(Cache()) && setsRun == old(setsRun) && progressListener == old(progressListener)
      ensures trace == old(trace) + [BeforeFetch(ci, si, mi), BeforeConvert(ci, si, mi)]
      ensures isCancelled == (old(isCancelled) || cancelRequested(BeforeFetch(ci, si, mi)) || cancelRequested(BeforeConvert(ci, si, mi)))
      ensures FlagFollowsTrace(old(trace), trace, old(isCancelled), isCancelled, cancelRequested)
      ensures isCancelled ==> outcome == ReadCompleted(None)
      ensures outcome.ReadCompleted? && outcome.tsc.Some? ==> fresh(outcome.tsc.value)
      ensures old(tracker.numberCompleted) <= tracker.numberCompleted <= old(tracker.numberCompleted) + 1
      ensures ExtendsWithMessages(old(progressListener.events), progressListener.events)
    {
      var qualityVersionId := if qualityVersion.Some? then Some(qualityVersion.value.qualityVersionId) else None;
      var cancelledAtFetch := Observe(BeforeFetch(ci, si, mi));
      ghost var fetching, fetched, fetchCancelled := progressListener.events, trace, isCancelled;
      var cancelledAtConvert := Observe(BeforeConvert(ci, si, mi));
      ExtendsWithMessagesTrans(old(progressListener.events), fetching, progressListener.events);
      FlagFollowsTraceTrans(old(trace), fetched, trace, old(isCancelled), fetchCancelled, isCancelled, cancelRequested);
      ghost var reading := progressListener.events;
      outcome := ReadData(access.reader, parameters.start, parameters.end, measure, qualityVersionId, token,
                          unitSystemToConvertTo, parameters.fPartOverride, tracker, progressListener,
                          cancelledAtFetch, cancelledAtConvert);
      ExtendsWithMessagesTrans(old(progressListener.events), reading, progressListener.events);
    }

    /**
     * One measure of a set, as the data-exchange DAO runs it: unless cancelled, read it and
     * hand the result to the set's writer. A failed conversion fails the measure.
     */
    method ExchangeMeasure(ci: nat, si: nat, mi: nat, parameters: MerlinDataExchangeParameters, measure: MeasureWrapper,
                           qualityVersion: Option<QualityVersionWrapper>, token: TokenContainer, unitSystemToConvertTo: string,
                           writer: MerlinDaoWriter, tracker: MerlinExchangeDaoCompletionTracker)
      returns (crashed: bool)
      requires progressListener != null
      requires tracker.numberOfMeasuresToComplete > 0
      requires writer.dssFileManager == dssFileManager
      modifies this, progressListener, tracker, dssFileManager
      ensures Cache() == old(Cache()) && setsRun == old(setsRun) && progressListener == old(progressListener)
      ensures old(isCancelled) ==> isCancelled
      ensures ExtendsWithMessages(old(progressListener.events), progressListener.events)
      ensures old(tracker.numberCompleted) <= tracker.numberCompleted <= old(tracker.numberCompleted) + TASKS_TO_PERFORM_PER_MEASURE
      ensures ExtendsWithWritesTo(old(dssFileManager.writes), dssFileManager.writes, writer.dssWritePath)
      ensures |dssFileManager.writes| <= |old(dssFileManager.writes)| + 1
      ensures dssFileManager.closed == old(dssFileManager.closed)
      ensures old(isCancelled) || cancelRequested(BeforeMeasure(ci, si, mi)) ==>
        !crashed && tracker.numberCompleted == old(tracker.numberCompleted) && dssFileManager.writes == old(dssFileManager.writes)
      ensures FlagFollowsTrace(old(trace), trace, old(isCancelled), isCancelled, cancelRequested)
    {
      crashed := false;
      var cancelled := Observe(BeforeMeasure(ci, si, mi));
      if cancelled {
        return;
      }
      ghost var observed, reading := trace, progressListener.events;
      var outcome := ReadMeasure(ci, si, mi, parameters, measure, qualityVersion, token, unitSystemToConvertTo, tracker);
      ExtendsWithMessagesTrans(old(progressListener.events), reading, progressListener.events);
      FlagFollowsTraceTrans(old(trace), observed, trace, old(isCancelled), false, isCancelled, cancelRequested);
      if outcome.ReadCrashed? {
        return true;
      }
      ghost var read, converted, convertCancelled := progressListener.events, trace, isCancelled;
      var cancelledAtWrite := Observe(BeforeWrite(ci, si, mi));
      ExtendsWithMessagesTrans(old(progressListener.events), read, progressListener.events);
      FlagFollowsTraceTrans(old(trace), converted, trace, old(isCancelled), convertCancelled, isCancelled, cancelRequested);
      ghost var writing := progressListener.events;
      var tsc: TimeSeriesContainer? := if outcome.tsc.Some? then outcome.tsc.value else null;
      writer.WriteData(tsc, parameters.storeOption, tracker, progressListener, cancelledAtWrite);
      ExtendsWithMessagesTrans(old(progressListener.events), writing, progressListener.events);
    }

    /**
     * Exchanges one set into its destination store: resolve the template (an unresolved one is
     * reported and nothing else happens), resolve the quality version (a failed resolution fails
     * the set before any file is opened), open a writer on the
     * destination path, exchange every cached measure of the template, then close the file.
     */
    method ExchangeData(exchangeSet: DataExchangeSet, ci: nat, si: nat, destination: DataStore,
                        parameters: MerlinDataExchangeParameters, token: TokenContainer, tracker: MerlinExchangeDaoCompletionTracker)
      returns (crashed: bool)
      requires progressListener != null
      requires CoversSet(cachedTemplateToMeasurements, exchangeSet, cachedTemplates)
      requires forall t :: t in cachedTemplateToMeasurements ==> |cachedTemplateToMeasurements[t]| <= tracker.numberOfMeasuresToComplete
      modifies this, progressListener, tracker, dssFileManager
      ensures Cache() == old(Cache()) && setsRun == old(setsRun) && progressListener == old(progressListener)
      ensures old(isCancelled) ==> isCancelled
      ensures ExtendsWithMessages(old(progressListener.events), progressListener.events)
      ensures match GetTemplateFromDataExchangeSet(cachedTemplates, exchangeSet)
        case None =>
          && !crashed && isCancelled == old(isCancelled)
          && progressListener.events == old(progressListener.events)
               + [Message(TemplateNotFound(exchangeSet.templateName, exchangeSet.templateId), Error, None)]
          && tracker.numberCompleted == old(tracker.numberCompleted)
          && dssFileManager.writes == old(dssFileManager.writes) && dssFileManager.closed == old(dssFileManager.closed)
        case Some(template) =>
          if GetQualityVersionIdFromDataExchangeSet(cachedQualityVersions, exchangeSet).Failure? then
            && crashed && isCancelled == old(isCancelled)
            && progressListener.events == old(progressListener.events)
            && tracker.numberCompleted == old(tracker.numberCompleted)
            && dssFileManager.writes == old(dssFileManager.writes) && dssFileManager.closed == old(dssFileManager.closed)
          else
          var path := BuildAbsoluteDssWritePath(destination.path, parameters.watershedDirectory, isAbsolute);
          var measures := cachedTemplateToMeasurements[template];
          && dssFileManager.closed == old(dssFileManager.closed) + [path]
          && ExtendsWithWritesTo(old(dssFileManager.writes), dssFileManager.writes, path)
          && |dssFileManager.writes| <= |old(dssFileManager.writes)| + |measures|
          && old(tracker.numberCompleted) <= tracker.numberCompleted
          && tracker.numberCompleted <= old(tracker.numberCompleted) + TASKS_TO_PERFORM_PER_MEASURE * |measures|
      ensures FlagFollowsTrace(old(trace), trace, old(isCancelled), isCancelled, cancelRequested)
    {
      crashed := false;
      var template := GetTemplateFromDataExchangeSet(cachedTemplates, exchangeSet);
      if template.None? {
        progressListener.Progress(TemplateNotFound(exchangeSet.templateName, exchangeSet.templateId), Error, None);
        return;
      }
      var qualityVersion := GetQualityVersionIdFromDataExchangeSet(cachedQualityVersions, exchangeSet);
      if qualityVersion.Failure? {
        return true;
      }
      var unitSystemToConvertTo := exchangeSet.unitSystem;
      var path := BuildAbsoluteDssWritePath(destination.path, parameters.watershedDirectory, isAbsolute);
      var measures := cachedTemplateToMeasurements[template.value];
      var writer := new MerlinDaoWriter(dssFileManager, path);
      var m := 0;
      while m < |measures|
        invariant 0 <= m <= |measures|
        invariant Cache() == old(Cache()) && setsRun == old(setsRun) && progressListener == old(progressListener)
        invariant old(isCancelled) ==> isCancelled
        invariant ExtendsWithMessages(old(progressListener.events), progressListener.events)
        invariant ExtendsWithWritesTo(old(dssFileManager.writes), dssFileManager.writes, path)
        invariant |dssFileManager.writes| <= |old(dssFileManager.writes)| + m
        invariant dssFileManager.closed == old(dssFileManager.closed)
        invariant old(tracker.numberCompleted) <= tracker.numberCompleted
        invariant tracker.numberCompleted <= old(tracker.numberCompleted) + TASKS_TO_PERFORM_PER_MEASURE * m
        invariant FlagFollowsTrace(old(trace), trace, old(isCancelled), isCancelled, cancelRequested)
      {
        ghost var events, writes := progressListener.events, dssFileManager.writes;
        ghost var observed, wasCancelled := trace, isCancelled;
        var failed := ExchangeMeasure(ci, si, m, parameters, measures[m], qualityVersion.value, token, unitSystemToConvertTo, writer, tracker);
        ExtendsWithMessagesTrans(old(progressListener.events), events, progressListener.events);
        ExtendsWithWritesToTrans(old(dssFileManager.writes), writes, dssFileManager.writes, path);
        FlagFollowsTraceTrans(old(trace), observed, trace, old(isCancelled), wasCancelled, isCancelled, cancelRequested);
        crashed := crashed || failed;
        m := m + 1;
      }
      writer.Close();
    }

    /**
     * Exchanges one set: its destination is resolved from its references; a destination the
     * configuration does not declare is reported and nothing is exchanged.
     */
    method ExchangeDataForSet(exchangeSet: DataExchangeSet, ci: nat, si: nat, config: DataExchangeConfiguration,
                              parameters: MerlinDataExchangeParameters, token: TokenContainer,
                              tracker: MerlinExchangeDaoCompletionTracker)
      returns (crashed: bool)
      requires progressListener != null
      requires CoversSet(cachedTemplateToMeasurements, exchangeSet, cachedTemplates)
      requires forall t :: t in cachedTemplateToMeasurements ==> |cachedTemplateToMeasurements[t]| <= tracker.numberOfMeasuresToComplete
      modifies this, progressListener, tracker, dssFileManager
      ensures Cache() == old(Cache()) && setsRun == old(setsRun) && progressListener == old(progressListener)
      ensures old(isCancelled) ==> isCancelled
      ensures ExtendsWithMessages(old(progressListener.events), progressListener.events)
      ensures config.GetDataStoreByRef(DestinationRef(exchangeSet)).None? ==>
        && !crashed && isCancelled == old(isCancelled)
        && progressListener.events == old(progressListener.events)
             + [Message(NoDataStoreForRef(DestinationRef(exchangeSet).id), Error, None)]
        && tracker.numberCompleted == old(tracker.numberCompleted)
        && dssFileManager.writes == old(dssFileManager.writes) && dssFileManager.closed == old(dssFileManager.closed)
      ensures config.GetDataStoreByRef(DestinationRef(exchangeSet)).Some? ==>
        var path := BuildAbsoluteDssWritePath(config.GetDataStoreByRef(DestinationRef(exchangeSet)).value.path,
                                              parameters.watershedDirectory, isAbsolute);
        ExtendsWithWritesTo(old(dssFileManager.writes), dssFileManager.writes, path)
      ensures FlagFollowsTrace(old(trace), trace, old(isCancelled), isCancelled, cancelRequested)
    {
      var destinationRef := DestinationRef(exchangeSet);
      var destination := config.GetDataStoreByRef(destinationRef);
      if destination.Some? {
        crashed := ExchangeData(exchangeSet, ci, si, destination.value, parameters, token, tracker);
      } else {
        progressListener.Progress(NoDataStoreForRef(destinationRef.id), Error, None);
        crashed := false;
      }
    }

    /**
     * A set's turn: the flag is read, and the set is exchanged only if it reads clear. `ran` is
     * the set when it was exchanged and `turns` the place in the checkpoint log where its turn came.
     */
    method ExtractSet(ci: nat, j: nat, exchangeSet: DataExchangeSet, config: DataExchangeConfiguration,
                      parameters: MerlinDataExchangeParameters, token: TokenContainer,
                      tracker: MerlinExchangeDaoCompletionTracker)
      returns (crashed: bool, ghost ran: seq<SetPosition>, ghost turns: seq<nat>)
      requires progressListener != null
      requires CoversSet(cachedTemplateToMeasurements, exchangeSet, cachedTemplates)
      requires forall t :: t in cachedTemplateToMeasurements ==> |cachedTemplateToMeasurements[t]| <= tracker.numberOfMeasuresToComplete
      modifies this, progressListener, tracker, dssFileManager
      ensures Cache() == old(Cache()) && progressListener == old(progressListener)
      ensures old(isCancelled) ==> isCancelled
      ensures ExtendsWithMessages(old(progressListener.events), progressListener.events)
      ensures setsRun == old(setsRun) + ran
      ensures ran == (if old(isCancelled) || cancelRequested(BeforeSet(ci, j)) then [] else [SetPosition(ci, j)])
      ensures ran == [] ==> !crashed && isCancelled
      ensures FlagFollowsTrace(old(trace), trace, old(isCancelled), isCancelled, cancelRequested)
      ensures ClearAtTurns(ran, turns, trace, |old(trace)|, cancelRequested)
    {
      crashed, ran, turns := false, [], [];
      var cancelled := Observe(BeforeSet(ci, j));
      if !cancelled {
        ran, turns := [SetPosition(ci, j)], [|trace| - 1];
        assert TurnClear(ran, turns, trace, |old(trace)|, cancelRequested, 0);
        setsRun := setsRun + ran;
        ghost var events, observed := progressListener.events, trace;
        crashed := ExchangeDataForSet(exchangeSet, ci, j, config, parameters, token, tracker);
        ExtendsWithMessagesTrans(old(progressListener.events), events, progressListener.events);
        FlagFollowsTraceTrans(old(trace), observed, trace, old(isCancelled), false, isCancelled, cancelRequested);
        ClearAtTurnsGrow(ran, turns, observed, trace, |old(trace)|, cancelRequested);
      }
    }

    /**
     * Visits a parsed configuration's sets in order, exchanging each one whose turn comes while
     * the run is not cancelled; a failed set ends the visit. Unparsed configurations have no sets.
     * `ran` is the sets that were exchanged, in order, and `turns` the places in the checkpoint
     * log where their turns came.
     */
    method ExtractConfiguration(ci: nat, config: Option<DataExchangeConfiguration>, parameters: MerlinDataExchangeParameters,
                                token: TokenContainer, tracker: MerlinExchangeDaoCompletionTracker)
      returns (crashed: bool, ghost ran: seq<SetPosition>, ghost turns: seq<nat>)
      requires progressListener != null
      requires config.Some? ==> CoversSets(cachedTemplateToMeasurements, config.value.dataExchangeSets, cachedTemplates)
      requires forall t :: t in cachedTemplateToMeasurements ==> |cachedTemplateToMeasurements[t]| <= tracker.numberOfMeasuresToComplete
      modifies this, progressListener, tracker, dssFileManager
      ensures Cache() == old(Cache()) && progressListener == old(progressListener)
      ensures old(isCancelled) ==> isCancelled
      ensures ExtendsWithMessages(old(progressListener.events), progressListener.events)
      ensures setsRun == old(setsRun) + ran
      ensures |ran| <= |SetPositions(ci, config)| && ran == SetPositions(ci, config)[..|ran|]
      ensures FlagFollowsTrace(old(trace), trace, old(isCancelled), isCancelled, cancelRequested)
      ensures ClearAtTurns(ran, turns, trace, |old(trace)|, cancelRequested)
      ensures old(isCancelled) ==> ran == []
      ensures !crashed && !isCancelled ==> ran == SetPositions(ci, config)
      ensures crashed ==> |ran| > 0
    {
      crashed, ran, turns := false, [], [];
      if config.None? {
        return;
      }
      var sets := config.value.dataExchangeSets;
      ghost var all := SetPositions(ci, config);
      var j := 0;
      while j < |sets|
        invariant 0 <= j <= |sets|
        invariant Cache() == old(Cache()) && progressListener == old(progressListener)
        invariant old(isCancelled) ==> isCancelled
        invariant ExtendsWithMessages(old(progressListener.events), progressListener.events)
        invariant setsRun == old(setsRun) + ran
        invariant |ran| <= j && ran == all[..|ran|]
        invariant FlagFollowsTrace(old(trace), trace, old(isCancelled), isCancelled, cancelRequested)
        invariant ClearAtTurns(ran, turns, trace, |old(trace)|, cancelRequested)
        invariant !isCancelled ==> |ran| == j
        invariant old(isCancelled) ==> ran == []
      {
        ghost var events, observed, wasCancelled := progressListener.events, trace, isCancelled;
        var failed: bool;
        ghost var step: seq<SetPosition>, steps: seq<nat>;
        failed, step, steps := ExtractSet(ci, j, sets[j], config.value, parameters, token, tracker);
        ExtendsWithMessagesTrans(old(progressListener.events), events, progressListener.events);
        JoinTurns(old(trace), observed, trace, old(isCancelled), wasCancelled, isCancelled, ran, turns, step, steps, cancelRequested);
        if step != [] {
          assert all[..j + 1] == ran + step;
        }
        assert setsRun == old(setsRun) + (ran + step);
        ran, turns := ran + step, turns + steps;
        if failed {
          return true, ran, turns;
        }
        j := j + 1;
      }
    }

    /** Extracts every configuration in order; a failed set ends the extraction. */
    method ExtractConfigurations(configs: seq<Option<DataExchangeConfiguration>>, parameters: MerlinDataExchangeParameters,
                                 token: TokenContainer, tracker: MerlinExchangeDaoCompletionTracker)
      returns (crashed: bool, ghost ran: seq<SetPosition>, ghost turns: seq<nat>)
      requires progressListener != null
      requires CoversConfigs(cachedTemplateToMeasurements, configs, cachedTemplates)
      requires forall t :: t in cachedTemplateToMeasurements ==> |cachedTemplateToMeasurements[t]| <= tracker.numberOfMeasuresToComplete
      modifies this, progressListener, tracker, dssFileManager
      ensures Cache() == old(Cache()) && progressListener == old(progressListener)
      ensures old(isCancelled) ==> isCancelled
      ensures ExtendsWithMessages(old(progressListener.events), progressListener.events)
      ensures setsRun == old(setsRun) + ran
      ensures |ran| <= |AllSets(configs)| && ran == AllSets(configs)[..|ran|]
      ensures FlagFollowsTrace(old(trace), trace, old(isCancelled), isCancelled, cancelRequested)
      ensures ClearAtTurns(ran, turns, trace, |old(trace)|, cancelRequested)
      ensures old(isCancelled) ==> ran == []
      ensures !crashed && !isCancelled ==> ran == AllSets(configs)
      ensures crashed ==> |ran| > 0
    {
      crashed, ran, turns := false, [], [];
      var i := 0;
      while i < |configs|
        invariant 0 <= i <= |configs|
        invariant Cache() == old(Cache()) && progressListener == old(progressListener)
        invariant ExtendsWithMessages(old(progressListener.events), progressListener.events)
        invariant setsRun == old(setsRun) + ran
        invariant GatedPrefix(AllSets(configs[..i]), ran, turns, old(trace), trace, old(isCancelled), isCancelled, cancelRequested)
        invariant old(isCancelled) ==> isCancelled && ran == []
      {
        assert configs[..i + 1][..i] == configs[..i];
        assert AllSets(configs[..i + 1]) == AllSets(configs[..i]) + SetPositions(i, configs[i]);
        ghost var beforeEvents := progressListener.events;
        ghost var observed, wasCancelled := trace, isCancelled;
        var failed: bool;
        ghost var step: seq<SetPosition>, steps: seq<nat>;
        failed, step, steps := ExtractConfiguration(i, configs[i], parameters, token, tracker);
        ExtendsWithMessagesTrans(old(progressListener.events), beforeEvents, progressListener.events);
        GatedPrefixExtends(AllSets(configs[..i]), SetPositions(i, configs[i]), ran, turns, step, steps,
                           old(trace), observed, trace, old(isCancelled), wasCancelled, isCancelled, failed, cancelRequested);
        assert setsRun == old(setsRun) + (ran + step);
        ran, turns := ran + step, turns + steps;
        if failed {
          AllSetsPrefixGrows(configs, i + 1, ran);
          return true, ran, turns;
        }
        i := i + 1;
      }
      assert configs[..i] == configs;
    }

    /** Reports a successful cancellation if the run was cancelled, then finishes the listener. */
    method Finish()
      requires progressListener != null
      modifies this, progressListener
      ensures Cache() == old(Cache()) && setsRun == old(setsRun) && progressListener == old(progressListener)
      ensures isCancelled == (old(isCancelled) || cancelRequested(BeforeFinishing))
      ensures progressListener.events == old(progressListener.events)
        + (if cancelRequested(BeforeFinishing) then [Message(CancelRequested, Important, None)] else [])
        + (if isCancelled then [Message(CancelledSuccessfully, Important, None)] else [])
        + [Finished]
      ensures ExtendsWithMessages(old(progressListener.events), progressListener.events[..|progressListener.events| - 1])
      ensures trace == old(trace) + [BeforeFinishing]
      ensures FlagFollowsTrace(old(trace), trace, old(isCancelled), isCancelled, cancelRequested)
    {
      var cancelled := Observe(BeforeFinishing);
      if cancelled {
        progressListener.Progress(CancelledSuccessfully, Important, None);
      }
      progressListener.Finish();
    }

    /**
     * After initialisation: on an initialisation error nothing happens (not even finishing).
     * Otherwise, unless cancelled, a tracker sized by the total cached measure count with the
     * set-up share is created and every configuration is extracted in order; then the run finishes.
     * A failed set ends the extraction without finishing.
     */
    method BeginExtract(configs: seq<Option<DataExchangeConfiguration>>, token: TokenContainer,
                        parameters: MerlinDataExchangeParameters, initError: bool)
      returns (crashed: bool, ghost ran: seq<SetPosition>, ghost turns: seq<nat>)
      requires progressListener != null
      requires Valid()
      requires !initError && !isCancelled ==> CoversConfigs(cachedTemplateToMeasurements, configs, cachedTemplates)
      modifies this, progressListener, dssFileManager
      ensures Valid()
      ensures Cache() == old(Cache()) && progressListener == old(progressListener)
      ensures initError ==>
        !crashed && ran == [] && isCancelled == old(isCancelled)
        && progressListener.events == old(progressListener.events)
      ensures setsRun == old(setsRun) + ran
      ensures |ran| <= |AllSets(configs)| && ran == AllSets(configs)[..|ran|]
      ensures ClearAtTurn(ran, cancelRequested) && (|ran| > 0 ==> !cancelRequested(BeforeExtracting))
      ensures old(isCancelled) ==> isCancelled && ran == []
      ensures FlagFollowsTrace(old(trace), trace, old(isCancelled), isCancelled, cancelRequested)
      ensures ClearAtTurns(ran, turns, trace, |old(trace)|, cancelRequested)
      ensures !initError && !crashed && !isCancelled ==> ran == AllSets(configs)
      ensures crashed ==> |ran| > 0
      ensures !initError && !crashed ==>
        && |progressListener.events| > |old(progressListener.events)|
        && progressListener.events[|progressListener.events| - 1] == Finished
        && ExtendsWithMessages(old(progressListener.events), progressListener.events[..|progressListener.events| - 1])
      ensures initError || crashed ==> ExtendsWithMessages(old(progressListener.events), progressListener.events)
    {
      crashed, ran, turns := false, [], [];
      if initError {
        return;
      }
      var cancelled := Observe(BeforeExtracting);
      if !cancelled {
        var totalMeasures := TotalMeasures();
        var tracker := new MerlinExchangeDaoCompletionTracker(totalMeasures, PERCENT_COMPLETE_ALLOCATED_FOR_INITIAL_SETUP);
        forall t | t in cachedTemplateToMeasurements
          ensures |cachedTemplateToMeasurements[t]| <= tracker.numberOfMeasuresToComplete
        {
          SizeAtMostSum(cachedTemplateToMeasurements, t);
        }
        ghost var extracting, observed := progressListener.events, trace;
        crashed, ran, turns := ExtractConfigurations(configs, parameters, token, tracker);
        ExtendsWithMessagesTrans(old(progressListener.events), extracting, progressListener.events);
        GatedFromEarlier(old(trace), observed, trace, old(isCancelled), false, isCancelled, ran, turns, cancelRequested);
        TurnsClearAtTurn(ran, turns, trace, |old(trace)|, cancelRequested);
        if crashed {
          return;
        }
      }
      ghost var finishing, observed, wasCancelled := progressListener.events, trace, isCancelled;
      Finish();
      ExtendsWithMessagesTrans(old(progressListener.events), finishing, progressListener.events[..|progressListener.events| - 1]);
      FlagFollowsTraceTrans(old(trace), observed, trace, old(isCancelled), wasCancelled, isCancelled, cancelRequested);
      ClearAtTurnsGrow(ran, turns, observed, trace, |old(trace)|, cancelRequested);
    }

    /**
     * A run after authentication and parsing: fill the caches, then extract. The result tells
     * whether the run's future fails, and why.
     */
    method InitializeAndExtract(configs: seq<Option<DataExchangeConfiguration>>, parameters: MerlinDataExchangeParameters,
                                token: TokenContainer)
      returns (outcome: RunOutcome, ghost ran: seq<SetPosition>, ghost turns: seq<nat>)
      requires progressListener != null
      requires Valid()
      modifies this, progressListener, dssFileManager
      ensures Valid()
      ensures progressListener == old(progressListener)
      ensures outcome != AuthenticationFailed
      ensures setsRun == old(setsRun) + ran
      ensures |ran| <= |AllSets(configs)| && ran == AllSets(configs)[..|ran|]
      ensures ClearAtTurn(ran, cancelRequested) && (|ran| > 0 ==> !cancelRequested(BeforeExtracting))
      ensures old(isCancelled) ==> ran == []
      ensures outcome == Completed && !isCancelled ==> ran == AllSets(configs)
      ensures outcome == InitializationFailed ==> ran == []
      ensures FlagFollowsTrace(old(trace), trace, old(isCancelled), isCancelled, cancelRequested)
      ensures ClearAtTurns(ran, turns, trace, |old(trace)|, cancelRequested)
      ensures outcome == Completed ==>
        && |progressListener.events| > |old(progressListener.events)|
        && progressListener.events[|progressListener.events| - 1] == Finished
        && ExtendsWithMessages(old(progressListener.events), progressListener.events[..|progressListener.events| - 1])
      ensures outcome != Completed ==> ExtendsWithMessages(old(progressListener.events), progressListener.events)
    {
      var initError := InitializeCache(configs, token);
      ghost var initialised, observed, wasCancelled := progressListener.events, trace, isCancelled;
      var crashed: bool;
      crashed, ran, turns := BeginExtract(configs, token, parameters, initError);
      GatedFromEarlier(old(trace), observed, trace, old(isCancelled), wasCancelled, isCancelled, ran, turns, cancelRequested);
      outcome := if initError then InitializationFailed else if crashed then ExchangeFailed else Completed;
      ExtendsThenEnds(old(progressListener.events), initialised, progressListener.events, outcome == Completed);
    }

    /**
     * A run after authentication: parse every file, then fill the caches and extract. The result
     * tells whether the run's future fails, and why.
     */
    method ExtractFiles(files: seq<string>, parameters: MerlinDataExchangeParameters, token: TokenContainer)
      returns (outcome: RunOutcome, ghost ran: seq<SetPosition>, ghost turns: seq<nat>)
      requires progressListener != null
      requires Valid()
      modifies this, progressListener, dssFileManager
      ensures Valid()
      ensures progressListener == old(progressListener)
      ensures outcome != AuthenticationFailed
      ensures setsRun == old(setsRun) + ran
      ensures var all := AllSets(ParseAll(files, parseXmlFile));
        && |ran| <= |all| && ran == all[..|ran|]
        && ClearAtTurn(ran, cancelRequested) && (|ran| > 0 ==> !cancelRequested(BeforeExtracting))
        && (old(isCancelled) ==> ran == [])
        && (outcome == Completed && !isCancelled ==> ran == all)
        && (outcome == InitializationFailed ==> ran == [])
      ensures FlagFollowsTrace(old(trace), trace, old(isCancelled), isCancelled, cancelRequested)
      ensures ClearAtTurns(ran, turns, trace, |old(trace)|, cancelRequested)
      ensures outcome == Completed ==>
        && |progressListener.events| > |old(progressListener.events)|
        && progressListener.events[|progressListener.events| - 1] == Finished
        && ExtendsWithMessages(old(progressListener.events), progressListener.events[..|progressListener.events| - 1])
      ensures outcome != Completed ==> ExtendsWithMessages(old(progressListener.events), progressListener.events)
    {
      var configs := ParseConfigurations(files);
      assert configs == ParseAll(files, parseXmlFile);
      ParseEventsAreMessages(files, parseXmlFile);
      ghost var parsed := progressListener.events;
      assert ExtendsWithMessages(old(progressListener.events), parsed);
      outcome, ran, turns := InitializeAndExtract(configs, parameters, token);
      ExtendsThenEnds(old(progressListener.events), parsed, progressListener.events, outcome == Completed);
    }

    /**
     * A run: clear the cancel flag, start the listener and authenticate; a failed authentication
     * fails the run before anything else happens. The sets that run (`ran`) are always a prefix,
     * in order, of the sets of the parsed configurations, and none of them had a cancel request
     * waiting at its turn. The flag ends set exactly when a cancel request arrived during the run,
     * and a completed run with no cancel request runs every set.
     */
    method RunExtract(files: seq<string>, parameters: MerlinDataExchangeParameters, listener: ProgressListener,
                      token: Result<TokenContainer, HttpAccessException>)
      returns (outcome: RunOutcome, ghost ran: seq<SetPosition>, ghost turns: seq<nat>)
      requires Valid()
      modifies this, listener, dssFileManager
      ensures Valid()
      ensures progressListener == listener
      ensures setsRun == old(setsRun) + ran
      ensures token.Failure? <==> outcome == AuthenticationFailed
      ensures token.Failure? ==>
        listener.events == old(listener.events) + [Started] && Cache() == old(Cache()) && ran == []
      ensures var all := AllSets(ParseAll(files, parseXmlFile));
        && |ran| <= |all| && ran == all[..|ran|]
        && ClearAtTurn(ran, cancelRequested) && (|ran| > 0 ==> !cancelRequested(BeforeExtracting))
        && (outcome == Completed && !isCancelled ==> ran == all)
        && (outcome == Completed && ClearBetween(trace, |old(trace)|, |trace|, cancelRequested) ==> ran == all)
        && (outcome == InitializationFailed ==> ran == [])
      ensures FlagFollowsTrace(old(trace), trace, false, isCancelled, cancelRequested)
      ensures ClearAtTurns(ran, turns, trace, |old(trace)|, cancelRequested)
      ensures outcome == Completed ==>
        && |listener.events| > |old(listener.events)| + 1
        && listener.events[|listener.events| - 1] == Finished
        && ExtendsWithMessages(old(listener.events) + [Started], listener.events[..|listener.events| - 1])
      ensures outcome == InitializationFailed || outcome == ExchangeFailed ==>
        ExtendsWithMessages(old(listener.events) + [Started], listener.events)
    {
      progressListener := listener;
      isCancelled := false;
      listener.Start();
      FlagFollowsUnchangedTrace(trace, false, cancelRequested);
      if token.Failure? {
        return AuthenticationFailed, [], [];
      }
      outcome, ran, turns := ExtractFiles(files, parameters, token.value);
    }
  }

  /** Filling the measures cache only reports: it appends messages to the log and nothing else. */
  lemma {:induction false} CacheSetsAppendMessages(st: CacheState, sets: seq<DataExchangeSet>, templates: seq<TemplateWrapper>,
                                                   fetch: TemplateWrapper -> Result<seq<MeasureWrapper>, AccessError>)
    ensures ExtendsWithMessages(st.events, CacheAfterSets(st, sets, templates, fetch).events)
  {
    if |sets| > 0 {
      var before := CacheAfterSets(st, sets[..|sets| - 1], templates, fetch);
      CacheSetsAppendMessages(st, sets[..|sets| - 1], templates, fetch);
      ExtendsWithMessagesTrans(st.events, before.events, CacheAfterSet(before, sets[|sets| - 1], templates, fetch).events);
    }
  }

  lemma {:induction false} CacheConfigsAppendMessages(st: CacheState, configs: seq<Option<DataExchangeConfiguration>>,
                                                      templates: seq<TemplateWrapper>,
                                                      fetch: TemplateWrapper -> Result<seq<MeasureWrapper>, AccessError>)
    ensures ExtendsWithMessages(st.events, CacheAfterConfigs(st, configs, templates, fetch).events)
  {
    if |configs| > 0 {
      var before := CacheAfterConfigs(st, configs[..|configs| - 1], templates, fetch);
      CacheConfigsAppendMessages(st, configs[..|configs| - 1], templates, fetch);
      if configs[|configs| - 1].Some? {
        CacheSetsAppendMessages(before, configs[|configs| - 1].value.dataExchangeSets, templates, fetch);
        ExtendsWithMessagesTrans(st.events, before.events,
                                 CacheAfterSets(before, configs[|configs| - 1].value.dataExchangeSets, templates, fetch).events);
      }
    }
  }

  /** Every file's parse result, in file order. */
  function ParseAll(files: seq<string>, parseXmlFile: string -> Option<DataExchangeConfiguration>)
    : (r: seq<Option<DataExchangeConfiguration>>)
    ensures |r| == |files| && forall i :: 0 <= i < |files| ==> r[i] == parseXmlFile(files[i])
  {
    seq(|files|, i requires 0 <= i < |files| => parseXmlFile(files[i]))
  }

  /**
   * A run that is a prefix of `done` stays a prefix of `done + next` when the next step runs a
   * prefix of `next`, provided the next step runs nothing unless all of `done` ran.
   */
  lemma PrefixExtends(done: seq<SetPosition>, next: seq<SetPosition>, ran: seq<SetPosition>, step: seq<SetPosition>, stopped: bool)
    requires |ran| <= |done| && ran == done[..|ran|]
    requires |step| <= |next| && step == next[..|step|]
    requires !stopped ==> ran == done
    requires stopped ==> step == []
    ensures |ran + step| <= |done + next| && ran + step == (done + next)[..|ran + step|]
  {
  }

  lemma AllSetsPrefixGrows(configs: seq<Option<DataExchangeConfiguration>>, n: nat, ran: seq<SetPosition>)
    requires n <= |configs|
    requires |ran| <= |AllSets(configs[..n])| && ran == AllSets(configs[..n])[..|ran|]
    ensures |ran| <= |AllSets(configs)| && ran == AllSets(configs)[..|ran|]
    decreases |configs| - n
  {
    if n < |configs| {
      assert configs[..n + 1][..n] == configs[..n];
      assert AllSets(configs[..n + 1]) == AllSets(configs[..n]) + SetPositions(n, configs[n]);
      AllSetsPrefixGrows(configs, n + 1, ran);
    } else {
      assert configs[..n] == configs;
    }
  }

  /** The error reports of parsing `files`: one per file that does not parse, in order. */
  function ParseEvents(files: seq<string>, parseXmlFile: string -> Option<DataExchangeConfiguration>): seq<Event> {
    if |files| == 0 then []
    else
      var last := files[|files| - 1];
      ParseEvents(files[..|files| - 1], parseXmlFile)
        + (if parseXmlFile(last).None? then [Message(ConfigurationParseFailed(last), Error, None)] else [])
  }

  lemma {:induction false} ParseEventsAppend(a: seq<string>, b: seq<string>, parseXmlFile: string -> Option<DataExchangeConfiguration>)
    ensures ParseEvents(a + b, parseXmlFile) == ParseEvents(a, parseXmlFile) + ParseEvents(b, parseXmlFile)
    decreases |b|
  {
    if |b| == 0 {
      assert a + b == a;
    } else {
      var b' := b[..|b| - 1];
      assert (a + b)[..|a + b| - 1] == a + b';
      ParseEventsAppend(a, b', parseXmlFile);
    }
  }

  /** Exactly the files that fail to parse are reported, each once. */
  lemma {:induction false} ParseEventsAreMessages(files: seq<string>, parseXmlFile: string -> Option<DataExchangeConfiguration>)
    ensures forall i :: 0 <= i < |ParseEvents(files, parseXmlFile)| ==> ParseEvents(files, parseXmlFile)[i].Message?
  {
    if |files| > 0 {
      ParseEventsAreMessages(files[..|files| - 1], parseXmlFile);
    }
  }

  lemma {:induction false} ParseEventsReportFailures(files: seq<string>, parseXmlFile: string -> Option<DataExchangeConfiguration>)
    ensures |ParseEvents(files, parseXmlFile)| <= |files|
    ensures forall e :: e in ParseEvents(files, parseXmlFile) ==>
      e.Message? && e.note.ConfigurationParseFailed? && e.note.file in files && parseXmlFile(e.note.file).None?
    ensures forall i :: 0 <= i < |files| && parseXmlFile(files[i]).None? ==>
      Message(ConfigurationParseFailed(files[i]), Error, None) in ParseEvents(files, parseXmlFile)
  {
    if |files| > 0 {
      var init := files[..|files| - 1];
      ParseEventsReportFailures(init, parseXmlFile);
      forall i | 0 <= i < |files| && parseXmlFile(files[i]).None?
        ensures Message(ConfigurationParseFailed(files[i]), Error, None) in ParseEvents(files, parseXmlFile)
      {
        if i < |files| - 1 {
          assert files[i] == init[i];
        }
      }
    }
  }
}
