/**
 * The records the exchange passes around: the Merlin web-service wrappers (templates, quality
 * versions, measures) and the parsed exchange configuration (data stores, references, sets).
 * These are the external library's and the configuration parser's types, reduced to the fields
 * the exchange reads.
 */
module MerlinTypes {
  import opened Wrappers

  /** The session token obtained by authenticating against the Merlin web service; opaque here. */
  datatype TokenContainer = TokenContainer(token: string)

  /** The checked exceptions of the Merlin data-access calls. */
  datatype AccessError = IOError | HttpAccessError

  /** A point in time, as milliseconds since the epoch. */
  datatype Instant = Instant(epochMilli: int)

  /** A Merlin template: a named group of measures with a numeric id. */
  datatype TemplateWrapper = TemplateWrapper(dprId: int, name: string)

  datatype QualityVersionWrapper = QualityVersionWrapper(qualityVersionId: int, qualityVersionName: string)

  /** One series of a template, addressed by its series string. */
  datatype MeasureWrapper = MeasureWrapper(seriesString: string)

  /** The measures a template fetch yields: the list, or an empty list when the fetch failed. */
  function MeasuresOrEmpty(fetched: Result<seq<MeasureWrapper>, AccessError>): seq<MeasureWrapper> {
    if fetched.Success? then fetched.value else []
  }

  /** One event of a measure's series: when, the value and the quality code, either possibly null. */
  datatype EventWrapper = EventWrapper(date: Instant, value: Option<real>, quality: Option<int>)

  /** The events of one measure returned by the web service. */
  datatype DataWrapper = DataWrapper(seriesString: string, timestep: string, events: seq<EventWrapper>)

  datatype DataStoreRef = DataStoreRef(id: string)

  /** A data store declared in a configuration: its id and its location (a path for DSS files). */
  datatype DataStore = DataStore(id: string, path: string)

  /**
   * One declared transfer between the stores referenced as A and B. The quality-version id is a
   * boxed integer in the configuration and is absent when the file does not give one.
   */
  datatype DataExchangeSet = DataExchangeSet(
    templateName: string,
    templateId: int,
    qualityVersionName: string,
    qualityVersionId: Option<int>,
    unitSystem: string,
    sourceId: string,
    dataStoreRefA: DataStoreRef,
    dataStoreRefB: DataStoreRef)

  /** A parsed configuration file: its stores, by id, and its sets, in file order. */
  datatype DataExchangeConfiguration = DataExchangeConfiguration(
    dataStores: map<string, DataStore>,
    dataExchangeSets: seq<DataExchangeSet>)
  {
    /** The store a reference names, if the configuration declares it. */
    function GetDataStoreByRef(ref: DataStoreRef): Option<DataStore> {
      Get(dataStores, ref.id)
    }
  }
}
