/**
 * The per-measure read step: default the time window, fetch the measure's events, advance the
 * completion tracker on a successful fetch, then convert the events into a DSS series.
 * The web-service fetch and the conversion are collaborators given as functions; each read of
 * the shared cancel flag is an input, because another thread may set the flag between reads.
 */
module DaoReader {
  import opened Wrappers
  import opened MerlinTypes
  import opened CompletionTracking
  import opened Progress
  import opened Dss

  /** `Long.MIN_VALUE` and `Long.MAX_VALUE`, the bounds of an unbounded window. */
  const LONG_MIN_VALUE: int := -0x8000_0000_0000_0000
  const LONG_MAX_VALUE: int := 0x7FFF_FFFF_FFFF_FFFF

  /** What `convertToTsc` does with the fetched data (which is null when nothing was fetched). */
  datatype ConversionOutcome =
    | Converted(series: SeriesData)
    | InvalidTimestep          // MerlinInvalidTimestepException: the measure is skipped
    | ConversionCrashed        // any other exception: the read's future fails

  /** The collaborators of the read step. */
  datatype ReaderAccess = ReaderAccess(
    getEventsBySeries: (TokenContainer, MeasureWrapper, Option<int>, Instant, Instant) -> Result<DataWrapper, AccessError>,
    convertToTsc: (Option<DataWrapper>, string, string) -> ConversionOutcome)

  /** How a read ends: with a series or null, or with its future failed. */
  datatype ReadOutcome = ReadCompleted(tsc: Option<TimeSeriesContainer>) | ReadCrashed

  datatype TimeWindow = TimeWindow(start: Instant, end: Instant)

  /** A missing start or end is replaced by the earliest or latest instant a `long` can express. */
  function DefaultWindow(start: Option<Instant>, end: Option<Instant>): (w: TimeWindow)
    ensures start.Some? ==> w.start == start.value
    ensures end.Some? ==> w.end == end.value
    ensures start.None? ==> w.start.epochMilli == LONG_MIN_VALUE
    ensures end.None? ==> w.end.epochMilli == LONG_MAX_VALUE
  {
    TimeWindow(
      if start.None? then Instant(LONG_MIN_VALUE) else start.value,
      if end.None? then Instant(LONG_MAX_VALUE) else end.value)
  }

  /** With neither bound given, the window holds every instant a `long` of milliseconds can express. */
  lemma UnboundedWindowCoversEveryInstant(t: Instant)
    requires LONG_MIN_VALUE <= t.epochMilli <= LONG_MAX_VALUE
    ensures DefaultWindow(None, None).start.epochMilli <= t.epochMilli <= DefaultWindow(None, None).end.epochMilli
  {
  }

  /** What the fetch leaves behind: the events, or null when cancelled or when the fetch failed. */
  function FetchedData(access: ReaderAccess, token: TokenContainer, measure: MeasureWrapper, qualityVersionId: Option<int>,
                       w: TimeWindow, cancelledAtFetch: bool): (d: Option<DataWrapper>)
    ensures cancelledAtFetch ==> d.None?
    ensures d.Some? <==> !cancelledAtFetch && access.getEventsBySeries(token, measure, qualityVersionId, w.start, w.end).Success?
  {
    if cancelledAtFetch then None
    else match access.getEventsBySeries(token, measure, qualityVersionId, w.start, w.end)
      case Success(data) => Some(data)
      case Failure(_) => None
  }

  /**
   * Fetches the events of `measure` over the window unless cancelled. A successful fetch
   * advances the tracker once and reports the new percentage; a failed one reports an error and
   * leaves the tracker alone.
   */
  method RetrieveDataWithUpdatedTimeWindow(access: ReaderAccess, w: TimeWindow, measure: MeasureWrapper, qualityVersionId: Option<int>,
                                           token: TokenContainer, tracker: MerlinExchangeDaoCompletionTracker,
                                           listener: ProgressListener, cancelledAtFetch: bool)
    returns (data: Option<DataWrapper>)
    requires tracker.numberOfMeasuresToComplete > 0
    modifies tracker, listener
    ensures data == FetchedData(access, token, measure, qualityVersionId, w, cancelledAtFetch)
    ensures tracker.numberCompleted == old(tracker.numberCompleted) + (if data.Some? then 1 else 0)
    ensures data.Some? ==>
      listener.events == old(listener.events)
        + [Message(DataRetrieved(measure.seriesString, |data.value.events|), Important, Some(tracker.PercentAfter(tracker.numberCompleted)))]
    ensures data.None? && !cancelledAtFetch ==>
      listener.events == old(listener.events) + [Message(DataRetrievalFailed(measure.seriesString), Error, None)]
    ensures cancelledAtFetch ==> listener.events == old(listener.events)
  {
    data := None;
    if !cancelledAtFetch {
      var fetched := access.getEventsBySeries(token, measure, qualityVersionId, w.start, w.end);
      if fetched.Success? {
        data := Some(fetched.value);
        var percent := tracker.ReadWriteTaskCompleted();
        listener.Progress(DataRetrieved(measure.seriesString, |fetched.value.events|), Important, Some(percent));
      } else {
        listener.Progress(DataRetrievalFailed(measure.seriesString), Error, None);
      }
    }
  }

  /**
   * Reads one measure: fetch, then convert unless cancelled. An unsupported timestep yields
   * null with a notice; any other conversion failure fails the read.
   */
  method ReadData(access: ReaderAccess, startTime: Option<Instant>, endTime: Option<Instant>, measure: MeasureWrapper,
                  qualityVersionId: Option<int>, token: TokenContainer, unitSystemToConvertTo: string, fPartOverride: string,
                  tracker: MerlinExchangeDaoCompletionTracker, listener: ProgressListener,
                  cancelledAtFetch: bool, cancelledAtConvert: bool)
    returns (outcome: ReadOutcome)
    requires tracker.numberOfMeasuresToComplete > 0
    modifies tracker, listener
    ensures var data := FetchedData(access, token, measure, qualityVersionId, DefaultWindow(startTime, endTime), cancelledAtFetch);
      && tracker.numberCompleted == old(tracker.numberCompleted) + (if data.Some? then 1 else 0)
      && (cancelledAtConvert ==> outcome == ReadCompleted(None))
      && (!cancelledAtConvert ==> match access.convertToTsc(data, unitSystemToConvertTo, fPartOverride)
            case Converted(series) =>
              outcome.ReadCompleted? && outcome.tsc.Some? && fresh(outcome.tsc.value)
              && outcome.tsc.value.data == series && outcome.tsc.value.fileName == ""
            case InvalidTimestep => outcome == ReadCompleted(None)
            case ConversionCrashed => outcome == ReadCrashed)
    ensures var data := FetchedData(access, token, measure, qualityVersionId, DefaultWindow(startTime, endTime), cancelledAtFetch);
      var fetchEvents :=
        if data.Some? then [Message(DataRetrieved(measure.seriesString, |data.value.events|), Important, Some(tracker.PercentAfter(tracker.numberCompleted)))]
        else if cancelledAtFetch then []
        else [Message(DataRetrievalFailed(measure.seriesString), Error, None)];
      var convertEvents :=
        if !cancelledAtConvert && access.convertToTsc(data, unitSystemToConvertTo, fPartOverride).InvalidTimestep?
        then [Message(UnsupportedTimestep, Important, None)] else [];
      listener.events == old(listener.events) + fetchEvents + convertEvents
    ensures ExtendsWithMessages(old(listener.events), listener.events)
  {
    var w := DefaultWindow(startTime, endTime);
    var data := RetrieveDataWithUpdatedTimeWindow(access, w, measure, qualityVersionId, token, tracker, listener, cancelledAtFetch);
    outcome := ReadCompleted(None);
    if !cancelledAtConvert {
      match access.convertToTsc(data, unitSystemToConvertTo, fPartOverride)
      case Converted(series) =>
        var tsc := new TimeSeriesContainer(series);
        outcome := ReadCompleted(Some(tsc));
      case InvalidTimestep =>
        listener.Progress(UnsupportedTimestep, Important, None);
      case ConversionCrashed =>
        outcome := ReadCrashed;
    }
  }
}
