/**
 * The conversions between Merlin's records and HEC's: profiles and location templates, measures
 * and time-series identifiers, and a measure's events into the arrays of a time series.
 */
module MerlinDataConverter {
  import opened Wrappers
  import opened MerlinTypes

  /** A Merlin profile: its name, and its numeric id when it came from the service. */
  datatype ProfileWrapper = ProfileWrapper(name: string, dprId: Option<int>)

  /** A HEC location template: the office and the location id. */
  datatype LocationTemplate = LocationTemplate(officeId: string, locationId: string)

  /** A HEC time-series description, reduced to its identifier. */
  datatype DescriptionTx = DescriptionTx(timeSeriesId: string)

  /** A DSS pathname, kept as its text. */
  datatype DSSPathString = DSSPathString(pathname: string)

  /** HEC's marker for a missing value: minus the largest single-precision float. */
  const UNDEFINED_DOUBLE: real := -340282346638528859811704183484516925440.0

  /** A profile becomes a location template of the given office, located at the profile's name. */
  function ProfileToLocationTemplate(profileWrapper: ProfileWrapper, officeId: string): (r: LocationTemplate)
    ensures r.locationId == profileWrapper.name && r.officeId == officeId
  {
    LocationTemplate(officeId, profileWrapper.name)
  }

  /** A location template becomes a profile named after the location, without an id. */
  function LocationTemplateToProfile(template: LocationTemplate): (r: ProfileWrapper)
    ensures r.name == template.locationId && r.dprId.None?
  {
    ProfileWrapper(template.locationId, None)
  }

  /** A time-series identifier becomes a measure with that series string. */
  function TimeSeriesIdToMeasure(id: DescriptionTx): (r: MeasureWrapper)
    ensures r.seriesString == id.timeSeriesId
  {
    MeasureWrapper(id.timeSeriesId)
  }

  /** A measure becomes the DSS pathname of its series string; the office is not used. */
  function MeasureToTimeSeriesId(wrapper: MeasureWrapper, officeId: string): (r: DSSPathString)
    ensures r.pathname == wrapper.seriesString
  {
    DSSPathString(wrapper.seriesString)
  }

  /** A profile's name survives the trip through a location template; its id does not. */
  lemma ProfileNameRoundTrip(p: ProfileWrapper, officeId: string)
    ensures LocationTemplateToProfile(ProfileToLocationTemplate(p, officeId)) == p.(dprId := None)
  {
  }

  /** A measure survives the trip through a DSS pathname and back. */
  lemma SeriesStringRoundTrip(m: MeasureWrapper, officeId: string)
    ensures TimeSeriesIdToMeasure(DescriptionTx(MeasureToTimeSeriesId(m, officeId).pathname)) == m
  {
  }

  /** The converter tests' fixtures: the location, the office and the series identifier. */
  lemma ConverterTestCases()
    ensures var location := "Shasta Lake-Shasta Dam-Outflow";
      var office := "SWT";
      var series := "Shasta Lake-Shasta Dam-Outflow/Flow/INST-VAL/60/0/35-230.11.125.1.1";
      && ProfileToLocationTemplate(ProfileWrapper(location, None), office) == LocationTemplate(office, location)
      && LocationTemplateToProfile(LocationTemplate(office, location)) == ProfileWrapper(location, None)
      && TimeSeriesIdToMeasure(DescriptionTx(series)).seriesString == series
      && MeasureToTimeSeriesId(MeasureWrapper(series), office).pathname == series
  {
  }

  // ---------------------------------------------------------------------------------------------
  // Events to time-series arrays
  // ---------------------------------------------------------------------------------------------

  /** What is handed to the time-series factory: the three arrays and the quality, if one is built. */
  datatype TimeSeriesArrays = TimeSeriesArrays(times: seq<int>, values: seq<real>, qualities: seq<int>, quality: Option<seq<int>>)

  /** An event's value; a null value is the undefined marker. */
  function EventValue(e: EventWrapper): real {
    if e.value.Some? then e.value.value else UNDEFINED_DOUBLE
  }

  /** An event's quality code; a null quality is 0. */
  function EventQuality(e: EventWrapper): int {
    if e.quality.Some? then e.quality.value else 0
  }

  predicate LacksQuality(events: seq<EventWrapper>) {
    exists k :: 0 <= k < |events| && events[k].quality.None?
  }

  /** The arrays the conversion intends: slot `k` holds event `k`; a quality exists when some event lacked one. */
  function Converted(events: seq<EventWrapper>): (r: TimeSeriesArrays)
    ensures |r.times| == |r.values| == |r.qualities| == |events|
    ensures forall k :: 0 <= k < |events| ==>
      && r.times[k] == events[k].date.epochMilli
      && r.values[k] == (if events[k].value.Some? then events[k].value.value else UNDEFINED_DOUBLE)
      && r.qualities[k] == (if events[k].quality.Some? then events[k].quality.value else 0)
    ensures r.quality.Some? <==> LacksQuality(events)
    ensures r.quality.Some? ==> r.quality.value == r.qualities
  {
    var n := |events|;
    var times := seq(n, k requires 0 <= k < n => events[k].date.epochMilli);
    var values := seq(n, k requires 0 <= k < n => EventValue(events[k]));
    var qualities := seq(n, k requires 0 <= k < n => EventQuality(events[k]));
    TimeSeriesArrays(times, values, qualities, if LacksQuality(events) then Some(qualities) else None)
  }

  /**
   * The arrays as the conversion is written: its index never advances, so every event is written
   * to slot 0, which ends up holding the last event, and every other slot keeps Java's default 0.
   */
  function FilledAsWritten(events: seq<EventWrapper>): (r: TimeSeriesArrays)
    ensures |r.times| == |r.values| == |r.qualities| == |events|
    ensures |events| > 0 ==> r.times[0] == events[|events| - 1].date.epochMilli
    ensures forall k :: 1 <= k < |events| ==> r.times[k] == 0 && r.values[k] == 0.0 && r.qualities[k] == 0
    ensures r.quality.Some? <==> LacksQuality(events)
  {
    var n := |events|;
    var times := seq(n, k requires 0 <= k < n => if k == 0 then events[n - 1].date.epochMilli else 0);
    var values := seq(n, k requires 0 <= k < n => if k == 0 then EventValue(events[n - 1]) else 0.0);
    var qualities := seq(n, k requires 0 <= k < n => if k == 0 then EventQuality(events[n - 1]) else 0);
    TimeSeriesArrays(times, values, qualities, if LacksQuality(events) then Some(qualities) else None)
  }

  /** The conversion loop as written: the index `i` is set to 0 and never incremented. */
  method DataToTimeSeriesAsWritten(data: DataWrapper) returns (ts: TimeSeriesArrays)
    ensures ts == FilledAsWritten(data.events)
  {
    var events := data.events;
    var eventCount := |events|;
    var times := new int[eventCount](_ => 0);
    var values := new real[eventCount](_ => 0.0);
    var qualities := new int[eventCount](_ => 0);
    var makeQuality := false;
    var i := 0;
    var e := 0;
    while e < eventCount
      invariant 0 <= e <= eventCount
      invariant i == 0
      invariant makeQuality <==> LacksQuality(events[..e])
      invariant e > 0 ==> times[0] == events[e - 1].date.epochMilli && values[0] == EventValue(events[e - 1])
                          && qualities[0] == EventQuality(events[e - 1])
      invariant forall k :: 1 <= k < eventCount ==> times[k] == 0 && values[k] == 0.0 && qualities[k] == 0
    {
      var event := events[e];
      assert events[..e + 1] == events[..e] + [event];
      times[i] := event.date.epochMilli;
      var value := if event.value.Some? then event.value.value else UNDEFINED_DOUBLE;
      values[i] := value;
      var quality := 0;
      if event.quality.None? {
        makeQuality := true;
      } else {
        quality := event.quality.value;
      }
      qualities[i] := quality;
      e := e + 1;
    }
    assert events[..e] == events;
    ts := TimeSeriesArrays(times[..], values[..], qualities[..], if makeQuality then Some(qualities[..]) else None);
    assert ts.times == FilledAsWritten(events).times;
    assert ts.values == FilledAsWritten(events).values;
    assert ts.qualities == FilledAsWritten(events).qualities;
  }

  /** The conversion loop as intended: the index advances with each event. */
  method DataToTimeSeries(data: DataWrapper) returns (ts: TimeSeriesArrays)
    ensures ts == Converted(data.events)
  {
    var events := data.events;
    var eventCount := |events|;
    var times := new int[eventCount](_ => 0);
    var values := new real[eventCount](_ => 0.0);
    var qualities := new int[eventCount](_ => 0);
    var makeQuality := false;
    var i := 0;
    while i < eventCount
      invariant 0 <= i <= eventCount
      invariant makeQuality <==> LacksQuality(events[..i])
      invariant forall k :: 0 <= k < i ==> times[k] == events[k].date.epochMilli && values[k] == EventValue(events[k])
                                           && qualities[k] == EventQuality(events[k])
    {
      var event := events[i];
      assert events[..i + 1] == events[..i] + [event];
      times[i] := event.date.epochMilli;
      var value := if event.value.Some? then event.value.value else UNDEFINED_DOUBLE;
      values[i] := value;
      var quality := 0;
      if event.quality.None? {
        makeQuality := true;
      } else {
        quality := event.quality.value;
      }
      qualities[i] := quality;
      i := i + 1;
    }
    assert events[..i] == events;
    ts := TimeSeriesArrays(times[..], values[..], qualities[..], if makeQuality then Some(qualities[..]) else None);
    assert ts.times == Converted(events).times;
    assert ts.values == Converted(events).values;
    assert ts.qualities == Converted(events).qualities;
  }

  /**
   * With two or more events the conversion as written loses data: the first event's time is not
   * in slot 0 unless it equals the last event's, and slot 1 holds 0 whatever the second event's time.
   */
  lemma AsWrittenLosesEvents(events: seq<EventWrapper>)
    requires |events| >= 2
    requires events[1].date.epochMilli != 0 || events[0].date.epochMilli != events[|events| - 1].date.epochMilli
    ensures FilledAsWritten(events) != Converted(events)
  {
    if events[1].date.epochMilli != 0 {
      assert FilledAsWritten(events).times[1] != Converted(events).times[1];
    } else {
      assert FilledAsWritten(events).times[0] != Converted(events).times[0];
    }
  }

  /** A concrete pair of events: written as is, the first event's time is lost. */
  lemma TwoEventsExample()
    ensures var events := [EventWrapper(Instant(1000), Some(1.5), Some(3)), EventWrapper(Instant(2000), None, None)];
      && Converted(events).times == [1000, 2000]
      && FilledAsWritten(events).times == [2000, 0]
      && Converted(events).values == [1.5, UNDEFINED_DOUBLE]
      && Converted(events).quality == Some([3, 0])
  {
    var events := [EventWrapper(Instant(1000), Some(1.5), Some(3)), EventWrapper(Instant(2000), None, None)];
    assert LacksQuality(events) by {
      assert events[1].quality.None?;
    }
    assert Converted(events).qualities == [3, 0];
  }
}
