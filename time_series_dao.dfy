/**
 * The legacy time-series lookup: the identifiers available at a location, and the retrieval of the
 * one series that describes the same data as a requested identifier.
 */
module TimeSeriesDao {
  import opened Wrappers
  import opened MerlinTypes
  import opened Streams
  import opened MerlinDataConverter
  import opened LocationDao

  /** A HEC time-series identifier: its text, its location and its office when it names one. */
  datatype TimeSeriesIdentifier = TimeSeriesIdentifier(timeSeriesId: string, locationId: string, officeId: Option<string>)

  /** A request for a series: the window, in epoch milliseconds, and the identifier. */
  datatype TimeSeriesTemplate = TimeSeriesTemplate(startTime: int, endTime: int, identifier: TimeSeriesIdentifier)

  /**
   * What the lookups receive from outside: the Merlin service's answers (each a value or the access
   * failure that fetching it, or the token it needs, raised) and HEC's "describes the same data" test.
   */
  datatype TimeSeriesAccess = TimeSeriesAccess(
    profiles: Result<seq<ProfileWrapper>, AccessError>,
    measurementsByProfile: ProfileWrapper -> Result<seq<MeasureWrapper>, AccessError>,
    eventsBySeries: (MeasureWrapper, Instant, Instant) -> Result<DataWrapper, AccessError>,
    describesSameDataAs: (TimeSeriesIdentifier, TimeSeriesIdentifier) -> bool)

  /** An access failure as the lookups report it: an I/O failure is an access failure, a refused request "no data". */
  function AccessFailure(e: AccessError): (r: MerlinError)
    ensures e.IOError? <==> r == MerlinAccessException
    ensures e.HttpAccessError? <==> r == MerlinNoDataFoundException(ServiceRefused)
  {
    match e
    case IOError => MerlinAccessException
    case HttpAccessError => MerlinNoDataFoundException(ServiceRefused)
  }

  /**
   * The identifiers at a location: the measurements of the location's profile are fetched, and a
   * failure is reported, but the answer is never turned into identifiers, so success is always empty.
   */
  function RetrieveTimeSeriesIds(access: TimeSeriesAccess, template: LocationTemplate): (r: Result<seq<TimeSeriesIdentifier>, MerlinError>)
    ensures r.Success? <==> access.measurementsByProfile(LocationTemplateToProfile(template)).Success?
    ensures r.Success? ==> r.value == []
    ensures r.Failure? ==>
      r.error == AccessFailure(access.measurementsByProfile(LocationTemplateToProfile(template)).error)
  {
    match access.measurementsByProfile(LocationTemplateToProfile(template))
    case Failure(e) => Failure(AccessFailure(e))
    case Success(_) => Success([])
  }

  function TimeSeriesIds(ids: seq<TimeSeriesIdentifier>): (r: seq<string>)
    ensures |r| == |ids| && forall k :: 0 <= k < |ids| ==> r[k] == ids[k].timeSeriesId
  {
    seq(|ids|, k requires 0 <= k < |ids| => ids[k].timeSeriesId)
  }

  /**
   * The positions in `ids` of the identifiers that describe the same data as `id`, in increasing
   * order: every position listed is such an identifier, and every such identifier is listed.
   */
  function SimilarPositions(id: TimeSeriesIdentifier, ids: seq<TimeSeriesIdentifier>,
                            same: (TimeSeriesIdentifier, TimeSeriesIdentifier) -> bool): (r: seq<nat>)
    ensures forall i :: 0 <= i < |r| ==> r[i] < |ids| && same(id, ids[r[i]])
    ensures forall i, j :: 0 <= i < j < |r| ==> r[i] < r[j]
    ensures forall k :: 0 <= k < |ids| && same(id, ids[k]) ==> k in r
  {
    if |ids| == 0 then []
    else
      var init := SimilarPositions(id, ids[..|ids| - 1], same);
      assert forall i :: 0 <= i < |init| ==> ids[init[i]] == ids[..|ids| - 1][init[i]];
      assert forall k :: 0 <= k < |ids| - 1 ==> ids[k] == ids[..|ids| - 1][k];
      init + (if same(id, ids[|ids| - 1]) then [|ids| - 1] else [])
  }

  /** Filtering by the same-data test picks exactly the identifiers at the similar positions. */
  lemma {:induction false} FilterPicksSimilarPositions(id: TimeSeriesIdentifier, ids: seq<TimeSeriesIdentifier>,
                                                       same: (TimeSeriesIdentifier, TimeSeriesIdentifier) -> bool,
                                                       p: TimeSeriesIdentifier -> bool)
    requires forall x :: p(x) == same(id, x)
    ensures var pos := SimilarPositions(id, ids, same);
      |Filter(ids, p)| == |pos| && forall i :: 0 <= i < |pos| ==> Filter(ids, p)[i] == ids[pos[i]]
  {
    if |ids| > 0 {
      FilterPicksSimilarPositions(id, ids[..|ids| - 1], same, p);
      SimilarPositionsSnoc(id, ids, same);
      FilterSnoc(ids, p);
      PickedExtend(ids, Filter(ids[..|ids| - 1], p), SimilarPositions(id, ids[..|ids| - 1], same), same(id, ids[|ids| - 1]));
    }
  }

  /** The similar positions of a non-empty list: those of all but the last, then maybe the last. */
  lemma SimilarPositionsSnoc(id: TimeSeriesIdentifier, ids: seq<TimeSeriesIdentifier>,
                             same: (TimeSeriesIdentifier, TimeSeriesIdentifier) -> bool)
    requires |ids| > 0
    ensures SimilarPositions(id, ids, same)
      == SimilarPositions(id, ids[..|ids| - 1], same) + (if same(id, ids[|ids| - 1]) then [|ids| - 1] else [])
  {
  }

  /** Filtering a non-empty list: filter all but the last, then maybe keep the last. */
  lemma FilterSnoc<T>(xs: seq<T>, p: T -> bool)
    requires |xs| > 0
    ensures Filter(xs, p) == Filter(xs[..|xs| - 1], p) + (if p(xs[|xs| - 1]) then [xs[|xs| - 1]] else [])
  {
    var init, last := xs[..|xs| - 1], xs[|xs| - 1];
    FilterAppend(init, last, p);
    assert init + [last] == xs;
  }

  /** Picking by positions stays exact when the list grows by its last element, maybe picked. */
  lemma PickedExtend<T>(xs: seq<T>, picked: seq<T>, pos: seq<nat>, take: bool)
    requires |xs| > 0
    requires |picked| == |pos|
    requires forall i :: 0 <= i < |pos| ==> pos[i] < |xs| - 1 && picked[i] == xs[..|xs| - 1][pos[i]]
    ensures var picked' := picked + (if take then [xs[|xs| - 1]] else []);
      var pos' := pos + (if take then [|xs| - 1] else []);
      |picked'| == |pos'| && forall i :: 0 <= i < |pos'| ==> picked'[i] == xs[pos'[i]]
  {
  }

  /** One similar position is an index of `ids` that alone describes the same data as `id`. */
  lemma OnePositionIsUniqueIndex(id: TimeSeriesIdentifier, ids: seq<TimeSeriesIdentifier>,
                                 same: (TimeSeriesIdentifier, TimeSeriesIdentifier) -> bool)
    requires |SimilarPositions(id, ids, same)| == 1
    ensures var k := SimilarPositions(id, ids, same)[0];
      0 <= k < |ids| && same(id, ids[k]) && forall j :: 0 <= j < |ids| && same(id, ids[j]) ==> j == k
  {
    var pos := SimilarPositions(id, ids, same);
    forall j | 0 <= j < |ids| && same(id, ids[j])
      ensures j == pos[0]
    {
      assert j in pos;
    }
  }

  /** An index that alone describes the same data as `id` is the only similar position. */
  lemma UniqueIndexIsOnePosition(id: TimeSeriesIdentifier, ids: seq<TimeSeriesIdentifier>,
                                 same: (TimeSeriesIdentifier, TimeSeriesIdentifier) -> bool, k: nat)
    requires k < |ids| && same(id, ids[k])
    requires forall j :: 0 <= j < |ids| && same(id, ids[j]) ==> j == k
    ensures |SimilarPositions(id, ids, same)| == 1
  {
    var pos := SimilarPositions(id, ids, same);
    assert k in pos;
    IncreasingHeadDistinct(pos);
  }

  /** The first two elements of a strictly increasing sequence differ. */
  lemma IncreasingHeadDistinct(s: seq<nat>)
    requires forall i, j :: 0 <= i < j < |s| ==> s[i] < s[j]
    ensures |s| > 1 ==> s[0] != s[1]
  {
  }

  /** Exactly one similar position means exactly one index of `ids` describes the same data as `id`. */
  lemma UniqueSimilarPosition(id: TimeSeriesIdentifier, ids: seq<TimeSeriesIdentifier>,
                              same: (TimeSeriesIdentifier, TimeSeriesIdentifier) -> bool)
    ensures |SimilarPositions(id, ids, same)| == 1 <==>
      exists k :: 0 <= k < |ids| && same(id, ids[k]) && forall j :: 0 <= j < |ids| && same(id, ids[j]) ==> j == k
  {
    if |SimilarPositions(id, ids, same)| == 1 {
      OnePositionIsUniqueIndex(id, ids, same);
    }
    if exists k :: 0 <= k < |ids| && same(id, ids[k]) && forall j :: 0 <= j < |ids| && same(id, ids[j]) ==> j == k {
      var k :| 0 <= k < |ids| && same(id, ids[k]) && forall j :: 0 <= j < |ids| && same(id, ids[j]) ==> j == k;
      UniqueIndexIsOnePosition(id, ids, same, k);
    }
  }

  /** HEC's same-data test against `id`, as the filter applies it. */
  function SameAs(id: TimeSeriesIdentifier, same: (TimeSeriesIdentifier, TimeSeriesIdentifier) -> bool)
    : (p: TimeSeriesIdentifier -> bool)
    ensures forall x :: p(x) == same(id, x)
  {
    x => same(id, x)
  }

  /**
   * The unique-match rule: of the identifiers describing the same data as `id`, none is "no data",
   * more than one is "no data" naming all of them, and exactly one is the answer.
   */
  function SelectUnique(id: TimeSeriesIdentifier, ids: seq<TimeSeriesIdentifier>, same: (TimeSeriesIdentifier, TimeSeriesIdentifier) -> bool)
    : (r: Result<TimeSeriesIdentifier, MerlinError>)
    ensures r == Failure(MerlinNoDataFoundException(NoSeriesLike(id.timeSeriesId))) <==>
      forall k :: 0 <= k < |ids| ==> !same(id, ids[k])
    ensures r.Success? ==> r.value in ids && same(id, r.value)
    ensures r.Success? ==> forall k :: 0 <= k < |ids| && same(id, ids[k]) ==> ids[k] == r.value
    ensures r.Failure? && r.error.MerlinNoDataFoundException? && r.error.reason.TooManySeries? ==>
      var matches := r.error.reason.matches;
      && r.error.reason.timeSeriesId == id.timeSeriesId
      && |matches| > 1
      && (forall k :: 0 <= k < |ids| && same(id, ids[k]) ==> ids[k].timeSeriesId in matches)
      && (forall m :: m in matches ==> exists k :: 0 <= k < |ids| && same(id, ids[k]) && ids[k].timeSeriesId == m)
    ensures r.Failure? ==> r.error.MerlinNoDataFoundException? && (r.error.reason.NoSeriesLike? || r.error.reason.TooManySeries?)
  {
    var similar := Filter(ids, SameAs(id, same));
    if |similar| == 0 then
      Failure(MerlinNoDataFoundException(NoSeriesLike(id.timeSeriesId)))
    else if |similar| > 1 then
      var matches := TimeSeriesIds(similar);
      assert forall k :: 0 <= k < |ids| && same(id, ids[k]) ==> ids[k].timeSeriesId in matches by {
        forall k | 0 <= k < |ids| && same(id, ids[k])
          ensures ids[k].timeSeriesId in matches
        {
          var j :| 0 <= j < |similar| && similar[j] == ids[k];
          assert matches[j] == ids[k].timeSeriesId;
        }
      }
      assert forall m :: m in matches ==> exists k :: 0 <= k < |ids| && same(id, ids[k]) && ids[k].timeSeriesId == m by {
        forall m | m in matches
          ensures exists k :: 0 <= k < |ids| && same(id, ids[k]) && ids[k].timeSeriesId == m
        {
          var j :| 0 <= j < |matches| && matches[j] == m;
          assert similar[j] in ids && same(id, similar[j]);
          var k :| 0 <= k < |ids| && ids[k] == similar[j];
        }
      }
      Failure(MerlinNoDataFoundException(TooManySeries(id.timeSeriesId, matches)))
    else
      assert similar[0] in ids && same(id, similar[0]);
      Success(similar[0])
  }

  /**
   * The unique-match rule counted: the lookup succeeds exactly when one position describes the same
   * data, answering the identifier there, and "too many" names one identifier per similar position,
   * in order.
   */
  lemma SelectUniqueCountsSimilar(id: TimeSeriesIdentifier, ids: seq<TimeSeriesIdentifier>,
                                  same: (TimeSeriesIdentifier, TimeSeriesIdentifier) -> bool)
    ensures var r := SelectUnique(id, ids, same);
      var pos := SimilarPositions(id, ids, same);
      && (r.Success? <==> |pos| == 1)
      && (r.Success? ==> r.value == ids[pos[0]])
      && (r.Failure? && r.error.MerlinNoDataFoundException? && r.error.reason.TooManySeries? ==>
            && |r.error.reason.matches| == |pos|
            && forall i :: 0 <= i < |pos| ==> r.error.reason.matches[i] == ids[pos[i]].timeSeriesId)
  {
    var similar := Filter(ids, SameAs(id, same));
    FilterPicksSimilarPositions(id, ids, same, SameAs(id, same));
    if |similar| > 1 {
      var matches := TimeSeriesIds(similar);
      assert SelectUnique(id, ids, same) == Failure(MerlinNoDataFoundException(TooManySeries(id.timeSeriesId, matches)));
    }
  }

  /** The lookup succeeds exactly when a single index of `ids` describes the same data as `id`. */
  lemma SelectUniqueSucceedsIffOneIndex(id: TimeSeriesIdentifier, ids: seq<TimeSeriesIdentifier>,
                                        same: (TimeSeriesIdentifier, TimeSeriesIdentifier) -> bool)
    ensures SelectUnique(id, ids, same).Success? <==>
      exists k :: 0 <= k < |ids| && same(id, ids[k]) && forall j :: 0 <= j < |ids| && same(id, ids[j]) ==> j == k
  {
    SelectUniqueCountsSimilar(id, ids, same);
    UniqueSimilarPosition(id, ids, same);
  }

  /** The measure that stands for a time-series identifier. */
  function MeasureFor(realId: TimeSeriesIdentifier): MeasureWrapper {
    TimeSeriesIdToMeasure(DescriptionTx(realId.timeSeriesId))
  }

  /**
   * Retrieves the series a template asks for: the location is looked up (an absent office is a null
   * dereference once the catalog is built), its identifiers are listed, the unique match is selected
   * and its events in the window are fetched and converted into one series. The conversion is
   * the corrected `Converted`, not the arrays `dataToTimeSeries` fills as written; the difference
   * never shows here, because no retrieval gets that far (`RetrieveTimeSeriesNeverSucceeds`).
   */
  function RetrieveTimeSeries(access: TimeSeriesAccess, template: TimeSeriesTemplate): (r: Result<seq<TimeSeriesArrays>, MerlinError>)
    ensures template.identifier.officeId.None? ==> r.Failure?
    ensures template.identifier.officeId.Some? &&
            RetrieveLocationTemplate(access.profiles, template.identifier.locationId, template.identifier.officeId.value).Failure? ==>
      r == Failure(RetrieveLocationTemplate(access.profiles, template.identifier.locationId, template.identifier.officeId.value).error)
    ensures r.Success? ==>
      && template.identifier.officeId.Some?
      && var loc := RetrieveLocationTemplate(access.profiles, template.identifier.locationId, template.identifier.officeId.value);
      && loc.Success?
      && RetrieveTimeSeriesIds(access, loc.value).Success?
      && var realId := SelectUnique(template.identifier, RetrieveTimeSeriesIds(access, loc.value).value, access.describesSameDataAs);
      && realId.Success?
      && var fetched := access.eventsBySeries(MeasureFor(realId.value), Instant(template.startTime), Instant(template.endTime));
      && fetched.Success?
      && r.value == [Converted(fetched.value.events)]
  {
    var id := template.identifier;
    if id.officeId.None? then
      match CatalogLocationTemplates(access.profiles, "")
      case Failure(e) => Failure(e)
      case Success(_) => Failure(NullPointerException)
    else
      match RetrieveLocationTemplate(access.profiles, id.locationId, id.officeId.value)
      case Failure(e) => Failure(e)
      case Success(loc) =>
        match RetrieveTimeSeriesIds(access, loc)
        case Failure(e) => Failure(e)
        case Success(ids) =>
          match SelectUnique(id, ids, access.describesSameDataAs)
          case Failure(e) => Failure(e)
          case Success(realId) =>
            match access.eventsBySeries(MeasureFor(realId), Instant(template.startTime), Instant(template.endTime))
            case Failure(e) => Failure(AccessFailure(e))
            case Success(data) => Success([Converted(data.events)])
  }

  /**
   * Because the identifier list is always empty, a retrieval never succeeds: once the location is
   * found and its measurements fetched, the answer is "no series like" the requested one.
   */
  lemma RetrieveTimeSeriesNeverSucceeds(access: TimeSeriesAccess, template: TimeSeriesTemplate)
    ensures RetrieveTimeSeries(access, template).Failure?
    ensures var id := template.identifier;
      id.officeId.Some? ==>
      var loc := RetrieveLocationTemplate(access.profiles, id.locationId, id.officeId.value);
      loc.Success? && access.measurementsByProfile(LocationTemplateToProfile(loc.value)).Success? ==>
      RetrieveTimeSeries(access, template) == Failure(MerlinNoDataFoundException(NoSeriesLike(id.timeSeriesId)))
  {
    var id := template.identifier;
    if id.officeId.Some? {
      var loc := RetrieveLocationTemplate(access.profiles, id.locationId, id.officeId.value);
      if loc.Success? && RetrieveTimeSeriesIds(access, loc.value).Success? {
        assert RetrieveTimeSeriesIds(access, loc.value).value == [];
        assert SelectUnique(id, [], access.describesSameDataAs).Failure?;
      }
    }
  }
}
