/**
 * The legacy location lookup: the catalog of location templates built from Merlin's profiles, and
 * the search for one location in it.
 */
module LocationDao {
  import opened Wrappers
  import opened MerlinTypes
  import opened JavaStrings
  import opened Streams
  import opened MerlinDataConverter

  /** Why a lookup found nothing; the variants carry what the exception's message names. */
  datatype NoDataReason =
    | NoLocations
    | NoLocationMatch(locationId: string, officeId: string)
    | NoSeriesLike(timeSeriesId: string)
    | TooManySeries(timeSeriesId: string, matches: seq<string>)
    | ServiceRefused

  /** The checked exceptions of the legacy lookups, plus the null dereference an absent office causes. */
  datatype MerlinError =
    | MerlinAccessException
    | MerlinNoDataFoundException(reason: NoDataReason)
    | NullPointerException

  /** One location template per profile, in the profiles' order, each stamped with the office. */
  function TemplatesOf(profiles: seq<ProfileWrapper>, officeId: string): (r: seq<LocationTemplate>)
    ensures |r| == |profiles|
    ensures forall k :: 0 <= k < |profiles| ==>
      r[k].officeId == officeId && r[k].locationId == profiles[k].name
  {
    if |profiles| == 0 then []
    else [ProfileToLocationTemplate(profiles[0], officeId)] + TemplatesOf(profiles[1..], officeId)
  }

  /**
   * The catalog of locations: a failed profile fetch (or token request) is an access failure, an
   * empty profile list is "no data", and otherwise every profile becomes a template of the office.
   */
  function CatalogLocationTemplates(profiles: Result<seq<ProfileWrapper>, AccessError>, officeId: string)
    : (r: Result<seq<LocationTemplate>, MerlinError>)
    ensures profiles.Failure? ==> r == Failure(MerlinAccessException)
    ensures profiles.Success? && |profiles.value| == 0 ==> r == Failure(MerlinNoDataFoundException(NoLocations))
    ensures profiles.Success? && |profiles.value| > 0 ==>
      && r.Success?
      && |r.value| == |profiles.value|
      && forall k :: 0 <= k < |profiles.value| ==>
           r.value[k] == LocationTemplate(officeId, profiles.value[k].name)
  {
    match profiles
    case Failure(_) => Failure(MerlinAccessException)
    case Success(ps) =>
      if |ps| == 0 then Failure(MerlinNoDataFoundException(NoLocations))
      else Success(TemplatesOf(ps, officeId))
  }

  /** The search criterion: the same office, and the location id equal ignoring case. */
  predicate Matches(template: LocationTemplate, locationId: string, officeId: string) {
    template.officeId == officeId && EqualsIgnoreCase(template.locationId, locationId)
  }

  /** The first catalog entry that matches, or "no data" when none does; catalog failures pass through. */
  function RetrieveLocationTemplate(profiles: Result<seq<ProfileWrapper>, AccessError>, locationId: string, officeId: string)
    : (r: Result<LocationTemplate, MerlinError>)
    ensures CatalogLocationTemplates(profiles, officeId).Failure? ==> r == Failure(CatalogLocationTemplates(profiles, officeId).error)
    ensures r.Success? ==>
      var templates := CatalogLocationTemplates(profiles, officeId).value;
      && Matches(r.value, locationId, officeId)
      && exists k :: 0 <= k < |templates| && templates[k] == r.value
                     && forall j :: 0 <= j < k ==> !Matches(templates[j], locationId, officeId)
    ensures CatalogLocationTemplates(profiles, officeId).Success? && r.Failure? ==>
      && r == Failure(MerlinNoDataFoundException(NoLocationMatch(locationId, officeId)))
      && forall t :: t in CatalogLocationTemplates(profiles, officeId).value ==> !Matches(t, locationId, officeId)
  {
    match CatalogLocationTemplates(profiles, officeId)
    case Failure(e) => Failure(e)
    case Success(templates) =>
      match FindFirst(templates, t => Matches(t, locationId, officeId))
      case Some(k) => Success(templates[k])
      case None => Failure(MerlinNoDataFoundException(NoLocationMatch(locationId, officeId)))
  }

  /**
   * Since every catalog entry carries the requested office, the office filter never rejects one:
   * the lookup succeeds exactly when some profile is named like the location ignoring case, and
   * then answers with the first such profile's name.
   */
  lemma {:induction false} LookupByProfileName(ps: seq<ProfileWrapper>, locationId: string, officeId: string)
    requires |ps| > 0
    ensures RetrieveLocationTemplate(Success(ps), locationId, officeId).Success? <==>
      exists k :: 0 <= k < |ps| && EqualsIgnoreCase(ps[k].name, locationId)
    ensures RetrieveLocationTemplate(Success(ps), locationId, officeId).Success? ==>
      exists k :: 0 <= k < |ps| && EqualsIgnoreCase(ps[k].name, locationId)
        && (forall j :: 0 <= j < k ==> !EqualsIgnoreCase(ps[j].name, locationId))
        && RetrieveLocationTemplate(Success(ps), locationId, officeId) == Success(LocationTemplate(officeId, ps[k].name))
  {
    var templates := CatalogLocationTemplates(Success(ps), officeId).value;
    assert forall k :: 0 <= k < |ps| ==> (Matches(templates[k], locationId, officeId) <==> EqualsIgnoreCase(ps[k].name, locationId));
    var r := RetrieveLocationTemplate(Success(ps), locationId, officeId);
    if r.Success? {
      var k :| 0 <= k < |templates| && templates[k] == r.value
               && forall j :: 0 <= j < k ==> !Matches(templates[j], locationId, officeId);
      assert EqualsIgnoreCase(ps[k].name, locationId);
    } else {
      forall k | 0 <= k < |ps|
        ensures !EqualsIgnoreCase(ps[k].name, locationId)
      {
        assert templates[k] in templates;
      }
    }
  }

  /** The lookup of a location ignores the case of the requested id. */
  lemma LookupIgnoresCase(profiles: Result<seq<ProfileWrapper>, AccessError>, a: string, b: string, officeId: string)
    requires EqualsIgnoreCase(a, b)
    ensures RetrieveLocationTemplate(profiles, a, officeId).Success? ==>
      RetrieveLocationTemplate(profiles, b, officeId) == RetrieveLocationTemplate(profiles, a, officeId)
  {
    if CatalogLocationTemplates(profiles, officeId).Success? {
      var templates := CatalogLocationTemplates(profiles, officeId).value;
      forall t | t in templates
        ensures Matches(t, a, officeId) <==> Matches(t, b, officeId)
      {
        EqualsIgnoreCaseSymmetric(a, b);
        if EqualsIgnoreCase(t.locationId, a) {
          EqualsIgnoreCaseTransitive(t.locationId, a, b);
        }
        if EqualsIgnoreCase(t.locationId, b) {
          EqualsIgnoreCaseTransitive(t.locationId, b, a);
        }
      }
      FindFirstSameCriterion(templates, t => Matches(t, a, officeId), t => Matches(t, b, officeId));
    }
  }

  /** Two criteria that agree on every element find the same first position. */
  lemma {:induction false} FindFirstSameCriterion<T>(xs: seq<T>, p: T -> bool, q: T -> bool)
    requires forall x :: x in xs ==> (p(x) <==> q(x))
    ensures FindFirst(xs, p) == FindFirst(xs, q)
  {
    if |xs| > 0 {
      assert xs[0] in xs;
      assert forall x :: x in xs[1..] ==> x in xs;
      FindFirstSameCriterion(xs[1..], p, q);
    }
  }
}
