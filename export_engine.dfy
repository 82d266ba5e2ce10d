/**
 * The data-export engine: authenticate, fetch every template and each template's measures, and
 * gather them into a map ordered by template id. Only the CSV export type is supported, and
 * writing the CSV file produces no output yet, so a run's visible result is its status.
 */
module ExportEngine {
  import opened Wrappers
  import opened MerlinTypes
  import opened ExchangeParameters

  datatype ExportType = Csv | Json

  datatype MerlinDataExchangeStatus = CompleteSuccess | StatusFailure

  datatype IllegalArgumentException = UnsupportedExportType(exportType: ExportType)

  /** Why collecting the templates' measures throws. */
  datatype CollectError =
    | AuthorizationFailed(url: string)
    | TemplatesUnavailable(cause: AccessError)
    | NullMapDereferenced

  /** The web-service calls the export makes; each yields its value or the exception it throws. */
  datatype ExportAccess = ExportAccess(
    authenticate: (string, UsernamePasswordHolder) -> Result<TokenContainer, AccessError>,
    getTemplates: TokenContainer -> Result<seq<TemplateWrapper>, AccessError>,
    getMeasuresForTemplate: (TokenContainer, TemplateWrapper) -> Result<seq<MeasureWrapper>, AccessError>)

  /** An entry of the collected map: its key template and the measures gathered under its id. */
  datatype TemplateMeasures = TemplateMeasures(template: TemplateWrapper, measures: seq<MeasureWrapper>)

  /** The entries of a map ordered by template id: ascending, so each id at most once. */
  predicate SortedByDprId(entries: seq<TemplateMeasures>) {
    forall i, j :: 0 <= i < j < |entries| ==> entries[i].template.dprId < entries[j].template.dprId
  }

  /** The entry keyed by template id `dprId`, if any. */
  function EntryFor(entries: seq<TemplateMeasures>, dprId: int): (r: Option<TemplateMeasures>)
    ensures r.Some? ==> r.value in entries && r.value.template.dprId == dprId
    ensures r.None? ==> forall i :: 0 <= i < |entries| ==> entries[i].template.dprId != dprId
  {
    if |entries| == 0 then None
    else if entries[0].template.dprId == dprId then Some(entries[0])
    else EntryFor(entries[1..], dprId)
  }

  /**
   * Puts one template's measures into the ordered map: under a new key in its place, or, when
   * a template with the same id is already a key, appended to that key's list (the key stays).
   */
  function MergeEntry(entries: seq<TemplateMeasures>, template: TemplateWrapper, measures: seq<MeasureWrapper>)
    : (r: seq<TemplateMeasures>)
    requires SortedByDprId(entries)
    ensures SortedByDprId(r)
    ensures forall i :: 0 <= i < |r| ==> r[i].template == template || r[i].template in KeyTemplates(entries)
  {
    if |entries| == 0 then [TemplateMeasures(template, measures)]
    else if template.dprId < entries[0].template.dprId then [TemplateMeasures(template, measures)] + entries
    else if template.dprId == entries[0].template.dprId then
      [entries[0].(measures := entries[0].measures + measures)] + entries[1..]
    else
      var rest := MergeEntry(entries[1..], template, measures);
      assert forall i :: 0 <= i < |rest| ==> rest[i].template == template || rest[i].template in KeyTemplates(entries[1..]);
      assert forall i :: 0 <= i < |rest| ==> entries[0].template.dprId < rest[i].template.dprId by {
        forall i | 0 <= i < |rest|
          ensures entries[0].template.dprId < rest[i].template.dprId
        {
          if rest[i].template != template {
            var j :| 0 <= j < |entries[1..]| && entries[1..][j].template == rest[i].template;
            assert entries[1..][j] == entries[j + 1];
          }
        }
      }
      [entries[0]] + rest
  }

  /** The key templates of a map's entries. */
  function KeyTemplates(entries: seq<TemplateMeasures>): set<TemplateWrapper> {
    set i | 0 <= i < |entries| :: entries[i].template
  }

  /** Merging changes only the entry under the merged template's id, creating it if it is new. */
  lemma {:induction false} MergeEntryLookup(entries: seq<TemplateMeasures>, template: TemplateWrapper,
                                            measures: seq<MeasureWrapper>, dprId: int)
    requires SortedByDprId(entries)
    ensures EntryFor(MergeEntry(entries, template, measures), dprId)
         == if dprId != template.dprId then EntryFor(entries, dprId)
            else match EntryFor(entries, dprId)
              case None => Some(TemplateMeasures(template, measures))
              case Some(e) => Some(e.(measures := e.measures + measures))
  {
    if |entries| > 0 {
      var r := MergeEntry(entries, template, measures);
      if template.dprId < entries[0].template.dprId {
        assert r[1..] == entries;
        if dprId == template.dprId {
          assert EntryFor(entries, dprId).None? by {
            forall i | 0 <= i < |entries|
              ensures entries[i].template.dprId != dprId
            {
              if i > 0 {
                assert entries[0].template.dprId < entries[i].template.dprId;
              }
            }
          }
        }
      } else if template.dprId == entries[0].template.dprId {
        assert r[1..] == entries[1..];
      } else {
        MergeEntryLookup(entries[1..], template, measures, dprId);
        assert r[1..] == MergeEntry(entries[1..], template, measures);
      }
    }
  }

  /** The collected map: every template's measures merged in, in encounter order. */
  function Collect(templates: seq<TemplateWrapper>, measuresOf: TemplateWrapper -> seq<MeasureWrapper>)
    : (r: seq<TemplateMeasures>)
    ensures SortedByDprId(r)
  {
    if |templates| == 0 then []
    else
      var last := templates[|templates| - 1];
      MergeEntry(Collect(templates[..|templates| - 1], measuresOf), last, measuresOf(last))
  }

  /** The first template with id `dprId`, in encounter order. */
  function FirstWithDprId(templates: seq<TemplateWrapper>, dprId: int): (r: Option<TemplateWrapper>)
    ensures r.Some? ==> r.value.dprId == dprId
    ensures r.Some? ==> exists i :: (0 <= i < |templates| && templates[i] == r.value
                                     && forall j :: 0 <= j < i ==> templates[j].dprId != dprId)
    ensures r.None? ==> forall i :: 0 <= i < |templates| ==> templates[i].dprId != dprId
  {
    if |templates| == 0 then None
    else
      var init := templates[..|templates| - 1];
      match FirstWithDprId(init, dprId)
      case Some(t) =>
        assert forall i :: 0 <= i < |init| ==> templates[i] == init[i];
        Some(t)
      case None =>
        assert forall i :: 0 <= i < |init| ==> templates[i] == init[i];
        if templates[|templates| - 1].dprId == dprId then Some(templates[|templates| - 1]) else None
  }

  /** The measures of every template with id `dprId`, concatenated in encounter order. */
  function MeasuresWithDprId(templates: seq<TemplateWrapper>, measuresOf: TemplateWrapper -> seq<MeasureWrapper>, dprId: int)
    : seq<MeasureWrapper>
  {
    if |templates| == 0 then []
    else
      var last := templates[|templates| - 1];
      MeasuresWithDprId(templates[..|templates| - 1], measuresOf, dprId) + (if last.dprId == dprId then measuresOf(last) else [])
  }

  /**
   * What the collected map holds under each id: nothing when no template has that id; otherwise
   * the first template with that id as the key, and the measures of all templates with that id,
   * concatenated in encounter order.
   */
  lemma {:induction false} CollectedByDprId(templates: seq<TemplateWrapper>, measuresOf: TemplateWrapper -> seq<MeasureWrapper>, dprId: int)
    ensures EntryFor(Collect(templates, measuresOf), dprId)
         == match FirstWithDprId(templates, dprId)
            case None => None
            case Some(t) => Some(TemplateMeasures(t, MeasuresWithDprId(templates, measuresOf, dprId)))
  {
    if |templates| > 0 {
      var init := templates[..|templates| - 1];
      var last := templates[|templates| - 1];
      var before := Collect(init, measuresOf);
      CollectedByDprId(init, measuresOf, dprId);
      MergeEntryLookup(before, last, measuresOf(last), dprId);
      assert Collect(templates, measuresOf) == MergeEntry(before, last, measuresOf(last));
      var measures := MeasuresWithDprId(init, measuresOf, dprId);
      assert MeasuresWithDprId(templates, measuresOf, dprId) == measures + (if last.dprId == dprId then measuresOf(last) else []);
      if last.dprId == dprId {
        match FirstWithDprId(init, dprId)
        case None =>
          assert FirstWithDprId(templates, dprId) == Some(last);
          assert measures == [] by {
            MeasuresWithoutDprId(init, measuresOf, dprId);
          }
          assert measures + measuresOf(last) == measuresOf(last);
        case Some(t) =>
          assert FirstWithDprId(templates, dprId) == Some(t);
      } else {
        assert FirstWithDprId(templates, dprId) == FirstWithDprId(init, dprId);
        assert measures + [] == measures;
      }
    }
  }

  lemma {:induction false} MeasuresWithoutDprId(templates: seq<TemplateWrapper>, measuresOf: TemplateWrapper -> seq<MeasureWrapper>, dprId: int)
    requires FirstWithDprId(templates, dprId).None?
    ensures MeasuresWithDprId(templates, measuresOf, dprId) == []
  {
    if |templates| > 0 {
      var init := templates[..|templates| - 1];
      assert FirstWithDprId(init, dprId).None?;
      MeasuresWithoutDprId(init, measuresOf, dprId);
    }
  }

  /** The measures each template's fetch yields once a failed fetch stands for an empty list. */
  function MeasuresFetched(access: ExportAccess, token: TokenContainer): TemplateWrapper -> seq<MeasureWrapper> {
    t => MeasuresOrEmpty(access.getMeasuresForTemplate(token, t))
  }

  /**
   * Collecting as the code is written: the failure handler of a template's fetch puts into the
   * map the failed fetch did not produce (null), so any failed fetch makes the collection throw.
   */
  function CollectTemplateMeasureDataAsWritten(auth: AuthenticationParameters, access: ExportAccess)
    : (r: Result<seq<TemplateMeasures>, CollectError>)
  {
    match access.authenticate(auth.url, auth.usernamePassword)
    case Failure(_) => Failure(AuthorizationFailed(auth.url))
    case Success(token) =>
      match access.getTemplates(token)
      case Failure(e) => Failure(TemplatesUnavailable(e))
      case Success(templates) =>
        if exists i :: 0 <= i < |templates| && access.getMeasuresForTemplate(token, templates[i]).Failure? then
          Failure(NullMapDereferenced)
        else Success(Collect(templates, MeasuresFetched(access, token)))
  }

  /**
   * Collecting as the failure handler intends: a template whose measures cannot be fetched
   * contributes an empty list, and the other templates are still collected.
   */
  function CollectTemplateMeasureData(auth: AuthenticationParameters, access: ExportAccess)
    : (r: Result<seq<TemplateMeasures>, CollectError>)
    ensures r.Failure? <==>
      access.authenticate(auth.url, auth.usernamePassword).Failure?
      || access.getTemplates(access.authenticate(auth.url, auth.usernamePassword).value).Failure?
    ensures r.Success? ==> SortedByDprId(r.value)
  {
    match access.authenticate(auth.url, auth.usernamePassword)
    case Failure(_) => Failure(AuthorizationFailed(auth.url))
    case Success(token) =>
      match access.getTemplates(token)
      case Failure(e) => Failure(TemplatesUnavailable(e))
      case Success(templates) => Success(Collect(templates, MeasuresFetched(access, token)))
  }

  /** The CSV export's status: success when collecting (and the empty CSV write) throws nothing. */
  function RunCsvExport(auth: AuthenticationParameters, access: ExportAccess): (status: MerlinDataExchangeStatus)
    ensures status == CompleteSuccess <==> CollectTemplateMeasureData(auth, access).Success?
    ensures access.authenticate(auth.url, auth.usernamePassword).Failure? ==> status == StatusFailure
  {
    if CollectTemplateMeasureData(auth, access).Success? then CompleteSuccess else StatusFailure
  }

  /** The CSV export's status as the code is written. */
  function RunCsvExportAsWritten(auth: AuthenticationParameters, access: ExportAccess): (status: MerlinDataExchangeStatus)
    ensures status == CompleteSuccess <==> CollectTemplateMeasureDataAsWritten(auth, access).Success?
  {
    if CollectTemplateMeasureDataAsWritten(auth, access).Success? then CompleteSuccess else StatusFailure
  }

  /** Dispatch on the export type: JSON is refused, CSV and anything else run the CSV export. */
  function RunExport(exportType: ExportType, auth: AuthenticationParameters, access: ExportAccess)
    : (r: Result<MerlinDataExchangeStatus, IllegalArgumentException>)
    ensures exportType == Json <==> r.Failure?
    ensures r.Failure? ==> r.error == UnsupportedExportType(Json)
    ensures r.Success? ==> r.value == RunCsvExport(auth, access)
  {
    match exportType
    case Json => Failure(UnsupportedExportType(exportType))
    case Csv => Success(RunCsvExport(auth, access))
  }

  /**
   * When every fetch succeeds the two collections agree; when the token and the templates are
   * obtained but any template's measures cannot be fetched, the export as written fails while
   * the intended one succeeds.
   */
  lemma MeasureFetchFailureFailsExport(auth: AuthenticationParameters, access: ExportAccess)
    requires access.authenticate(auth.url, auth.usernamePassword).Success?
    ensures var token := access.authenticate(auth.url, auth.usernamePassword).value;
      access.getTemplates(token).Success? ==>
        var templates := access.getTemplates(token).value;
        && RunCsvExport(auth, access) == CompleteSuccess
        && ((forall i :: 0 <= i < |templates| ==> access.getMeasuresForTemplate(token, templates[i]).Success?) ==>
              CollectTemplateMeasureDataAsWritten(auth, access) == CollectTemplateMeasureData(auth, access))
        && ((exists i :: 0 <= i < |templates| && access.getMeasuresForTemplate(token, templates[i]).Failure?) ==>
              RunCsvExportAsWritten(auth, access) == StatusFailure)
  {
  }

  /** A concrete run that shows it: one template whose measures cannot be fetched. */
  lemma SingleFailedTemplateFailsExport()
    ensures var auth := AuthenticationParameters("https://merlin", UsernamePasswordHolder("user", "pw"));
      var template := TemplateWrapper(7, "Profiles");
      var access := ExportAccess(
        (url, holder) => Success(TokenContainer("t")),
        token => Success([template]),
        (token, t) => Failure(IOError));
      && RunCsvExportAsWritten(auth, access) == StatusFailure
      && RunCsvExport(auth, access) == CompleteSuccess
      && CollectTemplateMeasureData(auth, access) == Success([TemplateMeasures(template, [])])
  {
    var template := TemplateWrapper(7, "Profiles");
    var access := ExportAccess(
      (url, holder) => Success(TokenContainer("t")),
      token => Success([template]),
      (token, t) => Failure(IOError));
    assert access.getMeasuresForTemplate(TokenContainer("t"), [template][0]).Failure?;
    assert [template][..0] == [];
  }
}
