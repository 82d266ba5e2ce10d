/**
 * The progress listener the exchange reports to, reduced to a log of what it was told.
 * Recorded: start and finish, every message sent with a percentage, every ERROR message, and the
 * IMPORTANT messages without a percentage that report a skip or a cancellation (unsupported
 * timestep, cancel requested, cancelled successfully). Messages that only announce work about to
 * start or echo an input ("Retrieving ...", "Parsing ...", the unit system, the write path) are
 * not, nor is any message text.
 */
module Progress {
  import opened Wrappers

  datatype MessageType = Informational | Important | Error

  /** What a progress message reports. */
  datatype Note =
    | ConfigurationsParsed
    | ConfigurationParseFailed(file: string)
    | TemplatesRetrieved(templateCount: nat)
    | QualityVersionsRetrieved(qualityVersionCount: nat)
    | CacheRetrievalFailed
    | MeasuresRetrieved(measureCount: nat)
    | MeasuresRetrievalFailed(templateId: int)
    | TemplateNotFound(templateName: string, templateId: int)
    | NoDataStoreForRef(refId: string)
    | DataRetrieved(seriesString: string, eventCount: nat)
    | DataRetrievalFailed(seriesString: string)
    | UnsupportedTimestep
    | MeasureWritten
    | MeasureWriteFailed(status: int)
    | CancelRequested
    | CancelledSuccessfully

  datatype Event =
    | Started
    | Message(note: Note, kind: MessageType, percent: Option<int>)
    | Finished

  /** `after` is `before` followed by messages only: nothing is removed, no start or finish is added. */
  predicate ExtendsWithMessages(before: seq<Event>, after: seq<Event>) {
    && |before| <= |after|
    && after[..|before|] == before
    && forall i :: |before| <= i < |after| ==> after[i].Message?
  }

  /** A log extended with messages, then with messages and, when `finished`, a last event. */
  lemma ExtendsThenEnds(a: seq<Event>, b: seq<Event>, c: seq<Event>, finished: bool)
    requires ExtendsWithMessages(a, b)
    requires finished ==> |c| > |b| && ExtendsWithMessages(b, c[..|c| - 1])
    requires !finished ==> ExtendsWithMessages(b, c)
    ensures finished ==> ExtendsWithMessages(a, c[..|c| - 1])
    ensures !finished ==> ExtendsWithMessages(a, c)
  {
    if finished {
      ExtendsWithMessagesTrans(a, b, c[..|c| - 1]);
    } else {
      ExtendsWithMessagesTrans(a, b, c);
    }
  }

  lemma ExtendsWithMessagesTrans(a: seq<Event>, b: seq<Event>, c: seq<Event>)
    requires ExtendsWithMessages(a, b) && ExtendsWithMessages(b, c)
    ensures ExtendsWithMessages(a, c)
  {
    assert c[..|a|] == c[..|b|][..|a|];
    forall i | |a| <= i < |c|
      ensures c[i].Message?
    {
      if i < |b| {
        assert c[i] == b[i];
      }
    }
  }

  class ProgressListener {
    var events: seq<Event>

    constructor ()
      ensures events == []
    {
      events := [];
    }

    method Start()
      modifies this
      ensures events == old(events) + [Started]
    {
      events := events + [Started];
    }

    method Progress(note: Note, kind: MessageType, percent: Option<int>)
      modifies this
      ensures events == old(events) + [Message(note, kind, percent)]
    {
      events := events + [Message(note, kind, percent)];
    }

    method Finish()
      modifies this
      ensures events == old(events) + [Finished]
    {
      events := events + [Finished];
    }
  }
}
