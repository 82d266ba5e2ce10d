/**
 * The per-measure write step of the exchange engine: count the unit as done, then, when there
 * is a series and the run is not cancelled, write it to the destination DSS file and report the
 * status.
 */
module DaoWriter {
  import opened Wrappers
  import opened CompletionTracking
  import opened Progress
  import opened Dss

  /** Writes series to one DSS file; the manager and the path are fixed at construction. */
  class MerlinDaoWriter {
    const dssFileManager: DssFileManager
    const dssWritePath: string

    constructor (dssFileManager: DssFileManager, dssWritePath: string)
      ensures this.dssFileManager == dssFileManager && this.dssWritePath == dssWritePath
    {
      this.dssFileManager := dssFileManager;
      this.dssWritePath := dssWritePath;
    }

    /**
     * The tracker advances first, whatever happens next. Only a present series in a run that is
     * not cancelled is written: its file name is set to this writer's path, and the status of the
     * write decides between a success and an error report, both carrying the new percentage.
     */
    method WriteData(tsc: TimeSeriesContainer?, storeOption: StoreOption, tracker: MerlinExchangeDaoCompletionTracker,
                     listener: ProgressListener, isCancelled: bool)
      requires tracker.numberOfMeasuresToComplete > 0
      modifies tracker, listener, dssFileManager, tsc
      ensures tracker.numberCompleted == old(tracker.numberCompleted) + 1
      ensures dssFileManager.closed == old(dssFileManager.closed)
      ensures tsc == null || isCancelled ==>
        dssFileManager.writes == old(dssFileManager.writes) && listener.events == old(listener.events)
        && (tsc != null ==> tsc.fileName == old(tsc.fileName))
      ensures tsc != null && !isCancelled ==>
        var write := DssWrite(tsc.data, dssWritePath, storeOption);
        var percent := Some(tracker.PercentAfter(tracker.numberCompleted));
        && tsc.fileName == dssWritePath
        && dssFileManager.writes == old(dssFileManager.writes) + [write]
        && listener.events == old(listener.events)
             + [if dssFileManager.statusOf(write) == 0 then Message(MeasureWritten, Important, percent)
                else Message(MeasureWriteFailed(dssFileManager.statusOf(write)), Error, percent)]
    ensures ExtendsWithMessages(old(listener.events), listener.events)
    {
      var progressionIncrement := tracker.ReadWriteTaskCompleted();
      if tsc != null && !isCancelled {
        tsc.fileName := dssWritePath;
        var success := dssFileManager.WriteTS(tsc, storeOption);
        if success == 0 {
          listener.Progress(MeasureWritten, Important, Some(progressionIncrement));
        } else {
          listener.Progress(MeasureWriteFailed(success), Error, Some(progressionIncrement));
        }
      }
    }

    /** Closes this writer's file. */
    method Close()
      modifies dssFileManager
      ensures dssFileManager.closed == old(dssFileManager.closed) + [dssWritePath]
      ensures dssFileManager.writes == old(dssFileManager.writes)
    {
      dssFileManager.Close(dssWritePath);
    }
  }
}
