/**
 * The pluggable DSS writer: it is initialised with a destination store, resolves the store's
 * path once, writes series to it and closes it. Unlike the engine's own writer it counts a unit
 * as done only when the write succeeds.
 */
module DssWriter {
  import opened Wrappers
  import opened MerlinTypes
  import opened ExchangeParameters
  import opened CompletionTracking
  import opened Progress
  import opened Dss
  import opened DssWritePath

  class DssDataExchangeWriter {
    var dssFileManager: DssFileManager?
    var dssWritePath: Option<string>

    predicate Initialized()
      reads this
    {
      dssFileManager != null && dssWritePath.Some?
    }

    constructor ()
      ensures dssFileManager == null && dssWritePath == None
    {
      dssFileManager := null;
      dssWritePath := None;
    }

    /** Takes the shared file manager and resolves the store's path against the watershed directory. */
    method Initialize(dataStore: DataStore, parameters: MerlinDataExchangeParameters, manager: DssFileManager, isAbsolute: string -> bool)
      modifies this
      ensures Initialized()
      ensures dssFileManager == manager
      ensures dssWritePath == Some(BuildAbsoluteDssWritePath(dataStore.path, parameters.watershedDirectory, isAbsolute))
    {
      dssFileManager := manager;
      dssWritePath := Some(BuildAbsoluteDssWritePath(dataStore.path, parameters.watershedDirectory, isAbsolute));
    }

    /** The resolved destination path. */
    method GetDestinationPath() returns (path: string)
      requires dssWritePath.Some?
      ensures path == dssWritePath.value
    {
      path := dssWritePath.value;
    }

    /** Closes the destination file. */
    method Close()
      requires Initialized()
      modifies dssFileManager
      ensures dssFileManager.closed == old(dssFileManager.closed) + [dssWritePath.value]
      ensures dssFileManager.writes == old(dssFileManager.writes)
    {
      dssFileManager.Close(dssWritePath.value);
    }

    /**
     * A missing series or a cancelled run changes nothing. Otherwise the series is written to the
     * destination; status 0 advances the tracker once and reports success with the new
     * percentage, any other status reports an error and leaves the tracker alone.
     */
    method WriteData(tsc: TimeSeriesContainer?, seriesPath: string, parameters: MerlinDataExchangeParameters,
                     tracker: MerlinExchangeDaoCompletionTracker, listener: ProgressListener, isCancelled: bool)
      requires tsc != null && !isCancelled ==> Initialized() && tracker.numberOfMeasuresToComplete > 0
      modifies tracker, listener, dssFileManager, tsc
      ensures dssFileManager != null ==> dssFileManager.closed == old(dssFileManager.closed)
      ensures tsc == null || isCancelled ==>
        && tracker.numberCompleted == old(tracker.numberCompleted)
        && listener.events == old(listener.events)
        && (dssFileManager != null ==> dssFileManager.writes == old(dssFileManager.writes))
        && (tsc != null ==> tsc.fileName == old(tsc.fileName))
      ensures tsc != null && !isCancelled ==>
        var write := DssWrite(tsc.data, dssWritePath.value, parameters.storeOption);
        var status := dssFileManager.statusOf(write);
        && tsc.fileName == dssWritePath.value
        && dssFileManager.writes == old(dssFileManager.writes) + [write]
        && tracker.numberCompleted == old(tracker.numberCompleted) + (if status == 0 then 1 else 0)
        && listener.events == old(listener.events)
             + [if status == 0 then Message(MeasureWritten, Important, Some(tracker.PercentAfter(tracker.numberCompleted)))
                else Message(MeasureWriteFailed(status), Error, None)]
    {
      var storeOption := parameters.storeOption;
      if tsc != null && !isCancelled {
        tsc.fileName := dssWritePath.value;
        var success := dssFileManager.WriteTS(tsc, storeOption);
        if success == 0 {
          var percentComplete := tracker.ReadWriteTaskCompleted();
          listener.Progress(MeasureWritten, Important, Some(percentComplete));
        } else {
          listener.Progress(MeasureWriteFailed(success), Error, None);
        }
      }
    }
  }
}
