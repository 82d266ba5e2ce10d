/**
 * The DSS storage collaborator: the time-series container handed to it and the file manager
 * that writes and closes files. What `writeTS` returns is an oracle fixed when the manager is
 * created; the model records every write and every close.
 */
module Dss {

  /** The store policy passed through to `writeTS`. */
  datatype StoreOption = StoreOption(regular: string, irregular: string)

  /** The converted series; its content is opaque here. */
  datatype SeriesData = SeriesData(fullName: string)

  /** A converted series; the writers set its `fileName` before writing. */
  class TimeSeriesContainer {
    const data: SeriesData
    var fileName: string

    constructor (data: SeriesData)
      ensures this.data == data && fileName == ""
    {
      this.data := data;
      fileName := "";
    }
  }

  /** One call of `writeTS`: what was written, to which file, under which policy. */
  datatype DssWrite = DssWrite(data: SeriesData, fileName: string, storeOption: StoreOption)

  /** `after` is `before` followed by writes to `path` only. */
  predicate ExtendsWithWritesTo(before: seq<DssWrite>, after: seq<DssWrite>, path: string) {
    && |before| <= |after|
    && after[..|before|] == before
    && forall i :: |before| <= i < |after| ==> after[i].fileName == path
  }

  lemma ExtendsWithWritesToTrans(a: seq<DssWrite>, b: seq<DssWrite>, c: seq<DssWrite>, path: string)
    requires ExtendsWithWritesTo(a, b, path) && ExtendsWithWritesTo(b, c, path)
    ensures ExtendsWithWritesTo(a, c, path)
  {
    assert c[..|a|] == c[..|b|][..|a|];
    forall i | |a| <= i < |c|
      ensures c[i].fileName == path
    {
      if i < |b| {
        assert c[i] == b[i];
      }
    }
  }

  class DssFileManager {
    /** The status `writeTS` returns for a write: 0 for success, anything else is a failure code. */
    const statusOf: DssWrite -> int
    var writes: seq<DssWrite>
    var closed: seq<string>

    constructor (statusOf: DssWrite -> int)
      ensures this.statusOf == statusOf && writes == [] && closed == []
    {
      this.statusOf := statusOf;
      writes := [];
      closed := [];
    }

    method WriteTS(tsc: TimeSeriesContainer, storeOption: StoreOption) returns (status: int)
      modifies this
      ensures writes == old(writes) + [DssWrite(tsc.data, tsc.fileName, storeOption)]
      ensures closed == old(closed)
      ensures status == statusOf(DssWrite(tsc.data, tsc.fileName, storeOption))
    {
      var w := DssWrite(tsc.data, tsc.fileName, storeOption);
      writes := writes + [w];
      status := statusOf(w);
    }

    method Close(path: string)
      modifies this
      ensures closed == old(closed) + [path] && writes == old(writes)
    {
      closed := closed + [path];
    }
  }
}
