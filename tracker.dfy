/** The Flask app's global `data` and the routes that read and replace it. The
    network fetch of the OEM feed is an input: the constructor and PostData are
    handed the list of state vectors the fetch produced. */
module Tracker {
  import opened Telemetry
  import opened Queries

  class IssTracker {
    /** The global `data`; None after `del data`. */
    var data: Store

    /** Module start-up: `data = get_data()`. */
    constructor (fetched: seq<Record>)
      ensures data == Some(fetched)
    {
      data := Some(fetched);
    }

    /** GET /: the whole stored list, or the deleted message. */
    method Location() returns (r: Outcome<seq<Record>>)
      ensures r == Snapshot(data)
    {
      if data.None? {
        return Deleted;
      }
      return Ok(data.value);
    }

    /** GET /epochs?limit=..&offset=..: walks the records, skipping those before
        `offset` and stopping once `limit` EPOCH strings are collected. */
    method AllEpochs(limitArg: Arg, offsetArg: Arg) returns (r: Outcome<seq<string>>)
      ensures r == ListEpochs(data, limitArg, offsetArg)
    {
      // `len(data)` is evaluated as the default before `int` sees the argument
      if data.None? {
        return Deleted;
      }
      var rs := data.value;
      var limit: int;
      match limitArg {
        case NotInt => return BadInput;
        case Missing => limit := |rs|;
        case Int(n) => limit := n;
      }
      var offset: int;
      match offsetArg {
        case NotInt => return BadInput;
        case Missing => offset := 0;
        case Int(n) => offset := n;
      }

      var epochs: seq<string> := [];
      var totalResults := 0;
      var index := 0;
      while index < |rs|
        invariant 0 <= index <= |rs|
        invariant totalResults == |epochs|
        invariant limit >= 0 ==> totalResults <= limit
        invariant epochs == Epochs(rs[Start(index, offset) .. index])
      {
        if limit == totalResults {
          break;
        }
        if index >= offset {
          assert Start(index, offset) == Start(index + 1, offset);
          assert rs[Start(index, offset) .. index + 1] == rs[Start(index, offset) .. index] + [rs[index]];
          EpochsAppend(rs[Start(index, offset) .. index], rs[index]);
          epochs := epochs + [rs[index].epoch];
          totalResults := totalResults + 1;
        }
        index := index + 1;
      }
      CollectedIsPage(rs, limit, offset, index);
      return Ok(epochs);
    }

    /** GET /epochs/<epoch>: the first record whose EPOCH equals `epoch`. */
    method SpecEpoch(epoch: string) returns (r: Outcome<Record>)
      ensures r == Lookup(data, epoch)
    {
      if data.None? {
        return Deleted;
      }
      var rs := data.value;
      for i := 0 to |rs|
        invariant forall j :: 0 <= j < i ==> rs[j].epoch != epoch
      {
        if rs[i].epoch == epoch {
          return Ok(rs[i]);
        }
      }
      return EpochNotFound;
    }

    /** GET /epochs/<epoch>/speed: the squared speed of the first record whose
        EPOCH equals `epoch`. */
    method EpochSpeed(epoch: string) returns (r: Outcome<real>)
      ensures r == SpeedAt(data, epoch)
    {
      if data.None? {
        return Deleted;
      }
      var rs := data.value;
      for i := 0 to |rs|
        invariant forall j :: 0 <= j < i ==> rs[j].epoch != epoch
      {
        if rs[i].epoch == epoch {
          var v := rs[i].velocity;
          assert FirstMatch(rs, epoch) == Some(i);
          return Ok(SpeedSquared(v));
        }
      }
      return EpochNotFound;
    }

    /** DELETE /delete-data: `del data`, reporting whether it was there. */
    method DeleteData() returns (r: DeleteOutcome)
      modifies this
      ensures (data, r) == DeleteStep(old(data))
      ensures data == None
      ensures r == DeletedNow <==> old(data).Some?
    {
      if data.None? {
        return AlreadyDeleted;
      }
      data := None;
      return DeletedNow;
    }

    /** POST /post-data: `data = get_data()`, replacing whatever was stored. */
    method PostData(fetched: seq<Record>)
      modifies this
      ensures data == Some(fetched)
    {
      data := Some(fetched);
    }
  }
}
