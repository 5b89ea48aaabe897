/** The values the ISS tracker works with: state-vector records as the OEM feed
    delivers them, query-string arguments, and the outcomes the routes report. */
module Telemetry {

  datatype Option<+T> = None | Some(value: T)

  /** A Cartesian triple in the Earth-centered inertial frame. */
  datatype Vec3 = Vec3(x: real, y: real, z: real)

  /** One state vector: its EPOCH string (day-of-year timestamp), position
      X/Y/Z in km and velocity X_DOT/Y_DOT/Z_DOT in km/s. */
  datatype Record = Record(epoch: string, position: Vec3, velocity: Vec3)

  /** The global `data`: the fetched list of state vectors, or absent once
      `del data` has removed the name. */
  type Store = Option<seq<Record>>

  /** A query-string argument as `int(request.args.get(name, default))` sees it:
      not given, given and accepted by `int`, or given and refused by `int`. */
  datatype Arg = Missing | Int(n: int) | NotInt

  /** What a read route reports: a value, "Bad input. Please enter an int",
      "Data has been deleted ...", or "Error: Epoch not found". */
  datatype Outcome<+T> = Ok(value: T) | BadInput | Deleted | EpochNotFound

  /** What the delete route reports: "Data deleted successfully" or
      "Data has already been deleted". */
  datatype DeleteOutcome = DeletedNow | AlreadyDeleted

  /** The EPOCH strings of `rs`, in stored order. */
  function Epochs(rs: seq<Record>): seq<string>
  {
    seq(|rs|, i requires 0 <= i < |rs| => rs[i].epoch)
  }

  /** Appending a record appends its EPOCH. */
  lemma EpochsAppend(rs: seq<Record>, r: Record)
    ensures Epochs(rs + [r]) == Epochs(rs) + [r.epoch]
  {
  }
}
