/** Reference definitions of what each route of the ISS tracker answers for a
    given store, and the properties those answers have. The class in module
    Tracker is proved to compute exactly these. */
module Queries {
  import opened Telemetry

  // ---------------------------------------------------------------------------
  // Arguments of /epochs

  /** The integer `int(request.args.get(name, default))` yields, or None where
      `int` raises ValueError. */
  function ParseArg(a: Arg, default: int): (r: Option<int>)
    ensures r.None? <==> a.NotInt?
    ensures r.Some? ==> r.value == if a.Int? then a.n else default
  {
    match a
    case Missing => Some(default)
    case Int(n) => Some(n)
    case NotInt => None
  }

  // ---------------------------------------------------------------------------
  // Pagination

  /** Index of the first record that `index >= offset` admits, capped at `n`. */
  function Start(n: nat, offset: int): (s: nat)
    ensures s <= n
  {
    if offset <= 0 then 0 else if offset < n then offset else n
  }

  /** How many records a page collects: all that remain after the start when
      `limit` is negative (the counter never equals it), else at most `limit`. */
  function Count(n: nat, limit: int, offset: int): nat
  {
    var rest := n - Start(n, offset);
    if limit < 0 || rest < limit then rest else limit
  }

  /** The page of EPOCH strings that `limit` and `offset` select: a contiguous
      slice of the stored order. */
  function Page(rs: seq<Record>, limit: int, offset: int): (es: seq<string>)
    ensures Start(|rs|, offset) + |es| <= |rs|
    ensures limit >= 0 ==> |es| <= limit
    ensures forall j :: 0 <= j < |es| ==> es[j] == rs[Start(|rs|, offset) + j].epoch
  {
    var s := Start(|rs|, offset);
    Epochs(rs[s .. s + Count(|rs|, limit, offset)])
  }

  /** The answer of /epochs for a store and the two query arguments. */
  function ListEpochs(store: Store, limitArg: Arg, offsetArg: Arg): (r: Outcome<seq<string>>)
    ensures store.None? <==> r == Deleted
    ensures r == BadInput <==> store.Some? && (limitArg.NotInt? || offsetArg.NotInt?)
    ensures !r.EpochNotFound?
  {
    match store
    case None => Deleted
    case Some(rs) =>
      match (ParseArg(limitArg, |rs|), ParseArg(offsetArg, 0))
      case (Some(limit), Some(offset)) => Ok(Page(rs, limit, offset))
      case _ => BadInput
  }

  /** Where the /epochs loop stops — records exhausted, or `limit` entries
      collected — what it collected from index Start(index, offset) up to
      `index` is exactly the page. */
  lemma CollectedIsPage(rs: seq<Record>, limit: int, offset: int, index: nat)
    requires index <= |rs|
    requires limit >= 0 ==> index - Start(index, offset) <= limit
    requires index == |rs| || limit == index - Start(index, offset)
    ensures Epochs(rs[Start(index, offset) .. index]) == Page(rs, limit, offset)
  {
  }

  /** Length of a page with a non-negative limit:
      min(limit, max(0, N - max(offset, 0))). */
  lemma PageLength(rs: seq<Record>, limit: int, offset: int)
    requires limit >= 0
    ensures var s := if offset < 0 then 0 else offset;
            var rest := if |rs| < s then 0 else |rs| - s;
            |Page(rs, limit, offset)| == if limit < rest then limit else rest
  {
  }

  /** The j-th entry of a page is the EPOCH of record max(offset, 0) + j. */
  lemma PageAt(rs: seq<Record>, limit: int, offset: int, j: int)
    requires 0 <= j < |Page(rs, limit, offset)|
    ensures var s := if offset < 0 then 0 else offset;
            s + j < |rs| && Page(rs, limit, offset)[j] == rs[s + j].epoch
  {
  }

  /** Without arguments the limit is len(data) and the offset 0: every epoch. */
  lemma ListAllByDefault(rs: seq<Record>)
    ensures ListEpochs(Some(rs), Missing, Missing) == Ok(Epochs(rs))
  {
    assert rs[0 .. |rs|] == rs;
  }

  /** A negative limit never stops the loop: the whole tail from the offset. */
  lemma NegativeLimitTakesTail(rs: seq<Record>, limit: int, offset: int)
    requires limit < 0
    ensures Page(rs, limit, offset) == Epochs(rs[Start(|rs|, offset)..])
  {
  }

  /** A negative offset admits every index, like offset 0. */
  lemma NegativeOffsetIsZero(rs: seq<Record>, limit: int, offset: int)
    requires offset < 0
    ensures Page(rs, limit, offset) == Page(rs, limit, 0)
  {
  }

  /** Consecutive pages fit together: the page of `a` entries at `offset`
      followed by the page of `b` entries at `offset + a` is the page of
      `a + b` entries at `offset`, so paging through /epochs neither skips
      nor repeats an epoch. */
  lemma PagesConcatenate(rs: seq<Record>, a: nat, b: nat, offset: nat)
    ensures Page(rs, a, offset) + Page(rs, b, offset + a) == Page(rs, a + b, offset)
  {
  }

  // ---------------------------------------------------------------------------
  // Exact-match lookup

  /** Index of the first record, in stored order, whose EPOCH equals `epoch`. */
  function FirstMatch(rs: seq<Record>, epoch: string): (r: Option<nat>)
    ensures r.Some? ==> r.value < |rs| && rs[r.value].epoch == epoch
    ensures r.Some? ==> forall j :: 0 <= j < r.value ==> rs[j].epoch != epoch
    ensures r.None? <==> forall j :: 0 <= j < |rs| ==> rs[j].epoch != epoch
  {
    if |rs| == 0 then None
    else if rs[0].epoch == epoch then Some(0)
    else
      match FirstMatch(rs[1..], epoch)
      case None => None
      case Some(k) => Some(k + 1)
  }

  /** The answer of /epochs/<epoch>: the first record with that EPOCH. */
  function Lookup(store: Store, epoch: string): (r: Outcome<Record>)
    ensures store.None? <==> r == Deleted
    ensures r == EpochNotFound <==>
              store.Some? && forall j :: 0 <= j < |store.value| ==> store.value[j].epoch != epoch
    ensures r.Ok? ==>
              && r.value.epoch == epoch
              && exists i :: 0 <= i < |store.value| && store.value[i] == r.value &&
                   forall j :: 0 <= j < i ==> store.value[j].epoch != epoch
    ensures !r.BadInput?
  {
    match store
    case None => Deleted
    case Some(rs) =>
      match FirstMatch(rs, epoch)
      case None => EpochNotFound
      case Some(i) => Ok(rs[i])
  }

  // ---------------------------------------------------------------------------
  // Speed

  /** Squared magnitude of a velocity; /speed reports its square root. */
  function SpeedSquared(v: Vec3): (r: real)
    ensures r >= 0.0
  {
    v.x * v.x + v.y * v.y + v.z * v.z
  }

  /** The answer of /epochs/<epoch>/speed, up to the square root: the squared
      speed of the first record with that EPOCH. */
  function SpeedAt(store: Store, epoch: string): (r: Outcome<real>)
    ensures r.Ok? ==> r.value >= 0.0
  {
    match store
    case None => Deleted
    case Some(rs) =>
      match FirstMatch(rs, epoch)
      case None => EpochNotFound
      case Some(i) => Ok(SpeedSquared(rs[i].velocity))
  }

  /** The speed route finds or misses a record exactly as the lookup route
      does, and when it finds one it reports that record's speed. */
  lemma SpeedAgreesWithLookup(store: Store, epoch: string)
    ensures SpeedAt(store, epoch).Ok? <==> Lookup(store, epoch).Ok?
    ensures SpeedAt(store, epoch).Deleted? <==> Lookup(store, epoch).Deleted?
    ensures SpeedAt(store, epoch).EpochNotFound? <==> Lookup(store, epoch).EpochNotFound?
    ensures SpeedAt(store, epoch).Ok? ==>
              SpeedAt(store, epoch).value == SpeedSquared(Lookup(store, epoch).value.velocity)
  {
  }

  // ---------------------------------------------------------------------------
  // The whole data set, and the lifecycle of the store

  /** The answer of /: the stored list, or the deleted message. */
  function Snapshot(store: Store): (r: Outcome<seq<Record>>)
    ensures r.Ok? <==> store.Some?
    ensures r.Ok? ==> r.value == store.value
    ensures !r.Ok? ==> r == Deleted
  {
    match store
    case None => Deleted
    case Some(rs) => Ok(rs)
  }

  /** The new store and the report of /delete-data. */
  function DeleteStep(store: Store): (r: (Store, DeleteOutcome))
    ensures r.0 == None
    ensures r.1 == DeletedNow <==> store.Some?
  {
    (None, if store.Some? then DeletedNow else AlreadyDeleted)
  }

  /** Deleting twice: the second delete reports "already deleted" and changes
      nothing. */
  lemma DeleteIdempotent(store: Store)
    ensures DeleteStep(store).0 == None
    ensures DeleteStep(store).1 == DeletedNow <==> store.Some?
    ensures DeleteStep(DeleteStep(store).0) == (DeleteStep(store).0, AlreadyDeleted)
  {
  }

  /** With the store absent every read route reports the deleted message;
      none returns data, "Bad input" or "Epoch not found". */
  lemma ReadsWhenDeleted(limitArg: Arg, offsetArg: Arg, epoch: string)
    ensures Snapshot(None) == Deleted
    ensures ListEpochs(None, limitArg, offsetArg) == Deleted
    ensures Lookup(None, epoch) == Deleted
    ensures SpeedAt(None, epoch) == Deleted
  {
  }

  /** With a list stored (at start-up or by /post-data) the reads answer from
      it: / gives the list, /epochs every epoch, and a lookup never reports
      deletion. */
  lemma ReadsWhenPresent(fetched: seq<Record>, epoch: string)
    ensures Snapshot(Some(fetched)) == Ok(fetched)
    ensures ListEpochs(Some(fetched), Missing, Missing) == Ok(Epochs(fetched))
    ensures Lookup(Some(fetched), epoch) != Deleted
  {
    ListAllByDefault(fetched);
  }
}
