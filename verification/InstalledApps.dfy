/** The installed-app inventory: two independent slots per device, and the one fetch that writes the
    server slot. Times are milliseconds. */
module InstalledApps {
  import opened Prelude

  type Id = string

  datatype Source = SelfReported | ServerFetch

  /** Reported for Windows apps only. */
  datatype Detail = ProductCode | Origin | InstallLocation | Sha256

  datatype App = App(
    identifier: string, name: string, version: string, updateAvailable: bool, enforcedByPolicy: bool,
    details: map<Detail, string>)

  /** `fetchedAt` None stands for the empty timestamp. */
  datatype Entry = Entry(
    apps: seq<App>, platform: string, fetchedAt: Option<int>, error: Option<string>, source: Source)

  datatype Record = Record(selfReported: Option<Entry>, serverFetch: Option<Entry>)

  /** What the JSON column may hold: the two-slot shape, the flat shape of older rows, or neither. */
  datatype Raw = TwoSlot(record: Record) | Flat(entry: Entry) | Unreadable

  const EMPTY := Record(None, None)

  function ToRecord(raw: Raw): Record {
    match raw
    case TwoSlot(r) => r
    case Flat(e) => if e.source.SelfReported? then Record(Some(e), None) else Record(None, Some(e))
    case Unreadable => EMPTY
  }

  type Store = map<Id, Raw>

  function RecordOf(store: Store, id: Id): Record {
    if id in store then ToRecord(store[id]) else EMPTY
  }

  function WithSlot(r: Record, slot: Source, e: Entry): Record {
    if slot.SelfReported? then r.(selfReported := Some(e)) else r.(serverFetch := Some(e))
  }

  function Upserted(store: Store, id: Id, slot: Source, e: Entry): Store {
    store[id := TwoSlot(WithSlot(RecordOf(store, id), slot, e))]
  }

  /** `supported`: the device's platform has an applications endpoint. */
  datatype Device = Device(id: Id, platform: string, supported: bool)

  datatype Reply = Apps(apps: seq<App>) | Failed(error: string)

  /** On an error the previous apps and timestamp stay; with nothing to keep, the time is now. */
  function Fetched(previous: Option<Entry>, d: Device, reply: Reply, now: int): Entry {
    match reply
    case Apps(apps) => Entry(apps, d.platform, Some(now), None, ServerFetch)
    case Failed(error) =>
      Entry(if previous.Some? then previous.value.apps else [], d.platform,
            if previous.Some? then previous.value.fetchedAt else Some(now), Some(error), ServerFetch)
  }

  function FetchAndStore(store: Store, d: Device, reply: Reply, now: int): Store {
    if d.id == "" || !d.supported then store
    else Upserted(store, d.id, ServerFetch, Fetched(RecordOf(store, d.id).serverFetch, d, reply, now))
  }

  /** When the server slot was last known good, 0 if never: what the rotation sorts by. */
  function Stamp(store: Store, id: Id): int {
    var e := RecordOf(store, id).serverFetch;
    if e.Some? && e.value.fetchedAt.Some? then e.value.fetchedAt.value else 0
  }

  /** The two slots are independent, also across the rewrite of a flat row: writing one slot of one
      device leaves the other slot and every other device as they read before. */
  lemma SlotsAreIndependent(store: Store, id: Id, slot: Source, e: Entry, other: Id)
    ensures var after := Upserted(store, id, slot, e);
            && (other != id ==> RecordOf(after, other) == RecordOf(store, other))
            && (slot.SelfReported? ==> RecordOf(after, id) == Record(Some(e), RecordOf(store, id).serverFetch))
            && (slot.ServerFetch? ==> RecordOf(after, id) == Record(RecordOf(store, id).selfReported, Some(e)))
  {
  }

  /** A failing fetch never moves an existing timestamp; a first failure stamps the present, once;
      a success always does. */
  lemma StampAfterFetch(store: Store, d: Device, reply: Reply, now: int)
    requires d.id != "" && d.supported
    ensures Stamp(FetchAndStore(store, d, reply, now), d.id)
         == if reply.Apps? || RecordOf(store, d.id).serverFetch.None? then now else Stamp(store, d.id)
  {
  }

  /** A success stores what was read; a failure keeps the apps there were and notes the error. */
  lemma FetchKeepsApps(store: Store, d: Device, reply: Reply, now: int)
    requires d.id != "" && d.supported
    ensures var before, after := RecordOf(store, d.id).serverFetch, RecordOf(FetchAndStore(store, d, reply, now), d.id);
            && after.serverFetch.Some? && after.selfReported == RecordOf(store, d.id).selfReported
            && after.serverFetch.value.platform == d.platform && after.serverFetch.value.source == ServerFetch
            && (reply.Apps? ==> after.serverFetch.value.apps == reply.apps && after.serverFetch.value.error == None)
            && (reply.Failed? ==>
                  && after.serverFetch.value.error == Some(reply.error)
                  && after.serverFetch.value.apps == (if before.Some? then before.value.apps else []))
  {
  }

  // ---- the hourly budget ----

  const TICKS_PER_HOUR := 120

  /** `Math.trunc` */
  function Trunc(x: real): int { if x >= 0.0 then x.Floor else -((-x).Floor) }

  /** `Math.round` */
  function RoundHalfUp(x: real): int { (x + 0.5).Floor }

  /** None stands for null, undefined and NaN. */
  function ClampBudget(value: Option<real>): int {
    if value.None? || value.value == 0.0 then 2000 else Max(200, Min(4000, Trunc(value.value)))
  }

  function PerTickBudget(value: Option<real>): int {
    Max(1, RoundHalfUp(ClampBudget(value) as real / TICKS_PER_HOUR as real))
  }

  /** An hour of ticks stays within 60 fetches of the configured budget, either way. */
  lemma HourStaysNearBudget(value: Option<real>)
    ensures PerTickBudget(value) >= 2
    ensures ClampBudget(value) - 60 <= TICKS_PER_HOUR * PerTickBudget(value) <= ClampBudget(value) + 60
  {
    var b := ClampBudget(value);
    var share := b as real / 120.0;
    assert share >= 200.0 / 120.0;
    assert RoundHalfUp(share) as real <= share + 0.5 < RoundHalfUp(share) as real + 1.0;
    assert share * 120.0 == b as real;
  }

  /** The budget is the configured whole number kept between 200 and 4000, and 2000 when none or 0 is
      configured; a fraction is cut off. */
  lemma BudgetIsClamped(n: int, fraction: real)
    requires 0.0 <= fraction < 1.0 && (n >= 0 || fraction == 0.0)
    ensures ClampBudget(None) == 2000
    ensures ClampBudget(Some(n as real + fraction)) ==
            if n == 0 && fraction == 0.0 then 2000 else if n < 200 then 200 else if n > 4000 then 4000 else n
  {
    var x := n as real + fraction;
    assert n >= 0 ==> x.Floor == n;
    assert n < 0 ==> (-x).Floor == -n;
  }

  /** Rows of the older flat shape read as one slot, that of their source; anything else as nothing. */
  lemma OlderRowsRead(raw: Raw, id: Id)
    ensures var r := RecordOf(map[id := raw], id);
            match raw
            case TwoSlot(x) => r == x
            case Flat(e) => (e.source == SelfReported ==> r == Record(Some(e), None))
                            && (e.source == ServerFetch ==> r == Record(None, Some(e)))
            case Unreadable => r == Record(None, None)
  {
  }
}
