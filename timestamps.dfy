/** ServicesDbContext: the timestamp stamping it runs whenever the change
    tracker starts tracking an entity or changes its state, and the seed rows
    of the WeatherForecast table. */
module ServicesDb {
  import opened Primitives
  import opened Forecasts

  /** Microsoft.EntityFrameworkCore.EntityState. */
  datatype EntityState = Detached | Unchanged | Deleted | Modified | Added

  /** A 128-bit GUID. */
  type Guid = x: nat | x < 0x1_0000_0000_0000_0000_0000_0000_0000_0000

  /** System.DateTime: a calendar date and the ticks since its midnight. */
  datatype DateTime = DateTime(date: DateOnly, ticksOfDay: nat)

  /** The fields of BaseEntity, as a value. */
  datatype Timestamps = Timestamps(
    version: Guid,
    createdBy: Option<string>,
    createdDate: DateTime,
    modifiedDate: Option<DateTime>)

  /** What UpdateTimestamps makes of the fields, `now` being
      DateTimeOffset.Now.DateTime and `newGuid` Guid.NewGuid(). Added stamps
      CreatedDate, Modified stamps ModifiedDate, both give a new Version; every
      other state, Deleted included, changes nothing, and CreatedBy is never
      touched. */
  function Stamp(t: Timestamps, state: EntityState, now: DateTime, newGuid: Guid): (r: Timestamps)
    ensures r.createdBy == t.createdBy
    ensures state == Added ==>
      r.createdDate == now && r.version == newGuid && r.modifiedDate == t.modifiedDate
    ensures state == Modified ==>
      r.modifiedDate == Some(now) && r.version == newGuid && r.createdDate == t.createdDate
    ensures state != Added && state != Modified ==> r == t
  {
    match state
    case Modified => t.(modifiedDate := Some(now), version := newGuid)
    case Added => t.(createdDate := now, version := newGuid)
    case _ => t
  }

  /** With a fresh GUID, the Version changes exactly when the entity is Added
      or Modified. */
  lemma VersionChangesExactlyOnWrites(t: Timestamps, state: EntityState, now: DateTime, newGuid: Guid)
    requires newGuid != t.version
    ensures Stamp(t, state, now, newGuid).version != t.version <==> state == Added || state == Modified
  {
  }

  /** One tracker event: the entry's new state, the clock and the GUID drawn. */
  datatype StampEvent = StampEvent(state: EntityState, now: DateTime, newGuid: Guid)

  /** The fields after a run of tracker events. */
  function StampAll(t: Timestamps, events: seq<StampEvent>): (r: Timestamps)
    ensures r.createdBy == t.createdBy
    decreases |events|
  {
    if |events| == 0 then t
    else StampAll(Stamp(t, events[0].state, events[0].now, events[0].newGuid), events[1..])
  }

  /** Once an entity is Added, CreatedDate and CreatedBy survive any run of
      later events that does not add it again. */
  lemma {:induction false} CreatedDateSurvives(t: Timestamps, now: DateTime, newGuid: Guid, events: seq<StampEvent>)
    requires forall i | 0 <= i < |events| :: events[i].state != Added
    ensures StampAll(Stamp(t, Added, now, newGuid), events).createdDate == now
    ensures StampAll(Stamp(t, Added, now, newGuid), events).createdBy == t.createdBy
    decreases |events|
  {
    if |events| > 0 {
      var added := Stamp(t, Added, now, newGuid);
      var next := Stamp(added, events[0].state, events[0].now, events[0].newGuid);
      assert next.createdDate == now && next.createdBy == t.createdBy;
      assert next == Stamp(next.(createdDate := t.createdDate), Added, now, next.version) by {
        match events[0].state
        case Modified =>
        case _ =>
      }
      CreatedDateSurvives(next.(createdDate := t.createdDate), now, next.version, events[1..]);
    }
  }

  /** BaseEntity: the four fields every audited entity carries. */
  class BaseEntity {
    var version: Guid
    var createdBy: Option<string>
    var createdDate: DateTime
    var modifiedDate: Option<DateTime>

    constructor (t: Timestamps)
      ensures Fields() == t
    {
      version := t.version;
      createdBy := t.createdBy;
      createdDate := t.createdDate;
      modifiedDate := t.modifiedDate;
    }

    function Fields(): (t: Timestamps)
      reads this
      ensures t.version == version && t.createdBy == createdBy
      ensures t.createdDate == createdDate && t.modifiedDate == modifiedDate
    {
      Timestamps(version, createdBy, createdDate, modifiedDate)
    }
  }

  /** An EntityEntry: the tracked entity, None when it is not a BaseEntity,
      and its state. */
  datatype Entry = Entry(entity: Option<BaseEntity>, state: EntityState)

  /** The StateChanged and Tracked handler. An entity that is not a
      BaseEntity is left alone; a BaseEntity gets the fields Stamp gives, and a
      fresh GUID makes its Version change exactly on Added and Modified. */
  method UpdateTimestamps(entry: Entry, now: DateTime, newGuid: Guid)
    requires entry.entity.Some? ==> newGuid != entry.entity.value.version
    modifies if entry.entity.Some? then {entry.entity.value} else {}
    ensures entry.entity.Some? ==>
      entry.entity.value.Fields() == Stamp(old(entry.entity.value.Fields()), entry.state, now, newGuid)
    ensures entry.entity.Some? ==>
      (entry.entity.value.version != old(entry.entity.value.version) <==>
         entry.state == Added || entry.state == Modified)
  {
    if entry.entity.None? {
      return;
    }
    var e := entry.entity.value;
    match entry.state
    case Deleted =>
    case Modified =>
      e.modifiedDate := Some(now);
      e.version := newGuid;
    case Added =>
      e.createdDate := now;
      e.version := newGuid;
    case _ =>
  }

  // ---------------------------------------------------------------------------
  // Seed data of the WeatherForecast table (keyed and uniquely indexed on Id).
  // ---------------------------------------------------------------------------

  /** A seed row: the id, the forecast fields and the audit fields set. */
  datatype SeedRow = SeedRow(
    id: string,
    date: DateOnly,
    temperatureC: Int32,
    summary: string,
    createdBy: string,
    createdDate: DateTime)

  function Seed(id: string, day: int, temperatureC: Int32, summary: string): SeedRow
  {
    SeedRow(id, DateOnly(2025, 1, day), temperatureC, summary, "System", DateTime(DateOnly(2025, 1, day), 0))
  }

  const SeedRows: seq<SeedRow> := [
    Seed("38b7942a-8a8f-4a34-9744-e4dea6eaed78", 4, 25, "Hot"),
    Seed("3db3a34a-9dcf-42e6-977f-d6bbb2329f16", 7, 15, "Cool"),
    Seed("76d5e039-63b3-4c7f-bb8d-0847f729dcde", 9, 5, "Cold"),
    Seed("1130f076-1d75-4977-8a50-323a4ecf8f4e", 11, 35, "Hot"),
    Seed("2fa8d533-c8fd-45e6-8ee4-988e5b1d8d04", 20, 20, "Warm")]

  /** The seed ids are pairwise distinct, as the primary key and the unique
      index on Id demand. */
  lemma SeedIdsDistinct()
    ensures |SeedRows| == 5
    ensures forall i, j | 0 <= i < j < |SeedRows| :: SeedRows[i].id != SeedRows[j].id
  {
    var r := SeedRows;
    var heads := "33712";
    assert r[0].id[0] == heads[0] && r[1].id[0] == heads[1] && r[2].id[0] == heads[2];
    assert r[3].id[0] == heads[3] && r[4].id[0] == heads[4];
    assert r[0].id[1] != r[1].id[1];
    forall i, j | 0 <= i < j < 5
      ensures r[i].id != r[j].id
    {
      if i == 0 && j == 1 {
        assert r[i].id[1] != r[j].id[1];
      } else {
        assert r[i].id[0] == heads[i] && r[j].id[0] == heads[j];
        assert heads[i] != heads[j];
      }
    }
  }
}
