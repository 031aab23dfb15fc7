/** Migrating events from the relational store: rows are fetched in batches and chained anew on the way. */
module ChainMigration {
  import opened Prelude
  import opened CanonicalPayload
  import opened AuditEvents
  import opened ChainVerifier
  import opened ChainOrder
  import opened ChainReport

  const TARGET_EPOCH := "default"

  /** One source row; nullable columns are options, and there is no metadata column. */
  datatype PgEvent = PgEvent(
    eventId: string, timestamp: string, actorId: string, actorRoles: seq<string>, action: string,
    resourceType: string, resourceId: Option<string>, result: string,
    reason: Option<string>, ip: Option<string>, traceId: Option<string>)

  function Nullable(v: Option<string>): Value {
    match v
    case None => Absent
    case Some(s) => Text(s)
  }

  function ToBody(row: PgEvent): Body {
    Body(Text(row.eventId), Text(row.timestamp), Text(row.actorId), Listed(row.actorRoles), Text(row.action),
         Text(row.resourceType), Nullable(row.resourceId), Text(row.result), Nullable(row.reason),
         Nullable(row.ip), Nullable(row.traceId), None)
  }

  /** No field is lost on the way: different rows become different events. */
  lemma ToBodyKeepsFields(a: PgEvent, b: PgEvent)
    requires ToBody(a) == ToBody(b)
    ensures a == b
  {
    assert Nullable(a.resourceId) == Nullable(b.resourceId) && Nullable(a.reason) == Nullable(b.reason);
    assert Nullable(a.ip) == Nullable(b.ip) && Nullable(a.traceId) == Nullable(b.traceId);
  }

  /** Column for column: what becomes of each value, a null of a nullable column being no value. */
  predicate HoldsRow(b: Body, row: PgEvent) {
    && b.eventId == Text(row.eventId) && b.timestamp == Text(row.timestamp)
    && b.actorId == Text(row.actorId) && b.actorRoles == Listed(row.actorRoles)
    && b.action == Text(row.action) && b.resourceType == Text(row.resourceType)
    && (match row.resourceId case Some(x) => b.resourceId == Text(x) case None => b.resourceId == Absent)
    && b.result == Text(row.result)
    && (match row.reason case Some(x) => b.reason == Text(x) case None => b.reason == Absent)
    && (match row.ip case Some(x) => b.ip == Text(x) case None => b.ip == Absent)
    && (match row.traceId case Some(x) => b.traceId == Text(x) case None => b.traceId == Absent)
    && b.metadata == None
  }

  /** What the driver makes of an `undefined` field: null by default, no field at all with `ignoreUndefined`. */
  datatype UndefinedFields = WrittenAsNull | Omitted

  function StoredLink(mode: UndefinedFields, prev: Option<string>): Link {
    match prev
    case Some(h) => Prior(h)
    case None => if mode.WrittenAsNull? then Null else Undefined
  }

  function Migrated(scheme: Scheme, mode: UndefinedFields, prev: Option<string>, row: PgEvent): Event {
    var body := ToBody(row);
    Event(TARGET_EPOCH, body, StoredLink(mode, prev), ComputeHash(scheme, prev, scheme.canon(body)), None, None)
  }

  /** The unbatched fold: one event for each source row, each chained to the one before. */
  function MigrateFrom(scheme: Scheme, mode: UndefinedFields, prev: Option<string>, rows: seq<PgEvent>)
    : (r: seq<Event>)
    ensures |r| == |rows|
    decreases |rows|
  {
    if rows == [] then []
    else
      var e := Migrated(scheme, mode, prev, rows[0]);
      [e] + MigrateFrom(scheme, mode, Some(e.hash), rows[1..])
  }

  function MigrateAll(scheme: Scheme, mode: UndefinedFields, rows: seq<PgEvent>): (r: seq<Event>)
    ensures |r| == |rows|
  {
    MigrateFrom(scheme, mode, None, rows)
  }

  /** The hash the next event is chained to, after the given events behind `prev`. */
  function HeadAfter(prev: Option<string>, events: seq<Event>): Option<string> {
    if events == [] then prev else Some(events[|events| - 1].hash)
  }

  lemma {:induction false} MigrateConcat(scheme: Scheme, mode: UndefinedFields, prev: Option<string>,
                                         a: seq<PgEvent>, b: seq<PgEvent>)
    ensures var first := MigrateFrom(scheme, mode, prev, a);
      MigrateFrom(scheme, mode, prev, a + b) == first + MigrateFrom(scheme, mode, HeadAfter(prev, first), b)
    decreases |a|
  {
    if a == [] {
      assert a + b == b;
    } else {
      assert (a + b)[1..] == a[1..] + b;
      var e := Migrated(scheme, mode, prev, a[0]);
      var rest := MigrateFrom(scheme, mode, Some(e.hash), a[1..]);
      MigrateConcat(scheme, mode, Some(e.hash), a[1..], b);
      assert HeadAfter(prev, [e] + rest) == HeadAfter(Some(e.hash), rest);
    }
  }

  /** Splitting the remaining rows into one batch and the rest. */
  lemma BatchSplits(scheme: Scheme, mode: UndefinedFields, prev: Option<string>, source: seq<PgEvent>, lo: nat, hi: nat)
    requires lo <= hi <= |source|
    ensures var events := MigrateFrom(scheme, mode, prev, source[lo..hi]);
      MigrateFrom(scheme, mode, prev, source[lo..])
      == events + MigrateFrom(scheme, mode, HeadAfter(prev, events), source[hi..])
  {
    assert source[lo..] == source[lo..hi] + source[hi..];
    MigrateConcat(scheme, mode, prev, source[lo..hi], source[hi..]);
  }

  /** One turn of the loop: the batch moves from what is to be migrated to what is stored. */
  lemma NextBatch(scheme: Scheme, mode: UndefinedFields, prev: Option<string>, source: seq<PgEvent>, lo: nat, hi: nat,
                  stored: seq<Event>, all: seq<Event>)
    requires lo <= hi <= |source|
    requires all == stored + MigrateFrom(scheme, mode, prev, source[lo..])
    ensures var events := MigrateFrom(scheme, mode, prev, source[lo..hi]);
      all == stored + events + MigrateFrom(scheme, mode, HeadAfter(prev, events), source[hi..])
  {
    BatchSplits(scheme, mode, prev, source, lo, hi);
    var events := MigrateFrom(scheme, mode, prev, source[lo..hi]);
    AppendAssociates(stored, events, MigrateFrom(scheme, mode, HeadAfter(prev, events), source[hi..]));
  }

  /**
   * The script's loop over batches of the ordered source table. For every batch size the result is the unbatched
   * fold, and every source row was processed once.
   */
  method Migrate(scheme: Scheme, mode: UndefinedFields, source: seq<PgEvent>, batchSize: nat)
    returns (stored: seq<Event>, processed: nat)
    requires batchSize > 0
    ensures stored == MigrateAll(scheme, mode, source)
    ensures processed == |source|
  {
    var total := |source|;
    stored, processed := [], 0;
    var prevHash: Option<string> := None;
    var offset := 0;
    ghost var all := MigrateAll(scheme, mode, source);
    assert source[0..] == source;
    while offset < total
      invariant processed == Min(offset, total)
      invariant all == stored + MigrateFrom(scheme, mode, prevHash, source[processed..])
      decreases total - offset
    {
      var end := Min(offset + batchSize, total);
      var batch := source[offset..end];
      if batch == [] { break; }
      NextBatch(scheme, mode, prevHash, source, offset, end, stored, all);
      var mongoEvents;
      mongoEvents, prevHash := ChainBatch(scheme, mode, prevHash, batch);
      stored := stored + mongoEvents;
      processed := processed + |batch|;
      offset := offset + batchSize;
    }
    assert source[total..] == [];
  }

  lemma AppendAssociates<T>(a: seq<T>, b: seq<T>, c: seq<T>)
    ensures a + (b + c) == a + b + c
  {
  }

  /** The inner loop: chain one batch behind the running hash. */
  method ChainBatch(scheme: Scheme, mode: UndefinedFields, prev: Option<string>, batch: seq<PgEvent>)
    returns (mongoEvents: seq<Event>, prevHash: Option<string>)
    ensures mongoEvents == MigrateFrom(scheme, mode, prev, batch)
    ensures prevHash == HeadAfter(prev, mongoEvents)
  {
    mongoEvents, prevHash := [], prev;
    ghost var all := MigrateFrom(scheme, mode, prev, batch);
    assert batch[0..] == batch;
    for i := 0 to |batch|
      invariant all == mongoEvents + MigrateFrom(scheme, mode, prevHash, batch[i..])
      invariant prevHash == HeadAfter(prev, mongoEvents)
    {
      assert batch[i..][0] == batch[i] && batch[i..][1..] == batch[i + 1..];
      var body := ToBody(batch[i]);
      var hash := ComputeHash(scheme, prevHash, scheme.canon(body));
      var event := Event(TARGET_EPOCH, body, StoredLink(mode, prevHash), hash, None, None);
      prevHash := Some(hash);
      AppendAssociates(mongoEvents, [event], MigrateFrom(scheme, mode, prevHash, batch[i + 1..]));
      mongoEvents := mongoEvents + [event];
    }
    assert batch[|batch|..] == [];
  }

  /** Order and fields are preserved, every hash chains to the one before, and only the first link can be special. */
  lemma {:induction false} MigratedAt(scheme: Scheme, mode: UndefinedFields, prev: Option<string>, rows: seq<PgEvent>,
                                      i: nat)
    requires i < |rows|
    ensures var r := MigrateFrom(scheme, mode, prev, rows);
      r[i] == Migrated(scheme, mode, if i == 0 then prev else Some(r[i - 1].hash), rows[i])
    decreases i
  {
    if i > 0 {
      MigratedAt(scheme, mode, Some(Migrated(scheme, mode, prev, rows[0]).hash), rows[1..], i - 1);
    }
  }

  /** Every source row arrives at its place with every column, unsigned, chained to the row before it. */
  lemma MigratedRow(scheme: Scheme, mode: UndefinedFields, source: seq<PgEvent>, i: nat)
    requires i < |source|
    ensures var r := MigrateAll(scheme, mode, source);
      && HoldsRow(r[i].body, source[i]) && r[i].epochId == "default"
      && r[i].signature == None && r[i].signatureKid == None
      && r[i].hash == scheme.sha((if i == 0 then "" else r[i - 1].hash) + "|" + scheme.canon(r[i].body))
      && (i > 0 ==> r[i].prevHash == Prior(r[i - 1].hash))
  {
    MigratedAt(scheme, mode, None, source, i);
  }

  /**
   * The migrated chain passes the service's verification, however its rows are returned, exactly if the driver wrote
   * the first link as null, given distinct event ids in the source; an omitted link is the only way to fail.
   */
  lemma MigratedVerifies(scheme: Scheme, keys: Keyring, mode: UndefinedFields, source: seq<PgEvent>,
                         rows: seq<Event>, limit: nat)
    requires CollisionFree(scheme)
    requires NoRepeats(EventIds(source))
    requires multiset(rows) == multiset(MigrateAll(scheme, mode, source))
    ensures Orders(MigrateAll(scheme, mode, source), rows)
    ensures Trusted(scheme, keys, rows, limit) <==> mode.WrittenAsNull? || source == [] || limit == 0
  {
    var chain := MigrateAll(scheme, mode, source);
    MigratedOrders(scheme, mode, source, rows);
    MigratedIdentities(scheme, mode, source);
    IdentitiesPermute(chain, rows);
    var n := Min(limit, |chain|);
    forall p: seq<Event> | Orders(p, rows) ensures p == chain { OrderIsUnique(rows, p, chain); }
    forall i | 0 <= i < n ensures EventOk(scheme, keys, chain[..n], i) <==> mode.WrittenAsNull? || i > 0 {
      MigratedAt(scheme, mode, None, source, i);
      assert Before(chain[..n], i) == Before(chain, i);
    }
    if mode.Omitted? && n > 0 {
      assert !EventOk(scheme, keys, chain[..n], 0);
    } else {
      assert Accepts(scheme, keys, chain[..n]);
    }
  }

  lemma MigratedIdentities(scheme: Scheme, mode: UndefinedFields, source: seq<PgEvent>)
    requires NoRepeats(EventIds(source))
    ensures DistinctIdentities(MigrateAll(scheme, mode, source))
  {
    var chain := MigrateAll(scheme, mode, source);
    forall i | 0 <= i < |chain| ensures Identity(chain[i]) == source[i].eventId {
      MigratedAt(scheme, mode, None, source, i);
    }
    assert Identities(chain) == EventIds(source);
  }

  function EventIds(source: seq<PgEvent>): (ids: seq<string>)
    ensures |ids| == |source|
    ensures forall i :: 0 <= i < |source| ==> ids[i] == source[i].eventId
  {
    seq(|source|, i requires 0 <= i < |source| => source[i].eventId)
  }

  lemma MigratedOrders(scheme: Scheme, mode: UndefinedFields, source: seq<PgEvent>, rows: seq<Event>)
    requires CollisionFree(scheme)
    requires multiset(rows) == multiset(MigrateAll(scheme, mode, source))
    ensures Orders(MigrateAll(scheme, mode, source), rows)
  {
    var chain := MigrateAll(scheme, mode, source);
    forall i | 0 <= i < |chain| ensures HashOk(scheme, chain, i) && Linked(chain, i) {
      MigratedAt(scheme, mode, None, source, i);
    }
    ChainHashesDiffer(scheme, chain);
  }
}
