/**
 * The audit service as one object over its collections: serial and contended appends, epoch records, verification of
 * the active epoch, and sealing of a compromised epoch.
 */
module AuditService {
  import opened Prelude
  import opened CanonicalPayload
  import opened AuditEvents
  import opened ChainVerifier
  import opened ChainOrder
  import opened AppendProtocol
  import opened ChainReport

  const DEFAULT_EPOCH_ID := "default"
  const SEAL_VERIFY_LIMIT: nat := 5000

  datatype EpochStatus = ACTIVE | SEALED | COMPROMISED
  datatype GenesisReason = INITIAL | ROTATION | COMPROMISE_RECOVERY

  datatype Epoch = Epoch(
    epochId: string,
    status: EpochStatus,
    genesisReason: GenesisReason,
    previousEpochId: Option<string>,
    incidentId: Option<string>,
    found: Option<Break>)

  datatype Incident = Incident(incidentId: string, affectedEpochId: string, found: Break)

  datatype Collections = Collections(events: seq<Event>, epochs: seq<Epoch>, incidents: seq<Incident>)

  datatype AppendResult = Appended(event: Event) | Contention | AmbiguousTail(candidates: nat)

  datatype SealResult = Sealed(newEpochId: string, report: Report, started: AppendResult) | ChainIsValid

  // ---- Specifications ----

  /** The store after one more event was chained onto the epoch's current head. */
  function AppendOne(scheme: Scheme, keys: Keyring, store: seq<Event>, epochId: string, body: Body): seq<Event> {
    store + [NewEvent(scheme, keys, epochId, body, Head(EpochRows(store, epochId)))]
  }

  function AppendAll(scheme: Scheme, keys: Keyring, store: seq<Event>, epochId: string, bodies: seq<Body>)
    : (r: seq<Event>)
    ensures store <= r && |r| == |store| + |bodies|
    decreases |bodies|
  {
    if bodies == [] then store
    else AppendAll(scheme, keys, AppendOne(scheme, keys, store, epochId, bodies[0]), epochId, bodies[1..])
  }

  /** All bodies rival writers committed during the given attempts, in order. */
  function RivalBodies(rivals: seq<seq<Body>>): seq<Body> {
    if rivals == [] then [] else RivalBodies(rivals[..|rivals| - 1]) + rivals[|rivals| - 1]
  }

  /** What an append may leave behind in a store that the rivals have brought to `raced`: its own event, or nothing. */
  ghost predicate IsOutcome(scheme: Scheme, keys: Keyring, raced: seq<Event>, after: seq<Event>, epochId: string,
                            body: Body, r: AppendResult) {
    match r
    case Appended(event) =>
      && after == AppendOne(scheme, keys, raced, epochId, body)
      && event == NewEvent(scheme, keys, epochId, body, Head(EpochRows(raced, epochId)))
    case Contention => after == raced
    case AmbiguousTail(_) => false
  }

  predicate AllAppended(results: seq<AppendResult>) {
    results == [] || (AllAppended(results[..|results| - 1]) && results[|results| - 1].Appended?)
  }

  lemma {:induction false} NoneFailed(results: seq<AppendResult>)
    ensures AllAppended(results) <==> forall i :: 0 <= i < |results| ==> results[i].Appended?
  {
    if results != [] { NoneFailed(results[..|results| - 1]); }
  }

  lemma AppendedMore(results: seq<AppendResult>, r: AppendResult)
    requires AllAppended(results) && r.Appended?
    ensures AllAppended(results + [r])
  {
    assert (results + [r])[..|results|] == results;
  }

  /** Each of the given attempts had a rival. */
  ghost predicate AllRaced(rivals: seq<seq<Body>>) {
    [] !in rivals
  }

  lemma UnracedAtOnce(rivals: seq<seq<Body>>, attempts: nat)
    requires attempts <= |rivals| && AllRaced(rivals[..attempts])
    requires forall k :: 0 <= k < |rivals| ==> rivals[k] == []
    ensures attempts == 0
  {
    if attempts > 0 { FirstRival(rivals, attempts); }
  }

  lemma FirstRival(rivals: seq<seq<Body>>, attempts: nat)
    requires 0 < attempts <= |rivals|
    ensures rivals[0] in rivals[..attempts]
  {
    assert rivals[..attempts][0] == rivals[0];
  }

  lemma {:induction false} AppendAllConcat(scheme: Scheme, keys: Keyring, store: seq<Event>, epochId: string,
                                           a: seq<Body>, b: seq<Body>)
    ensures AppendAll(scheme, keys, store, epochId, a + b)
      == AppendAll(scheme, keys, AppendAll(scheme, keys, store, epochId, a), epochId, b)
    decreases |a|
  {
    if a == [] {
      assert a + b == b;
    } else {
      assert (a + b)[1..] == a[1..] + b;
      AppendAllConcat(scheme, keys, AppendOne(scheme, keys, store, epochId, a[0]), epochId, a[1..], b);
    }
  }

  lemma AppendFirst(scheme: Scheme, keys: Keyring, store: seq<Event>, epochId: string, bodies: seq<Body>, i: nat)
    requires i < |bodies|
    ensures AppendAll(scheme, keys, store, epochId, bodies[i..])
      == AppendAll(scheme, keys, AppendOne(scheme, keys, store, epochId, bodies[i]), epochId, bodies[i + 1..])
  {
    assert bodies[i..][0] == bodies[i] && bodies[i..][1..] == bodies[i + 1..];
  }

  lemma RivalsConcat(scheme: Scheme, keys: Keyring, store: seq<Event>, epochId: string, rivals: seq<seq<Body>>,
                     n: nat)
    requires n < |rivals|
    ensures AppendAll(scheme, keys, store, epochId, RivalBodies(rivals[..n + 1]))
      == AppendAll(scheme, keys, AppendAll(scheme, keys, store, epochId, RivalBodies(rivals[..n])), epochId, rivals[n])
    ensures AllRaced(rivals[..n]) && rivals[n] != [] ==> AllRaced(rivals[..n + 1])
  {
    assert rivals[..n + 1][..n] == rivals[..n];
    assert rivals[..n + 1] == rivals[..n] + [rivals[n]];
    AppendAllConcat(scheme, keys, store, epochId, RivalBodies(rivals[..n]), rivals[n]);
  }

  lemma AppendOneIntact(scheme: Scheme, keys: Keyring, store: seq<Event>, epochId: string, body: Body, other: string)
    requires Intact(scheme, EpochRows(store, other))
    ensures Intact(scheme, EpochRows(AppendOne(scheme, keys, store, epochId, body), other))
  {
    var prev := Head(EpochRows(store, epochId));
    ChainExtends(scheme, store, NewEvent(scheme, keys, epochId, body, prev), other, prev);
  }

  /** Chained rows keep every intact epoch intact. */
  lemma {:induction false} AppendAllIntact(scheme: Scheme, keys: Keyring, store: seq<Event>, epochId: string,
                                           bodies: seq<Body>, other: string)
    requires Intact(scheme, EpochRows(store, other))
    ensures Intact(scheme, EpochRows(AppendAll(scheme, keys, store, epochId, bodies), other))
    decreases |bodies|
  {
    if bodies != [] {
      AppendOneIntact(scheme, keys, store, epochId, bodies[0], other);
      AppendAllIntact(scheme, keys, AppendOne(scheme, keys, store, epochId, bodies[0]), epochId, bodies[1..], other);
    }
  }

  /**
   * The shape of the epoch list: oldest first, each epoch naming the one before it, all but the last compromised with
   * one incident each, the last one active.
   */
  ghost predicate EpochList(epochs: seq<Epoch>, incidents: seq<Incident>) {
    && (epochs == [] ==> incidents == [])
    && (epochs != [] ==> |incidents| == |epochs| - 1)
    && (forall i :: 0 <= i < |epochs| ==> EpochAt(epochs, incidents, i))
    && (forall i, j :: 0 <= i < j < |epochs| ==> epochs[i].epochId != epochs[j].epochId)
    && (forall i, j :: 0 <= i < j < |incidents| ==> incidents[i].incidentId != incidents[j].incidentId)
  }

  ghost predicate EpochAt(epochs: seq<Epoch>, incidents: seq<Incident>, i: nat)
    requires i < |epochs| && |incidents| == |epochs| - 1
  {
    && epochs[i].previousEpochId == (if i == 0 then None else Some(epochs[i - 1].epochId))
    && (if i == |epochs| - 1 then epochs[i].status == ACTIVE
        else
          && epochs[i].status == COMPROMISED
          && epochs[i].incidentId == Some(incidents[i].incidentId)
          && epochs[i].found == Some(incidents[i].found)
          && incidents[i].affectedEpochId == epochs[i].epochId)
  }

  ghost predicate OnlyActive(epochs: seq<Epoch>, i: nat) {
    i < |epochs| && forall j :: 0 <= j < |epochs| ==> (epochs[j].status == ACTIVE <==> j == i)
  }

  ghost predicate OnlyIncident(incidents: seq<Incident>, epochId: string, k: nat) {
    k < |incidents| && forall m :: 0 <= m < |incidents| ==> (incidents[m].affectedEpochId == epochId <==> m == k)
  }

  /** Exactly one active epoch; and each compromised epoch is the subject of exactly one incident. */
  lemma OneActiveOneIncidentEach(epochs: seq<Epoch>, incidents: seq<Incident>)
    requires EpochList(epochs, incidents) && epochs != []
    ensures OnlyActive(epochs, |epochs| - 1)
    ensures forall i :: 0 <= i < |epochs| && epochs[i].status == COMPROMISED ==>
      OnlyIncident(incidents, epochs[i].epochId, i) && epochs[i].incidentId == Some(incidents[i].incidentId)
  {
    forall j | 0 <= j < |epochs| ensures epochs[j].status == ACTIVE <==> j == |epochs| - 1 {
      assert EpochAt(epochs, incidents, j);
    }
    forall i | 0 <= i < |epochs| && epochs[i].status == COMPROMISED
      ensures OnlyIncident(incidents, epochs[i].epochId, i) && epochs[i].incidentId == Some(incidents[i].incidentId)
    {
      assert EpochAt(epochs, incidents, i);
      forall m | 0 <= m < |incidents| ensures incidents[m].affectedEpochId == epochs[i].epochId <==> m == i {
        assert EpochAt(epochs, incidents, m);
        assert m < i ==> epochs[m].epochId != epochs[i].epochId;
        assert i < m ==> epochs[i].epochId != epochs[m].epochId;
      }
    }
  }

  /** The epoch reached from the given one by following previousEpochId n times. */
  ghost function Ancestor(epochs: seq<Epoch>, epochId: string, n: nat): Option<string> {
    if n == 0 then Some(epochId)
    else
      match Ancestor(epochs, epochId, n - 1)
      case None => None
      case Some(id) =>
        if exists k :: 0 <= k < |epochs| && epochs[k].epochId == id then
          var k :| 0 <= k < |epochs| && epochs[k].epochId == id;
          epochs[k].previousEpochId
        else None
  }

  /** Following previousEpochId from the i-th epoch visits i-1, i-2, ... and stops after the first: no cycle. */
  lemma {:induction false} AncestorsDescend(epochs: seq<Epoch>, incidents: seq<Incident>, i: nat, n: nat)
    requires EpochList(epochs, incidents) && i < |epochs|
    ensures Ancestor(epochs, epochs[i].epochId, n) == if n <= i then Some(epochs[i - n].epochId) else None
  {
    if n > 0 {
      AncestorsDescend(epochs, incidents, i, n - 1);
      if n - 1 <= i {
        var id := epochs[i - (n - 1)].epochId;
        assert EpochAt(epochs, incidents, i - (n - 1));
        forall k | 0 <= k < |epochs| && epochs[k].epochId == id ensures k == i - (n - 1) {
          assert !(k < i - (n - 1)) && !(i - (n - 1) < k);
        }
      }
    }
  }

  ghost predicate NewestAt(epochs: seq<Epoch>, k: nat) {
    && k < |epochs| && epochs[k].status == ACTIVE
    && forall m :: k < m < |epochs| ==> epochs[m].status != ACTIVE
  }

  /** The active record that comes last, if any is active. */
  method NewestActive(epochs: seq<Epoch>) returns (r: Option<Epoch>)
    ensures r.None? <==> forall k :: 0 <= k < |epochs| ==> epochs[k].status != ACTIVE
    ensures r.Some? ==> exists k: nat :: NewestAt(epochs, k) && r.value == epochs[k]
  {
    var i := |epochs|;
    while i > 0
      invariant 0 <= i <= |epochs|
      invariant forall m :: i <= m < |epochs| ==> epochs[m].status != ACTIVE
    {
      if epochs[i - 1].status == ACTIVE {
        assert NewestAt(epochs, i - 1);
        return Some(epochs[i - 1]);
      }
      i := i - 1;
    }
    r := None;
  }

  // ---- The service object ----

  class Service {
    const scheme: Scheme
    const keys: Keyring
    var store: seq<Event>
    var epochs: seq<Epoch>
    var incidents: seq<Incident>

    ghost predicate Valid()
      reads this
    {
      EpochList(epochs, incidents)
    }

    /** The epoch new events go to: the active record, or the default epoch before any record exists. */
    ghost function ActiveEpochId(): string
      reads this
    {
      if epochs == [] then DEFAULT_EPOCH_ID else epochs[|epochs| - 1].epochId
    }

    ghost function Value(): Collections
      reads this
    {
      Collections(store, epochs, incidents)
    }

    ghost function ActiveRows(): seq<Event>
      reads this
    {
      EpochRows(store, ActiveEpochId())
    }

    constructor (scheme: Scheme, keys: Keyring, store: seq<Event>)
      ensures Valid() && this.scheme == scheme && this.keys == keys
      ensures this.store == store && epochs == [] && incidents == []
    {
      this.scheme, this.keys, this.store := scheme, keys, store;
      epochs, incidents := [], [];
    }

    /** Insert under the unique (epochId, prevHash) index. */
    method Insert(e: Event) returns (ok: bool)
      modifies this`store
      ensures ok <==> !KeyTaken(old(store), e.epochId, Normalize(e.prevHash))
      ensures store == if ok then old(store) + [e] else old(store)
    {
      ok := !KeyTaken(store, e.epochId, Normalize(e.prevHash));
      if ok {
        store := store + [e];
      }
    }

    /**
     * The append loop. `rivals[k]` are the events other writers commit to the epoch between the k-th read and the
     * k-th insert. On an intact epoch the append succeeds at the first attempt without a rival, and gives up exactly
     * when each of its 25 attempts had one; either way the epoch stays intact and no rival's event is lost.
     */
    method AppendEvent(epochId: string, body: Body, rivals: seq<seq<Body>>) returns (r: AppendResult,
        ghost attempts: nat)
      requires |rivals| == MAX_CHAIN_APPEND_ATTEMPTS
      modifies this`store
      ensures CollisionFree(scheme) && Intact(scheme, EpochRows(old(store), epochId)) ==>
        && attempts <= |rivals|
        && AllRaced(rivals[..attempts])
        && (r.Appended? <==> attempts < |rivals|)
        && (r.Appended? ==> rivals[attempts] == [])
        && IsOutcome(scheme, keys, AppendAll(scheme, keys, old(store), epochId, RivalBodies(rivals[..attempts])),
                     store, epochId, body, r)
        && Intact(scheme, EpochRows(store, epochId))
    {
      attempts := 0;
      ghost var good := CollisionFree(scheme) && Intact(scheme, EpochRows(store, epochId));
      for attempt := 0 to |rivals|
        invariant attempts == attempt
        invariant good ==> Intact(scheme, EpochRows(store, epochId))
        invariant good ==> AllRaced(rivals[..attempt])
        invariant good ==> store == AppendAll(scheme, keys, old(store), epochId, RivalBodies(rivals[..attempt]))
      {
        var outcome := AttemptAppend(epochId, body, rivals[attempt]);
        if !outcome.Contention? {
          return outcome, attempts;
        }
        RivalsConcat(scheme, keys, old(store), epochId, rivals, attempt);
        attempts := attempts + 1;
      }
      r := Contention;
    }

    /** One turn of the append loop: read the tail, compute the next link, insert; rivals may commit in between. */
    method AttemptAppend(epochId: string, body: Body, rivals: seq<Body>) returns (r: AppendResult)
      modifies this`store
      ensures CollisionFree(scheme) && Intact(scheme, EpochRows(old(store), epochId)) ==>
        && Intact(scheme, EpochRows(store, epochId))
        && (r.Appended? <==> rivals == [])
        && IsOutcome(scheme, keys, AppendAll(scheme, keys, old(store), epochId, rivals), store, epochId, body, r)
    {
      ghost var good := CollisionFree(scheme) && Intact(scheme, EpochRows(store, epochId));
      var rows := EpochRows(store, epochId);
      var lastEvent := GetCurrentChainTail(rows);
      if good {
        TailOfIntact(scheme, rows, rows);
        InsertOutcome(scheme, keys, store, epochId, rivals);
        AppendAllIntact(scheme, keys, store, epochId, rivals, epochId);
        AppendOneIntact(scheme, keys, store, epochId, body, epochId);
      }
      if lastEvent.Ambiguous? {
        return AmbiguousTail(lastEvent.candidates);
      }
      var prevHash := if lastEvent.Tail? then Some(lastEvent.event.hash) else None;
      Interfere(epochId, rivals);
      var event := NewEvent(scheme, keys, epochId, body, prevHash);
      var ok := Insert(event);
      r := if ok then Appended(event) else Contention;
    }

    /** Other writers commit the given events on top of the current head. */
    method Interfere(epochId: string, bodies: seq<Body>)
      modifies this`store
      ensures store == AppendAll(scheme, keys, old(store), epochId, bodies)
    {
      store := AppendAll(scheme, keys, store, epochId, bodies);
    }

    /** Create: append to the active epoch, against whatever rivals. */
    method Create(body: Body, rivals: seq<seq<Body>>) returns (r: AppendResult, ghost attempts: nat)
      requires Valid() && |rivals| == MAX_CHAIN_APPEND_ATTEMPTS
      modifies this
      ensures Valid() && incidents == old(incidents)
      ensures epochs == WithInitialEpoch(old(epochs))
      ensures CollisionFree(scheme) && Intact(scheme, EpochRows(old(store), old(ActiveEpochId()))) ==>
        && attempts <= |rivals|
        && AllRaced(rivals[..attempts])
        && (r.Appended? <==> attempts < |rivals|)
        && (r.Appended? ==> rivals[attempts] == [])
        && IsOutcome(scheme, keys,
                     AppendAll(scheme, keys, old(store), old(ActiveEpochId()), RivalBodies(rivals[..attempts])),
                     store, old(ActiveEpochId()), body, r)
        && Intact(scheme, EpochRows(store, old(ActiveEpochId())))
    {
      var active := GetActiveEpochRecord();
      var epochId := if active.Some? then active.value.epochId else DEFAULT_EPOCH_ID;
      r, attempts := AppendEvent(epochId, body, rivals);
    }

    /** Create with no other writer in between. */
    method CreateAlone(body: Body) returns (r: AppendResult)
      requires Valid()
      modifies this
      ensures Valid() && incidents == old(incidents)
      ensures epochs == WithInitialEpoch(old(epochs)) && ActiveEpochId() == old(ActiveEpochId())
      ensures CollisionFree(scheme) && Intact(scheme, EpochRows(old(store), old(ActiveEpochId()))) ==>
        && r.Appended?
        && store == AppendOne(scheme, keys, old(store), old(ActiveEpochId()), body)
        && Intact(scheme, EpochRows(store, old(ActiveEpochId())))
    {
      var noRivals := seq(MAX_CHAIN_APPEND_ATTEMPTS, i => []);
      ghost var attempts;
      ghost var good := CollisionFree(scheme) && Intact(scheme, EpochRows(store, ActiveEpochId()));
      r, attempts := Create(body, noRivals);
      if good {
        UnracedAtOnce(noRivals, attempts);
        assert noRivals[..0] == [];
      }
    }

    /**
     * The queue in front of the appends of one process: each starts when the one before has ended, whatever came of
     * it. Without writers elsewhere the events are chained in the order of the calls, and none fails.
     */
    method CreateQueued(bodies: seq<Body>) returns (results: seq<AppendResult>)
      requires Valid()
      modifies this
      ensures Valid() && incidents == old(incidents) && |results| == |bodies|
      ensures CollisionFree(scheme) && Intact(scheme, EpochRows(old(store), old(ActiveEpochId()))) ==>
        && store == AppendAll(scheme, keys, old(store), old(ActiveEpochId()), bodies)
        && AllAppended(results)
    {
      results := [];
      ghost var epochId := ActiveEpochId();
      ghost var good := CollisionFree(scheme) && Intact(scheme, EpochRows(store, epochId));
      ghost var whole := AppendAll(scheme, keys, store, epochId, bodies);
      assert bodies[0..] == bodies;
      for i := 0 to |bodies|
        invariant Valid() && incidents == old(incidents) && ActiveEpochId() == epochId && |results| == i
        invariant good ==> Intact(scheme, EpochRows(store, epochId)) && AllAppended(results)
        invariant good ==> AppendAll(scheme, keys, store, epochId, bodies[i..]) == whole
      {
        AppendFirst(scheme, keys, store, epochId, bodies, i);
        var r := CreateAlone(bodies[i]);
        if good { AppendedMore(results, r); }
        results := results + [r];
      }
      assert bodies[|bodies|..] == [];
    }

    /** The newest active epoch record; the default one is created on first use. */
    method GetActiveEpochRecord() returns (epoch: Option<Epoch>)
      requires Valid()
      modifies this`epochs
      ensures Valid()
      ensures epochs == WithInitialEpoch(old(epochs))
      ensures epoch == Some(epochs[|epochs| - 1]) && epoch.value.epochId == old(ActiveEpochId())
    {
      epoch := NewestActive(epochs);
      if epochs != [] {
        assert EpochAt(epochs, incidents, |epochs| - 1);
        return;
      }
      var created := Epoch(DEFAULT_EPOCH_ID, ACTIVE, INITIAL, None, None, None);
      epochs := epochs + [created];
      epoch := Some(created);
    }

    /** Verify the active epoch. */
    method VerifyChain(limit: nat) returns (r: Report, epochId: string)
      requires Valid()
      modifies this`epochs
      ensures Valid() && epochs == WithInitialEpoch(old(epochs))
      ensures epochId == old(ActiveEpochId())
      ensures r.IsValid() <==> Trusted(scheme, keys, old(ActiveRows()), limit)
      ensures IsReport(scheme, keys, old(ActiveRows()), limit, r)
    {
      var active := GetActiveEpochRecord();
      epochId := if active.Some? then active.value.epochId else DEFAULT_EPOCH_ID;
      r := VerifyRows(scheme, keys, EpochRows(store, epochId), limit);
    }

    /**
     * Recovery from a compromised chain. It refuses exactly when the active epoch verifies; otherwise it records one
     * incident, marks that epoch compromised, opens a new epoch behind it, and the new epoch then verifies with the
     * one event that announces it, while the rows of every other epoch stay as they were.
     */
    method SealCompromisedChainAndStartEpoch(newEpochId: string, incidentId: string, announcement: Body)
      returns (r: SealResult)
      requires Valid()
      requires newEpochId != DEFAULT_EPOCH_ID && forall i :: 0 <= i < |epochs| ==> epochs[i].epochId != newEpochId
      requires forall i :: 0 <= i < |incidents| ==> incidents[i].incidentId != incidentId
      requires EpochRows(store, newEpochId) == []
      modifies this
      ensures Valid()
      ensures r.ChainIsValid? <==>
        Trusted(scheme, keys, old(ActiveRows()), SEAL_VERIFY_LIMIT)
      ensures r.ChainIsValid? ==>
        store == old(store) && incidents == old(incidents) && epochs == WithInitialEpoch(old(epochs))
      ensures r.Sealed? ==> ActiveEpochId() == newEpochId
      ensures r.Sealed? ==>
        IsRecovery(scheme, keys, old(Value()), Value(), old(ActiveEpochId()), newEpochId, incidentId, announcement,
                      r.report)
    {
      ghost var before, previous := Value(), ActiveEpochId();
      var activeEpoch := GetActiveEpochRecord();
      var verification, previousEpochId := VerifyChain(SEAL_VERIFY_LIMIT);
      if verification.IsValid() {
        return ChainIsValid;
      }
      var started := StartRecovery(previousEpochId, newEpochId, incidentId, BreakOf(verification), announcement);
      RecoveryFollows(scheme, keys, before, Value(), previous, newEpochId, incidentId, announcement, verification);
      r := Sealed(newEpochId, verification, started);
    }

    /** Records and first event of the recovery epoch. */
    method StartRecovery(previousEpochId: string, newEpochId: string, incidentId: string, found: Break,
                         announcement: Body)
      returns (started: AppendResult)
      requires Valid() && epochs != [] && previousEpochId == epochs[|epochs| - 1].epochId
      requires forall i :: 0 <= i < |epochs| ==> epochs[i].epochId != newEpochId
      requires forall i :: 0 <= i < |incidents| ==> incidents[i].incidentId != incidentId
      requires EpochRows(store, newEpochId) == []
      modifies this
      ensures Valid() && ActiveEpochId() == newEpochId
      ensures incidents == old(incidents) + [Incident(incidentId, previousEpochId, found)]
      ensures epochs == SealedEpochs(old(epochs), newEpochId, incidentId, found)
      ensures CollisionFree(scheme) ==> IsAnnounced(scheme, keys, old(store), store, newEpochId, announcement)
    {
      OpenRecoveryEpoch(previousEpochId, newEpochId, incidentId, found);
      started := Announce(newEpochId, announcement);
    }

    /** The first event of a new active epoch. */
    method Announce(newEpochId: string, announcement: Body) returns (r: AppendResult)
      requires Valid() && epochs != [] && ActiveEpochId() == newEpochId
      requires EpochRows(store, newEpochId) == []
      modifies this
      ensures Valid() && incidents == old(incidents) && epochs == old(epochs)
      ensures CollisionFree(scheme) ==> IsAnnounced(scheme, keys, old(store), store, newEpochId, announcement)
    {
      assert Intact(scheme, EpochRows(store, newEpochId));
      r := CreateAlone(announcement);
      if CollisionFree(scheme) {
        NewEpochIsTrusted(scheme, keys, old(store), newEpochId, announcement);
      }
    }

    /** Record the incident, mark the previous epoch compromised and create the new active epoch record. */
    method OpenRecoveryEpoch(previousEpochId: string, newEpochId: string, incidentId: string, found: Break)
      requires Valid() && epochs != [] && previousEpochId == epochs[|epochs| - 1].epochId
      requires forall i :: 0 <= i < |epochs| ==> epochs[i].epochId != newEpochId
      requires forall i :: 0 <= i < |incidents| ==> incidents[i].incidentId != incidentId
      modifies this`epochs, this`incidents
      ensures Valid()
      ensures incidents == old(incidents) + [Incident(incidentId, previousEpochId, found)]
      ensures epochs == SealedEpochs(old(epochs), newEpochId, incidentId, found)
      ensures ActiveEpochId() == newEpochId
    {
      ghost var before := epochs;
      incidents := incidents + [Incident(incidentId, previousEpochId, found)];
      MarkCompromised(previousEpochId, incidentId, found);
      epochs := epochs
        + [Epoch(newEpochId, ACTIVE, COMPROMISE_RECOVERY, Some(previousEpochId), Some(incidentId), None)];
      SealKeepsEpochList(before, old(incidents), newEpochId, incidentId, found);
      assert epochs == SealedEpochs(before, newEpochId, incidentId, found);
    }

    /** Update the epoch record with the given id, if there is one. */
    method MarkCompromised(epochId: string, incidentId: string, found: Break)
      requires forall i, j :: 0 <= i < j < |epochs| ==> epochs[i].epochId != epochs[j].epochId
      modifies this`epochs
      ensures |epochs| == |old(epochs)|
      ensures forall i :: 0 <= i < |epochs| ==>
        epochs[i] == CompromiseIf(old(epochs[i]), epochId, incidentId, found)
    {
      for i := 0 to |epochs|
        invariant epochs == old(epochs)
        invariant forall k :: 0 <= k < i ==> epochs[k].epochId != epochId
      {
        if epochs[i].epochId == epochId {
          epochs := epochs[i := Compromise(epochs[i], incidentId, found)];
          return;
        }
      }
    }
  }

  /** The epoch list once the service has used it: never empty. */
  function WithInitialEpoch(epochs: seq<Epoch>): (r: seq<Epoch>)
    ensures r != []
  {
    if epochs == [] then [Epoch(DEFAULT_EPOCH_ID, ACTIVE, INITIAL, None, None, None)] else epochs
  }

  lemma FirstUseCreatesDefault(epochs: seq<Epoch>)
    ensures |epochs| > 0 ==> WithInitialEpoch(epochs) == epochs
    ensures |WithInitialEpoch([])| == 1 && WithInitialEpoch([])[0].epochId == "default"
    ensures WithInitialEpoch([])[0].status == ACTIVE && WithInitialEpoch([])[0].previousEpochId == None
  {
  }

  function Compromise(epoch: Epoch, incidentId: string, found: Break): Epoch {
    epoch.(status := COMPROMISED, incidentId := Some(incidentId), found := Some(found))
  }

  function CompromiseIf(epoch: Epoch, epochId: string, incidentId: string, found: Break): Epoch {
    if epoch.epochId == epochId then Compromise(epoch, incidentId, found) else epoch
  }

  /** The epoch list after sealing: the last epoch compromised, a new active one behind it. */
  function SealedEpochs(epochs: seq<Epoch>, newEpochId: string, incidentId: string, found: Break): seq<Epoch>
    requires epochs != []
  {
    var last := epochs[|epochs| - 1];
    epochs[..|epochs| - 1] + [Compromise(last, incidentId, found)]
      + [Epoch(newEpochId, ACTIVE, COMPROMISE_RECOVERY, Some(last.epochId), Some(incidentId), None)]
  }

  /** The last two epoch records and the last incident after a seal; both carry the break that was found. */
  predicate IsSealed(epochs: seq<Epoch>, incidents: seq<Incident>, previousEpochId: string, newEpochId: string,
                     incidentId: string) {
    && |epochs| >= 2 && |incidents| >= 1
    && var sealedEpoch, next, incident := epochs[|epochs| - 2], epochs[|epochs| - 1], incidents[|incidents| - 1];
    && next == Epoch(newEpochId, ACTIVE, COMPROMISE_RECOVERY, Some(previousEpochId), Some(incidentId), None)
    && sealedEpoch.epochId == previousEpochId && sealedEpoch.status == COMPROMISED
    && sealedEpoch.incidentId == Some(incidentId)
    && incident.incidentId == incidentId && incident.affectedEpochId == previousEpochId
    && sealedEpoch.found == Some(incident.found)
  }

  /**
   * What a seal leaves behind: one more incident and epoch record, both with the break found in the rows of the epoch
   * that was active, and the announcement as the one event of the new epoch.
   */
  ghost predicate IsRecovery(scheme: Scheme, keys: Keyring, before: Collections, after: Collections,
                             previousEpochId: string, newEpochId: string, incidentId: string, announcement: Body,
                             report: Report) {
    && IsReport(scheme, keys, EpochRows(before.events, previousEpochId), SEAL_VERIFY_LIMIT, report)
    && after.incidents == before.incidents + [Incident(incidentId, previousEpochId, BreakOf(report))]
    && after.epochs == SealedEpochs(WithInitialEpoch(before.epochs), newEpochId, incidentId, BreakOf(report))
    && IsSealed(after.epochs, after.incidents, previousEpochId, newEpochId, incidentId)
    && FoundBreak(scheme, keys, EpochRows(before.events, previousEpochId), SEAL_VERIFY_LIMIT, BreakOf(report))
    && after.incidents[|after.incidents| - 1].found == BreakOf(report)
    && (CollisionFree(scheme) ==> IsAnnounced(scheme, keys, before.events, after.events, newEpochId, announcement))
  }

  lemma RecoveryFollows(scheme: Scheme, keys: Keyring, before: Collections, after: Collections,
                        previousEpochId: string, newEpochId: string, incidentId: string, announcement: Body,
                        report: Report)
    requires IsReport(scheme, keys, EpochRows(before.events, previousEpochId), SEAL_VERIFY_LIMIT, report)
    requires !report.IsValid()
    requires previousEpochId == WithInitialEpoch(before.epochs)[|WithInitialEpoch(before.epochs)| - 1].epochId
    requires after.incidents == before.incidents + [Incident(incidentId, previousEpochId, BreakOf(report))]
    requires after.epochs == SealedEpochs(WithInitialEpoch(before.epochs), newEpochId, incidentId, BreakOf(report))
    requires CollisionFree(scheme) ==> IsAnnounced(scheme, keys, before.events, after.events, newEpochId, announcement)
    ensures IsRecovery(scheme, keys, before, after, previousEpochId, newEpochId, incidentId, announcement, report)
  {
    BreakIsFound(scheme, keys, EpochRows(before.events, previousEpochId), SEAL_VERIFY_LIMIT, report);
    SealedEpochsAre(WithInitialEpoch(before.epochs), before.incidents, newEpochId, incidentId, BreakOf(report));
  }

  lemma SealedEpochsAre(epochs: seq<Epoch>, incidents: seq<Incident>, newEpochId: string, incidentId: string,
                        found: Break)
    requires epochs != []
    ensures var previousEpochId := epochs[|epochs| - 1].epochId;
      && IsSealed(SealedEpochs(epochs, newEpochId, incidentId, found),
                  incidents + [Incident(incidentId, previousEpochId, found)], previousEpochId, newEpochId, incidentId)
      && SealedEpochs(epochs, newEpochId, incidentId, found)[..|epochs| - 1] == epochs[..|epochs| - 1]
  {
  }

  lemma SealKeepsEpochList(epochs: seq<Epoch>, incidents: seq<Incident>, newEpochId: string, incidentId: string,
                           found: Break)
    requires EpochList(epochs, incidents) && epochs != []
    requires forall i :: 0 <= i < |epochs| ==> epochs[i].epochId != newEpochId
    requires forall i :: 0 <= i < |incidents| ==> incidents[i].incidentId != incidentId
    ensures EpochList(SealedEpochs(epochs, newEpochId, incidentId, found),
                      incidents + [Incident(incidentId, epochs[|epochs| - 1].epochId, found)])
  {
    var after := SealedEpochs(epochs, newEpochId, incidentId, found);
    var incidents' := incidents + [Incident(incidentId, epochs[|epochs| - 1].epochId, found)];
    forall i | 0 <= i < |after| ensures EpochAt(after, incidents', i) {
      if i < |epochs| { assert EpochAt(epochs, incidents, i); }
    }
  }

  /** The rows verify for every limit and in whatever order they are returned. */
  ghost predicate TrustedThroughout(scheme: Scheme, keys: Keyring, chain: seq<Event>) {
    forall rows, limit :: multiset(rows) == multiset(chain) ==> Trusted(scheme, keys, rows, limit)
  }

  ghost predicate OthersUntouched(before: seq<Event>, after: seq<Event>, epochId: string) {
    forall other :: other != epochId ==> EpochRows(after, other) == EpochRows(before, other)
  }

  /** The store grew by the announcement of a new epoch, which verifies, and other epochs kept their rows. */
  ghost predicate IsAnnounced(scheme: Scheme, keys: Keyring, before: seq<Event>, after: seq<Event>, epochId: string,
                              announcement: Body) {
    && after == before + [NewEvent(scheme, keys, epochId, announcement, None)]
    && TrustedThroughout(scheme, keys, EpochRows(after, epochId))
    && OthersUntouched(before, after, epochId)
  }

  /** Right after sealing, the new epoch holds its announcement only, and verifies whatever the limit. */
  lemma NewEpochIsTrusted(scheme: Scheme, keys: Keyring, store: seq<Event>, epochId: string, announcement: Body)
    requires CollisionFree(scheme) && EpochRows(store, epochId) == []
    ensures var after := store + [NewEvent(scheme, keys, epochId, announcement, None)];
      && EpochRows(after, epochId) == [NewEvent(scheme, keys, epochId, announcement, None)]
      && TrustedThroughout(scheme, keys, EpochRows(after, epochId))
      && OthersUntouched(store, after, epochId)
  {
    var e := NewEvent(scheme, keys, epochId, announcement, None);
    var after := store + [e];
    EpochRowsAppend(store, e, epochId);
    var chain := EpochRows(after, epochId);
    ChainExtends(scheme, store, e, epochId, None);
    OwnSignatureOk(scheme, keys, e, None);
    forall rows, limit | multiset(rows) == multiset(chain) ensures Trusted(scheme, keys, rows, limit) {
      IntactIsTrusted(scheme, keys, chain, rows, limit);
    }
    forall other | other != epochId ensures EpochRows(after, other) == EpochRows(store, other) {
      EpochRowsAppend(store, e, other);
    }
  }

  lemma {:induction false} EpochRowsConcat(a: seq<Event>, b: seq<Event>, epochId: string)
    ensures EpochRows(a + b, epochId) == EpochRows(a, epochId) + EpochRows(b, epochId)
  {
    if b == [] {
      assert a + b == a;
    } else {
      var front, last := b[..|b| - 1], b[|b| - 1];
      assert (a + b)[..|a + b| - 1] == a + front;
      EpochRowsConcat(a, front, epochId);
    }
  }

  lemma {:induction false} ForeignRows(rows: seq<Event>, epochId: string)
    requires forall i :: 0 <= i < |rows| ==> rows[i].epochId != epochId
    ensures EpochRows(rows, epochId) == []
  {
    if rows != [] { ForeignRows(rows[..|rows| - 1], epochId); }
  }

  /**
   * Tampering with other epochs: replacing any run of rows, none of them of this epoch, by any others that are not of
   * this epoch either leaves its rows and its verdict as they were. Changes, deletions and insertions are covered.
   */
  lemma VerdictIsLocal(scheme: Scheme, keys: Keyring, before: seq<Event>, gone: seq<Event>, put: seq<Event>,
                       after: seq<Event>, epochId: string, limit: nat)
    requires forall i :: 0 <= i < |gone| ==> gone[i].epochId != epochId
    requires forall i :: 0 <= i < |put| ==> put[i].epochId != epochId
    ensures EpochRows(before + gone + after, epochId) == EpochRows(before + put + after, epochId)
    ensures Trusted(scheme, keys, EpochRows(before + gone + after, epochId), limit)
      <==> Trusted(scheme, keys, EpochRows(before + put + after, epochId), limit)
  {
    ForeignRows(gone, epochId);
    ForeignRows(put, epochId);
    EpochRowsConcat(before + gone, after, epochId);
    EpochRowsConcat(before, gone, epochId);
    EpochRowsConcat(before + put, after, epochId);
    EpochRowsConcat(before, put, epochId);
  }

  /** On an intact epoch the key of the head read before is free exactly if nothing was committed since. */
  lemma InsertOutcome(scheme: Scheme, keys: Keyring, store: seq<Event>, epochId: string, bodies: seq<Body>)
    requires CollisionFree(scheme) && Intact(scheme, EpochRows(store, epochId))
    ensures KeyTaken(AppendAll(scheme, keys, store, epochId, bodies), epochId, Head(EpochRows(store, epochId)))
      <==> bodies != []
  {
    if bodies != [] {
      var chain := EpochRows(store, epochId);
      var event := NewEvent(scheme, keys, epochId, bodies[0], Head(chain));
      EpochRowsAppend(store, event, epochId);
      AppendAllKeeps(scheme, keys, store + [event], epochId, bodies[1..], event);
    } else {
      HeadKeyIsFree(scheme, store, epochId);
    }
  }

  lemma {:induction false} AppendAllKeeps(scheme: Scheme, keys: Keyring, store: seq<Event>, epochId: string,
                                          bodies: seq<Body>, e: Event)
    requires e in EpochRows(store, epochId)
    ensures e in EpochRows(AppendAll(scheme, keys, store, epochId, bodies), epochId)
    decreases |bodies|
  {
    if bodies != [] {
      var event := NewEvent(scheme, keys, epochId, bodies[0], Head(EpochRows(store, epochId)));
      EpochRowsAppend(store, event, epochId);
      AppendAllKeeps(scheme, keys, store + [event], epochId, bodies[1..], e);
    }
  }

  lemma HeadKeyIsFree(scheme: Scheme, store: seq<Event>, epochId: string)
    requires CollisionFree(scheme) && Intact(scheme, EpochRows(store, epochId))
    ensures !KeyTaken(store, epochId, Head(EpochRows(store, epochId)))
  {
    var chain := EpochRows(store, epochId);
    IntactIsOrdered(scheme, chain);
    forall e | e in chain ensures Normalize(e.prevHash) != Head(chain) {
      var i :| 0 <= i < |chain| && chain[i] == e;
      assert Linked(chain, i);
      if i > 0 && chain[i - 1].hash == chain[|chain| - 1].hash {
        SameHashSamePosition(chain, i - 1, |chain| - 1);
      }
    }
  }
}
