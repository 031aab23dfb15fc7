/**
 * Appending to the audit chain: any number of writers read the tail of an epoch, compute the next link and insert it
 * under a unique index on (epochId, prevHash); a writer whose head was taken meanwhile retries up to 25 times.
 */
module AppendProtocol {
  import opened Prelude
  import opened CanonicalPayload
  import opened AuditEvents
  import opened ChainVerifier
  import opened ChainOrder

  const MAX_CHAIN_APPEND_ATTEMPTS: nat := 25

  // ---- The store ----

  /** The rows of one epoch, in commit order. */
  function EpochRows(store: seq<Event>, epochId: string): (r: seq<Event>)
    ensures |r| <= |store|
  {
    if store == [] then []
    else
      var front := EpochRows(store[..|store| - 1], epochId);
      var last := store[|store| - 1];
      if last.epochId == epochId then front + [last] else front
  }

  lemma EpochRowsAppend(store: seq<Event>, e: Event, epochId: string)
    ensures EpochRows(store + [e], epochId) == EpochRows(store, epochId) + if e.epochId == epochId then [e] else []
  {
    assert (store + [e])[..|store|] == store;
  }

  lemma {:induction false} EpochRowsMembers(store: seq<Event>, epochId: string)
    ensures forall e :: e in EpochRows(store, epochId) <==> e in store && e.epochId == epochId
  {
    if store != [] {
      EpochRowsMembers(store[..|store| - 1], epochId);
    }
  }

  /** The unique index: a missing prevHash and a null one share a key. */
  predicate KeyTaken(store: seq<Event>, epochId: string, prev: Option<string>) {
    exists e :: e in EpochRows(store, epochId) && Normalize(e.prevHash) == prev
  }

  // ---- Tail selection ----

  predicate Referenced(events: seq<Event>, hash: string) {
    exists e :: e in events && e.prevHash == Prior(hash)
  }

  /** The rows no other row names as predecessor, in store order. */
  function Tails(rows: seq<Event>, events: seq<Event>): seq<Event> {
    if rows == [] then []
    else
      var front := Tails(rows[..|rows| - 1], events);
      var last := rows[|rows| - 1];
      if Referenced(events, last.hash) then front else front + [last]
  }

  lemma {:induction false} TailsMembers(rows: seq<Event>, events: seq<Event>)
    ensures forall e :: e in Tails(rows, events) <==> e in rows && !Referenced(events, e.hash)
  {
    if rows != [] {
      TailsMembers(rows[..|rows| - 1], events);
    }
  }

  datatype TailRead = Empty | Tail(event: Event) | Ambiguous(candidates: nat)

  function SelectTail(events: seq<Event>): TailRead {
    if events == [] then Empty
    else if |Tails(events, events)| == 1 then Tail(Tails(events, events)[0])
    else Ambiguous(|Tails(events, events)|)
  }

  /** The service's tail read over the rows a query returned. */
  method GetCurrentChainTail(events: seq<Event>) returns (tail: TailRead)
    ensures tail == SelectTail(events)
  {
    if events == [] {
      return Empty;
    }
    var prevHashes: set<string> := {};
    for i := 0 to |events|
      invariant forall h :: h in prevHashes <==> Referenced(events[..i], h)
    {
      assert events[..i + 1] == events[..i] + [events[i]];
      if events[i].prevHash.Prior? {
        prevHashes := prevHashes + {events[i].prevHash.hash};
      }
    }
    assert events[..|events|] == events;
    var tails: seq<Event> := [];
    for i := 0 to |events|
      invariant tails == Tails(events[..i], events)
    {
      assert events[..i + 1][..i] == events[..i];
      if events[i].hash !in prevHashes {
        tails := tails + [events[i]];
      }
    }
    tail := if |tails| == 1 then Tail(tails[0]) else Ambiguous(|tails|);
  }

  /** Over an intact chain, in whatever order its rows are returned, the selected tail is the last event. */
  lemma TailOfIntact(scheme: Scheme, chain: seq<Event>, rows: seq<Event>)
    requires CollisionFree(scheme) && Intact(scheme, chain)
    requires multiset(rows) == multiset(chain)
    ensures SelectTail(rows) == if chain == [] then Empty else Tail(chain[|chain| - 1])
  {
    PermutationLength(rows, chain);
    if chain != [] {
      OneTail(scheme, chain, rows);
    }
  }

  lemma OneTail(scheme: Scheme, chain: seq<Event>, rows: seq<Event>)
    requires CollisionFree(scheme) && Intact(scheme, chain) && chain != []
    requires multiset(rows) == multiset(chain)
    ensures Tails(rows, rows) == [chain[|chain| - 1]]
  {
    var last := chain[|chain| - 1];
    var t := Tails(rows, rows);
    TailsAreLast(scheme, chain, rows);
    IntactIsOrdered(scheme, chain);
    OrderedMembersDiffer(chain);
    PermutationNoRepeats(chain, rows);
    TailsNoRepeats(rows, rows);
    ConstantIsShort(t, last);
    assert last in t;
    assert t[0] in t;
  }

  lemma TailsAreLast(scheme: Scheme, chain: seq<Event>, rows: seq<Event>)
    requires CollisionFree(scheme) && Intact(scheme, chain) && chain != []
    requires multiset(rows) == multiset(chain)
    ensures forall e :: e in Tails(rows, rows) <==> e == chain[|chain| - 1]
  {
    TailsMembers(rows, rows);
    forall e ensures e in Tails(rows, rows) <==> e == chain[|chain| - 1] {
      PermutationMembers(rows, chain, e);
      if e in chain { OnlyLastUnreferenced(scheme, chain, rows, e); }
    }
  }

  lemma OnlyLastUnreferenced(scheme: Scheme, chain: seq<Event>, rows: seq<Event>, e: Event)
    requires CollisionFree(scheme) && Intact(scheme, chain)
    requires multiset(rows) == multiset(chain)
    requires e in chain
    ensures Referenced(rows, e.hash) <==> e != chain[|chain| - 1]
  {
    var i :| 0 <= i < |chain| && chain[i] == e;
    IntactIsOrdered(scheme, chain);
    if i < |chain| - 1 {
      assert LinkOk(chain, i + 1) && chain[i + 1] in chain;
      PermutationMembers(rows, chain, chain[i + 1]);
    }
    if r :| r in rows && r.prevHash == Prior(e.hash) {
      PermutationMembers(rows, chain, r);
      var j :| 0 <= j < |chain| && chain[j] == r;
      assert LinkOk(chain, j);
      SameHashSamePosition(chain, j - 1, i);
    }
    OrderedMembersDiffer(chain);
    assert i < |chain| - 1 ==> Differ(chain, i, |chain| - 1);
  }

  lemma {:induction false} TailsNoRepeats(rows: seq<Event>, events: seq<Event>)
    requires NoRepeats(rows)
    ensures NoRepeats(Tails(rows, events))
  {
    if rows != [] {
      var front, last := rows[..|rows| - 1], rows[|rows| - 1];
      assert rows == front + [last];
      NoRepeatsAppend(front, last);
      TailsNoRepeats(front, events);
      TailsMembers(front, events);
      NoRepeatsAppend(Tails(front, events), last);
    }
  }

  /** An intact chain is in chain order: no fork, no cycle, one genesis, and no hash occurs twice. */
  lemma IntactIsOrdered(scheme: Scheme, chain: seq<Event>)
    requires CollisionFree(scheme) && Intact(scheme, chain)
    ensures InChainOrder(chain)
  {
    forall i | 0 <= i < |chain| ensures Linked(chain, i) {
      assert LinkOk(chain, i);
    }
    assert HashesOk(scheme, chain) by {
      forall i | 0 <= i < |chain| ensures HashOk(scheme, chain, i) {
        assert HashOk(scheme, chain, i) && LinkOk(chain, i);
      }
    }
    ChainHashesDiffer(scheme, chain);
  }

  // ---- One append as the writers see it ----

  /** The row a writer inserts: next hash, link, and a signature if a signing secret is configured. */
  function NewEvent(scheme: Scheme, keys: Keyring, epochId: string, body: Body, prev: Option<string>): Event {
    var hash := ComputeHash(scheme, prev, scheme.canon(body));
    var sealed := Seal(scheme, keys, hash);
    Event(epochId, body, LinkTo(prev), hash, sealed.0, sealed.1)
  }

  /** Signature and key id stored with a hash; neither without a signing secret. */
  function Seal(scheme: Scheme, keys: Keyring, hash: string): (Option<string>, Option<string>) {
    match keys.Signing()
    case Some((kid, secret)) =>
      var signature := scheme.mac(hash, secret);
      if signature == "" then (None, None) else (Some(signature), kid)
    case None => (None, None)
  }

  function Head(chain: seq<Event>): Option<string> {
    if chain == [] then None else Some(chain[|chain| - 1].hash)
  }

  /** Where one append call stands; `began` and `seen` record how long the epoch was at its start and last read. */
  datatype Phase = Reading | Holding(prev: Option<string>, seen: nat) | Committed | Exhausted | Confused

  datatype Writer = Writer(epochId: string, body: Body, attempts: nat, began: nat, phase: Phase)

  /** The shared store, who committed each of its rows, and all append calls so far. */
  datatype World = World(store: seq<Event>, authors: seq<nat>, writers: map<nat, Writer>)

  const INIT := World([], [], map[])

  datatype Action =
    | Begin(id: nat, epochId: string, body: Body)
    | Read(id: nat, rows: seq<Event>)
    | Insert(id: nat)

  /** A read may return any part of the epoch's committed rows, in any order. */
  ghost predicate StaleRead(w: World, epochId: string, rows: seq<Event>) {
    multiset(rows) <= multiset(EpochRows(w.store, epochId))
  }

  ghost predicate FreshRead(w: World, epochId: string, rows: seq<Event>) {
    multiset(rows) == multiset(EpochRows(w.store, epochId))
  }

  /** One step of one writer; a step that is not enabled changes nothing. */
  ghost function Step(scheme: Scheme, keys: Keyring, w: World, a: Action): World {
    match a
    case Begin(id, epochId, body) =>
      if id in w.writers then w
      else w.(writers := w.writers[id := Writer(epochId, body, 0, |EpochRows(w.store, epochId)|, Reading)])
    case Read(id, rows) =>
      if id !in w.writers || !w.writers[id].phase.Reading? || !StaleRead(w, w.writers[id].epochId, rows) then w
      else w.(writers := w.writers[id := AfterRead(w.store, w.writers[id], rows)])
    case Insert(id) =>
      if id !in w.writers || !w.writers[id].phase.Holding? then w
      else if KeyTaken(w.store, w.writers[id].epochId, w.writers[id].phase.prev) then
        w.(writers := w.writers[id := AfterCollision(w.writers[id])])
      else
        Commit(scheme, keys, w, id)
  }

  function AfterRead(store: seq<Event>, me: Writer, rows: seq<Event>): Writer {
    var seen := |EpochRows(store, me.epochId)|;
    match SelectTail(rows)
    case Empty => me.(phase := Holding(None, seen))
    case Tail(event) => me.(phase := Holding(Some(event.hash), seen))
    case Ambiguous(_) => me.(phase := Confused)
  }

  function AfterCollision(me: Writer): Writer {
    var attempts := me.attempts + 1;
    me.(attempts := attempts, phase := if attempts < MAX_CHAIN_APPEND_ATTEMPTS then Reading else Exhausted)
  }

  function Commit(scheme: Scheme, keys: Keyring, w: World, id: nat): World
    requires id in w.writers && w.writers[id].phase.Holding?
  {
    var me := w.writers[id];
    World(
      w.store + [NewEvent(scheme, keys, me.epochId, me.body, me.phase.prev)],
      w.authors + [id],
      w.writers[id := me.(phase := Committed)])
  }

  /** The world after the given actions, from the empty store. */
  ghost function Run(scheme: Scheme, keys: Keyring, actions: seq<Action>): World {
    if actions == [] then INIT
    else Step(scheme, keys, Run(scheme, keys, actions[..|actions| - 1]), actions[|actions| - 1])
  }

  // ---- Safety under every interleaving ----

  /** Every epoch is an intact chain, and every head a writer holds is the hash of a committed row of its epoch. */
  ghost predicate Safe(scheme: Scheme, w: World) {
    && (forall epochId :: Intact(scheme, EpochRows(w.store, epochId)))
    && (forall id :: id in w.writers ==> HeldHeadExists(w.store, w.writers[id]))
  }

  ghost predicate HeldHeadExists(store: seq<Event>, me: Writer) {
    me.phase.Holding? && me.phase.prev.Some? ==>
      exists e :: e in EpochRows(store, me.epochId) && e.hash == me.phase.prev.value
  }

  lemma PositionTakesKey(scheme: Scheme, store: seq<Event>, epochId: string, i: nat)
    requires Intact(scheme, EpochRows(store, epochId)) && i < |EpochRows(store, epochId)|
    ensures KeyTaken(store, epochId, Before(EpochRows(store, epochId), i))
  {
    var chain := EpochRows(store, epochId);
    assert LinkOk(chain, i);
    assert chain[i] in chain;
  }

  /** A free key means the held head is the current one. */
  lemma FreeKeyIsHead(scheme: Scheme, store: seq<Event>, epochId: string, prev: Option<string>)
    requires Intact(scheme, EpochRows(store, epochId))
    requires prev.Some? ==> exists e :: e in EpochRows(store, epochId) && e.hash == prev.value
    requires !KeyTaken(store, epochId, prev)
    ensures prev == Head(EpochRows(store, epochId))
  {
    var chain := EpochRows(store, epochId);
    match prev
    case None =>
      if chain != [] {
        PositionTakesKey(scheme, store, epochId, 0);
      }
    case Some(h) =>
      var e :| e in chain && e.hash == h;
      var i :| 0 <= i < |chain| && chain[i] == e;
      if i < |chain| - 1 {
        PositionTakesKey(scheme, store, epochId, i + 1);
      }
  }

  lemma StepIsSafe(scheme: Scheme, keys: Keyring, w: World, a: Action)
    requires Safe(scheme, w)
    ensures Safe(scheme, Step(scheme, keys, w, a))
  {
    if a.id in w.writers {
      var me := w.writers[a.id];
      assert HeldHeadExists(w.store, me);
      if a.Read? && StaleRead(w, me.epochId, a.rows) {
        ReadYieldsCommitted(w, me.epochId, a.rows);
        assert HeldHeadExists(w.store, AfterRead(w.store, me, a.rows));
      } else if a.Insert? && me.phase.Holding? && !KeyTaken(w.store, me.epochId, me.phase.prev) {
        CommitIsSafe(scheme, keys, w, a.id);
      }
    }
  }

  lemma CommitIsSafe(scheme: Scheme, keys: Keyring, w: World, id: nat)
    requires Safe(scheme, w)
    requires id in w.writers && w.writers[id].phase.Holding?
    requires !KeyTaken(w.store, w.writers[id].epochId, w.writers[id].phase.prev)
    ensures Safe(scheme, Commit(scheme, keys, w, id))
  {
    var me := w.writers[id];
    var w' := Commit(scheme, keys, w, id);
    var e := NewEvent(scheme, keys, me.epochId, me.body, me.phase.prev);
    assert HeldHeadExists(w.store, me);
    FreeKeyIsHead(scheme, w.store, me.epochId, me.phase.prev);
    forall epochId ensures Intact(scheme, EpochRows(w'.store, epochId)) {
      assert Intact(scheme, EpochRows(w.store, epochId));
      ChainExtends(scheme, w.store, e, epochId, me.phase.prev);
    }
    forall k | k in w'.writers ensures HeldHeadExists(w'.store, w'.writers[k]) {
      if k != id { HeldHeadKept(w.store, e, w.writers[k]); }
    }
  }

  lemma ChainExtends(scheme: Scheme, store: seq<Event>, e: Event, epochId: string, prev: Option<string>)
    requires Intact(scheme, EpochRows(store, epochId))
    requires e.epochId == epochId ==> prev == Head(EpochRows(store, epochId))
    requires e.prevHash == LinkTo(prev) && e.hash == ComputeHash(scheme, prev, scheme.canon(e.body))
    ensures Intact(scheme, EpochRows(store + [e], epochId))
  {
    EpochRowsAppend(store, e, epochId);
    if e.epochId == epochId {
      IntactAppend(scheme, EpochRows(store, epochId), e);
    }
  }

  lemma HeldHeadKept(store: seq<Event>, e: Event, me: Writer)
    requires HeldHeadExists(store, me)
    ensures HeldHeadExists(store + [e], me)
  {
    EpochRowsAppend(store, e, me.epochId);
  }

  lemma ReadYieldsCommitted(w: World, epochId: string, rows: seq<Event>)
    requires StaleRead(w, epochId, rows)
    ensures SelectTail(rows).Tail? ==> SelectTail(rows).event in EpochRows(w.store, epochId)
  {
    if SelectTail(rows).Tail? {
      var e := SelectTail(rows).event;
      TailsMembers(rows, rows);
      assert e in Tails(rows, rows);
      assert e in multiset(rows);
    }
  }

  /**
   * Main safety theorem: whatever the writers do, in whatever order, and whatever part of the committed rows their
   * reads return, every epoch is one intact chain from a single genesis. Nothing is assumed of the hash here.
   */
  lemma {:induction false} AppendSafety(scheme: Scheme, keys: Keyring, actions: seq<Action>)
    ensures Safe(scheme, Run(scheme, keys, actions))
  {
    if actions == [] {
      forall epochId ensures Intact(scheme, EpochRows(INIT.store, epochId)) {
        assert EpochRows(INIT.store, epochId) == [];
      }
    } else {
      AppendSafety(scheme, keys, actions[..|actions| - 1]);
      StepIsSafe(scheme, keys, Run(scheme, keys, actions[..|actions| - 1]), actions[|actions| - 1]);
    }
  }

  /** No fork, no repeated hash, one genesis, and one tail, which is the last event. */
  ghost predicate Linear(chain: seq<Event>) {
    && InChainOrder(chain)
    && SelectTail(chain) == (if chain == [] then Empty else Tail(chain[|chain| - 1]))
    && forall i, j :: 0 <= i < j < |chain| ==> Normalize(chain[i].prevHash) != Normalize(chain[j].prevHash)
  }

  lemma IntactIsLinear(scheme: Scheme, chain: seq<Event>)
    requires CollisionFree(scheme) && Intact(scheme, chain)
    ensures Linear(chain)
  {
    IntactIsOrdered(scheme, chain);
    TailOfIntact(scheme, chain, chain);
    forall i, j | 0 <= i < j < |chain| ensures Normalize(chain[i].prevHash) != Normalize(chain[j].prevHash) {
      assert Linked(chain, i) && Linked(chain, j);
      if i > 0 && chain[i - 1].hash == chain[j - 1].hash {
        SameHashSamePosition(chain, i - 1, j - 1);
      }
    }
  }

  /** With a collision-free hash, every epoch is linear after every run. */
  lemma EpochsAreLinear(scheme: Scheme, keys: Keyring, actions: seq<Action>)
    requires CollisionFree(scheme)
    ensures forall epochId :: Linear(EpochRows(Run(scheme, keys, actions).store, epochId))
  {
    AppendSafety(scheme, keys, actions);
    var store := Run(scheme, keys, actions).store;
    forall epochId ensures Linear(EpochRows(store, epochId)) {
      IntactIsLinear(scheme, EpochRows(store, epochId));
    }
  }

  // ---- The retry bound ----

  /** Every read of the run returned the committed rows of its epoch at that moment. */
  ghost predicate FreshReads(scheme: Scheme, keys: Keyring, actions: seq<Action>) {
    forall n :: 0 <= n < |actions| ==> FreshAt(scheme, keys, actions, n)
  }

  ghost predicate FreshAt(scheme: Scheme, keys: Keyring, actions: seq<Action>, n: nat)
    requires n < |actions|
  {
    var w := Run(scheme, keys, actions[..n]);
    actions[n].Read? && actions[n].id in w.writers ==> FreshRead(w, w.writers[actions[n].id].epochId, actions[n].rows)
  }

  /** Bookkeeping of one append call: every failed attempt is covered by a row committed since it began. */
  ghost predicate Charged(store: seq<Event>, me: Writer) {
    var chain := EpochRows(store, me.epochId);
    && me.began + me.attempts <= |chain|
    && (me.phase.Reading? ==> me.attempts < MAX_CHAIN_APPEND_ATTEMPTS)
    && (me.phase.Exhausted? ==> me.attempts == MAX_CHAIN_APPEND_ATTEMPTS)
    && !me.phase.Confused?
    && (me.phase.Holding? ==>
          && me.attempts < MAX_CHAIN_APPEND_ATTEMPTS
          && me.began + me.attempts <= me.phase.seen <= |chain|
          && me.phase.prev == Head(chain[..me.phase.seen]))
  }

  ghost predicate Accounted(w: World) {
    && |w.authors| == |w.store|
    && (forall id :: id in w.writers ==> Charged(w.store, w.writers[id]))
    && (forall id :: id in w.authors ==> id in w.writers && w.writers[id].phase.Committed?)
  }

  lemma ChargeKept(store: seq<Event>, e: Event, me: Writer)
    requires Charged(store, me)
    ensures Charged(store + [e], me)
  {
    EpochRowsAppend(store, e, me.epochId);
    var chain, more := EpochRows(store, me.epochId), EpochRows(store + [e], me.epochId);
    assert me.phase.Holding? ==> more[..me.phase.seen] == chain[..me.phase.seen];
  }

  /** A taken key means the chain outgrew what the writer saw. */
  lemma TakenKeyMeansGrowth(scheme: Scheme, store: seq<Event>, me: Writer)
    requires CollisionFree(scheme) && Intact(scheme, EpochRows(store, me.epochId))
    requires Charged(store, me) && me.phase.Holding?
    requires KeyTaken(store, me.epochId, me.phase.prev)
    ensures me.phase.seen < |EpochRows(store, me.epochId)|
  {
    var chain := EpochRows(store, me.epochId);
    IntactIsOrdered(scheme, chain);
    var e :| e in chain && Normalize(e.prevHash) == me.phase.prev;
    var i :| 0 <= i < |chain| && chain[i] == e;
    assert Linked(chain, i);
    var seen := me.phase.seen;
    if seen > 0 {
      assert chain[..seen][seen - 1] == chain[seen - 1];
      SameHashSamePosition(chain, i - 1, seen - 1);
    }
  }

  lemma StepIsAccounted(scheme: Scheme, keys: Keyring, w: World, a: Action)
    requires CollisionFree(scheme) && Safe(scheme, w) && Accounted(w)
    requires a.Read? && a.id in w.writers ==> FreshRead(w, w.writers[a.id].epochId, a.rows)
    ensures Accounted(Step(scheme, keys, w, a))
  {
    var w' := Step(scheme, keys, w, a);
    forall id | id in w'.writers ensures Charged(w'.store, w'.writers[id]) {
      if id != a.id || (a.Begin? && id in w.writers) {
        assert Charged(w.store, w.writers[id]);
        if w'.store != w.store {
          ChargeKept(w.store, w'.store[|w.store|], w.writers[id]);
        }
      } else if a.Begin? {
        assert w'.writers[id].phase.Reading?;
      } else {
        StepChargesActor(scheme, keys, w, a);
      }
    }
  }

  lemma StepChargesActor(scheme: Scheme, keys: Keyring, w: World, a: Action)
    requires CollisionFree(scheme) && Safe(scheme, w) && Accounted(w)
    requires !a.Begin? && a.id in w.writers
    requires a.Read? ==> FreshRead(w, w.writers[a.id].epochId, a.rows)
    ensures var w' := Step(scheme, keys, w, a); Charged(w'.store, w'.writers[a.id])
  {
    var me := w.writers[a.id];
    assert Charged(w.store, me);
    assert Intact(scheme, EpochRows(w.store, me.epochId));
    if a.Read? && me.phase.Reading? {
      ReadCharges(scheme, w.store, me, a.rows);
    } else if a.Insert? && me.phase.Holding? {
      if KeyTaken(w.store, me.epochId, me.phase.prev) {
        TakenKeyMeansGrowth(scheme, w.store, me);
      } else {
        ChargeKept(w.store, NewEvent(scheme, keys, me.epochId, me.body, me.phase.prev), me);
      }
    }
  }

  lemma ReadCharges(scheme: Scheme, store: seq<Event>, me: Writer, rows: seq<Event>)
    requires CollisionFree(scheme) && Intact(scheme, EpochRows(store, me.epochId))
    requires Charged(store, me) && me.phase.Reading?
    requires multiset(rows) == multiset(EpochRows(store, me.epochId))
    ensures Charged(store, AfterRead(store, me, rows))
  {
    var chain := EpochRows(store, me.epochId);
    TailOfIntact(scheme, chain, rows);
    assert chain[..|chain|] == chain;
  }

  lemma {:induction false} RunIsAccounted(scheme: Scheme, keys: Keyring, actions: seq<Action>)
    requires CollisionFree(scheme) && FreshReads(scheme, keys, actions)
    ensures Accounted(Run(scheme, keys, actions))
  {
    if actions != [] {
      var n := |actions| - 1;
      var front := actions[..n];
      forall k | 0 <= k < n ensures FreshAt(scheme, keys, front, k) {
        assert FreshAt(scheme, keys, actions, k);
        assert front[..k] == actions[..k];
      }
      RunIsAccounted(scheme, keys, front);
      AppendSafety(scheme, keys, front);
      assert FreshAt(scheme, keys, actions, n);
      StepIsAccounted(scheme, keys, Run(scheme, keys, front), actions[n]);
    }
  }

  /**
   * With fresh reads, an append that gave up committed nothing, and at least 25 rows of its epoch were committed by
   * other appends since it began; and no append ever finds the tail ambiguous.
   */
  lemma RetryBound(scheme: Scheme, keys: Keyring, actions: seq<Action>, id: nat)
    requires CollisionFree(scheme) && FreshReads(scheme, keys, actions)
    requires id in Run(scheme, keys, actions).writers
    ensures var w := Run(scheme, keys, actions);
      && !w.writers[id].phase.Confused?
      && (w.writers[id].phase.Exhausted? ==>
            && id !in w.authors
            && |EpochRows(w.store, w.writers[id].epochId)| >= w.writers[id].began + MAX_CHAIN_APPEND_ATTEMPTS)
  {
    RunIsAccounted(scheme, keys, actions);
    var w := Run(scheme, keys, actions);
    assert Charged(w.store, w.writers[id]);
  }

  // ---- One row for each append ----

  /** Row i holds what its author set out to record, in the epoch its author read. */
  ghost predicate IsWorkOf(w: World, i: nat)
    requires i < |w.store| && i < |w.authors|
  {
    var id := w.authors[i];
    && id in w.writers && w.writers[id].phase.Committed?
    && w.store[i].body == w.writers[id].body && w.store[i].epochId == w.writers[id].epochId
  }

  /** Rows and finished appends correspond one to one. */
  ghost predicate Authored(w: World) {
    && |w.authors| == |w.store|
    && NoRepeats(w.authors)
    && (forall i :: 0 <= i < |w.store| ==> IsWorkOf(w, i))
    && (forall id :: id in w.writers && w.writers[id].phase.Committed? ==> id in w.authors)
  }

  lemma AuthorsHaveCommitted(w: World, id: nat)
    requires Authored(w) && id in w.authors
    ensures id in w.writers && w.writers[id].phase.Committed?
  {
    var i :| 0 <= i < |w.authors| && w.authors[i] == id;
    assert IsWorkOf(w, i);
  }

  lemma StepIsAuthored(scheme: Scheme, keys: Keyring, w: World, a: Action)
    requires Authored(w)
    ensures Authored(Step(scheme, keys, w, a))
  {
    var t := Step(scheme, keys, w, a);
    if a.id in w.authors { AuthorsHaveCommitted(w, a.id); }
    forall i | 0 <= i < |t.store| ensures IsWorkOf(t, i) {
      if i < |w.store| {
        assert IsWorkOf(w, i);
        assert w.authors[i] in w.authors;
      }
    }
    if t.store != w.store { NoRepeatsAppend(w.authors, a.id); }
    forall id | id in t.writers && t.writers[id].phase.Committed? ensures id in t.authors {
      if id == a.id && t.store != w.store { assert t.authors[|w.store|] == id; }
    }
  }

  /**
   * After any run each append that finished has exactly one row, which holds its body in its epoch, and there are no
   * other rows: no append commits twice, none is lost, nothing else gets in.
   */
  lemma {:induction false} RunIsAuthored(scheme: Scheme, keys: Keyring, actions: seq<Action>)
    ensures Authored(Run(scheme, keys, actions))
  {
    if actions != [] {
      RunIsAuthored(scheme, keys, actions[..|actions| - 1]);
      StepIsAuthored(scheme, keys, Run(scheme, keys, actions[..|actions| - 1]), actions[|actions| - 1]);
    }
  }

  /** Every append records what it was called with. */
  lemma {:induction false} WritersBegan(scheme: Scheme, keys: Keyring, actions: seq<Action>, id: nat)
    requires id in Run(scheme, keys, actions).writers
    ensures var me := Run(scheme, keys, actions).writers[id]; Begin(id, me.epochId, me.body) in actions
  {
    if actions != [] {
      var front, a := actions[..|actions| - 1], actions[|actions| - 1];
      assert actions == front + [a];
      if id in Run(scheme, keys, front).writers { WritersBegan(scheme, keys, front, id); }
    }
  }

  // ---- What single steps do ----

  /** The only row of a read that no other row of it names as predecessor. */
  predicate OnlyTail(rows: seq<Event>, events: seq<Event>, i: nat) {
    && i < |rows| && !Referenced(events, rows[i].hash)
    && forall j :: 0 <= j < |rows| && j != i ==> Referenced(events, rows[j].hash)
  }

  lemma {:induction false} NoTails(rows: seq<Event>, events: seq<Event>)
    requires forall j :: 0 <= j < |rows| ==> Referenced(events, rows[j].hash)
    ensures Tails(rows, events) == []
  {
    if rows != [] { NoTails(rows[..|rows| - 1], events); }
  }

  lemma {:induction false} OneTailIff(rows: seq<Event>, events: seq<Event>)
    ensures forall i: nat :: OnlyTail(rows, events, i) ==> Tails(rows, events) == [rows[i]]
    ensures |Tails(rows, events)| == 1 ==> exists i: nat :: OnlyTail(rows, events, i)
  {
    if rows != [] {
      var front, n := rows[..|rows| - 1], |rows| - 1;
      OneTailIff(front, events);
      forall i: nat | OnlyTail(rows, events, i) ensures Tails(rows, events) == [rows[i]] {
        if i == n { NoTails(front, events); } else { assert OnlyTail(front, events, i); }
      }
      if |Tails(rows, events)| == 1 {
        if Referenced(events, rows[n].hash) {
          var i: nat :| OnlyTail(front, events, i);
          assert OnlyTail(rows, events, i);
        } else {
          TailsMembers(front, events);
          assert OnlyTail(rows, events, n);
        }
      }
    }
  }

  /** After a read the writer holds the only row without a successor, or nothing yet, or gives up on an ambiguity. */
  lemma ReadLaw(scheme: Scheme, keys: Keyring, w: World, id: nat, rows: seq<Event>)
    requires id in w.writers && w.writers[id].phase.Reading? && StaleRead(w, w.writers[id].epochId, rows)
    ensures var me, t := w.writers[id], Step(scheme, keys, w, Read(id, rows));
      && t == w.(writers := t.writers) && t.writers == w.writers[id := me.(phase := t.writers[id].phase)]
      && (rows == [] ==> t.writers[id].phase == Holding(None, |EpochRows(w.store, me.epochId)|))
      && (forall i: nat :: OnlyTail(rows, rows, i) ==>
            t.writers[id].phase == Holding(Some(rows[i].hash), |EpochRows(w.store, me.epochId)|))
      && (rows != [] && (forall i: nat :: !OnlyTail(rows, rows, i)) ==> t.writers[id].phase == Confused)
  {
    OneTailIff(rows, rows);
  }

  /** A committed row of the writer's epoch already follows the head the writer holds. */
  ghost predicate Collides(w: World, a: Action) {
    && a.Insert? && a.id in w.writers && w.writers[a.id].phase.Holding?
    && exists e :: e in w.store && e.epochId == w.writers[a.id].epochId
                   && Normalize(e.prevHash) == w.writers[a.id].phase.prev
  }

  /** An insert adds one row or costs an attempt; the 25th lost attempt ends the append. */
  lemma InsertLaw(scheme: Scheme, keys: Keyring, w: World, id: nat)
    requires id in w.writers && w.writers[id].phase.Holding?
    ensures var me, t := w.writers[id], Step(scheme, keys, w, Insert(id));
      && t.writers.Keys == w.writers.Keys
      && (forall k :: k in w.writers && k != id ==> t.writers[k] == w.writers[k])
      && if Collides(w, Insert(id)) then
           && t.store == w.store && t.authors == w.authors
           && t.writers[id] == Writer(me.epochId, me.body, me.attempts + 1, me.began,
                                      if me.attempts + 1 < 25 then Reading else Exhausted)
         else
           && |t.store| == |w.store| + 1 && t.store[..|w.store|] == w.store && t.authors == w.authors + [id]
           && t.store[|w.store|].epochId == me.epochId && t.store[|w.store|].body == me.body
           && Normalize(t.store[|w.store|].prevHash) == me.phase.prev
           && t.writers[id] == me.(phase := Committed)
  {
    EpochRowsMembers(w.store, w.writers[id].epochId);
  }

  /** How many inserts of one writer collided. */
  ghost function Collisions(scheme: Scheme, keys: Keyring, actions: seq<Action>, id: nat): nat {
    if actions == [] then 0
    else
      var front, a := actions[..|actions| - 1], actions[|actions| - 1];
      Collisions(scheme, keys, front, id) + if a.id == id && Collides(Run(scheme, keys, front), a) then 1 else 0
  }

  /** Over every run the attempts of an append are its collisions, and it gives up exactly at the 25th. */
  lemma {:induction false} AttemptsAreCollisions(scheme: Scheme, keys: Keyring, actions: seq<Action>, id: nat)
    ensures var w := Run(scheme, keys, actions);
      if id in w.writers then
        && w.writers[id].attempts == Collisions(scheme, keys, actions, id) <= 25
        && (w.writers[id].phase.Exhausted? <==> w.writers[id].attempts == 25)
      else Collisions(scheme, keys, actions, id) == 0
  {
    if actions != [] {
      var front, a := actions[..|actions| - 1], actions[|actions| - 1];
      AttemptsAreCollisions(scheme, keys, front, id);
      var w := Run(scheme, keys, front);
      if a.Insert? && a.id in w.writers && w.writers[a.id].phase.Holding? { InsertLaw(scheme, keys, w, a.id); }
    }
  }

  /** With fresh reads, none of up to 25 appends ever gives up, however they interleave. */
  lemma FewAppendsNeverGiveUp(scheme: Scheme, keys: Keyring, actions: seq<Action>, id: nat)
    requires CollisionFree(scheme) && FreshReads(scheme, keys, actions)
    requires var w := Run(scheme, keys, actions); id in w.writers && |w.writers| <= MAX_CHAIN_APPEND_ATTEMPTS
    ensures !Run(scheme, keys, actions).writers[id].phase.Exhausted?
  {
    var w := Run(scheme, keys, actions);
    RetryBound(scheme, keys, actions, id);
    RunIsAuthored(scheme, keys, actions);
    forall k | k in w.authors ensures k in w.writers { AuthorsHaveCommitted(w, k); }
    if id in w.authors {
      AuthorsHaveCommitted(w, id);
    } else {
      NoRepeatsSize(w.authors);
      assert Elements(w.authors) <= w.writers.Keys - {id};
      SubsetSize(Elements(w.authors), w.writers.Keys - {id});
      assert |w.store| < |w.writers|;
    }
  }
}
