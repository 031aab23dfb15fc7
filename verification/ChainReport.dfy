/** Verification of one epoch as the service runs it: reorder the rows, then check the first `limit` of them. */
module ChainReport {
  import opened Prelude
  import opened CanonicalPayload
  import opened AuditEvents
  import opened ChainVerifier
  import opened ChainOrder
  import opened AppendProtocol

  datatype Report =
    | Misordered(checked: nat, error: OrderError)
    | Sequenced(verdict: Verdict)
  {
    predicate IsValid() {
      Sequenced? && verdict.Valid?
    }
  }

  /** A bag of rows passes verification: it has a chain order whose first `limit` events are accepted. */
  ghost predicate Trusted(scheme: Scheme, keys: Keyring, rows: seq<Event>, limit: nat) {
    DistinctIdentities(rows)
    && exists p :: Orders(p, rows) && Accepts(scheme, keys, p[..Min(limit, |p|)])
  }

  /** Exactly what verification may answer about a bag of rows. */
  ghost predicate IsReport(scheme: Scheme, keys: Keyring, rows: seq<Event>, limit: nat, r: Report) {
    match r
    case Misordered(checked, error) => !Chainable(rows) && exists w :: Justified(rows, w, error) && |w| == checked
    case Sequenced(verdict) =>
      exists p :: DistinctIdentities(rows) && Orders(p, rows) && IsVerdict(scheme, keys, p[..Min(limit, |p|)], verdict)
  }

  method VerifyRows(scheme: Scheme, keys: Keyring, rows: seq<Event>, limit: nat) returns (r: Report)
    ensures r.IsValid() <==> Trusted(scheme, keys, rows, limit)
    ensures IsReport(scheme, keys, rows, limit, r)
  {
    var ordered := OrderEventsByChain(rows);
    match ordered.error {
      case Some(error) =>
        var checked := match error
          case DuplicateIdentity(_) => 0
          case GenesisCount(_) => 0
          case _ => |ordered.events|;
        r := Misordered(checked, error);
        assert Justified(rows, ordered.events, error);
      case None =>
        var p := ordered.events;
        var verdict := VerifyEventSequence(scheme, keys, p[..Min(limit, |p|)]);
        r := Sequenced(verdict);
        forall q | Orders(q, rows) ensures q == p { OrderIsUnique(rows, p, q); }
        BrokenRefutes(scheme, keys, p[..Min(limit, |p|)], verdict);
    }
  }

  /** The report says which chain order it judged: any other reading of the rows gives the same verdict. */
  lemma ReportIsUnique(scheme: Scheme, keys: Keyring, rows: seq<Event>, limit: nat, r: Report, p: seq<Event>)
    requires IsReport(scheme, keys, rows, limit, r)
    ensures r.Misordered? <==> !Chainable(rows)
    ensures r.Sequenced? && Orders(p, rows) ==> IsVerdict(scheme, keys, p[..Min(limit, |p|)], r.verdict)
  {
    if r.Sequenced? && Orders(p, rows) {
      var q: seq<Event> :| Orders(q, rows) && IsVerdict(scheme, keys, q[..Min(limit, |q|)], r.verdict);
      OrderIsUnique(rows, p, q);
    }
  }

  /** What a failed verification records of the break: index, event and last trusted hash, as far as it knows them. */
  datatype Break = Break(firstBrokenIndex: nat, firstBrokenEventId: Value, lastTrustedHash: Option<string>)

  function BreakOf(r: Report): Break {
    match r
    case Sequenced(Broken(_, i, eventId, trusted, _)) => Break(i, eventId, trusted)
    case Misordered(_, Cycle(at)) => Break(0, at.body.eventId, None)
    case Misordered(_, Fork(after, _)) => Break(0, after.body.eventId, Some(after.hash))
    case Misordered(_, Disconnected(_, first)) => Break(0, first.body.eventId, None)
    case _ => Break(0, Absent, None)
  }

  /** Which row a failed ordering points at, and which hash it still trusts. */
  predicate PointsAt(error: OrderError, found: Break) {
    && found.firstBrokenIndex == 0
    && match error
       case DuplicateIdentity(_) => found.firstBrokenEventId == Absent && found.lastTrustedHash == None
       case GenesisCount(_) => found.firstBrokenEventId == Absent && found.lastTrustedHash == None
       case Cycle(at) => found.firstBrokenEventId == at.body.eventId && found.lastTrustedHash == None
       case Fork(after, _) =>
         found.firstBrokenEventId == after.body.eventId && found.lastTrustedHash == Some(after.hash)
       case Disconnected(_, first) => found.firstBrokenEventId == first.body.eventId && found.lastTrustedHash == None
  }

  /** The break is the first fault of the chain, with its event and the hash before it. */
  ghost predicate IsFirstFault(scheme: Scheme, keys: Keyring, chain: seq<Event>, found: Break) {
    var i := found.firstBrokenIndex;
    && FirstFault(scheme, keys, chain, i)
    && found.firstBrokenEventId == chain[i].body.eventId
    && found.lastTrustedHash == (if i == 0 then None else Some(chain[i - 1].hash))
  }

  ghost predicate OrderFails(rows: seq<Event>, walked: seq<Event>, error: OrderError, found: Break) {
    Justified(rows, walked, error) && PointsAt(error, found)
  }

  /**
   * What is recorded of rows that do not verify: the first fault among the first `limit` events of their chain order,
   * or, if they have none, the row at which ordering them failed.
   */
  ghost predicate FoundBreak(scheme: Scheme, keys: Keyring, rows: seq<Event>, limit: nat, found: Break) {
    if Chainable(rows)
    then forall p :: Orders(p, rows) ==> IsFirstFault(scheme, keys, p[..Min(limit, |p|)], found)
    else exists walked, error :: OrderFails(rows, walked, error, found)
  }

  lemma BreakIsFound(scheme: Scheme, keys: Keyring, rows: seq<Event>, limit: nat, r: Report)
    requires IsReport(scheme, keys, rows, limit, r) && !r.IsValid()
    ensures FoundBreak(scheme, keys, rows, limit, BreakOf(r))
  {
    if r.Misordered? {
      var walked: seq<Event> :| Justified(rows, walked, r.error) && |walked| == r.checked;
      ErrorPoints(r);
      assert OrderFails(rows, walked, r.error, BreakOf(r));
    } else {
      assert Chainable(rows);
      forall p: seq<Event> | Orders(p, rows) ensures IsFirstFault(scheme, keys, p[..Min(limit, |p|)], BreakOf(r)) {
        ReportIsUnique(scheme, keys, rows, limit, r, p);
        VerdictPoints(scheme, keys, p[..Min(limit, |p|)], r);
      }
    }
  }

  lemma ErrorPoints(r: Report)
    requires r.Misordered?
    ensures PointsAt(r.error, BreakOf(r))
  {
  }

  lemma VerdictPoints(scheme: Scheme, keys: Keyring, chain: seq<Event>, r: Report)
    requires r.Sequenced? && r.verdict.Broken? && IsVerdict(scheme, keys, chain, r.verdict)
    ensures IsFirstFault(scheme, keys, chain, BreakOf(r))
  {
  }

  /** A verdict depends on the bag of rows only, not on the order in which the store returns them. */
  lemma TrustIgnoresRowOrder(scheme: Scheme, keys: Keyring, a: seq<Event>, b: seq<Event>, limit: nat)
    requires multiset(a) == multiset(b)
    ensures Trusted(scheme, keys, a, limit) <==> Trusted(scheme, keys, b, limit)
    ensures Chainable(a) <==> Chainable(b)
  {
    if DistinctIdentities(a) { IdentitiesPermute(a, b); }
    if DistinctIdentities(b) { IdentitiesPermute(b, a); }
    forall p: seq<Event> ensures Orders(p, a) <==> Orders(p, b) {}
  }

  lemma IdentitiesPermute(a: seq<Event>, b: seq<Event>)
    requires multiset(a) == multiset(b)
    requires DistinctIdentities(a)
    ensures DistinctIdentities(b)
  {
    IdentityNoRepeats(a);
    PermutationNoRepeats(a, b);
    forall i, j | 0 <= i < j < |b| ensures Differ(Identities(b), i, j) {
      PermutationMembers(a, b, b[i]);
      PermutationMembers(a, b, b[j]);
      assert Differ(b, i, j);
      if Identity(b[i]) == Identity(b[j]) {
        SameIdentity(a, b[i], b[j]);
      }
    }
  }

  /** Rows whose signatures were made by this keyring, or that carry none. */
  ghost predicate SignaturesOk(scheme: Scheme, keys: Keyring, rows: seq<Event>) {
    forall e :: e in rows ==> SignatureOk(scheme, keys, e)
  }

  /** An event signed at insertion passes the signature check under the same keyring. */
  lemma OwnSignatureOk(scheme: Scheme, keys: Keyring, e: Event, prev: Option<string>)
    requires e == NewEvent(scheme, keys, e.epochId, e.body, prev)
    ensures SignatureOk(scheme, keys, e)
    ensures CountsAsSigned(keys, e) <==> keys.Signing().Some? && scheme.mac(e.hash, keys.Signing().value.1) != ""
  {
  }

  /** An intact chain with distinct identities and good signatures is trusted, and its one order is the chain itself. */
  lemma IntactIsTrusted(scheme: Scheme, keys: Keyring, chain: seq<Event>, rows: seq<Event>, limit: nat)
    requires CollisionFree(scheme) && Intact(scheme, chain)
    requires DistinctIdentities(chain) && SignaturesOk(scheme, keys, chain)
    requires multiset(rows) == multiset(chain)
    ensures Orders(chain, rows) && Chainable(rows)
    ensures Accepts(scheme, keys, chain[..Min(limit, |chain|)])
    ensures Trusted(scheme, keys, rows, limit)
  {
    IntactIsOrdered(scheme, chain);
    IdentitiesPermute(chain, rows);
    var n := Min(limit, |chain|);
    IntactPrefix(scheme, chain, n);
    forall i | 0 <= i < n ensures EventOk(scheme, keys, chain[..n], i) {
      assert HashOk(scheme, chain[..n], i) && LinkOk(chain[..n], i);
      assert chain[i] in chain;
    }
    assert Orders(chain, rows);
  }

  /** A row signed with the given secret under the given key id, or not at all if that signature is empty text. */
  predicate CarriesSignature(scheme: Scheme, e: Event, kid: Option<string>, secret: string) {
    var signature := scheme.mac(e.hash, secret);
    if signature == "" then e.signature.None? && e.signatureKid.None?
    else e.signature == Some(signature) && e.signatureKid == kid
  }

  /**
   * What the configuration asks of a new row. A current key id decides alone: the row is signed with the secret under
   * it, or stays unsigned if there is none, even if there is a secret without key id.
   */
  predicate SignedAsConfigured(scheme: Scheme, keys: Keyring, e: Event) {
    var kid := Trim(keys.currentKid);
    if kid != "" then
      if kid in keys.named && Trim(keys.named[kid]) != "" then CarriesSignature(scheme, e, Some(kid), keys.named[kid])
      else e.signature.None? && e.signatureKid.None?
    else if Trim(keys.plain) != "" then CarriesSignature(scheme, e, None, keys.plain)
    else e.signature.None? && e.signatureKid.None?
  }

  /** Every row of every run is signed as configured. */
  lemma {:induction false} RunSignsAsConfigured(scheme: Scheme, keys: Keyring, actions: seq<Action>)
    ensures forall e :: e in Run(scheme, keys, actions).store ==> SignedAsConfigured(scheme, keys, e)
  {
    if actions != [] {
      var front, a := actions[..|actions| - 1], actions[|actions| - 1];
      RunSignsAsConfigured(scheme, keys, front);
      var w, t := Run(scheme, keys, front), Run(scheme, keys, actions);
      if t.store != w.store {
        var me := w.writers[a.id];
        assert t.store == w.store + [NewEvent(scheme, keys, me.epochId, me.body, me.phase.prev)];
        NewEventIsSigned(scheme, keys, me.epochId, me.body, me.phase.prev);
      }
    }
  }

  /** What the service inserts: its hash and link as well as its signature. */
  lemma NewEventIsSigned(scheme: Scheme, keys: Keyring, epochId: string, body: Body, prev: Option<string>)
    ensures var e := NewEvent(scheme, keys, epochId, body, prev);
      && e.epochId == epochId && e.body == body
      && e.prevHash == (match prev case None => Null case Some(h) => Prior(h))
      && e.hash == scheme.sha((match prev case None => "" case Some(h) => h) + "|" + scheme.canon(body))
      && SignedAsConfigured(scheme, keys, e)
  {
  }

  /** Rotating the current key keeps old rows good, as long as the secret they were signed with stays configured. */
  lemma RotationKeepsSignatures(scheme: Scheme, before: Keyring, now: Keyring, e: Event)
    requires SignedAsConfigured(scheme, before, e)
    requires var kid := Trim(before.currentKid);
      if kid != "" then kid in now.named && kid in before.named && now.named[kid] == before.named[kid]
      else now.plain == before.plain
    ensures SignatureOk(scheme, now, e)
  {
    SignatureOkIff(scheme, now, e);
  }

  /** All rows of a run carry the signature this keyring gives them. */
  lemma {:induction false} RunSignaturesOk(scheme: Scheme, keys: Keyring, actions: seq<Action>)
    ensures SignaturesOk(scheme, keys, Run(scheme, keys, actions).store)
  {
    if actions != [] {
      RunSignaturesOk(scheme, keys, actions[..|actions| - 1]);
      StepSignaturesOk(scheme, keys, Run(scheme, keys, actions[..|actions| - 1]), actions[|actions| - 1]);
    }
  }

  lemma StepSignaturesOk(scheme: Scheme, keys: Keyring, w: World, a: Action)
    requires SignaturesOk(scheme, keys, w.store)
    ensures SignaturesOk(scheme, keys, Step(scheme, keys, w, a).store)
  {
    var w' := Step(scheme, keys, w, a);
    if w'.store != w.store {
      var me := w.writers[a.id];
      var e := NewEvent(scheme, keys, me.epochId, me.body, me.phase.prev);
      assert w'.store == w.store + [e];
      OwnSignatureOk(scheme, keys, e, me.phase.prev);
    }
  }

  /**
   * End to end: after any interleaved run whose events in an epoch have distinct ids, verifying these rows in whatever
   * order the store returns them recovers the commit order and accepts min(limit, n) events, none of them uncounted.
   */
  lemma RunVerifies(scheme: Scheme, keys: Keyring, actions: seq<Action>, epochId: string, rows: seq<Event>,
                    limit: nat, ordered: seq<Event>, verdict: Verdict)
    requires CollisionFree(scheme)
    requires var chain := EpochRows(Run(scheme, keys, actions).store, epochId);
      DistinctIdentities(chain) && multiset(rows) == multiset(chain)
    requires Orders(ordered, rows) && IsVerdict(scheme, keys, ordered[..Min(limit, |ordered|)], verdict)
    ensures var chain := EpochRows(Run(scheme, keys, actions).store, epochId);
      && ordered == chain
      && verdict.Valid?
      && verdict.checked == Min(limit, |chain|)
      && verdict.signedCount + verdict.unsignedCount == verdict.checked
      && verdict.signedCount == SignedCount(keys, chain[..Min(limit, |chain|)])
  {
    var chain := EpochRows(Run(scheme, keys, actions).store, epochId);
    RunIsOrderly(scheme, keys, actions, epochId, rows, limit);
    OrderIsUnique(rows, ordered, chain);
    BrokenRefutes(scheme, keys, chain[..Min(limit, |chain|)], verdict);
  }

  /** The commit order is a chain order of the rows, and its first `limit` events are accepted. */
  lemma RunIsOrderly(scheme: Scheme, keys: Keyring, actions: seq<Action>, epochId: string, rows: seq<Event>, limit: nat)
    requires CollisionFree(scheme)
    requires var chain := EpochRows(Run(scheme, keys, actions).store, epochId);
      DistinctIdentities(chain) && multiset(rows) == multiset(chain)
    ensures var chain := EpochRows(Run(scheme, keys, actions).store, epochId);
      && Orders(chain, rows) && Chainable(rows) && Trusted(scheme, keys, rows, limit)
      && Accepts(scheme, keys, chain[..Min(limit, |chain|)])
  {
    var store := Run(scheme, keys, actions).store;
    var chain := EpochRows(store, epochId);
    AppendSafety(scheme, keys, actions);
    assert Intact(scheme, chain);
    RunSignaturesOk(scheme, keys, actions);
    EpochRowsMembers(store, epochId);
    IntactIsTrusted(scheme, keys, chain, rows, limit);
  }

  /** After any run, distinct event ids are exactly what verification of an epoch depends on. */
  lemma RunTrustedIffDistinctIds(scheme: Scheme, keys: Keyring, actions: seq<Action>, epochId: string,
                                 rows: seq<Event>, limit: nat)
    requires CollisionFree(scheme)
    requires multiset(rows) == multiset(EpochRows(Run(scheme, keys, actions).store, epochId))
    ensures Trusted(scheme, keys, rows, limit) <==> DistinctIdentities(rows)
  {
    if DistinctIdentities(rows) {
      var chain := EpochRows(Run(scheme, keys, actions).store, epochId);
      IdentitiesPermute(rows, chain);
      RunIsOrderly(scheme, keys, actions, epochId, rows, limit);
    }
  }

  /** Two appends that carry one caller-supplied event id: both are committed, and the epoch no longer verifies. */
  lemma RepeatedIdIsCommittedButNotTrusted(scheme: Scheme, keys: Keyring, epochId: string, body: Body, limit: nat)
    returns (actions: seq<Action>)
    requires !body.eventId.Absent?
    ensures var store := Run(scheme, keys, actions).store;
      && |store| == 2
      && EpochRows(store, epochId) == store
      && store[0].body == store[1].body == body
      && !Trusted(scheme, keys, store, limit)
  {
    var first := NewEvent(scheme, keys, epochId, body, None);
    var second := NewEvent(scheme, keys, epochId, body, Some(first.hash));
    actions := TwoAppends(scheme, keys, epochId, body);
    TwoRowsWithOneId(first, second);
    NotDistinctNotTrusted(scheme, keys, [first] + [second], limit);
  }

  lemma NotDistinctNotTrusted(scheme: Scheme, keys: Keyring, rows: seq<Event>, limit: nat)
    requires !DistinctIdentities(rows)
    ensures !Trusted(scheme, keys, rows, limit)
  {
  }

  lemma TwoAppends(scheme: Scheme, keys: Keyring, epochId: string, body: Body) returns (actions: seq<Action>)
    ensures var first := NewEvent(scheme, keys, epochId, body, None);
      Run(scheme, keys, actions).store == [first] + [NewEvent(scheme, keys, epochId, body, Some(first.hash))]
  {
    actions := FirstAppend(scheme, keys, epochId, body);
    actions := SecondAppend(scheme, keys, epochId, body, NewEvent(scheme, keys, epochId, body, None), actions);
  }

  lemma FirstAppend(scheme: Scheme, keys: Keyring, epochId: string, body: Body) returns (actions: seq<Action>)
    ensures Run(scheme, keys, actions).store == [NewEvent(scheme, keys, epochId, body, None)]
    ensures Run(scheme, keys, actions).writers.Keys == {0}
  {
    assert Run(scheme, keys, []) == INIT && EpochRows([], epochId) == [];
    assert SelectTail([]) == Empty && HeadSeen([]) == None;
    actions := OneAppend(scheme, keys, [], 0, epochId, body, []);
    assert [] + [NewEvent(scheme, keys, epochId, body, None)] == [NewEvent(scheme, keys, epochId, body, None)];
  }

  lemma SecondAppend(scheme: Scheme, keys: Keyring, epochId: string, body: Body, first: Event, before: seq<Action>)
    returns (actions: seq<Action>)
    requires first.epochId == epochId && first.prevHash == Null
    requires Run(scheme, keys, before).store == [first] && Run(scheme, keys, before).writers.Keys == {0}
    ensures Run(scheme, keys, actions).store == [first] + [NewEvent(scheme, keys, epochId, body, Some(first.hash))]
  {
    OneRow(first);
    assert StaleRead(Run(scheme, keys, before), epochId, [first]);
    actions := OneAppend(scheme, keys, before, 1, epochId, body, [first]);
  }

  lemma TwoRowsWithOneId(a: Event, b: Event)
    requires a.epochId == b.epochId && a.body == b.body && !a.body.eventId.Absent?
    ensures EpochRows([a] + [b], a.epochId) == [a] + [b]
    ensures !DistinctIdentities([a] + [b])
  {
    EpochRowsAppend([], a, a.epochId);
    EpochRowsAppend([a], b, a.epochId);
    assert [] + [a] == [a];
    assert !Differ(Identities([a] + [b]), 0, 1);
  }

  /** Three actions by which a new writer reads the given rows and commits its event, if the head it saw is free. */
  lemma OneAppend(scheme: Scheme, keys: Keyring, actions: seq<Action>, id: nat, epochId: string, body: Body,
                  rows: seq<Event>) returns (after: seq<Action>)
    requires id !in Run(scheme, keys, actions).writers
    requires StaleRead(Run(scheme, keys, actions), epochId, rows)
    requires !SelectTail(rows).Ambiguous?
    requires !KeyTaken(Run(scheme, keys, actions).store, epochId, HeadSeen(rows))
    ensures var w := Run(scheme, keys, actions);
      && Run(scheme, keys, after).store == w.store + [NewEvent(scheme, keys, epochId, body, HeadSeen(rows))]
      && Run(scheme, keys, after).writers.Keys == w.writers.Keys + {id}
  {
    var w := Run(scheme, keys, actions);
    var begun, read := actions + [Begin(id, epochId, body)], actions + [Begin(id, epochId, body)] + [Read(id, rows)];
    var w1 := RunExtends(scheme, keys, actions, Begin(id, epochId, body));
    BeginStep(scheme, keys, w, id, epochId, body);
    var w2 := RunExtends(scheme, keys, begun, Read(id, rows));
    ReadStep(scheme, keys, w1, id, rows);
    var w3 := RunExtends(scheme, keys, read, Insert(id));
    InsertStep(scheme, keys, w2, id);
    after := read + [Insert(id)];
  }

  lemma BeginStep(scheme: Scheme, keys: Keyring, w: World, id: nat, epochId: string, body: Body)
    requires id !in w.writers
    ensures var t := Step(scheme, keys, w, Begin(id, epochId, body));
      && t.store == w.store && t.writers.Keys == w.writers.Keys + {id}
      && t.writers[id].epochId == epochId && t.writers[id].body == body && t.writers[id].phase == Reading
  {
  }

  lemma ReadStep(scheme: Scheme, keys: Keyring, w: World, id: nat, rows: seq<Event>)
    requires id in w.writers && w.writers[id].phase == Reading
    requires StaleRead(w, w.writers[id].epochId, rows) && !SelectTail(rows).Ambiguous?
    ensures var t := Step(scheme, keys, w, Read(id, rows));
      && t.store == w.store && t.writers.Keys == w.writers.Keys
      && t.writers[id].epochId == w.writers[id].epochId && t.writers[id].body == w.writers[id].body
      && t.writers[id].phase.Holding? && t.writers[id].phase.prev == HeadSeen(rows)
  {
  }

  lemma InsertStep(scheme: Scheme, keys: Keyring, w: World, id: nat)
    requires id in w.writers && w.writers[id].phase.Holding?
    requires !KeyTaken(w.store, w.writers[id].epochId, w.writers[id].phase.prev)
    ensures var me, t := w.writers[id], Step(scheme, keys, w, Insert(id));
      && t.store == w.store + [NewEvent(scheme, keys, me.epochId, me.body, me.phase.prev)]
      && t.writers.Keys == w.writers.Keys
  {
  }

  function HeadSeen(rows: seq<Event>): Option<string> {
    match SelectTail(rows)
    case Tail(event) => Some(event.hash)
    case _ => None
  }

  lemma RunExtends(scheme: Scheme, keys: Keyring, actions: seq<Action>, a: Action) returns (w: World)
    ensures w == Run(scheme, keys, actions + [a])
    ensures w == Step(scheme, keys, Run(scheme, keys, actions), a)
  {
    assert (actions + [a])[..|actions|] == actions;
    w := Run(scheme, keys, actions + [a]);
  }

  lemma OneRow(e: Event)
    requires e.prevHash == Null
    ensures EpochRows([e], e.epochId) == [e]
    ensures SelectTail([e]) == Tail(e) && HeadSeen([e]) == Some(e.hash)
    ensures !KeyTaken([e], e.epochId, Some(e.hash))
  {
    EpochRowsAppend([], e, e.epochId);
    assert [] + [e] == [e];
    assert [e][..0] == [];
    assert !Referenced([e], e.hash);
    assert Tails([e], [e]) == [e];
  }
}
