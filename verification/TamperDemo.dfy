/** The tamper demonstration: a second verifier that ignores signatures, and an edit it is bound to notice. */
module TamperDemo {
  import opened Prelude
  import opened CanonicalPayload
  import opened AuditEvents
  import opened ChainVerifier
  import opened ChainRepair

  datatype DemoVerdict =
    | Sound(checked: nat)
    | Faulty(checked: nat, firstBrokenIndex: nat, fault: Fault)

  /** i is the first event whose hash or link is wrong, and `fault` says which of the two is reported. */
  ghost predicate FirstBreak(scheme: Scheme, events: seq<Event>, i: nat, fault: Fault) {
    && i < |events|
    && Intact(scheme, events[..i])
    && (if HashOk(scheme, events, i) then !LinkOk(events, i) && fault == LinkMismatch else fault == HashMismatch)
  }

  ghost predicate IsDemoVerdict(scheme: Scheme, events: seq<Event>, d: DemoVerdict) {
    match d
    case Sound(checked) => checked == |events| && Intact(scheme, events)
    case Faulty(checked, i, fault) => checked == i + 1 && FirstBreak(scheme, events, i, fault)
  }

  method VerifyAuditChain(scheme: Scheme, events: seq<Event>) returns (d: DemoVerdict)
    ensures IsDemoVerdict(scheme, events, d)
  {
    for i := 0 to |events|
      invariant Intact(scheme, events[..i])
    {
      var prev := if i == 0 then None else Some(events[i - 1].hash);
      if events[i].hash != ComputeHash(scheme, prev, scheme.canon(events[i].body)) {
        assert !HashOk(scheme, events, i);
        return Faulty(i + 1, i, HashMismatch);
      }
      assert HashOk(scheme, events, i);
      if events[i].prevHash != LinkTo(prev) {
        assert !LinkOk(events, i);
        return Faulty(i + 1, i, LinkMismatch);
      }
      assert events[..i + 1] == events[..i] + [events[i]];
      IntactAppend(scheme, events[..i], events[i]);
    }
    assert events[..|events|] == events;
    d := Sound(|events|);
  }

  lemma FirstBreakRefutes(scheme: Scheme, events: seq<Event>, i: nat, fault: Fault)
    requires FirstBreak(scheme, events, i, fault)
    ensures !Intact(scheme, events)
    ensures forall k :: 0 <= k < i ==> HashOk(scheme, events, k) && LinkOk(events, k)
  {
    forall k | 0 <= k < i ensures HashOk(scheme, events, k) && LinkOk(events, k) {
      assert HashOk(scheme, events[..i], k) && LinkOk(events[..i], k);
      assert Before(events[..i], k) == Before(events, k);
    }
    assert !HashOk(scheme, events, i) || !LinkOk(events, i);
  }

  lemma SoundIffIntact(scheme: Scheme, events: seq<Event>, d: DemoVerdict)
    requires IsDemoVerdict(scheme, events, d)
    ensures d.Sound? <==> Intact(scheme, events)
  {
    if d.Faulty? { FirstBreakRefutes(scheme, events, d.firstBrokenIndex, d.fault); }
  }

  /**
   * The two verifiers agree up to signatures: the service accepts what the demonstration accepts and signs
   * correctly, a fault in hash or link is reported by both at the same event, and only a bad signature makes the
   * service stop earlier.
   */
  lemma VerifiersAgree(scheme: Scheme, keys: Keyring, events: seq<Event>, v: Verdict, d: DemoVerdict)
    requires IsVerdict(scheme, keys, events, v) && IsDemoVerdict(scheme, events, d)
    ensures v.Valid? <==> d.Sound? && forall i :: 0 <= i < |events| ==> SignatureOk(scheme, keys, events[i])
    ensures v.Valid? ==> v.checked == d.checked
    ensures v.Broken? && v.fault != SignatureMismatch ==>
      d == Faulty(v.checked, v.firstBrokenIndex, v.fault)
    ensures v.Broken? && v.fault == SignatureMismatch && d.Faulty? ==> v.firstBrokenIndex < d.firstBrokenIndex
  {
    if v.Valid? {
      AcceptedIsIntact(scheme, keys, events);
      forall i | 0 <= i < |events| ensures SignatureOk(scheme, keys, events[i]) {
        assert EventOk(scheme, keys, events, i);
      }
      SoundIffIntact(scheme, events, d);
    } else {
      var i := v.firstBrokenIndex;
      assert !EventOk(scheme, keys, events, i);
      forall k | 0 <= k < i ensures HashOk(scheme, events, k) && LinkOk(events, k) {
        assert EventOk(scheme, keys, events, k);
      }
      if d.Faulty? {
        FirstBreakRefutes(scheme, events, d.firstBrokenIndex, d.fault);
      } else {
        assert HashOk(scheme, events, i) && LinkOk(events, i);
      }
    }
  }

  // ---- The edit ----

  datatype Target = NotEnough(found: nat) | Index(i: nat)

  const MIN_EVENTS_FOR_TAMPER := 2

  /** The event before the head; it has a successor, so the edit is not one at the end of the chain. */
  function SelectNonHeadTamperTarget(events: seq<Event>): (t: Target)
    ensures t.NotEnough? <==> |events| < MIN_EVENTS_FOR_TAMPER
    ensures t.Index? ==> t.i + 1 < |events| && events[t.i + 1..] == [events[|events| - 1]]
  {
    if |events| < MIN_EVENTS_FOR_TAMPER then NotEnough(|events|)
    else Index(if |events| - 2 >= 0 then |events| - 2 else 0)
  }

  function TamperedReason(body: Body, now: string): string {
    var current := if body.reason.Absent? || body.reason == Text("") then "none" else ValueText(body.reason);
    current + " | tamper-demo " + now
  }

  function Tampered(e: Event, now: string): Event {
    e.(body := e.body.(reason := Text(TamperedReason(e.body, now))))
  }

  /** The edit changes the reason and nothing else. */
  lemma ReasonIsExtended(e: Event, now: string)
    ensures var reason := (match e.body.reason
      case Absent => "none"
      case Text(s) => if |s| == 0 then "none" else s
      case Listed(items) => Join(",", items)) + " | tamper-demo " + now;
      Tampered(e, now) == e.(body := e.body.(reason := Text(reason)))
  {
  }

  lemma {:induction false} RestGrows(keys: seq<string>, texts: seq<string>, i: nat, t: string)
    requires |keys| == |texts| && i < |keys|
    ensures |Rest(keys, texts[i := t])| == |Rest(keys, texts)| - |texts[i]| + |t|
  {
    if i == 0 {
      assert texts[0 := t][1..] == texts[1..];
    } else {
      assert texts[i := t][1..] == texts[1..][i - 1 := t];
      RestGrows(keys[1..], texts[1..], i - 1, t);
    }
  }

  /** The appended marker makes the canonical payload longer, so the edit is never invisible. */
  lemma TamperShows(body: Body, now: string)
    ensures Canonical(body) != Canonical(body.(reason := Text(TamperedReason(body, now))))
  {
    var edited := body.(reason := Text(TamperedReason(body, now)));
    var keys, i := Keys(body), |Keys(body)| - 6;
    assert Keys(edited) == keys;
    assert Texts(body)[i] == ValueText(body.reason);
    assert Texts(edited) == Texts(body)[i := TamperedReason(body, now)];
    assert Texts(edited)[1..] == Texts(body)[1..][i - 1 := TamperedReason(body, now)];
    RestGrows(keys[1..], Texts(body)[1..], i - 1, TamperedReason(body, now));
    SameReadingSamePayload(keys, Texts(body), keys, Texts(edited));
  }

  /** Editing one body of an intact chain is found at that event. */
  lemma EditIsFound(scheme: Scheme, events: seq<Event>, k: nat, edited: Event, d: DemoVerdict)
    requires CollisionFree(scheme) && Intact(scheme, events)
    requires k < |events| && edited == events[k].(body := edited.body)
    requires scheme.canon(edited.body) != scheme.canon(events[k].body)
    requires IsDemoVerdict(scheme, events[k := edited], d)
    ensures d == Faulty(k + 1, k, HashMismatch)
  {
    var after := events[k := edited];
    assert HashOk(scheme, events, k);
    assert Before(after, k) == Before(events, k);
    if 0 < k {
      assert HashOk(scheme, events, k - 1);
      HashIsDigest(scheme, events, k - 1);
    }
    if HashOk(scheme, after, k) {
      HashCommitsToInputs(scheme, Before(events, k), scheme.canon(edited.body),
                          Before(events, k), scheme.canon(events[k].body));
    }
    assert !Intact(scheme, after);
    forall i | 0 <= i < k ensures HashOk(scheme, after, i) && LinkOk(after, i) {
      assert HashOk(scheme, events, i) && LinkOk(events, i);
      assert Before(after, i) == Before(events, i);
    }
    FirstBreakRefutes(scheme, after, d.firstBrokenIndex, d.fault);
  }

  datatype DemoOutcome =
    | AlreadyInvalid(before: DemoVerdict)
    | TooFew(found: nat)
    | DryRun(target: nat)
    | Broke(target: nat, after: DemoVerdict)
    | NotNoticed(target: nat)

  /** The collection the demonstration edits; rows are listed in the order (timestamp, key) of its query. */
  class Demo {
    var rows: seq<Row>

    constructor (rows: seq<Row>)
      requires DistinctIds(rows)
      ensures this.rows == rows
    {
      this.rows := rows;
    }

    /**
     * The whole demonstration. An edit is applied only to a valid list of at least two events, it changes the
     * reason of the last but one and nothing else, and it never goes unnoticed: the second verification stops at
     * exactly the edited event.
     */
    method RunDemo(scheme: Scheme, apply: bool, limit: nat, now: string) returns (r: DemoOutcome)
      requires DistinctIds(rows) && limit >= MIN_EVENTS_FOR_TAMPER
      requires CollisionFree(scheme) && scheme.canon == Canonical
      modifies this
      ensures DistinctIds(rows)
      ensures var loaded := old(Events(rows[..Min(limit, |rows|)]));
        && (r.AlreadyInvalid? <==> !Intact(scheme, loaded))
        && (r.TooFew? <==> Intact(scheme, loaded) && |loaded| < 2)
        && (r.DryRun? <==> Intact(scheme, loaded) && |loaded| >= 2 && !apply)
        && (r.Broke? <==> Intact(scheme, loaded) && |loaded| >= 2 && apply)
      ensures !r.Broke? ==> rows == old(rows)
      ensures r.Broke? ==>
        && r.target == Min(limit, |old(rows)|) - 2
        && rows == old(rows)[r.target := Row(old(rows)[r.target].id, Tampered(old(rows)[r.target].event, now))]
        && r.after == Faulty(r.target + 1, r.target, HashMismatch)
    {
      var loaded := Events(rows[..Min(limit, |rows|)]);
      var before := VerifyAuditChain(scheme, loaded);
      if before.Faulty? {
        FirstBreakRefutes(scheme, loaded, before.firstBrokenIndex, before.fault);
        return AlreadyInvalid(before);
      }
      if |loaded| < MIN_EVENTS_FOR_TAMPER {
        return TooFew(|loaded|);
      }
      var k := SelectNonHeadTamperTarget(loaded).i;
      if !apply {
        return DemoOutcome.DryRun(k);
      }
      var edited := Tampered(loaded[k], now);
      UpdateReason(rows[k].id, k, edited);
      var again := Events(rows[..Min(limit, |rows|)]);
      assert again == loaded[k := edited];
      var after := VerifyAuditChain(scheme, again);
      TamperShows(loaded[k].body, now);
      EditIsFound(scheme, loaded, k, edited, after);
      r := if after.Faulty? then Broke(k, after) else NotNoticed(k);
    }

    /** Write the edited event to the one row with the given key, which is the row at position k. */
    method UpdateReason(id: nat, ghost k: nat, edited: Event)
      requires DistinctIds(rows) && k < |rows| && rows[k].id == id
      modifies this
      ensures DistinctIds(rows)
      ensures rows == old(rows)[k := Row(id, edited)]
    {
      for i := 0 to |rows|
        invariant rows == old(rows) && i <= k
      {
        if rows[i].id == id {
          SameIdSamePlace(rows, i, k);
          rows := rows[i := Row(id, edited)];
          SameIdsDistinct(old(rows), rows);
          return;
        }
      }
    }
  }
}
