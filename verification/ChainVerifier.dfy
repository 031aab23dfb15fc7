/** The service's sequence verifier, the signing keys it consults, and what a verdict means. */
module ChainVerifier {
  import opened Prelude
  import opened AuditEvents
  import opened CanonicalPayload

  /** The signing environment: a current key id, one secret per key id, and a secret without key id. */
  datatype Keyring = Keyring(currentKid: string, named: map<string, string>, plain: string) {

    function Named(kid: string): Option<string> {
      if kid in named && Trim(named[kid]) != "" then Some(named[kid]) else None
    }

    function Unnamed(): Option<string> {
      if Trim(plain) != "" then Some(plain) else None
    }

    /** Key id and secret used to sign new events, if any is configured. */
    function Signing(): Option<(Option<string>, string)> {
      var kid := Trim(currentKid);
      if kid != "" then
        match Named(kid)
        case Some(secret) => Some((Some(kid), secret))
        case None => None
      else
        match Unnamed()
        case Some(secret) => Some((None, secret))
        case None => None
    }

    /** The secret to check a stored signature with. */
    function Verifying(kid: Option<string>): Option<string> {
      if kid.Some? && kid.value != "" then Named(kid.value) else Unnamed()
    }
  }

  /** An event counts as carrying a signature only if the text is non-empty. */
  predicate Signed(e: Event) {
    e.signature.Some? && e.signature.value != ""
  }

  /** A signature under a known secret must be the recomputed one; anything else is not judged. */
  predicate SignatureOk(scheme: Scheme, keys: Keyring, e: Event) {
    Signed(e) && keys.Verifying(e.signatureKid).Some?
    ==> e.signature.value == scheme.mac(e.hash, keys.Verifying(e.signatureKid).value)
  }

  predicate CountsAsSigned(keys: Keyring, e: Event) {
    Signed(e) && keys.Verifying(e.signatureKid).Some?
  }

  function SignedCount(keys: Keyring, events: seq<Event>): (n: nat)
    ensures n <= |events|
  {
    if events == [] then 0
    else SignedCount(keys, events[..|events| - 1]) + if CountsAsSigned(keys, events[|events| - 1]) then 1 else 0
  }

  /** The count is that of the events whose signature can be checked. */
  lemma {:induction false} SignedCountIs(keys: Keyring, events: seq<Event>)
    ensures SignedCount(keys, events) == |set i | 0 <= i < |events| && CountsAsSigned(keys, events[i])|
  {
    if events != [] {
      var n := |events| - 1;
      SignedCountIs(keys, events[..n]);
      var before := set i | 0 <= i < n && CountsAsSigned(keys, events[..n][i]);
      var all := set i | 0 <= i < |events| && CountsAsSigned(keys, events[i]);
      assert all == if CountsAsSigned(keys, events[n]) then before + {n} else before;
    }
  }

  datatype Fault = HashMismatch | LinkMismatch | SignatureMismatch

  datatype Verdict =
    | Valid(checked: nat, signedCount: nat, unsignedCount: nat)
    | Broken(checked: nat, firstBrokenIndex: nat, firstBrokenEventId: Value, lastTrustedHash: Option<string>,
             fault: Fault)

  predicate EventOk(scheme: Scheme, keys: Keyring, events: seq<Event>, i: nat)
    requires i < |events|
  {
    HashOk(scheme, events, i) && LinkOk(events, i) && SignatureOk(scheme, keys, events[i])
  }

  ghost predicate Accepts(scheme: Scheme, keys: Keyring, events: seq<Event>) {
    forall i :: 0 <= i < |events| ==> EventOk(scheme, keys, events, i)
  }

  /** The signature check in terms of the configuration: which secret it uses, and what passes without one. */
  lemma SignatureOkIff(scheme: Scheme, keys: Keyring, e: Event)
    ensures SignatureOk(scheme, keys, e) <==>
      if e.signature.None? || e.signature.value == "" then true
      else if e.signatureKid.Some? && e.signatureKid.value != "" then
        var kid := e.signatureKid.value;
        kid in keys.named && Trim(keys.named[kid]) != "" ==> e.signature.value == scheme.mac(e.hash, keys.named[kid])
      else
        Trim(keys.plain) != "" ==> e.signature.value == scheme.mac(e.hash, keys.plain)
    ensures CountsAsSigned(keys, e) <==>
      && e.signature.Some? && e.signature.value != ""
      && (if e.signatureKid.Some? && e.signatureKid.value != ""
          then e.signatureKid.value in keys.named && Trim(keys.named[e.signatureKid.value]) != ""
          else Trim(keys.plain) != "")
  {
  }

  /** i is the least position at which an event fails some check. */
  ghost predicate FirstFault(scheme: Scheme, keys: Keyring, events: seq<Event>, i: nat) {
    && i < |events|
    && !EventOk(scheme, keys, events, i)
    && forall k :: 0 <= k < i ==> EventOk(scheme, keys, events, k)
  }

  /** Exactly what the verifier may answer about a sequence. */
  ghost predicate IsVerdict(scheme: Scheme, keys: Keyring, events: seq<Event>, v: Verdict) {
    match v
    case Valid(checked, signedCount, unsignedCount) =>
      && Accepts(scheme, keys, events)
      && checked == |events|
      && signedCount == SignedCount(keys, events)
      && signedCount + unsignedCount == checked
    case Broken(checked, i, eventId, trusted, fault) =>
      && FirstFault(scheme, keys, events, i)
      && checked == i + 1
      && eventId == events[i].body.eventId
      && trusted == Before(events, i)
      && (fault == HashMismatch <==> !HashOk(scheme, events, i))
      && (fault == LinkMismatch <==> HashOk(scheme, events, i) && !LinkOk(events, i))
  }

  method VerifyEventSequence(scheme: Scheme, keys: Keyring, events: seq<Event>) returns (v: Verdict)
    ensures IsVerdict(scheme, keys, events, v)
  {
    var signedCount, unsignedCount := 0, 0;
    for i := 0 to |events|
      invariant forall k :: 0 <= k < i ==> EventOk(scheme, keys, events, k)
      invariant signedCount == SignedCount(keys, events[..i])
      invariant signedCount + unsignedCount == i
    {
      var event := events[i];
      var prev := if i == 0 then None else Some(events[i - 1].hash);
      var expectedHash := ComputeHash(scheme, prev, scheme.canon(event.body));
      if event.hash != expectedHash {
        assert !HashOk(scheme, events, i);
        return Broken(i + 1, i, event.body.eventId, prev, HashMismatch);
      }
      if event.prevHash != LinkTo(prev) {
        assert HashOk(scheme, events, i) && !LinkOk(events, i);
        return Broken(i + 1, i, event.body.eventId, prev, LinkMismatch);
      }
      assert HashOk(scheme, events, i) && LinkOk(events, i);
      if Signed(event) {
        var secret := keys.Verifying(event.signatureKid);
        if secret.None? {
          unsignedCount := unsignedCount + 1;
        } else if scheme.mac(event.hash, secret.value) != event.signature.value {
          assert !SignatureOk(scheme, keys, event);
          return Broken(i + 1, i, event.body.eventId, prev, SignatureMismatch);
        } else {
          signedCount := signedCount + 1;
        }
      } else {
        unsignedCount := unsignedCount + 1;
      }
      assert EventOk(scheme, keys, events, i);
      assert events[..i + 1][..i] == events[..i];
    }
    assert events[..|events|] == events;
    v := Valid(|events|, signedCount, unsignedCount);
  }

  /** The verdict is a function of the sequence: no second answer satisfies its specification. */
  lemma VerdictIsUnique(scheme: Scheme, keys: Keyring, events: seq<Event>, v: Verdict, w: Verdict)
    requires IsVerdict(scheme, keys, events, v) && IsVerdict(scheme, keys, events, w)
    ensures v == w
  {
    BrokenRefutes(scheme, keys, events, v);
    BrokenRefutes(scheme, keys, events, w);
    if v.Broken? && w.Broken? {
      FirstFaultIsUnique(scheme, keys, events, v.firstBrokenIndex, w.firstBrokenIndex);
    }
  }

  lemma BrokenRefutes(scheme: Scheme, keys: Keyring, events: seq<Event>, v: Verdict)
    requires IsVerdict(scheme, keys, events, v)
    ensures v.Valid? <==> Accepts(scheme, keys, events)
  {
    if v.Broken? {
      assert !EventOk(scheme, keys, events, v.firstBrokenIndex);
    }
  }

  lemma FirstFaultIsUnique(scheme: Scheme, keys: Keyring, events: seq<Event>, i: nat, j: nat)
    requires FirstFault(scheme, keys, events, i) && FirstFault(scheme, keys, events, j)
    ensures i == j
  {
    assert !(i < j) && !(j < i);
  }

  /** Two accepted sequences with one head hash hold the same payloads, hashes and links throughout. */
  lemma AcceptedHeadCommitment(scheme: Scheme, keys: Keyring, a: seq<Event>, b: seq<Event>)
    requires CollisionFree(scheme)
    requires Accepts(scheme, keys, a) && Accepts(scheme, keys, b)
    requires a != [] && b != [] && a[|a| - 1].hash == b[|b| - 1].hash
    ensures |a| == |b|
    ensures forall k :: 0 <= k < |a| ==>
      scheme.canon(a[k].body) == scheme.canon(b[k].body) && a[k].hash == b[k].hash && a[k].prevHash == b[k].prevHash
  {
    AcceptedIsIntact(scheme, keys, a);
    AcceptedIsIntact(scheme, keys, b);
    HeadCommitment(scheme, a, b);
  }

  ghost predicate SameRecords(a: seq<Event>, b: seq<Event>) {
    |a| == |b| && forall k :: 0 <= k < |a| ==> SameRecord(a[k].body, b[k].body)
  }

  ghost predicate Parsed(events: seq<Event>) {
    forall k :: 0 <= k < |events| ==> ParsedMetadata(events[k].body)
  }

  /** Another accepted sequence with the same head hash that records something else. */
  ghost predicate RecordsOtherwise(scheme: Scheme, keys: Keyring, a: seq<Event>, b: seq<Event>)
    requires a != []
  {
    && Accepts(scheme, keys, b) && Parsed(b)
    && b != [] && b[|b| - 1].hash == a[|a| - 1].hash
    && !SameRecords(a, b)
  }

  ghost predicate TwinAt(events: seq<Event>, k: nat) {
    k < |events| && HasEventTwin(events[k].body)
  }

  /**
   * In the terms of the events themselves: under the service's canonical form, a head hash determines all recorded
   * fields of an accepted sequence exactly if none of its events has a twin.
   */
  lemma AcceptedHeadDeterminesRecords(scheme: Scheme, keys: Keyring, a: seq<Event>)
    requires CollisionFree(scheme) && scheme.canon == Canonical
    requires Accepts(scheme, keys, a) && Parsed(a) && a != []
    ensures (exists b: seq<Event> :: RecordsOtherwise(scheme, keys, a, b)) <==> (exists k: nat :: TwinAt(a, k))
  {
    if b: seq<Event> :| RecordsOtherwise(scheme, keys, a, b) {
      AcceptedHeadCommitment(scheme, keys, a, b);
      var k: nat :| k < |a| && !SameRecord(a[k].body, b[k].body);
      assert IsEventTwin(a[k].body, b[k].body);
      assert TwinAt(a, k);
    }
    if k: nat :| TwinAt(a, k) {
      var other: Body :| IsEventTwin(a[k].body, other);
      SwapTwin(scheme, keys, a, k, other);
    }
  }

  lemma SwapTwin(scheme: Scheme, keys: Keyring, a: seq<Event>, k: nat, other: Body)
    requires CollisionFree(scheme) && scheme.canon == Canonical
    requires Accepts(scheme, keys, a) && Parsed(a) && k < |a| && IsEventTwin(a[k].body, other)
    ensures RecordsOtherwise(scheme, keys, a, Swapped(a, k, other))
  {
    assert scheme.canon(other) == scheme.canon(a[k].body);
    SwappedIsAccepted(scheme, keys, a, k, other);
    SwappedRecordsOtherwise(a, k, other);
  }

  /** The events with the body of one of them exchanged. */
  function Swapped(a: seq<Event>, k: nat, other: Body): seq<Event>
    requires k < |a|
  {
    a[k := a[k].(body := other)]
  }

  lemma SwappedIsAccepted(scheme: Scheme, keys: Keyring, a: seq<Event>, k: nat, other: Body)
    requires CollisionFree(scheme) && Accepts(scheme, keys, a)
    requires k < |a| && scheme.canon(other) == scheme.canon(a[k].body)
    ensures Accepts(scheme, keys, Swapped(a, k, other))
    ensures Swapped(a, k, other)[|a| - 1].hash == a[|a| - 1].hash
  {
    forall i | 0 <= i < |a| ensures EventOk(scheme, keys, Swapped(a, k, other), i) {
      assert OnlyBodyEdited(a, Swapped(a, k, other), i);
      EditedAt(scheme, keys, a, Swapped(a, k, other), i);
    }
  }

  lemma SwappedRecordsOtherwise(a: seq<Event>, k: nat, other: Body)
    requires k < |a| && Parsed(a) && ParsedMetadata(other) && !SameRecord(other, a[k].body)
    ensures Parsed(Swapped(a, k, other)) && !SameRecords(a, Swapped(a, k, other))
  {
    assert !SameRecord(a[k].body, Swapped(a, k, other)[k].body);
  }

  /** Whatever metadata they carry, two accepted sequences without separators in their texts are told apart. */
  lemma CleanHeadsAgree(scheme: Scheme, keys: Keyring, a: seq<Event>, b: seq<Event>)
    requires CollisionFree(scheme) && scheme.canon == Canonical
    requires Accepts(scheme, keys, a) && Accepts(scheme, keys, b)
    requires a != [] && b != [] && a[|a| - 1].hash == b[|b| - 1].hash
    requires forall e :: e in a || e in b ==> Clean(e.body)
    ensures SameRecords(a, b)
  {
    AcceptedHeadCommitment(scheme, keys, a, b);
    forall k | 0 <= k < |a| ensures SameRecord(a[k].body, b[k].body) {
      assert a[k] in a && b[k] in b;
      PayloadDeterminesRecord(a[k].body, b[k].body);
    }
  }

  lemma AcceptedIsIntact(scheme: Scheme, keys: Keyring, events: seq<Event>)
    requires Accepts(scheme, keys, events)
    ensures Intact(scheme, events)
  {
    forall i | 0 <= i < |events| ensures HashOk(scheme, events, i) && LinkOk(events, i) {
      assert EventOk(scheme, keys, events, i);
    }
  }

  /** Event i kept all its stored fields but possibly those of its body. */
  predicate OnlyBodyEdited(events: seq<Event>, after: seq<Event>, i: nat) {
    i < |events| && i < |after| && after[i] == events[i].(body := after[i].body)
  }

  predicate PayloadChanged(scheme: Scheme, events: seq<Event>, after: seq<Event>, i: nat)
    requires i < |events| && i < |after|
  {
    scheme.canon(after[i].body) != scheme.canon(events[i].body)
  }

  /** An event of an accepted sequence stays accepted exactly if its payload is the same. */
  lemma EditedAt(scheme: Scheme, keys: Keyring, events: seq<Event>, after: seq<Event>, i: nat)
    requires CollisionFree(scheme) && Accepts(scheme, keys, events)
    requires |after| == |events| && OnlyBodyEdited(events, after, i)
    requires i > 0 ==> after[i - 1].hash == events[i - 1].hash
    ensures EventOk(scheme, keys, after, i) <==> !PayloadChanged(scheme, events, after, i)
    ensures PayloadChanged(scheme, events, after, i) ==> !HashOk(scheme, after, i)
  {
    assert EventOk(scheme, keys, events, i);
    assert Before(after, i) == Before(events, i);
    if HashOk(scheme, after, i) {
      if 0 < i {
        assert EventOk(scheme, keys, events, i - 1);
        HashIsDigest(scheme, events, i - 1);
      }
      HashCommitsToInputs(scheme, Before(events, i), scheme.canon(after[i].body),
                          Before(events, i), scheme.canon(events[i].body));
    }
  }

  /**
   * Editing any number of bodies while keeping every stored hash is reported at exactly the first event whose
   * canonical payload changed, and goes unnoticed exactly when none did.
   */
  lemma EditsAreLocalized(scheme: Scheme, keys: Keyring, events: seq<Event>, after: seq<Event>, v: Verdict)
    requires CollisionFree(scheme) && Accepts(scheme, keys, events)
    requires |after| == |events| && forall i :: 0 <= i < |events| ==> OnlyBodyEdited(events, after, i)
    requires IsVerdict(scheme, keys, after, v)
    ensures v.Broken? <==> exists i :: 0 <= i < |events| && PayloadChanged(scheme, events, after, i)
    ensures v.Broken? ==>
      var k := v.firstBrokenIndex;
      && k < |events| && PayloadChanged(scheme, events, after, k)
      && (forall i :: 0 <= i < k ==> !PayloadChanged(scheme, events, after, i))
      && v.fault == HashMismatch && v.lastTrustedHash == Before(events, k)
  {
    forall i | 0 <= i < |events|
      ensures EventOk(scheme, keys, after, i) <==> !PayloadChanged(scheme, events, after, i)
      ensures PayloadChanged(scheme, events, after, i) ==> !HashOk(scheme, after, i)
    {
      assert OnlyBodyEdited(events, after, i);
      assert i > 0 ==> OnlyBodyEdited(events, after, i - 1);
      EditedAt(scheme, keys, events, after, i);
    }
    BrokenRefutes(scheme, keys, after, v);
    if v.Broken? {
      var k := v.firstBrokenIndex;
      assert !EventOk(scheme, keys, after, k);
      assert k > 0 ==> OnlyBodyEdited(events, after, k - 1);
    }
  }

  /** In particular, one edit is reported at the edited event or not at all. */
  lemma EditIsLocalized(scheme: Scheme, keys: Keyring, events: seq<Event>, k: nat, edited: Event, v: Verdict)
    requires CollisionFree(scheme)
    requires Accepts(scheme, keys, events)
    requires k < |events|
    requires edited == events[k].(body := edited.body)
    requires IsVerdict(scheme, keys, events[k := edited], v)
    ensures v.Broken? <==> scheme.canon(edited.body) != scheme.canon(events[k].body)
    ensures v.Broken? ==> v.firstBrokenIndex == k && v.fault == HashMismatch && v.lastTrustedHash == Before(events, k)
  {
    var after := events[k := edited];
    forall i | 0 <= i < |events| ensures OnlyBodyEdited(events, after, i) {}
    EditsAreLocalized(scheme, keys, events, after, v);
    assert PayloadChanged(scheme, events, after, k) <==> scheme.canon(edited.body) != scheme.canon(events[k].body);
  }
}
