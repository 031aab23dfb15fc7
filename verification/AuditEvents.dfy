/** Stored audit events, the hash that chains them and what an intact chain commits to. */
module AuditEvents {
  import opened Prelude
  import opened CanonicalPayload

  /** The `prevHash` field as the store returns it; the verifier tells `undefined` from `null`, the walk does not. */
  datatype Link = Undefined | Null | Prior(hash: string)

  datatype Event = Event(
    epochId: string,
    body: Body,
    prevHash: Link,
    hash: string,
    signature: Option<string>,
    signatureKid: Option<string>)

  /** SHA-256, the canonical form of a body and the keyed signature, as parameters of the whole model. */
  datatype Scheme = Scheme(sha: string -> string, canon: Body -> string, mac: (string, string) -> string)

  /** What the chain asks of its hash: no collisions, and digests that are non-empty text without `|`. */
  ghost predicate CollisionFree(scheme: Scheme) {
    && (forall x, y :: NoCollision(scheme, x, y))
    && (forall x :: HasDigest(scheme, x))
  }

  predicate NoCollision(scheme: Scheme, x: string, y: string) {
    scheme.sha(x) == scheme.sha(y) ==> x == y
  }

  predicate HasDigest(scheme: Scheme, x: string) {
    IsDigest(scheme.sha(x))
  }

  predicate IsDigest(s: string) {
    s != "" && '|' !in s
  }

  /** A text that determines the given one and holds no `|`; it stands in for a digest below. */
  function Encoded(s: string): (r: string)
    ensures r != "" && '|' !in r
  {
    if s == "" then "."
    else (if s[0] == '|' then "\\p" else if s[0] == '\\' then "\\b" else [s[0]]) + Encoded(s[1..])
  }

  lemma {:induction false} EncodedIsInjective(s: string, t: string)
    requires Encoded(s) == Encoded(t)
    ensures s == t
  {
    if s != "" && t != "" {
      var n := if s[0] == '|' || s[0] == '\\' then 2 else 1;
      var e := Encoded(s);
      assert e[0] == Encoded(t)[0] && (n == 2 ==> e[1] == Encoded(t)[1]);
      assert s[0] == t[0];
      assert e[n..] == Encoded(s[1..]) && Encoded(t)[n..] == Encoded(t[1..]);
      EncodedIsInjective(s[1..], t[1..]);
      assert s == [s[0]] + s[1..] && t == [t[0]] + t[1..];
    }
  }

  /** The hypothesis can be met, whatever the canonical form and the signature function. */
  lemma CollisionFreeCanBeMet(canon: Body -> string, mac: (string, string) -> string)
    ensures CollisionFree(Scheme(Encoded, canon, mac))
  {
    var scheme := Scheme(Encoded, canon, mac);
    forall x, y ensures NoCollision(scheme, x, y) {
      if scheme.sha(x) == scheme.sha(y) { EncodedIsInjective(x, y); }
    }
    forall x ensures HasDigest(scheme, x) {}
  }

  function ComputeHash(scheme: Scheme, prev: Option<string>, payload: string): string {
    scheme.sha(prev.GetOr("") + "|" + payload)
  }

  function Normalize(link: Link): Option<string> {
    match link
    case Prior(h) => Some(h)
    case _ => None
  }

  function LinkTo(prev: Option<string>): Link {
    match prev
    case None => Null
    case Some(h) => Prior(h)
  }

  /** The key under which the ordering walk recognises an event (rows are loaded without `_id`). */
  function Identity(e: Event): string {
    match e.body.eventId
    case Absent => e.hash
    case v => ValueText(v)
  }

  ghost predicate DistinctIdentities(events: seq<Event>) {
    NoRepeats(Identities(events))
  }

  function Identities(events: seq<Event>): (r: seq<string>)
    ensures |r| == |events|
    ensures forall i :: 0 <= i < |events| ==> r[i] == Identity(events[i])
  {
    seq(|events|, i requires 0 <= i < |events| => Identity(events[i]))
  }

  function Hashes(events: seq<Event>): (r: seq<string>)
    ensures |r| == |events|
    ensures forall i :: 0 <= i < |events| ==> r[i] == events[i].hash
  {
    seq(|events|, i requires 0 <= i < |events| => events[i].hash)
  }

  /** The hash an event at index i is chained to. */
  function Before(events: seq<Event>, i: nat): Option<string>
    requires i < |events|
  {
    if i == 0 then None else Some(events[i - 1].hash)
  }

  predicate HashOk(scheme: Scheme, events: seq<Event>, i: nat)
    requires i < |events|
  {
    events[i].hash == ComputeHash(scheme, Before(events, i), scheme.canon(events[i].body))
  }

  predicate LinkOk(events: seq<Event>, i: nat)
    requires i < |events|
  {
    events[i].prevHash == LinkTo(Before(events, i))
  }

  ghost predicate HashesOk(scheme: Scheme, events: seq<Event>) {
    forall i :: 0 <= i < |events| ==> HashOk(scheme, events, i)
  }

  /** An intact chain: every stored hash and every stored link is the recomputed one. */
  ghost predicate Intact(scheme: Scheme, events: seq<Event>) {
    forall i :: 0 <= i < |events| ==> HashOk(scheme, events, i) && LinkOk(events, i)
  }

  /** The framing `prevHash|payload` is unambiguous as long as previous hashes are digests. */
  lemma HashCommitsToInputs(scheme: Scheme, p: Option<string>, x: string, q: Option<string>, y: string)
    requires CollisionFree(scheme)
    requires p.Some? ==> IsDigest(p.value)
    requires q.Some? ==> IsDigest(q.value)
    requires ComputeHash(scheme, p, x) == ComputeHash(scheme, q, y)
    ensures p == q && x == y
  {
    var a, b := p.GetOr(""), q.GetOr("");
    assert NoCollision(scheme, a + "|" + x, b + "|" + y);
    SplitAtFirst('|', a, x, b, y);
  }

  lemma HashIsDigest(scheme: Scheme, events: seq<Event>, i: nat)
    requires CollisionFree(scheme) && i < |events| && HashOk(scheme, events, i)
    ensures IsDigest(events[i].hash)
  {
    assert HasDigest(scheme, Before(events, i).GetOr("") + "|" + scheme.canon(events[i].body));
  }

  /**
   * One hash pins down the whole history below it: if two hash-consistent chains carry the same hash at
   * some positions, these positions are equal and so is every payload and every hash up to there.
   */
  lemma {:induction false} HashCommitsToHistory(scheme: Scheme, a: seq<Event>, i: nat, b: seq<Event>, j: nat)
    requires CollisionFree(scheme)
    requires HashesOk(scheme, a) && HashesOk(scheme, b)
    requires i < |a| && j < |b|
    requires a[i].hash == b[j].hash
    ensures i == j
    ensures forall k :: 0 <= k <= i ==> a[k].hash == b[k].hash && scheme.canon(a[k].body) == scheme.canon(b[k].body)
    decreases i
  {
    assert HashOk(scheme, a, i) && HashOk(scheme, b, j);
    if 0 < i { HashIsDigest(scheme, a, i - 1); }
    if 0 < j { HashIsDigest(scheme, b, j - 1); }
    HashCommitsToInputs(scheme, Before(a, i), scheme.canon(a[i].body), Before(b, j), scheme.canon(b[j].body));
    if 0 < i {
      HashCommitsToHistory(scheme, a, i - 1, b, j - 1);
    }
  }

  /** No two events of a hash-consistent chain carry the same hash, even with equal payloads. */
  lemma ChainHashesDiffer(scheme: Scheme, events: seq<Event>)
    requires CollisionFree(scheme)
    requires HashesOk(scheme, events)
    ensures NoRepeats(Hashes(events))
  {
    forall i, j | 0 <= i < j < |events| ensures Differ(Hashes(events), i, j) {
      if events[i].hash == events[j].hash {
        HashCommitsToHistory(scheme, events, i, events, j);
      }
    }
  }

  /** Two events go by one name: the same id, or the id of one is the hash of the other, which has none. */
  predicate ShareName(a: Event, b: Event) {
    && (!a.body.eventId.Absent? || !b.body.eventId.Absent?)
    && (if a.body.eventId.Absent? then a.hash else ValueText(a.body.eventId))
       == (if b.body.eventId.Absent? then b.hash else ValueText(b.body.eventId))
  }

  /** In a hash-consistent chain events without ids never clash. */
  lemma DistinctIff(scheme: Scheme, events: seq<Event>)
    requires CollisionFree(scheme) && HashesOk(scheme, events)
    ensures DistinctIdentities(events) <==> forall i, j :: 0 <= i < j < |events| ==> !ShareName(events[i], events[j])
  {
    var names := Identities(events);
    ChainHashesDiffer(scheme, events);
    forall i, j | 0 <= i < j < |events| ensures names[i] == names[j] <==> ShareName(events[i], events[j]) {
      assert Differ(Hashes(events), i, j);
    }
    forall i, j | 0 <= i < j < |events| && DistinctIdentities(events) ensures !ShareName(events[i], events[j]) {
      assert Differ(names, i, j);
    }
  }

  /** The head hash commits to the whole chain: length, every payload, every hash and every link. */
  lemma HeadCommitment(scheme: Scheme, a: seq<Event>, b: seq<Event>)
    requires CollisionFree(scheme)
    requires Intact(scheme, a) && Intact(scheme, b)
    requires a != [] && b != []
    requires a[|a| - 1].hash == b[|b| - 1].hash
    ensures |a| == |b|
    ensures forall k :: 0 <= k < |a| ==>
      && scheme.canon(a[k].body) == scheme.canon(b[k].body)
      && a[k].hash == b[k].hash
      && a[k].prevHash == b[k].prevHash
  {
    HashCommitsToHistory(scheme, a, |a| - 1, b, |b| - 1);
    forall k | 0 <= k < |a| ensures a[k].prevHash == b[k].prevHash {
      assert LinkOk(a, k) && LinkOk(b, k);
      assert Before(a, k) == Before(b, k);
    }
  }

  /** Appending the next link keeps a chain intact, and conversely every prefix of an intact chain is intact. */
  lemma IntactAppend(scheme: Scheme, events: seq<Event>, e: Event)
    requires Intact(scheme, events)
    requires var prev := if events == [] then None else Some(events[|events| - 1].hash);
      e.prevHash == LinkTo(prev) && e.hash == ComputeHash(scheme, prev, scheme.canon(e.body))
    ensures Intact(scheme, events + [e])
  {
    var all := events + [e];
    forall i | 0 <= i < |all| ensures HashOk(scheme, all, i) && LinkOk(all, i) {
      if i < |events| {
        assert HashOk(scheme, events, i) && LinkOk(events, i);
        assert Before(all, i) == Before(events, i);
      }
    }
  }

  lemma IntactPrefix(scheme: Scheme, events: seq<Event>, n: nat)
    requires Intact(scheme, events)
    requires n <= |events|
    ensures Intact(scheme, events[..n])
  {
    forall i | 0 <= i < n ensures HashOk(scheme, events[..n], i) && LinkOk(events[..n], i) {
      assert HashOk(scheme, events, i) && LinkOk(events, i);
      assert Before(events[..n], i) == Before(events, i);
    }
  }
}
