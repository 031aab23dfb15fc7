/** Rebuilding a hash chain from the unordered bag of rows the store returns. */
module ChainOrder {
  import opened Prelude
  import opened AuditEvents

  /** The event at index i names the hash before it, or nothing if it comes first. */
  predicate Linked(p: seq<Event>, i: nat)
    requires i < |p|
  {
    Normalize(p[i].prevHash) == Before(p, i)
  }

  /** A sequence in chain order: one start without predecessor, every link to the event before it, no hash twice. */
  ghost predicate InChainOrder(p: seq<Event>) {
    && (forall i :: 0 <= i < |p| ==> Linked(p, i))
    && NoRepeats(Hashes(p))
  }

  /** p is a way to put the given rows in chain order. */
  ghost predicate Orders(p: seq<Event>, events: seq<Event>) {
    multiset(p) == multiset(events) && InChainOrder(p)
  }

  ghost predicate Chainable(events: seq<Event>) {
    DistinctIdentities(events) && exists p :: Orders(p, events)
  }

  /** The rows that name the given predecessor, in store order. */
  function Children(events: seq<Event>, prev: Option<string>): seq<Event> {
    if events == [] then []
    else
      var rest := Children(events[..|events| - 1], prev);
      var last := events[|events| - 1];
      if Normalize(last.prevHash) == prev then rest + [last] else rest
  }

  datatype OrderError =
    | DuplicateIdentity(key: string)
    | GenesisCount(found: nat)
    | Cycle(at: Event)
    | Fork(after: Event, children: nat)
    | Disconnected(missing: nat, first: Event)

  datatype OrderedChain = OrderedChain(events: seq<Event>, error: Option<OrderError>)

  /** What each kind of refusal says about the rows. */
  ghost predicate Justified(events: seq<Event>, walked: seq<Event>, error: OrderError) {
    match error
    case DuplicateIdentity(key) =>
      walked == [] && !DistinctIdentities(events) && exists i :: 0 <= i < |events| && Identity(events[i]) == key
    case GenesisCount(found) =>
      walked == [] && found == |Children(events, None)| && found != 1
    case Cycle(at) =>
      IsWalk(events, walked) && at in walked && IsWalk(events, walked + [at])
    case Fork(after, children) =>
      && IsWalk(events, walked) && walked != [] && after == walked[|walked| - 1]
      && children == |Children(events, Some(after.hash))| && children > 1
    case Disconnected(missing, first) =>
      IsWalk(events, walked) && missing == |events| - |walked| && missing > 0 && FirstUnreached(events, walked, first)
  }

  /** The first row, in store order, that a walk did not reach. */
  ghost predicate FirstUnreached(events: seq<Event>, walked: seq<Event>, first: Event) {
    exists i :: 0 <= i < |events| && events[i] == first && UnreachedAt(events, Keys(walked), i)
  }

  ghost predicate UnreachedAt(events: seq<Event>, visited: set<string>, i: nat)
    requires i < |events|
  {
    Identity(events[i]) !in visited && forall k :: 0 <= k < i ==> Identity(events[k]) in visited
  }

  /** A path through the rows that starts at a genesis and follows links. */
  ghost predicate IsWalk(events: seq<Event>, w: seq<Event>) {
    && (forall e :: e in w ==> e in events)
    && (forall i :: 0 <= i < |w| ==> Linked(w, i))
  }

  lemma WalkPrefix(events: seq<Event>, w: seq<Event>, n: nat)
    requires IsWalk(events, w) && n <= |w|
    ensures IsWalk(events, w[..n])
  {
    forall i | 0 <= i < n ensures Linked(w[..n], i) {
      assert Linked(w, i);
    }
  }

  lemma {:induction false} ChildrenMembers(events: seq<Event>, prev: Option<string>)
    ensures forall e :: e in Children(events, prev) <==> e in events && Normalize(e.prevHash) == prev
  {
    if events != [] {
      ChildrenMembers(events[..|events| - 1], prev);
    }
  }

  lemma {:induction false} ChildrenNoRepeats(events: seq<Event>, prev: Option<string>)
    requires NoRepeats(events)
    ensures NoRepeats(Children(events, prev))
  {
    if events != [] {
      var front, last := events[..|events| - 1], events[|events| - 1];
      assert events == front + [last];
      NoRepeatsAppend(front, last);
      ChildrenNoRepeats(front, prev);
      ChildrenMembers(front, prev);
      NoRepeatsAppend(Children(front, prev), last);
    }
  }

  /** Two events of a chain in order that carry one hash are the same event. */
  lemma SameHashSamePosition(p: seq<Event>, i: nat, j: nat)
    requires InChainOrder(p) && i < |p| && j < |p| && p[i].hash == p[j].hash
    ensures i == j
  {
    SamePosition(Hashes(p), i, j);
  }

  lemma OrderedMembersDiffer(p: seq<Event>)
    requires InChainOrder(p)
    ensures NoRepeats(p)
  {
    forall i, j | 0 <= i < j < |p| ensures Differ(p, i, j) {
      assert Differ(Hashes(p), i, j);
    }
  }

  lemma IdentityNoRepeats(events: seq<Event>)
    requires DistinctIdentities(events)
    ensures NoRepeats(events)
  {
    forall i, j | 0 <= i < j < |events| ensures Differ(events, i, j) {
      assert Differ(Identities(events), i, j);
    }
  }

  /** In chain order, the row named by the hash at position i - 1 stands at position i, and the genesis at 0. */
  lemma PlaceInOrder(events: seq<Event>, p: seq<Event>, e: Event, i: nat)
    requires Orders(p, events) && e in events && i <= |p|
    requires Normalize(e.prevHash) == if i == 0 then None else Some(p[i - 1].hash)
    ensures i < |p| && p[i] == e
  {
    PermutationMembers(p, events, e);
    var j :| 0 <= j < |p| && p[j] == e;
    assert Linked(p, j);
    if i > 0 {
      SameHashSamePosition(p, j - 1, i - 1);
    }
  }

  /** Every walk follows the one chain order there may be. */
  lemma {:induction false} WalkFollows(events: seq<Event>, p: seq<Event>, w: seq<Event>)
    requires Orders(p, events) && IsWalk(events, w)
    ensures |w| <= |p| && w == p[..|w|]
  {
    if w != [] {
      var n := |w| - 1;
      WalkPrefix(events, w, n);
      WalkFollows(events, p, w[..n]);
      assert w[n] in w && Linked(w, n);
      assert n > 0 ==> w[n - 1] == w[..n][n - 1] == p[n - 1];
      PlaceInOrder(events, p, w[n], n);
      assert w == w[..n] + [w[n]];
    }
  }

  lemma WalkEndsInOrder(events: seq<Event>, p: seq<Event>, w: seq<Event>)
    requires Orders(p, events) && IsWalk(events, w) && w != []
    ensures |w| <= |p| && p[|w| - 1] == w[|w| - 1]
  {
    WalkFollows(events, p, w);
    assert p[..|w|][|w| - 1] == p[|w| - 1];
  }

  /** There is at most one chain order. */
  lemma OrderIsUnique(events: seq<Event>, p: seq<Event>, q: seq<Event>)
    requires Orders(p, events) && Orders(q, events)
    ensures p == q
  {
    assert IsWalk(events, q) by {
      forall e | e in q ensures e in events { PermutationMembers(q, events, e); }
    }
    WalkFollows(events, p, q);
    PermutationLength(p, q);
    assert p[..|q|] == p;
  }

  lemma ConstantIsShort<T>(s: seq<T>, x: T)
    requires NoRepeats(s) && forall y :: y in s ==> y == x
    ensures |s| <= 1
  {
    NoRepeatsSize(s);
    assert Elements(s) <= {x};
    SubsetSize(Elements(s), {x});
  }

  /** Among rows without repetition, a chain order leaves no row with two children and no second genesis. */
  lemma ChildrenInOrder(events: seq<Event>, p: seq<Event>, i: nat)
    requires Orders(p, events) && NoRepeats(events) && i <= |p|
    ensures var prev := if i == 0 then None else Some(p[i - 1].hash);
      Children(events, prev) == if i < |p| then [p[i]] else []
  {
    var prev := if i == 0 then None else Some(p[i - 1].hash);
    var c := Children(events, prev);
    ChildrenMembers(events, prev);
    assert c != [] ==> c[0] in c;
    forall e | e in c ensures i < |p| && p[i] == e { PlaceInOrder(events, p, e, i); }
    if i < |p| {
      assert p[i] in p && Linked(p, i);
      PermutationMembers(p, events, p[i]);
      assert p[i] in c;
      ChildrenNoRepeats(events, prev);
      ConstantIsShort(c, p[i]);
    }
  }

  lemma WalkInOrderNoRepeats(events: seq<Event>, p: seq<Event>, w: seq<Event>)
    requires Orders(p, events) && IsWalk(events, w)
    ensures NoRepeats(w)
  {
    WalkFollows(events, p, w);
    OrderedMembersDiffer(p);
    NoRepeatsSlice(p, 0, |w|);
    assert p[0..|w|] == w;
  }

  /** A walk that would have to visit an event twice refutes every chain order. */
  lemma CycleRefutes(events: seq<Event>, w: seq<Event>, e: Event)
    requires IsWalk(events, w + [e]) && e in w
    ensures !Chainable(events)
  {
    NoRepeatsAppend(w, e);
    forall p: seq<Event> | Orders(p, events) ensures false {
      WalkInOrderNoRepeats(events, p, w + [e]);
    }
  }

  /** A walk that ends in a fork, or ends before all rows were visited, refutes every chain order. */
  lemma BadEndRefutes(events: seq<Event>, w: seq<Event>)
    requires NoRepeats(events) && IsWalk(events, w) && w != []
    requires var n := |Children(events, Some(w[|w| - 1].hash))|; n > 1 || (n == 0 && |w| < |events|)
    ensures !Chainable(events)
  {
    forall p: seq<Event> | Orders(p, events) ensures false {
      PermutationLength(p, events);
      WalkEndsInOrder(events, p, w);
      ChildrenInOrder(events, p, |w|);
    }
  }

  lemma GenesisRefutes(events: seq<Event>)
    requires NoRepeats(events) && events != [] && |Children(events, None)| != 1
    ensures !Chainable(events)
  {
    forall p: seq<Event> | Orders(p, events) ensures false {
      PermutationLength(p, events);
      ChildrenInOrder(events, p, 0);
    }
  }

  function Bucket(buckets: map<Option<string>, seq<Event>>, key: Option<string>): seq<Event> {
    if key in buckets then buckets[key] else []
  }

  function Keys(events: seq<Event>): set<string> {
    Elements(Identities(events))
  }

  lemma KeysAppend(events: seq<Event>, e: Event)
    ensures Keys(events + [e]) == Keys(events) + {Identity(e)}
    ensures DistinctIdentities(events + [e]) <==> DistinctIdentities(events) && Identity(e) !in Keys(events)
  {
    assert Identities(events + [e]) == Identities(events) + [Identity(e)];
    NoRepeatsAppend(Identities(events), Identity(e));
  }

  lemma KeyHasEvent(events: seq<Event>, key: string)
    ensures key in Keys(events) <==> exists i :: 0 <= i < |events| && Identity(events[i]) == key
  {
    if key in Keys(events) {
      var i :| 0 <= i < |events| && Identities(events)[i] == key;
      assert Identity(events[i]) == key;
    }
    if i :| 0 <= i < |events| && Identity(events[i]) == key {
      assert Identities(events)[i] == key;
    }
  }

  /** The buckets index the given rows by predecessor. */
  ghost predicate IndexOf(buckets: map<Option<string>, seq<Event>>, events: seq<Event>) {
    forall key :: Bucket(buckets, key) == Children(events, key)
  }

  lemma IndexAppend(buckets: map<Option<string>, seq<Event>>, events: seq<Event>, e: Event)
    requires IndexOf(buckets, events)
    ensures var prev := Normalize(e.prevHash);
      IndexOf(buckets[prev := Bucket(buckets, prev) + [e]], events + [e])
  {
    var all := events + [e];
    assert all[..|all| - 1] == events;
    var prev := Normalize(e.prevHash);
    var after := buckets[prev := Bucket(buckets, prev) + [e]];
    forall key ensures Bucket(after, key) == Children(all, key) {
      assert Bucket(buckets, key) == Children(events, key);
    }
  }

  /**
   * The service's ordering walk. It succeeds exactly on the chainable bags, and then returns the one chain order;
   * a refusal names a defect that is really there.
   */
  method OrderEventsByChain(events: seq<Event>) returns (r: OrderedChain)
    ensures r.error.None? <==> Chainable(events)
    ensures r.error.None? ==> Orders(r.events, events)
    ensures r.error.Some? ==> Justified(events, r.events, r.error.value)
  {
    if events == [] {
      assert Orders([], events);
      return OrderedChain([], None);
    }
    var repeated, buckets := GroupByPrevHash(events);
    if repeated.Some? {
      return OrderedChain([], Some(DuplicateIdentity(repeated.value)));
    }
    IdentityNoRepeats(events);
    var genesisEvents := Bucket(buckets, None);
    if |genesisEvents| != 1 {
      GenesisRefutes(events);
      return OrderedChain([], Some(GenesisCount(|genesisEvents|)));
    }
    r := WalkFrom(events, buckets, genesisEvents[0]);
  }

  /** First loop: index the rows by predecessor, stopping at a repeated identity. */
  method GroupByPrevHash(events: seq<Event>)
    returns (repeated: Option<string>, buckets: map<Option<string>, seq<Event>>)
    ensures repeated.None? <==> DistinctIdentities(events)
    ensures repeated.None? ==> IndexOf(buckets, events)
    ensures repeated.Some? ==> exists i :: 0 <= i < |events| && Identity(events[i]) == repeated.value
  {
    buckets := map[];
    var eventKeys: set<string> := {};
    for i := 0 to |events|
      invariant DistinctIdentities(events[..i])
      invariant eventKeys == Keys(events[..i])
      invariant IndexOf(buckets, events[..i])
    {
      var event := events[i];
      var key := Identity(event);
      KeysAppend(events[..i], event);
      assert events[..i + 1] == events[..i] + [event];
      if key in eventKeys {
        PrefixIdentities(events, i + 1);
        return Some(key), buckets;
      }
      IndexAppend(buckets, events[..i], event);
      eventKeys := eventKeys + {key};
      var prev := Normalize(event.prevHash);
      buckets := buckets[prev := Bucket(buckets, prev) + [event]];
    }
    assert events[..|events|] == events;
    repeated := None;
  }

  lemma PrefixIdentities(events: seq<Event>, n: nat)
    requires n <= |events|
    ensures DistinctIdentities(events) ==> DistinctIdentities(events[..n])
  {
    if DistinctIdentities(events) {
      NoRepeatsSlice(Identities(events), 0, n);
      assert Identities(events)[0..n] == Identities(events[..n]);
    }
  }

  /** Second loop: follow the links from the genesis event. */
  method WalkFrom(events: seq<Event>, buckets: map<Option<string>, seq<Event>>, genesis: Event)
    returns (r: OrderedChain)
    requires DistinctIdentities(events)
    requires IndexOf(buckets, events)
    requires Children(events, None) == [genesis]
    ensures r.error.None? <==> Chainable(events)
    ensures r.error.None? ==> Orders(r.events, events)
    ensures r.error.Some? ==> Justified(events, r.events, r.error.value)
  {
    IdentityNoRepeats(events);
    var ordered: seq<Event> := [];
    var visited: set<string> := {};
    var current := Some(genesis);
    ChildrenMembers(events, None);
    assert genesis in Children(events, None);
    while current.Some?
      invariant SoundWalk(events, ordered)
      invariant current.Some? ==> IsWalk(events, ordered + [current.value])
      invariant current.None? ==> ordered != [] && Children(events, Some(ordered[|ordered| - 1].hash)) == []
      invariant visited == Keys(ordered)
      decreases Keys(events) - visited
    {
      var event := current.value;
      assert event in ordered + [event];
      var key := Identity(event);
      if key in visited {
        RevisitIsCycle(events, ordered, event);
        return OrderedChain(ordered, Some(Cycle(event)));
      }
      KeysAppend(ordered, event);
      EventHasKey(events, event);
      visited := visited + {key};
      var children := Bucket(buckets, Some(event.hash));
      var walked := ordered;
      ordered := ordered + [event];
      if |children| > 1 {
        BadEndRefutes(events, ordered);
        return OrderedChain(ordered, Some(Fork(event, |children|)));
      }
      ExtendWalk(events, walked, event);
      current := if children == [] then None else Some(children[0]);
    }
    WalkIsShort(events, ordered);
    if |ordered| != |events| {
      BadEndRefutes(events, ordered);
      var first := FindUnreached(events, ordered, visited);
      return OrderedChain(ordered, Some(Disconnected(|events| - |ordered|, first)));
    }
    CompleteWalkOrders(events, ordered);
    r := OrderedChain(ordered, None);
  }

  method FindUnreached(events: seq<Event>, walked: seq<Event>, visited: set<string>) returns (first: Event)
    requires DistinctIdentities(events) && |walked| < |events| && visited == Keys(walked)
    ensures FirstUnreached(events, walked, first)
  {
    SomeUnreached(events, walked);
    var i := 0;
    while Identity(events[i]) in visited
      invariant 0 <= i < |events|
      invariant forall k :: 0 <= k < i ==> Identity(events[k]) in visited
      decreases |events| - i
    {
      i := i + 1;
      if i == |events| {
        AllReached(events, visited);
      }
    }
    assert UnreachedAt(events, Keys(walked), i);
    first := events[i];
  }

  lemma AllReached(events: seq<Event>, visited: set<string>)
    requires forall k :: 0 <= k < |events| ==> Identity(events[k]) in visited
    ensures Keys(events) <= visited
  {
    forall key | key in Keys(events) ensures key in visited { KeyHasEvent(events, key); }
  }

  lemma SomeUnreached(events: seq<Event>, walked: seq<Event>)
    requires DistinctIdentities(events) && |walked| < |events|
    ensures !(Keys(events) <= Keys(walked))
  {
    NoRepeatsSize(Identities(events));
    KeysBound(walked);
    if Keys(events) <= Keys(walked) { SubsetSize(Keys(events), Keys(walked)); }
  }

  lemma {:induction false} KeysBound(events: seq<Event>)
    ensures |Keys(events)| <= |events|
  {
    if events != [] {
      var front, last := events[..|events| - 1], events[|events| - 1];
      assert events == front + [last];
      KeysBound(front);
      KeysAppend(front, last);
    }
  }

  /** What holds of the walked prefix while the loop runs. */
  ghost predicate SoundWalk(events: seq<Event>, w: seq<Event>) {
    && IsWalk(events, w)
    && NoRepeats(w)
    && forall k :: 0 <= k < |w| ==> |Children(events, Some(w[k].hash))| <= 1
  }

  lemma ExtendWalk(events: seq<Event>, w: seq<Event>, e: Event)
    requires SoundWalk(events, w) && IsWalk(events, w + [e])
    requires Identity(e) !in Keys(w)
    requires |Children(events, Some(e.hash))| <= 1
    ensures SoundWalk(events, w + [e])
    ensures forall c :: c in Children(events, Some(e.hash)) ==> IsWalk(events, w + [e] + [c])
  {
    KeyHasEvent(w, Identity(e));
    assert e !in w;
    NoRepeatsAppend(w, e);
    ChildrenMembers(events, Some(e.hash));
    var walked := w + [e];
    forall c | c in Children(events, Some(e.hash)) ensures IsWalk(events, walked + [c]) {
      forall i | 0 <= i < |walked| + 1 ensures Linked(walked + [c], i) {
        assert i < |walked| ==> Linked(walked, i);
      }
    }
  }

  lemma EventHasKey(events: seq<Event>, e: Event)
    requires e in events
    ensures Identity(e) in Keys(events)
  {
    var i :| 0 <= i < |events| && events[i] == e;
    assert Identities(events)[i] == Identity(e);
  }

  lemma RevisitIsCycle(events: seq<Event>, w: seq<Event>, e: Event)
    requires DistinctIdentities(events)
    requires IsWalk(events, w) && IsWalk(events, w + [e])
    requires Identity(e) in Keys(w)
    ensures e in w && !Chainable(events)
  {
    KeyHasEvent(w, Identity(e));
    var k :| 0 <= k < |w| && Identity(w[k]) == Identity(e);
    assert w[k] in w && e in w + [e];
    SameIdentity(events, w[k], e);
    CycleRefutes(events, w, e);
  }

  lemma SameIdentity(events: seq<Event>, a: Event, b: Event)
    requires DistinctIdentities(events) && a in events && b in events && Identity(a) == Identity(b)
    ensures a == b
  {
    var i :| 0 <= i < |events| && events[i] == a;
    var j :| 0 <= j < |events| && events[j] == b;
    SamePosition(Identities(events), i, j);
  }

  lemma WalkIsShort(events: seq<Event>, w: seq<Event>)
    requires SoundWalk(events, w) && NoRepeats(events)
    ensures |w| <= |events|
  {
    NoRepeatsSize(w);
    NoRepeatsSize(events);
    SubsetSize(Elements(w), Elements(events));
  }

  /** A fork-free walk over all rows that ends where nothing continues puts them in chain order. */
  lemma CompleteWalkOrders(events: seq<Event>, w: seq<Event>)
    requires DistinctIdentities(events) && SoundWalk(events, w) && |w| == |events|
    requires w != [] && Children(events, Some(w[|w| - 1].hash)) == []
    ensures Orders(w, events)
  {
    IdentityNoRepeats(events);
    SameSizePermutes(w, events);
    WalkHashesDiffer(events, w);
  }

  lemma WalkHashesDiffer(events: seq<Event>, w: seq<Event>)
    requires SoundWalk(events, w)
    requires w != [] && Children(events, Some(w[|w| - 1].hash)) == []
    ensures InChainOrder(w)
  {
    forall k | 0 <= k < |w| - 1 ensures Children(events, Some(w[k].hash)) == [w[k + 1]] {
      assert w[k + 1] in w && Linked(w, k + 1);
      ChildrenMembers(events, Some(w[k].hash));
      assert w[k + 1] in Children(events, Some(w[k].hash));
    }
    forall i, j | 0 <= i < j < |w| ensures Differ(Hashes(w), i, j) {
      assert Children(events, Some(w[i].hash)) == [w[i + 1]];
      if j < |w| - 1 {
        assert Children(events, Some(w[j].hash)) == [w[j + 1]];
        assert Differ(w, i + 1, j + 1);
      }
    }
  }
}
