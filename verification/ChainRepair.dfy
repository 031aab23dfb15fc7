/** The repair script: find the first broken event, recompute the chain from there, write back what changed. */
module ChainRepair {
  import opened Prelude
  import opened AuditEvents
  import opened ChainVerifier
  import opened ChainOrder
  import opened AppendProtocol
  import opened ChainReport

  /** A stored row: its key and the event it holds. Rows are listed in the script's sort order. */
  datatype Row = Row(id: nat, event: Event)

  /** The signing environment of the script, whose signature function is its own. */
  datatype Signer = Signer(kid: Option<string>, sign: string -> string)

  datatype Update = Update(id: nat, newHash: string, newPrevHash: Option<string>)

  ghost predicate DistinctIds(rows: seq<Row>) {
    NoRepeats(Ids(rows))
  }

  function Ids(rows: seq<Row>): (ids: seq<nat>)
    ensures |ids| == |rows|
    ensures forall i :: 0 <= i < |rows| ==> ids[i] == rows[i].id
  {
    seq(|rows|, i requires 0 <= i < |rows| => rows[i].id)
  }

  lemma SameIdSamePlace(rows: seq<Row>, i: nat, j: nat)
    requires DistinctIds(rows) && i < |rows| && j < |rows| && rows[i].id == rows[j].id
    ensures i == j
  {
    SamePosition(Ids(rows), i, j);
  }

  lemma SameIdsDistinct(a: seq<Row>, b: seq<Row>)
    requires DistinctIds(a) && |a| == |b|
    requires forall i :: 0 <= i < |a| ==> a[i].id == b[i].id
    ensures DistinctIds(b)
  {
    assert Ids(a) == Ids(b);
  }

  function Events(rows: seq<Row>): (events: seq<Event>)
    ensures |events| == |rows|
    ensures forall i :: 0 <= i < |rows| ==> events[i] == rows[i].event
  {
    seq(|rows|, i requires 0 <= i < |rows| => rows[i].event)
  }

  // ---- Specifications ----

  predicate InPlace(scheme: Scheme, e: Event, prev: Option<string>) {
    e.hash == ComputeHash(scheme, prev, scheme.canon(e.body)) && e.prevHash == LinkTo(prev)
  }

  /** The hash the row at position i is to be chained to, when the rows follow `prev`. */
  function PrevAt(prev: Option<string>, rows: seq<Row>, i: nat): Option<string>
    requires i <= |rows|
  {
    if i == 0 then prev else Some(rows[i - 1].event.hash)
  }

  predicate RowInPlace(scheme: Scheme, prev: Option<string>, rows: seq<Row>, i: nat)
    requires i < |rows|
  {
    InPlace(scheme, rows[i].event, PrevAt(prev, rows, i))
  }

  /** The event with the chain fields an update writes; everything else is kept. */
  function Written(signer: Option<Signer>, e: Event, newHash: string, prev: Option<string>): Event {
    var linked := e.(hash := newHash, prevHash := LinkTo(prev));
    match signer
    case None => linked
    case Some(s) =>
      linked.(signature := Some(s.sign(newHash)), signatureKid := if s.kid.Some? then s.kid else e.signatureKid)
  }

  function Mended(scheme: Scheme, signer: Option<Signer>, e: Event, prev: Option<string>): Event {
    if InPlace(scheme, e, prev) then e
    else Written(signer, e, ComputeHash(scheme, prev, scheme.canon(e.body)), prev)
  }

  function MendedRow(scheme: Scheme, signer: Option<Signer>, row: Row, prev: Option<string>): Row {
    Row(row.id, Mended(scheme, signer, row.event, prev))
  }

  /** The rows after recomputing the whole chain behind the given hash. */
  function Relinked(scheme: Scheme, signer: Option<Signer>, prev: Option<string>, rows: seq<Row>): (r: seq<Row>)
    ensures |r| == |rows|
    decreases |rows|
  {
    if rows == [] then []
    else
      var row := MendedRow(scheme, signer, rows[0], prev);
      [row] + Relinked(scheme, signer, Some(row.event.hash), rows[1..])
  }

  /** The updates the recomputation asks for: one for each row that is not in place. */
  function Updates(scheme: Scheme, prev: Option<string>, rows: seq<Row>): seq<Update>
    decreases |rows|
  {
    if rows == [] then []
    else
      var newHash := ComputeHash(scheme, prev, scheme.canon(rows[0].event.body));
      (if InPlace(scheme, rows[0].event, prev) then [] else [Update(rows[0].id, newHash, prev)])
        + Updates(scheme, Some(newHash), rows[1..])
  }

  function ApplyUpdate(signer: Option<Signer>, row: Row, u: Update): Row {
    if row.id == u.id then Row(row.id, Written(signer, row.event, u.newHash, u.newPrevHash)) else row
  }

  function UpdateRows(signer: Option<Signer>, rows: seq<Row>, u: Update): (r: seq<Row>)
    ensures |r| == |rows|
    ensures forall i :: 0 <= i < |rows| ==> r[i] == ApplyUpdate(signer, rows[i], u)
  {
    seq(|rows|, i requires 0 <= i < |rows| => ApplyUpdate(signer, rows[i], u))
  }

  function ApplyMany(signer: Option<Signer>, rows: seq<Row>, updates: seq<Update>): (r: seq<Row>)
    ensures |r| == |rows|
    decreases |updates|
  {
    if updates == [] then rows else ApplyMany(signer, UpdateRows(signer, rows, updates[0]), updates[1..])
  }

  // ---- What recomputation achieves ----

  /** Writing the updates one by one, each to the row with its key, produces the recomputed rows. */
  lemma {:induction false} UpdatesProduceRelinked(scheme: Scheme, signer: Option<Signer>, prev: Option<string>,
                                                  rows: seq<Row>, k: nat)
    requires DistinctIds(rows) && k <= |rows|
    ensures ApplyMany(signer, rows, Updates(scheme, prev, rows[k..]))
      == rows[..k] + Relinked(scheme, signer, prev, rows[k..])
    decreases |rows| - k
  {
    if k < |rows| {
      var row := MendedRow(scheme, signer, rows[k], prev);
      var after, tail := rows[k := row], rows[k + 1..];
      FirstUpdate(scheme, signer, prev, rows, k);
      UpdatesProduceRelinked(scheme, signer, Some(row.event.hash), after, k + 1);
      assert after[k + 1..] == tail;
      RelinkedStep(scheme, signer, prev, rows, k);
      AppendAssociates(rows[..k], row, Relinked(scheme, signer, Some(row.event.hash), tail));
      assert after[..k + 1] == rows[..k] + [row];
    } else {
      assert rows[..k] == rows && rows[k..] == [];
    }
  }

  lemma AppendAssociates<T>(a: seq<T>, x: T, b: seq<T>)
    ensures a + ([x] + b) == a + [x] + b
  {
  }

  lemma RelinkedStep(scheme: Scheme, signer: Option<Signer>, prev: Option<string>, rows: seq<Row>, k: nat)
    requires k < |rows|
    ensures var row := MendedRow(scheme, signer, rows[k], prev);
      Relinked(scheme, signer, prev, rows[k..])
      == [row] + Relinked(scheme, signer, Some(row.event.hash), rows[k + 1..])
  {
    assert rows[k..][0] == rows[k] && rows[k..][1..] == rows[k + 1..];
  }

  /** The first pending update concerns row k, or row k is in place and needs none. */
  lemma FirstUpdate(scheme: Scheme, signer: Option<Signer>, prev: Option<string>, rows: seq<Row>, k: nat)
    requires DistinctIds(rows) && k < |rows|
    ensures var row := MendedRow(scheme, signer, rows[k], prev);
      && DistinctIds(rows[k := row])
      && ApplyMany(signer, rows, Updates(scheme, prev, rows[k..]))
         == ApplyMany(signer, rows[k := row], Updates(scheme, Some(row.event.hash), rows[k + 1..]))
  {
    var tail := rows[k..];
    assert tail[0] == rows[k] && tail[1..] == rows[k + 1..];
    var row := MendedRow(scheme, signer, rows[k], prev);
    SameIdsDistinct(rows, rows[k := row]);
    var later := Updates(scheme, Some(row.event.hash), rows[k + 1..]);
    if InPlace(scheme, rows[k].event, prev) {
      assert rows[k := row] == rows;
      assert Updates(scheme, prev, tail) == later;
    } else {
      var u := Update(rows[k].id, row.event.hash, prev);
      forall i | 0 <= i < |rows| && i != k ensures rows[i].id != u.id {
        if rows[i].id == u.id { SameIdSamePlace(rows, i, k); }
      }
      assert UpdateRows(signer, rows, u) == rows[k := row];
      assert Updates(scheme, prev, tail) == [u] + later;
    }
  }

  /** Only hash, link and signature fields change, whatever the rows. */
  lemma {:induction false} RelinkedKeepsContent(scheme: Scheme, signer: Option<Signer>, prev: Option<string>,
                                                rows: seq<Row>, i: nat)
    requires i < |rows|
    ensures var r := Relinked(scheme, signer, prev, rows);
      && r[i].id == rows[i].id
      && r[i].event.body == rows[i].event.body
      && r[i].event.epochId == rows[i].event.epochId
      && (signer.None? ==> r[i].event.signature == rows[i].event.signature)
      && (signer.None? ==> r[i].event.signatureKid == rows[i].event.signatureKid)
    decreases i
  {
    if i > 0 {
      RelinkedKeepsContent(scheme, signer, Some(Mended(scheme, signer, rows[0].event, prev).hash), rows[1..], i - 1);
    }
  }

  /** The link structure of a recomputed chain: every row is in place behind the one before it. */
  lemma {:induction false} RelinkedInPlace(scheme: Scheme, signer: Option<Signer>, prev: Option<string>,
                                           rows: seq<Row>, i: nat)
    requires i < |rows|
    ensures RowInPlace(scheme, prev, Relinked(scheme, signer, prev, rows), i)
    decreases i
  {
    if i > 0 {
      RelinkedInPlace(scheme, signer, Some(Mended(scheme, signer, rows[0].event, prev).hash), rows[1..], i - 1);
    }
  }

  /** Recomputing a chain from its start always yields an intact chain. */
  lemma RelinkedIsIntact(scheme: Scheme, signer: Option<Signer>, rows: seq<Row>)
    ensures Intact(scheme, Events(Relinked(scheme, signer, None, rows)))
  {
    var events := Events(Relinked(scheme, signer, None, rows));
    forall i | 0 <= i < |events| ensures HashOk(scheme, events, i) && LinkOk(events, i) {
      RelinkedInPlace(scheme, signer, None, rows, i);
    }
  }

  /** Recomputing from the first broken event equals recomputing everything: rows before it are left as they are. */
  lemma {:induction false} RelinkFromBreak(scheme: Scheme, signer: Option<Signer>, prev: Option<string>,
                                           rows: seq<Row>, k: nat)
    requires k <= |rows|
    requires forall i :: 0 <= i < k ==> RowInPlace(scheme, prev, rows, i)
    ensures Relinked(scheme, signer, prev, rows)
      == rows[..k] + Relinked(scheme, signer, PrevAt(prev, rows, k), rows[k..])
    decreases k
  {
    if k > 0 {
      assert RowInPlace(scheme, prev, rows, 0);
      assert MendedRow(scheme, signer, rows[0], prev) == rows[0];
      var rest, next := rows[1..], Some(rows[0].event.hash);
      RestInPlace(scheme, prev, rows, k);
      RelinkFromBreak(scheme, signer, next, rest, k - 1);
      assert Relinked(scheme, signer, prev, rows) == [rows[0]] + Relinked(scheme, signer, next, rest);
      assert rest[k - 1..] == rows[k..] && PrevAt(next, rest, k - 1) == PrevAt(prev, rows, k);
      PrefixGrows(rows, k, Relinked(scheme, signer, PrevAt(prev, rows, k), rows[k..]));
    } else {
      assert rows[0..] == rows;
    }
  }

  lemma PrefixGrows<T>(s: seq<T>, k: nat, after: seq<T>)
    requires 0 < k <= |s|
    ensures [s[0]] + (s[1..][..k - 1] + after) == s[..k] + after
  {
    assert [s[0]] + s[1..][..k - 1] == s[..k];
  }

  lemma RestInPlace(scheme: Scheme, prev: Option<string>, rows: seq<Row>, k: nat)
    requires 0 < k <= |rows|
    requires forall i :: 0 <= i < k ==> RowInPlace(scheme, prev, rows, i)
    ensures var rest, next := rows[1..], Some(rows[0].event.hash);
      forall i :: 0 <= i < k - 1 ==> RowInPlace(scheme, next, rest, i)
  {
    var rest, next := rows[1..], Some(rows[0].event.hash);
    forall i | 0 <= i < k - 1 ensures RowInPlace(scheme, next, rest, i) {
      assert RowInPlace(scheme, prev, rows, i + 1);
    }
  }

  /** The rows before the break ask for no update. */
  lemma {:induction false} UpdatesFromBreak(scheme: Scheme, prev: Option<string>, rows: seq<Row>, k: nat)
    requires k <= |rows|
    requires forall i :: 0 <= i < k ==> RowInPlace(scheme, prev, rows, i)
    ensures Updates(scheme, prev, rows) == Updates(scheme, PrevAt(prev, rows, k), rows[k..])
    decreases k
  {
    if k > 0 {
      assert RowInPlace(scheme, prev, rows, 0);
      var rest, next := rows[1..], Some(rows[0].event.hash);
      RestInPlace(scheme, prev, rows, k);
      UpdatesFromBreak(scheme, next, rest, k - 1);
      assert rest[k - 1..] == rows[k..] && PrevAt(next, rest, k - 1) == PrevAt(prev, rows, k);
    } else {
      assert rows[0..] == rows;
    }
  }

  /** On an intact chain recomputation changes nothing; so a second repair is a no-op. */
  lemma RepairTwice(scheme: Scheme, signer: Option<Signer>, other: Option<Signer>, rows: seq<Row>)
    ensures Intact(scheme, Events(rows)) <==> Relinked(scheme, signer, None, rows) == rows
    ensures var once := Relinked(scheme, signer, None, rows);
      Relinked(scheme, other, None, once) == once
  {
    var once := Relinked(scheme, signer, None, rows);
    RelinkedIsIntact(scheme, signer, rows);
    if Intact(scheme, Events(rows)) {
      IntactIsFixed(scheme, signer, rows);
    }
    IntactIsFixed(scheme, other, once);
  }

  lemma PrefixInPlace(scheme: Scheme, rows: seq<Row>, k: nat)
    requires k <= |rows|
    requires forall i :: 0 <= i < k ==> HashOk(scheme, Events(rows), i) && LinkOk(Events(rows), i)
    ensures forall i :: 0 <= i < k ==> RowInPlace(scheme, None, rows, i)
  {
    forall i | 0 <= i < k ensures RowInPlace(scheme, None, rows, i) {
      assert HashOk(scheme, Events(rows), i) && LinkOk(Events(rows), i);
    }
  }

  lemma IntactIsFixed(scheme: Scheme, signer: Option<Signer>, rows: seq<Row>)
    requires Intact(scheme, Events(rows))
    ensures Relinked(scheme, signer, None, rows) == rows
  {
    PrefixInPlace(scheme, rows, |rows|);
    RelinkFromBreak(scheme, signer, None, rows, |rows|);
    assert rows[|rows|..] == [];
    assert rows[..|rows|] == rows;
  }

  predicate HasUpdate(updates: seq<Update>, id: nat) {
    updates != [] && (updates[0].id == id || HasUpdate(updates[1..], id))
  }

  /** A row is updated exactly if the recomputed row differs in hash or link. */
  lemma {:induction false} UpdatedIffDifferent(scheme: Scheme, signer: Option<Signer>, prev: Option<string>,
                                               rows: seq<Row>, i: nat)
    requires DistinctIds(rows) && i < |rows|
    ensures var r := Relinked(scheme, signer, prev, rows);
      HasUpdate(Updates(scheme, prev, rows), rows[i].id)
      <==> (r[i].event.hash != rows[i].event.hash || r[i].event.prevHash != rows[i].event.prevHash)
    decreases |rows|
  {
    var rest, next := rows[1..], Some(MendedRow(scheme, signer, rows[0], prev).event.hash);
    HeadUpdate(scheme, signer, prev, rows, rows[i].id);
    if i == 0 {
      if HasUpdate(Updates(scheme, next, rest), rows[0].id) {
        var k := UpdatedRow(scheme, next, rest, rows[0].id);
        SameIdSamePlace(rows, 0, k + 1);
      }
    } else {
      TailIdsDistinct(rows);
      if rows[0].id == rows[i].id { SameIdSamePlace(rows, 0, i); }
      UpdatedIffDifferent(scheme, signer, next, rest, i - 1);
    }
  }

  lemma TailIdsDistinct(rows: seq<Row>)
    requires DistinctIds(rows) && rows != []
    ensures DistinctIds(rows[1..])
  {
    NoRepeatsSlice(Ids(rows), 1, |rows|);
    assert Ids(rows)[1..|rows|] == Ids(rows[1..]);
  }

  /** An update of the first row comes first, if it needs one. */
  lemma HeadUpdate(scheme: Scheme, signer: Option<Signer>, prev: Option<string>, rows: seq<Row>, id: nat)
    requires rows != []
    ensures HasUpdate(Updates(scheme, prev, rows), id) <==>
      || (!InPlace(scheme, rows[0].event, prev) && rows[0].id == id)
      || HasUpdate(Updates(scheme, Some(MendedRow(scheme, signer, rows[0], prev).event.hash), rows[1..]), id)
  {
    var newHash := ComputeHash(scheme, prev, scheme.canon(rows[0].event.body));
    var later := Updates(scheme, Some(newHash), rows[1..]);
    assert InPlace(scheme, rows[0].event, prev) ==> [] + later == later;
    assert ([Update(rows[0].id, newHash, prev)] + later)[1..] == later;
  }

  lemma {:induction false} UpdatedRow(scheme: Scheme, prev: Option<string>, rows: seq<Row>, id: nat) returns (i: nat)
    requires HasUpdate(Updates(scheme, prev, rows), id)
    ensures i < |rows| && rows[i].id == id
    decreases |rows|
  {
    HeadUpdate(scheme, None, prev, rows, id);
    if rows[0].id == id {
      i := 0;
    } else {
      i := UpdatedRow(scheme, Some(MendedRow(scheme, None, rows[0], prev).event.hash), rows[1..], id);
      i := i + 1;
    }
  }

  // ---- The script ----

  /** Step 1: the first event that is not chained to the one before it. */
  method FindFirstBroken(scheme: Scheme, events: seq<Event>) returns (firstBroken: Option<nat>)
    ensures firstBroken.None? <==> Intact(scheme, events)
    ensures firstBroken.Some? ==>
      && firstBroken.value < |events|
      && !(HashOk(scheme, events, firstBroken.value) && LinkOk(events, firstBroken.value))
      && forall i :: 0 <= i < firstBroken.value ==> HashOk(scheme, events, i) && LinkOk(events, i)
  {
    for i := 0 to |events|
      invariant forall k :: 0 <= k < i ==> HashOk(scheme, events, k) && LinkOk(events, k)
    {
      var expectedPrevHash := if i == 0 then None else Some(events[i - 1].hash);
      var expectedHash := ComputeHash(scheme, expectedPrevHash, scheme.canon(events[i].body));
      if events[i].hash != expectedHash || events[i].prevHash != LinkTo(expectedPrevHash) {
        assert !(HashOk(scheme, events, i) && LinkOk(events, i));
        return Some(i);
      }
      assert HashOk(scheme, events, i) && LinkOk(events, i);
    }
    firstBroken := None;
  }

  /** Step 2: recompute hashes from the break, noting every row that must change. */
  method RecomputeFrom(scheme: Scheme, rows: seq<Row>, firstBroken: nat) returns (updates: seq<Update>)
    requires firstBroken < |rows|
    ensures updates == Updates(scheme, PrevAt(None, rows, firstBroken), rows[firstBroken..])
  {
    updates := [];
    var runningPrevHash := if firstBroken == 0 then None else Some(rows[firstBroken - 1].event.hash);
    ghost var all := Updates(scheme, runningPrevHash, rows[firstBroken..]);
    for i := firstBroken to |rows|
      invariant all == updates + Updates(scheme, runningPrevHash, rows[i..])
    {
      NextUpdate(scheme, runningPrevHash, rows, i);
      var event := rows[i].event;
      var newHash := ComputeHash(scheme, runningPrevHash, scheme.canon(event.body));
      ghost var later := Updates(scheme, Some(newHash), rows[i + 1..]);
      if event.hash != newHash || event.prevHash != LinkTo(runningPrevHash) {
        var u := Update(rows[i].id, newHash, runningPrevHash);
        AppendAssociates(updates, u, later);
        updates := updates + [u];
      } else {
        assert [] + later == later;
      }
      runningPrevHash := Some(newHash);
    }
    assert rows[|rows|..] == [];
  }

  lemma NextUpdate(scheme: Scheme, prev: Option<string>, rows: seq<Row>, i: nat)
    requires i < |rows|
    ensures var newHash := ComputeHash(scheme, prev, scheme.canon(rows[i].event.body));
      Updates(scheme, prev, rows[i..])
      == (if InPlace(scheme, rows[i].event, prev) then [] else [Update(rows[i].id, newHash, prev)])
         + Updates(scheme, Some(newHash), rows[i + 1..])
  {
    assert rows[i..][0] == rows[i] && rows[i..][1..] == rows[i + 1..];
  }

  datatype Outcome =
    | NoEvents
    | AlreadyValid
    | DryRun(updates: seq<Update>)
    | Repaired(updates: seq<Update>, valid: bool)

  class Collection {
    var rows: seq<Row>

    ghost predicate Valid()
      reads this
    {
      DistinctIds(rows)
    }

    constructor (rows: seq<Row>)
      requires DistinctIds(rows)
      ensures Valid() && this.rows == rows
    {
      this.rows := rows;
    }

    /**
     * The whole script. With --apply a broken chain becomes the recomputed one: its own closing scan then accepts,
     * and in every other case no row is touched.
     */
    method Repair(scheme: Scheme, signer: Option<Signer>, apply: bool) returns (r: Outcome)
      requires Valid()
      modifies this
      ensures Valid()
      ensures r.NoEvents? <==> old(rows) == []
      ensures r.AlreadyValid? <==> old(rows) != [] && Intact(scheme, Events(old(rows)))
      ensures r.DryRun? <==> !Intact(scheme, Events(old(rows))) && !apply
      ensures !r.Repaired? ==> rows == old(rows)
      ensures r.Repaired? ==> r.valid
      ensures apply ==> rows == Relinked(scheme, signer, None, old(rows)) && Intact(scheme, Events(rows))
      ensures r.DryRun? || r.Repaired? ==> r.updates == Updates(scheme, None, old(rows))
    {
      if rows == [] {
        return NoEvents;
      }
      var firstBroken := FindFirstBroken(scheme, Events(rows));
      RelinkedIsIntact(scheme, signer, rows);
      if firstBroken.None? {
        IntactIsFixed(scheme, signer, rows);
        return AlreadyValid;
      }
      var k := firstBroken.value;
      var updates := RecomputeFrom(scheme, rows, k);
      PrefixInPlace(scheme, rows, k);
      RelinkFromBreak(scheme, signer, None, rows, k);
      UpdatesFromBreak(scheme, None, rows, k);
      UpdatesProduceRelinked(scheme, signer, PrevAt(None, rows, k), rows, k);
      if !apply {
        return DryRun(updates);
      }
      ApplyAll(signer, updates);
      var remaining := FindFirstBroken(scheme, Events(rows));
      r := Repaired(updates, remaining.None?);
    }

    /** Step 4: write the updates one by one. */
    method ApplyAll(signer: Option<Signer>, updates: seq<Update>)
      requires Valid()
      modifies this
      ensures Valid()
      ensures rows == ApplyMany(signer, old(rows), updates)
    {
      for i := 0 to |updates|
        invariant Valid()
        invariant ApplyMany(signer, rows, updates[i..]) == ApplyMany(signer, old(rows), updates)
      {
        assert updates[i..][1..] == updates[i + 1..];
        UpdateOne(signer, updates[i]);
      }
    }

    /** Write the chain fields of the row with the given key. */
    method UpdateOne(signer: Option<Signer>, u: Update)
      requires Valid()
      modifies this
      ensures Valid()
      ensures rows == UpdateRows(signer, old(rows), u)
    {
      for i := 0 to |rows|
        invariant rows == old(rows)
        invariant forall k :: 0 <= k < i ==> rows[k].id != u.id
      {
        if rows[i].id == u.id {
          forall k | i < k < |rows| ensures rows[k].id != u.id {
            if rows[k].id == u.id { SameIdSamePlace(rows, i, k); }
          }
          rows := rows[i := ApplyUpdate(signer, rows[i], u)];
          assert rows == UpdateRows(signer, old(rows), u);
          SameIdsDistinct(old(rows), rows);
          return;
        }
      }
      assert rows == UpdateRows(signer, old(rows), u);
    }
  }

  // ---- Acceptance by the service ----

  /** Whether the signature of a row will pass once the row was recomputed behind the given hash. */
  predicate FitsAfterRepair(scheme: Scheme, keys: Keyring, signer: Option<Signer>, e: Event, prev: Option<string>) {
    if InPlace(scheme, e, prev) then SignatureOk(scheme, keys, e)
    else
      var newHash := ComputeHash(scheme, prev, scheme.canon(e.body));
      match signer
      case None => !Signed(e) || Fits(scheme, keys, e.signatureKid, newHash, e.signature.value)
      case Some(s) =>
        s.sign(newHash) == ""
        || Fits(scheme, keys, if s.kid.Some? then s.kid else e.signatureKid, newHash, s.sign(newHash))
  }

  /** The key is not known, or the signature is the one made with it. */
  predicate Fits(scheme: Scheme, keys: Keyring, kid: Option<string>, hash: string, signature: string) {
    keys.Verifying(kid).None? || signature == scheme.mac(hash, keys.Verifying(kid).value)
  }

  lemma MendedFits(scheme: Scheme, keys: Keyring, signer: Option<Signer>, e: Event, prev: Option<string>)
    ensures SignatureOk(scheme, keys, Mended(scheme, signer, e, prev))
      <==> FitsAfterRepair(scheme, keys, signer, e, prev)
  {
  }

  /** Row i of the recomputed chain is row i of the input, mended behind the row before it. */
  lemma {:induction false} RelinkedAt(scheme: Scheme, signer: Option<Signer>, prev: Option<string>,
                                      rows: seq<Row>, i: nat)
    requires i < |rows|
    ensures var r := Relinked(scheme, signer, prev, rows);
      r[i] == MendedRow(scheme, signer, rows[i], PrevAt(prev, r, i))
    decreases i
  {
    if i > 0 {
      RelinkedAt(scheme, signer, Some(Mended(scheme, signer, rows[0].event, prev).hash), rows[1..], i - 1);
    }
  }

  /**
   * The service accepts a repaired epoch, whatever the limit, exactly if among the rows it looks at those that were in
   * place have signatures that fit, and the others carry or get one that fits the new hash, or none it can check.
   */
  lemma ServiceAcceptsRepaired(scheme: Scheme, keys: Keyring, signer: Option<Signer>, rows: seq<Row>, limit: nat)
    requires CollisionFree(scheme)
    requires forall i :: 0 <= i < |rows| ==> !rows[i].event.body.eventId.Absent?
    requires DistinctIdentities(Events(rows))
    ensures var after := Relinked(scheme, signer, None, rows);
      Trusted(scheme, keys, Events(after), limit) <==>
      forall i :: 0 <= i < Min(limit, |rows|) ==>
        FitsAfterRepair(scheme, keys, signer, rows[i].event, PrevAt(None, after, i))
  {
    var after := Relinked(scheme, signer, None, rows);
    var repaired, n := Events(after), Min(limit, |rows|);
    RelinkedIsIntact(scheme, signer, rows);
    RepairedIdentities(scheme, signer, rows);
    IntactIsOrdered(scheme, repaired);
    forall p: seq<Event> | Orders(p, repaired) ensures p == repaired { OrderIsUnique(repaired, p, repaired); }
    assert Trusted(scheme, keys, repaired, limit) <==> Accepts(scheme, keys, repaired[..n]);
    forall i | 0 <= i < n
      ensures EventOk(scheme, keys, repaired[..n], i)
        <==> FitsAfterRepair(scheme, keys, signer, rows[i].event, PrevAt(None, after, i)) {
      assert HashOk(scheme, repaired, i) && LinkOk(repaired, i);
      assert Before(repaired[..n], i) == Before(repaired, i);
      RelinkedAt(scheme, signer, None, rows, i);
      MendedFits(scheme, keys, signer, rows[i].event, PrevAt(None, after, i));
    }
  }

  lemma RepairedIdentities(scheme: Scheme, signer: Option<Signer>, rows: seq<Row>)
    requires forall i :: 0 <= i < |rows| ==> !rows[i].event.body.eventId.Absent?
    requires DistinctIdentities(Events(rows))
    ensures DistinctIdentities(Events(Relinked(scheme, signer, None, rows)))
  {
    var repaired := Events(Relinked(scheme, signer, None, rows));
    forall i | 0 <= i < |rows| ensures Identity(repaired[i]) == Identity(Events(rows)[i]) {
      RelinkedKeepsContent(scheme, signer, None, rows, i);
    }
    assert Identities(repaired) == Identities(Events(rows));
  }

  /** An epoch of unsigned rows is accepted after a repair without signing. */
  lemma UnsignedRepairIsAccepted(scheme: Scheme, keys: Keyring, rows: seq<Row>, limit: nat)
    requires CollisionFree(scheme)
    requires forall i :: 0 <= i < |rows| ==> !rows[i].event.body.eventId.Absent? && !Signed(rows[i].event)
    requires DistinctIdentities(Events(rows))
    ensures Trusted(scheme, keys, Events(Relinked(scheme, None, None, rows)), limit)
  {
    ServiceAcceptsRepaired(scheme, keys, None, rows, limit);
  }

  /** A row whose hash changes loses a signature the service could check, when signatures tell hashes apart. */
  lemma RepairLosesSignature(scheme: Scheme, keys: Keyring, e: Event, prev: Option<string>)
    requires forall h, k, secret :: scheme.mac(h, secret) == scheme.mac(k, secret) ==> h == k
    requires SignatureOk(scheme, keys, e) && CountsAsSigned(keys, e)
    requires e.hash != ComputeHash(scheme, prev, scheme.canon(e.body))
    ensures !FitsAfterRepair(scheme, keys, None, e, prev)
  {
  }
}
