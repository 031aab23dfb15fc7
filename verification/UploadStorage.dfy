/** Uploads and version restores over two stores: the object bucket and the version records. */
module UploadStorage {
  import opened Prelude

  datatype Blob = Blob(body: seq<bv8>, checksum: string)

  datatype VersionRecord = VersionRecord(version: nat, objectKey: string, checksum: string, filename: string)

  datatype DocRow = DocRow(currentVersion: nat, versions: seq<VersionRecord>)

  datatype File = File(body: seq<bv8>, originalName: string)

  /** The documents with their version records, and the bucket. */
  datatype State = State(docs: map<string, DocRow>, bucket: map<string, Blob>)

  // ---- Object keys ----

  function Digit(n: nat): char
    requires n < 10
  {
    '0' + n as char
  }

  function Decimal(n: nat): string {
    if n < 10 then [Digit(n)] else Decimal(n / 10) + [Digit(n % 10)]
  }

  lemma {:induction false} DecimalHasNoSlash(n: nat)
    ensures '/' !in Decimal(n) && Decimal(n) != ""
  {
    if n >= 10 { DecimalHasNoSlash(n / 10); }
  }

  lemma {:induction false} DecimalIsInjective(m: nat, n: nat)
    requires Decimal(m) == Decimal(n)
    ensures m == n
  {
    var s, k := Decimal(m), |Decimal(m)| - 1;
    if m >= 10 { DecimalHasNoSlash(m / 10); }
    if n >= 10 { DecimalHasNoSlash(n / 10); }
    assert s[k] == Digit(m % 10) == Digit(n % 10);
    if m >= 10 && n >= 10 {
      assert Decimal(m / 10) == s[..k] == Decimal(n / 10);
      DecimalIsInjective(m / 10, n / 10);
    }
  }

  predicate IsSafe(c: char) {
    'a' <= c <= 'z' || 'A' <= c <= 'Z' || '0' <= c <= '9' || c == '.' || c == '_' || c == '-'
  }

  function SafeName(name: string): (r: string)
    ensures |r| == |name|
  {
    if name == "" then "" else [if IsSafe(name[0]) then name[0] else '-'] + SafeName(name[1..])
  }

  /** Safe characters stay, every other one becomes a dash. */
  lemma {:induction false} SafeNameAt(name: string, i: nat)
    requires i < |name|
    ensures SafeName(name)[i] == if IsSafe(name[i]) then name[i] else '-'
  {
    if i > 0 { SafeNameAt(name[1..], i - 1); }
  }

  function BuildObjectKey(docId: string, version: nat, filename: string): string {
    "doc/" + docId + "/v" + Decimal(version) + "/" + SafeName(filename)
  }

  /** Safe are dash, dot and underscore, digits, capital and small letters. */
  lemma SafeCharacters(c: char)
    ensures IsSafe(c) <==>
      c as int in {45, 46, 95} || 48 <= c as int <= 57 || 65 <= c as int <= 90 || 97 <= c as int <= 122
  {
  }

  /** The number that decimal digits stand for. */
  function ReadDecimal(s: string): int {
    if s == "" then 0 else 10 * ReadDecimal(s[..|s| - 1]) + (s[|s| - 1] as int - '0' as int)
  }

  lemma {:induction false} DecimalReadsBack(n: nat)
    ensures ReadDecimal(Decimal(n)) == n && forall i :: 0 <= i < |Decimal(n)| ==> '0' <= Decimal(n)[i] <= '9'
  {
    if n < 10 {
      assert Decimal(n)[..0] == "";
    } else {
      DecimalReadsBack(n / 10);
      assert Decimal(n)[..|Decimal(n)| - 1] == Decimal(n / 10);
    }
  }

  /** A key tells the document, the version and the safe file name it was built from. */
  lemma KeyIsInjective(a: string, v: nat, f: string, b: string, w: nat, g: string)
    requires '/' !in a && '/' !in b
    requires BuildObjectKey(a, v, f) == BuildObjectKey(b, w, g)
    ensures a == b && v == w && SafeName(f) == SafeName(g)
  {
    var restA, restB := "v" + Decimal(v) + "/" + SafeName(f), "v" + Decimal(w) + "/" + SafeName(g);
    assert BuildObjectKey(a, v, f) == "doc/" + (a + "/" + restA);
    assert BuildObjectKey(b, w, g) == "doc/" + (b + "/" + restB);
    SameTail("doc/", a + "/" + restA, b + "/" + restB);
    SplitAtFirst('/', a, restA, b, restB);
    DecimalHasNoSlash(v);
    DecimalHasNoSlash(w);
    SplitAtFirst('/', "v" + Decimal(v), SafeName(f), "v" + Decimal(w), SafeName(g));
    SameTail("v", Decimal(v), Decimal(w));
    DecimalIsInjective(v, w);
  }

  // ---- Integrity ----

  /** The record's key was built for this document and this version or an earlier one. */
  ghost predicate BuiltFor(docId: string, rec: VersionRecord) {
    exists v: nat, name: string :: v <= rec.version && rec.objectKey == BuildObjectKey(docId, v, name)
  }

  /** The object a record refers to is there, with the recorded checksum. */
  ghost predicate Backed(sha: seq<bv8> -> string, bucket: map<string, Blob>, rec: VersionRecord) {
    && rec.objectKey in bucket
    && bucket[rec.objectKey].checksum == rec.checksum == sha(bucket[rec.objectKey].body)
  }

  /** Versions are exactly 1 to the current one, each with a key built for it or an earlier one. */
  ghost predicate RowShaped(docId: string, row: DocRow) {
    && '/' !in docId
    && row.currentVersion == |row.versions|
    && forall i :: 0 <= i < |row.versions| ==> RecordShaped(docId, row, i)
  }

  ghost predicate RecordShaped(docId: string, row: DocRow, i: nat)
    requires i < |row.versions|
  {
    row.versions[i].version == i + 1 && BuiltFor(docId, row.versions[i])
  }

  ghost predicate RowBacked(sha: seq<bv8> -> string, bucket: map<string, Blob>, row: DocRow) {
    forall i :: 0 <= i < |row.versions| ==> Backed(sha, bucket, row.versions[i])
  }

  ghost predicate Shaped(s: State) {
    forall id :: id in s.docs ==> RowShaped(id, s.docs[id])
  }

  ghost predicate AllBacked(sha: seq<bv8> -> string, s: State) {
    forall id :: id in s.docs ==> RowBacked(sha, s.bucket, s.docs[id])
  }

  /** Versions are exactly 1 to the current one, each with its object in the bucket. */
  ghost predicate Integrity(sha: seq<bv8> -> string, s: State) {
    Shaped(s) && AllBacked(sha, s)
  }

  /** The key the next upload writes is referred to by no record of any document. */
  lemma NextKeyIsUnused(s: State, docId: string, name: string, id: string, i: nat)
    requires Shaped(s) && docId in s.docs && id in s.docs && i < |s.docs[id].versions|
    ensures s.docs[id].versions[i].objectKey != BuildObjectKey(docId, s.docs[docId].currentVersion + 1, name)
  {
    var rec := s.docs[id].versions[i];
    assert RowShaped(id, s.docs[id]) && RowShaped(docId, s.docs[docId]) && RecordShaped(id, s.docs[id], i);
    var v: nat, f: string :| v <= rec.version && rec.objectKey == BuildObjectKey(id, v, f);
    if rec.objectKey == BuildObjectKey(docId, s.docs[docId].currentVersion + 1, name) {
      KeyIsInjective(id, v, f, docId, s.docs[docId].currentVersion + 1, name);
    }
  }

  // ---- Upload and restore ----

  /**
   * How the registration call of an upload ends: registered and answered; refused without effect; or registered
   * while the answer is lost, so that the caller sees a failure.
   */
  datatype Reply = Answered | Refused | AnswerLost

  datatype UploadOutcome = Uploaded(version: nat, objectKey: string, checksum: string) | Rejected

  function NextVersion(s: State, docId: string): nat
    requires docId in s.docs
  {
    s.docs[docId].currentVersion + 1
  }

  function Registered(s: State, docId: string, rec: VersionRecord): State
    requires docId in s.docs
  {
    s.(docs := s.docs[docId := DocRow(rec.version, s.docs[docId].versions + [rec])])
  }

  /** The record an upload registers. */
  function UploadRecord(sha: seq<bv8> -> string, s: State, docId: string, file: File): VersionRecord
    requires docId in s.docs
  {
    VersionRecord(NextVersion(s, docId), BuildObjectKey(docId, NextVersion(s, docId), file.originalName),
                  sha(file.body), file.originalName)
  }

  /** The state after an upload that got as far as the bucket. */
  function AfterUpload(sha: seq<bv8> -> string, s: State, docId: string, file: File, reply: Reply, cleaned: bool): State
    requires docId in s.docs
  {
    var rec := UploadRecord(sha, s, docId, file);
    var put := s.(bucket := s.bucket[rec.objectKey := Blob(file.body, rec.checksum)]);
    match reply
    case Answered => Registered(put, docId, rec)
    case Refused => if cleaned then put.(bucket := put.bucket - {rec.objectKey}) else put
    case AnswerLost =>
      var done := Registered(put, docId, rec);
      if cleaned then done.(bucket := done.bucket - {rec.objectKey}) else done
  }

  predicate CanRestore(s: State, docId: string, source: nat) {
    docId in s.docs && 1 <= source <= |s.docs[docId].versions| && source != s.docs[docId].currentVersion
  }

  function AfterRestore(s: State, docId: string, source: nat): State
    requires CanRestore(s, docId, source)
  {
    Registered(s, docId, s.docs[docId].versions[source - 1].(version := NextVersion(s, docId)))
  }

  datatype Request =
    | Create(docId: string)
    | Put(docId: string, file: File, reply: Reply, deleted: bool)
    | Restore(docId: string, source: nat)

  /** A new document's id is new and holds no slash; requests that cannot be met change nothing. */
  function Step(sha: seq<bv8> -> string, s: State, r: Request): State {
    match r
    case Create(id) => if id in s.docs || '/' in id then s else s.(docs := s.docs[id := DocRow(0, [])])
    case Put(id, file, reply, deleted) =>
      if id in s.docs then AfterUpload(sha, s, id, file, reply, deleted) else s
    case Restore(id, source) => if CanRestore(s, id, source) then AfterRestore(s, id, source) else s
  }

  class Platform {
    const sha: seq<bv8> -> string
    var docs: map<string, DocRow>
    var bucket: map<string, Blob>

    function Value(): State
      reads this
    {
      State(docs, bucket)
    }

    constructor (sha: seq<bv8> -> string)
      ensures Value() == State(map[], map[]) && this.sha == sha
    {
      this.sha := sha;
      docs, bucket := map[], map[];
    }

    /** A new document has no version yet. */
    method CreateDocument(docId: string) returns (ok: bool)
      modifies this
      ensures ok <==> docId !in old(docs) && '/' !in docId
      ensures Value() == Step(sha, old(Value()), Create(docId))
    {
      if docId in docs || '/' in docId { return false; }
      docs := docs[docId := DocRow(0, [])];
      ok := true;
    }

    method PutObject(key: string, blob: Blob)
      modifies this
      ensures Value() == old(Value()).(bucket := old(bucket)[key := blob])
    {
      bucket := bucket[key := blob];
    }

    method DeleteObject(key: string)
      modifies this
      ensures Value() == old(Value()).(bucket := old(bucket) - {key})
    {
      bucket := bucket - {key};
    }

    /** The metadata service registers a version only with the next number. */
    method CreateVersion(docId: string, rec: VersionRecord) returns (ok: bool)
      modifies this
      ensures ok <==> docId in old(docs) && rec.version == NextVersion(old(Value()), docId)
      ensures Value() == if ok then Registered(old(Value()), docId, rec) else old(Value())
    {
      if docId !in docs || rec.version != docs[docId].currentVersion + 1 { return false; }
      docs := docs[docId := DocRow(rec.version, docs[docId].versions + [rec])];
      ok := true;
    }

    /**
     * `allowed` is the ownership guard, `clean` the malware verdict, `deleted` whether the rollback delete succeeds.
     */
    method Upload(docId: string, file: Option<File>, allowed: bool, clean: bool, reply: Reply, deleted: bool)
      returns (o: UploadOutcome)
      modifies this
      ensures var stored := file.Some? && docId in old(docs) && allowed && clean;
        && (stored ==> Value() == Step(sha, old(Value()), Put(docId, file.value, reply, deleted)))
        && (!stored ==> Value() == old(Value()))
        && (o.Uploaded? <==> stored && reply == Answered)
        && (o.Uploaded? ==> o == Uploaded(NextVersion(old(Value()), docId),
              BuildObjectKey(docId, NextVersion(old(Value()), docId), file.value.originalName), sha(file.value.body)))
    {
      if file.None? || docId !in docs || !allowed { return Rejected; }
      var nextVersion := docs[docId].currentVersion + 1;
      if !clean { return Rejected; }
      var checksum := sha(file.value.body);
      var objectKey := BuildObjectKey(docId, nextVersion, file.value.originalName);
      PutObject(objectKey, Blob(file.value.body, checksum));
      var registered := false;
      if reply != Refused {
        registered := CreateVersion(docId, VersionRecord(nextVersion, objectKey, checksum, file.value.originalName));
      }
      if registered && reply == Answered {
        return Uploaded(nextVersion, objectKey, checksum);
      }
      if deleted {
        DeleteObject(objectKey);
      }
      o := Rejected;
    }

    method RestoreVersion(docId: string, source: nat, allowed: bool) returns (ok: bool)
      modifies this
      ensures ok <==> allowed && CanRestore(old(Value()), docId, source)
      ensures Value() == if allowed then Step(sha, old(Value()), Restore(docId, source)) else old(Value())
    {
      if docId !in docs || !allowed { return false; }
      var row := docs[docId];
      if source < 1 || source > |row.versions| || source == row.currentVersion { return false; }
      ok := CreateVersion(docId, row.versions[source - 1].(version := row.currentVersion + 1));
    }
  }

  // ---- What each request keeps ----

  lemma RegisteringKeepsShape(s: State, docId: string, rec: VersionRecord)
    requires Shaped(s) && docId in s.docs
    requires rec.version == NextVersion(s, docId) && BuiltFor(docId, rec)
    ensures Shaped(Registered(s, docId, rec))
  {
    var t := Registered(s, docId, rec);
    forall id | id in t.docs ensures RowShaped(id, t.docs[id]) {
      assert RowShaped(id, s.docs[id]);
      var row := t.docs[id];
      forall i | 0 <= i < |row.versions| ensures RecordShaped(id, row, i) {
        if i < |s.docs[id].versions| { assert RecordShaped(id, s.docs[id], i); }
      }
    }
  }

  /** A registered record adds its own object to those that have to be there. */
  lemma RegisteringAndBacking(sha: seq<bv8> -> string, s: State, docId: string, rec: VersionRecord)
    requires docId in s.docs
    ensures AllBacked(sha, Registered(s, docId, rec)) <==> AllBacked(sha, s) && Backed(sha, s.bucket, rec)
  {
    var t := Registered(s, docId, rec);
    var row, n := t.docs[docId], |s.docs[docId].versions|;
    if AllBacked(sha, t) {
      assert RowBacked(sha, t.bucket, row);
      assert row.versions[n] == rec;
      forall id | id in s.docs ensures RowBacked(sha, s.bucket, s.docs[id]) {
        assert RowBacked(sha, t.bucket, t.docs[id]);
        forall i | 0 <= i < |s.docs[id].versions| ensures Backed(sha, s.bucket, s.docs[id].versions[i]) {
          assert Backed(sha, t.bucket, t.docs[id].versions[i]);
        }
      }
    }
    if AllBacked(sha, s) && Backed(sha, s.bucket, rec) {
      forall id | id in t.docs ensures RowBacked(sha, t.bucket, t.docs[id]) {
        assert RowBacked(sha, s.bucket, s.docs[id]);
      }
    }
  }

  /** Writing or deleting an object no record refers to changes nothing about the others. */
  lemma UnreferencedObject(sha: seq<bv8> -> string, s: State, bucket: map<string, Blob>, key: string)
    requires forall k :: k != key ==> (k in bucket <==> k in s.bucket) && (k in bucket ==> bucket[k] == s.bucket[k])
    requires forall id, i :: id in s.docs && 0 <= i < |s.docs[id].versions| ==> s.docs[id].versions[i].objectKey != key
    ensures AllBacked(sha, s.(bucket := bucket)) <==> AllBacked(sha, s)
  {
    forall id | id in s.docs ensures RowBacked(sha, bucket, s.docs[id]) <==> RowBacked(sha, s.bucket, s.docs[id]) {
      forall i | 0 <= i < |s.docs[id].versions|
        ensures Backed(sha, bucket, s.docs[id].versions[i]) <==> Backed(sha, s.bucket, s.docs[id].versions[i]) {}
    }
    var t := s.(bucket := bucket);
    forall id | id in s.docs ensures RowBacked(sha, t.bucket, t.docs[id]) <==> RowBacked(sha, s.bucket, s.docs[id]) {}
  }

  lemma UploadKeepsShape(sha: seq<bv8> -> string, s: State, docId: string, file: File, reply: Reply, deleted: bool)
    requires Shaped(s) && docId in s.docs
    ensures Shaped(AfterUpload(sha, s, docId, file, reply, deleted))
  {
    var rec := UploadRecord(sha, s, docId, file);
    assert BuiltFor(docId, rec);
    RegisteringKeepsShape(s, docId, rec);
    var t := AfterUpload(sha, s, docId, file, reply, deleted);
    assert t.docs == s.docs || t.docs == Registered(s, docId, rec).docs;
  }

  /**
   * After an upload every record has its object exactly if that was so before and it is not the case that the
   * registration took place, its answer was lost, and the rollback deleted the object.
   */
  lemma UploadAndBacking(sha: seq<bv8> -> string, s: State, docId: string, file: File, reply: Reply, deleted: bool)
    requires Shaped(s) && docId in s.docs
    ensures AllBacked(sha, AfterUpload(sha, s, docId, file, reply, deleted))
      <==> AllBacked(sha, s) && !(reply == AnswerLost && deleted)
  {
    var rec := UploadRecord(sha, s, docId, file);
    var put := s.bucket[rec.objectKey := Blob(file.body, rec.checksum)];
    forall id, i | id in s.docs && 0 <= i < |s.docs[id].versions|
      ensures s.docs[id].versions[i].objectKey != rec.objectKey {
      NextKeyIsUnused(s, docId, file.originalName, id, i);
    }
    UnreferencedObject(sha, s, put, rec.objectKey);
    UnreferencedObject(sha, s, put - {rec.objectKey}, rec.objectKey);
    RegisteringAndBacking(sha, s.(bucket := put), docId, rec);
    RegisteringAndBacking(sha, s.(bucket := put - {rec.objectKey}), docId, rec);
  }

  /** An upload keeps integrity, whatever becomes of its registration, except in exactly that case. */
  lemma UploadKeepsIntegrityIff(sha: seq<bv8> -> string, s: State, docId: string, file: File, reply: Reply,
                                deleted: bool)
    requires Integrity(sha, s) && docId in s.docs
    ensures Integrity(sha, AfterUpload(sha, s, docId, file, reply, deleted)) <==> !(reply == AnswerLost && deleted)
  {
    UploadKeepsShape(sha, s, docId, file, reply, deleted);
    UploadAndBacking(sha, s, docId, file, reply, deleted);
  }

  lemma RestoreKeepsIntegrity(sha: seq<bv8> -> string, s: State, docId: string, source: nat)
    requires Shaped(s) && CanRestore(s, docId, source)
    ensures Shaped(AfterRestore(s, docId, source))
    ensures AllBacked(sha, AfterRestore(s, docId, source)) <==> AllBacked(sha, s)
  {
    var row := s.docs[docId];
    var earlier := row.versions[source - 1];
    assert RowShaped(docId, row) && RecordShaped(docId, row, source - 1);
    var v: nat, f: string :| v <= earlier.version && earlier.objectKey == BuildObjectKey(docId, v, f);
    var rec := earlier.(version := NextVersion(s, docId));
    assert v <= rec.version && rec.objectKey == BuildObjectKey(docId, v, f);
    RegisteringKeepsShape(s, docId, rec);
    RegisteringAndBacking(sha, s, docId, rec);
    if AllBacked(sha, s) {
      assert RowBacked(sha, s.bucket, row);
      assert Backed(sha, s.bucket, row.versions[source - 1]);
    }
  }

  // ---- Runs ----

  function Run(sha: seq<bv8> -> string, s: State, requests: seq<Request>): State {
    if requests == [] then s
    else Step(sha, Run(sha, s, requests[..|requests| - 1]), requests[|requests| - 1])
  }

  /** The request registers a version and deletes its object. */
  predicate Loses(s: State, r: Request) {
    r.Put? && r.docId in s.docs && r.reply == AnswerLost && r.deleted
  }

  predicate NothingLost(sha: seq<bv8> -> string, s: State, requests: seq<Request>) {
    requests == []
    || (NothingLost(sha, s, requests[..|requests| - 1])
        && !Loses(Run(sha, s, requests[..|requests| - 1]), requests[|requests| - 1]))
  }

  lemma StepAndIntegrity(sha: seq<bv8> -> string, s: State, r: Request)
    requires Shaped(s)
    ensures Shaped(Step(sha, s, r))
    ensures AllBacked(sha, Step(sha, s, r)) <==> AllBacked(sha, s) && !Loses(s, r)
  {
    match r
    case Create(id) =>
      var t := Step(sha, s, r);
      forall k | k in t.docs ensures RowShaped(k, t.docs[k]) {
        if k in s.docs { assert RowShaped(k, s.docs[k]); }
      }
      forall k | k in s.docs ensures RowBacked(sha, t.bucket, t.docs[k]) <==> RowBacked(sha, s.bucket, s.docs[k]) {
        assert t.docs[k] == s.docs[k];
      }
    case Put(id, file, reply, deleted) =>
      if id in s.docs {
        UploadKeepsShape(sha, s, id, file, reply, deleted);
        UploadAndBacking(sha, s, id, file, reply, deleted);
      }
    case Restore(id, source) =>
      if CanRestore(s, id, source) { RestoreKeepsIntegrity(sha, s, id, source); }
  }

  /** A serial run keeps integrity exactly if it loses no version on the way; a loss is never made good. */
  lemma {:induction false} RunKeepsIntegrityIff(sha: seq<bv8> -> string, s: State, requests: seq<Request>)
    requires Integrity(sha, s)
    ensures Shaped(Run(sha, s, requests))
    ensures Integrity(sha, Run(sha, s, requests)) <==> NothingLost(sha, s, requests)
  {
    if requests != [] {
      RunKeepsIntegrityIff(sha, s, requests[..|requests| - 1]);
      StepAndIntegrity(sha, Run(sha, s, requests[..|requests| - 1]), requests[|requests| - 1]);
    }
  }

  /** In particular from empty stores. */
  lemma RunKeepsIntegrity(sha: seq<bv8> -> string, requests: seq<Request>)
    ensures Integrity(sha, Run(sha, State(map[], map[]), requests)) <==> NothingLost(sha, State(map[], map[]), requests)
  {
    RunKeepsIntegrityIff(sha, State(map[], map[]), requests);
  }

  /** The loss happens on the first upload to a new document. */
  lemma LossIsReachable(sha: seq<bv8> -> string, file: File) returns (requests: seq<Request>)
    ensures !Integrity(sha, Run(sha, State(map[], map[]), requests))
  {
    var create, put := Create("d"), Put("d", file, AnswerLost, true);
    requests := [create, put];
    var start := State(map[], map[]);
    assert requests[..1] == [create] && [create][..0] == [];
    assert "d" in Run(sha, start, [create]).docs by { assert Run(sha, start, [create]) == Step(sha, start, create); }
    assert Loses(Run(sha, start, [create]), put);
    RunKeepsIntegrity(sha, requests);
  }

  /** Version i of a document and the object behind it are the same in both states. */
  ghost predicate SameVersion(s: State, t: State, id: string, i: nat)
    requires id in s.docs && i < |s.docs[id].versions|
  {
    var rec := s.docs[id].versions[i];
    && id in t.docs && i < |t.docs[id].versions| && t.docs[id].versions[i] == rec
    && rec.objectKey in s.bucket && rec.objectKey in t.bucket && t.bucket[rec.objectKey] == s.bucket[rec.objectKey]
  }

  lemma StepKeepsVersion(sha: seq<bv8> -> string, s: State, r: Request, id: string, i: nat)
    requires Shaped(s)
    requires id in s.docs && i < |s.docs[id].versions| && s.docs[id].versions[i].objectKey in s.bucket
    ensures SameVersion(s, Step(sha, s, r), id, i)
  {
    if r.Put? && r.docId in s.docs {
      NextKeyIsUnused(s, r.docId, r.file.originalName, id, i);
    }
  }

  /** Stored versions are never overwritten or deleted, not even by a loss elsewhere. */
  lemma {:induction false} VersionsArePermanent(sha: seq<bv8> -> string, s: State, requests: seq<Request>, id: string,
                                                i: nat)
    requires Shaped(s)
    requires id in s.docs && i < |s.docs[id].versions| && s.docs[id].versions[i].objectKey in s.bucket
    ensures SameVersion(s, Run(sha, s, requests), id, i) && Shaped(Run(sha, s, requests))
  {
    if requests != [] {
      var front, last := requests[..|requests| - 1], requests[|requests| - 1];
      VersionsArePermanent(sha, s, front, id, i);
      StepKeepsVersion(sha, Run(sha, s, front), last, id, i);
      StepAndIntegrity(sha, Run(sha, s, front), last);
    }
  }

  /** Two uploads, of one document or of two, never write the same key. */
  lemma UploadedKeysDiffer(a: string, v: nat, f: string, b: string, w: nat, g: string)
    requires '/' !in a && '/' !in b
    ensures (a, v) != (b, w) ==> BuildObjectKey(a, v, f) != BuildObjectKey(b, w, g)
  {
    if BuildObjectKey(a, v, f) == BuildObjectKey(b, w, g) { KeyIsInjective(a, v, f, b, w, g); }
  }

  // ---- What is read back ----

  /** The content of a version, as its record points to it. */
  function Content(s: State, id: string, version: nat): Option<seq<bv8>> {
    if id in s.docs && 1 <= version <= |s.docs[id].versions| && s.docs[id].versions[version - 1].objectKey in s.bucket
    then Some(s.bucket[s.docs[id].versions[version - 1].objectKey].body)
    else None
  }

  /** After an upload the new current version reads as the file, and every earlier version as before. */
  lemma UploadReadsBack(sha: seq<bv8> -> string, s: State, docId: string, file: File, id: string, version: nat)
    requires Integrity(sha, s) && docId in s.docs && id in s.docs
    ensures var t := AfterUpload(sha, s, docId, file, Answered, false);
      && t.docs[docId].currentVersion == NextVersion(s, docId)
      && Content(t, docId, NextVersion(s, docId)) == Some(file.body)
      && (1 <= version <= s.docs[id].currentVersion ==> Content(t, id, version) == Content(s, id, version) != None)
  {
    assert RowShaped(docId, s.docs[docId]) && RowShaped(id, s.docs[id]) && RowBacked(sha, s.bucket, s.docs[id]);
    if 1 <= version <= s.docs[id].currentVersion {
      assert Backed(sha, s.bucket, s.docs[id].versions[version - 1]);
      NextKeyIsUnused(s, docId, file.originalName, id, version - 1);
    }
  }

  /** Which versions can be restored, and what a restore that cannot be met leaves. */
  lemma RestoreAcceptedIff(sha: seq<bv8> -> string, s: State, docId: string, source: nat)
    ensures var t := Step(sha, s, Restore(docId, source));
      if
        && docId in s.docs && 0 < source && source - 1 < |s.docs[docId].versions|
        && source != s.docs[docId].currentVersion
      then
        && docId in t.docs && t.docs[docId].currentVersion == s.docs[docId].currentVersion + 1
        && |t.docs[docId].versions| == |s.docs[docId].versions| + 1
        && t.docs[docId].versions[|s.docs[docId].versions|].objectKey == s.docs[docId].versions[source - 1].objectKey
      else t == s
  {
  }

  /** After a restore the new current version reads as the restored one. */
  lemma RestoreReadsBack(sha: seq<bv8> -> string, s: State, docId: string, source: nat)
    requires Integrity(sha, s) && CanRestore(s, docId, source)
    ensures var t := AfterRestore(s, docId, source);
      && t.docs[docId].currentVersion == NextVersion(s, docId)
      && Content(t, docId, NextVersion(s, docId)) == Content(s, docId, source) != None
  {
    assert RowShaped(docId, s.docs[docId]) && RowBacked(sha, s.bucket, s.docs[docId]);
    assert Backed(sha, s.bucket, s.docs[docId].versions[source - 1]);
  }

  // ---- Uploads that are refused ----

  /** An upload refused at registration registers nothing, and a successful rollback leaves nothing under its key. */
  lemma RefusedUpload(sha: seq<bv8> -> string, s: State, docId: string, file: File)
    requires docId in s.docs
    ensures var key := BuildObjectKey(docId, s.docs[docId].currentVersion + 1, file.originalName);
      AfterUpload(sha, s, docId, file, Refused, true) == State(s.docs, s.bucket - {key})
  {
    var key := BuildObjectKey(docId, NextVersion(s, docId), file.originalName);
    assert s.bucket[key := Blob(file.body, sha(file.body))] - {key} == s.bucket - {key};
  }

  ghost predicate Referred(s: State, key: string) {
    exists id, i :: RefersTo(s, id, i, key)
  }

  predicate RefersTo(s: State, id: string, i: int, key: string) {
    id in s.docs && 0 <= i < |s.docs[id].versions| && s.docs[id].versions[i].objectKey == key
  }

  /** Every object in the bucket belongs to some version. */
  ghost predicate NoOrphans(s: State) {
    forall key :: key in s.bucket ==> Referred(s, key)
  }

  /** The request may leave an object without a record: registration is refused and the rollback fails. */
  predicate LeavesOrphan(r: Request) {
    r.Put? && r.reply == Refused && !r.deleted
  }

  lemma StillReferred(s: State, t: State, key: string)
    requires Referred(s, key)
    requires forall id :: id in s.docs ==> id in t.docs && s.docs[id].versions <= t.docs[id].versions
    ensures Referred(t, key)
  {
    var id, i :| RefersTo(s, id, i, key);
    assert RefersTo(t, id, i, key);
  }

  lemma StepLeavesNoOrphan(sha: seq<bv8> -> string, s: State, r: Request)
    requires NoOrphans(s) && !LeavesOrphan(r)
    ensures NoOrphans(Step(sha, s, r))
  {
    var t := Step(sha, s, r);
    forall key | key in t.bucket ensures Referred(t, key) {
      if key in s.bucket {
        StillReferred(s, t, key);
      } else {
        assert RefersTo(t, r.docId, |s.docs[r.docId].versions|, key);
      }
    }
  }

  /** Over every run in which no rollback fails the bucket holds nothing but what versions refer to. */
  lemma {:induction false} RunLeavesNoOrphans(sha: seq<bv8> -> string, requests: seq<Request>)
    requires forall i :: 0 <= i < |requests| ==> !LeavesOrphan(requests[i])
    ensures NoOrphans(Run(sha, State(map[], map[]), requests)) && Shaped(Run(sha, State(map[], map[]), requests))
  {
    if requests != [] {
      var front := requests[..|requests| - 1];
      RunLeavesNoOrphans(sha, front);
      StepLeavesNoOrphan(sha, Run(sha, State(map[], map[]), front), requests[|requests| - 1]);
      StepAndIntegrity(sha, Run(sha, State(map[], map[]), front), requests[|requests| - 1]);
    }
  }

  /** After such a run a refused upload leaves bucket and records exactly as they were. */
  lemma RefusedUploadLeavesNoTrace(sha: seq<bv8> -> string, requests: seq<Request>, docId: string, file: File)
    requires forall i :: 0 <= i < |requests| ==> !LeavesOrphan(requests[i])
    requires docId in Run(sha, State(map[], map[]), requests).docs
    ensures var s := Run(sha, State(map[], map[]), requests);
      Step(sha, s, Put(docId, file, Refused, true)) == s
  {
    var s := Run(sha, State(map[], map[]), requests);
    var key := BuildObjectKey(docId, s.docs[docId].currentVersion + 1, file.originalName);
    RunLeavesNoOrphans(sha, requests);
    RefusedUpload(sha, s, docId, file);
    if key in s.bucket {
      var id, i :| RefersTo(s, id, i, key);
      NextKeyIsUnused(s, docId, file.originalName, id, i);
    }
    assert s.bucket - {key} == s.bucket;
  }
}
