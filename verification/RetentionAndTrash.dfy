/** The two nightly jobs over all documents, retention archiving and trash purging, and the retention summary. */
module RetentionAndTrash {
  import opened Prelude
  import opened Documents

  // ---- Specifications ----

  function ArchivedBy(doc: Doc, now: int): Doc {
    doc.(status := ARCHIVED, archivedAt := Some(now))
  }

  /** A row after the job: archived if it is due and its write does not fail. */
  function AfterJob(doc: Doc, now: int, failing: set<string>): Doc {
    if DueForArchive(doc, now) && doc.id !in failing then ArchivedBy(doc, now) else doc
  }

  function AfterRetention(docs: seq<Doc>, now: int, failing: set<string>): (r: seq<Doc>)
    ensures |r| == |docs|
    ensures forall i :: 0 <= i < |docs| ==> r[i] == AfterJob(docs[i], now, failing)
  {
    seq(|docs|, i requires 0 <= i < |docs| => AfterJob(docs[i], now, failing))
  }

  /** How many rows satisfy a predicate. */
  function Count(docs: seq<Doc>, p: Doc -> bool): (n: nat)
    ensures n <= |docs|
  {
    if docs == [] then 0 else Count(docs[..|docs| - 1], p) + if p(docs[|docs| - 1]) then 1 else 0
  }

  function Hit(now: int, failing: set<string>): Doc -> bool {
    (doc: Doc) => DueForArchive(doc, now) && doc.id !in failing
  }

  function Missed(now: int, failing: set<string>): Doc -> bool {
    (doc: Doc) => DueForArchive(doc, now) && doc.id in failing
  }

  predicate Tracked(doc: Doc) {
    (doc.status == PUBLISHED || doc.status == ARCHIVED) && doc.publishedAt.Some?
  }

  function InStatus(now: int, status: RetentionStatus): Doc -> bool {
    (doc: Doc) => Tracked(doc) && EvidenceStatus(doc, now) == status
  }

  datatype Summary = Summary(tracked: nat, active: nat, dueSoon: nat, overdue: nat, archived: nat)

  ghost predicate IsSummary(docs: seq<Doc>, now: int, s: Summary) {
    && s.tracked == Count(docs, Tracked)
    && s.active == Count(docs, InStatus(now, Active))
    && s.dueSoon == Count(docs, InStatus(now, DueSoon))
    && s.overdue == Count(docs, InStatus(now, Overdue))
    && s.archived == Count(docs, InStatus(now, Archived))
  }

  /** The rows a purge leaves, in order. */
  function Kept(docs: seq<Doc>, now: int, failing: set<string>): seq<Doc> {
    if docs == [] then []
    else
      var last := docs[|docs| - 1];
      Kept(docs[..|docs| - 1], now, failing)
        + if Purgeable(last, now) && last.id !in failing then [] else [last]
  }

  function Purged(now: int, failing: set<string>): Doc -> bool {
    (doc: Doc) => Purgeable(doc, now) && doc.id !in failing
  }

  function Resisted(now: int, failing: set<string>): Doc -> bool {
    (doc: Doc) => Purgeable(doc, now) && doc.id in failing
  }

  lemma CountStep(docs: seq<Doc>, p: Doc -> bool, i: nat)
    requires i < |docs|
    ensures Count(docs[..i + 1], p) == Count(docs[..i], p) + if p(docs[i]) then 1 else 0
  {
    assert docs[..i + 1][..i] == docs[..i];
  }

  // ---- The jobs ----

  class Store {
    var docs: seq<Doc>

    constructor (docs: seq<Doc>)
      ensures this.docs == docs
    {
      this.docs := docs;
    }

    /** Archive what is due; the writes of the rows in `failing` fail and leave the row as it is. */
    method RunRetention(now: int, failing: set<string>) returns (archived: nat, skipped: nat)
      modifies this
      ensures docs == AfterRetention(old(docs), now, failing)
      ensures archived == Count(old(docs), Hit(now, failing))
      ensures skipped == Count(old(docs), Missed(now, failing))
    {
      archived, skipped := 0, 0;
      ghost var before := docs;
      for i := 0 to |docs|
        invariant |docs| == |before|
        invariant forall k :: 0 <= k < i ==> docs[k] == AfterJob(before[k], now, failing)
        invariant forall k :: i <= k < |docs| ==> docs[k] == before[k]
        invariant archived == Count(before[..i], Hit(now, failing))
        invariant skipped == Count(before[..i], Missed(now, failing))
      {
        var doc := docs[i];
        CountStep(before, Hit(now, failing), i);
        CountStep(before, Missed(now, failing), i);
        OverdueMeansDayPast(doc, now);
        // the query: published, never archived, not on hold
        var candidate := doc.status == PUBLISHED && doc.publishedAt.Some? && doc.archivedAt.None? && !doc.legalHold;
        if candidate && RetentionUntil(doc).Some? && EvidenceStatus(doc, now) == Overdue {
          if doc.id in failing {
            skipped := skipped + 1;
          } else {
            docs := docs[i := ArchivedBy(doc, now)];
            archived := archived + 1;
          }
        }
      }
      assert before[..|before|] == before;
      assert docs == AfterRetention(before, now, failing);
    }

    method ListRetentionEvidence(now: int) returns (s: Summary)
      ensures IsSummary(docs, now, s)
    {
      var tracked, active, dueSoon, overdue, archived := 0, 0, 0, 0, 0;
      for i := 0 to |docs|
        invariant IsSummary(docs[..i], now, Summary(tracked, active, dueSoon, overdue, archived))
      {
        CountStep(docs, Tracked, i);
        CountStep(docs, InStatus(now, Active), i);
        CountStep(docs, InStatus(now, DueSoon), i);
        CountStep(docs, InStatus(now, Overdue), i);
        CountStep(docs, InStatus(now, Archived), i);
        if Tracked(docs[i]) {
          tracked := tracked + 1;
          match EvidenceStatus(docs[i], now) {
            case Active => active := active + 1;
            case DueSoon => dueSoon := dueSoon + 1;
            case Overdue => overdue := overdue + 1;
            case Archived => archived := archived + 1;
            case Unset =>
          }
        }
      }
      assert docs[..|docs|] == docs;
      s := Summary(tracked, active, dueSoon, overdue, archived);
    }

    /** Delete what has been in the trash too long; a row that cannot be deleted is counted and stays. */
    method PurgeExpiredTrash(now: int, failing: set<string>) returns (purged: nat, failed: nat)
      modifies this
      ensures docs == Kept(old(docs), now, failing)
      ensures purged == Count(old(docs), Purged(now, failing))
      ensures failed == Count(old(docs), Resisted(now, failing))
      ensures |docs| + purged == |old(docs)|
    {
      purged, failed := 0, 0;
      var rows, kept: seq<Doc> := docs, [];
      for i := 0 to |rows|
        invariant kept == Kept(rows[..i], now, failing)
        invariant purged == Count(rows[..i], Purged(now, failing))
        invariant failed == Count(rows[..i], Resisted(now, failing))
        invariant |kept| + purged == i
      {
        CountStep(rows, Purged(now, failing), i);
        CountStep(rows, Resisted(now, failing), i);
        assert rows[..i + 1][..i] == rows[..i];
        if Purgeable(rows[i], now) && rows[i].id !in failing {
          purged := purged + 1;
        } else {
          if Purgeable(rows[i], now) { failed := failed + 1; }
          kept := kept + [rows[i]];
        }
      }
      assert rows[..|rows|] == rows;
      docs := kept;
    }
  }

  // ---- What the jobs achieve ----

  /** Every tracked document is in exactly one of the four counted states. */
  lemma {:induction false} SummaryIsPartition(docs: seq<Doc>, now: int, s: Summary)
    requires IsSummary(docs, now, s)
    ensures s.tracked == s.active + s.dueSoon + s.overdue + s.archived
  {
    if docs != [] {
      var front := docs[..|docs| - 1];
      SummaryIsPartition(front, now, SummaryOf(front, now));
    }
  }

  ghost function SummaryOf(docs: seq<Doc>, now: int): (s: Summary)
    ensures IsSummary(docs, now, s)
  {
    Summary(Count(docs, Tracked), Count(docs, InStatus(now, Active)), Count(docs, InStatus(now, DueSoon)),
            Count(docs, InStatus(now, Overdue)), Count(docs, InStatus(now, Archived)))
  }

  /** Published documents have not been archived before. */
  predicate WellKept(docs: seq<Doc>) {
    forall i :: 0 <= i < |docs| ==> FreshIfPublished(docs[i])
  }

  predicate FreshIfPublished(doc: Doc) {
    doc.status == PUBLISHED ==> doc.archivedAt.None?
  }

  /** A run moves documents from overdue to archived and changes no other count. */
  lemma {:induction false} RunMovesOverdueToArchived(docs: seq<Doc>, now: int, failing: set<string>)
    ensures var before, after := SummaryOf(docs, now), SummaryOf(AfterRetention(docs, now, failing), now);
      var moved := Count(docs, Hit(now, failing));
      && after.tracked == before.tracked && after.active == before.active && after.dueSoon == before.dueSoon
      && after.overdue + moved == before.overdue
      && after.archived == before.archived + moved
  {
    if docs != [] {
      var front, last := docs[..|docs| - 1], docs[|docs| - 1];
      RunMovesOverdueToArchived(front, now, failing);
      var after := AfterRetention(docs, now, failing);
      assert after[..|after| - 1] == AfterRetention(front, now, failing);
      RowMoves(last, now, failing);
    }
  }

  lemma RowMoves(doc: Doc, now: int, failing: set<string>)
    ensures var after := AfterJob(doc, now, failing);
      && Tracked(after) == Tracked(doc)
      && (if Hit(now, failing)(doc)
          then Tracked(doc) && EvidenceStatus(doc, now) == Overdue && EvidenceStatus(after, now) == Archived
          else after == doc)
  {
    OverdueMeansDayPast(doc, now);
  }

  /** After a run without failures only documents on hold are still overdue. */
  lemma {:induction false} NothingDueIsLeft(docs: seq<Doc>, now: int)
    requires WellKept(docs)
    ensures Count(AfterRetention(docs, now, {}), InStatus(now, Overdue)) == Count(docs, OverdueOnHold(now))
  {
    if docs != [] {
      var front, last := docs[..|docs| - 1], docs[|docs| - 1];
      assert FreshIfPublished(last);
      assert WellKept(front) by {
        forall i | 0 <= i < |front| ensures FreshIfPublished(front[i]) { assert FreshIfPublished(docs[i]); }
      }
      NothingDueIsLeft(front, now);
      var after := AfterRetention(docs, now, {});
      assert after[..|after| - 1] == AfterRetention(front, now, {});
      OverdueMeansDayPast(last, now);
      OverdueMeansDayPast(AfterJob(last, now, {}), now);
    }
  }

  function OverdueOnHold(now: int): Doc -> bool {
    (doc: Doc) => Tracked(doc) && EvidenceStatus(doc, now) == Overdue && doc.legalHold
  }

  /** A second run at the same time only retries what failed: without failures it archives nothing. */
  lemma {:induction false} SecondRunRetries(docs: seq<Doc>, now: int, failing: set<string>, failingAgain: set<string>)
    ensures var once := AfterRetention(docs, now, failing);
      && Count(once, Hit(now, failingAgain)) == Count(docs, MissedThenHit(now, failing, failingAgain))
      && (failing == {} ==> AfterRetention(once, now, failingAgain) == once && Count(once, Hit(now, failingAgain)) == 0)
  {
    var once := AfterRetention(docs, now, failing);
    if docs != [] {
      var front := docs[..|docs| - 1];
      SecondRunRetries(front, now, failing, failingAgain);
      assert once[..|once| - 1] == AfterRetention(front, now, failing);
    }
  }

  function MissedThenHit(now: int, failing: set<string>, failingAgain: set<string>): Doc -> bool {
    (doc: Doc) => DueForArchive(doc, now) && doc.id in failing && doc.id !in failingAgain
  }

  /** A row survives a purge exactly if it could still be restored, was not in the trash, or its deletion failed. */
  lemma {:induction false} SurvivesPurge(docs: seq<Doc>, now: int, failing: set<string>, doc: Doc)
    ensures doc in Kept(docs, now, failing) <==>
      doc in docs && (doc.status != DELETED || Restorable(doc, now) || doc.id in failing)
  {
    if docs != [] {
      var front, last := docs[..|docs| - 1], docs[|docs| - 1];
      SurvivesPurge(front, now, failing, doc);
      assert docs == front + [last];
    }
  }

  /** Every due document is archived or counted as skipped, and every purgeable one deleted or counted as failed. */
  lemma {:induction false} NothingIsUncounted(docs: seq<Doc>, now: int, failing: set<string>)
    ensures Count(docs, Hit(now, failing)) + Count(docs, Missed(now, failing))
         == Count(docs, (doc: Doc) => DueForArchive(doc, now))
    ensures Count(docs, Purged(now, failing)) + Count(docs, Resisted(now, failing))
         == Count(docs, (doc: Doc) => Purgeable(doc, now))
  {
    if docs != [] { NothingIsUncounted(docs[..|docs| - 1], now, failing); }
  }

  /** A second purge at the same time deletes exactly what failed before and does not fail again. */
  lemma {:induction false} PurgeTwice(docs: seq<Doc>, now: int, failing: set<string>, failingAgain: set<string>)
    ensures Kept(Kept(docs, now, failing), now, failingAgain) == Kept(docs, now, failing * failingAgain)
    ensures Count(Kept(docs, now, failing), Purged(now, failingAgain))
         == Count(docs, ResistedThenPurged(now, failing, failingAgain))
  {
    if docs != [] {
      var front, last := docs[..|docs| - 1], docs[|docs| - 1];
      PurgeTwice(front, now, failing, failingAgain);
      var kept := Kept(front, now, failing);
      assert (kept + [last])[..|kept|] == kept && kept + [] == kept;
      var both := Kept(front, now, failing * failingAgain);
      assert both + [] == both;
    }
  }

  function ResistedThenPurged(now: int, failing: set<string>, failingAgain: set<string>): Doc -> bool {
    (doc: Doc) => Purgeable(doc, now) && doc.id in failing && doc.id !in failingAgain
  }
}
