/** The document row and the time arithmetic that trash and retention share. */
module Documents {
  import opened Prelude

  datatype Role = Viewer | Editor | Approver | ComplianceOfficer | Admin

  datatype Status = DRAFT | PENDING | PUBLISHED | ARCHIVED | DELETED

  datatype Level = PUBLIC | INTERNAL | CONFIDENTIAL | SECRET

  datatype Dlp = NOT_SCANNED | CLEAR | DETECTED

  datatype Doc = Doc(
    id: string,
    ownerId: string,
    status: Status,
    classification: Level,
    dlpStatus: Dlp,
    legalHold: bool,
    currentVersion: nat,
    approvalChain: seq<string>,
    approvalStep: nat,
    publishedAt: Option<int>,
    archivedAt: Option<int>,
    deletedAt: Option<int>,
    retentionUntil: Option<int>)

  // ---- Time, in milliseconds ----

  const DAY_MS := 86_400_000

  const TRASH_RECOVERY_DAYS := 30

  const DUE_SOON_DAYS := 14

  /** `Math.ceil` of a number of milliseconds in days. */
  function CeilDays(ms: int): int {
    -((-ms) / DAY_MS)
  }

  lemma CeilDaysBounds(ms: int)
    ensures (CeilDays(ms) - 1) * DAY_MS < ms <= CeilDays(ms) * DAY_MS
  {
  }

  function RetentionDays(level: Level): int {
    match level
    case PUBLIC => 730
    case INTERNAL => 365
    case CONFIDENTIAL => 180
    case SECRET => 90
  }

  function RetentionEnd(level: Level, publishedAt: int): int {
    publishedAt + RetentionDays(level) * DAY_MS
  }

  // ---- Retention ----

  datatype RetentionStatus = Active | DueSoon | Overdue | Archived | Unset

  /** The stored end of retention, or the one computed from publication. */
  function RetentionUntil(doc: Doc): Option<int> {
    if doc.retentionUntil.Some? then doc.retentionUntil
    else if doc.publishedAt.Some? then Some(RetentionEnd(doc.classification, doc.publishedAt.value))
    else None
  }

  function DaysRemaining(doc: Doc, now: int): Option<int> {
    match RetentionUntil(doc)
    case Some(until) => Some(CeilDays(until - now))
    case None => None
  }

  /** `toEvidenceRecord`. */
  function EvidenceStatus(doc: Doc, now: int): RetentionStatus {
    if doc.status == ARCHIVED then Archived
    else match DaysRemaining(doc, now)
      case None => Unset
      case Some(days) => if days < 0 then Overdue else if days <= DUE_SOON_DAYS then DueSoon else Active
  }

  /** A whole day has passed since the end of retention. */
  predicate DayPast(doc: Doc, now: int) {
    RetentionUntil(doc).Some? && now - RetentionUntil(doc).value >= DAY_MS
  }

  /** What the nightly job is meant to archive. */
  predicate DueForArchive(doc: Doc, now: int) {
    doc.status == PUBLISHED && doc.publishedAt.Some? && doc.archivedAt.None? && !doc.legalHold && DayPast(doc, now)
  }

  lemma OverdueMeansDayPast(doc: Doc, now: int)
    ensures EvidenceStatus(doc, now) == Overdue <==> doc.status != ARCHIVED && DayPast(doc, now)
  {
    if RetentionUntil(doc).Some? { CeilDaysBounds(RetentionUntil(doc).value - now); }
  }

  /** The status of a document not yet archived, by the milliseconds left: active above 14 days, overdue a day past. */
  lemma StatusByTimeLeft(doc: Doc, now: int, until: int)
    requires doc.status != ARCHIVED
    requires until == match doc.retentionUntil
      case Some(stored) => stored
      case None =>
        match doc.publishedAt
        case Some(at) => RetentionEnd(doc.classification, at)
        case None => until
    requires doc.retentionUntil.Some? || doc.publishedAt.Some?
    ensures EvidenceStatus(doc, now) ==
      if until - now > 1_209_600_000 then Active
      else if until - now > -86_400_000 then DueSoon
      else Overdue
  {
    CeilDaysBounds(until - now);
  }

  lemma StatusWithoutTime(doc: Doc, now: int)
    ensures EvidenceStatus(doc, now) == Archived <==> doc.status == ARCHIVED
    ensures EvidenceStatus(doc, now) == Unset <==>
      doc.status != ARCHIVED && doc.retentionUntil.None? && doc.publishedAt.None?
  {
  }

  // ---- Trash ----

  function PurgeAt(deletedAt: int): int {
    deletedAt + TRASH_RECOVERY_DAYS * DAY_MS
  }

  /** What the trash listing shows as `recoverable`. */
  predicate ShownRecoverable(doc: Doc, now: int) {
    doc.deletedAt.Some? && CeilDays(PurgeAt(doc.deletedAt.value) - now) > 0
  }

  /** What a restore accepts. */
  predicate Restorable(doc: Doc, now: int) {
    doc.status == DELETED && (doc.deletedAt.Some? ==> now <= PurgeAt(doc.deletedAt.value))
  }

  /** What the purge job selects. */
  predicate Purgeable(doc: Doc, now: int) {
    doc.status == DELETED && doc.deletedAt.Some? && doc.deletedAt.value < now - TRASH_RECOVERY_DAYS * DAY_MS
  }

  /** At every instant a deleted document can be restored or be purged, and never both. */
  lemma RestorableXorPurgeable(doc: Doc, now: int)
    requires doc.status == DELETED
    ensures Restorable(doc, now) <==> !Purgeable(doc, now)
  {
  }

  /** What the listing promises a restore accepts; the two differ at the purge instant alone. */
  lemma ShownIsRestorable(doc: Doc, now: int)
    requires doc.status == DELETED && doc.deletedAt.Some?
    ensures ShownRecoverable(doc, now) ==> Restorable(doc, now)
    ensures Restorable(doc, now) && !ShownRecoverable(doc, now) <==> now == PurgeAt(doc.deletedAt.value)
  {
    CeilDaysBounds(PurgeAt(doc.deletedAt.value) - now);
  }
}
