/**
 * The life of one document across the services that change it: workflow actions and the status map behind them, the
 * approval chain, version registration with its data-loss findings, holds, the retention job and the trash.
 */
module DocumentLifecycle {
  import opened Prelude
  import opened Documents
  import RetentionAndTrash

  datatype Action = SUBMIT | APPROVE | REJECT | ARCHIVE | DELETE | RETENTION

  datatype Entry = Entry(from: Status, to: Status, action: Action, actorId: string)

  datatype Actor = Actor(id: string, roles: set<Role>)

  /** What one request may ask for. */
  datatype Op =
    | Submit
    | Approve
    | Reject
    | Archive
    | Delete
    | SetChain(approvers: seq<string>)
    | Restore
    | Reclassify(level: Option<Level>, overrideReason: string)
    | CreateVersion(version: nat, dlp: Option<Dlp>)
    | RestoreVersion(source: nat)
    | SetHold(hold: bool, reason: string)
    | RunRetention
    | PurgeTrash

  /** `mayRead` is the answer of the read policy, which the workflow service asks for before anything else. */
  datatype Request = Request(now: int, actor: Actor, mayRead: bool, op: Op)

  datatype Outcome = Done | NotFound | Forbidden | Conflict | BadRequest | Idle

  /** The document row, the scan result of each version, and the workflow history; no row after a purge. */
  datatype State = State(doc: Option<Doc>, versions: seq<Dlp>, history: seq<Entry>)

  // ---- What the services allow ----

  predicate IsAdmin(a: Actor) {
    Admin in a.roles
  }

  predicate Manages(a: Actor, d: Doc) {
    IsAdmin(a) || (Editor in a.roles && d.ownerId == a.id)
  }

  predicate MayDecide(a: Actor) {
    Approver in a.roles || IsAdmin(a)
  }

  /** With a chain configured only the approver at the current step, or an admin, may approve. */
  predicate HasTurn(a: Actor, d: Doc) {
    || d.approvalChain == [] || IsAdmin(a)
    || (d.approvalStep < |d.approvalChain| && d.approvalChain[d.approvalStep] == a.id)
  }

  /** An approval by an approver of the chain who is not the last one does not publish. */
  predicate OnlyAdvances(a: Actor, d: Doc) {
    d.approvalChain != [] && !IsAdmin(a) && d.approvalStep + 1 < |d.approvalChain|
  }

  predicate Low(level: Level) {
    level == PUBLIC || level == INTERNAL
  }

  function Gate(d: Doc, r: Request, allowed: bool, from: Status): Outcome {
    if d.status == DELETED then NotFound
    else if !r.mayRead || !allowed then Forbidden
    else if d.status != from then Conflict
    else Done
  }

  /** Trim the names and drop the empty ones. */
  function CleanNames(names: seq<string>): (r: seq<string>)
    ensures "" !in r
  {
    if names == [] then []
    else (if Trim(names[0]) == "" then [] else [Trim(names[0])]) + CleanNames(names[1..])
  }

  function DecideFor(s: State, d: Doc, r: Request): Outcome {
    match r.op
    case Submit => Gate(d, r, Manages(r.actor, d), DRAFT)
    case Approve =>
      var g := Gate(d, r, MayDecide(r.actor), PENDING);
      if g == Done && !HasTurn(r.actor, d) then Forbidden else g
    case Reject => Gate(d, r, MayDecide(r.actor), PENDING)
    case Archive => Gate(d, r, Manages(r.actor, d), PUBLISHED)
    case Delete => Gate(d, r, Manages(r.actor, d), DRAFT)
    case SetChain(approvers) =>
      if !Manages(r.actor, d) then Forbidden
      else if d.status != PENDING || d.approvalStep != 0 then BadRequest
      else
        var names := CleanNames(approvers);
        if names == [] || |Elements(names)| != |names| then BadRequest else Done
    case Restore =>
      if d.status != DELETED then BadRequest
      else if !IsAdmin(r.actor) && d.ownerId != r.actor.id then Forbidden
      else if !Restorable(d, r.now) then BadRequest
      else Done
    case Reclassify(level, overrideReason) =>
      if !Manages(r.actor, d) then Forbidden
      else if level.Some? && d.dlpStatus == DETECTED && Low(level.value) then
        if !IsAdmin(r.actor) then Forbidden else if Trim(overrideReason) == "" then BadRequest else Done
      else Done
    case CreateVersion(version, _) =>
      if !Manages(r.actor, d) then Forbidden else if version != d.currentVersion + 1 then Conflict else Done
    case RestoreVersion(source) =>
      if !Manages(r.actor, d) then Forbidden
      else if !(1 <= source <= |s.versions|) then NotFound
      else if source == d.currentVersion then Conflict
      else Done
    case SetHold(hold, reason) =>
      if !IsAdmin(r.actor) then Forbidden else if hold && Trim(reason) == "" then BadRequest else Done
    case RunRetention => if DueForArchive(d, r.now) then Done else Idle
    case PurgeTrash => if Purgeable(d, r.now) then Done else Idle
  }

  function Decide(s: State, r: Request): Outcome {
    match s.doc
    case Some(d) => DecideFor(s, d, r)
    case None =>
      if r.op.RunRetention? || r.op.PurgeTrash? then Idle
      else if r.op.SetHold? && !IsAdmin(r.actor) then Forbidden
      else NotFound
  }

  // ---- What a request changes ----

  datatype Transition = Transition(from: Status, to: Status)

  /** The status map; the retention job is not in it. */
  function TransitionOf(action: Action): Option<Transition> {
    match action
    case SUBMIT => Some(Transition(DRAFT, PENDING))
    case APPROVE => Some(Transition(PENDING, PUBLISHED))
    case REJECT => Some(Transition(PENDING, DRAFT))
    case ARCHIVE => Some(Transition(PUBLISHED, ARCHIVED))
    case DELETE => Some(Transition(DRAFT, DELETED))
    case RETENTION => None
  }

  function Moved(d: Doc, to: Status, now: int): Doc {
    match to
    case PUBLISHED =>
      d.(status := to, publishedAt := Some(now), retentionUntil := Some(RetentionEnd(d.classification, now)))
    case ARCHIVED => d.(status := to, archivedAt := Some(now))
    case DELETED => d.(status := to, deletedAt := Some(now))
    case _ => d.(status := to)
  }

  function Move(s: State, d: Doc, to: Status, action: Action, r: Request): State {
    s.(doc := Some(Moved(d, to, r.now)), history := s.history + [Entry(d.status, to, action, r.actor.id)])
  }

  function Scanned(d: Doc, version: nat, dlp: Dlp): Doc {
    d.(currentVersion := version, dlpStatus := dlp,
       classification := if dlp == DETECTED && Low(d.classification) then CONFIDENTIAL else d.classification)
  }

  function Effect(s: State, d: Doc, r: Request): State {
    match r.op
    case Submit => Move(s, d, PENDING, SUBMIT, r)
    case Approve =>
      if OnlyAdvances(r.actor, d) then s.(doc := Some(d.(approvalStep := d.approvalStep + 1)))
      else Move(s, d, PUBLISHED, APPROVE, r)
    case Reject => Move(s, d, DRAFT, REJECT, r)
    case Archive => Move(s, d, ARCHIVED, ARCHIVE, r)
    case Delete => Move(s, d, DELETED, DELETE, r)
    case SetChain(approvers) => s.(doc := Some(d.(approvalChain := CleanNames(approvers), approvalStep := 0)))
    case Restore => s.(doc := Some(d.(status := DRAFT, deletedAt := None)))
    case Reclassify(level, _) => s.(doc := Some(d.(classification := level.GetOr(d.classification))))
    case CreateVersion(version, dlp) =>
      s.(doc := Some(Scanned(d, version, dlp.GetOr(NOT_SCANNED))), versions := s.versions + [dlp.GetOr(NOT_SCANNED)])
    case RestoreVersion(source) =>
      if 1 <= source <= |s.versions| then
        s.(doc := Some(d.(currentVersion := d.currentVersion + 1)), versions := s.versions + [s.versions[source - 1]])
      else s
    case SetHold(hold, _) => s.(doc := Some(d.(legalHold := hold)))
    case RunRetention =>
      s.(doc := Some(RetentionAndTrash.ArchivedBy(d, r.now)),
         history := s.history + [Entry(PUBLISHED, ARCHIVED, RETENTION, "system:retention")])
    case PurgeTrash => State(None, [], [])
  }

  function Next(s: State, r: Request): State {
    if s.doc.Some? && Decide(s, r) == Done then Effect(s, s.doc.value, r) else s
  }

  // ---- The handlers ----

  class Record {
    var doc: Option<Doc>
    var versions: seq<Dlp>
    var history: seq<Entry>

    function Value(): State
      reads this
    {
      State(doc, versions, history)
    }

    constructor (id: string, owner: string, level: Level)
      ensures Value() == Fresh(id, owner, level)
    {
      doc := Some(Doc(id, owner, DRAFT, level, NOT_SCANNED, false, 0, [], 0, None, None, None, None));
      versions, history := [], [];
    }

    /** The status service: role guard, transition guard, the new status with its time stamp, a history entry. */
    method UpdateStatus(action: Action, to: Status, actor: Actor, now: int) returns (o: Outcome)
      modifies this
      ensures o == Done <==>
        && old(doc).Some? && ({Editor, Approver, Admin} * actor.roles != {})
        && TransitionOf(action) == Some(Transition(old(doc).value.status, to))
      ensures o == Done ==> Value() == Move(old(Value()), old(doc).value, to, action, Request(now, actor, true, Submit))
      ensures o != Done ==> Value() == old(Value())
    {
      if doc.None? { return NotFound; }
      if Editor !in actor.roles && Approver !in actor.roles && Admin !in actor.roles {
        return Forbidden;
      }
      assert {Editor, Approver, Admin} * actor.roles != {} by {
        assert Editor in {Editor, Approver, Admin} * actor.roles || Approver in {Editor, Approver, Admin} * actor.roles
            || Admin in {Editor, Approver, Admin} * actor.roles;
      }
      var transition := TransitionOf(action);
      if transition.None? { return BadRequest; }
      var d := doc.value;
      if d.status != transition.value.from { return Conflict; }
      if to != transition.value.to { return BadRequest; }
      var changed := d.(status := transition.value.to);
      if action == APPROVE {
        changed := changed.(publishedAt := Some(now), retentionUntil := Some(RetentionEnd(d.classification, now)));
      }
      if action == ARCHIVE {
        changed := changed.(archivedAt := Some(now));
      }
      if action == DELETE {
        changed := changed.(deletedAt := Some(now));
      }
      doc := Some(changed);
      history := history + [Entry(d.status, to, action, actor.id)];
      o := Done;
    }

    method SubmitDoc(now: int, actor: Actor, mayRead: bool) returns (o: Outcome)
      modifies this
      ensures var r := Request(now, actor, mayRead, Submit);
        o == Decide(old(Value()), r) && Value() == Next(old(Value()), r)
    {
      if doc.None? || doc.value.status == DELETED { return NotFound; }
      if !mayRead { return Forbidden; }
      var d := doc.value;
      if (Editor !in actor.roles && Admin !in actor.roles) || (d.ownerId != actor.id && Admin !in actor.roles) {
        return Forbidden;
      }
      if d.status != DRAFT { return Conflict; }
      ManagerMayUpdate(actor, d);
      o := UpdateStatus(SUBMIT, PENDING, actor, now);
    }

    method ApproveDoc(now: int, actor: Actor, mayRead: bool) returns (o: Outcome)
      modifies this
      ensures var r := Request(now, actor, mayRead, Approve);
        o == Decide(old(Value()), r) && Value() == Next(old(Value()), r)
    {
      if doc.None? || doc.value.status == DELETED { return NotFound; }
      if !mayRead { return Forbidden; }
      var d := doc.value;
      if Approver !in actor.roles && Admin !in actor.roles { return Forbidden; }
      if d.status != PENDING { return Conflict; }
      if |d.approvalChain| > 0 && Admin !in actor.roles {
        var step := d.approvalStep;
        if step >= |d.approvalChain| || actor.id != d.approvalChain[step] { return Forbidden; }
        if step < |d.approvalChain| - 1 {
          AdvanceApprovalStep();
          return Done;
        }
      }
      DeciderMayUpdate(actor);
      o := UpdateStatus(APPROVE, PUBLISHED, actor, now);
    }

    method AdvanceApprovalStep()
      requires doc.Some?
      modifies this
      ensures Value() == old(Value()).(doc := Some(old(doc).value.(approvalStep := old(doc).value.approvalStep + 1)))
    {
      doc := Some(doc.value.(approvalStep := doc.value.approvalStep + 1));
    }

    method RejectDoc(now: int, actor: Actor, mayRead: bool) returns (o: Outcome)
      modifies this
      ensures var r := Request(now, actor, mayRead, Reject);
        o == Decide(old(Value()), r) && Value() == Next(old(Value()), r)
    {
      if doc.None? || doc.value.status == DELETED { return NotFound; }
      if !mayRead { return Forbidden; }
      if Approver !in actor.roles && Admin !in actor.roles { return Forbidden; }
      if doc.value.status != PENDING { return Conflict; }
      DeciderMayUpdate(actor);
      o := UpdateStatus(REJECT, DRAFT, actor, now);
    }

    method ArchiveDoc(now: int, actor: Actor, mayRead: bool) returns (o: Outcome)
      modifies this
      ensures var r := Request(now, actor, mayRead, Archive);
        o == Decide(old(Value()), r) && Value() == Next(old(Value()), r)
    {
      if doc.None? || doc.value.status == DELETED { return NotFound; }
      if !mayRead { return Forbidden; }
      var d := doc.value;
      if (Editor !in actor.roles && Admin !in actor.roles) || (d.ownerId != actor.id && Admin !in actor.roles) {
        return Forbidden;
      }
      if d.status != PUBLISHED { return Conflict; }
      ManagerMayUpdate(actor, d);
      o := UpdateStatus(ARCHIVE, ARCHIVED, actor, now);
    }

    method DeleteDoc(now: int, actor: Actor, mayRead: bool) returns (o: Outcome)
      modifies this
      ensures var r := Request(now, actor, mayRead, Delete);
        o == Decide(old(Value()), r) && Value() == Next(old(Value()), r)
    {
      if doc.None? || doc.value.status == DELETED { return NotFound; }
      if !mayRead { return Forbidden; }
      var d := doc.value;
      if Admin !in actor.roles && !(Editor in actor.roles && d.ownerId == actor.id) { return Forbidden; }
      if d.status != DRAFT { return Conflict; }
      ManagerMayUpdate(actor, d);
      o := UpdateStatus(DELETE, DELETED, actor, now);
    }

    method SetApprovalChain(now: int, actor: Actor, mayRead: bool, names: seq<string>) returns (o: Outcome)
      modifies this
      ensures var r := Request(now, actor, mayRead, SetChain(names));
        o == Decide(old(Value()), r) && Value() == Next(old(Value()), r)
    {
      if doc.None? { return NotFound; }
      var d := doc.value;
      var isOwnerEditor := d.ownerId == actor.id && (Editor in actor.roles || Admin in actor.roles);
      if Admin !in actor.roles && !isOwnerEditor { return Forbidden; }
      if !(d.status == PENDING && d.approvalStep == 0) { return BadRequest; }
      var approvers := CleanNames(names);
      if |approvers| == 0 { return BadRequest; }
      if |Elements(approvers)| != |approvers| { return BadRequest; }
      doc := Some(d.(approvalChain := approvers, approvalStep := 0));
      o := Done;
    }

    method RestoreFromTrash(now: int, actor: Actor, mayRead: bool) returns (o: Outcome)
      modifies this
      ensures var r := Request(now, actor, mayRead, Restore);
        o == Decide(old(Value()), r) && Value() == Next(old(Value()), r)
    {
      if doc.None? { return NotFound; }
      var d := doc.value;
      if d.status != DELETED { return BadRequest; }
      if Admin !in actor.roles && d.ownerId != actor.id { return Forbidden; }
      if d.deletedAt.Some? {
        var purgeAt := d.deletedAt.value + TRASH_RECOVERY_DAYS * DAY_MS;
        if now > purgeAt { return BadRequest; }
      }
      doc := Some(d.(status := DRAFT, deletedAt := None));
      o := Done;
    }

    method UpdateMetadata(now: int, actor: Actor, mayRead: bool, level: Option<Level>, overrideReason: string)
      returns (o: Outcome)
      modifies this
      ensures var r := Request(now, actor, mayRead, Reclassify(level, overrideReason));
        o == Decide(old(Value()), r) && Value() == Next(old(Value()), r)
    {
      if doc.None? { return NotFound; }
      var d := doc.value;
      var isEditor := Editor in actor.roles || Admin in actor.roles;
      if !isEditor || (d.ownerId != actor.id && Admin !in actor.roles) { return Forbidden; }
      var changed := d;
      if level.Some? {
        if d.dlpStatus == DETECTED && (level.value == PUBLIC || level.value == INTERNAL) {
          if Admin !in actor.roles { return Forbidden; }
          if Trim(overrideReason) == "" { return BadRequest; }
        }
        changed := changed.(classification := level.value);
      }
      doc := Some(changed);
      o := Done;
    }

    method RegisterVersion(now: int, actor: Actor, mayRead: bool, version: nat, dlp: Option<Dlp>) returns (o: Outcome)
      modifies this
      ensures var r := Request(now, actor, mayRead, CreateVersion(version, dlp));
        o == Decide(old(Value()), r) && Value() == Next(old(Value()), r)
    {
      if doc.None? { return NotFound; }
      var d := doc.value;
      if (Editor !in actor.roles && Admin !in actor.roles) || (d.ownerId != actor.id && Admin !in actor.roles) {
        return Forbidden;
      }
      if version != d.currentVersion + 1 { return Conflict; }
      var dlpStatus := dlp.GetOr(NOT_SCANNED);
      versions := versions + [dlpStatus];
      var changed := d.(currentVersion := version);
      if dlpStatus == DETECTED {
        changed := changed.(dlpStatus := DETECTED);
        if d.classification == PUBLIC || d.classification == INTERNAL {
          changed := changed.(classification := CONFIDENTIAL);
        }
      } else {
        changed := changed.(dlpStatus := dlpStatus);
      }
      doc := Some(changed);
      o := Done;
    }

    method RestoreOldVersion(now: int, actor: Actor, mayRead: bool, source: nat) returns (o: Outcome)
      modifies this
      ensures var r := Request(now, actor, mayRead, RestoreVersion(source));
        o == Decide(old(Value()), r) && Value() == Next(old(Value()), r)
    {
      if doc.None? { return NotFound; }
      var d := doc.value;
      if (Editor !in actor.roles && Admin !in actor.roles) || (d.ownerId != actor.id && Admin !in actor.roles) {
        return Forbidden;
      }
      if source < 1 || source > |versions| { return NotFound; }
      if source == d.currentVersion { return Conflict; }
      versions := versions + [versions[source - 1]];
      doc := Some(d.(currentVersion := d.currentVersion + 1));
      o := Done;
    }

    method SetLegalHold(now: int, actor: Actor, mayRead: bool, hold: bool, reason: string) returns (o: Outcome)
      modifies this
      ensures var r := Request(now, actor, mayRead, SetHold(hold, reason));
        o == Decide(old(Value()), r) && Value() == Next(old(Value()), r)
    {
      if Admin !in actor.roles { return Forbidden; }
      if doc.None? { return NotFound; }
      if hold && Trim(reason) == "" { return BadRequest; }
      doc := Some(doc.value.(legalHold := hold));
      o := Done;
    }
  }

  lemma ManagerMayUpdate(a: Actor, d: Doc)
    requires Manages(a, d)
    ensures {Editor, Approver, Admin} * a.roles != {}
  {
    assert Admin in {Editor, Approver, Admin} * a.roles || Editor in {Editor, Approver, Admin} * a.roles;
  }

  lemma DeciderMayUpdate(a: Actor)
    requires MayDecide(a)
    ensures {Editor, Approver, Admin} * a.roles != {}
  {
    assert Admin in {Editor, Approver, Admin} * a.roles || Approver in {Editor, Approver, Admin} * a.roles;
  }

  function Fresh(id: string, owner: string, level: Level): State {
    State(Some(Doc(id, owner, DRAFT, level, NOT_SCANNED, false, 0, [], 0, None, None, None, None)), [], [])
  }
}
