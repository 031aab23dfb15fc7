/**
 * Request by request, in terms of the stored fields alone: when each one is accepted, what it leaves, and what a
 * series of them achieves.
 */
module LifecycleLaws {
  import opened Prelude
  import opened Documents
  import opened DocumentLifecycle
  import opened LifecycleRuns

  /** A request that is not accepted changes nothing. */
  lemma RefusedChangesNothing(s: State, r: Request)
    requires Decide(s, r) != Done
    ensures Next(s, r) == s
  {
  }

  /** A purged document is not found; only holds ask for the role first, and the jobs pass it over. */
  lemma MissingLaw(s: State, r: Request)
    requires s.doc.None?
    ensures Decide(s, r) ==
      match r.op
      case RunRetention => Idle
      case PurgeTrash => Idle
      case SetHold(_, _) => if Admin in r.actor.roles then NotFound else Forbidden
      case _ => NotFound
  {
  }

  /** A new document is an empty draft: not scanned, not held, without versions, approvers, dates and history. */
  lemma NewDocument(id: string, owner: string, level: Level)
    ensures var s := Fresh(id, owner, level);
      && s.versions == [] && s.history == []
      && s.doc.Some? && var d := s.doc.value;
      && d.id == id && d.ownerId == owner && d.classification == level
      && d.status == DRAFT && d.dlpStatus == NOT_SCANNED && d.legalHold == false
      && d.currentVersion == 0 && d.approvalChain == [] && d.approvalStep == 0
      && d.publishedAt == d.archivedAt == d.deletedAt == d.retentionUntil == None
  {
  }

  // ---- Workflow ----

  lemma SubmitLaw(s: State, r: Request)
    requires r.op.Submit? && s.doc.Some?
    ensures var d := s.doc.value;
      Decide(s, r) ==
        if d.status == DELETED then NotFound
        else if !r.mayRead then Forbidden
        else if !(Admin in r.actor.roles || (Editor in r.actor.roles && d.ownerId == r.actor.id)) then Forbidden
        else if d.status != DRAFT then Conflict
        else Done
    ensures Decide(s, r) == Done ==>
      Next(s, r) == State(Some(s.doc.value.(status := PENDING)), s.versions,
                          s.history + [Entry(DRAFT, PENDING, SUBMIT, r.actor.id)])
  {
  }

  lemma RejectLaw(s: State, r: Request)
    requires r.op.Reject? && s.doc.Some?
    ensures var d := s.doc.value;
      Decide(s, r) ==
        if d.status == DELETED then NotFound
        else if !r.mayRead then Forbidden
        else if !(Admin in r.actor.roles || Approver in r.actor.roles) then Forbidden
        else if d.status != PENDING then Conflict
        else Done
    ensures Decide(s, r) == Done ==>
      Next(s, r) == State(Some(s.doc.value.(status := DRAFT)), s.versions,
                          s.history + [Entry(PENDING, DRAFT, REJECT, r.actor.id)])
  {
  }

  lemma ArchiveLaw(s: State, r: Request)
    requires r.op.Archive? && s.doc.Some?
    ensures var d := s.doc.value;
      Decide(s, r) ==
        if d.status == DELETED then NotFound
        else if !r.mayRead then Forbidden
        else if !(Admin in r.actor.roles || (Editor in r.actor.roles && d.ownerId == r.actor.id)) then Forbidden
        else if d.status != PUBLISHED then Conflict
        else Done
    ensures Decide(s, r) == Done ==>
      Next(s, r) == State(Some(s.doc.value.(status := ARCHIVED, archivedAt := Some(r.now))), s.versions,
                          s.history + [Entry(PUBLISHED, ARCHIVED, ARCHIVE, r.actor.id)])
  {
  }

  lemma DeleteLaw(s: State, r: Request)
    requires r.op.Delete? && s.doc.Some?
    ensures var d := s.doc.value;
      Decide(s, r) ==
        if d.status == DELETED then NotFound
        else if !r.mayRead then Forbidden
        else if !(Admin in r.actor.roles || (Editor in r.actor.roles && d.ownerId == r.actor.id)) then Forbidden
        else if d.status != DRAFT then Conflict
        else Done
    ensures Decide(s, r) == Done ==>
      Next(s, r) == State(Some(s.doc.value.(status := DELETED, deletedAt := Some(r.now))), s.versions,
                          s.history + [Entry(DRAFT, DELETED, DELETE, r.actor.id)])
  {
  }

  /** When an approval is accepted: any approver without a chain, only the next in it with one, always an admin. */
  lemma ApproveAcceptedIff(s: State, r: Request)
    requires r.op.Approve?
    ensures Decide(s, r) == Done <==>
      && s.doc.Some? && s.doc.value.status == PENDING && r.mayRead
      && var chain, step := s.doc.value.approvalChain, s.doc.value.approvalStep;
      || Admin in r.actor.roles
      || (Approver in r.actor.roles && (|chain| == 0 || (step < |chain| && chain[step] == r.actor.id)))
  {
  }

  lemma ApproveRefusals(s: State, r: Request)
    requires r.op.Approve? && Decide(s, r) != Done
    ensures Decide(s, r) ==
      if s.doc.None? || s.doc.value.status == DELETED then NotFound
      else if !r.mayRead || !(Admin in r.actor.roles || Approver in r.actor.roles) then Forbidden
      else if s.doc.value.status != PENDING then Conflict
      else Forbidden
  {
  }

  /** What an accepted approval does: one step forward for an approver with others behind, publication otherwise. */
  lemma ApproveTakesEffect(s: State, r: Request)
    requires r.op.Approve? && Decide(s, r) == Done
    ensures var d := s.doc.value;
      Next(s, r) ==
        if Admin !in r.actor.roles && d.approvalStep + 1 < |d.approvalChain|
        then State(Some(d.(approvalStep := d.approvalStep + 1)), s.versions, s.history)
        else
          State(Some(d.(status := PUBLISHED, publishedAt := Some(r.now),
                        retentionUntil := Some(r.now + DaysToKeep(d.classification) * 86_400_000))),
                s.versions, s.history + [Entry(PENDING, PUBLISHED, APPROVE, r.actor.id)])
  {
  }

  /** Days of retention: two years, one year, six months, three months. */
  function DaysToKeep(level: Level): int {
    match level
    case PUBLIC => 730
    case INTERNAL => 365
    case CONFIDENTIAL => 180
    case SECRET => 90
  }

  /** The request is an approval by the given approver, who is no admin and may read the document. */
  predicate ApprovesAs(r: Request, name: string) {
    r.op.Approve? && r.mayRead && r.actor.id == name && Approver in r.actor.roles && Admin !in r.actor.roles
  }

  /** The first n approvals of a chain that has more take it n steps on and leave the document pending. */
  lemma {:induction false} ChainAdvances(s: State, requests: seq<Request>)
    requires s.doc.Some? && s.doc.value.status == PENDING
    requires s.doc.value.approvalStep + |requests| < |s.doc.value.approvalChain|
    requires forall i :: 0 <= i < |requests| ==>
      ApprovesAs(requests[i], s.doc.value.approvalChain[s.doc.value.approvalStep + i])
    ensures Run(s, requests) == s.(doc := Some(s.doc.value.(approvalStep := s.doc.value.approvalStep + |requests|)))
  {
    if requests != [] {
      var n := |requests| - 1;
      ChainAdvances(s, requests[..n]);
      assert ApprovesAs(requests[n], s.doc.value.approvalChain[s.doc.value.approvalStep + n]);
      ApproveAcceptedIff(Run(s, requests[..n]), requests[n]);
      ApproveTakesEffect(Run(s, requests[..n]), requests[n]);
    }
  }

  /** Progress: once the approvers left in the chain have approved in order, the document is published. */
  lemma ChainCompletes(s: State, requests: seq<Request>)
    requires s.doc.Some? && s.doc.value.status == PENDING
    requires s.doc.value.approvalStep < |s.doc.value.approvalChain|
    requires |requests| == |s.doc.value.approvalChain| - s.doc.value.approvalStep
    requires forall i :: 0 <= i < |requests| ==>
      ApprovesAs(requests[i], s.doc.value.approvalChain[s.doc.value.approvalStep + i])
    ensures var t := Run(s, requests);
      t.doc.Some? && t.doc.value.status == PUBLISHED && t.doc.value.publishedAt == Some(requests[|requests| - 1].now)
  {
    var n := |requests| - 1;
    ChainAdvances(s, requests[..n]);
    assert ApprovesAs(requests[n], s.doc.value.approvalChain[s.doc.value.approvalStep + n]);
    ApproveAcceptedIff(Run(s, requests[..n]), requests[n]);
    ApproveTakesEffect(Run(s, requests[..n]), requests[n]);
  }

  /** And without a chain one approver is enough. */
  lemma OneApprovalPublishes(s: State, r: Request)
    requires s.doc.Some? && s.doc.value.status == PENDING && s.doc.value.approvalChain == []
    requires ApprovesAs(r, r.actor.id)
    ensures var t := Next(s, r);
      t.doc.Some? && t.doc.value.status == PUBLISHED && t.doc.value.publishedAt == Some(r.now)
  {
    ApproveAcceptedIff(s, r);
    ApproveTakesEffect(s, r);
  }

  // ---- Names of approvers ----

  /** What becomes of one name: itself trimmed, or nothing if that is blank. */
  function CleanName(name: string): seq<string> {
    var trimmed := Trim(name);
    if trimmed == "" then [] else [trimmed]
  }

  lemma FirstName(names: seq<string>)
    requires names != []
    ensures CleanNames(names) == CleanName(names[0]) + CleanNames(names[1..])
  {
  }

  lemma OneName(name: string)
    ensures CleanNames([name]) == CleanName(name)
  {
    FirstName([name]);
    assert [name][1..] == [];
  }

  lemma Associates<T>(a: seq<T>, b: seq<T>, c: seq<T>)
    ensures (a + b) + c == a + (b + c)
  {
  }

  /** Names are trimmed and the blank ones dropped, one by one, in the order given. */
  lemma {:induction false} CleanNamesInOrder(a: seq<string>, b: seq<string>)
    ensures CleanNames(a + b) == CleanNames(a) + CleanNames(b)
  {
    if a == [] {
      assert a + b == b;
    } else {
      FirstName(a);
      FirstName(a + b);
      assert (a + b)[0] == a[0] && (a + b)[1..] == a[1..] + b;
      CleanNamesInOrder(a[1..], b);
      Associates(CleanName(a[0]), CleanNames(a[1..]), CleanNames(b));
    }
  }

  lemma {:induction false} NamesKeepPlaces(names: seq<string>, i: nat)
    requires i < |names| && forall k :: 0 <= k < |names| ==> Trim(names[k]) != ""
    ensures |CleanNames(names)| == |names| && CleanNames(names)[i] == Trim(names[i])
  {
    FirstName(names);
    if |names| > 1 { NamesKeepPlaces(names[1..], if i == 0 then 0 else i - 1); }
  }

  lemma SetChainLaw(s: State, r: Request)
    requires r.op.SetChain? && s.doc.Some?
    ensures var d, names := s.doc.value, CleanNames(r.op.approvers);
      Decide(s, r) ==
        if !(Admin in r.actor.roles || (Editor in r.actor.roles && d.ownerId == r.actor.id)) then Forbidden
        else if d.status == PENDING && d.approvalStep == 0 && names != [] && NoRepeats(names) then Done
        else BadRequest
    ensures Decide(s, r) == Done ==>
      Next(s, r) == s.(doc := Some(s.doc.value.(approvalChain := CleanNames(r.op.approvers), approvalStep := 0)))
  {
    var names := CleanNames(r.op.approvers);
    if NoRepeats(names) { NoRepeatsSize(names); }
    if |Elements(names)| == |names| { FullSizeMeansDistinct(names); }
  }

  // ---- Trash ----

  lemma RestoreLaw(s: State, r: Request)
    requires r.op.Restore? && s.doc.Some?
    ensures var d := s.doc.value;
      Decide(s, r) ==
        if d.status != DELETED then BadRequest
        else if !(Admin in r.actor.roles || d.ownerId == r.actor.id) then Forbidden
        else if d.deletedAt.Some? && r.now > d.deletedAt.value + 2_592_000_000 then BadRequest
        else Done
    ensures Decide(s, r) == Done ==> Next(s, r) == s.(doc := Some(s.doc.value.(status := DRAFT, deletedAt := None)))
  {
  }

  lemma PurgeLaw(s: State, r: Request)
    requires r.op.PurgeTrash? && s.doc.Some?
    ensures var d := s.doc.value;
      Next(s, r) ==
        if d.status == DELETED && d.deletedAt.Some? && r.now > d.deletedAt.value + 2_592_000_000
        then State(None, [], [])
        else s
  {
  }

  // ---- Classification and versions ----

  lemma ReclassifyLaw(s: State, r: Request)
    requires r.op.Reclassify? && s.doc.Some?
    ensures var d := s.doc.value;
      var lowers := d.dlpStatus == DETECTED && (r.op.level == Some(PUBLIC) || r.op.level == Some(INTERNAL));
      Decide(s, r) ==
        if !(Admin in r.actor.roles || (Editor in r.actor.roles && d.ownerId == r.actor.id)) then Forbidden
        else if lowers && Admin !in r.actor.roles then Forbidden
        else if lowers && Trim(r.op.overrideReason) == "" then BadRequest
        else Done
    ensures Decide(s, r) == Done ==>
      Next(s, r) == s.(doc := Some(match r.op.level
        case Some(level) => s.doc.value.(classification := level)
        case None => s.doc.value))
  {
  }

  lemma CreateVersionLaw(s: State, r: Request)
    requires r.op.CreateVersion? && s.doc.Some?
    ensures var d := s.doc.value;
      Decide(s, r) ==
        if !(Admin in r.actor.roles || (Editor in r.actor.roles && d.ownerId == r.actor.id)) then Forbidden
        else if r.op.version != d.currentVersion + 1 then Conflict
        else Done
    ensures Decide(s, r) == Done ==>
      var d, t := s.doc.value, Next(s, r);
      var scan := match r.op.dlp case Some(x) => x case None => NOT_SCANNED;
      && t.history == s.history && t.versions == s.versions + [scan]
      && t.doc.Some?
      && t.doc.value ==
           d.(currentVersion := r.op.version, dlpStatus := scan, classification := t.doc.value.classification)
      && t.doc.value.classification ==
           if scan == DETECTED && (d.classification == PUBLIC || d.classification == INTERNAL) then CONFIDENTIAL
           else d.classification
  {
  }

  lemma RestoreVersionLaw(s: State, r: Request)
    requires r.op.RestoreVersion? && s.doc.Some?
    ensures var d, k := s.doc.value, r.op.source;
      Decide(s, r) ==
        if !(Admin in r.actor.roles || (Editor in r.actor.roles && d.ownerId == r.actor.id)) then Forbidden
        else if k == 0 || k > |s.versions| then NotFound
        else if k == d.currentVersion then Conflict
        else Done
    ensures Decide(s, r) == Done ==>
      Next(s, r) == State(Some(s.doc.value.(currentVersion := s.doc.value.currentVersion + 1)),
                          s.versions + [s.versions[r.op.source - 1]], s.history)
  {
  }

  /** The scan of the last upload of a run that was registered. */
  function LastScan(s: State, requests: seq<Request>): Option<Dlp> {
    if requests == [] then None
    else
      var front, r := requests[..|requests| - 1], requests[|requests| - 1];
      if r.op.CreateVersion? && Decide(Run(s, front), r) == Done
      then Some(match r.op.dlp case Some(x) => x case None => NOT_SCANNED)
      else LastScan(s, front)
  }

  /** Over every run a document shows the scan of its last upload, whatever else is done to it. */
  lemma {:induction false} ShowsLastScan(s: State, requests: seq<Request>)
    requires s.doc.Some?
    ensures var t := Run(s, requests);
      t.doc.Some? ==>
        t.doc.value.dlpStatus == match LastScan(s, requests) case Some(x) => x case None => s.doc.value.dlpStatus
  {
    if requests != [] {
      var front, r := requests[..|requests| - 1], requests[|requests| - 1];
      ShowsLastScan(s, front);
      if Run(s, front).doc.Some? && Run(s, requests).doc.Some? { NextScan(Run(s, front), r); }
    }
  }

  /** Nothing but an upload changes the scan a document shows. */
  lemma NextScan(s: State, r: Request)
    requires s.doc.Some? && Next(s, r).doc.Some?
    ensures Next(s, r).doc.value.dlpStatus ==
      if r.op.CreateVersion? && Decide(s, r) == Done
      then (match r.op.dlp case Some(x) => x case None => NOT_SCANNED)
      else s.doc.value.dlpStatus
  {
  }

  /** Whether somebody classified the document PUBLIC or INTERNAL since the last upload of a run. */
  predicate LoweredSince(s: State, requests: seq<Request>) {
    if requests == [] then false
    else
      var front, r := requests[..|requests| - 1], requests[|requests| - 1];
      if Decide(Run(s, front), r) != Done then LoweredSince(s, front)
      else if r.op.CreateVersion? then false
      else if r.op.Reclassify? && (r.op.level == Some(PUBLIC) || r.op.level == Some(INTERNAL)) then true
      else LoweredSince(s, front)
  }

  /** A document whose last upload had findings is CONFIDENTIAL or SECRET unless somebody lowered it since. */
  lemma {:induction false} FindingsKeepItClosed(s: State, requests: seq<Request>)
    requires LastScan(s, requests) == Some(DETECTED) && !LoweredSince(s, requests)
    ensures var t := Run(s, requests);
      t.doc.Some? ==> t.doc.value.classification == CONFIDENTIAL || t.doc.value.classification == SECRET
  {
    var front, r := requests[..|requests| - 1], requests[|requests| - 1];
    var before := Run(s, front);
    if before.doc.Some? && Decide(before, r) == Done && r.op.CreateVersion? {
      CreateVersionLaw(before, r);
    } else {
      FindingsKeepItClosed(s, front);
      if before.doc.Some? && Next(before, r).doc.Some? { KeepsClassification(before, r); }
    }
  }

  /** Nothing but an upload and a reclassification changes the classification. */
  lemma KeepsClassification(s: State, r: Request)
    requires s.doc.Some? && Next(s, r).doc.Some?
    requires Decide(s, r) == Done ==> !r.op.CreateVersion?
    ensures Next(s, r).doc.value.classification ==
      if Decide(s, r) == Done && r.op.Reclassify? && r.op.level.Some? then r.op.level.value
      else s.doc.value.classification
  {
  }

  // ---- Holds and retention ----

  lemma SetHoldLaw(s: State, r: Request)
    requires r.op.SetHold? && s.doc.Some?
    ensures Decide(s, r) ==
      if Admin !in r.actor.roles then Forbidden
      else if r.op.hold && Trim(r.op.reason) == "" then BadRequest
      else Done
    ensures Decide(s, r) == Done ==> Next(s, r) == s.(doc := Some(s.doc.value.(legalHold := r.op.hold)))
  {
  }

  /** Until a hold is released it lasts, and the retention job leaves the document alone. */
  lemma {:induction false} HoldLasts(s: State, requests: seq<Request>, job: Request)
    requires s.doc.Some? && s.doc.value.legalHold && job.op.RunRetention?
    requires forall i :: 0 <= i < |requests| ==> !IsRelease(requests[i])
    ensures var t := Run(s, requests);
      (t.doc.Some? ==> t.doc.value.legalHold) && Next(t, job) == t
  {
    if requests != [] {
      HoldLasts(s, requests[..|requests| - 1], job);
      assert !IsRelease(requests[|requests| - 1]);
      KeepsHold(Run(s, requests[..|requests| - 1]), requests[|requests| - 1]);
    }
  }

  predicate IsRelease(r: Request) {
    r.op.SetHold? && !r.op.hold
  }

  lemma KeepsHold(s: State, r: Request)
    requires s.doc.Some? ==> s.doc.value.legalHold
    requires !IsRelease(r)
    ensures Next(s, r).doc.Some? ==> Next(s, r).doc.value.legalHold
  {
  }

  lemma RunRetentionLaw(s: State, r: Request)
    requires r.op.RunRetention? && s.doc.Some?
    requires s.doc.value.publishedAt.Some? && s.doc.value.retentionUntil.Some?
    ensures var d := s.doc.value;
      Next(s, r) ==
        if d.status == PUBLISHED && d.archivedAt.None? && !d.legalHold && r.now >= d.retentionUntil.value + 86_400_000
        then State(Some(d.(status := ARCHIVED, archivedAt := Some(r.now))), s.versions,
                   s.history + [Entry(PUBLISHED, ARCHIVED, RETENTION, "system:retention")])
        else s
  {
  }

  /**
   * The instant from which the job archives a published document: 731, 366, 181 or 91 days after its publication, by
   * the classification it had then, whatever happened since.
   */
  lemma ArchivedFrom(s: State, approval: Request, later: seq<Request>, job: Request)
    requires Consistent(s) && approval.op.Approve? && Decide(s, approval) == Done
    requires Next(s, approval).doc.Some? && Next(s, approval).doc.value.status == PUBLISHED
    requires job.op.RunRetention?
    ensures var t := Run(Next(s, approval), later);
      var days := match s.doc.value.classification
        case PUBLIC => 731
        case INTERNAL => 366
        case CONFIDENTIAL => 181
        case SECRET => 91;
      && t.doc.Some?
      && (Decide(t, job) == Done <==>
            t.doc.value.status == PUBLISHED && !t.doc.value.legalHold && job.now >= approval.now + days * 86_400_000)
  {
    ApproveTakesEffect(s, approval);
    RetentionIsFixed(s, approval, later);
    NextIsConsistent(s, approval);
    RunIsConsistent(Next(s, approval), later);
  }
}
