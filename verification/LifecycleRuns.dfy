/** What holds over every run of requests against one document, in any order, by any actors, at any times. */
module LifecycleRuns {
  import opened Prelude
  import opened Documents
  import opened DocumentLifecycle
  import RetentionAndTrash

  function Run(s: State, requests: seq<Request>): State {
    if requests == [] then s
    else Next(Run(s, requests[..|requests| - 1]), requests[|requests| - 1])
  }

  // ---- The lifecycle invariant ----

  /** Two statuses that can follow each other in the record: the same, or out of the trash, which leaves no entry. */
  predicate Joined(last: Status, next: Status) {
    last == next || (last == DELETED && next == DRAFT)
  }

  predicate Legal(e: Entry) {
    if e.action == RETENTION then e.from == PUBLISHED && e.to == ARCHIVED
    else TransitionOf(e.action) == Some(Transition(e.from, e.to))
  }

  /** The history is a path of legal transitions from DRAFT to the given status, joined by trash restores. */
  predicate IsPath(history: seq<Entry>, status: Status) {
    if history == [] then status == DRAFT
    else
      var e := history[|history| - 1];
      Joined(e.to, status) && Legal(e) && IsPath(history[..|history| - 1], e.from)
  }

  /** How many trash restores the path needs. */
  function Gaps(history: seq<Entry>, status: Status): nat {
    if history == [] then 0
    else
      var e := history[|history| - 1];
      (if e.to == status then 0 else 1) + Gaps(history[..|history| - 1], e.from)
  }

  ghost predicate StampsOk(d: Doc) {
    && (d.publishedAt.Some? <==> d.status == PUBLISHED || d.status == ARCHIVED)
    && (d.archivedAt.Some? <==> d.status == ARCHIVED)
    && (d.deletedAt.Some? <==> d.status == DELETED)
  }

  /** Retention runs from publication, by some classification; RetentionIsFixed says by which. */
  ghost predicate RetentionOk(d: Doc) {
    d.publishedAt.Some? ==> exists level: Level :: d.retentionUntil == Some(RetentionEnd(level, d.publishedAt.value))
  }

  ghost predicate ChainOk(d: Doc) {
    && "" !in d.approvalChain && NoRepeats(d.approvalChain)
    && d.approvalStep <= |d.approvalChain|
    && (d.approvalStep == |d.approvalChain| ==> d.approvalChain == [])
  }

  ghost predicate Consistent(s: State) {
    match s.doc
    case None => s == State(None, [], [])
    case Some(d) =>
      StampsOk(d) && RetentionOk(d) && ChainOk(d) && d.currentVersion == |s.versions| && IsPath(s.history, d.status)
  }

  lemma {:induction false} FullSizeMeansDistinct<T>(s: seq<T>)
    requires |Elements(s)| == |s|
    ensures NoRepeats(s)
  {
    if s != [] {
      var front, last := s[..|s| - 1], s[|s| - 1];
      assert s == front + [last];
      ElementsBound(front);
      assert Elements(s) == Elements(front) + {last};
      FullSizeMeansDistinct(front);
      NoRepeatsAppend(front, last);
    }
  }

  lemma {:induction false} ElementsBound<T>(s: seq<T>)
    ensures |Elements(s)| <= |s|
  {
    if s != [] {
      var front, last := s[..|s| - 1], s[|s| - 1];
      assert s == front + [last];
      ElementsBound(front);
      assert Elements(s) == Elements(front) + {last};
    }
  }

  /** One request leaves the history alone, takes the document out of the trash, or adds one legal transition. */
  ghost predicate HistoryStep(s: State, d: Doc, t: State, e: Doc, restored: bool) {
    if restored then t.history == s.history && d.status == DELETED && e.status == DRAFT
    else
      || (t.history == s.history && d.status == e.status)
      || (|t.history| == |s.history| + 1 && t.history[..|s.history|] == s.history
          && t.history[|s.history|].from == d.status && t.history[|s.history|].to == e.status
          && Legal(t.history[|s.history|]))
  }

  predicate TakesOut(s: State, r: Request) {
    r.op.Restore? && Decide(s, r) == Done
  }

  lemma NextHistory(s: State, r: Request)
    requires s.doc.Some? && Next(s, r).doc.Some?
    ensures HistoryStep(s, s.doc.value, Next(s, r), Next(s, r).doc.value, TakesOut(s, r))
  {
  }

  lemma NextStamps(s: State, r: Request)
    requires s.doc.Some? && StampsOk(s.doc.value) && Next(s, r).doc.Some?
    ensures StampsOk(Next(s, r).doc.value)
  {
    if Decide(s, r) == Done { EffectStamps(s, s.doc.value, r); }
  }

  lemma EffectStamps(s: State, d: Doc, r: Request)
    requires s.doc == Some(d) && StampsOk(d) && DecideFor(s, d, r) == Done
    requires !r.op.PurgeTrash?
    ensures Effect(s, d, r).doc.Some? && StampsOk(Effect(s, d, r).doc.value)
  {
    match r.op
    case Submit =>
    case Approve =>
    case Reject =>
    case Archive =>
    case Delete =>
    case Restore =>
    case RunRetention =>
    case _ =>
  }

  lemma NextRetentionOk(s: State, r: Request)
    requires s.doc.Some? && RetentionOk(s.doc.value) && Next(s, r).doc.Some?
    ensures RetentionOk(Next(s, r).doc.value)
  {
    var d, e := s.doc.value, Next(s, r).doc.value;
    if e.publishedAt != d.publishedAt {
      assert e.retentionUntil == Some(RetentionEnd(d.classification, e.publishedAt.value));
    } else {
      assert e.retentionUntil == d.retentionUntil || e.retentionUntil == Some(RetentionEnd(d.classification, r.now));
    }
  }

  lemma NextChainOk(s: State, r: Request)
    requires s.doc.Some? && ChainOk(s.doc.value) && Next(s, r).doc.Some?
    ensures ChainOk(Next(s, r).doc.value)
  {
    if r.op.SetChain? && Decide(s, r) == Done { FullSizeMeansDistinct(CleanNames(r.op.approvers)); }
  }

  lemma NextVersions(s: State, r: Request)
    requires s.doc.Some? && s.doc.value.currentVersion == |s.versions| && Next(s, r).doc.Some?
    ensures Next(s, r).doc.value.currentVersion == |Next(s, r).versions|
  {
  }

  lemma NextPath(s: State, r: Request)
    requires s.doc.Some? && IsPath(s.history, s.doc.value.status) && Next(s, r).doc.Some?
    ensures var t := Next(s, r);
      && IsPath(t.history, t.doc.value.status)
      && Gaps(t.history, t.doc.value.status)
         == Gaps(s.history, s.doc.value.status) + if TakesOut(s, r) then 1 else 0
  {
    NextHistory(s, r);
  }

  /** Every request keeps the invariant. */
  lemma NextIsConsistent(s: State, r: Request)
    requires Consistent(s)
    ensures Consistent(Next(s, r))
  {
    if s.doc.Some? && Next(s, r).doc.Some? {
      NextStamps(s, r);
      NextRetentionOk(s, r);
      NextChainOk(s, r);
      NextVersions(s, r);
      NextPath(s, r);
    }
  }

  lemma {:induction false} RunIsConsistent(s: State, requests: seq<Request>)
    requires Consistent(s)
    ensures Consistent(Run(s, requests))
  {
    if requests != [] {
      RunIsConsistent(s, requests[..|requests| - 1]);
      NextIsConsistent(Run(s, requests[..|requests| - 1]), requests[|requests| - 1]);
    }
  }

  /**
   * The lifecycle invariant: from a fresh draft on, time stamps follow the status, the history is a path of legal
   * transitions ending in it, and the chain is distinct with the step inside it.
   */
  lemma LifecycleInvariant(id: string, owner: string, level: Level, requests: seq<Request>)
    ensures Consistent(Run(Fresh(id, owner, level), requests))
  {
    RunIsConsistent(Fresh(id, owner, level), requests);
  }

  function Restores(s: State, requests: seq<Request>): nat {
    if requests == [] then 0
    else
      var front, r := requests[..|requests| - 1], requests[|requests| - 1];
      Restores(s, front) + if TakesOut(Run(s, front), r) then 1 else 0
  }

  /** The gaps in the history are exactly the trash restores of the run. */
  lemma {:induction false} GapsAreRestores(id: string, owner: string, level: Level, requests: seq<Request>)
    ensures var s := Run(Fresh(id, owner, level), requests);
      s.doc.Some? ==> Gaps(s.history, s.doc.value.status) == Restores(Fresh(id, owner, level), requests)
  {
    if requests != [] {
      var front, r := requests[..|requests| - 1], requests[|requests| - 1];
      GapsAreRestores(id, owner, level, front);
      LifecycleInvariant(id, owner, level, front);
      if Run(Fresh(id, owner, level), requests).doc.Some? {
        NextPath(Run(Fresh(id, owner, level), front), r);
      }
    }
  }

  /** Publication happens once and lasts: whatever follows, the document exists, published then archived for good. */
  lemma {:induction false} PublishedForGood(s: State, requests: seq<Request>)
    requires Consistent(s) && s.doc.Some? && s.doc.value.publishedAt.Some?
    ensures var t := Run(s, requests);
      && t.doc.Some?
      && t.doc.value.publishedAt == s.doc.value.publishedAt
      && t.doc.value.retentionUntil == s.doc.value.retentionUntil
      && (t.doc.value.status == PUBLISHED || t.doc.value.status == ARCHIVED)
      && (s.doc.value.status == ARCHIVED ==>
            && t.doc.value.status == ARCHIVED && t.doc.value.archivedAt == s.doc.value.archivedAt
            && t.history == s.history)
  {
    if requests != [] {
      var front := requests[..|requests| - 1];
      PublishedForGood(s, front);
      RunIsConsistent(s, front);
      PublishedStep(Run(s, front), requests[|requests| - 1]);
    }
  }

  lemma PublishedStep(s: State, r: Request)
    requires s.doc.Some? && StampsOk(s.doc.value) && s.doc.value.publishedAt.Some?
    ensures var t := Next(s, r);
      && t.doc.Some?
      && t.doc.value.publishedAt == s.doc.value.publishedAt
      && t.doc.value.retentionUntil == s.doc.value.retentionUntil
      && (t.doc.value.status == PUBLISHED || t.doc.value.status == ARCHIVED)
      && (s.doc.value.status == ARCHIVED ==>
            && t.doc.value.status == ARCHIVED && t.doc.value.archivedAt == s.doc.value.archivedAt
            && t.history == s.history)
  {
  }

  /** Deleting and restoring is a round trip for the whole document, exactly within the recovery window. */
  lemma DeleteThenRestore(s: State, delete: Request, restore: Request)
    requires Consistent(s) && s.doc.Some?
    requires delete.op.Delete? && Decide(s, delete) == Done
    requires restore.op.Restore? && (IsAdmin(restore.actor) || restore.actor.id == s.doc.value.ownerId)
    ensures Next(Next(s, delete), restore).doc == s.doc <==> restore.now <= delete.now + TRASH_RECOVERY_DAYS * DAY_MS
    ensures Decide(Next(s, delete), restore) == Done <==> restore.now <= delete.now + TRASH_RECOVERY_DAYS * DAY_MS
    ensures Next(Next(s, delete), restore).versions == s.versions
  {
    var d := s.doc.value;
    assert d.status == DRAFT && d.deletedAt == None;
    assert Next(s, delete).doc == Some(d.(status := DELETED, deletedAt := Some(delete.now)));
  }

  /** Who may change a document at all: an admin, the owner as editor or by restoring, an approver by deciding. */
  lemma ChangeNeedsAuthority(s: State, r: Request)
    requires Next(s, r) != s
    requires !r.op.RunRetention? && !r.op.PurgeTrash?
    ensures s.doc.Some?
    ensures
      || IsAdmin(r.actor)
      || (s.doc.value.ownerId == r.actor.id && (Editor in r.actor.roles || r.op.Restore?))
      || (Approver in r.actor.roles && (r.op.Approve? || r.op.Reject?))
  {
  }

  // ---- The approval chain ----

  /** The approvals by approvers, in order, since the chain was last set. */
  function Approvals(s: State, requests: seq<Request>): seq<string> {
    if requests == [] then []
    else
      var front := requests[..|requests| - 1];
      Counted(Run(s, front), requests[|requests| - 1], Approvals(s, front))
  }

  function Counted(s: State, r: Request, prior: seq<string>): seq<string> {
    if Decide(s, r) != Done then prior
    else if r.op.SetChain? then []
    else if r.op.Approve? && !IsAdmin(r.actor) then prior + [r.actor.id]
    else prior
  }

  /** Before publication the approvals so far are the chain up to the current step. */
  ghost predicate ApprovalsFollow(s: State, approvals: seq<string>) {
    match s.doc
    case None => true
    case Some(d) =>
      d.publishedAt.None? ==> d.approvalStep <= |d.approvalChain| && approvals == d.approvalChain[..d.approvalStep]
  }

  lemma {:induction false} ApprovalsFollowChain(id: string, owner: string, level: Level, requests: seq<Request>)
    ensures ApprovalsFollow(Run(Fresh(id, owner, level), requests), Approvals(Fresh(id, owner, level), requests))
  {
    if requests != [] {
      var front, r := requests[..|requests| - 1], requests[|requests| - 1];
      ApprovalsFollowChain(id, owner, level, front);
      LifecycleInvariant(id, owner, level, front);
      LifecycleInvariant(id, owner, level, requests);
      NextApproval(Run(Fresh(id, owner, level), front), r, Approvals(Fresh(id, owner, level), front));
    }
  }

  /** Requests other than configuring the chain and an approver's approval leave chain and step alone. */
  lemma NextKeepsProgress(s: State, r: Request)
    requires s.doc.Some? && Next(s, r).doc.Some?
    requires !(Decide(s, r) == Done && (r.op.SetChain? || (r.op.Approve? && !IsAdmin(r.actor))))
    ensures var d, e := s.doc.value, Next(s, r).doc.value;
      && e.approvalChain == d.approvalChain && e.approvalStep == d.approvalStep
      && (e.publishedAt.None? ==> d.publishedAt.None?)
  {
  }

  lemma NextOfChain(chain: seq<string>, step: nat)
    requires step < |chain|
    ensures chain[..step + 1] == chain[..step] + [chain[step]]
  {
  }

  lemma NextIsApproved(s: State, r: Request, prior: seq<string>)
    requires ApprovalsFollow(s, prior)
    requires r.op.Approve? && !IsAdmin(r.actor) && Decide(s, r) == Done
    ensures ApprovalsFollow(Next(s, r), prior + [r.actor.id])
  {
    var d := s.doc.value;
    if OnlyAdvances(r.actor, d) {
      NextOfChain(d.approvalChain, d.approvalStep);
    }
  }

  lemma NextIsConfigured(s: State, r: Request, prior: seq<string>)
    requires s.doc.Some? && StampsOk(s.doc.value) && ApprovalsFollow(s, prior)
    requires r.op.SetChain? && Decide(s, r) == Done
    ensures ApprovalsFollow(Next(s, r), []) && prior == []
  {
  }

  lemma NextApproval(s: State, r: Request, prior: seq<string>)
    requires Consistent(s) && ApprovalsFollow(s, prior)
    ensures ApprovalsFollow(Next(s, r), Counted(s, r, prior))
  {
    if s.doc.Some? && Next(s, r).doc.Some? {
      if Decide(s, r) == Done && r.op.SetChain? {
        NextIsConfigured(s, r, prior);
      } else if Decide(s, r) == Done && r.op.Approve? && !IsAdmin(r.actor) {
        NextIsApproved(s, r, prior);
      } else {
        NextKeepsProgress(s, r);
      }
    }
  }

  /**
   * Approval order: an approval by an approver publishes a document with a chain exactly if with it the approvals
   * since the chain was set are the whole chain, in order and each approver once.
   */
  lemma ApprovalOrder(id: string, owner: string, level: Level, requests: seq<Request>, r: Request)
    requires var s := Run(Fresh(id, owner, level), requests);
      && r.op.Approve? && !IsAdmin(r.actor) && Decide(s, r) == Done
      && s.doc.value.approvalChain != []
    ensures var s := Run(Fresh(id, owner, level), requests);
      var chain := s.doc.value.approvalChain;
      var after := Next(s, r).doc.value;
      && NoRepeats(chain)
      && Approvals(Fresh(id, owner, level), requests + [r]) == chain[..s.doc.value.approvalStep + 1]
      && (after.status == PUBLISHED <==> Approvals(Fresh(id, owner, level), requests + [r]) == chain)
  {
    var draft := Fresh(id, owner, level);
    ApprovalsFollowChain(id, owner, level, requests);
    LifecycleInvariant(id, owner, level, requests);
    assert (requests + [r])[..|requests|] == requests;
    ApprovalOrderStep(Run(draft, requests), r, Approvals(draft, requests));
  }

  lemma ApprovalOrderStep(s: State, r: Request, prior: seq<string>)
    requires Consistent(s) && ApprovalsFollow(s, prior)
    requires r.op.Approve? && !IsAdmin(r.actor) && Decide(s, r) == Done
    requires s.doc.value.approvalChain != []
    ensures var d := s.doc.value;
      && Counted(s, r, prior) == d.approvalChain[..d.approvalStep + 1]
      && (Next(s, r).doc.value.status == PUBLISHED <==> Counted(s, r, prior) == d.approvalChain)
  {
    var d := s.doc.value;
    NextOfChain(d.approvalChain, d.approvalStep);
  }

  /** Configuring the chain never discards an approval. */
  lemma ChainSetDiscardsNothing(id: string, owner: string, level: Level, requests: seq<Request>, r: Request)
    requires r.op.SetChain? && Decide(Run(Fresh(id, owner, level), requests), r) == Done
    ensures Approvals(Fresh(id, owner, level), requests) == []
  {
    ApprovalsFollowChain(id, owner, level, requests);
    LifecycleInvariant(id, owner, level, requests);
    NextIsConfigured(Run(Fresh(id, owner, level), requests), r, Approvals(Fresh(id, owner, level), requests));
  }

  // ---- Data-loss findings and classification ----

  predicate Floor(s: State) {
    s.doc.Some? && s.doc.value.dlpStatus == DETECTED ==> !Low(s.doc.value.classification)
  }

  /** An admin lowers the classification of a document with findings, giving a reason. */
  predicate Overrides(s: State, r: Request) {
    && s.doc.Some? && s.doc.value.dlpStatus == DETECTED
    && r.op.Reclassify? && r.op.level.Some? && Low(r.op.level.value)
    && IsAdmin(r.actor) && Trim(r.op.overrideReason) != ""
  }

  /** One request breaks the floor exactly if it is such an override. */
  lemma FloorBreaksByOverride(s: State, r: Request)
    requires Floor(s)
    ensures Floor(Next(s, r)) <==> !Overrides(s, r)
  {
  }

  predicate NoOverride(s: State, requests: seq<Request>) {
    requests == []
    || (NoOverride(s, requests[..|requests| - 1])
        && !Overrides(Run(s, requests[..|requests| - 1]), requests[|requests| - 1]))
  }

  /** In every run without an override a document with findings is CONFIDENTIAL or SECRET. */
  lemma {:induction false} FloorHolds(s: State, requests: seq<Request>)
    requires Floor(s) && NoOverride(s, requests)
    ensures Floor(Run(s, requests))
  {
    if requests != [] {
      FloorHolds(s, requests[..|requests| - 1]);
      FloorBreaksByOverride(Run(s, requests[..|requests| - 1]), requests[|requests| - 1]);
    }
  }

  // ---- The retention job ----

  /** Whatever follows a publication, retention runs from it by the classification of that moment. */
  lemma RetentionIsFixed(s: State, r: Request, later: seq<Request>)
    requires Consistent(s) && r.op.Approve? && Decide(s, r) == Done
    requires !OnlyAdvances(r.actor, s.doc.value)
    ensures var t := Run(Next(s, r), later);
      && t.doc.Some? && t.doc.value.publishedAt == Some(r.now)
      && t.doc.value.retentionUntil == Some(RetentionEnd(s.doc.value.classification, r.now))
  {
    NextIsConsistent(s, r);
    PublishedForGood(Next(s, r), later);
  }

  /** The job over all documents treats each one as this request does. */
  lemma JobActsPerDocument(s: State, now: int, actor: Actor, mayRead: bool)
    requires s.doc.Some?
    ensures Next(s, Request(now, actor, mayRead, RunRetention)).doc
         == Some(RetentionAndTrash.AfterJob(s.doc.value, now, {}))
  {
  }

  /** No document is archived by the job within 91 days of its publication, nor while it is on hold. */
  lemma RetentionIsNeverEarly(id: string, owner: string, level: Level, requests: seq<Request>, r: Request)
    requires r.op.RunRetention? && Decide(Run(Fresh(id, owner, level), requests), r) == Done
    ensures var d := Run(Fresh(id, owner, level), requests).doc.value;
      !d.legalHold && d.publishedAt.Some? && r.now >= d.publishedAt.value + 91 * DAY_MS
  {
    LifecycleInvariant(id, owner, level, requests);
    var d := Run(Fresh(id, owner, level), requests).doc.value;
    var at: Level :| d.retentionUntil == Some(RetentionEnd(at, d.publishedAt.value));
  }
}
