/** Two answers to "may this user see this document": the filter of the list query and the check of the detail read. */
module ReadPolicy {
  import opened Prelude
  import opened Documents

  datatype SubjectKind = USER | ROLE | GROUP | ALL

  datatype Permission = READ | DOWNLOAD | WRITE | APPROVE

  datatype Effect = ALLOW | DENY

  datatype Subject = Subject(kind: SubjectKind, id: Option<string>)

  datatype AclEntry = AclEntry(subject: Subject, permission: Permission, effect: Effect)

  /** What the two decisions look at. */
  datatype Sheet = Sheet(orgId: string, ownerId: string, status: Status, classification: Level, acl: seq<AclEntry>)

  /** The caller: roles as sent, and group names as sent. */
  datatype Caller = Caller(orgId: string, id: string, roles: set<string>, groups: seq<string>)

  // ---- Group names ----

  function StripSlashes(s: string): string {
    if s != "" && s[0] == '/' then StripSlashes(s[1..]) else s
  }

  function Normal(name: string): string {
    StripSlashes(Trim(name))
  }

  /** `normalizeGroups`, as a set. */
  function NormalizeGroups(names: seq<string>): set<string> {
    set n | n in names && Trim(n) != "" :: Normal(n)
  }

  /** A group name that normalizing leaves alone. */
  predicate Canonical(name: string) {
    name != "" && Normal(name) == name
  }

  /** Every group name that counts normalizes to a canonical one. */
  predicate PlainGroups(names: seq<string>) {
    forall i :: 0 <= i < |names| ==> PlainGroup(names[i])
  }

  predicate PlainGroup(name: string) {
    Trim(name) != "" ==> Canonical(Normal(name))
  }

  lemma GroupsAreCanonical(names: seq<string>, g: string)
    requires PlainGroups(names) && g in NormalizeGroups(names)
    ensures Canonical(g)
  {
    var n :| n in names && Trim(n) != "" && g == Normal(n);
    assert PlainGroup(n);
  }

  /**
   * The request context normalizes the names once, the list normalizes the result again, and the read the result
   * together with the names as sent; for plain names all of these are the same groups.
   */
  lemma NormalizingTwice(names: seq<string>, once: seq<string>)
    requires PlainGroups(names)
    requires forall g :: g in once <==> g in NormalizeGroups(names)
    ensures NormalizeGroups(once) == NormalizeGroups(names)
    ensures NormalizeGroups(names + once) == NormalizeGroups(names)
  {
    forall g | g in once ensures Canonical(g) && Trim(g) == g {
      GroupsAreCanonical(names, g);
      CanonicalNormal(g);
    }
    forall g ensures g in NormalizeGroups(once) <==> g in once {
      if g in NormalizeGroups(once) { var n :| n in once && Trim(n) != "" && g == Normal(n); }
    }
    forall g ensures g in NormalizeGroups(names + once) <==> g in once {
      if g in NormalizeGroups(names + once) { var n :| n in names + once && Trim(n) != "" && g == Normal(n); }
    }
  }

  // ---- The list filter ----

  predicate IsAdmin(c: Caller) {
    "admin" in c.roles
  }

  /** The subjects the list query matches entries against. */
  function ListSubjects(c: Caller): set<Subject> {
    {Subject(ALL, None), Subject(USER, Some(c.id))}
    + (set r | r in c.roles :: Subject(ROLE, Some(r)))
    + (set g | g in NormalizeGroups(c.groups) :: Subject(GROUP, Some(g)))
    + (set g | g in NormalizeGroups(c.groups) :: Subject(GROUP, Some("/" + g)))
  }

  predicate ListMatches(s: Sheet, c: Caller, permission: Permission, effect: Effect) {
    exists i :: 0 <= i < |s.acl| && ListHits(s.acl[i], c, permission, effect)
  }

  predicate ListHits(e: AclEntry, c: Caller, permission: Permission, effect: Effect) {
    e.permission == permission && e.effect == effect && e.subject in ListSubjects(c)
  }

  predicate Released(s: Sheet) {
    s.status == PUBLISHED || s.status == ARCHIVED
  }

  predicate HasAny(c: Caller, roles: set<string>) {
    exists r :: r in roles && r in c.roles
  }

  /** The where clause of `findAllForOrg`. */
  predicate Listed(s: Sheet, c: Caller) {
    && s.orgId == c.orgId
    && s.status != DELETED
    && !ListMatches(s, c, READ, DENY)
    && (IsAdmin(c) || ListVisible(s, c))
  }

  predicate ListVisible(s: Sheet, c: Caller) {
    || s.ownerId == c.id
    || ListMatches(s, c, READ, ALLOW)
    || ("compliance_officer" in c.roles && Released(s))
    || (HasAny(c, {"approver", "admin"}) && (s.status == PENDING || Released(s)))
    || (s.ownerId == c.id && s.status == DRAFT)
    || (HasAny(c, KNOWN_ROLES) && Released(s) && s.classification == PUBLIC)
    || (HasAny(c, {"editor", "approver", "admin"}) && Released(s) && s.classification == INTERNAL)
    || (HasAny(c, {"approver", "admin"}) && Released(s) && s.classification == CONFIDENTIAL)
    || (HasAny(c, {"approver", "admin"}) && Released(s) && s.classification == SECRET)
  }

  const KNOWN_ROLES: set<string> := {"viewer", "editor", "approver", "compliance_officer", "admin"}

  // ---- The detail read ----

  predicate ReadMatches(s: Sheet, c: Caller, permission: Permission, effect: Effect) {
    exists i :: 0 <= i < |s.acl| && ReadHits(s.acl[i], c, permission, effect)
  }

  /** `matchesPreviewAcl` and `matchesAcl`, which differ in the permission only. */
  predicate ReadHits(e: AclEntry, c: Caller, permission: Permission, effect: Effect) {
    e.permission == permission && e.effect == effect && Addresses(e.subject, c)
  }

  predicate Addresses(subject: Subject, c: Caller) {
    match subject.kind
    case ALL => true
    case USER => subject.id == Some(c.id)
    case ROLE => subject.id.Some? && subject.id.value != "" && subject.id.value in c.roles
    case GROUP => subject.id.Some? && MatchesGroup(subject.id.value, NormalizeGroups(c.groups))
  }

  predicate MatchesGroup(id: string, groups: set<string>) {
    Trim(id) != "" && Normal(id) != "" && Normal(id) in groups
  }

  datatype Decision = Allowed | Missing | Denied(reason: string)

  /** `assertCanReadMetadata`, without a share token. */
  function AssertCanReadMetadata(s: Sheet, c: Caller): Decision {
    if s.orgId != c.orgId || s.status == DELETED then Missing
    else if ReadMatches(s, c, READ, DENY) then Denied("Metadata read denied by ACL")
    else if "admin" in c.roles then Allowed
    else if c.id == s.ownerId || ReadMatches(s, c, READ, ALLOW) || ReadMatches(s, c, DOWNLOAD, ALLOW) then Allowed
    else if "compliance_officer" in c.roles then
      if Released(s) then Allowed else Denied("Compliance officers can only read published or archived metadata")
    else if "approver" in c.roles then
      if s.status == PENDING || Released(s) then Allowed
      else Denied("Approvers can only read pending, published, or archived metadata")
    else if !Released(s) then Denied("Only published or archived documents are readable by this user")
    else if s.classification == PUBLIC then Allowed
    else if s.classification == INTERNAL && "editor" in c.roles then Allowed
    else if s.classification == CONFIDENTIAL && "editor" in c.roles && ReadMatches(s, c, READ, ALLOW) then Allowed
    else Denied("Metadata read denied by classification policy")
  }

  // ---- The matchers agree ----

  /** Entries as the ACL service stores them: no id for everyone, no empty role, a canonical group name or its path. */
  predicate PlainEntry(e: AclEntry) {
    match e.subject.kind
    case ALL => e.subject.id.None?
    case ROLE => e.subject.id != Some("")
    case GROUP =>
      e.subject.id.Some? && Normal(e.subject.id.value) != "" ==>
        e.subject.id.value == Normal(e.subject.id.value) || e.subject.id.value == "/" + Normal(e.subject.id.value)
    case USER => true
  }

  predicate PlainAcl(acl: seq<AclEntry>) {
    forall i :: 0 <= i < |acl| ==> PlainEntry(acl[i])
  }

  lemma CanonicalNormal(g: string)
    requires Canonical(g)
    ensures Trim(g) == g && Normal("/" + g) == g && Trim("/" + g) == "/" + g
  {
    TrimLength(g);
    StripLength(Trim(g));
    TrimEndLength(TrimStart(g));
    TrimStartLength(g);
    assert Trim(g) == g;
    PrefixedTrim(g);
    assert ("/" + g)[1..] == g;
    StripFixed(g);
  }

  lemma {:induction false} TrimStartLength(s: string)
    ensures |TrimStart(s)| <= |s| && (|TrimStart(s)| == |s| ==> TrimStart(s) == s)
  {
    if s != "" && IsSpace(s[0]) { TrimStartLength(s[1..]); }
  }

  lemma {:induction false} TrimEndLength(s: string)
    ensures |TrimEnd(s)| <= |s| && (|TrimEnd(s)| == |s| ==> TrimEnd(s) == s)
  {
    if s != "" && IsSpace(s[|s| - 1]) { TrimEndLength(s[..|s| - 1]); }
  }

  lemma TrimLength(s: string)
    ensures |Trim(s)| <= |s| && (|Trim(s)| == |s| ==> Trim(s) == s)
  {
    TrimStartLength(s);
    TrimEndLength(TrimStart(s));
  }

  lemma {:induction false} StripLength(s: string)
    ensures |StripSlashes(s)| <= |s| && (|StripSlashes(s)| == |s| ==> StripSlashes(s) == s)
  {
    if s != "" && s[0] == '/' { StripLength(s[1..]); }
  }

  lemma StripFixed(g: string)
    requires StripSlashes(g) == g
    ensures StripSlashes("/" + g) == g
  {
    assert ("/" + g)[1..] == g;
  }

  /** A slash before a trimmed name leaves it trimmed. */
  lemma PrefixedTrim(g: string)
    requires g != "" && Trim(g) == g
    ensures Trim("/" + g) == "/" + g
  {
    TrimStartLength(g);
    TrimEndLength(TrimStart(g));
    assert TrimStart(g) == g && TrimEnd(g) == g;
    if IsSpace(g[|g| - 1]) { TrimEndLength(g[..|g| - 1]); }
    assert ("/" + g)[|g|] == g[|g| - 1];
  }

  /**
   * Subjects the two forms read differently: one for everyone that still names somebody, the empty role for a caller
   * who sends it, and a group name of the caller's in a spelling other than its own or its path.
   */
  predicate Odd(subject: Subject, c: Caller) {
    match subject.kind
    case ALL => subject.id.Some?
    case USER => false
    case ROLE => subject.id == Some("") && "" in c.roles
    case GROUP =>
      && subject.id.Some? && MatchesGroup(subject.id.value, NormalizeGroups(c.groups))
      && subject.id.value != Normal(subject.id.value) && subject.id.value != "/" + Normal(subject.id.value)
  }

  predicate NoOddEntry(acl: seq<AclEntry>, c: Caller) {
    forall i :: 0 <= i < |acl| ==> !Odd(acl[i].subject, c)
  }

  /** Entries as the ACL service stores them are never read differently. */
  lemma PlainIsNotOdd(acl: seq<AclEntry>, c: Caller)
    requires PlainAcl(acl)
    ensures NoOddEntry(acl, c)
  {
    forall i | 0 <= i < |acl| ensures !Odd(acl[i].subject, c) { assert PlainEntry(acl[i]); }
  }

  /** One subject addresses the caller in the list query exactly if it does in the read check, odd ones excepted. */
  lemma SubjectsAgreeIff(subject: Subject, c: Caller)
    requires PlainGroups(c.groups)
    ensures (subject in ListSubjects(c) <==> Addresses(subject, c)) <==> !Odd(subject, c)
  {
    if subject.kind == GROUP && subject.id.Some? {
      var id, groups := subject.id.value, NormalizeGroups(c.groups);
      if subject in ListSubjects(c) {
        var g :| g in groups && (id == g || id == "/" + g);
        GroupsAreCanonical(c.groups, g);
        CanonicalNormal(g);
      }
      if MatchesGroup(id, groups) {
        var g := Normal(id);
        assert Subject(GROUP, Some(g)) in ListSubjects(c) && Subject(GROUP, Some("/" + g)) in ListSubjects(c);
      }
    }
  }

  lemma MatchersAgree(s: Sheet, c: Caller, permission: Permission, effect: Effect)
    requires NoOddEntry(s.acl, c) && PlainGroups(c.groups)
    ensures ListMatches(s, c, permission, effect) <==> ReadMatches(s, c, permission, effect)
  {
    forall i | 0 <= i < |s.acl|
      ensures ListHits(s.acl[i], c, permission, effect) <==> ReadHits(s.acl[i], c, permission, effect) {
      assert !Odd(s.acl[i].subject, c);
      SubjectsAgreeIff(s.acl[i].subject, c);
    }
  }

  // ---- Where list and read differ ----

  /** What roles alone show, whoever owns the document and whatever its entries say. */
  predicate ByRole(s: Sheet, c: Caller) {
    || ("approver" in c.roles && s.status == PENDING)
    || (Released(s) && ("approver" in c.roles || "compliance_officer" in c.roles))
    || (Released(s) && s.classification == INTERNAL && "editor" in c.roles)
    || (Released(s) && s.classification == PUBLIC && HasAny(c, KNOWN_ROLES))
  }

  /** The nine clauses of the list's visibility filter come to three. */
  lemma VisibleInThreeWays(s: Sheet, c: Caller)
    requires !IsAdmin(c)
    ensures ListVisible(s, c) <==> s.ownerId == c.id || ListMatches(s, c, READ, ALLOW) || ByRole(s, c)
  {
    RolesByName(c);
  }

  /** What the read allows by role: a compliance officer is nothing else, an approver no editor. */
  predicate ReadByRole(s: Sheet, c: Caller) {
    if "compliance_officer" in c.roles then Released(s)
    else if "approver" in c.roles then s.status == PENDING || Released(s)
    else Released(s) && (s.classification == PUBLIC || (s.classification == INTERNAL && "editor" in c.roles))
  }

  lemma ReadInThreeWays(s: Sheet, c: Caller)
    ensures AssertCanReadMetadata(s, c) == Allowed <==>
      Reachable(s, c) && (!Ungranted(s, c) || ReadMatches(s, c, DOWNLOAD, ALLOW) || ReadByRole(s, c))
  {
  }

  lemma ListInThreeWays(s: Sheet, c: Caller)
    requires NoOddEntry(s.acl, c) && PlainGroups(c.groups)
    ensures Listed(s, c) <==> Reachable(s, c) && (!Ungranted(s, c) || ByRole(s, c))
  {
    MatchersAgree(s, c, READ, DENY);
    MatchersAgree(s, c, READ, ALLOW);
    if !IsAdmin(c) { VisibleInThreeWays(s, c); }
  }

  /** Neither admin, owner, nor allowed to read by an entry. */
  predicate Ungranted(s: Sheet, c: Caller) {
    !IsAdmin(c) && s.ownerId != c.id && !ReadMatches(s, c, READ, ALLOW)
  }

  /** The read also honours a download grant, which the list does not look at. */
  predicate OnlyByDownloadGrant(s: Sheet, c: Caller) {
    Ungranted(s, c) && ReadMatches(s, c, DOWNLOAD, ALLOW) && !ByRole(s, c)
  }

  /** The read lets anyone see released public documents, the list only known roles. */
  predicate PublicToStranger(s: Sheet, c: Caller) {
    Ungranted(s, c) && !HasAny(c, KNOWN_ROLES) && Released(s) && s.classification == PUBLIC
  }

  /** The list treats an approver who is a compliance officer as approver, the read as compliance officer. */
  predicate PendingToMixedRoles(s: Sheet, c: Caller) {
    && Ungranted(s, c) && !ReadMatches(s, c, DOWNLOAD, ALLOW)
    && {"compliance_officer", "approver"} <= c.roles && s.status == PENDING
  }

  predicate Reachable(s: Sheet, c: Caller) {
    s.orgId == c.orgId && s.status != DELETED && !ReadMatches(s, c, READ, DENY)
  }

  /** The two answers differ in exactly these three situations. */
  lemma ListVersusRead(s: Sheet, c: Caller)
    requires NoOddEntry(s.acl, c) && PlainGroups(c.groups)
    ensures Listed(s, c) && AssertCanReadMetadata(s, c) != Allowed <==> Reachable(s, c) && PendingToMixedRoles(s, c)
    ensures AssertCanReadMetadata(s, c) == Allowed && !Listed(s, c) <==>
      Reachable(s, c) && (OnlyByDownloadGrant(s, c) || PublicToStranger(s, c))
  {
    ReadInThreeWays(s, c);
    ListInThreeWays(s, c);
    RolesByName(c);
  }

  /** The first difference: listed, but not readable. */
  lemma MixedRolesDiffer(orgId: string, owner: string, id: string, level: Level)
    requires owner != id
    ensures var s := Sheet(orgId, owner, PENDING, level, []);
      var c := Caller(orgId, id, {"compliance_officer", "approver"}, []);
      Listed(s, c) && AssertCanReadMetadata(s, c).Denied?
  {
    var s := Sheet(orgId, owner, PENDING, level, []);
    var c := Caller(orgId, id, {"compliance_officer", "approver"}, []);
    ListVersusRead(s, c);
  }

  /** The second: readable by a download grant, but not listed. */
  lemma DownloadGrantDiffers(orgId: string, owner: string, id: string, level: Level)
    requires owner != id
    ensures var grant := AclEntry(Subject(USER, Some(id)), DOWNLOAD, ALLOW);
      var s, c := Sheet(orgId, owner, DRAFT, level, [grant]), Caller(orgId, id, {"viewer"}, []);
      AssertCanReadMetadata(s, c) == Allowed && !Listed(s, c)
  {
    var grant := AclEntry(Subject(USER, Some(id)), DOWNLOAD, ALLOW);
    var s, c := Sheet(orgId, owner, DRAFT, level, [grant]), Caller(orgId, id, {"viewer"}, []);
    assert ReadHits(s.acl[0], c, DOWNLOAD, ALLOW);
    ListVersusRead(s, c);
  }

  /** The third: readable without any known role, but not listed. */
  lemma StrangerDiffers(orgId: string, owner: string, id: string)
    requires owner != id
    ensures var s, c := Sheet(orgId, owner, PUBLISHED, PUBLIC, []), Caller(orgId, id, {}, []);
      AssertCanReadMetadata(s, c) == Allowed && !Listed(s, c)
  {
    var s, c := Sheet(orgId, owner, PUBLISHED, PUBLIC, []), Caller(orgId, id, {}, []);
    ListVersusRead(s, c);
  }

  /** And an entry for everyone that names somebody, which the ACL service never stores, is a fourth. */
  lemma OddEntryDiffers(orgId: string, owner: string, id: string, name: string, level: Level)
    requires owner != id
    ensures var grant := AclEntry(Subject(ALL, Some(name)), READ, ALLOW);
      var s, c := Sheet(orgId, owner, DRAFT, level, [grant]), Caller(orgId, id, {"viewer"}, []);
      AssertCanReadMetadata(s, c) == Allowed && !Listed(s, c) && Odd(grant.subject, c)
  {
    var grant := AclEntry(Subject(ALL, Some(name)), READ, ALLOW);
    var s, c := Sheet(orgId, owner, DRAFT, level, [grant]), Caller(orgId, id, {"viewer"}, []);
    assert ReadHits(s.acl[0], c, READ, ALLOW);
    RolesByName(c);
  }

  lemma RolesByName(c: Caller)
    ensures HasAny(c, {"approver", "admin"}) <==> "approver" in c.roles || "admin" in c.roles
    ensures HasAny(c, {"editor", "approver", "admin"}) <==>
      "editor" in c.roles || "approver" in c.roles || "admin" in c.roles
    ensures HasAny(c, KNOWN_ROLES) <==>
      || "viewer" in c.roles || "editor" in c.roles || "approver" in c.roles
      || "compliance_officer" in c.roles || "admin" in c.roles
  {
    assert "approver" in {"approver", "admin"} && "admin" in {"approver", "admin"};
    assert "editor" in {"editor", "approver", "admin"} && "approver" in {"editor", "approver", "admin"};
    assert "admin" in {"editor", "approver", "admin"};
    assert "viewer" in KNOWN_ROLES && "editor" in KNOWN_ROLES && "approver" in KNOWN_ROLES;
    assert "compliance_officer" in KNOWN_ROLES && "admin" in KNOWN_ROLES;
  }

  // ---- Who sees what ----

  /** Archiving a published document changes nobody's view of it. */
  lemma ArchivedAsPublished(s: Sheet, c: Caller)
    ensures Listed(s.(status := ARCHIVED), c) <==> Listed(s.(status := PUBLISHED), c)
    ensures AssertCanReadMetadata(s.(status := ARCHIVED), c) == AssertCanReadMetadata(s.(status := PUBLISHED), c)
  {
    var a, p := s.(status := ARCHIVED), s.(status := PUBLISHED);
    assert forall perm, effect :: ListMatches(a, c, perm, effect) == ListMatches(p, c, perm, effect);
    assert forall perm, effect :: ReadMatches(a, c, perm, effect) == ReadMatches(p, c, perm, effect);
    RolesByName(c);
  }

  /** Documents of other organizations, deleted ones and denied ones are shown to nobody, not even admins or owners. */
  lemma HiddenFromAll(s: Sheet, c: Caller)
    requires s.orgId != c.orgId || s.status == DELETED || ReadMatches(s, c, READ, DENY)
    requires NoOddEntry(s.acl, c) && PlainGroups(c.groups)
    ensures !Listed(s, c) && AssertCanReadMetadata(s, c) != Allowed
    ensures AssertCanReadMetadata(s, c) == Missing <==> s.orgId != c.orgId || s.status == DELETED
  {
    MatchersAgree(s, c, READ, DENY);
  }

  /** Any other document is shown in both forms to admins, its owner and whoever an entry allows to read it. */
  lemma ShownToGranted(s: Sheet, c: Caller)
    requires s.orgId == c.orgId && s.status != DELETED && !ReadMatches(s, c, READ, DENY)
    requires "admin" in c.roles || s.ownerId == c.id || ReadMatches(s, c, READ, ALLOW)
    requires NoOddEntry(s.acl, c) && PlainGroups(c.groups)
    ensures Listed(s, c) && AssertCanReadMetadata(s, c) == Allowed
  {
    MatchersAgree(s, c, READ, DENY);
    MatchersAgree(s, c, READ, ALLOW);
  }

  /** What the list shows to the others: by status, classification and role alone, and no draft to any of them. */
  lemma ListTable(s: Sheet, c: Caller)
    requires s.orgId == c.orgId && s.status != DELETED && !ReadMatches(s, c, READ, DENY)
    requires "admin" !in c.roles && s.ownerId != c.id && !ReadMatches(s, c, READ, ALLOW)
    requires NoOddEntry(s.acl, c) && PlainGroups(c.groups)
    ensures Listed(s, c) <==>
      match s.status
      case DRAFT => false
      case PENDING => "approver" in c.roles
      case DELETED => false
      case _ =>
        match s.classification
        case PUBLIC =>
          "viewer" in c.roles || "editor" in c.roles || "approver" in c.roles || "compliance_officer" in c.roles
        case INTERNAL => "editor" in c.roles || "approver" in c.roles || "compliance_officer" in c.roles
        case _ => "approver" in c.roles || "compliance_officer" in c.roles
  {
    ListInThreeWays(s, c);
    RolesByName(c);
  }

  /** And what the detail read shows to the others without a download grant. */
  lemma ReadTable(s: Sheet, c: Caller)
    requires s.orgId == c.orgId && s.status != DELETED && !ReadMatches(s, c, READ, DENY)
    requires "admin" !in c.roles && s.ownerId != c.id
    requires !ReadMatches(s, c, READ, ALLOW) && !ReadMatches(s, c, DOWNLOAD, ALLOW)
    ensures AssertCanReadMetadata(s, c) == Allowed <==>
      match s.status
      case DRAFT => false
      case PENDING => "approver" in c.roles && "compliance_officer" !in c.roles
      case DELETED => false
      case _ =>
        match s.classification
        case PUBLIC => true
        case INTERNAL => "editor" in c.roles || "approver" in c.roles || "compliance_officer" in c.roles
        case _ => "approver" in c.roles || "compliance_officer" in c.roles
  {
    ReadInThreeWays(s, c);
    RolesByName(c);
  }

  /** Whom an entry addresses, kind by kind; a group by its name or its path. */
  lemma AddressesByKind(c: Caller, id: string)
    requires PlainGroups(c.groups)
    ensures Addresses(Subject(ALL, None), c) && Subject(ALL, None) in ListSubjects(c)
    ensures Addresses(Subject(USER, Some(id)), c) <==> id == c.id
    ensures Subject(USER, Some(id)) in ListSubjects(c) <==> id == c.id
    ensures id != "" ==> (Addresses(Subject(ROLE, Some(id)), c) <==> id in c.roles)
    ensures Subject(ROLE, Some(id)) in ListSubjects(c) <==> id in c.roles
    ensures Canonical(id) && id in c.groups ==>
      && Addresses(Subject(GROUP, Some(id)), c) && Subject(GROUP, Some(id)) in ListSubjects(c)
      && Addresses(Subject(GROUP, Some("/" + id)), c) && Subject(GROUP, Some("/" + id)) in ListSubjects(c)
    ensures Canonical(id) && id !in NormalizeGroups(c.groups) ==>
      && !Addresses(Subject(GROUP, Some(id)), c) && Subject(GROUP, Some(id)) !in ListSubjects(c)
  {
    if Canonical(id) {
      CanonicalNormal(id);
      if id in c.groups { assert id in NormalizeGroups(c.groups); }
      if Subject(GROUP, Some(id)) in ListSubjects(c) { SubjectsAgreeIff(Subject(GROUP, Some(id)), c); }
    }
  }

  /** Whole lists: for a caller with a known role who does not mix the two, everything listed can be read. */
  function ListAll(docs: seq<Sheet>, c: Caller): seq<Sheet> {
    if docs == [] then [] else (if Listed(docs[0], c) then [docs[0]] else []) + ListAll(docs[1..], c)
  }

  function ReadableAmong(docs: seq<Sheet>, c: Caller): seq<Sheet> {
    if docs == [] then []
    else (if AssertCanReadMetadata(docs[0], c) == Allowed then [docs[0]] else []) + ReadableAmong(docs[1..], c)
  }

  predicate NoDownloadGrants(s: Sheet, c: Caller) {
    !ReadMatches(s, c, DOWNLOAD, ALLOW)
  }

  /** The list shows exactly the documents the detail read accepts. */
  lemma {:induction false} ListIsReadable(docs: seq<Sheet>, c: Caller)
    requires PlainGroups(c.groups)
    requires HasAny(c, KNOWN_ROLES) && ({"compliance_officer", "approver"} <= c.roles ==> IsAdmin(c))
    requires forall i :: 0 <= i < |docs| ==> NoOddEntry(docs[i].acl, c) && NoDownloadGrants(docs[i], c)
    ensures ListAll(docs, c) == ReadableAmong(docs, c)
  {
    if docs != [] {
      ListVersusRead(docs[0], c);
      ListIsReadable(docs[1..], c);
    }
  }

  /** With download grants, and for callers of any roles that do not mix the two, the list is still part of it. */
  lemma {:induction false} ListIsWithinReadable(docs: seq<Sheet>, c: Caller, s: Sheet)
    requires PlainGroups(c.groups)
    requires {"compliance_officer", "approver"} <= c.roles ==> IsAdmin(c)
    requires forall i :: 0 <= i < |docs| ==> NoOddEntry(docs[i].acl, c)
    requires s in ListAll(docs, c)
    ensures s in docs && AssertCanReadMetadata(s, c) == Allowed
  {
    if s == docs[0] && Listed(s, c) {
      ListVersusRead(docs[0], c);
    } else {
      ListIsWithinReadable(docs[1..], c, s);
    }
  }

  // ---- What the ACL service stores ----

  /** `normalizeSubjectId`; no result is refused for every kind but ALL. */
  function StoredId(kind: SubjectKind, given: string): Option<string> {
    match kind
    case ALL => None
    case GROUP => if Trim(given) == "" || Normal(given) == "" then None else Some(Normal(given))
    case _ => if Trim(given) == "" then None else Some(Trim(given))
  }

  /** A group id is what normalizing leaves of the one given, other ids are trimmed, and blank ones are refused. */
  lemma StoredIdIs(kind: SubjectKind, given: string)
    ensures kind == GROUP ==> match StoredId(kind, given)
      case Some(n) => n != "" && NormalizeGroups([given]) == {n}
      case None => NormalizeGroups([given]) <= {""}
    ensures kind == USER || kind == ROLE ==>
      StoredId(kind, given) == if Trim(given) != "" then Some(Trim(given)) else None
    ensures kind == ALL ==> StoredId(kind, given) == None
  {
    assert given in [given];
  }

  /** A stored entry is plain, but for a group name that still starts with white space after its slashes are gone. */
  lemma StoredEntryIsPlain(kind: SubjectKind, given: string, permission: Permission, effect: Effect)
    requires kind == GROUP ==> StoredId(kind, given).Some?
    ensures PlainEntry(AclEntry(Subject(kind, StoredId(kind, given)), permission, effect)) <==>
      (kind == GROUP ==> Trim(Normal(given)) == Normal(given) || Normal(Normal(given)) == "")
  {
    if kind == GROUP {
      var s := Normal(given);
      StripStarts(Trim(given));
      TrimLength(s);
      StripLength(Trim(s));
      if Trim(s) == s { StripIsFixed(s); }
    }
  }

  lemma {:induction false} StripStarts(s: string)
    ensures StripSlashes(s) != "" ==> StripSlashes(s)[0] != '/'
  {
    if s != "" && s[0] == '/' { StripStarts(s[1..]); }
  }

  lemma StripIsFixed(s: string)
    requires s != "" ==> s[0] != '/'
    ensures StripSlashes(s) == s
  {
  }
}
