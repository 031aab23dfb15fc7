/** Organization membership, one organization per user, and the cache in front of it. */
module OrgMembership {
  import opened Prelude

  datatype OrgRole = MEMBER | ADMIN

  datatype Membership = Membership(orgId: string, userId: string, role: OrgRole)

  datatype CacheEntry = CacheEntry(orgId: string, expiresAt: int)

  const CACHE_TTL_MS := 60_000

  /** Organizations with their owners, and the memberships from oldest to newest. */
  datatype Db = Db(owners: map<string, string>, members: seq<Membership>)

  // ---- Queries ----

  /** The organization of the oldest membership of a user: the lookup without the cache. */
  function Lookup(members: seq<Membership>, userId: string): Option<string> {
    if members == [] then None
    else if members[0].userId == userId then Some(members[0].orgId)
    else Lookup(members[1..], userId)
  }

  function RoleIn(members: seq<Membership>, orgId: string, userId: string): Option<OrgRole> {
    if members == [] then None
    else if members[0].orgId == orgId && members[0].userId == userId then Some(members[0].role)
    else RoleIn(members[1..], orgId, userId)
  }

  /** The memberships of a user in other organizations. */
  function Elsewhere(members: seq<Membership>, orgId: string, userId: string): seq<Membership> {
    if members == [] then []
    else
      (if members[0].userId == userId && members[0].orgId != orgId then [members[0]] else [])
      + Elsewhere(members[1..], orgId, userId)
  }

  function CountIn(members: seq<Membership>, orgId: string): nat {
    if members == [] then 0 else (if members[0].orgId == orgId then 1 else 0) + CountIn(members[1..], orgId)
  }

  function CountAdmins(members: seq<Membership>, orgId: string): nat {
    if members == [] then 0
    else (if members[0].orgId == orgId && members[0].role == ADMIN then 1 else 0) + CountAdmins(members[1..], orgId)
  }

  // ---- Updates ----

  function SetRole(members: seq<Membership>, orgId: string, userId: string, role: OrgRole): seq<Membership> {
    if members == [] then []
    else
      [if members[0].orgId == orgId && members[0].userId == userId then members[0].(role := role) else members[0]]
      + SetRole(members[1..], orgId, userId, role)
  }

  function Without(members: seq<Membership>, orgId: string, userId: string): seq<Membership> {
    if members == [] then []
    else
      (if members[0].orgId == orgId && members[0].userId == userId then [] else [members[0]])
      + Without(members[1..], orgId, userId)
  }

  /** Deleting an organization deletes its memberships. */
  function DropOrg(db: Db, orgId: string): Db {
    Db(db.owners - {orgId}, WithoutOrg(db.members, orgId))
  }

  function WithoutOrg(members: seq<Membership>, orgId: string): seq<Membership> {
    if members == [] then []
    else (if members[0].orgId == orgId then [] else [members[0]]) + WithoutOrg(members[1..], orgId)
  }

  // ---- Invariants ----

  predicate HasUser(members: seq<Membership>, userId: string) {
    members != [] && (members[0].userId == userId || HasUser(members[1..], userId))
  }

  /** Every user has at most one membership. */
  predicate OneOrgEach(members: seq<Membership>) {
    members == [] || (!HasUser(members[1..], members[0].userId) && OneOrgEach(members[1..]))
  }

  /** Every cached organization, expired or not, is the one the lookup returns. */
  ghost predicate CacheAgrees(members: seq<Membership>, cache: map<string, CacheEntry>) {
    forall u :: u in cache ==> Lookup(members, u) == Some(cache[u].orgId)
  }

  lemma {:induction false} LookupIffHasUser(members: seq<Membership>, u: string)
    ensures HasUser(members, u) <==> Lookup(members, u).Some?
  {
    if members != [] { LookupIffHasUser(members[1..], u); }
  }

  /** With one membership each, the lookup answers exactly the organization a user has a role in. */
  lemma {:induction false} LookupIsMembership(members: seq<Membership>, orgId: string, u: string)
    requires OneOrgEach(members)
    ensures Lookup(members, u) == Some(orgId) <==> RoleIn(members, orgId, u).Some?
  {
    if members != [] {
      LookupIsMembership(members[1..], orgId, u);
      LookupIffHasUser(members[1..], u);
    }
  }

  lemma {:induction false} ElsewhereIsAtMostOne(members: seq<Membership>, orgId: string, u: string)
    requires OneOrgEach(members)
    ensures match Lookup(members, u)
      case None => Elsewhere(members, orgId, u) == []
      case Some(o) =>
        if o == orgId then Elsewhere(members, orgId, u) == []
        else |Elsewhere(members, orgId, u)| == 1 && Elsewhere(members, orgId, u)[0].orgId == o
  {
    if members != [] {
      ElsewhereIsAtMostOne(members[1..], orgId, u);
      LookupIffHasUser(members[1..], u);
    }
  }

  lemma {:induction false} SetRoleKeeps(members: seq<Membership>, orgId: string, userId: string, role: OrgRole,
      u: string)
    ensures Lookup(SetRole(members, orgId, userId, role), u) == Lookup(members, u)
    ensures HasUser(SetRole(members, orgId, userId, role), u) <==> HasUser(members, u)
  {
    if members != [] { SetRoleKeeps(members[1..], orgId, userId, role, u); }
  }

  lemma {:induction false} SetRoleKeepsOne(members: seq<Membership>, orgId: string, userId: string, role: OrgRole)
    requires OneOrgEach(members)
    ensures OneOrgEach(SetRole(members, orgId, userId, role))
  {
    if members != [] {
      SetRoleKeepsOne(members[1..], orgId, userId, role);
      SetRoleKeeps(members[1..], orgId, userId, role, members[0].userId);
    }
  }

  lemma {:induction false} WithoutKeepsOthers(members: seq<Membership>, orgId: string, userId: string, u: string)
    ensures u != userId ==> Lookup(Without(members, orgId, userId), u) == Lookup(members, u)
    ensures HasUser(Without(members, orgId, userId), u) ==> HasUser(members, u)
  {
    if members != [] {
      WithoutKeepsOthers(members[1..], orgId, userId, u);
      var rest := Without(members[1..], orgId, userId);
      assert [] + rest == rest && ([members[0]] + rest)[1..] == rest;
    }
  }

  lemma {:induction false} WithoutKeepsOne(members: seq<Membership>, orgId: string, userId: string)
    requires OneOrgEach(members)
    ensures OneOrgEach(Without(members, orgId, userId))
  {
    if members != [] {
      WithoutKeepsOne(members[1..], orgId, userId);
      WithoutKeepsOthers(members[1..], orgId, userId, members[0].userId);
      var rest := Without(members[1..], orgId, userId);
      assert [] + rest == rest && ([members[0]] + rest)[1..] == rest;
    }
  }

  lemma {:induction false} WithoutOrgKeepsOthers(members: seq<Membership>, orgId: string, u: string)
    requires OneOrgEach(members)
    ensures Lookup(members, u) != Some(orgId) ==> Lookup(WithoutOrg(members, orgId), u) == Lookup(members, u)
    ensures Lookup(members, u) == Some(orgId) ==> Lookup(WithoutOrg(members, orgId), u) == None
    ensures HasUser(WithoutOrg(members, orgId), u) ==> HasUser(members, u)
  {
    if members != [] {
      WithoutOrgKeepsOthers(members[1..], orgId, u);
      LookupIffHasUser(members[1..], u);
      LookupIffHasUser(WithoutOrg(members[1..], orgId), u);
      var rest := WithoutOrg(members[1..], orgId);
      assert [] + rest == rest && ([members[0]] + rest)[1..] == rest;
    }
  }

  lemma {:induction false} WithoutOrgKeepsOne(members: seq<Membership>, orgId: string)
    requires OneOrgEach(members)
    ensures OneOrgEach(WithoutOrg(members, orgId))
  {
    if members != [] {
      WithoutOrgKeepsOne(members[1..], orgId);
      WithoutOrgKeepsOthers(members[1..], orgId, members[0].userId);
      var rest := WithoutOrg(members[1..], orgId);
      assert [] + rest == rest && ([members[0]] + rest)[1..] == rest;
    }
  }

  /** The only member of an organization is the only user the lookup sends there. */
  lemma {:induction false} SoloMember(members: seq<Membership>, orgId: string, u: string, v: string)
    requires OneOrgEach(members) && CountIn(members, orgId) <= 1
    requires Lookup(members, u) == Some(orgId) && Lookup(members, v) == Some(orgId)
    ensures u == v
  {
    if members[0].userId != u && members[0].userId != v {
      SoloMember(members[1..], orgId, u, v);
    } else if u != v {
      var w := if members[0].userId == u then v else u;
      assert Lookup(members[1..], w) == Some(orgId);
      CountPositive(members[1..], orgId, w);
    }
  }

  lemma {:induction false} CountPositive(members: seq<Membership>, orgId: string, u: string)
    requires Lookup(members, u) == Some(orgId)
    ensures CountIn(members, orgId) > 0
  {
    if members[0].userId != u { CountPositive(members[1..], orgId, u); }
  }

  lemma {:induction false} AppendLookup(members: seq<Membership>, m: Membership, u: string)
    ensures Lookup(members + [m], u)
         == if Lookup(members, u).Some? then Lookup(members, u) else if m.userId == u then Some(m.orgId) else None
    ensures HasUser(members + [m], u) <==> HasUser(members, u) || m.userId == u
  {
    if members == [] {
      assert members + [m] == [m];
    } else {
      assert (members + [m])[1..] == members[1..] + [m];
      AppendLookup(members[1..], m, u);
    }
  }

  lemma {:induction false} AppendKeepsOne(members: seq<Membership>, m: Membership)
    requires OneOrgEach(members) && !HasUser(members, m.userId)
    ensures OneOrgEach(members + [m])
  {
    if members == [] {
      assert members + [m] == [m];
    } else {
      assert (members + [m])[1..] == members[1..] + [m];
      AppendKeepsOne(members[1..], m);
      AppendLookup(members[1..], m, members[0].userId);
    }
  }

  // ---- What each request does ----

  /** The database and the cache of one service instance. */
  datatype World = World(db: Db, cache: map<string, CacheEntry>)

  ghost predicate Valid(w: World) {
    OneOrgEach(w.db.members) && CacheAgrees(w.db.members, w.cache)
  }

  datatype Request =
    | Require(actor: string, now: int)
    | Add(actor: string, now: int, target: string, role: OrgRole, createFails: bool)
    | ChangeRole(actor: string, now: int, target: string, role: OrgRole)
    | Remove(actor: string, now: int, target: string)

  predicate IsCached(w: World, actor: string, now: int) {
    actor in w.cache && w.cache[actor].expiresAt > now
  }

  /** The organization a user is told: an entry that has not expired, whether right or not, or the lookup. */
  function Answer(w: World, actor: string, now: int): Option<string> {
    if IsCached(w, actor, now) then Some(w.cache[actor].orgId) else Lookup(w.db.members, actor)
  }

  /** The cache after asking for the organization of a user. */
  function Asked(w: World, actor: string, now: int): World {
    if IsCached(w, actor, now) then w
    else
      match Lookup(w.db.members, actor)
      case None => w
      case Some(orgId) => w.(cache := w.cache[actor := CacheEntry(orgId, now + CACHE_TTL_MS)])
  }

  /** An organization left over from an earlier sign-up: its owner is its only member. */
  predicate IsOrphanOf(db: Db, orgId: string, userId: string) {
    CountIn(db.members, orgId) == 1 && orgId in db.owners && db.owners[orgId] == userId
  }

  datatype Cleared = Cleared(db: Db, ok: bool)

  /** Drop the orphan organizations of a user one after the other, up to the first that is none. */
  function Clear(db: Db, others: seq<Membership>, userId: string): Cleared
    decreases |others|
  {
    if others == [] then Cleared(db, true)
    else if IsOrphanOf(db, others[0].orgId, userId) then Clear(DropOrg(db, others[0].orgId), others[1..], userId)
    else Cleared(db, false)
  }

  /** How adding a user to the organization of the caller begins. */
  datatype AddCase = CallerHasNone | NoTarget | SameRole | NewRole(orgId: string) | Moves(orgId: string)

  function AddCaseOf(w: World, actor: string, now: int, target: string, role: OrgRole): AddCase {
    match Answer(w, actor, now)
    case None => CallerHasNone
    case Some(orgId) =>
      if Trim(target) == "" then NoTarget
      else match RoleIn(w.db.members, orgId, Trim(target))
        case Some(r) => if r == role then SameRole else NewRole(orgId)
        case None => Moves(orgId)
  }

  function ClearedFor(db: Db, orgId: string, user: string): Cleared {
    Clear(db, Elsewhere(db.members, orgId, user), user)
  }

  /** A membership can be created only in an organization that exists. */
  predicate CreateWorks(db: Db, orgId: string, createFails: bool) {
    !createFails && orgId in db.owners
  }

  function Added(w: World, turn: AddCase, user: string, role: OrgRole, createFails: bool): World {
    match turn
    case NewRole(orgId) =>
      World(w.db.(members := SetRole(w.db.members, orgId, user, role)), w.cache - {user})
    case Moves(orgId) =>
      var c := ClearedFor(w.db, orgId, user);
      if c.ok && CreateWorks(c.db, orgId, createFails)
      then World(c.db.(members := c.db.members + [Membership(orgId, user, role)]), w.cache - {user})
      else w.(db := c.db)
    case _ => w
  }

  /** Whether the caller may demote or remove a member: never the last admin. */
  predicate KeepsAnAdmin(members: seq<Membership>, orgId: string, role: OrgRole, leaves: bool) {
    role == ADMIN && leaves ==> CountAdmins(members, orgId) > 1
  }

  datatype Reply =
    | Ok(userId: string, role: OrgRole)
    | Removed(userId: string)
    | Forbidden
    | BadRequest
    | NotFound
    | Failed

  /** The refusal of a role change or removal, if any. */
  function MayChange(w: World, actor: string, now: int, target: string, leaves: bool): Option<Reply> {
    match Answer(w, actor, now)
    case None => Some(Forbidden)
    case Some(orgId) =>
      match RoleIn(w.db.members, orgId, target)
      case None => Some(NotFound)
      case Some(role) => if KeepsAnAdmin(w.db.members, orgId, role, leaves) then None else Some(BadRequest)
  }

  function Step(w: World, r: Request): World {
    var a := Asked(w, r.actor, r.now);
    match r
    case Require(_, _) => a
    case Add(actor, now, target, role, createFails) =>
      Added(a, AddCaseOf(w, actor, now, target, role), Trim(target), role, createFails)
    case ChangeRole(actor, now, target, role) =>
      if MayChange(w, actor, now, target, role == MEMBER).Some? then a
      else World(a.db.(members := SetRole(a.db.members, Answer(w, actor, now).value, target, role)), a.cache - {target})
    case Remove(actor, now, target) =>
      if MayChange(w, actor, now, target, true).Some? then a
      else World(a.db.(members := Without(a.db.members, Answer(w, actor, now).value, target)), a.cache - {target})
  }

  // ---- The service ----

  class OrgService {
    var owners: map<string, string>
    var members: seq<Membership>
    var cache: map<string, CacheEntry>

    function Value(): World
      reads this
    {
      World(Db(owners, members), cache)
    }

    constructor (owners: map<string, string>, members: seq<Membership>)
      ensures Value() == World(Db(owners, members), map[])
    {
      this.owners, this.members, this.cache := owners, members, map[];
    }

    method RequireOrgId(actor: string, now: int) returns (orgId: Option<string>)
      modifies this
      ensures orgId == Answer(old(Value()), actor, now)
      ensures Value() == Step(old(Value()), Require(actor, now))
      ensures Valid(old(Value())) ==> orgId == Lookup(members, actor)
    {
      if actor in cache && cache[actor].expiresAt > now {
        return Some(cache[actor].orgId);
      }
      orgId := Lookup(members, actor);
      if orgId.Some? {
        cache := cache[actor := CacheEntry(orgId.value, now + CACHE_TTL_MS)];
      }
    }

    method Invalidate(actor: string)
      modifies this
      ensures Value() == old(Value()).(cache := old(cache) - {actor})
    {
      cache := cache - {actor};
    }

    method AddMember(actor: string, now: int, target: string, role: OrgRole, createFails: bool) returns (o: Reply)
      modifies this
      ensures Value() == Step(old(Value()), Add(actor, now, target, role, createFails))
      ensures match AddCaseOf(old(Value()), actor, now, target, role)
        case CallerHasNone => o == Forbidden
        case NoTarget => o == BadRequest
        case Moves(orgId) =>
          var c := ClearedFor(old(Value()).db, orgId, Trim(target));
          o ==
            if !c.ok then BadRequest
            else if CreateWorks(c.db, orgId, createFails) then Ok(Trim(target), role)
            else Failed
        case _ => o == Ok(Trim(target), role)
    {
      var organization := RequireOrgId(actor, now);
      if organization.None? { return Forbidden; }
      var orgId, user := organization.value, Trim(target);
      if user == "" { return BadRequest; }
      var here := RoleIn(members, orgId, user);
      if here.Some? {
        if here.value != role {
          members := SetRole(members, orgId, user, role);
          Invalidate(user);
        }
        return Ok(user, role);
      }
      var cleared := ClearOthers(Elsewhere(members, orgId, user), user);
      if !cleared { return BadRequest; }
      if createFails || orgId !in owners { return Failed; }
      members := members + [Membership(orgId, user, role)];
      Invalidate(user);
      o := Ok(user, role);
    }

    /** Drop the orphan organizations of the user; the first other one stops it. */
    method ClearOthers(others: seq<Membership>, user: string) returns (ok: bool)
      modifies this`owners, this`members
      ensures Cleared(Db(owners, members), ok) == Clear(Db(old(owners), old(members)), others, user)
    {
      assert others[0..] == others;
      for i := 0 to |others|
        invariant Clear(Db(owners, members), others[i..], user) == Clear(Db(old(owners), old(members)), others, user)
      {
        assert others[i..][1..] == others[i + 1..];
        var other := others[i].orgId;
        if !(CountIn(members, other) == 1 && other in owners && owners[other] == user) {
          return false;
        }
        members := WithoutOrg(members, other);
        owners := owners - {other};
      }
      ok := true;
    }

    method UpdateMemberRole(actor: string, now: int, target: string, role: OrgRole) returns (o: Reply)
      modifies this
      ensures Value() == Step(old(Value()), ChangeRole(actor, now, target, role))
      ensures o == match MayChange(old(Value()), actor, now, target, role == MEMBER)
        case Some(refusal) => refusal
        case None => Ok(target, role)
    {
      var organization := RequireOrgId(actor, now);
      if organization.None? { return Forbidden; }
      var orgId := organization.value;
      var current := RoleIn(members, orgId, target);
      if current.None? { return NotFound; }
      if current.value == ADMIN && role == MEMBER {
        var last := IsLastAdmin(orgId);
        if last { return BadRequest; }
      }
      members := SetRole(members, orgId, target, role);
      Invalidate(target);
      o := Ok(target, role);
    }

    method RemoveMember(actor: string, now: int, target: string) returns (o: Reply)
      modifies this
      ensures Value() == Step(old(Value()), Remove(actor, now, target))
      ensures o == match MayChange(old(Value()), actor, now, target, true)
        case Some(refusal) => refusal
        case None => Removed(target)
    {
      var organization := RequireOrgId(actor, now);
      if organization.None? { return Forbidden; }
      var orgId := organization.value;
      var current := RoleIn(members, orgId, target);
      if current.None? { return NotFound; }
      if current.value == ADMIN {
        var last := IsLastAdmin(orgId);
        if last { return BadRequest; }
      }
      members := Without(members, orgId, target);
      Invalidate(target);
      o := Removed(target);
    }

    method IsLastAdmin(orgId: string) returns (last: bool)
      ensures last <==> CountAdmins(members, orgId) <= 1
    {
      last := CountAdmins(members, orgId) <= 1;
    }
  }

  // ---- One organization per user ----

  /** With one membership each there is at most one organization to drop. */
  lemma ClearOutcome(db: Db, orgId: string, user: string)
    requires OneOrgEach(db.members) && RoleIn(db.members, orgId, user).None?
    ensures ClearedFor(db, orgId, user) ==
      match Lookup(db.members, user)
      case None => Cleared(db, true)
      case Some(o) => if IsOrphanOf(db, o, user) then Cleared(DropOrg(db, o), true) else Cleared(db, false)
  {
    ElsewhereIsAtMostOne(db.members, orgId, user);
    LookupIsMembership(db.members, orgId, user);
    var others := Elsewhere(db.members, orgId, user);
    if others != [] {
      assert others[1..] == [];
      assert Clear(DropOrg(db, others[0].orgId), others[1..], user) == Cleared(DropOrg(db, others[0].orgId), true);
    }
  }

  /** Dropping the orphan organization of a user changes the lookup of that user alone. */
  lemma DropKeepsOthers(db: Db, orphan: string, user: string, u: string)
    requires OneOrgEach(db.members) && Lookup(db.members, user) == Some(orphan) && IsOrphanOf(db, orphan, user)
    ensures OneOrgEach(DropOrg(db, orphan).members)
    ensures Lookup(DropOrg(db, orphan).members, u) == if u == user then None else Lookup(db.members, u)
  {
    WithoutOrgKeepsOne(db.members, orphan);
    WithoutOrgKeepsOthers(db.members, orphan, u);
    if Lookup(db.members, u) == Some(orphan) { SoloMember(db.members, orphan, u, user); }
  }

  /** After a user was cleared of other organizations nobody else's lookup has changed, and the user may have none. */
  lemma ClearKeepsOthers(db: Db, orgId: string, user: string, u: string)
    requires OneOrgEach(db.members) && RoleIn(db.members, orgId, user).None?
    ensures var c := ClearedFor(db, orgId, user);
      && OneOrgEach(c.db.members)
      && (c.ok ==> Lookup(c.db.members, user).None?)
      && (u != user || !c.ok ==> Lookup(c.db.members, u) == Lookup(db.members, u))
  {
    ClearOutcome(db, orgId, user);
    if Lookup(db.members, user).Some? && IsOrphanOf(db, Lookup(db.members, user).value, user) {
      DropKeepsOthers(db, Lookup(db.members, user).value, user, u);
      DropKeepsOthers(db, Lookup(db.members, user).value, user, user);
    }
  }

  /** No request, whatever the cache says, gives a user a second organization. */
  lemma StepKeepsOneOrg(w: World, r: Request)
    requires OneOrgEach(w.db.members)
    ensures OneOrgEach(Step(w, r).db.members)
  {
    var ms := w.db.members;
    match r
    case Require(_, _) =>
    case Add(actor, now, target, role, _) =>
      match AddCaseOf(w, actor, now, target, role) {
        case NewRole(orgId) => SetRoleKeepsOne(ms, orgId, Trim(target), role);
        case Moves(orgId) =>
          ClearKeepsOthers(w.db, orgId, Trim(target), Trim(target));
          var left := ClearedFor(w.db, orgId, Trim(target)).db.members;
          LookupIffHasUser(left, Trim(target));
          if Lookup(left, Trim(target)).None? { AppendKeepsOne(left, Membership(orgId, Trim(target), role)); }
        case _ =>
      }
    case ChangeRole(actor, now, target, role) =>
      if MayChange(w, actor, now, target, role == MEMBER).None? {
        SetRoleKeepsOne(ms, Answer(w, actor, now).value, target, role);
      }
    case Remove(actor, now, target) =>
      if MayChange(w, actor, now, target, true).None? { WithoutKeepsOne(ms, Answer(w, actor, now).value, target); }
  }

  function Run(w: World, requests: seq<Request>): World {
    if requests == [] then w else Step(Run(w, requests[..|requests| - 1]), requests[|requests| - 1])
  }

  /** Over every run, failures and stale caches included, no user belongs to a second organization. */
  lemma {:induction false} RunKeepsOneOrg(w: World, requests: seq<Request>)
    requires OneOrgEach(w.db.members)
    ensures OneOrgEach(Run(w, requests).db.members)
  {
    if requests != [] {
      RunKeepsOneOrg(w, requests[..|requests| - 1]);
      StepKeepsOneOrg(Run(w, requests[..|requests| - 1]), requests[|requests| - 1]);
    }
  }

  // ---- The cache ----

  /** A cached organization that the lookup would not return. */
  predicate Wrong(w: World, u: string) {
    u in w.cache && Lookup(w.db.members, u) != Some(w.cache[u].orgId)
  }

  /** The one way to leave a wrong entry behind: a user's old organization is dropped and the creation then fails. */
  predicate LeavesStale(w: World, r: Request) {
    && r.Add? && AddCaseOf(w, r.actor, r.now, r.target, r.role).Moves?
    && var orgId, user := Answer(w, r.actor, r.now).value, Trim(r.target);
    && Lookup(w.db.members, user).Some? && IsOrphanOf(w.db, Lookup(w.db.members, user).value, user)
    && !CreateWorks(w.db, orgId, r.createFails)
    && user in Asked(w, r.actor, r.now).cache
  }

  /** The entry was there and wrong before the request. */
  predicate CarriedOver(w: World, t: World, u: string) {
    Wrong(w, u) && u in t.cache && t.cache[u] == w.cache[u]
  }

  lemma AskedWrong(w: World, actor: string, now: int, u: string)
    requires Wrong(Asked(w, actor, now), u)
    ensures CarriedOver(w, Asked(w, actor, now), u)
  {
  }

  /** An update that changes the lookup of one user alone, whose entry goes, makes no entry wrong. */
  lemma UpdateWrong(a: World, db: Db, user: string, u: string)
    requires u != user ==> Lookup(db.members, u) == Lookup(a.db.members, u)
    requires Wrong(World(db, a.cache - {user}), u)
    ensures CarriedOver(a, World(db, a.cache - {user}), u)
  {
  }

  /** The only wrong entries after a request are those that were wrong before and the one such a failure leaves. */
  lemma StepWrong(w: World, r: Request, u: string)
    requires OneOrgEach(w.db.members)
    requires Wrong(Step(w, r), u)
    ensures u in w.cache || LeavesStale(w, r)
    ensures CarriedOver(w, Step(w, r), u)
      || (LeavesStale(w, r) && u == Trim(r.target) && Step(w, r).cache == Asked(w, r.actor, r.now).cache)
  {
    match r
    case Require(actor, now) => AskedWrong(w, actor, now, u);
    case Add(_, _, _, _, _) => AddWrong(w, r, u);
    case ChangeRole(_, _, _, _) => ChangeWrong(w, r, u);
    case Remove(_, _, _) => RemoveWrong(w, r, u);
  }

  lemma ChangeWrong(w: World, r: Request, u: string)
    requires r.ChangeRole? && Wrong(Step(w, r), u)
    ensures CarriedOver(w, Step(w, r), u)
  {
    var a := Asked(w, r.actor, r.now);
    if MayChange(w, r.actor, r.now, r.target, r.role == MEMBER).None? {
      var orgId := Answer(w, r.actor, r.now).value;
      SetRoleKeeps(a.db.members, orgId, r.target, r.role, u);
      UpdateWrong(a, a.db.(members := SetRole(a.db.members, orgId, r.target, r.role)), r.target, u);
    }
    AskedWrong(w, r.actor, r.now, u);
  }

  lemma RemoveWrong(w: World, r: Request, u: string)
    requires r.Remove? && Wrong(Step(w, r), u)
    ensures CarriedOver(w, Step(w, r), u)
  {
    var a := Asked(w, r.actor, r.now);
    if MayChange(w, r.actor, r.now, r.target, true).None? {
      var orgId := Answer(w, r.actor, r.now).value;
      WithoutKeepsOthers(a.db.members, orgId, r.target, u);
      UpdateWrong(a, a.db.(members := Without(a.db.members, orgId, r.target)), r.target, u);
    }
    AskedWrong(w, r.actor, r.now, u);
  }

  lemma AddWrong(w: World, r: Request, u: string)
    requires OneOrgEach(w.db.members)
    requires r.Add? && Wrong(Step(w, r), u)
    ensures CarriedOver(w, Step(w, r), u)
      || (LeavesStale(w, r) && u == Trim(r.target) && Step(w, r).cache == Asked(w, r.actor, r.now).cache)
  {
    var a, user := Asked(w, r.actor, r.now), Trim(r.target);
    match AddCaseOf(w, r.actor, r.now, r.target, r.role)
    case NewRole(orgId) =>
      SetRoleKeeps(a.db.members, orgId, user, r.role, u);
      UpdateWrong(a, a.db.(members := SetRole(a.db.members, orgId, user, r.role)), user, u);
      AskedWrong(w, r.actor, r.now, u);
    case Moves(orgId) => MoveWrong(w, r, orgId, user, u);
    case _ => AskedWrong(w, r.actor, r.now, u);
  }

  lemma MoveWrong(w: World, r: Request, orgId: string, user: string, u: string)
    requires OneOrgEach(w.db.members)
    requires r.Add? && AddCaseOf(w, r.actor, r.now, r.target, r.role) == Moves(orgId) && user == Trim(r.target)
    requires Wrong(Step(w, r), u)
    ensures CarriedOver(w, Step(w, r), u)
      || (LeavesStale(w, r) && u == user && Step(w, r).cache == Asked(w, r.actor, r.now).cache)
  {
    var a, c := Asked(w, r.actor, r.now), ClearedFor(w.db, orgId, user);
    ClearOutcome(w.db, orgId, user);
    ClearKeepsOthers(w.db, orgId, user, u);
    LookupIsMembership(w.db.members, orgId, user);
    if c.ok && CreateWorks(c.db, orgId, r.createFails) {
      var m := Membership(orgId, user, r.role);
      AppendLookup(c.db.members, m, u);
      UpdateWrong(a, c.db.(members := c.db.members + [m]), user, u);
      AskedWrong(w, r.actor, r.now, u);
    } else if Lookup(c.db.members, u) == Lookup(w.db.members, u) {
      AskedWrong(w, r.actor, r.now, u);
    }
  }

  /**
   * From a right cache, a request keeps it right exactly if it is not the one failure that skips the invalidation.
   */
  lemma StepKeeps(w: World, r: Request)
    requires Valid(w)
    ensures Valid(Step(w, r)) <==> !LeavesStale(w, r)
  {
    StepKeepsOneOrg(w, r);
    if !LeavesStale(w, r) {
      forall u | u in Step(w, r).cache ensures !Wrong(Step(w, r), u) {
        if Wrong(Step(w, r), u) { StepWrong(w, r, u); }
      }
    } else {
      var orgId, user := Answer(w, r.actor, r.now).value, Trim(r.target);
      ClearOutcome(w.db, orgId, user);
      ClearKeepsOthers(w.db, orgId, user, user);
      LookupIsMembership(w.db.members, orgId, user);
      assert Wrong(Step(w, r), user);
    }
  }

  /** No request of a run is that failure. */
  predicate NoneLeavesStale(w: World, requests: seq<Request>) {
    requests == []
    || (NoneLeavesStale(w, requests[..|requests| - 1])
        && !LeavesStale(Run(w, requests[..|requests| - 1]), requests[|requests| - 1]))
  }

  /** Over every run without that failure every cache entry, expired or not, is what the lookup returns. */
  lemma {:induction false} RunIsValid(w: World, requests: seq<Request>)
    requires Valid(w) && NoneLeavesStale(w, requests)
    ensures Valid(Run(w, requests))
  {
    if requests != [] {
      RunIsValid(w, requests[..|requests| - 1]);
      StepKeeps(Run(w, requests[..|requests| - 1]), requests[|requests| - 1]);
    }
  }

  /** The clock does not go back. */
  predicate InTime(requests: seq<Request>) {
    forall i, j :: 0 <= i < j < |requests| ==> NotAfter(requests[i], requests[j])
  }

  predicate NotAfter(a: Request, b: Request) {
    a.now <= b.now
  }

  /** The k-th request of a run is the failure that made the entry of u wrong, within one lifetime of its expiry. */
  predicate Caused(w: World, requests: seq<Request>, k: nat, u: string, expiresAt: int) {
    && k < |requests| && LeavesStale(Run(w, requests[..k]), requests[k]) && Trim(requests[k].target) == u
    && expiresAt <= requests[k].now + CACHE_TTL_MS
  }

  lemma {:induction false} EntriesExpire(db: Db, requests: seq<Request>, u: string)
    requires InTime(requests) && u in Run(World(db, map[]), requests).cache
    ensures requests != []
    ensures Run(World(db, map[]), requests).cache[u].expiresAt <= requests[|requests| - 1].now + CACHE_TTL_MS
  {
    var n := |requests| - 1;
    var front, r := requests[..n], requests[n];
    var w := Run(World(db, map[]), front);
    assert InTime(front) by {
      forall i, j | 0 <= i < j < n ensures NotAfter(front[i], front[j]) { assert NotAfter(requests[i], requests[j]); }
    }
    if u in w.cache {
      EntriesExpire(db, front, u);
      assert NotAfter(requests[n - 1], requests[n]);
    }
  }

  /**
   * What a failure leaves behind does not last: in every run, whatever fails, a wrong entry stems from such a failure
   * and expires within the lifetime of an entry after it.
   */
  lemma {:induction false} WrongEntriesExpire(db: Db, requests: seq<Request>, u: string)
    requires OneOrgEach(db.members) && InTime(requests)
    requires Wrong(Run(World(db, map[]), requests), u)
    ensures exists k: nat ::
      Caused(World(db, map[]), requests, k, u, Run(World(db, map[]), requests).cache[u].expiresAt)
  {
    var start, n := World(db, map[]), |requests| - 1;
    var front, r := requests[..n], requests[n];
    var w := Run(start, front);
    assert InTime(front) by {
      forall i, j | 0 <= i < j < n ensures NotAfter(front[i], front[j]) { assert NotAfter(requests[i], requests[j]); }
    }
    RunKeepsOneOrg(start, front);
    StepWrong(w, r, u);
    EntriesExpire(db, requests, u);
    if !CarriedOver(w, Run(start, requests), u) {
      assert Caused(start, requests, n, u, Run(start, requests).cache[u].expiresAt);
    } else {
      WrongEntriesExpire(db, front, u);
      var k: nat :| Caused(start, front, k, u, w.cache[u].expiresAt);
      assert front[..k] == requests[..k];
      assert Caused(start, requests, k, u, Run(start, requests).cache[u].expiresAt);
    }
  }

  /** So a user is told a wrong organization only within a minute of such a failure. */
  lemma WrongAnswersAreShort(db: Db, requests: seq<Request>, u: string, now: int)
    requires OneOrgEach(db.members) && InTime(requests)
    requires Answer(Run(World(db, map[]), requests), u, now) != Lookup(Run(World(db, map[]), requests).db.members, u)
    ensures exists k: nat :: Caused(World(db, map[]), requests, k, u, now)
  {
    var w := Run(World(db, map[]), requests);
    WrongEntriesExpire(db, requests, u);
    var k: nat :| Caused(World(db, map[]), requests, k, u, w.cache[u].expiresAt);
    assert Caused(World(db, map[]), requests, k, u, now);
  }

  /** The failure happens: a user with an organization of their own is cached, moved, and the creation fails. */
  lemma StaleIsReachable() returns (db: Db, requests: seq<Request>)
    ensures OneOrgEach(db.members) && InTime(requests)
    ensures var w := Run(World(db, map[]), requests);
      && Lookup(w.db.members, "bo") == None
      && Answer(w, "bo", 2) == Some("B")
  {
    var al, bo := Membership("A", "al", ADMIN), Membership("B", "bo", ADMIN);
    db := Db(map["A" := "al", "B" := "bo"], [al] + [bo]);
    var first, second := Require("bo", 0), Add("al", 1, "bo", MEMBER, true);
    requests := [first, second];
    TwoSolos(al, bo);
    var start, w := World(db, map[]), World(db, map["bo" := CacheEntry("B", CACHE_TTL_MS)]);
    assert requests[..1] == [first] && [first][..0] == [];
    assert Step(start, first) == w;
    assert Run(start, [first]) == w;
    assert Run(start, requests) == Step(w, second);
    MovedAway(w, second, al, bo);
  }

  lemma TwoSolos(a: Membership, b: Membership)
    requires a.userId != b.userId && a.orgId != b.orgId
    ensures var ms := [a] + [b];
      && OneOrgEach(ms) && Lookup(ms, a.userId) == Some(a.orgId) && Lookup(ms, b.userId) == Some(b.orgId)
      && RoleIn(ms, a.orgId, b.userId) == None && CountIn(ms, b.orgId) == 1
  {
    assert ([a] + [b])[1..] == [b];
    assert Lookup([b], b.userId) == Some(b.orgId) && !HasUser([b], a.userId) && OneOrgEach([b]);
    assert RoleIn([b], a.orgId, b.userId) == None && CountIn([b], b.orgId) == 1;
  }

  lemma MovedAway(w: World, r: Request, al: Membership, bo: Membership)
    requires al == Membership("A", "al", ADMIN) && bo == Membership("B", "bo", ADMIN)
    requires w.db == Db(map["A" := "al", "B" := "bo"], [al] + [bo])
    requires r == Add("al", 1, "bo", MEMBER, true) && "al" !in w.cache
    ensures Step(w, r).cache == Asked(w, "al", 1).cache && Lookup(Step(w, r).db.members, "bo") == None
  {
    TwoSolos(al, bo);
    TrimmedBo();
    assert AddCaseOf(w, "al", 1, "bo", MEMBER) == Moves("A");
    ClearOutcome(w.db, "A", "bo");
    ClearKeepsOthers(w.db, "A", "bo", "bo");
  }

  lemma TrimmedBo()
    ensures Trim("bo") == "bo"
  {
  }

  // ---- What requests achieve ----

  lemma {:induction false} AppendRole(members: seq<Membership>, m: Membership)
    requires !HasUser(members, m.userId)
    ensures RoleIn(members + [m], m.orgId, m.userId) == Some(m.role)
  {
    if members == [] {
      assert members + [m] == [m];
    } else {
      assert (members + [m])[1..] == members[1..] + [m];
      AppendRole(members[1..], m);
    }
  }

  lemma {:induction false} SetRoleTakes(members: seq<Membership>, orgId: string, user: string, role: OrgRole)
    requires RoleIn(members, orgId, user).Some?
    ensures RoleIn(SetRole(members, orgId, user, role), orgId, user) == Some(role)
  {
    if !(members[0].orgId == orgId && members[0].userId == user) { SetRoleTakes(members[1..], orgId, user, role); }
  }

  /** Whether a user who is not yet in the organization can be moved there. */
  predicate CanMove(db: Db, orgId: string, user: string, createFails: bool) {
    && CreateWorks(db, orgId, createFails)
    && (Lookup(db.members, user).None? || IsOrphanOf(db, Lookup(db.members, user).value, user))
  }

  /** Adding puts the user into the caller's organization with the role asked for, exactly unless refused or failed. */
  lemma AddTakesEffectIff(w: World, r: Request)
    requires OneOrgEach(w.db.members) && r.Add?
    requires Answer(w, r.actor, r.now).Some? && Trim(r.target) != ""
    ensures var orgId, user := Answer(w, r.actor, r.now).value, Trim(r.target);
      RoleIn(Step(w, r).db.members, orgId, user) == Some(r.role)
      <==> RoleIn(w.db.members, orgId, user).Some? || CanMove(w.db, orgId, user, r.createFails)
  {
    var orgId, user := Answer(w, r.actor, r.now).value, Trim(r.target);
    match AddCaseOf(w, r.actor, r.now, r.target, r.role)
    case NewRole(_) => SetRoleTakes(w.db.members, orgId, user, r.role);
    case Moves(_) =>
      var c := ClearedFor(w.db, orgId, user);
      ClearOutcome(w.db, orgId, user);
      ClearKeepsOthers(w.db, orgId, user, user);
      LookupIsMembership(w.db.members, orgId, user);
      LookupIsMembership(c.db.members, orgId, user);
      LookupIffHasUser(c.db.members, user);
      if c.ok { AppendRole(c.db.members, Membership(orgId, user, r.role)); }
    case _ =>
  }

  /** After a removal that is not refused the user, who was in the caller's organization, has none. */
  lemma RemovalTakesEffect(w: World, r: Request)
    requires OneOrgEach(w.db.members) && r.Remove? && MayChange(w, r.actor, r.now, r.target, true).None?
    ensures Lookup(w.db.members, r.target) == Answer(w, r.actor, r.now)
    ensures Lookup(Step(w, r).db.members, r.target).None?
  {
    var orgId := Answer(w, r.actor, r.now).value;
    LookupIsMembership(w.db.members, orgId, r.target);
    RemovedIsGone(w.db.members, orgId, r.target);
  }

  lemma {:induction false} RemovedIsGone(members: seq<Membership>, orgId: string, user: string)
    requires OneOrgEach(members) && RoleIn(members, orgId, user).Some?
    ensures Lookup(Without(members, orgId, user), user).None?
  {
    var rest := members[1..];
    if members[0].orgId == orgId && members[0].userId == user {
      NoMemberNoChange(rest, orgId, user, MEMBER);
      LookupIffHasUser(rest, user);
      assert [] + rest == rest;
    } else {
      RemovedIsGone(rest, orgId, user);
      LookupIsMembership(rest, orgId, user);
      LookupIffHasUser(rest, user);
      var gone := Without(rest, orgId, user);
      assert ([members[0]] + gone)[1..] == gone;
    }
  }

  lemma {:induction false} SetRoleOthers(members: seq<Membership>, orgId: string, user: string, role: OrgRole,
                                         o: string, u: string)
    requires u != user
    ensures RoleIn(SetRole(members, orgId, user, role), o, u) == RoleIn(members, o, u)
  {
    if members != [] { SetRoleOthers(members[1..], orgId, user, role, o, u); }
  }

  lemma {:induction false} WithoutOthers(members: seq<Membership>, orgId: string, user: string, o: string, u: string)
    requires u != user
    ensures RoleIn(Without(members, orgId, user), o, u) == RoleIn(members, o, u)
  {
    if members != [] {
      WithoutOthers(members[1..], orgId, user, o, u);
      var rest := Without(members[1..], orgId, user);
      assert [] + rest == rest && ([members[0]] + rest)[1..] == rest;
    }
  }

  lemma {:induction false} WithoutOrgOthers(members: seq<Membership>, gone: string, o: string, u: string)
    requires o != gone
    ensures RoleIn(WithoutOrg(members, gone), o, u) == RoleIn(members, o, u)
  {
    if members != [] {
      WithoutOrgOthers(members[1..], gone, o, u);
      var rest := WithoutOrg(members[1..], gone);
      assert [] + rest == rest && ([members[0]] + rest)[1..] == rest;
    }
  }

  lemma {:induction false} WithoutOrgTakes(members: seq<Membership>, gone: string, u: string)
    ensures RoleIn(WithoutOrg(members, gone), gone, u) == None
  {
    if members != [] {
      WithoutOrgTakes(members[1..], gone, u);
      var rest := WithoutOrg(members[1..], gone);
      assert [] + rest == rest && ([members[0]] + rest)[1..] == rest;
    }
  }

  lemma {:induction false} AppendOthers(members: seq<Membership>, m: Membership, o: string, u: string)
    requires u != m.userId
    ensures RoleIn(members + [m], o, u) == RoleIn(members, o, u)
  {
    if members == [] {
      assert members + [m] == [m];
    } else {
      assert (members + [m])[1..] == members[1..] + [m];
      AppendOthers(members[1..], m, o, u);
    }
  }

  lemma ClearOthersKeep(db: Db, orgId: string, user: string, o: string, u: string)
    requires OneOrgEach(db.members) && RoleIn(db.members, orgId, user).None? && u != user
    ensures RoleIn(ClearedFor(db, orgId, user).db.members, o, u) == RoleIn(db.members, o, u)
  {
    ClearOutcome(db, orgId, user);
    if Lookup(db.members, user).Some? && IsOrphanOf(db, Lookup(db.members, user).value, user) {
      var orphan := Lookup(db.members, user).value;
      if o != orphan {
        WithoutOrgOthers(db.members, orphan, o, u);
      } else {
        WithoutOrgTakes(db.members, orphan, u);
        LookupIsMembership(db.members, orphan, u);
        if Lookup(db.members, u) == Some(orphan) { SoloMember(db.members, orphan, u, user); }
      }
    }
  }

  /** The user a request is about. */
  function Subject(r: Request): string {
    match r
    case Require(actor, _) => actor
    case Add(_, _, target, _, _) => Trim(target)
    case ChangeRole(_, _, target, _) => target
    case Remove(_, _, target) => target
  }

  /** No request changes anybody else's role in any organization. */
  lemma OthersKeepRoles(w: World, r: Request, o: string, u: string)
    requires OneOrgEach(w.db.members) && u != Subject(r)
    ensures RoleIn(Step(w, r).db.members, o, u) == RoleIn(w.db.members, o, u)
  {
    match r
    case Require(_, _) =>
    case Add(actor, now, target, role, createFails) =>
      match AddCaseOf(w, actor, now, target, role) {
        case NewRole(orgId) => SetRoleOthers(w.db.members, orgId, Trim(target), role, o, u);
        case Moves(orgId) =>
          ClearOthersKeep(w.db, orgId, Trim(target), o, u);
          AppendOthers(ClearedFor(w.db, orgId, Trim(target)).db.members, Membership(orgId, Trim(target), role), o, u);
        case _ =>
      }
    case ChangeRole(actor, now, target, role) =>
      if Answer(w, actor, now).Some? { SetRoleOthers(w.db.members, Answer(w, actor, now).value, target, role, o, u); }
    case Remove(actor, now, target) =>
      if Answer(w, actor, now).Some? { WithoutOthers(w.db.members, Answer(w, actor, now).value, target, o, u); }
  }

  /** A role change that is not refused gives the member the role asked for, in the caller's organization. */
  lemma RoleChangeTakesEffect(w: World, r: Request)
    requires r.ChangeRole? && MayChange(w, r.actor, r.now, r.target, r.role == MEMBER).None?
    ensures Answer(w, r.actor, r.now).Some?
    ensures RoleIn(Step(w, r).db.members, Answer(w, r.actor, r.now).value, r.target) == Some(r.role)
  {
    SetRoleTakes(w.db.members, Answer(w, r.actor, r.now).value, r.target, r.role);
  }

  /** Somebody else is an admin of the organization. */
  ghost predicate OtherAdmin(members: seq<Membership>, orgId: string, user: string) {
    exists u :: u != user && RoleIn(members, orgId, u) == Some(ADMIN)
  }

  lemma {:induction false} AdminCounts(members: seq<Membership>, orgId: string)
    ensures CountAdmins(members, orgId) == 0 ==> forall u :: RoleIn(members, orgId, u) != Some(ADMIN)
  {
    if members != [] { AdminCounts(members[1..], orgId); }
  }

  lemma {:induction false} SomeAdmin(members: seq<Membership>, orgId: string) returns (u: string)
    requires OneOrgEach(members) && CountAdmins(members, orgId) > 0
    ensures RoleIn(members, orgId, u) == Some(ADMIN)
  {
    if members[0].orgId == orgId && members[0].role == ADMIN {
      u := members[0].userId;
    } else {
      u := SomeAdmin(members[1..], orgId);
      LookupIsMembership(members[1..], orgId, u);
      LookupIffHasUser(members[1..], u);
    }
  }

  /** Counting more than one admin is the same as there being another one. */
  lemma OtherAdminIffCount(members: seq<Membership>, orgId: string, user: string)
    requires OneOrgEach(members) && RoleIn(members, orgId, user) == Some(ADMIN)
    ensures OtherAdmin(members, orgId, user) <==> CountAdmins(members, orgId) > 1
  {
    var left := Without(members, orgId, user);
    DemotionCounts(members, orgId, user, orgId);
    WithoutKeepsOne(members, orgId, user);
    AdminCounts(left, orgId);
    if CountAdmins(members, orgId) > 1 {
      var u := SomeAdmin(left, orgId);
      RemovedIsGone(members, orgId, user);
      LookupIsMembership(left, orgId, user);
      assert u != user;
      WithoutOthers(members, orgId, user, orgId, u);
    } else if OtherAdmin(members, orgId, user) {
      var u :| u != user && RoleIn(members, orgId, u) == Some(ADMIN);
      WithoutOthers(members, orgId, user, orgId, u);
    }
  }

  /** A role change or removal is accepted exactly for members; of an admin who leaves the role, only with another. */
  lemma ChangeAcceptedIff(w: World, actor: string, now: int, target: string, leaves: bool)
    requires OneOrgEach(w.db.members)
    ensures MayChange(w, actor, now, target, leaves) ==
      match Answer(w, actor, now)
      case None => Some(Forbidden)
      case Some(orgId) =>
        if RoleIn(w.db.members, orgId, target).None? then Some(NotFound)
        else if leaves && RoleIn(w.db.members, orgId, target) == Some(ADMIN)
                && !OtherAdmin(w.db.members, orgId, target) then Some(BadRequest)
        else None
  {
    if Answer(w, actor, now).Some? && RoleIn(w.db.members, Answer(w, actor, now).value, target) == Some(ADMIN) {
      OtherAdminIffCount(w.db.members, Answer(w, actor, now).value, target);
    }
  }

  /** An answer just looked up is served from the cache for 60 seconds, and looked up again after that. */
  lemma CachedForAMinute(w: World, actor: string, now: int, later: int)
    requires !IsCached(w, actor, now) && Lookup(w.db.members, actor).Some?
    ensures IsCached(Step(w, Require(actor, now)), actor, later) <==> later < now + 60_000
    ensures Answer(Step(w, Require(actor, now)), actor, later) == Lookup(w.db.members, actor)
  {
  }

  // ---- Admins ----

  lemma {:induction false} DemotionCounts(members: seq<Membership>, orgId: string, user: string, other: string)
    requires OneOrgEach(members) && RoleIn(members, orgId, user) == Some(ADMIN)
    ensures var left := if other == orgId then 1 else 0;
      && CountAdmins(SetRole(members, orgId, user, MEMBER), other) == CountAdmins(members, other) - left
      && CountAdmins(Without(members, orgId, user), other) == CountAdmins(members, other) - left
  {
    var rest := members[1..];
    if members[0].orgId == orgId && members[0].userId == user {
      NoMemberNoChange(rest, orgId, user, MEMBER);
      assert [] + rest == rest;
    } else {
      DemotionCounts(rest, orgId, user, other);
      var gone := Without(rest, orgId, user);
      assert ([members[0]] + gone)[1..] == gone;
    }
  }

  lemma {:induction false} NoMemberNoChange(members: seq<Membership>, orgId: string, user: string, role: OrgRole)
    requires !HasUser(members, user)
    ensures SetRole(members, orgId, user, role) == members && Without(members, orgId, user) == members
  {
    if members != [] {
      NoMemberNoChange(members[1..], orgId, user, role);
      assert members == [members[0]] + members[1..];
    }
  }

  lemma {:induction false} OtherRolesKeepAdmins(members: seq<Membership>, orgId: string, user: string,
      role: OrgRole, other: string)
    requires OneOrgEach(members) && RoleIn(members, orgId, user) == Some(MEMBER)
    ensures CountAdmins(SetRole(members, orgId, user, role), other) >= CountAdmins(members, other)
    ensures CountAdmins(Without(members, orgId, user), other) == CountAdmins(members, other)
  {
    var rest := members[1..];
    if members[0].orgId == orgId && members[0].userId == user {
      NoMemberNoChange(rest, orgId, user, role);
      assert [] + rest == rest;
    } else {
      OtherRolesKeepAdmins(rest, orgId, user, role, other);
      var gone := Without(rest, orgId, user);
      assert ([members[0]] + gone)[1..] == gone;
    }
  }

  /** Changing a role or removing a member never takes the last admin from any organization. */
  lemma LastAdminStays(w: World, r: Request, orgId: string)
    requires OneOrgEach(w.db.members) && (r.ChangeRole? || r.Remove?)
    requires CountAdmins(w.db.members, orgId) > 0
    ensures CountAdmins(Step(w, r).db.members, orgId) > 0
  {
    var ms := w.db.members;
    if Answer(w, r.actor, r.now).Some? {
      var mine := Answer(w, r.actor, r.now).value;
      match RoleIn(ms, mine, r.target)
      case None =>
      case Some(ADMIN) =>
        DemotionCounts(ms, mine, r.target, orgId);
        SameRoleNoChange(ms, mine, r.target);
      case Some(MEMBER) =>
        OtherRolesKeepAdmins(ms, mine, r.target, if r.ChangeRole? then r.role else MEMBER, orgId);
    }
  }

  lemma {:induction false} SameRoleNoChange(members: seq<Membership>, orgId: string, user: string)
    requires OneOrgEach(members) && RoleIn(members, orgId, user) == Some(ADMIN)
    ensures SetRole(members, orgId, user, ADMIN) == members
  {
    var rest := members[1..];
    if members[0].orgId == orgId && members[0].userId == user {
      NoMemberNoChange(rest, orgId, user, ADMIN);
    } else {
      SameRoleNoChange(rest, orgId, user);
    }
    assert members == [members[0]] + rest;
  }

  lemma {:induction false} DropCounts(members: seq<Membership>, gone: string, orgId: string)
    requires gone != orgId
    ensures CountAdmins(WithoutOrg(members, gone), orgId) == CountAdmins(members, orgId)
  {
    if members != [] {
      DropCounts(members[1..], gone, orgId);
      var rest := WithoutOrg(members[1..], gone);
      assert [] + rest == rest && ([members[0]] + rest)[1..] == rest;
    }
  }

  lemma {:induction false} AppendCounts(members: seq<Membership>, m: Membership, orgId: string)
    ensures CountAdmins(members + [m], orgId) >= CountAdmins(members, orgId)
  {
    if members == [] {
      assert members + [m] == [m];
    } else {
      assert (members + [m])[1..] == members[1..] + [m];
      AppendCounts(members[1..], m, orgId);
    }
  }

  /** Adding a member has no such guard: it takes the last admin exactly when told to make that admin a member. */
  lemma AddTakesLastAdminIff(w: World, r: Request, orgId: string)
    requires OneOrgEach(w.db.members) && r.Add? && Answer(w, r.actor, r.now) == Some(orgId)
    requires CountAdmins(w.db.members, orgId) > 0
    ensures CountAdmins(Step(w, r).db.members, orgId) == 0 <==>
      CountAdmins(w.db.members, orgId) == 1 && RoleIn(w.db.members, orgId, Trim(r.target)) == Some(ADMIN)
      && Trim(r.target) != "" && r.role == MEMBER
  {
    var ms, user := w.db.members, Trim(r.target);
    match AddCaseOf(w, r.actor, r.now, r.target, r.role)
    case NewRole(_) =>
      if r.role == MEMBER {
        DemotionCounts(ms, orgId, user, orgId);
      } else {
        OtherRolesKeepAdmins(ms, orgId, user, ADMIN, orgId);
      }
    case Moves(_) =>
      var c := ClearedFor(w.db, orgId, user);
      ClearOutcome(w.db, orgId, user);
      LookupIsMembership(ms, orgId, user);
      if Lookup(ms, user).Some? { DropCounts(ms, Lookup(ms, user).value, orgId); }
      AppendCounts(c.db.members, Membership(orgId, user, r.role), orgId);
    case _ =>
  }
}
