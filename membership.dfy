/**
 * Membership manager: creating a project, joining and leaving it, deleting it,
 * and changing members' roles. A project's roster lives in three places that
 * these workflows keep in step: the `user_projects` memberships, and the
 * project's own `members` counter and `usersIds` list. Joining and leaving also
 * fan out notices (`project_invitation` records with status 'joined' or
 * 'exited') to the other members.
 */
module Membership {
  import opened Wrappers
  import opened Documents
  import opened DocumentStore

  // ---------------------------------------------------------------------------
  // Queries

  /** `existUserOrEmail`: the users query `username == u OR email == e` has a match. */
  function ExistUserOrEmail(users: map<Id, User>, username: string, email: string): (taken: bool)
    ensures taken <==> exists k :: k in users && (users[k].username == username || users[k].email == email)
  {
    var matches := set k | k in users && (users[k].username == username || users[k].email == email);
    if |matches| > 0 then
      var k :| k in matches; true
    else
      assert forall k :: k in users && (users[k].username == username || users[k].email == email) ==> k in matches;
      false
  }

  /** The `projects` query `project_name == name` has a match. */
  function NameTaken(projects: map<Id, Project>, name: string): (taken: bool)
    ensures taken <==> exists k :: k in projects && projects[k].name == name
  {
    var matches := set k | k in projects && projects[k].name == name;
    if |matches| > 0 then
      var k :| k in matches; true
    else
      assert forall k :: k in projects && projects[k].name == name ==> k in matches;
      false
  }

  /** The memberships of project `p`. */
  function ProjectMembers(ms: map<Id, Membership>, p: Id): set<Id> {
    set k | k in ms && ms[k].projectId == p
  }

  /** The pending invitations of user `u` to project `p`. */
  function PendingFor(invs: map<Id, Invitation>, p: Id, u: Id): set<Id> {
    set k | k in invs && invs[k].projectId == p && invs[k].invitedUserId == u && invs[k].status == Pending
  }

  // ---------------------------------------------------------------------------
  // Records the workflows write

  function NewProject(name: string, founder: Id, now: int): Project {
    Project(name, 1, [founder], now)
  }

  /** The roster update of a join: one more member, appended to `usersIds`. */
  function Admit(proj: Project, u: Id): Project {
    proj.(members := proj.members + 1, usersIds := proj.usersIds + [u])
  }

  /** The roster update of a leave: `Math.max(0, members - 1)`, and every occurrence of `u` filtered out. */
  function Depart(proj: Project, u: Id): Project {
    proj.(members := if proj.members - 1 > 0 then proj.members - 1 else 0, usersIds := Without(proj.usersIds, u))
  }

  /** The notice telling `member` that `u` joined `p` with `role`. */
  function JoinNotice(p: Id, u: Id, role: string, member: Id, now: int): Invitation {
    Invitation(p, u, member, role, Joined, false, true, now)
  }

  /** The users holding the memberships `ids`, in the same order. */
  function Holders(ms: map<Id, Membership>, ids: seq<Id>): (us: seq<Id>)
    requires forall i :: 0 <= i < |ids| ==> ids[i] in ms
    ensures |us| == |ids|
    ensures forall i :: 0 <= i < |ids| ==> us[i] == ms[ids[i]].userId
  {
    if ids == [] then [] else [ms[ids[0]].userId] + Holders(ms, ids[1..])
  }

  /** One join notice per entry of `members`. */
  function JoinNoticesTo(p: Id, u: Id, role: string, members: seq<Id>, now: int): (ns: seq<Invitation>)
    ensures |ns| == |members|
    ensures forall i :: 0 <= i < |ns| ==> ns[i] == JoinNotice(p, u, role, members[i], now)
  {
    if members == [] then []
    else [JoinNotice(p, u, role, members[0], now)] + JoinNoticesTo(p, u, role, members[1..], now)
  }

  /** One join notice per membership of `p`, in store order. */
  function JoinNotices(ms: map<Id, Membership>, p: Id, u: Id, role: string, now: int): (ns: seq<Invitation>)
    ensures |ns| == |ProjectMembers(ms, p)|
  {
    ListedMembers(ProjectMembers(ms, p));
    JoinNoticesTo(p, u, role, Holders(ms, Listed(ProjectMembers(ms, p))), now)
  }

  /** The notice telling `member` that `u` left `p`. */
  function ExitNotice(p: Id, u: Id, member: Id, now: int): Invitation {
    Invitation(p, u, member, "", Exited, false, true, now)
  }

  /** One exit notice per entry of `remaining`. */
  function ExitNotices(p: Id, u: Id, remaining: seq<Id>, now: int): (ns: seq<Invitation>)
    ensures |ns| == |remaining|
    ensures forall i :: 0 <= i < |ns| ==> ns[i] == ExitNotice(p, u, remaining[i], now)
  {
    if remaining == [] then []
    else [ExitNotice(p, u, remaining[0], now)] + ExitNotices(p, u, remaining[1..], now)
  }

  // ---------------------------------------------------------------------------
  // createProject

  /**
   * `createProject`: refuses a taken name before writing anything; otherwise
   * creates the project with one member and then the founder's 'owner'
   * membership. A rejected second write leaves the project without a
   * membership (`orphan`); the source does not roll it back.
   */
  method CreateProject(st: Store, name: string, founder: Id, now: int) returns (r: Result<Id, Error>, orphan: bool)
    requires st.Valid()
    modifies st`projects, st`memberships, st`nextId
    ensures st.Valid()
    ensures NameTaken(old(st.projects), name) <==> r == Failure(Duplicate)
    ensures r == Failure(Duplicate) ==>
      st.projects == old(st.projects) && st.memberships == old(st.memberships) && st.nextId == old(st.nextId)
    ensures r.Success? ==>
      && r.value == old(st.nextId) && r.value !in old(st.projects)
      && st.projects == old(st.projects)[r.value := NewProject(name, founder, now)]
      && st.memberships == old(st.memberships)[r.value + 1 := Membership(r.value, founder, OwnerRole)]
      && MembershipsOf(st.memberships, r.value, founder) == {r.value + 1}
      && RosterInSync(st.projects, st.memberships, r.value)
      && st.nextId == old(st.nextId) + 2
    ensures orphan ==> r == Failure(Remote)
    ensures r == Failure(Remote) ==>
      && st.memberships == old(st.memberships)
      && st.projects == (if orphan then old(st.projects)[old(st.nextId) := NewProject(name, founder, now)]
                         else old(st.projects))
      && st.nextId == old(st.nextId) + (if orphan then 2 else 1)
    ensures r.Success? || r == Failure(Duplicate) || r == Failure(Remote)
    ensures UniqueMemberships(old(st.memberships)) ==> UniqueMemberships(st.memberships)
  {
    orphan := false;
    if NameTaken(st.projects, name) {
      return Failure(Duplicate), false;
    }
    var pid := st.nextId;
    st.nextId := st.nextId + 1;
    var ok := Attempt();
    if !ok {
      return Failure(Remote), false;
    }
    st.projects := st.projects[pid := NewProject(name, founder, now)];
    var mid := st.nextId;
    st.nextId := st.nextId + 1;
    ok := Attempt();
    if !ok {
      return Failure(Remote), true;
    }
    FoundingMembership(old(st.memberships), mid, pid, founder);
    st.memberships := st.memberships[mid := Membership(pid, founder, OwnerRole)];
    r := Success(pid);
  }

  /**
   * The founder's membership of a fresh project is the project's only one: the
   * new roster `[founder]` is in step with it, and memberships stay unique.
   */
  lemma FoundingMembership(ms: map<Id, Membership>, mid: Id, pid: Id, founder: Id)
    requires mid !in ms
    requires forall k :: k in ms ==> ms[k].projectId != pid
    ensures var ms' := ms[mid := Membership(pid, founder, OwnerRole)];
      && MembershipsOf(ms', pid, founder) == {mid}
      && (forall v :: v != founder ==> MembershipsOf(ms', pid, v) == {})
      && (UniqueMemberships(ms) ==> UniqueMemberships(ms'))
  {
    var ms' := ms[mid := Membership(pid, founder, OwnerRole)];
    forall v ensures MembershipsOf(ms', pid, v) == if v == founder then {mid} else {} {
      forall k | k in MembershipsOf(ms', pid, v) ensures k == mid && v == founder { }
    }
  }

  /**
   * Adding a membership for a pair that has none keeps memberships unique, and
   * the new document is the pair's only membership.
   */
  lemma AddMembership(ms: map<Id, Membership>, k: Id, m: Membership)
    requires k !in ms && UniqueMemberships(ms)
    requires MembershipsOf(ms, m.projectId, m.userId) == {}
    ensures MembershipsOf(ms[k := m], m.projectId, m.userId) == {k}
    ensures UniqueMemberships(ms[k := m])
  {
    assert forall j :: j in ms ==> !(ms[j].projectId == m.projectId && ms[j].userId == m.userId) by {
      forall j | j in ms ensures !(ms[j].projectId == m.projectId && ms[j].userId == m.userId) {
        assert j !in MembershipsOf(ms, m.projectId, m.userId);
      }
    }
  }

  // ---------------------------------------------------------------------------
  // joinProject and its two helpers

  /**
   * `checkProjectInvitation`: deletes every pending invitation of `u` to `p`
   * and reports how many there were; a rejected deletion makes the call fail
   * (after the other deletions have gone through).
   */
  method CheckProjectInvitation(st: Store, p: Id, u: Id) returns (r: Result<nat, Error>, failed: set<Id>)
    requires st.Valid()
    modifies st`invitations
    ensures st.Valid()
    ensures failed <= PendingFor(old(st.invitations), p, u)
    ensures st.invitations == old(st.invitations) - (PendingFor(old(st.invitations), p, u) - failed)
    ensures r == if failed == {} then Success(|PendingFor(old(st.invitations), p, u)|) else Failure(Remote)
  {
    var pending := PendingFor(st.invitations, p, u);
    st.invitations, failed := DeleteEach(st.invitations, pending);
    r := if failed == {} then Success(|pending|) else Failure(Remote);
  }

  /**
   * `sendAllProjectUsersInvitation`: one 'joined' notice per membership of `p`
   * that exists at the time of the call.
   */
  method SendAllProjectUsersInvitation(st: Store, p: Id, u: Id, role: string, now: int) returns (failed: set<Id>)
    requires st.Valid()
    modifies st`invitations, st`nextId
    ensures st.Valid()
    ensures st.nextId == old(st.nextId) + |ProjectMembers(st.memberships, p)|
    ensures forall k :: k in failed ==> old(st.nextId) <= k < st.nextId
    ensures st.invitations == old(st.invitations) + Spawned(old(st.nextId), JoinNotices(st.memberships, p, u, role, now), failed)
  {
    var notices := JoinNotices(st.memberships, p, u, role, now);
    st.invitations, failed := CreateEach(st.invitations, st.nextId, notices);
    st.nextId := st.nextId + |notices|;
  }

  /**
   * The invitations after a `joinProject` in which every write went through:
   * the pending invitations of `u` consumed, and one join notice per
   * membership `ms` held, created under the ids from `base`.
   */
  function JoinedInvitations(invs: map<Id, Invitation>, ms: map<Id, Membership>, p: Id, u: Id, role: string, now: int, base: Id): map<Id, Invitation> {
    (invs - PendingFor(invs, p, u)) + Spawned(base, JoinNotices(ms, p, u, role, now), {})
  }

  /**
   * `joinProject`: fails before any write when the project is missing or `u`
   * already has a membership in it; otherwise consumes `u`'s pending
   * invitations, notifies the existing members, and then creates the
   * membership and admits `u` to the roster. A rejected write makes the call
   * fail; the writes already made stay.
   */
  method JoinProject(st: Store, p: Id, u: Id, role: string, now: int) returns (r: Result<Id, Error>, failed: set<Id>)
    requires st.Valid()
    modifies st`invitations, st`memberships, st`projects, st`nextId
    ensures st.Valid()
    ensures p !in old(st.projects) || MembershipsOf(old(st.memberships), p, u) != {} ==>
      && r == (if p !in old(st.projects) then Failure(NotFound) else Failure(AlreadyMember))
      && st.invitations == old(st.invitations) && st.memberships == old(st.memberships)
      && st.projects == old(st.projects) && st.nextId == old(st.nextId)
    ensures r.Success? <==> p in old(st.projects) && MembershipsOf(old(st.memberships), p, u) == {} && failed == {}
    ensures r.Success? ==>
      && r.value == old(st.nextId) + |ProjectMembers(old(st.memberships), p)|
      && st.invitations == JoinedInvitations(old(st.invitations), old(st.memberships), p, u, role, now, old(st.nextId))
      && st.memberships == old(st.memberships)[r.value := Membership(p, u, role)]
      && st.projects == old(st.projects)[p := Admit(old(st.projects)[p], u)]
    ensures r.Failure? ==> r.error in {NotFound, AlreadyMember, Remote}
    ensures r == Failure(NotFound) <==> p !in old(st.projects)
    ensures r == Failure(AlreadyMember) <==> p in old(st.projects) && MembershipsOf(old(st.memberships), p, u) != {}
    ensures r == Failure(Remote) <==> p in old(st.projects) && MembershipsOf(old(st.memberships), p, u) == {} && failed != {}
    ensures UniqueMemberships(old(st.memberships)) ==> UniqueMemberships(st.memberships)
  {
    if p !in st.projects {
      return Failure(NotFound), {};
    }
    if MembershipsOf(st.memberships, p, u) != {} {
      return Failure(AlreadyMember), {};
    }
    r, failed := Enrol(st, p, u, role, now);
  }

  /** The writes of `joinProject`, once the project is known to exist and `u` not to be a member. */
  method Enrol(st: Store, p: Id, u: Id, role: string, now: int) returns (r: Result<Id, Error>, failed: set<Id>)
    requires st.Valid() && p in st.projects && MembershipsOf(st.memberships, p, u) == {}
    modifies st`invitations, st`memberships, st`projects, st`nextId
    ensures st.Valid()
    ensures r.Success? <==> failed == {}
    ensures r.Success? ==>
      && r.value == old(st.nextId) + |ProjectMembers(old(st.memberships), p)|
      && st.invitations == JoinedInvitations(old(st.invitations), old(st.memberships), p, u, role, now, old(st.nextId))
      && st.memberships == old(st.memberships)[r.value := Membership(p, u, role)]
      && st.projects == old(st.projects)[p := Admit(old(st.projects)[p], u)]
    ensures r.Failure? ==> r.error == Remote
    ensures UniqueMemberships(old(st.memberships)) ==> UniqueMemberships(st.memberships)
  {
    ghost var invs0 := st.invitations;
    var cleared;
    cleared, failed := CheckProjectInvitation(st, p, u);
    if cleared.Failure? {
      return Failure(Remote), failed;
    }
    assert st.invitations == invs0 - PendingFor(invs0, p, u);
    r, failed := NotifyAndAdmit(st, p, u, role, now);
  }

  /** `joinProject` after the pending invitations are gone: the notices, then the membership and the roster. */
  method NotifyAndAdmit(st: Store, p: Id, u: Id, role: string, now: int) returns (r: Result<Id, Error>, failed: set<Id>)
    requires st.Valid() && p in st.projects && MembershipsOf(st.memberships, p, u) == {}
    modifies st`invitations, st`memberships, st`projects, st`nextId
    ensures st.Valid()
    ensures r.Success? <==> failed == {}
    ensures r.Success? ==>
      && r.value == old(st.nextId) + |ProjectMembers(old(st.memberships), p)|
      && st.invitations == old(st.invitations) + Spawned(old(st.nextId), JoinNotices(old(st.memberships), p, u, role, now), {})
      && st.memberships == old(st.memberships)[r.value := Membership(p, u, role)]
      && st.projects == old(st.projects)[p := Admit(old(st.projects)[p], u)]
    ensures r.Failure? ==> r.error == Remote
    ensures UniqueMemberships(old(st.memberships)) ==> UniqueMemberships(st.memberships)
  {
    var project := st.projects[p];
    failed := SendAllProjectUsersInvitation(st, p, u, role, now);
    if failed != {} {
      return Failure(Remote), failed;
    }
    if UniqueMemberships(st.memberships) {
      AddMembership(st.memberships, st.nextId, Membership(p, u, role));
    }
    var mid, created, updated := AddMember(st, p, u, role, project);
    if created && updated {
      r := Success(mid);
    } else {
      r := Failure(Remote);
      failed := (if created then {} else {mid}) + (if updated then {} else {p});
    }
  }

  /**
   * The last step of `joinProject`: the membership and the roster update,
   * written concurrently; either may be rejected.
   */
  method AddMember(st: Store, p: Id, u: Id, role: string, project: Project) returns (mid: Id, created: bool, updated: bool)
    requires st.Valid() && p in st.projects
    modifies st`memberships, st`projects, st`nextId
    ensures st.Valid() && mid == old(st.nextId) && st.nextId == mid + 1
    ensures st.memberships == if created then old(st.memberships)[mid := Membership(p, u, role)] else old(st.memberships)
    ensures st.projects == if updated then old(st.projects)[p := Admit(project, u)] else old(st.projects)
  {
    mid := st.nextId;
    st.nextId := st.nextId + 1;
    created := Attempt();
    if created {
      st.memberships := st.memberships[mid := Membership(p, u, role)];
    }
    updated := Attempt();
    if updated {
      st.projects := st.projects[p := Admit(project, u)];
    }
  }

  /**
   * The join notices: one per membership that existed before the join (the
   * i-th addressed to the i-th member in store order), none to the joiner,
   * and none of them pending.
   */
  lemma JoinNotifiesExistingMembers(ms: map<Id, Membership>, p: Id, u: Id, role: string, now: int)
    requires MembershipsOf(ms, p, u) == {}
    ensures var ns := JoinNotices(ms, p, u, role, now);
      var ids := Listed(ProjectMembers(ms, p));
      && |ns| == |ids|
      && (forall i :: 0 <= i < |ns| ==>
            && ids[i] in ms
            && ns[i] == JoinNotice(p, u, role, ms[ids[i]].userId, now)
            && ns[i].projectUserId != u && ns[i].status == Joined)
      && (forall k :: k in ProjectMembers(ms, p) ==>
            exists i :: 0 <= i < |ns| && ns[i].projectUserId == ms[k].userId)
  {
    var ns := JoinNotices(ms, p, u, role, now);
    var ids := Listed(ProjectMembers(ms, p));
    ListedMembers(ProjectMembers(ms, p));
    forall i | 0 <= i < |ns|
      ensures ids[i] in ms && ns[i] == JoinNotice(p, u, role, ms[ids[i]].userId, now) && ns[i].projectUserId != u
    {
      assert ids[i] in ProjectMembers(ms, p);
      assert ids[i] !in MembershipsOf(ms, p, u);
    }
    forall k | k in ProjectMembers(ms, p)
      ensures exists i :: 0 <= i < |ns| && ns[i].projectUserId == ms[k].userId
    {
      var i :| 0 <= i < |ids| && ids[i] == k;
      assert ns[i].projectUserId == ms[k].userId;
    }
  }

  /** After a successful join no pending invitation of `u` to `p` remains. */
  lemma JoinConsumesPendingInvitations(invs: map<Id, Invitation>, ms: map<Id, Membership>, p: Id, u: Id, role: string, now: int, base: Id)
    requires Below(invs, base)
    ensures PendingFor(JoinedInvitations(invs, ms, p, u, role, now, base), p, u) == {}
  {
    var notices := JoinNotices(ms, p, u, role, now);
    var after := JoinedInvitations(invs, ms, p, u, role, now, base);
    ListedMembers(ProjectMembers(ms, p));
    forall k | k in after
      ensures !(after[k].projectId == p && after[k].invitedUserId == u && after[k].status == Pending)
    {
      if base <= k < base + |notices| {
        assert after[k] == notices[k - base];
      }
    }
  }

  /** A successful join of a non-member keeps the project's roster in step with its memberships. */
  lemma JoinKeepsRosterInSync(projects: map<Id, Project>, ms: map<Id, Membership>, p: Id, u: Id, role: string, mid: Id)
    requires p in projects && mid !in ms
    requires RosterInSync(projects, ms, p)
    requires MembershipsOf(ms, p, u) == {}
    ensures RosterInSync(projects[p := Admit(projects[p], u)], ms[mid := Membership(p, u, role)], p)
  {
    var ms' := ms[mid := Membership(p, u, role)];
    var ids := projects[p].usersIds;
    assert u !in ids;
    forall v ensures v in ids + [u] <==> MembershipsOf(ms', p, v) != {} {
      if v == u {
        assert mid in MembershipsOf(ms', p, v);
      } else if v in ids {
        var k :| k in MembershipsOf(ms, p, v);
        assert k in MembershipsOf(ms', p, v);
      } else {
        forall k | k in ms' ensures !(ms'[k].projectId == p && ms'[k].userId == v) {
          if k != mid { assert k !in MembershipsOf(ms, p, v); }
        }
      }
    }
  }

  // ---------------------------------------------------------------------------
  // updateUserRoles

  datatype RoleChange = RoleChange(userId: Id, role: string)

  /** The membership `currentDocs.find` picks for a user: the first of theirs in project `p`. */
  function RoleTarget(ms: map<Id, Membership>, p: Id, u: Id): (t: Option<Id>)
    ensures t.Some? ==> t.value in ms && ms[t.value].projectId == p && ms[t.value].userId == u
    ensures t.None? <==> MembershipsOf(ms, p, u) == {}
  {
    First(MembershipsOf(ms, p, u))
  }

  /** Request `c` leads to a write: its user has a membership whose role (as first read) differs. */
  predicate Rewrites(ms: map<Id, Membership>, p: Id, c: RoleChange) {
    var t := RoleTarget(ms, p, c.userId);
    t.Some? && ms[t.value].role != c.role
  }

  /** The indices of the requests that lead to a write. */
  function Rewriting(ms: map<Id, Membership>, p: Id, cs: seq<RoleChange>): set<nat> {
    set i | 0 <= i < |cs| && Rewrites(ms, p, cs[i])
  }

  /**
   * The memberships after the writes of requests `cs`, decided against the
   * snapshot `snap`, the writes at the indices in `failed` being rejected.
   * Only roles change.
   */
  function Applied(snap: map<Id, Membership>, p: Id, cs: seq<RoleChange>, failed: set<nat>): (ms: map<Id, Membership>)
    ensures ms.Keys == snap.Keys
    ensures forall k :: k in snap ==> ms[k].(role := snap[k].role) == snap[k]
    decreases |cs|
  {
    if cs == [] then snap
    else
      var n := |cs| - 1;
      var before := Applied(snap, p, cs[..n], failed);
      if Rewrites(snap, p, cs[n]) && n !in failed then
        var t := RoleTarget(snap, p, cs[n].userId).value;
        before[t := snap[t].(role := cs[n].role)]
      else
        before
  }

  lemma AppliedStep(snap: map<Id, Membership>, p: Id, cs: seq<RoleChange>, failed: set<nat>, n: nat)
    requires n < |cs|
    ensures Applied(snap, p, cs[..n+1], failed) ==
      if Rewrites(snap, p, cs[n]) && n !in failed then
        Applied(snap, p, cs[..n], failed)[RoleTarget(snap, p, cs[n].userId).value
          := snap[RoleTarget(snap, p, cs[n].userId).value].(role := cs[n].role)]
      else
        Applied(snap, p, cs[..n], failed)
  {
    assert cs[..n+1][..n] == cs[..n];
  }

  lemma {:induction false} AppliedIgnores(snap: map<Id, Membership>, p: Id, cs: seq<RoleChange>, failed: set<nat>, n: nat)
    requires n >= |cs|
    ensures Applied(snap, p, cs, failed + {n}) == Applied(snap, p, cs, failed)
    decreases |cs|
  {
    if cs != [] {
      AppliedIgnores(snap, p, cs[..|cs| - 1], failed, n);
    }
  }

  /**
   * `updateUserRoles`: for each requested change whose user has a membership
   * in `p` with a different role (as read before the loop), writes the new
   * role; a rejected write is logged and skipped. Returns the number of writes
   * issued and the indices of the rejected ones.
   */
  method UpdateUserRoles(st: Store, p: Id, changes: seq<RoleChange>) returns (issued: nat, failed: set<nat>)
    requires st.Valid()
    modifies st`memberships
    ensures st.Valid()
    ensures issued == |Rewriting(old(st.memberships), p, changes)|
    ensures failed <= Rewriting(old(st.memberships), p, changes)
    ensures st.memberships == Applied(old(st.memberships), p, changes, failed)
  {
    if |changes| == 0 {
      return 0, {};
    }
    var ms;
    ms, issued, failed := ApplyRoles(st.memberships, p, changes);
    forall k | k in ms ensures ms[k].projectId == st.memberships[k].projectId {
      assert ms[k].(role := st.memberships[k].role) == st.memberships[k];
    }
    st.memberships := ms;
  }

  /** The loop of `updateUserRoles`, over the memberships read before it. */
  method ApplyRoles(snapshot: map<Id, Membership>, p: Id, changes: seq<RoleChange>)
    returns (ms: map<Id, Membership>, issued: nat, failed: set<nat>)
    ensures issued == |Rewriting(snapshot, p, changes)|
    ensures failed <= Rewriting(snapshot, p, changes)
    ensures ms == Applied(snapshot, p, changes, failed)
  {
    ms, issued, failed := snapshot, 0, {};
    var n := 0;
    while n < |changes|
      invariant 0 <= n <= |changes|
      invariant issued == |Rewriting(snapshot, p, changes[..n])|
      invariant failed <= Rewriting(snapshot, p, changes[..n])
      invariant ms == Applied(snapshot, p, changes[..n], failed)
    {
      RewritingGrows(snapshot, p, changes, n);
      AppliedStep(snapshot, p, changes, failed, n);
      var c := changes[n];
      var target := RoleTarget(snapshot, p, c.userId);
      if target.Some? && snapshot[target.value].role != c.role {
        issued := issued + 1;
        var ok := Attempt();
        if ok {
          ms := ms[target.value := snapshot[target.value].(role := c.role)];
        } else {
          AppliedIgnores(snapshot, p, changes[..n], failed, n);
          failed := failed + {n};
          AppliedStep(snapshot, p, changes, failed, n);
        }
      }
      n := n + 1;
    }
    assert changes[..n] == changes;
  }

  lemma RewritingGrows(ms: map<Id, Membership>, p: Id, cs: seq<RoleChange>, n: nat)
    requires n < |cs|
    ensures Rewriting(ms, p, cs[..n+1]) ==
      if Rewrites(ms, p, cs[n]) then Rewriting(ms, p, cs[..n]) + {n} else Rewriting(ms, p, cs[..n])
    ensures n !in Rewriting(ms, p, cs[..n])
  {
  }

  /** A role that changed was requested for that membership's user, in a write that went through. */
  lemma {:induction false} RoleChangeWasRequested(snap: map<Id, Membership>, p: Id, cs: seq<RoleChange>, failed: set<nat>)
    ensures var ms := Applied(snap, p, cs, failed);
      forall k :: k in snap && ms[k].role != snap[k].role ==>
        exists i :: i in Rewriting(snap, p, cs) - failed
          && RoleTarget(snap, p, cs[i].userId) == Some(k) && cs[i].role == ms[k].role
    decreases |cs|
  {
    if cs != [] {
      var n := |cs| - 1;
      var ms := Applied(snap, p, cs, failed);
      var before := Applied(snap, p, cs[..n], failed);
      RoleChangeWasRequested(snap, p, cs[..n], failed);
      forall k | k in snap && ms[k].role != snap[k].role
        ensures exists i :: (i in Rewriting(snap, p, cs) - failed
          && RoleTarget(snap, p, cs[i].userId) == Some(k) && cs[i].role == ms[k].role)
      {
        if Rewrites(snap, p, cs[n]) && n !in failed && k == RoleTarget(snap, p, cs[n].userId).value {
          assert n in Rewriting(snap, p, cs) - failed;
        } else {
          assert ms[k] == before[k];
          var i :| i in Rewriting(snap, p, cs[..n]) - failed
            && RoleTarget(snap, p, cs[..n][i].userId) == Some(k) && cs[..n][i].role == before[k].role;
          assert cs[..n][i] == cs[i];
          assert i in Rewriting(snap, p, cs) - failed;
        }
      }
    }
  }

  /**
   * A user named by a single request whose write went through ends up with the
   * requested role.
   */
  lemma {:induction false} SoleRequestApplies(snap: map<Id, Membership>, p: Id, cs: seq<RoleChange>, failed: set<nat>, i: nat)
    requires i in Rewriting(snap, p, cs) - failed
    requires forall j :: 0 <= j < |cs| && j != i ==> cs[j].userId != cs[i].userId
    ensures Applied(snap, p, cs, failed)[RoleTarget(snap, p, cs[i].userId).value].role == cs[i].role
    decreases |cs|
  {
    var n := |cs| - 1;
    var t := RoleTarget(snap, p, cs[i].userId).value;
    if i < n {
      assert cs[..n][i] == cs[i];
      forall j | 0 <= j < n && j != i ensures cs[..n][j].userId != cs[..n][i].userId {
        assert cs[..n][j] == cs[j];
      }
      SoleRequestApplies(snap, p, cs[..n], failed, i);
      if Rewrites(snap, p, cs[n]) && n !in failed {
        assert RoleTarget(snap, p, cs[n].userId).value != t;
      }
    }
  }

  /** Without requests nothing is written. */
  lemma NoRequestsNoChange(snap: map<Id, Membership>, p: Id, failed: set<nat>)
    ensures Applied(snap, p, [], failed) == snap && Rewriting(snap, p, []) == {}
  {
  }

  // ---------------------------------------------------------------------------
  // leaveProject and deleteProject

  /** The user's own, non-shared checklists in the project. */
  function OwnChecklists(cl: map<Id, Checklist>, p: Id, u: Id): set<Id> {
    set k | k in cl && cl[k].userId == u && cl[k].projectId == p && !cl[k].isShared
  }

  /** The items of the given checklists. */
  function ItemsOf(items: map<Id, ChecklistItem>, lists: set<Id>): set<Id> {
    set k | k in items && items[k].checklistId in lists
  }

  function DefectsOf(ds: map<Id, Defect>, p: Id, u: Id): set<Id> {
    set k | k in ds && ds[k].userId == u && ds[k].projectId == p
  }

  function EngineersOf(es: map<Id, Engineer>, p: Id, u: Id): set<Id> {
    set k | k in es && es[k].userId == u && es[k].projectId == p
  }

  /** The membership the `limit(1)` query returns, as a set of zero or one id. */
  function LinkOf(ms: map<Id, Membership>, p: Id, u: Id): (s: set<Id>)
    ensures s <= MembershipsOf(ms, p, u)
    ensures s == {} <==> MembershipsOf(ms, p, u) == {}
  {
    match First(MembershipsOf(ms, p, u))
    case None => {}
    case Some(k) => {k}
  }

  /** The invitations of project `p` on either side of which stands `u`. */
  function Involving(invs: map<Id, Invitation>, p: Id, u: Id): set<Id> {
    set k | k in invs && invs[k].projectId == p && (invs[k].invitedUserId == u || invs[k].projectUserId == u)
  }

  function EventsOf(cal: map<Id, CalendarEvent>, p: Id, u: Id): set<Id> {
    set k | k in cal && cal[k].projectId == p && cal[k].userId == u
  }

  /**
   * The writes of a `leaveProject` that the store rejected: per collection the
   * ids whose deletion was rejected, whether the roster update was rejected,
   * and the ids of the rejected exit notices.
   */
  datatype Rejected = Rejected(
    checklists: set<Id>, items: set<Id>, defects: set<Id>, engineers: set<Id>,
    memberships: set<Id>, invitations: set<Id>, calendar: set<Id>,
    roster: bool, notices: set<Id>)

  const AllAccepted := Rejected({}, {}, {}, {}, {}, {}, {}, false, {})

  /** The exit notices of a leave: one per remaining listed member, none if the project is missing. */
  function LeaveNotices(projects: map<Id, Project>, p: Id, u: Id, now: int): seq<Invitation> {
    if p in projects then ExitNotices(p, u, Without(projects[p].usersIds, u), now) else []
  }

  /** The projects after a leave: the roster update, unless the project is missing or the update was rejected. */
  function LeftRoster(projects: map<Id, Project>, p: Id, u: Id, rej: Rejected): map<Id, Project> {
    if p in projects && !rej.roster then projects[p := Depart(projects[p], u)] else projects
  }

  /**
   * The invitations after a leave: those involving `u` deleted (the rejected
   * deletions excepted), and the exit notices created under the ids from
   * `base` (the rejected ones excepted).
   */
  function LeftInvitations(invs: map<Id, Invitation>, projects: map<Id, Project>, p: Id, u: Id, now: int, base: Id, rej: Rejected): map<Id, Invitation> {
    (invs - (Involving(invs, p, u) - rej.invitations)) + Spawned(base, LeaveNotices(projects, p, u, now), rej.notices)
  }

  /**
   * The deletions of `leaveProject` other than the invitations, each of which
   * may be rejected.
   */
  method DeleteUserRecords(st: Store, p: Id, u: Id) returns (rej: Rejected)
    requires st.Valid()
    modifies st`checklists, st`items, st`defects, st`engineers, st`memberships, st`calendar
    ensures st.Valid()
    ensures !rej.roster && rej.notices == {} && rej.invitations == {}
    ensures st.checklists == old(st.checklists) - (OwnChecklists(old(st.checklists), p, u) - rej.checklists)
    ensures st.items == old(st.items) - (ItemsOf(old(st.items), OwnChecklists(old(st.checklists), p, u)) - rej.items)
    ensures st.defects == old(st.defects) - (DefectsOf(old(st.defects), p, u) - rej.defects)
    ensures st.engineers == old(st.engineers) - (EngineersOf(old(st.engineers), p, u) - rej.engineers)
    ensures st.memberships == old(st.memberships) - (LinkOf(old(st.memberships), p, u) - rej.memberships)
    ensures st.calendar == old(st.calendar) - (EventsOf(old(st.calendar), p, u) - rej.calendar)
  {
    var f1, f2 := DeleteChecklists(st, p, u);
    var ds, f3 := DeleteEach(st.defects, DefectsOf(st.defects, p, u));
    var es, f4 := DeleteEach(st.engineers, EngineersOf(st.engineers, p, u));
    var ms, f5 := DeleteEach(st.memberships, LinkOf(st.memberships, p, u));
    var cal, f7 := DeleteEach(st.calendar, EventsOf(st.calendar, p, u));
    st.defects, st.engineers, st.memberships, st.calendar := ds, es, ms, cal;
    rej := Rejected(f1, f2, f3, f4, f5, {}, f7, false, {});
  }

  /**
   * The user's own checklists and then their items. The items are listed only
   * when there are checklists to delete; if that listing is rejected, no item
   * is deleted and all of them count as rejected.
   */
  method DeleteChecklists(st: Store, p: Id, u: Id) returns (lost: set<Id>, lostItems: set<Id>)
    requires st.Valid()
    modifies st`checklists, st`items
    ensures st.Valid()
    ensures st.checklists == old(st.checklists) - (OwnChecklists(old(st.checklists), p, u) - lost)
    ensures st.items == old(st.items) - (ItemsOf(old(st.items), OwnChecklists(old(st.checklists), p, u)) - lostItems)
  {
    var lists := OwnChecklists(st.checklists, p, u);
    var targets := ItemsOf(st.items, lists);
    var cl, its;
    cl, lost := DeleteEach(st.checklists, lists);
    its, lostItems := st.items, {};
    if lists != {} {
      var listed := Attempt();
      if listed {
        its, lostItems := DeleteEach(st.items, targets);
      } else {
        lostItems := targets;
      }
    } else {
      assert targets == {};
    }
    st.checklists, st.items := cl, its;
  }

  /**
   * `leaveProject`: deletes the user's non-shared checklists with their items,
   * their defects, engineer records, membership, the project's invitations on
   * either side of which they stand, and their events in the project
   * (best-effort: a rejected deletion is logged and skipped). If the project
   * exists, it also removes the user from the roster and notifies each
   * remaining member; a rejection there makes the call fail. A missing project
   * skips only the roster part.
   */
  method LeaveProject(st: Store, p: Id, u: Id, now: int) returns (r: Outcome<Error>, rej: Rejected)
    requires st.Valid()
    modifies st`checklists, st`items, st`defects, st`engineers, st`memberships, st`calendar
    modifies st`invitations, st`projects, st`nextId
    ensures st.Valid()
    ensures st.checklists == old(st.checklists) - (OwnChecklists(old(st.checklists), p, u) - rej.checklists)
    ensures st.items == old(st.items) - (ItemsOf(old(st.items), OwnChecklists(old(st.checklists), p, u)) - rej.items)
    ensures st.defects == old(st.defects) - (DefectsOf(old(st.defects), p, u) - rej.defects)
    ensures st.engineers == old(st.engineers) - (EngineersOf(old(st.engineers), p, u) - rej.engineers)
    ensures st.memberships == old(st.memberships) - (LinkOf(old(st.memberships), p, u) - rej.memberships)
    ensures st.calendar == old(st.calendar) - (EventsOf(old(st.calendar), p, u) - rej.calendar)
    ensures st.invitations == LeftInvitations(old(st.invitations), old(st.projects), p, u, now, old(st.nextId), rej)
    ensures st.projects == LeftRoster(old(st.projects), p, u, rej)
    ensures st.nextId == old(st.nextId) + |LeaveNotices(old(st.projects), p, u, now)|
    ensures forall k :: k in rej.notices ==> old(st.nextId) <= k < st.nextId
    ensures p !in old(st.projects) ==> !rej.roster && rej.notices == {}
    ensures r == Pass <==> !rej.roster && rej.notices == {}
    ensures r.Fail? ==> r.error == Remote
  {
    rej := DeleteUserRecords(st, p, u);
    var invs, f6 := DeleteEach(st.invitations, Involving(st.invitations, p, u));
    st.invitations := invs;
    rej := rej.(invitations := f6);
    r := Pass;
    if p in st.projects {
      var updated, lost := AnnounceDeparture(st, p, u, st.projects[p], now);
      rej := rej.(roster := !updated, notices := lost);
      if !updated || lost != {} {
        r := Fail(Remote);
      }
    }
  }

  /**
   * The roster part of `leaveProject`: the project update and one exit notice
   * per remaining member, each of which may be rejected.
   */
  method AnnounceDeparture(st: Store, p: Id, u: Id, proj: Project, now: int) returns (updated: bool, lost: set<Id>)
    requires st.Valid() && p in st.projects
    modifies st`projects, st`invitations, st`nextId
    ensures st.Valid() && st.nextId == old(st.nextId) + |Without(proj.usersIds, u)|
    ensures forall k :: k in lost ==> old(st.nextId) <= k < st.nextId
    ensures st.projects == if updated then old(st.projects)[p := Depart(proj, u)] else old(st.projects)
    ensures st.invitations == old(st.invitations) + Spawned(old(st.nextId), ExitNotices(p, u, Without(proj.usersIds, u), now), lost)
  {
    updated := Attempt();
    if updated {
      st.projects := st.projects[p := Depart(proj, u)];
    }
    var notices := ExitNotices(p, u, Without(proj.usersIds, u), now);
    st.invitations, lost := CreateEach(st.invitations, st.nextId, notices);
    st.nextId := st.nextId + |notices|;
  }

  /**
   * A leave whose deletions went through leaves nothing of the user's in the
   * project but shared checklists: shared checklists and other users'
   * records survive.
   */
  lemma LeaveClearsUserRecords(cl: map<Id, Checklist>, items: map<Id, ChecklistItem>, ds: map<Id, Defect>,
                               es: map<Id, Engineer>, cal: map<Id, CalendarEvent>, p: Id, u: Id)
    ensures var lists := OwnChecklists(cl, p, u);
      && OwnChecklists(cl - lists, p, u) == {}
      && ItemsOf(items - ItemsOf(items, lists), lists) == {}
      && DefectsOf(ds - DefectsOf(ds, p, u), p, u) == {}
      && EngineersOf(es - EngineersOf(es, p, u), p, u) == {}
      && EventsOf(cal - EventsOf(cal, p, u), p, u) == {}
      && (forall k :: k in cl && (cl[k].isShared || cl[k].userId != u || cl[k].projectId != p) ==> k in cl - lists)
      && (forall k :: k in ds && (ds[k].userId != u || ds[k].projectId != p) ==> k in ds - DefectsOf(ds, p, u))
  {
  }

  /**
   * With memberships unique, deleting the one the `limit(1)` query returns
   * leaves the user with no membership in the project, and every other
   * membership in place.
   */
  lemma LeaveRemovesMembership(ms: map<Id, Membership>, p: Id, u: Id)
    requires UniqueMemberships(ms)
    ensures MembershipsOf(ms - LinkOf(ms, p, u), p, u) == {}
    ensures forall k :: k in ms && (ms[k].projectId != p || ms[k].userId != u) ==> k in ms - LinkOf(ms, p, u)
  {
    var links := MembershipsOf(ms, p, u);
    if links != {} {
      var k := Least(links);
      forall j | j in links ensures j == k { }
      assert links == {k};
    }
  }

  /**
   * After a leave whose invitation deletions went through, the only
   * invitations of `p` involving `u` are the exit notices it created.
   */
  lemma LeaveKeepsOnlyExitNotices(invs: map<Id, Invitation>, projects: map<Id, Project>, p: Id, u: Id, now: int, base: Id, rej: Rejected)
    requires Below(invs, base) && rej.invitations == {}
    ensures var after := LeftInvitations(invs, projects, p, u, now, base, rej);
      forall k :: k in Involving(after, p, u) ==> base <= k < base + |LeaveNotices(projects, p, u, now)|
  {
  }

  /** Each exit notice goes to a remaining member: never to the one who left. */
  lemma LeaveNotifiesRemainingMembers(proj: Project, p: Id, u: Id, now: int)
    ensures var ns := ExitNotices(p, u, Without(proj.usersIds, u), now);
      forall i :: 0 <= i < |ns| ==>
        ns[i].status == Exited && ns[i].projectUserId != u && ns[i].projectUserId in proj.usersIds
  {
    var rest := Without(proj.usersIds, u);
    forall i | 0 <= i < |rest| ensures rest[i] != u && rest[i] in proj.usersIds {
      assert rest[i] in rest;
    }
  }

  /**
   * A leave by a listed member, with no rejected write, keeps the roster in step
   * with the memberships.
   */
  lemma LeaveKeepsRosterInSync(projects: map<Id, Project>, ms: map<Id, Membership>, p: Id, u: Id)
    requires p in projects && RosterInSync(projects, ms, p) && UniqueMemberships(ms)
    requires u in projects[p].usersIds
    ensures RosterInSync(LeftRoster(projects, p, u, AllAccepted), ms - LinkOf(ms, p, u), p)
  {
    var ms' := ms - LinkOf(ms, p, u);
    var ids := projects[p].usersIds;
    var rest := Without(ids, u);
    DistinctCount(ids, u);
    WithoutCounts(ids, u);
    WithoutKeepsDistinct(ids, u);
    assert |rest| == |multiset(rest)| == |multiset(ids)| - 1 == |ids| - 1;
    LeaveRemovesMembership(ms, p, u);
    forall v ensures v in rest <==> MembershipsOf(ms', p, v) != {} {
      if v == u {
        assert MembershipsOf(ms', p, v) == {};
      } else if v in ids {
        var j :| j in MembershipsOf(ms, p, v);
        assert j in MembershipsOf(ms', p, v);
      } else {
        assert MembershipsOf(ms', p, v) == {};
      }
    }
  }

  /** A listed, non-repeated id occurs exactly once. */
  lemma {:induction false} DistinctCount(ids: seq<Id>, x: Id)
    requires Distinct(ids) && x in ids
    ensures multiset(ids)[x] == 1
  {
    var i :| 0 <= i < |ids| && ids[i] == x;
    assert ids == ids[..i] + [x] + ids[i+1..];
    assert x !in ids[..i] && x !in ids[i+1..];
    assert multiset(ids) == multiset(ids[..i]) + multiset{x} + multiset(ids[i+1..]);
  }

  lemma {:induction false} WithoutKeepsDistinct(ids: seq<Id>, x: Id)
    requires Distinct(ids)
    ensures Distinct(Without(ids, x))
    decreases |ids|
  {
    if ids != [] {
      WithoutKeepsDistinct(ids[1..], x);
      var rest := Without(ids[1..], x);
      assert ids[0] !in ids[1..];
      assert ids[0] !in rest;
    }
  }

  /**
   * A leave by someone not listed in `usersIds` still decrements `members`:
   * the counter then drifts from the list.
   */
  lemma LeaveByUnlistedUserDecrements(projects: map<Id, Project>, p: Id, u: Id)
    requires p in projects && projects[p].members > 0
    requires u !in projects[p].usersIds
    ensures var after := LeftRoster(projects, p, u, AllAccepted)[p];
      after.members == projects[p].members - 1 && after.usersIds == projects[p].usersIds
  {
    WithoutAbsent(projects[p].usersIds, u);
  }

  lemma {:induction false} WithoutAbsent(ids: seq<Id>, x: Id)
    requires x !in ids
    ensures Without(ids, x) == ids
    decreases |ids|
  {
    if ids != [] {
      WithoutAbsent(ids[1..], x);
      assert ids == [ids[0]] + ids[1..];
    }
  }

  /**
   * `deleteProject`: a leave by the requester, then (only if the leave
   * succeeded) the deletion of the project record; a missing project makes that
   * deletion fail. `rej` are the leave's rejected writes and `deleted` says
   * whether the project record was removed; apart from that record, the new
   * state is the leave's.
   */
  method DeleteProject(st: Store, p: Id, u: Id, now: int) returns (r: Outcome<Error>, rej: Rejected, deleted: bool)
    requires st.Valid()
    modifies st`checklists, st`items, st`defects, st`engineers, st`memberships, st`calendar
    modifies st`invitations, st`projects, st`nextId
    ensures st.Valid()
    ensures st.checklists == old(st.checklists) - (OwnChecklists(old(st.checklists), p, u) - rej.checklists)
    ensures st.items == old(st.items) - (ItemsOf(old(st.items), OwnChecklists(old(st.checklists), p, u)) - rej.items)
    ensures st.defects == old(st.defects) - (DefectsOf(old(st.defects), p, u) - rej.defects)
    ensures st.engineers == old(st.engineers) - (EngineersOf(old(st.engineers), p, u) - rej.engineers)
    ensures st.memberships == old(st.memberships) - (LinkOf(old(st.memberships), p, u) - rej.memberships)
    ensures st.calendar == old(st.calendar) - (EventsOf(old(st.calendar), p, u) - rej.calendar)
    ensures st.invitations == LeftInvitations(old(st.invitations), old(st.projects), p, u, now, old(st.nextId), rej)
    ensures st.nextId == old(st.nextId) + |LeaveNotices(old(st.projects), p, u, now)|
    ensures st.projects == if deleted then LeftRoster(old(st.projects), p, u, rej) - {p}
                           else LeftRoster(old(st.projects), p, u, rej)
    ensures deleted ==> p in old(st.projects) && !rej.roster && rej.notices == {}
    ensures r == Pass <==> deleted
    ensures r.Fail? ==> r.error == Remote
  {
    deleted := false;
    r, rej := LeaveProject(st, p, u, now);
    if r.Fail? {
      return;
    }
    var accepted := Attempt();
    if accepted && p in st.projects {
      st.projects := st.projects - {p};
      deleted := true;
    } else {
      r := Fail(Remote);
    }
  }
}
