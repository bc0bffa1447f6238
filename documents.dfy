/**
 * The records of the Appwrite database that the workflows read and write, and
 * the query helpers shared by all workflows.
 *
 * Every document is identified by a store-assigned `Id`. Ids are handed out by
 * one global counter (as `ID.unique()` is global), so a collection listed in
 * ascending id order is listed in creation order, which is the order in which
 * `listDocuments` returns documents: `documents[0]` of a query is the least
 * matching id.
 */
module Documents {
  import opened Wrappers

  type Id = nat

  /** Invitation statuses and the role given to a project's founder. */
  const Pending: string := "pending"
  const Joined: string := "joined"
  const Exited: string := "exited"
  const OwnerRole: string := "owner"

  /** Defect severities recognised by the engineer counters. */
  const Major: string := "Major"
  const Minor: string := "Minor"

  /** Errors a workflow reports to its caller, in place of the thrown exceptions. */
  datatype Error =
    | NotFound        // a referenced project or engineer record is absent
    | Duplicate       // a project with that name exists
    | AlreadyMember   // a membership for (project, user) exists
    | Overlap         // the calendar slot is busy
    | InvalidInput    // a date or time does not parse
    | Remote          // a remote write was rejected

  datatype User = User(username: string, email: string)

  /** `members` is the stored counter and `usersIds` the stored array of member ids. */
  datatype Project = Project(name: string, members: int, usersIds: seq<Id>, updateDate: int)

  /** A `user_projects` document: one user's role in one project. */
  datatype Membership = Membership(projectId: Id, userId: Id, role: string)

  /**
   * A `project_invitation` document. `invitedUserId` is the user the record is
   * about, `projectUserId` the member it is addressed to (the inviter of a
   * pending invitation, the notified member of a joined/exited notice).
   */
  datatype Invitation = Invitation(
    projectId: Id, invitedUserId: Id, projectUserId: Id, role: string,
    status: string, readByOwner: bool, readByInvited: bool, createdAt: int)

  /**
   * A defect; `defectId` is the caller's logical identifier (a line number),
   * `details` stands for the remaining caller-supplied fields.
   */
  datatype Defect = Defect(
    projectId: Id, productId: Id, defectId: int, userId: Id, severity: string,
    details: string, foundByUsers: seq<Id>)

  /** An `engineers_data` document: one user's review metrics for one product. */
  datatype Engineer = Engineer(
    projectId: Id, productId: Id, userId: Id, major: int, minor: int,
    size: int, time: int, rate: int, estYield: int)

  datatype Checklist = Checklist(projectId: Id, productId: Id, userId: Id, name: string, isShared: bool)

  datatype ChecklistItem = ChecklistItem(checklistId: Id, text: string, done: bool)

  /** A calendar event; `start` and `end` are instants in milliseconds since the epoch (UTC). */
  datatype CalendarEvent = CalendarEvent(
    userId: Id, projectId: Id, start: int, end: int, content: string, kind: string,
    reminded: bool, isRead: bool)

  /** Every key of `m` is below `n`: every id handed out so far is. */
  ghost predicate Below<V>(m: map<Id, V>, n: nat) {
    forall k :: k in m ==> k < n
  }

  // ---------------------------------------------------------------------------
  // Query results in store order

  predicate IsLeast(x: Id, s: set<Id>) {
    x in s && forall y :: y in s ==> x <= y
  }

  lemma {:induction false} LeastExists(s: set<Id>)
    requires s != {}
    ensures exists x :: IsLeast(x, s)
  {
    var x :| x in s;
    if s == {x} {
      assert IsLeast(x, s);
    } else {
      LeastExists(s - {x});
      var m :| IsLeast(m, s - {x});
      var w := if x < m then x else m;
      forall y | y in s ensures w <= y {
        if y != x { assert y in s - {x}; }
      }
      assert IsLeast(w, s);
    }
  }

  /** The first document of a non-empty query result. */
  function Least(s: set<Id>): (r: Id)
    requires s != {}
    ensures r in s && forall y :: y in s ==> r <= y
  {
    LeastExists(s);
    var x :| IsLeast(x, s); x
  }

  /** `documents[0]` of a query result, if there is one. */
  function First(s: set<Id>): (r: Option<Id>)
    ensures r.None? <==> s == {}
    ensures r.Some? ==> r.value in s && forall y :: y in s ==> r.value <= y
  {
    if s == {} then None else Some(Least(s))
  }

  /** A query result as the list of ids `listDocuments` returns, in store order. */
  function Listed(s: set<Id>): (r: seq<Id>)
    ensures |r| == |s|
    decreases |s|
  {
    if s == {} then []
    else
      var m := Least(s);
      [m] + Listed(s - {m})
  }

  /** `Listed` lists every id of the set, and nothing else. */
  lemma {:induction false} ListedMembers(s: set<Id>)
    ensures forall i :: 0 <= i < |Listed(s)| ==> Listed(s)[i] in s
    ensures forall k :: k in s ==> k in Listed(s)
    decreases |s|
  {
    if s != {} {
      var m := Least(s);
      var rest := Listed(s - {m});
      ListedMembers(s - {m});
      var r := [m] + rest;
      assert Listed(s) == r;
      forall i | 0 <= i < |r| ensures r[i] in s {
        if i > 0 { assert r[i] == rest[i - 1]; }
      }
      forall k | k in s ensures k in r {
        if k != m { assert k in s - {m}; }
      }
    }
  }

  /** `Listed` lists in ascending id order, that is, in creation order. */
  lemma {:induction false} ListedAscending(s: set<Id>)
    ensures forall i, j :: 0 <= i < j < |Listed(s)| ==> Listed(s)[i] < Listed(s)[j]
    decreases |s|
  {
    if s != {} {
      var m := Least(s);
      var rest := Listed(s - {m});
      ListedMembers(s - {m});
      ListedAscending(s - {m});
      var r := [m] + rest;
      assert Listed(s) == r;
      forall i, j | 0 <= i < j < |r| ensures r[i] < r[j] {
        assert r[j] == rest[j - 1];
        assert rest[j - 1] in s - {m};
        if i > 0 { assert r[i] == rest[i - 1]; }
      }
    }
  }

  /** JavaScript's `ids.filter((id) => id !== x)`. */
  function Without(ids: seq<Id>, x: Id): (r: seq<Id>)
    ensures x !in r
    ensures forall y :: y in ids && y != x ==> y in r
    ensures forall y :: y in r ==> y in ids
  {
    if ids == [] then []
    else
      (if ids[0] == x then [] else [ids[0]]) + Without(ids[1..], x)
  }

  /** The filter drops exactly the occurrences of `x`. */
  lemma {:induction false} WithoutCounts(ids: seq<Id>, x: Id)
    ensures multiset(Without(ids, x)) == multiset(ids)[x := 0]
    decreases |ids|
  {
    if ids != [] {
      WithoutCounts(ids[1..], x);
      assert ids == [ids[0]] + ids[1..];
    }
  }

  /** A sequence without repeated elements. */
  ghost predicate Distinct(ids: seq<Id>) {
    forall i, j :: 0 <= i < j < |ids| ==> ids[i] != ids[j]
  }

  // ---------------------------------------------------------------------------
  // Consistency conditions the workflows are meant to keep

  /** The membership documents of user `u` in project `p`. */
  function MembershipsOf(ms: map<Id, Membership>, p: Id, u: Id): set<Id> {
    set k | k in ms && ms[k].projectId == p && ms[k].userId == u
  }

  /** At most one membership per (project, user). */
  ghost predicate UniqueMemberships(ms: map<Id, Membership>) {
    forall a, b :: a in ms && b in ms && ms[a].projectId == ms[b].projectId && ms[a].userId == ms[b].userId ==> a == b
  }

  /** At most one defect per (productId, defectId). */
  ghost predicate UniqueDefects(ds: map<Id, Defect>) {
    forall a, b :: a in ds && b in ds && ds[a].productId == ds[b].productId && ds[a].defectId == ds[b].defectId ==> a == b
  }

  /** No defect lists a finder twice. */
  ghost predicate DistinctFinders(ds: map<Id, Defect>) {
    forall k :: k in ds ==> Distinct(ds[k].foundByUsers)
  }

  /** At most one engineer record per (projectId, productId, userId). */
  ghost predicate UniqueEngineers(es: map<Id, Engineer>) {
    forall a, b ::
      (a in es && b in es && es[a].projectId == es[b].projectId
       && es[a].productId == es[b].productId && es[a].userId == es[b].userId) ==> a == b
  }

  /**
   * The denormalised roster of project `p` agrees with its memberships: the
   * counter is the list's length, the list has no repeats, and it names exactly
   * the users holding a membership in `p`.
   */
  ghost predicate RosterInSync(projects: map<Id, Project>, ms: map<Id, Membership>, p: Id)
    requires p in projects
  {
    var proj := projects[p];
    && proj.members == |proj.usersIds|
    && Distinct(proj.usersIds)
    && forall u :: u in proj.usersIds <==> MembershipsOf(ms, p, u) != {}
  }
}
