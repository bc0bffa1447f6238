/**
 * The remote document store, as the workflows see it: its nine collections, the
 * id counter behind `ID.unique()`, and the primitives the workflows compose.
 *
 * A remote write may be rejected. `Attempt` is the one place where the model
 * chooses, nondeterministically, whether a write goes through; every fan-out
 * reports the ids of the documents whose write was rejected, so that each
 * workflow can state its new state exactly.
 */
module DocumentStore {
  import opened Documents

  class Store {
    var users: map<Id, User>
    var projects: map<Id, Project>
    /** The `user_projects` collection. */
    var memberships: map<Id, Membership>
    /** The `project_invitation` collection. */
    var invitations: map<Id, Invitation>
    var defects: map<Id, Defect>
    /** The `engineers_data` collection. */
    var engineers: map<Id, Engineer>
    var checklists: map<Id, Checklist>
    /** The `checklist_items` collection. */
    var items: map<Id, ChecklistItem>
    /** The `user_calendar` collection. */
    var calendar: map<Id, CalendarEvent>
    /** The next id `ID.unique()` hands out. */
    var nextId: nat

    /**
     * Every document id is below the counter, and every membership names a
     * project id the store has handed out.
     */
    ghost predicate Valid()
      reads this
    {
      && Below(users, nextId) && Below(projects, nextId) && Below(memberships, nextId)
      && Below(invitations, nextId) && Below(defects, nextId) && Below(engineers, nextId)
      && Below(checklists, nextId) && Below(items, nextId) && Below(calendar, nextId)
      && forall k :: k in memberships ==> memberships[k].projectId < nextId
    }

    /** An empty database. */
    constructor ()
      ensures Valid() && nextId == 0
      ensures users == map[] && projects == map[] && memberships == map[]
      ensures invitations == map[] && defects == map[] && engineers == map[]
      ensures checklists == map[] && items == map[] && calendar == map[]
    {
      users, projects, memberships := map[], map[], map[];
      invitations, defects, engineers := map[], map[], map[];
      checklists, items, calendar := map[], map[], map[];
      nextId := 0;
    }
  }

  /** One remote write: `true` when the store accepted it. */
  method Attempt() returns (ok: bool)
  {
    ok := *;
  }

  /**
   * A `Promise.all` of `deleteDocument` calls, one per target, each of which may
   * be rejected: exactly the targets whose deletion was not rejected are gone.
   */
  method DeleteEach<V>(m: map<Id, V>, targets: set<Id>) returns (m': map<Id, V>, failed: set<Id>)
    ensures failed <= targets
    ensures m' == m - (targets - failed)
  {
    m', failed := m, {};
    var todo := targets;
    while todo != {}
      invariant todo <= targets && failed <= targets - todo
      invariant m' == m - ((targets - todo) - failed)
      decreases todo
    {
      var k :| k in todo;
      var ok := Attempt();
      if ok {
        m' := m' - {k};
      } else {
        failed := failed + {k};
      }
      todo := todo - {k};
    }
  }

  /** The documents `recs` created under consecutive ids from `base`, less the rejected ones. */
  function Spawned<V>(base: Id, recs: seq<V>, failed: set<Id>): (c: map<Id, V>)
    ensures forall k :: k in c <==> base <= k < base + |recs| && k !in failed
    ensures forall i :: 0 <= i < |recs| && base + i !in failed ==> c[base + i] == recs[i]
  {
    map k | base <= k < base + |recs| && k !in failed :: recs[k - base]
  }

  lemma SpawnedGrows<V>(base: Id, recs: seq<V>, i: nat, failed: set<Id>)
    requires i < |recs|
    ensures Spawned(base, recs[..i+1], failed) ==
      if base + i in failed then Spawned(base, recs[..i], failed)
      else Spawned(base, recs[..i], failed)[base + i := recs[i]]
  {
  }

  lemma SpawnedIgnores<V>(base: Id, recs: seq<V>, k: Id, failed: set<Id>)
    requires k >= base + |recs|
    ensures Spawned(base, recs, failed + {k}) == Spawned(base, recs, failed)
  {
  }

  /**
   * A `Promise.all` of `createDocument` calls: `recs[i]` is created under the id
   * `base + i` (chosen by the client before the call), unless that write is rejected.
   */
  method CreateEach<V>(m: map<Id, V>, base: Id, recs: seq<V>) returns (m': map<Id, V>, failed: set<Id>)
    ensures forall k :: k in failed ==> base <= k < base + |recs|
    ensures m' == m + Spawned(base, recs, failed)
  {
    m', failed := m, {};
    var i := 0;
    while i < |recs|
      invariant 0 <= i <= |recs|
      invariant forall k :: k in failed ==> base <= k < base + i
      invariant m' == m + Spawned(base, recs[..i], failed)
    {
      var ok := Attempt();
      if ok {
        SpawnedGrows(base, recs, i, failed);
        m' := m'[base + i := recs[i]];
      } else {
        SpawnedGrows(base, recs, i, failed + {base + i});
        SpawnedIgnores(base, recs[..i], base + i, failed);
        failed := failed + {base + i};
      }
      i := i + 1;
    }
    assert recs[..i] == recs;
  }
}
