/**
 * Invitation workflow: checking whether a user is already invited, sending a
 * batch of invitations, marking messages as read, answering an invitation,
 * and the age-based clean-up of answered requests.
 */
module Invitations {
  import opened Wrappers
  import opened Documents
  import opened DocumentStore
  import opened Clock

  // ---------------------------------------------------------------------------
  // checkUserInvited

  /** The invitations of project `p` about user `u`, whatever their status. */
  function InvitationsOf(invs: map<Id, Invitation>, p: Id, u: Id): set<Id> {
    set k | k in invs && invs[k].projectId == p && invs[k].invitedUserId == u
  }

  /**
   * `checkUserInvited`: looks only at the first invitation of `p` about `u`.
   * None: not invited. An 'exited' notice: deleted, and not invited. Any other
   * status: invited. A rejected deletion is caught and the call yields
   * `undefined`, modelled as `Failure(Remote)`.
   */
  method CheckUserInvited(st: Store, p: Id, u: Id) returns (r: Result<bool, Error>)
    requires st.Valid()
    modifies st`invitations
    ensures st.Valid()
    ensures match First(InvitationsOf(old(st.invitations), p, u))
      case None => r == Success(false) && st.invitations == old(st.invitations)
      case Some(k) =>
        if old(st.invitations)[k].status == Exited then
          || (r == Success(false) && st.invitations == old(st.invitations) - {k})
          || (r == Failure(Remote) && st.invitations == old(st.invitations))
        else
          r == Success(true) && st.invitations == old(st.invitations)
  {
    match First(InvitationsOf(st.invitations, p, u))
    case None =>
      r := Success(false);
    case Some(k) =>
      if st.invitations[k].status == Exited {
        var ok := Attempt();
        if ok {
          st.invitations := st.invitations - {k};
          r := Success(false);
        } else {
          r := Failure(Remote);
        }
      } else {
        r := Success(true);
      }
  }

  // ---------------------------------------------------------------------------
  // sendUserInvitations

  /** One entry of the list of people to invite. */
  datatype Invitee = Invitee(email: string, role: string)

  /** The user `getUserInfoByEmail` returns: the first with that email. */
  function UserByEmail(users: map<Id, User>, email: string): (r: Option<Id>)
    ensures r.Some? ==> r.value in users && users[r.value].email == email
    ensures r.None? ==> forall k :: k in users ==> users[k].email != email
  {
    var matches := set k | k in users && users[k].email == email;
    assert forall k :: k in users && users[k].email == email ==> k in matches;
    First(matches)
  }

  /**
   * What the store did with the writes of one entry: whether the deletion of an
   * 'exited' notice went through, and whether the new invitation was created.
   */
  datatype Ack = Ack(dropped: bool, created: bool)

  /** The invitations and id counter during a batch, and whether it was aborted. */
  datatype Batch = Batch(invs: map<Id, Invitation>, next: nat, stopped: bool)

  /** The invitation `sendUserInvitations` writes; the unset fields take the collection's defaults. */
  function NewInvitation(p: Id, u: Id, owner: Id, role: string, now: int): Invitation {
    Invitation(p, u, owner, role, Pending, false, false, now)
  }

  /**
   * One iteration of the loop. An unknown email makes the iteration throw
   * before any write; the error is caught and the loop goes on. A user whose
   * first invitation is not an 'exited' notice aborts the batch. Otherwise
   * the notice (if any) is deleted and the invitation created, either write
   * possibly rejected (a rejected deletion still lets the creation go ahead).
   */
  function Step(users: map<Id, User>, p: Id, owner: Id, now: int, b: Batch, e: Invitee, a: Ack): Batch {
    if b.stopped then b
    else
      match UserByEmail(users, e.email)
      case None => b
      case Some(v) =>
        var first := First(InvitationsOf(b.invs, p, v));
        if first.Some? && b.invs[first.value].status != Exited then
          b.(stopped := true)
        else
          var kept := if first.Some? && a.dropped then b.invs - {first.value} else b.invs;
          var invs := if a.created then kept[b.next := NewInvitation(p, v, owner, e.role, now)] else kept;
          Batch(invs, b.next + 1, false)
  }

  /** The batch after the entries `es`, the store's answers being `acks`. */
  function Sent(users: map<Id, User>, p: Id, owner: Id, now: int, b: Batch, es: seq<Invitee>, acks: seq<Ack>): Batch
    requires |acks| == |es|
    decreases |es|
  {
    if es == [] then b
    else
      var n := |es| - 1;
      Step(users, p, owner, now, Sent(users, p, owner, now, b, es[..n], acks[..n]), es[n], acks[n])
  }

  /**
   * `sendUserInvitations`: processes the list in order and stops at the first
   * person already invited. `acks` records the store's answers for the
   * entries processed; `aborted` says whether the loop stopped early.
   */
  method SendUserInvitations(st: Store, p: Id, invitees: seq<Invitee>, owner: Id, now: int)
    returns (acks: seq<Ack>, aborted: bool)
    requires st.Valid()
    modifies st`invitations, st`nextId
    ensures st.Valid()
    ensures |acks| <= |invitees| && (aborted || |acks| == |invitees|)
    ensures Batch(st.invitations, st.nextId, aborted)
      == Sent(st.users, p, owner, now, Batch(old(st.invitations), old(st.nextId), false), invitees[..|acks|], acks)
  {
    ghost var b0 := Batch(st.invitations, st.nextId, false);
    acks, aborted := [], false;
    var i := 0;
    while i < |invitees| && !aborted
      invariant 0 <= i <= |invitees| && |acks| == i
      invariant st.Valid()
      invariant Batch(st.invitations, st.nextId, aborted) == Sent(st.users, p, owner, now, b0, invitees[..i], acks)
      decreases |invitees| - i
    {
      var e := invitees[i];
      var ack := Ack(false, false);
      match UserByEmail(st.users, e.email) {
        case None =>
        case Some(v) =>
          var invited := CheckUserInvited(st, p, v);
          if invited == Success(true) {
            aborted := true;
          } else {
            ack := ack.(dropped := invited.Success?);
            var ok := Attempt();
            if ok {
              st.invitations := st.invitations[st.nextId := NewInvitation(p, v, owner, e.role, now)];
            }
            ack := ack.(created := ok);
            st.nextId := st.nextId + 1;
          }
      }
      assert invitees[..i+1][..i] == invitees[..i];
      assert (acks + [ack])[..i] == acks;
      acks := acks + [ack];
      i := i + 1;
    }
  }

  /** An entry with an unknown email changes nothing and the loop goes on. */
  lemma UnknownEmailIsSkipped(users: map<Id, User>, p: Id, owner: Id, now: int, b: Batch, e: Invitee, a: Ack)
    requires forall k :: k in users ==> users[k].email != e.email
    ensures Step(users, p, owner, now, b, e, a) == b
  {
    assert UserByEmail(users, e.email).None?;
  }

  /**
   * An entry whose user's first invitation is not an 'exited' notice aborts
   * the batch without writing, and nothing is written after it.
   */
  lemma {:induction false} DuplicateAbortsBatch(users: map<Id, User>, p: Id, owner: Id, now: int, b: Batch,
                                               es: seq<Invitee>, acks: seq<Ack>, n: nat)
    requires |acks| == |es| && n < |es|
    requires var bn := Sent(users, p, owner, now, b, es[..n], acks[..n]);
      && !bn.stopped
      && UserByEmail(users, es[n].email).Some?
      && var first := First(InvitationsOf(bn.invs, p, UserByEmail(users, es[n].email).value));
         first.Some? && bn.invs[first.value].status != Exited
    ensures var bn := Sent(users, p, owner, now, b, es[..n], acks[..n]);
      Sent(users, p, owner, now, b, es, acks) == bn.(stopped := true)
    decreases |es|
  {
    var bn := Sent(users, p, owner, now, b, es[..n], acks[..n]);
    var m := |es| - 1;
    if m == n {
      assert es[..m] == es[..n] && acks[..m] == acks[..n];
    } else {
      assert es[..m][..n] == es[..n] && acks[..m][..n] == acks[..n];
      DuplicateAbortsBatch(users, p, owner, now, b, es[..m], acks[..m], n);
    }
  }

  /** What a batch may do to the invitations it starts from (`b0`) and to the ids from `b0.next` on. */
  ghost predicate OnlyAddsPending(p: Id, owner: Id, b0: Batch, r: Batch) {
    && b0.next <= r.next && Below(r.invs, r.next)
    && (forall k :: k in r.invs && k < b0.next ==> k in b0.invs && r.invs[k] == b0.invs[k])
    && (forall k :: k in r.invs && k >= b0.next ==>
          r.invs[k].projectId == p && r.invs[k].projectUserId == owner && r.invs[k].status == Pending)
    && (forall k :: k in b0.invs && k !in r.invs ==> b0.invs[k].status == Exited)
  }

  lemma StepOnlyAddsPending(users: map<Id, User>, p: Id, owner: Id, now: int, b: Batch, e: Invitee, a: Ack)
    requires Below(b.invs, b.next)
    ensures OnlyAddsPending(p, owner, b, Step(users, p, owner, now, b, e, a))
  {
  }

  /**
   * A batch only adds pending invitations of `p` from `owner` under new ids,
   * and only removes 'exited' notices; no other invitation changes.
   */
  lemma {:induction false} BatchAddsOnlyPendingInvitations(users: map<Id, User>, p: Id, owner: Id, now: int,
                                                          b: Batch, es: seq<Invitee>, acks: seq<Ack>)
    requires |acks| == |es| && Below(b.invs, b.next)
    ensures OnlyAddsPending(p, owner, b, Sent(users, p, owner, now, b, es, acks))
    decreases |es|
  {
    if es == [] {
    } else {
      var n := |es| - 1;
      var mid := Sent(users, p, owner, now, b, es[..n], acks[..n]);
      BatchAddsOnlyPendingInvitations(users, p, owner, now, b, es[..n], acks[..n]);
      StepOnlyAddsPending(users, p, owner, now, mid, es[n], acks[n]);
      var r := Sent(users, p, owner, now, b, es, acks);
      assert r == Step(users, p, owner, now, mid, es[n], acks[n]);
      forall k | k in r.invs && k >= b.next
        ensures r.invs[k].projectId == p && r.invs[k].projectUserId == owner && r.invs[k].status == Pending
      {
        if k < mid.next { assert k in mid.invs && r.invs[k] == mid.invs[k]; }
      }
      forall k | k in b.invs && k !in r.invs ensures b.invs[k].status == Exited {
        if k in mid.invs { assert mid.invs[k] == b.invs[k]; }
      }
    }
  }

  // ---------------------------------------------------------------------------
  // readAllMessages

  /** A message as the caller holds it: the document id and whether the caller saw it as read. */
  datatype Message = Message(id: Id, isRead: bool)

  /** The number of messages the caller holds as unread: the updates issued. */
  function UnreadCount(msgs: seq<Message>): nat
    decreases |msgs|
  {
    if msgs == [] then 0
    else UnreadCount(msgs[..|msgs| - 1]) + if msgs[|msgs| - 1].isRead then 0 else 1
  }

  /** The indices of the messages the caller holds as unread. */
  function Unread(msgs: seq<Message>): set<nat> {
    set i | 0 <= i < |msgs| && !msgs[i].isRead
  }

  /**
   * The collection after the updates of `msgs` that went through (those whose
   * index is not in `lost`), each applying `mark` to the named document.
   */
  function Marked<V>(m: map<Id, V>, msgs: seq<Message>, lost: set<nat>, mark: V -> V): (r: map<Id, V>)
    ensures r.Keys == m.Keys
    decreases |msgs|
  {
    if msgs == [] then m
    else
      var n := |msgs| - 1;
      var before := Marked(m, msgs[..n], lost, mark);
      var id := msgs[n].id;
      if !msgs[n].isRead && n !in lost && id in before then before[id := mark(before[id])] else before
  }

  /**
   * One `Promise.all` of mark-as-read updates: an update is issued for each
   * message held as unread, and a rejected one (or one naming a missing
   * document) is logged and skipped.
   */
  method MarkEach<V>(m: map<Id, V>, msgs: seq<Message>, mark: V -> V) returns (m': map<Id, V>, issued: nat, lost: set<nat>)
    ensures issued == UnreadCount(msgs)
    ensures lost <= Unread(msgs)
    ensures forall i :: i in Unread(msgs) && msgs[i].id !in m ==> i in lost
    ensures m' == Marked(m, msgs, lost, mark)
  {
    m', issued, lost := m, 0, {};
    var i := 0;
    while i < |msgs|
      invariant 0 <= i <= |msgs|
      invariant issued == UnreadCount(msgs[..i])
      invariant forall j :: j in lost ==> 0 <= j < i && !msgs[j].isRead
      invariant forall j :: 0 <= j < i && !msgs[j].isRead && msgs[j].id !in m ==> j in lost
      invariant m' == Marked(m, msgs[..i], lost, mark)
    {
      assert msgs[..i+1][..i] == msgs[..i];
      if !msgs[i].isRead {
        issued := issued + 1;
        var ok := Attempt();
        var id := msgs[i].id;
        if ok && id in m' {
          m' := m'[id := mark(m'[id])];
        } else {
          MarkedIgnores(m, msgs[..i], lost, mark, i);
          lost := lost + {i};
        }
      }
      i := i + 1;
    }
    assert msgs[..i] == msgs;
  }

  /** An index past the messages does not matter. */
  lemma {:induction false} MarkedIgnores<V>(m: map<Id, V>, msgs: seq<Message>, lost: set<nat>, mark: V -> V, i: nat)
    requires i >= |msgs|
    ensures Marked(m, msgs, lost + {i}, mark) == Marked(m, msgs, lost, mark)
    decreases |msgs|
  {
    if msgs != [] {
      MarkedIgnores(m, msgs[..|msgs| - 1], lost, mark, i);
    }
  }

  /** The documents named by the unread messages whose update went through. */
  ghost function Hit(msgs: seq<Message>, lost: set<nat>): set<Id> {
    set i | i in Unread(msgs) && i !in lost :: msgs[i].id
  }

  /**
   * With an idempotent `mark` (setting a flag), marking applies `mark` exactly
   * to the documents named by unread messages whose update went through, and
   * leaves every other document as it was.
   */
  lemma {:induction false} MarkedExactlyHits<V>(m: map<Id, V>, msgs: seq<Message>, lost: set<nat>, mark: V -> V)
    requires forall v: V :: mark(mark(v)) == mark(v)
    ensures var r := Marked(m, msgs, lost, mark);
      forall k :: k in m ==> r[k] == if k in Hit(msgs, lost) then mark(m[k]) else m[k]
    decreases |msgs|
  {
    if msgs != [] {
      var n := |msgs| - 1;
      MarkedExactlyHits(m, msgs[..n], lost, mark);
      var r := Marked(m, msgs, lost, mark);
      var before := Marked(m, msgs[..n], lost, mark);
      forall k | k in m ensures r[k] == if k in Hit(msgs, lost) then mark(m[k]) else m[k] {
        if k in Hit(msgs[..n], lost) {
          var i :| i in Unread(msgs[..n]) && i !in lost && msgs[..n][i].id == k;
          assert i in Unread(msgs) && msgs[i].id == k;
        }
        if k in Hit(msgs, lost) && !(!msgs[n].isRead && n !in lost && msgs[n].id == k) {
          var i :| i in Unread(msgs) && i !in lost && msgs[i].id == k;
          assert i in Unread(msgs[..n]) && msgs[..n][i].id == k;
        }
      }
    }
  }

  function MarkReadByInvited(inv: Invitation): Invitation { inv.(readByInvited := true) }
  function MarkReadByOwner(inv: Invitation): Invitation { inv.(readByOwner := true) }
  function MarkEventRead(ev: CalendarEvent): CalendarEvent { ev.(isRead := true) }

  /**
   * `readAllMessages`: marks the caller's unread invitations as read by the
   * invited user, then their unread requests as read by the owner, then their
   * unread calendar messages as read; messages held as read cause no write.
   * Returns the number of updates issued and, per list, the indices of the
   * rejected ones.
   */
  method ReadAllMessages(st: Store, invitations: seq<Message>, requests: seq<Message>, events: seq<Message>)
    returns (issued: nat, lostInvitations: set<nat>, lostRequests: set<nat>, lostEvents: set<nat>)
    requires st.Valid()
    modifies st`invitations, st`calendar
    ensures st.Valid()
    ensures issued == UnreadCount(invitations) + UnreadCount(requests) + UnreadCount(events)
    ensures lostInvitations <= Unread(invitations) && lostRequests <= Unread(requests) && lostEvents <= Unread(events)
    ensures st.invitations == Marked(Marked(old(st.invitations), invitations, lostInvitations, MarkReadByInvited),
                                     requests, lostRequests, MarkReadByOwner)
    ensures st.calendar == Marked(old(st.calendar), events, lostEvents, MarkEventRead)
  {
    var n1, n2, n3;
    st.invitations, n1, lostInvitations := MarkEach(st.invitations, invitations, MarkReadByInvited);
    st.invitations, n2, lostRequests := MarkEach(st.invitations, requests, MarkReadByOwner);
    st.calendar, n3, lostEvents := MarkEach(st.calendar, events, MarkEventRead);
    issued := n1 + n2 + n3;
  }

  /** Messages all held as read issue no update and change nothing. */
  lemma {:induction false} ReadMessagesWriteNothing<V>(m: map<Id, V>, msgs: seq<Message>, lost: set<nat>, mark: V -> V)
    requires forall i :: 0 <= i < |msgs| ==> msgs[i].isRead
    ensures UnreadCount(msgs) == 0 && Marked(m, msgs, lost, mark) == m
    decreases |msgs|
  {
    if msgs != [] {
      ReadMessagesWriteNothing(m, msgs[..|msgs| - 1], lost, mark);
    }
  }

  /** Marking is idempotent: reading the same messages again changes nothing more. */
  lemma MarkingIsIdempotent<V>(m: map<Id, V>, msgs: seq<Message>, lost: set<nat>, mark: V -> V)
    requires forall v: V :: mark(mark(v)) == mark(v)
    ensures Marked(Marked(m, msgs, lost, mark), msgs, lost, mark) == Marked(m, msgs, lost, mark)
  {
    var once := Marked(m, msgs, lost, mark);
    MarkedExactlyHits(m, msgs, lost, mark);
    MarkedExactlyHits(once, msgs, lost, mark);
  }

  /** `MarkReadByInvited` changes only the flag it names, and setting it twice is setting it once. */
  lemma MarkReadByInvitedSetsOnlyTheFlag(inv: Invitation)
    ensures MarkReadByInvited(inv).(readByInvited := inv.readByInvited) == inv
    ensures MarkReadByInvited(inv).readByInvited
    ensures MarkReadByInvited(MarkReadByInvited(inv)) == MarkReadByInvited(inv)
  {
  }

  // ---------------------------------------------------------------------------
  // updateInvitationStatus and deleteReadRequests

  /**
   * `updateInvitationStatus`: sets the status and marks the change unread for
   * the owner. A rejected update (or a missing document) is logged and
   * swallowed; `updated` says whether the write went through.
   */
  method UpdateInvitationStatus(st: Store, id: Id, status: string) returns (updated: bool)
    requires st.Valid()
    modifies st`invitations
    ensures st.Valid()
    ensures updated ==>
      && id in old(st.invitations)
      && st.invitations == old(st.invitations)[id := old(st.invitations)[id].(status := status, readByOwner := false)]
    ensures !updated ==> st.invitations == old(st.invitations)
  {
    var ok := Attempt();
    updated := ok && id in st.invitations;
    if updated {
      st.invitations := st.invitations[id := st.invitations[id].(status := status, readByOwner := false)];
    }
  }

  /**
   * The requests `deleteReadRequests` lists for sender `u` at instant `now`:
   * answered (not pending), read by the owner, and created strictly more than
   * a day ago.
   */
  function ReadRequests(invs: map<Id, Invitation>, u: Id, now: int): set<Id> {
    set k | k in invs && invs[k].projectUserId == u && invs[k].status != Pending && invs[k].readByOwner
                      && invs[k].createdAt < now - DayMillis
  }

  /**
   * `deleteReadRequests`: deletes the sender's answered, read requests older
   * than a day; a rejected deletion is logged and skipped. Returns the ids
   * whose deletion was rejected.
   */
  method DeleteReadRequests(st: Store, u: Id, now: int) returns (lost: set<Id>)
    requires st.Valid()
    modifies st`invitations
    ensures st.Valid()
    ensures lost <= ReadRequests(old(st.invitations), u, now)
    ensures st.invitations == old(st.invitations) - (ReadRequests(old(st.invitations), u, now) - lost)
  {
    var targets := ReadRequests(st.invitations, u, now);
    lost := {};
    if |targets| == 0 {
      return;
    }
    st.invitations, lost := DeleteEach(st.invitations, targets);
  }

  /**
   * The clean-up keeps every pending invitation, everything another user sent,
   * everything the owner has not read, and everything created within the last
   * day (a request exactly a day old included).
   */
  lemma CleanupKeepsLiveInvitations(invs: map<Id, Invitation>, u: Id, now: int, lost: set<Id>, k: Id)
    requires k in invs
    requires || invs[k].status == Pending || invs[k].projectUserId != u || !invs[k].readByOwner
             || invs[k].createdAt >= now - DayMillis
    ensures k in invs - (ReadRequests(invs, u, now) - lost)
  {
  }

  /**
   * An answer the owner has not yet seen survives the clean-up until the owner
   * reads it: `updateInvitationStatus` takes the invitation out of the
   * clean-up's reach.
   */
  lemma AnswerDefersCleanup(invs: map<Id, Invitation>, id: Id, status: string, u: Id, now: int)
    requires id in invs
    ensures id !in ReadRequests(invs[id := invs[id].(status := status, readByOwner := false)], u, now)
  {
  }
}
