/**
 * Calendar workflow: booking an event for one user or for every member of a
 * project, the overlap test that guards a booking, toggling an event's
 * reminder, and the removal of a user's past events.
 *
 * A booking request names two dates and two `"HH:MM"` times. The stored
 * bounds are the requested UTC day and time moved on by exactly one day. The
 * overlap test has two stages: a store query keeps the user's events whose
 * stored interval meets the new one, and of those an event blocks the booking
 * only when its printed start is before the requested end time and its
 * printed end is after the requested start time, compared as strings.
 */
module Calendar {
  import opened Wrappers
  import opened Documents
  import opened DocumentStore
  import opened Clock

  /** Seven days in milliseconds: the age after which a finished event is removed. */
  const WeekMillis: int := 7 * DayMillis

  /** A booking: two dates (instants), two `"HH:MM"` times, and the event's content and type. */
  datatype Request = Request(startDate: int, endDate: int, startTime: string, endTime: string,
                             content: string, kind: string)

  /** The two instants an event is stored with. */
  datatype Slot = Slot(start: int, end: int)

  /**
   * The stored bound for a date and a time of day: the date's UTC day at that
   * time, one day later.
   */
  function Bound(date: int, minute: nat): (t: int)
    requires minute < MinutesPerDay
    ensures DayStart(t) == DayStart(date) + DayMillis
    ensures MinuteOfDay(t) == minute
    ensures t % MinuteMillis == 0
  {
    AtMinute(DayStart(date) + DayMillis, minute);
    DayStart(date) + DayMillis + minute * MinuteMillis
  }

  /** The bounds a request is stored with, or `None` when a time does not parse. */
  function SlotOf(req: Request): (r: Option<Slot>)
    ensures r.None? <==> Parse(req.startTime).None? || Parse(req.endTime).None?
  {
    match (Parse(req.startTime), Parse(req.endTime))
    case (Some(s), Some(e)) => Some(Slot(Bound(req.startDate, s), Bound(req.endDate, e)))
    case _ => None
  }

  /** The `"HH:MM"` text the workflow prints for a stored instant. */
  function Printed(t: int): string {
    Format(MinuteOfDay(t))
  }

  /** The overlap query: an event of user `u` that starts before the slot ends and ends after it starts. */
  predicate Meets(ev: CalendarEvent, u: Id, slot: Slot) {
    ev.userId == u && ev.start < slot.end && ev.end > slot.start
  }

  /** The per-document test: printed start before the requested end, printed end after the requested start. */
  predicate SameHours(ev: CalendarEvent, req: Request) {
    LexLess(Printed(ev.start), req.endTime) && LexLess(req.startTime, Printed(ev.end))
  }

  /** The documents the overlap query returns. */
  function Candidates(cal: map<Id, CalendarEvent>, u: Id, slot: Slot): set<Id> {
    set k | k in cal && Meets(cal[k], u, slot)
  }

  /** The events that make a booking fail. */
  function Blockers(cal: map<Id, CalendarEvent>, u: Id, req: Request, slot: Slot): set<Id> {
    set k | k in cal && Meets(cal[k], u, slot) && SameHours(cal[k], req)
  }

  /** None of the first `n` listed events passes the per-document test. */
  ghost predicate NoneClash(cal: map<Id, CalendarEvent>, req: Request, docs: seq<Id>, n: nat)
    requires n <= |docs| && forall j :: 0 <= j < |docs| ==> docs[j] in cal
    decreases n
  {
    n == 0 || (NoneClash(cal, req, docs, n - 1) && !SameHours(cal[docs[n - 1]], req))
  }

  lemma {:induction false} NoneClashAll(cal: map<Id, CalendarEvent>, req: Request, docs: seq<Id>, n: nat, j: nat)
    requires n <= |docs| && forall j :: 0 <= j < |docs| ==> docs[j] in cal
    requires NoneClash(cal, req, docs, n) && j < n
    ensures !SameHours(cal[docs[j]], req)
    decreases n
  {
    if j < n - 1 {
      NoneClashAll(cal, req, docs, n - 1, j);
    }
  }

  /** The overlap check of `saveCalendarInformation`: walks the query result and stops at the first blocker. */
  method FindBlocker(cal: map<Id, CalendarEvent>, u: Id, req: Request, slot: Slot) returns (busy: bool)
    ensures busy <==> Blockers(cal, u, req, slot) != {}
  {
    var cands := Candidates(cal, u, slot);
    var docs := Listed(cands);
    ListedMembers(cands);
    var i := 0;
    while i < |docs|
      invariant 0 <= i <= |docs|
      invariant NoneClash(cal, req, docs, i)
    {
      if SameHours(cal[docs[i]], req) {
        assert docs[i] in Blockers(cal, u, req, slot);
        return true;
      }
      i := i + 1;
    }
    forall k | k in cands ensures !SameHours(cal[k], req) {
      var j :| 0 <= j < |docs| && docs[j] == k;
      NoneClashAll(cal, req, docs, i, j);
    }
    assert Blockers(cal, u, req, slot) == {};
    return false;
  }

  /** An event as `saveCalendarInformation` creates it; `reminded` and `isRead` take the collection's defaults. */
  function NewEvent(u: Id, p: Id, req: Request, slot: Slot): CalendarEvent {
    CalendarEvent(u, p, slot.start, slot.end, req.content, req.kind, false, false)
  }

  /** A calendar and id counter after a booking, and what the booking reported. */
  datatype Booked = Booked(calendar: map<Id, CalendarEvent>, next: nat, result: Result<Id, Error>)

  /**
   * `saveCalendarInformation` for user `u` in project `p`, from the calendar
   * `cal` and the id counter `next`; `created` is whether the store accepts the
   * write, when it is reached.
   */
  function Saved(cal: map<Id, CalendarEvent>, next: nat, u: Id, p: Id, req: Request, created: bool): Booked {
    match SlotOf(req)
    case None => Booked(cal, next, Failure(InvalidInput))
    case Some(slot) =>
      if Blockers(cal, u, req, slot) != {} then Booked(cal, next, Failure(Overlap))
      else if created then Booked(cal[next := NewEvent(u, p, req, slot)], next + 1, Success(next))
      else Booked(cal, next + 1, Failure(Remote))
  }

  /**
   * `saveCalendarInformation`: a time that does not parse fails before any
   * read, a blocking event fails the booking, and otherwise the event is
   * created under a fresh id unless the store rejects the write.
   */
  method SaveCalendarInformation(st: Store, u: Id, p: Id, req: Request) returns (r: Result<Id, Error>, created: bool)
    requires st.Valid()
    modifies st`calendar, st`nextId
    ensures st.Valid()
    ensures Booked(st.calendar, st.nextId, r) == Saved(old(st.calendar), old(st.nextId), u, p, req, created)
  {
    created := true;
    var slot := SlotOf(req);
    if slot.None? {
      return Failure(InvalidInput), created;
    }
    var busy := FindBlocker(st.calendar, u, req, slot.value);
    if busy {
      return Failure(Overlap), created;
    }
    var id := st.nextId;
    st.nextId := st.nextId + 1;
    created := Attempt();
    if created {
      st.calendar := st.calendar[id := NewEvent(u, p, req, slot.value)];
      r := Success(id);
    } else {
      r := Failure(Remote);
    }
  }

  /** What a booking reports: which test refused it, if any. */
  lemma SaveVerdicts(cal: map<Id, CalendarEvent>, next: nat, u: Id, p: Id, req: Request, created: bool)
    ensures var b := Saved(cal, next, u, p, req, created);
      && (b.result == Failure(InvalidInput) <==> SlotOf(req).None?)
      && (b.result == Failure(Overlap) <==> SlotOf(req).Some? && Blockers(cal, u, req, SlotOf(req).value) != {})
      && (b.result.Success? <==> SlotOf(req).Some? && Blockers(cal, u, req, SlotOf(req).value) == {} && created)
  {
  }

  /** What a booking writes: nothing when it fails, its event under the fresh id `next` when it succeeds. */
  lemma SaveWrites(cal: map<Id, CalendarEvent>, next: nat, u: Id, p: Id, req: Request, created: bool)
    requires Below(cal, next)
    ensures var b := Saved(cal, next, u, p, req, created);
      && Below(b.calendar, b.next) && next <= b.next
      && (b.result.Failure? ==> b.calendar == cal)
      && (b.result.Success? ==>
            && SlotOf(req).Some? && b.result.value == next && next !in cal
            && b.calendar == cal[next := NewEvent(u, p, req, SlotOf(req).value)])
  {
  }

  /**
   * A stored event is on the day after the requested date, and its bounds
   * print as the requested times.
   */
  lemma StoredBoundsShowRequest(req: Request, slot: Slot)
    requires SlotOf(req) == Some(slot)
    ensures DayStart(slot.start) == DayStart(req.startDate) + DayMillis
    ensures DayStart(slot.end) == DayStart(req.endDate) + DayMillis
    ensures Printed(slot.start) == req.startTime && Printed(slot.end) == req.endTime
  {
    ParseFormat(req.startTime);
    ParseFormat(req.endTime);
  }

  /**
   * For a request whose times parse, the string test is the minute test: an
   * event blocks iff it meets the slot and its time-of-day interval overlaps
   * the requested one.
   */
  lemma BlockersOverlapInMinutes(cal: map<Id, CalendarEvent>, u: Id, req: Request, slot: Slot, k: Id)
    requires SlotOf(req) == Some(slot)
    ensures k in Blockers(cal, u, req, slot) <==>
      && k in cal && Meets(cal[k], u, slot)
      && MinuteOfDay(cal[k].start) < MinuteOfDay(slot.end)
      && MinuteOfDay(slot.start) < MinuteOfDay(cal[k].end)
  {
    StoredBoundsShowRequest(req, slot);
    if k in cal {
      FormatOrder(MinuteOfDay(cal[k].start), MinuteOfDay(slot.end));
      FormatOrder(MinuteOfDay(slot.start), MinuteOfDay(cal[k].end));
    }
  }

  /** Back-to-back slots: an event that ends when the new one starts, or starts when it ends, does not block. */
  lemma BackToBackIsAccepted(cal: map<Id, CalendarEvent>, u: Id, req: Request, slot: Slot, k: Id)
    requires SlotOf(req) == Some(slot) && k in cal
    requires MinuteOfDay(cal[k].end) <= MinuteOfDay(slot.start) || MinuteOfDay(slot.end) <= MinuteOfDay(cal[k].start)
    ensures k !in Blockers(cal, u, req, slot)
  {
    BlockersOverlapInMinutes(cal, u, req, slot, k);
  }

  // ---------------------------------------------------------------------------
  // saveCalendarProjectInformation

  /** A calendar and id counter after several bookings, and what each reported. */
  datatype Booking = Booking(calendar: map<Id, CalendarEvent>, next: nat, results: seq<Result<Id, Error>>)

  /** The same request booked for each of `users` in turn; `created[i]` is the store's answer to the i-th write. */
  function Scheduled(cal: map<Id, CalendarEvent>, next: nat, users: seq<Id>, p: Id, req: Request,
                     created: seq<bool>): (b: Booking)
    requires |created| == |users|
    ensures |b.results| == |users|
    decreases |users|
  {
    if users == [] then Booking(cal, next, [])
    else
      var n := |users| - 1;
      var b := Scheduled(cal, next, users[..n], p, req, created[..n]);
      var s := Saved(b.calendar, b.next, users[n], p, req, created[n]);
      Booking(s.calendar, s.next, b.results + [s.result])
  }

  /**
   * `saveCalendarProjectInformation`: books the request for every id in the
   * project's `usersIds`, one after the other; a failed booking does not stop
   * the others. A missing project books nothing. Returns each booking's
   * outcome, which the caller does not see.
   */
  method SaveCalendarProjectInformation(st: Store, p: Id, req: Request)
    returns (results: seq<Result<Id, Error>>, created: seq<bool>)
    requires st.Valid()
    modifies st`calendar, st`nextId
    ensures st.Valid()
    ensures p !in st.projects ==>
      results == [] && st.calendar == old(st.calendar) && st.nextId == old(st.nextId)
    ensures p in st.projects ==>
      && |created| == |st.projects[p].usersIds|
      && Booking(st.calendar, st.nextId, results)
         == Scheduled(old(st.calendar), old(st.nextId), st.projects[p].usersIds, p, req, created)
  {
    results, created := [], [];
    if p !in st.projects {
      return;
    }
    var users := st.projects[p].usersIds;
    var i := 0;
    while i < |users|
      invariant 0 <= i <= |users| && |created| == i
      invariant st.Valid()
      invariant Booking(st.calendar, st.nextId, results)
                == Scheduled(old(st.calendar), old(st.nextId), users[..i], p, req, created)
    {
      var r, c := SaveCalendarInformation(st, users[i], p, req);
      assert users[..i + 1][..i] == users[..i];
      assert (created + [c])[..i] == created;
      results, created := results + [r], created + [c];
      i := i + 1;
    }
    assert users[..i] == users;
  }

  /**
   * A round of bookings keeps every old event, and every new event is the
   * request booked for one of `users`.
   */
  lemma {:induction false} ScheduleAddsMembersEvents(cal: map<Id, CalendarEvent>, next: nat, users: seq<Id>,
                                                    p: Id, req: Request, created: seq<bool>)
    requires |created| == |users| && Below(cal, next)
    ensures var b := Scheduled(cal, next, users, p, req, created);
      && Below(b.calendar, b.next) && next <= b.next
      && (forall k :: k in cal ==> k in b.calendar && b.calendar[k] == cal[k])
      && (forall k :: k in b.calendar && k !in cal ==>
            && SlotOf(req).Some? && b.calendar[k].userId in users
            && b.calendar[k] == NewEvent(b.calendar[k].userId, p, req, SlotOf(req).value))
    decreases |users|
  {
    if users != [] {
      var n := |users| - 1;
      var pre := Scheduled(cal, next, users[..n], p, req, created[..n]);
      ScheduleAddsMembersEvents(cal, next, users[..n], p, req, created[..n]);
      SaveWrites(pre.calendar, pre.next, users[n], p, req, created[n]);
      var s := Saved(pre.calendar, pre.next, users[n], p, req, created[n]);
      assert Scheduled(cal, next, users, p, req, created).calendar == s.calendar;
      forall k | k in s.calendar && k !in cal
        ensures SlotOf(req).Some? && s.calendar[k].userId in users
        ensures s.calendar[k] == NewEvent(s.calendar[k].userId, p, req, SlotOf(req).value)
      {
        if k !in pre.calendar {
          assert s.calendar[k].userId == users[n];
        } else {
          assert pre.calendar[k].userId in users[..n];
        }
      }
    }
  }

  /** Each successful booking of a round names the new event of its member. */
  lemma {:induction false} ScheduleReportsBookedIds(cal: map<Id, CalendarEvent>, next: nat, users: seq<Id>,
                                                   p: Id, req: Request, created: seq<bool>)
    requires |created| == |users| && Below(cal, next)
    ensures var b := Scheduled(cal, next, users, p, req, created);
      forall i :: 0 <= i < |users| && b.results[i].Success? ==>
        && SlotOf(req).Some? && b.results[i].value in b.calendar && b.results[i].value !in cal
        && b.calendar[b.results[i].value] == NewEvent(users[i], p, req, SlotOf(req).value)
    decreases |users|
  {
    if users != [] {
      var n := |users| - 1;
      var pre := Scheduled(cal, next, users[..n], p, req, created[..n]);
      ScheduleReportsBookedIds(cal, next, users[..n], p, req, created[..n]);
      ScheduleAddsMembersEvents(cal, next, users[..n], p, req, created[..n]);
      SaveWrites(pre.calendar, pre.next, users[n], p, req, created[n]);
      var s := Saved(pre.calendar, pre.next, users[n], p, req, created[n]);
      var b := Scheduled(cal, next, users, p, req, created);
      assert b.calendar == s.calendar && b.results == pre.results + [s.result];
      forall i | 0 <= i < |users| && b.results[i].Success?
        ensures SlotOf(req).Some? && b.results[i].value in b.calendar && b.results[i].value !in cal
        ensures b.calendar[b.results[i].value] == NewEvent(users[i], p, req, SlotOf(req).value)
      {
        if i < n {
          assert b.results[i] == pre.results[i];
          assert users[i] == users[..n][i];
          assert b.results[i].value < pre.next;
        }
      }
    }
  }

  /** Events of other users never block a booking for `u`. */
  lemma BlockersIgnoreOthers(cal: map<Id, CalendarEvent>, cal': map<Id, CalendarEvent>, u: Id, req: Request, slot: Slot)
    requires forall k :: k in cal ==> k in cal' && cal'[k] == cal[k]
    requires forall k :: k in cal' && k !in cal ==> cal'[k].userId != u
    ensures Blockers(cal', u, req, slot) == Blockers(cal, u, req, slot)
  {
  }

  /** When the last member is listed only once, the earlier bookings of the round do not block theirs. */
  lemma LastMemberSeesOwnCalendar(cal: map<Id, CalendarEvent>, next: nat, users: seq<Id>,
                                  p: Id, req: Request, created: seq<bool>, slot: Slot)
    requires |created| == |users| && Below(cal, next) && users != []
    requires forall j :: 0 <= j < |users| - 1 ==> users[j] != users[|users| - 1]
    ensures var n := |users| - 1;
      Blockers(Scheduled(cal, next, users[..n], p, req, created[..n]).calendar, users[n], req, slot)
      == Blockers(cal, users[n], req, slot)
  {
    var n := |users| - 1;
    var pre := Scheduled(cal, next, users[..n], p, req, created[..n]);
    ScheduleAddsMembersEvents(cal, next, users[..n], p, req, created[..n]);
    forall k | k in pre.calendar && k !in cal ensures pre.calendar[k].userId != users[n] {
      var j :| 0 <= j < n && users[..n][j] == pre.calendar[k].userId;
    }
    BlockersIgnoreOthers(cal, pre.calendar, users[n], req, slot);
  }

  /**
   * When the project lists each member once, every member's booking is judged
   * against that member's calendar as it was before the round: a time that does
   * not parse fails every booking, and a booking is refused as busy iff one of
   * the member's existing events blocks it.
   */
  lemma {:induction false} ScheduleChecksEachMemberAlone(cal: map<Id, CalendarEvent>, next: nat, users: seq<Id>,
                                                        p: Id, req: Request, created: seq<bool>)
    requires |created| == |users| && Below(cal, next) && Distinct(users)
    ensures var b := Scheduled(cal, next, users, p, req, created);
      forall i :: 0 <= i < |users| ==>
        && (b.results[i] == Failure(InvalidInput) <==> SlotOf(req).None?)
        && (b.results[i] == Failure(Overlap) <==>
              SlotOf(req).Some? && Blockers(cal, users[i], req, SlotOf(req).value) != {})
    decreases |users|
  {
    if users != [] {
      var n := |users| - 1;
      var pre := Scheduled(cal, next, users[..n], p, req, created[..n]);
      assert Distinct(users[..n]);
      ScheduleChecksEachMemberAlone(cal, next, users[..n], p, req, created[..n]);
      if SlotOf(req).Some? {
        LastMemberSeesOwnCalendar(cal, next, users, p, req, created, SlotOf(req).value);
      }
      SaveVerdicts(pre.calendar, pre.next, users[n], p, req, created[n]);
      var s := Saved(pre.calendar, pre.next, users[n], p, req, created[n]);
      var b := Scheduled(cal, next, users, p, req, created);
      assert b.results == pre.results + [s.result];
      forall i | 0 <= i < |users|
        ensures b.results[i] == Failure(InvalidInput) <==> SlotOf(req).None?
        ensures b.results[i] == Failure(Overlap) <==>
                  SlotOf(req).Some? && Blockers(cal, users[i], req, SlotOf(req).value) != {}
      {
        if i < n {
          assert b.results[i] == pre.results[i] && users[i] == users[..n][i];
        } else {
          assert b.results[i] == s.result;
        }
      }
    }
  }

  // ---------------------------------------------------------------------------
  // changeUserCalendarReminded and deletePastUserCalendar

  /** An event after `changeUserCalendarReminded(id, status)`. */
  function Reminded(ev: CalendarEvent, status: bool): CalendarEvent {
    ev.(reminded := status, isRead := false)
  }

  /** Changing the reminder sets the flag, makes the event unread again, and keeps everything else. */
  lemma RemindedChangesOnlyFlags(ev: CalendarEvent, status: bool)
    ensures var e := Reminded(ev, status);
      && e.reminded == status && !e.isRead
      && e.userId == ev.userId && e.projectId == ev.projectId && e.start == ev.start && e.end == ev.end
      && e.content == ev.content && e.kind == ev.kind
  {
  }

  /** `changeUserCalendarReminded`: a missing event or a rejected update fails and writes nothing. */
  method ChangeUserCalendarReminded(st: Store, id: Id, status: bool) returns (r: Outcome<Error>)
    requires st.Valid()
    modifies st`calendar
    ensures st.Valid()
    ensures r.Pass? ==> id in old(st.calendar) && st.calendar == old(st.calendar)[id := Reminded(old(st.calendar)[id], status)]
    ensures r.Fail? ==> r.error == Remote && st.calendar == old(st.calendar)
  {
    var ok := Attempt();
    if ok && id in st.calendar {
      st.calendar := st.calendar[id := Reminded(st.calendar[id], status)];
      r := Pass;
    } else {
      r := Fail(Remote);
    }
  }

  /** The events `deletePastUserCalendar` lists: the user's events that ended more than a week before `now`. */
  function PastEvents(cal: map<Id, CalendarEvent>, u: Id, now: int): set<Id> {
    set k | k in cal && cal[k].userId == u && cal[k].end < now - WeekMillis
  }

  /**
   * `deletePastUserCalendar`: deletes the listed events all at once and
   * reports how many were listed; a rejected deletion fails the call, after the
   * other deletions went through.
   */
  method DeletePastUserCalendar(st: Store, u: Id, now: int) returns (r: Result<nat, Error>, lost: set<Id>)
    requires st.Valid()
    modifies st`calendar
    ensures st.Valid()
    ensures lost <= PastEvents(old(st.calendar), u, now)
    ensures st.calendar == old(st.calendar) - (PastEvents(old(st.calendar), u, now) - lost)
    ensures r.Success? <==> lost == {}
    ensures r.Success? ==> r.value == |PastEvents(old(st.calendar), u, now)|
    ensures r.Failure? ==> r.error == Remote
  {
    var past := PastEvents(st.calendar, u, now);
    st.calendar, lost := DeleteEach(st.calendar, past);
    if lost == {} {
      r := Success(|past|);
    } else {
      r := Failure(Remote);
    }
  }

  /**
   * The clean-up keeps other users' events, events that ended within the last
   * week and events whose deletion was rejected, and nothing else; when no
   * deletion was rejected, no past event of the user remains.
   */
  lemma PastCleanupKeepsRecent(cal: map<Id, CalendarEvent>, u: Id, now: int, lost: set<Id>)
    requires lost <= PastEvents(cal, u, now)
    ensures var kept := cal - (PastEvents(cal, u, now) - lost);
      && (forall k :: k in kept <==> k in cal && (cal[k].userId != u || cal[k].end >= now - WeekMillis || k in lost))
      && (lost == {} ==> PastEvents(kept, u, now) == {})
  {
  }
}
