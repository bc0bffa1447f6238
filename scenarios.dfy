/**
 * Concrete runs of the model that show behaviours of the workflows which the
 * general lemmas only imply.
 */
module Scenarios {
  import opened Wrappers
  import opened Documents
  import opened Clock
  import opened Invitations
  import opened Calendar

  /**
   * A member who left a project with two others still in it is the subject of
   * two 'exited' notices. Inviting them again twice (two batches, every write
   * accepted) consumes one notice each time, because `checkUserInvited` looks
   * at the first match only, and leaves two pending invitations for them.
   */
  lemma ReinvitingAfterDepartureTwice()
    ensures var users := map[7 := User("ann", "ann@example.com")];
      var notice := Invitation(5, 7, 8, "member", Exited, false, false, 0);
      var b0 := Batch(map[1 := notice, 2 := notice.(projectUserId := 9)], 3, false);
      var e := Invitee("ann@example.com", "member");
      var b2 := Step(users, 5, 8, 10, Step(users, 5, 8, 10, b0, e, Ack(true, true)), e, Ack(true, true));
      && !b2.stopped
      && b2.invs == map[3 := NewInvitation(5, 7, 8, "member", 10), 4 := NewInvitation(5, 7, 8, "member", 10)]
  {
    var users := map[7 := User("ann", "ann@example.com")];
    var notice := Invitation(5, 7, 8, "member", Exited, false, false, 0);
    var b0 := Batch(map[1 := notice, 2 := notice.(projectUserId := 9)], 3, false);
    var e := Invitee("ann@example.com", "member");
    assert (set k | k in users && users[k].email == e.email) == {7};
    assert UserByEmail(users, e.email) == Some(7);
    assert InvitationsOf(b0.invs, 5, 7) == {1, 2};
    assert First(InvitationsOf(b0.invs, 5, 7)) == Some(1);
    var b1 := Step(users, 5, 8, 10, b0, e, Ack(true, true));
    assert b1.invs == map[2 := notice.(projectUserId := 9), 3 := NewInvitation(5, 7, 8, "member", 10)];
    assert InvitationsOf(b1.invs, 5, 7) == {2, 3};
    assert First(InvitationsOf(b1.invs, 5, 7)) == Some(2);
  }

  /**
   * A booking from 10:00 on one day to 09:00 two days later meets an event from
   * 12:00 to 13:00 on the day in between, but the per-document test compares
   * times of day only ("12:00" is not before "09:00"), so the event does not
   * block the booking.
   */
  lemma MultiDayBookingIgnoresInnerEvent()
    ensures var req := Request(0, 2 * DayMillis, "10:00", "09:00", "", "");
      var ev := CalendarEvent(1, 2, 2 * DayMillis + 720 * MinuteMillis, 2 * DayMillis + 780 * MinuteMillis,
                              "", "", false, false);
      && SlotOf(req).Some?
      && Meets(ev, 1, SlotOf(req).value)
      && Blockers(map[4 := ev], 1, req, SlotOf(req).value) == {}
  {
    var req := Request(0, 2 * DayMillis, "10:00", "09:00", "", "");
    var ev := CalendarEvent(1, 2, 2 * DayMillis + 720 * MinuteMillis, 2 * DayMillis + 780 * MinuteMillis,
                            "", "", false, false);
    assert Parse("10:00") == Some(600);
    assert Parse("09:00") == Some(540);
    var slot := SlotOf(req).value;
    assert slot == Slot(DayMillis + 600 * MinuteMillis, 3 * DayMillis + 540 * MinuteMillis);
    AtMinute(2 * DayMillis, 720);
    assert Printed(ev.start) == Format(720);
    FormatOrder(720, 540);
    assert "09:00" == Format(540);
    assert !SameHours(ev, req);
  }
}
