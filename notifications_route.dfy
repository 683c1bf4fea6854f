/**
 * The caller's notifications: the 20 newest with the number of unread
 * ones, and marking one of them, or all of them, read.
 */
module NotificationsRoute {
  import opened Common
  import opened Store

  function ForUser(userId: string): Row<Notification> -> bool {
    (n: Row<Notification>) => n.data.userId == userId
  }

  /** The user's unread notifications, as a set of rows. */
  function UnreadOf(t: Tables, userId: string): set<Row<Notification>> {
    set n | n in t.notifications && n.data.userId == userId && !n.data.read
  }

  /** What the listing answers: the notifications and the unread count. */
  datatype Inbox = Inbox(items: seq<Row<Notification>>, unreadCount: nat)

  /** GET /api/notifications: the caller's 20 newest notifications, newest
      first, and the number of all the caller's unread ones (not only of
      those listed). */
  function ListNotifications(t: Tables, caller: Option<string>): (r: Reply<Inbox>)
    requires WellFormed(t)
    ensures caller.None? <==> r == Unauthorized()
    ensures r.Ok? ==> r.status == 200
    ensures r.Ok? ==> |r.value.items| <= 20 && Descending(r.value.items)
    ensures r.Ok? ==> forall n :: n in r.value.items ==> n in t.notifications && n.data.userId == caller.value
    ensures r.Ok? ==> forall n :: n in t.notifications && n.data.userId == caller.value && n !in r.value.items ==>
                        |r.value.items| == 20 && forall y :: y in r.value.items ==> y.createdAt > n.createdAt
    ensures r.Ok? ==> r.value.unreadCount == |UnreadOf(t, caller.value)|
  {
    if caller.None? then Unauthorized()
    else
      var items := FindManyTake(t.notifications, ForUser(caller.value), 20);
      var unread := Select(t.notifications, UnreadFilter(caller.value));
      PageKeepsNewest(t, caller.value);
      UnreadCounted(t, caller.value);
      Ok(200, Inbox(items, |unread|))
  }

  function UnreadFilter(userId: string): Row<Notification> -> bool {
    (n: Row<Notification>) => n.data.userId == userId && !n.data.read
  }

  lemma PageKeepsNewest(t: Tables, userId: string)
    requires Ascending(t.notifications)
    ensures var items := FindManyTake(t.notifications, ForUser(userId), 20);
            forall n :: n in t.notifications && n.data.userId == userId && n !in items ==>
              |items| == 20 && forall y :: y in items ==> y.createdAt > n.createdAt
  {
    var items := FindManyTake(t.notifications, ForUser(userId), 20);
    forall n | n in t.notifications && n.data.userId == userId && n !in items
      ensures |items| == 20 && forall y :: y in items ==> y.createdAt > n.createdAt
    {
      TakeKeepsNewest(t.notifications, ForUser(userId), 20, n);
    }
  }

  lemma UnreadCounted(t: Tables, userId: string)
    requires Ascending(t.notifications)
    ensures |Select(t.notifications, UnreadFilter(userId))| == |UnreadOf(t, userId)|
  {
    var unread := Select(t.notifications, UnreadFilter(userId));
    AscendingCount(unread);
    assert (set x | x in unread) == UnreadOf(t, userId);
  }

  /** PATCH /api/notifications with body field `notificationId`. A truthy
      id marks that notification read when it is the caller's; an id that
      names none of the caller's notifications makes the update throw,
      answered 500, and so does a truthy id that is not a string. Without
      a truthy id, every unread notification of the caller is marked read. */
  method MarkNotifications(db: Database, caller: Option<string>, notificationId: Field) returns (r: Reply<bool>)
    requires db.Valid()
    modifies db
    ensures db.Valid()
    ensures r.Err? ==> db.State() == old(db.State())
    ensures r.Ok? ==> r == Ok(200, true)
    ensures caller.None? ==> r == Unauthorized()
    ensures caller.Some? && notificationId.Other? && notificationId.truthy ==> r == Err(500, "Failed to update notification")
    ensures caller.Some? && notificationId.Str? && notificationId.s != "" ==>
              if exists n :: n in old(db.notifications) && n.id == notificationId.s && n.data.userId == caller.value then
                r.Ok? && db.State() == old(db.State()).(notifications := MarkRead(old(db.notifications), notificationId.s, caller.value))
              else
                r == Err(500, "Failed to update notification")
    ensures caller.Some? && !Truthy(notificationId) ==>
              r.Ok? && db.State() == old(db.State()).(notifications := MarkAllRead(old(db.notifications), caller.value))
  {
    if caller.None? {
      return Unauthorized();
    }
    if Truthy(notificationId) {
      if !notificationId.Str? {
        return Err(500, "Failed to update notification");
      }
      var found := db.MarkNotificationRead(notificationId.s, caller.value);
      if !found {
        return Err(500, "Failed to update notification");
      }
    } else {
      db.MarkAllNotificationsRead(caller.value);
    }
    r := Ok(200, true);
  }

  /** After marking all read, the user has no unread notification, and
      every other user's notifications are as they were. */
  lemma MarkAllReadClearsUnread(t: Tables, userId: string)
    ensures UnreadOf(t.(notifications := MarkAllRead(t.notifications, userId)), userId) == {}
    ensures forall other :: other != userId ==>
              UnreadOf(t.(notifications := MarkAllRead(t.notifications, userId)), other) == UnreadOf(t, other)
  {
    var rows := MarkAllRead(t.notifications, userId);
    var t' := t.(notifications := rows);
    forall n | n in rows ensures n.data.userId == userId ==> n.data.read {
      var i :| 0 <= i < |rows| && rows[i] == n;
    }
    forall other | other != userId ensures UnreadOf(t', other) == UnreadOf(t, other) {
      forall n | n in rows && n.data.userId == other ensures n in t.notifications {
        var i :| 0 <= i < |rows| && rows[i] == n;
      }
      forall n | n in t.notifications && n.data.userId == other ensures n in rows {
        var i :| 0 <= i < |t.notifications| && t.notifications[i] == n;
        assert rows[i] == n;
      }
    }
  }

  /** Marking one notification read touches no other user's rows and can
      only clear the owner's unread set by that one row. */
  lemma MarkReadScoped(t: Tables, id: string, userId: string)
    ensures forall other :: other != userId ==>
              UnreadOf(t.(notifications := MarkRead(t.notifications, id, userId)), other) == UnreadOf(t, other)
    ensures UnreadOf(t.(notifications := MarkRead(t.notifications, id, userId)), userId) ==
              set n | n in UnreadOf(t, userId) && n.id != id
  {
    var rows := MarkRead(t.notifications, id, userId);
    var t' := t.(notifications := rows);
    forall other | other != userId ensures UnreadOf(t', other) == UnreadOf(t, other) {
      forall n | n in rows && n.data.userId == other ensures n in t.notifications {
        var i :| 0 <= i < |rows| && rows[i] == n;
      }
      forall n | n in t.notifications && n.data.userId == other ensures n in rows {
        var i :| 0 <= i < |t.notifications| && t.notifications[i] == n;
        assert rows[i] == n;
      }
    }
    forall n | n in UnreadOf(t', userId) ensures n in UnreadOf(t, userId) && n.id != id {
      var i :| 0 <= i < |rows| && rows[i] == n;
    }
    forall n | n in UnreadOf(t, userId) && n.id != id ensures n in UnreadOf(t', userId) {
      var i :| 0 <= i < |t.notifications| && t.notifications[i] == n;
      assert rows[i] == n;
    }
  }

  /** Both forms of marking are idempotent. */
  lemma MarkingIdempotent(rows: seq<Row<Notification>>, id: string, userId: string)
    ensures MarkRead(MarkRead(rows, id, userId), id, userId) == MarkRead(rows, id, userId)
    ensures MarkAllRead(MarkAllRead(rows, userId), userId) == MarkAllRead(rows, userId)
  {
    var once, twice := MarkRead(rows, id, userId), MarkRead(MarkRead(rows, id, userId), id, userId);
    assert forall i :: 0 <= i < |rows| ==> twice[i] == once[i];
    var all1, all2 := MarkAllRead(rows, userId), MarkAllRead(MarkAllRead(rows, userId), userId);
    assert forall i :: 0 <= i < |rows| ==> all2[i] == all1[i];
  }
}
