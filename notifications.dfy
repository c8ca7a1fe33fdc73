/** The notification list of both portals: records shown newest first,
    with an unread flag, and the five list operations of the screen. */
module Notifications {
  import Seqs

  /** A sent notification. `kind` is its type (exam, result, system or
      message); `timestamp` is the label shown beside it. */
  datatype Notification = Notification(
    id: int,
    kind: string,
    title: string,
    message: string,
    from: string,
    to: string,
    timestamp: string,
    unread: bool)

  /** The fields the compose form submits. */
  datatype Draft = Draft(kind: string, title: string, message: string, from: string, to: string)

  /** The compose form's browser check: from, to, title and message are
      `required`, so each must be non-empty for the submit to reach
      addNotification. The type select always holds one of its options and
      is not checked here. */
  predicate ComposeSubmittable(d: Draft)
  {
    d.from != "" && d.to != "" && d.title != "" && d.message != ""
  }

  /** The number shown as "… unread notifications". */
  function UnreadCount(ns: seq<Notification>): (n: nat)
    ensures n <= |ns|
    ensures n == 0 <==> forall x :: x in ns ==> !x.unread
  {
    Seqs.Count(ns, (x: Notification) => x.unread)
  }

  /** markAllAsRead: same records in the same order, each one read, every
      other field as it was. */
  function MarkAllAsRead(ns: seq<Notification>): (r: seq<Notification>)
    ensures |r| == |ns|
    ensures forall i :: 0 <= i < |ns| ==> !r[i].unread && r[i].(unread := ns[i].unread) == ns[i]
  {
    if ns == [] then [] else [ns[0].(unread := false)] + MarkAllAsRead(ns[1..])
  }

  /** markAsRead(id): records with that id become read; every other record
      is untouched. */
  function MarkAsRead(ns: seq<Notification>, id: int): (r: seq<Notification>)
    ensures |r| == |ns|
    ensures forall i :: 0 <= i < |ns| ==>
      if ns[i].id == id then !r[i].unread && r[i].(unread := ns[i].unread) == ns[i] else r[i] == ns[i]
  {
    if ns == [] then []
    else [if ns[0].id == id then ns[0].(unread := false) else ns[0]] + MarkAsRead(ns[1..], id)
  }

  /** deleteNotification(id): an order-preserving filter on the id. */
  function DeleteNotification(ns: seq<Notification>, id: int): (r: seq<Notification>)
    ensures Seqs.IsSubsequence(r, ns)
    ensures forall x :: multiset(r)[x] == if x.id != id then multiset(ns)[x] else 0
  {
    Seqs.Filter(ns, (x: Notification) => x.id != id)
  }

  /** addNotification: the new record, unread and labelled "Just now", goes
      in front of the unchanged old list. */
  function AddNotification(ns: seq<Notification>, d: Draft, now: int): (r: seq<Notification>)
    ensures |r| == |ns| + 1 && r[1..] == ns
    ensures r[0].unread && r[0].timestamp == "Just now" && r[0].id == now
    ensures r[0].kind == d.kind && r[0].title == d.title && r[0].message == d.message
    ensures r[0].from == d.from && r[0].to == d.to
  {
    [Notification(now, d.kind, d.title, d.message, d.from, d.to, "Just now", true)] + ns
  }

  /** Each of the four required fields is needed on its own, and the type
      is free. */
  lemma ComposeRulesEachNeeded(d: Draft, kind: string)
    requires ComposeSubmittable(d)
    ensures !ComposeSubmittable(d.(from := "")) && !ComposeSubmittable(d.(to := ""))
    ensures !ComposeSubmittable(d.(title := "")) && !ComposeSubmittable(d.(message := ""))
    ensures ComposeSubmittable(d.(kind := kind))
  {
  }

  /** A record added through the compose form carries all four fields. */
  lemma ComposedRecordComplete(ns: seq<Notification>, d: Draft, now: int)
    requires ComposeSubmittable(d)
    ensures var r := AddNotification(ns, d, now)[0];
      r.from != "" && r.to != "" && r.title != "" && r.message != ""
  {
  }

  lemma MarkAllAsReadIdempotent(ns: seq<Notification>)
    ensures MarkAllAsRead(MarkAllAsRead(ns)) == MarkAllAsRead(ns)
  {
    var once := MarkAllAsRead(ns);
    var twice := MarkAllAsRead(once);
    forall i | 0 <= i < |ns| ensures twice[i] == once[i] {
      assert once[i].(unread := false) == once[i];
    }
  }

  /** After markAllAsRead the unread count is zero. */
  lemma MarkAllAsReadClearsCount(ns: seq<Notification>)
    ensures UnreadCount(MarkAllAsRead(ns)) == 0
  {
    var r := MarkAllAsRead(ns);
    forall x | x in r ensures !x.unread {
      var i :| 0 <= i < |r| && r[i] == x;
    }
  }

  /** An id that no record carries leaves the list as it is. */
  lemma MarkAsReadUnknownId(ns: seq<Notification>, id: int)
    requires forall x :: x in ns ==> x.id != id
    ensures MarkAsRead(ns, id) == ns
  {
    var r := MarkAsRead(ns, id);
    forall i | 0 <= i < |ns| ensures r[i] == ns[i] {
      assert ns[i] in ns;
    }
  }

  lemma MarkAsReadIdempotent(ns: seq<Notification>, id: int)
    ensures MarkAsRead(MarkAsRead(ns, id), id) == MarkAsRead(ns, id)
  {
    var once := MarkAsRead(ns, id);
    var twice := MarkAsRead(once, id);
    forall i | 0 <= i < |ns| ensures twice[i] == once[i] {
      assert once[i].(unread := false) == once[i] || once[i].id != id;
    }
  }

  lemma DeleteNotificationIdempotent(ns: seq<Notification>, id: int)
    ensures DeleteNotification(DeleteNotification(ns, id), id) == DeleteNotification(ns, id)
  {
    Seqs.FilterIdempotent(ns, (x: Notification) => x.id != id);
  }

  lemma DeleteUnknownIdKeepsList(ns: seq<Notification>, id: int)
    requires forall x :: x in ns ==> x.id != id
    ensures DeleteNotification(ns, id) == ns
  {
    Seqs.FilterKeepsAll(ns, (x: Notification) => x.id != id);
  }

  /** Adding a notification raises the unread count by exactly one. */
  lemma AddNotificationRaisesCount(ns: seq<Notification>, d: Draft, now: int)
    ensures UnreadCount(AddNotification(ns, d, now)) == UnreadCount(ns) + 1
  {
    var r := AddNotification(ns, d, now);
    assert r == [r[0]] + ns;
    Seqs.FilterAppend([r[0]], ns, (x: Notification) => x.unread);
  }
}
