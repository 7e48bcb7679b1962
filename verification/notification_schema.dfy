/**
 The notification record, its defaults (unread, medium priority, no email,
 expiry thirty days after creation), the per-user read receipts, and the
 notification collection with its time-to-live removal.
 */
module NotificationSchema {
  import opened Wrappers
  import opened Domain
  import ComponentSchema

  datatype Kind = LowStock | StaleStock | System | InventoryUpdate

  function KindName(k: Kind): string {
    match k
    case LowStock => "low_stock"
    case StaleStock => "stale_stock"
    case System => "system"
    case InventoryUpdate => "inventory_update"
  }

  /** The `type` enumeration check. */
  function ParseKind(s: string): (r: Option<Kind>)
    ensures r.Some? ==> KindName(r.value) == s
    ensures r.None? ==> s !in ["low_stock", "stale_stock", "system", "inventory_update"]
  {
    if s == "low_stock" then Some(LowStock)
    else if s == "stale_stock" then Some(StaleStock)
    else if s == "system" then Some(System)
    else if s == "inventory_update" then Some(InventoryUpdate)
    else None
  }

  lemma KindRoundTrip(k: Kind)
    ensures ParseKind(KindName(k)) == Some(k)
  {
  }

  datatype Priority = Low | Medium | High | Critical

  function PriorityName(p: Priority): string {
    match p
    case Low => "low"
    case Medium => "medium"
    case High => "high"
    case Critical => "critical"
  }

  /** The `priority` enumeration check. */
  function ParsePriority(s: string): (r: Option<Priority>)
    ensures r.Some? ==> PriorityName(r.value) == s
    ensures r.None? ==> s !in ["low", "medium", "high", "critical"]
  {
    if s == "low" then Some(Low)
    else if s == "medium" then Some(Medium)
    else if s == "high" then Some(High)
    else if s == "critical" then Some(Critical)
    else None
  }

  const DEFAULT_PRIORITY: Priority := Medium
  /** Lifetime of a notification: `30 * 24 * 60 * 60 * 1000` milliseconds. */
  const TTL: int := 30 * DAY

  /** One entry of `readBy`: who acknowledged the notification, and when. */
  datatype Receipt = Receipt(user: UserId, readAt: Time)

  /** A receipt as the schema builds it: `readAt` defaults to the current time. */
  function NewReceipt(user: UserId, readAt: Option<Time>, now: Time): (r: Receipt)
    ensures r.user == user
    ensures readAt.None? ==> r.readAt == now
  {
    Receipt(user, readAt.GetOr(now))
  }

  /** One component listed in a stale-stock report. */
  datatype StaleEntry = StaleEntry(id: ComponentId, name: string, partNumber: string, quantity: int, lastOutward: Time)

  /** The `data` sub-document. Only the paths the schema declares are stored. */
  datatype Payload = Payload(
    componentId: Option<ComponentId>,
    quantity: Option<int>,
    threshold: Option<int>,
    additionalInfo: Option<seq<StaleEntry>>)

  datatype Notification = Notification(
    kind: Kind,
    title: string,
    data: Payload,
    read: bool,
    readBy: seq<Receipt>,
    targetRoles: seq<Role>,
    priority: Priority,
    emailSent: bool,
    emailSentAt: Option<Time>,
    expiresAt: Time,
    createdAt: Time)

  /** The document `new Notification({...})` builds at time `now`. */
  function Make(kind: Kind, title: string, data: Payload, targetRoles: seq<Role>,
                priority: Option<Priority>, now: Time): (n: Notification)
    ensures n.kind == kind && n.data == data && n.targetRoles == targetRoles && n.createdAt == now
    ensures !n.read && n.readBy == [] && !n.emailSent && n.emailSentAt.None?
    ensures n.priority == (if priority.Some? then priority.value else DEFAULT_PRIORITY)
    ensures n.expiresAt == n.createdAt + TTL
  {
    Notification(kind, title, data, false, [], targetRoles, priority.GetOr(DEFAULT_PRIORITY),
                 false, None, now + TTL, now)
  }

  /** The time-to-live index removes a notification once `expiresAt` is reached. */
  predicate Expired(n: Notification, now: Time) {
    n.expiresAt <= now
  }

  /** The notification collection; identifiers come from an increasing counter. */
  datatype Inbox = Inbox(items: map<NotificationId, Notification>, nextId: NotificationId)

  predicate WellNumbered(inbox: Inbox) {
    forall k :: k in inbox.items ==> k < inbox.nextId
  }

  /** Saves `news` in order, under fresh identifiers. */
  function Publish(inbox: Inbox, news: seq<Notification>): (r: Inbox)
    ensures r.nextId == inbox.nextId + |news|
    ensures forall k :: k in r.items <==> k in inbox.items || inbox.nextId <= k < r.nextId
    ensures forall i :: 0 <= i < |news| ==> r.items[inbox.nextId + i] == news[i]
    ensures forall k :: k in inbox.items && !(inbox.nextId <= k < r.nextId) ==> r.items[k] == inbox.items[k]
    ensures WellNumbered(inbox) ==> WellNumbered(r)
    ensures WellNumbered(inbox) ==> forall k :: k in inbox.items ==> r.items[k] == inbox.items[k]
    decreases |news|
  {
    if |news| == 0 then inbox
    else
      var next := Inbox(inbox.items[inbox.nextId := news[0]], inbox.nextId + 1);
      var r := Publish(next, news[1..]);
      PublishShift(inbox, news, next, r);
      r
  }

  lemma PublishShift(inbox: Inbox, news: seq<Notification>, next: Inbox, r: Inbox)
    requires |news| > 0
    requires next == Inbox(inbox.items[inbox.nextId := news[0]], inbox.nextId + 1)
    requires r.nextId == next.nextId + |news| - 1
    requires forall k :: k in r.items <==> k in next.items || next.nextId <= k < r.nextId
    requires forall i :: 0 <= i < |news| - 1 ==> r.items[next.nextId + i] == news[1..][i]
    requires forall k :: k in next.items && !(next.nextId <= k < r.nextId) ==> r.items[k] == next.items[k]
    ensures forall i :: 0 <= i < |news| ==> r.items[inbox.nextId + i] == news[i]
  {
    forall i | 0 <= i < |news|
      ensures r.items[inbox.nextId + i] == news[i]
    {
      if i > 0 {
        assert r.items[next.nextId + (i - 1)] == news[1..][i - 1];
      }
    }
  }

  /** The time-to-live sweep at time `now`. */
  function Sweep(inbox: Inbox, now: Time): (r: Inbox)
    ensures r.nextId == inbox.nextId
    ensures forall k :: k in r.items <==> k in inbox.items && !Expired(inbox.items[k], now)
    ensures forall k :: k in r.items ==> r.items[k] == inbox.items[k]
  {
    Inbox(map k | k in inbox.items && !Expired(inbox.items[k], now) :: inbox.items[k], inbox.nextId)
  }
}
