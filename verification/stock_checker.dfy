/**
 The stock-health scanner: the periodic low-stock and stale-stock checks.
 Each check reads the catalog and the notification collection and returns the
 collection with the alerts it saved; it never writes a component. Sending
 mail is the oracle `send`, whose answer is the mailer's boolean "sent".
 */
module StockChecker {
  import opened Wrappers
  import opened Domain
  import opened ComponentSchema
  import opened NotificationSchema
  import Keys

  type Catalog = map<ComponentId, Component>

  /** The low-stock alert for one component is not repeated within a day. */
  const ALERT_WINDOW: int := DAY

  const LOW_STOCK_TITLE: string := "Low Stock Alert"
  const LOW_STOCK_ROLES: seq<Role> := [Admin, LabTechnician]
  const STALE_TITLE: string := "Stale Stock Report"
  const STALE_ROLES: seq<Role> := [Admin]

  /** A notification as saved, then marked as mailed when the mailer reports success. */
  function Mailed(n: Notification, emailed: bool, now: Time): (m: Notification)
    ensures emailed ==> m.emailSent && m.emailSentAt == Some(now)
    ensures !emailed ==> m == n
    ensures m.(emailSent := n.emailSent, emailSentAt := n.emailSentAt) == n
  {
    if emailed then n.(emailSent := true, emailSentAt := Some(now)) else n
  }

  // ---------------------------------------------------------------- low stock

  /** The components at or below their threshold, in store order. */
  function LowStockCandidates(catalog: Catalog): (ids: seq<ComponentId>)
    ensures forall i :: 0 <= i < |ids| ==> ids[i] in catalog && IsLowStock(catalog[ids[i]])
    ensures forall k :: k in catalog && IsLowStock(catalog[k]) ==> k in ids
    ensures forall i, j :: 0 <= i < j < |ids| ==> ids[i] < ids[j]
  {
    Keys.InOrder(catalog, IsLowStock)
  }

  /** `n` is a low-stock alert about component `id` created within the last day. */
  predicate RecentAlert(n: Notification, id: ComponentId, now: Time) {
    n.kind == LowStock && n.data.componentId == Some(id) && n.createdAt >= now - ALERT_WINDOW
  }

  /** The lookup that suppresses a repeated alert. */
  predicate AlertedRecently(inbox: Inbox, id: ComponentId, now: Time) {
    exists k :: k in inbox.items && RecentAlert(inbox.items[k], id, now)
  }

  /** Component `id` is low on stock and nobody was alerted about it in the last day. */
  predicate Due(catalog: Catalog, inbox: Inbox, id: ComponentId, now: Time) {
    id in catalog && IsLowStock(catalog[id]) && !AlertedRecently(inbox, id, now)
  }

  /** The alert for component `id`: high priority, for administrators and lab
      technicians, carrying the stock level and the threshold. */
  function LowStockAlert(c: Component, id: ComponentId, emailed: bool, now: Time): (n: Notification)
    ensures n.kind == LowStock && n.title == LOW_STOCK_TITLE
    ensures n.data == Payload(Some(id), Some(c.quantity), Some(c.threshold), None)
    ensures n.targetRoles == LOW_STOCK_ROLES && n.priority == High
    ensures !n.read && n.readBy == [] && n.createdAt == now && n.expiresAt == now + TTL
    ensures n.emailSent == emailed && (n.emailSentAt.Some? <==> emailed)
    ensures RecentAlert(n, id, now)
  {
    var n := Make(LowStock, LOW_STOCK_TITLE, Payload(Some(id), Some(c.quantity), Some(c.threshold), None),
                  LOW_STOCK_ROLES, Some(High), now);
    Mailed(n, emailed, now)
  }

  /** Mail goes out only when there is an active administrator to send it to, and
      the notification records it only when the mailer reports success. */
  predicate Emailed(admins: nat, sent: bool) {
    admins > 0 && sent
  }

  /** `n` is the alert a scan of `ids` over `inbox` may add: about one of `ids`,
      which was due, built from that component. */
  predicate AlertFor(catalog: Catalog, inbox: Inbox, ids: seq<ComponentId>, now: Time,
                     admins: nat, send: ComponentId -> bool, n: Notification) {
    && n.data.componentId.Some?
    && var id := n.data.componentId.value;
    && id in ids
    && Due(catalog, inbox, id, now)
    && n == LowStockAlert(catalog[id], id, Emailed(admins, send(id)), now)
  }

  /** One component of the scan: alert unless an alert is recent. */
  function Visit(catalog: Catalog, inbox: Inbox, id: ComponentId, now: Time,
                 admins: nat, send: ComponentId -> bool): Inbox
    requires id in catalog
  {
    if AlertedRecently(inbox, id, now) then inbox
    else Publish(inbox, [LowStockAlert(catalog[id], id, Emailed(admins, send(id)), now)])
  }

  /** The loop over the candidates, each looked up against the collection as it stands. */
  function ScanLow(catalog: Catalog, inbox: Inbox, ids: seq<ComponentId>, now: Time,
                   admins: nat, send: ComponentId -> bool): Inbox
    requires forall i :: 0 <= i < |ids| ==> ids[i] in catalog
    decreases |ids|
  {
    if |ids| == 0 then inbox
    else ScanLow(catalog, Visit(catalog, inbox, ids[0], now, admins, send), ids[1..], now, admins, send)
  }

  /** The old notifications are kept unchanged. */
  ghost predicate Keeps(inbox: Inbox, r: Inbox) {
    && WellNumbered(r) && inbox.nextId <= r.nextId
    && (forall k :: k in inbox.items ==> k in r.items && r.items[k] == inbox.items[k])
    && (forall k :: k in r.items <==> k in inbox.items || inbox.nextId <= k < r.nextId)
  }

  /** Every notification saved after `inbox` is the alert for a component that was due. */
  ghost predicate OnlyDueAlerts(catalog: Catalog, inbox: Inbox, now: Time, admins: nat,
                                send: ComponentId -> bool, r: Inbox) {
    forall k :: inbox.nextId <= k < r.nextId ==>
      && k in r.items && r.items[k].data.componentId.Some?
      && var id := r.items[k].data.componentId.value;
      && Due(catalog, inbox, id, now)
      && r.items[k] == LowStockAlert(catalog[id], id, Emailed(admins, send(id)), now)
  }

  /** No component is alerted about twice among the notifications saved after `inbox`. */
  ghost predicate OncePerComponent(inbox: Inbox, r: Inbox) {
    forall j, k :: inbox.nextId <= j < k < r.nextId && j in r.items && k in r.items ==>
      r.items[j].data.componentId != r.items[k].data.componentId
  }

  /** What a scan of `ids` makes of `inbox`. */
  ghost predicate Scanned(catalog: Catalog, inbox: Inbox, ids: seq<ComponentId>, now: Time,
                          admins: nat, send: ComponentId -> bool, r: Inbox) {
    && Keeps(inbox, r)
    && (forall k :: inbox.nextId <= k < r.nextId ==> AlertFor(catalog, inbox, ids, now, admins, send, r.items[k]))
    && OncePerComponent(inbox, r)
    && (forall i :: 0 <= i < |ids| ==> AlertedRecently(r, ids[i], now))
    && ((forall i :: 0 <= i < |ids| ==> AlertedRecently(inbox, ids[i], now)) ==> r == inbox)
  }

  lemma AlertedMonotone(inbox: Inbox, r: Inbox, id: ComponentId, now: Time)
    requires forall k :: k in inbox.items ==> k in r.items && r.items[k] == inbox.items[k]
    requires AlertedRecently(inbox, id, now)
    ensures AlertedRecently(r, id, now)
  {
    var k :| k in inbox.items && RecentAlert(inbox.items[k], id, now);
    assert RecentAlert(r.items[k], id, now);
  }

  lemma VisitFacts(catalog: Catalog, inbox: Inbox, id: ComponentId, now: Time,
                   admins: nat, send: ComponentId -> bool)
    requires WellNumbered(inbox) && id in catalog
    ensures var next := Visit(catalog, inbox, id, now, admins, send);
      && Keeps(inbox, next)
      && AlertedRecently(next, id, now)
      && next.nextId == inbox.nextId + (if AlertedRecently(inbox, id, now) then 0 else 1)
      && (!AlertedRecently(inbox, id, now) ==>
            next.items[inbox.nextId] == LowStockAlert(catalog[id], id, Emailed(admins, send(id)), now))
  {
    var next := Visit(catalog, inbox, id, now, admins, send);
    if !AlertedRecently(inbox, id, now) {
      assert RecentAlert(next.items[inbox.nextId], id, now);
    }
  }

  /** The scan adds exactly the alerts of the due candidates, one each, and keeps the rest. */
  lemma {:induction false} ScanLowFacts(catalog: Catalog, inbox: Inbox, ids: seq<ComponentId>, now: Time,
                                        admins: nat, send: ComponentId -> bool)
    requires WellNumbered(inbox)
    requires forall i :: 0 <= i < |ids| ==> ids[i] in catalog && IsLowStock(catalog[ids[i]])
    requires forall i, j :: 0 <= i < j < |ids| ==> ids[i] < ids[j]
    ensures Scanned(catalog, inbox, ids, now, admins, send, ScanLow(catalog, inbox, ids, now, admins, send))
    decreases |ids|
  {
    if |ids| > 0 {
      var id := ids[0];
      var next := Visit(catalog, inbox, id, now, admins, send);
      var r := ScanLow(catalog, next, ids[1..], now, admins, send);
      VisitFacts(catalog, inbox, id, now, admins, send);
      ScanLowFacts(catalog, next, ids[1..], now, admins, send);
      ScanStepFacts(catalog, inbox, ids, now, admins, send, next, r);
    }
  }

  /** The facts about the first visit of a scan, as `VisitFacts` states them. */
  ghost predicate FirstVisit(catalog: Catalog, inbox: Inbox, ids: seq<ComponentId>, now: Time,
                             admins: nat, send: ComponentId -> bool, next: Inbox)
    requires |ids| > 0 && ids[0] in catalog
  {
    && Keeps(inbox, next) && AlertedRecently(next, ids[0], now)
    && next.nextId == inbox.nextId + (if AlertedRecently(inbox, ids[0], now) then 0 else 1)
    && (!AlertedRecently(inbox, ids[0], now) ==>
          next.items[inbox.nextId] == LowStockAlert(catalog[ids[0]], ids[0], Emailed(admins, send(ids[0])), now))
  }

  /** The induction step of `ScanLowFacts`, on the facts about the first visit and the rest. */
  lemma ScanStepFacts(catalog: Catalog, inbox: Inbox, ids: seq<ComponentId>, now: Time,
                      admins: nat, send: ComponentId -> bool, next: Inbox, r: Inbox)
    requires |ids| > 0 && WellNumbered(inbox)
    requires forall i :: 0 <= i < |ids| ==> ids[i] in catalog && IsLowStock(catalog[ids[i]])
    requires forall i, j :: 0 <= i < j < |ids| ==> ids[i] < ids[j]
    requires FirstVisit(catalog, inbox, ids, now, admins, send, next)
    requires Scanned(catalog, next, ids[1..], now, admins, send, r)
    ensures Scanned(catalog, inbox, ids, now, admins, send, r)
  {
    AlertedMonotone(next, r, ids[0], now);
    StepAlerts(catalog, inbox, ids, now, admins, send, next, r);
    StepDistinct(catalog, inbox, ids, now, admins, send, next, r);
    StepCoverage(ids, now, r);
    KeepsTransitive(inbox, next, r);
    StepUnchanged(catalog, inbox, ids, now, admins, send, next, r);
  }

  lemma KeepsTransitive(a: Inbox, b: Inbox, c: Inbox)
    requires Keeps(a, b) && Keeps(b, c)
    ensures Keeps(a, c)
  {
  }

  lemma StepUnchanged(catalog: Catalog, inbox: Inbox, ids: seq<ComponentId>, now: Time,
                      admins: nat, send: ComponentId -> bool, next: Inbox, r: Inbox)
    requires |ids| > 0 && ids[0] in catalog
    requires FirstVisit(catalog, inbox, ids, now, admins, send, next)
    requires (forall i :: 0 <= i < |ids[1..]| ==> AlertedRecently(next, ids[1..][i], now)) ==> r == next
    ensures (forall i :: 0 <= i < |ids| ==> AlertedRecently(inbox, ids[i], now)) ==> r == inbox
  {
    if forall i :: 0 <= i < |ids| ==> AlertedRecently(inbox, ids[i], now) {
      assert next.items == inbox.items;
      assert forall i :: 0 <= i < |ids[1..]| ==> AlertedRecently(next, ids[1..][i], now);
    }
  }

  lemma StepAlerts(catalog: Catalog, inbox: Inbox, ids: seq<ComponentId>, now: Time,
                   admins: nat, send: ComponentId -> bool, next: Inbox, r: Inbox)
    requires |ids| > 0 && ids[0] in catalog && IsLowStock(catalog[ids[0]])
    requires FirstVisit(catalog, inbox, ids, now, admins, send, next)
    requires Keeps(next, r)
    requires forall k :: next.nextId <= k < r.nextId ==> AlertFor(catalog, next, ids[1..], now, admins, send, r.items[k])
    ensures forall k :: inbox.nextId <= k < r.nextId ==> AlertFor(catalog, inbox, ids, now, admins, send, r.items[k])
  {
    forall k | inbox.nextId <= k < r.nextId
      ensures AlertFor(catalog, inbox, ids, now, admins, send, r.items[k])
    {
      if k < next.nextId {
        assert r.items[k] == next.items[k];
      } else {
        var id := r.items[k].data.componentId.value;
        assert AlertFor(catalog, next, ids[1..], now, admins, send, r.items[k]);
        assert id in ids;
        if AlertedRecently(inbox, id, now) {
          AlertedMonotone(inbox, next, id, now);
        }
      }
    }
  }

  lemma StepDistinct(catalog: Catalog, inbox: Inbox, ids: seq<ComponentId>, now: Time,
                     admins: nat, send: ComponentId -> bool, next: Inbox, r: Inbox)
    requires |ids| > 0 && ids[0] in catalog
    requires forall i, j :: 0 <= i < j < |ids| ==> ids[i] < ids[j]
    requires FirstVisit(catalog, inbox, ids, now, admins, send, next)
    requires Keeps(next, r)
    requires forall k :: next.nextId <= k < r.nextId ==> AlertFor(catalog, next, ids[1..], now, admins, send, r.items[k])
    requires OncePerComponent(next, r)
    ensures OncePerComponent(inbox, r)
  {
    forall j, k | inbox.nextId <= j < k < r.nextId && j in r.items && k in r.items
      ensures r.items[j].data.componentId != r.items[k].data.componentId
    {
      if j < next.nextId {
        FirstAlertDiffers(catalog, inbox, ids, now, admins, send, next, r, j, k);
      } else {
        assert next.nextId <= j < k < r.nextId;
      }
    }
  }

  /** The alert of the first visit names `ids[0]`, which no later alert of the scan names. */
  lemma FirstAlertDiffers(catalog: Catalog, inbox: Inbox, ids: seq<ComponentId>, now: Time,
                          admins: nat, send: ComponentId -> bool, next: Inbox, r: Inbox, j: nat, k: nat)
    requires |ids| > 0 && ids[0] in catalog
    requires forall i, j :: 0 <= i < j < |ids| ==> ids[i] < ids[j]
    requires FirstVisit(catalog, inbox, ids, now, admins, send, next)
    requires Keeps(next, r)
    requires forall k :: next.nextId <= k < r.nextId ==> AlertFor(catalog, next, ids[1..], now, admins, send, r.items[k])
    requires inbox.nextId <= j < next.nextId && j < k < r.nextId
    ensures r.items[j].data.componentId != r.items[k].data.componentId
  {
    assert !AlertedRecently(inbox, ids[0], now) && j == inbox.nextId;
    assert j in next.items;
    assert r.items[j] == next.items[j];
    assert r.items[j].data.componentId == Some(ids[0]);
    assert AlertFor(catalog, next, ids[1..], now, admins, send, r.items[k]);
    var other := r.items[k].data.componentId.value;
    var i :| 0 <= i < |ids[1..]| && ids[1..][i] == other;
    assert ids[0] < ids[i + 1];
  }

  lemma StepCoverage(ids: seq<ComponentId>, now: Time, r: Inbox)
    requires |ids| > 0 && AlertedRecently(r, ids[0], now)
    requires forall i :: 0 <= i < |ids[1..]| ==> AlertedRecently(r, ids[1..][i], now)
    ensures forall i :: 0 <= i < |ids| ==> AlertedRecently(r, ids[i], now)
  {
    forall i | 0 <= i < |ids|
      ensures AlertedRecently(r, ids[i], now)
    {
      if i > 0 {
        assert ids[i] == ids[1..][i - 1];
      }
    }
  }

  /** `checkLowStock`: one alert per low-stock component that nobody was alerted
      about in the last day; nothing at all when no component is low. */
  function CheckLowStock(catalog: Catalog, inbox: Inbox, now: Time, admins: nat,
                         send: ComponentId -> bool): (r: Inbox)
    requires WellNumbered(inbox)
    ensures |LowStockCandidates(catalog)| == 0 ==> r == inbox
    ensures Keeps(inbox, r)
    ensures OnlyDueAlerts(catalog, inbox, now, admins, send, r)
    ensures OncePerComponent(inbox, r)
    ensures forall id :: id in catalog && IsLowStock(catalog[id]) ==> AlertedRecently(r, id, now)
  {
    var ids := LowStockCandidates(catalog);
    if |ids| == 0 then inbox
    else
      var r := ScanLow(catalog, inbox, ids, now, admins, send);
      ScanLowFacts(catalog, inbox, ids, now, admins, send);
      ScanOfCandidates(catalog, inbox, ids, now, admins, send, r);
      r
  }

  /** A scan of every low-stock component alerts only about due ones, at most once
      each, and leaves every low-stock component alerted. */
  lemma ScanOfCandidates(catalog: Catalog, inbox: Inbox, ids: seq<ComponentId>, now: Time,
                         admins: nat, send: ComponentId -> bool, r: Inbox)
    requires Scanned(catalog, inbox, ids, now, admins, send, r)
    requires forall k :: k in catalog && IsLowStock(catalog[k]) ==> k in ids
    ensures Keeps(inbox, r)
    ensures OnlyDueAlerts(catalog, inbox, now, admins, send, r)
    ensures OncePerComponent(inbox, r)
    ensures forall id :: id in catalog && IsLowStock(catalog[id]) ==> AlertedRecently(r, id, now)
  {
    CoverageFromCandidates(catalog, ids, now, r);
  }

  lemma CoverageFromCandidates(catalog: Catalog, ids: seq<ComponentId>, now: Time, r: Inbox)
    requires forall k :: k in catalog && IsLowStock(catalog[k]) ==> k in ids
    requires forall i :: 0 <= i < |ids| ==> AlertedRecently(r, ids[i], now)
    ensures forall id :: id in catalog && IsLowStock(catalog[id]) ==> AlertedRecently(r, id, now)
  {
    forall id | id in catalog && IsLowStock(catalog[id])
      ensures AlertedRecently(r, id, now)
    {
      var i :| 0 <= i < |ids| && ids[i] == id;
    }
  }

  /** When no low-stock component is due, the scan saves nothing. */
  lemma {:induction false} NothingDueNothingSaved(catalog: Catalog, inbox: Inbox, now: Time, admins: nat,
                                                  send: ComponentId -> bool)
    requires WellNumbered(inbox)
    requires forall id :: id in catalog && IsLowStock(catalog[id]) ==> AlertedRecently(inbox, id, now)
    ensures CheckLowStock(catalog, inbox, now, admins, send) == inbox
  {
    var ids := LowStockCandidates(catalog);
    if |ids| > 0 {
      ScanLowFacts(catalog, inbox, ids, now, admins, send);
    }
  }

  /** Running the scan twice at the same instant saves nothing the second time. */
  lemma LowStockIdempotent(catalog: Catalog, inbox: Inbox, now: Time, admins: nat, send: ComponentId -> bool)
    requires WellNumbered(inbox)
    ensures var once := CheckLowStock(catalog, inbox, now, admins, send);
      CheckLowStock(catalog, once, now, admins, send) == once
  {
    var once := CheckLowStock(catalog, inbox, now, admins, send);
    NothingDueNothingSaved(catalog, once, now, admins, send);
  }

  /** Two low-stock alerts about the same component, the first saved before the second. */
  predicate SameComponentAlerts(a: Notification, b: Notification) {
    a.kind == LowStock && b.kind == LowStock && a.data.componentId.Some? && a.data.componentId == b.data.componentId
  }

  /** Alerts about one component are more than a day apart. */
  ghost predicate Spaced(inbox: Inbox) {
    forall j, k :: j in inbox.items && k in inbox.items && j < k && SameComponentAlerts(inbox.items[j], inbox.items[k]) ==>
      inbox.items[k].createdAt - inbox.items[j].createdAt > ALERT_WINDOW
  }

  /** Nothing in the collection was created after `now`. */
  ghost predicate NotAfter(inbox: Inbox, now: Time) {
    forall k :: k in inbox.items ==> inbox.items[k].createdAt <= now
  }

  /** Scans at non-decreasing times keep low-stock alerts for one component more than a day apart. */
  lemma LowStockSpaced(catalog: Catalog, inbox: Inbox, now: Time, admins: nat, send: ComponentId -> bool)
    requires WellNumbered(inbox) && Spaced(inbox) && NotAfter(inbox, now)
    ensures Spaced(CheckLowStock(catalog, inbox, now, admins, send))
    ensures NotAfter(CheckLowStock(catalog, inbox, now, admins, send), now)
  {
    var r := CheckLowStock(catalog, inbox, now, admins, send);
    AlertsKeepSpacing(catalog, inbox, now, admins, send, r);
  }

  /** The spacing argument, on any inbox that grows by alerts about due, distinct components. */
  lemma AlertsKeepSpacing(catalog: Catalog, inbox: Inbox, now: Time, admins: nat, send: ComponentId -> bool, r: Inbox)
    requires WellNumbered(inbox) && Spaced(inbox) && NotAfter(inbox, now) && Keeps(inbox, r)
    requires OnlyDueAlerts(catalog, inbox, now, admins, send, r)
    requires OncePerComponent(inbox, r)
    ensures Spaced(r) && NotAfter(r, now)
  {
    forall j, k | j in r.items && k in r.items && j < k && SameComponentAlerts(r.items[j], r.items[k])
      ensures r.items[k].createdAt - r.items[j].createdAt > ALERT_WINDOW
    {
      if j < inbox.nextId && inbox.nextId <= k {
        assert j in inbox.items;
        var id := r.items[k].data.componentId.value;
        assert Due(catalog, inbox, id, now);
        assert !RecentAlert(inbox.items[j], id, now);
      }
    }
  }

  // ---------------------------------------------------------------- stale stock

  /** The scan's notion of stale: no issue for 90 days, and something left on the shelf. */
  predicate StaleCandidate(c: Component, now: Time) {
    c.lastOutward < now - STALE_AFTER && c.quantity > 0
  }

  /** The scan reports exactly the stale components (in the sense of the virtual)
      that still hold stock. */
  lemma StaleCandidateIsStale(c: Component, now: Time)
    ensures StaleCandidate(c, now) <==> IsStale(c, now) && c.quantity > 0
  {
  }

  /** The stale components holding stock, in store order. */
  function StaleCandidates(catalog: Catalog, now: Time): (ids: seq<ComponentId>)
    ensures forall i :: 0 <= i < |ids| ==> ids[i] in catalog && StaleCandidate(catalog[ids[i]], now)
    ensures forall k :: k in catalog && StaleCandidate(catalog[k], now) ==> k in ids
    ensures forall i, j :: 0 <= i < j < |ids| ==> ids[i] < ids[j]
  {
    Keys.InOrder(catalog, c => StaleCandidate(c, now))
  }

  /** The entry of the report for one component. */
  function StaleEntryOf(catalog: Catalog, id: ComponentId): StaleEntry
    requires id in catalog
  {
    var c := catalog[id];
    StaleEntry(id, c.name, c.partNumber, c.quantity, c.lastOutward)
  }

  /** `n` is a stale-stock report saved since `startOfDay`. */
  predicate ReportSince(n: Notification, startOfDay: Time) {
    n.kind == StaleStock && n.createdAt >= startOfDay
  }

  predicate ReportedToday(inbox: Inbox, startOfDay: Time) {
    exists k :: k in inbox.items && ReportSince(inbox.items[k], startOfDay)
  }

  /** The daily report: medium priority, for administrators, one entry per stale
      component. The count the handler also puts in `data` is not a path of the
      notification schema, and the schema drops it. */
  function StaleReport(catalog: Catalog, ids: seq<ComponentId>, emailed: bool, now: Time): (n: Notification)
    requires forall i :: 0 <= i < |ids| ==> ids[i] in catalog
    ensures n.kind == StaleStock && n.title == STALE_TITLE
    ensures n.targetRoles == STALE_ROLES && n.priority == Medium
    ensures n.data.componentId.None? && n.data.additionalInfo.Some?
    ensures |n.data.additionalInfo.value| == |ids|
    ensures forall i :: 0 <= i < |ids| ==>
              n.data.additionalInfo.value[i].id == ids[i]
              && n.data.additionalInfo.value[i].quantity == catalog[ids[i]].quantity
              && n.data.additionalInfo.value[i].lastOutward == catalog[ids[i]].lastOutward
    ensures !n.read && n.readBy == [] && n.createdAt == now
    ensures n.emailSent == emailed && (n.emailSentAt.Some? <==> emailed)
  {
    var entries := seq(|ids|, i requires 0 <= i < |ids| => StaleEntryOf(catalog, ids[i]));
    Mailed(Make(StaleStock, STALE_TITLE, Payload(None, None, None, Some(entries)), STALE_ROLES, Some(Medium), now),
           emailed, now)
  }

  /** Saving one notification keeps the collection and puts `n` under the next identifier. */
  lemma PublishOne(inbox: Inbox, n: Notification)
    requires WellNumbered(inbox)
    ensures Keeps(inbox, Publish(inbox, [n]))
    ensures Publish(inbox, [n]).nextId == inbox.nextId + 1
    ensures Publish(inbox, [n]).items[inbox.nextId] == n
  {
  }

  /** Saving a report of today leaves a report of today in the collection. */
  lemma ReportSaved(inbox: Inbox, n: Notification, startOfDay: Time)
    requires WellNumbered(inbox) && ReportSince(n, startOfDay)
    ensures Keeps(inbox, Publish(inbox, [n]))
    ensures Publish(inbox, [n]).nextId == inbox.nextId + 1
    ensures Publish(inbox, [n]).items[inbox.nextId] == n
    ensures ReportedToday(Publish(inbox, [n]), startOfDay)
  {
    PublishOne(inbox, n);
    assert inbox.nextId in Publish(inbox, [n]).items;
  }

  /** The daily report is due: some component is stale and none was reported today. */
  predicate ReportDue(catalog: Catalog, inbox: Inbox, now: Time, startOfDay: Time) {
    |StaleCandidates(catalog, now)| > 0 && !ReportedToday(inbox, startOfDay)
  }

  /** `checkStaleStock`: at most one report per calendar day, listing every stale
      component that holds stock; nothing when there is none or a report was
      already saved since `startOfDay`, the local midnight before `now`. */
  function CheckStaleStock(catalog: Catalog, inbox: Inbox, now: Time, startOfDay: Time, admins: nat,
                           send: bool): (r: Inbox)
    requires WellNumbered(inbox)
    ensures Keeps(inbox, r)
    ensures !ReportDue(catalog, inbox, now, startOfDay) ==> r == inbox
    ensures startOfDay <= now && |StaleCandidates(catalog, now)| > 0 ==> ReportedToday(r, startOfDay)
    ensures ReportDue(catalog, inbox, now, startOfDay) ==>
              && r.nextId == inbox.nextId + 1
              && r.items[inbox.nextId] == StaleReport(catalog, StaleCandidates(catalog, now), Emailed(admins, send), now)
  {
    var ids := StaleCandidates(catalog, now);
    if |ids| == 0 then inbox
    else if ReportedToday(inbox, startOfDay) then inbox
    else
      var n := StaleReport(catalog, ids, Emailed(admins, send), now);
      if startOfDay <= now then
        ReportSaved(inbox, n, startOfDay);
        Publish(inbox, [n])
      else
        PublishOne(inbox, n);
        Publish(inbox, [n])
  }

  /** At most one stale-stock report saved since `startOfDay`. */
  ghost predicate AtMostOneReport(inbox: Inbox, startOfDay: Time) {
    forall j, k ::
      (j in inbox.items && k in inbox.items
       && ReportSince(inbox.items[j], startOfDay) && ReportSince(inbox.items[k], startOfDay)) ==> j == k
  }

  /** Saving a notification on a day without a report keeps at most one report that day. */
  lemma OneMoreReport(inbox: Inbox, r: Inbox, startOfDay: Time)
    requires AtMostOneReport(inbox, startOfDay) && !ReportedToday(inbox, startOfDay)
    requires Keeps(inbox, r) && r.nextId == inbox.nextId + 1
    ensures AtMostOneReport(r, startOfDay)
  {
    forall j, k | j in r.items && k in r.items && ReportSince(r.items[j], startOfDay) && ReportSince(r.items[k], startOfDay)
      ensures j == k
    {
    }
  }

  /** However often the scan runs during a day, it saves at most one report that day. */
  lemma StaleOncePerDay(catalog: Catalog, inbox: Inbox, now: Time, startOfDay: Time, admins: nat, send: bool)
    requires WellNumbered(inbox) && AtMostOneReport(inbox, startOfDay)
    ensures AtMostOneReport(CheckStaleStock(catalog, inbox, now, startOfDay, admins, send), startOfDay)
  {
    if ReportDue(catalog, inbox, now, startOfDay) {
      OneMoreReport(inbox, CheckStaleStock(catalog, inbox, now, startOfDay, admins, send), startOfDay);
    }
  }

  /** Once a scan found stale stock, later scans the same day save nothing. */
  lemma StaleSecondScanSilent(catalog: Catalog, inbox: Inbox, now: Time, later: Time, startOfDay: Time,
                              admins: nat, send: bool)
    requires WellNumbered(inbox) && startOfDay <= now && |StaleCandidates(catalog, now)| > 0
    ensures var once := CheckStaleStock(catalog, inbox, now, startOfDay, admins, send);
      CheckStaleStock(catalog, once, later, startOfDay, admins, send) == once
  {
  }
}
