/**
 The notification endpoints: who sees a notification, who has read it, the
 listing and the unread count, acknowledging one notification or all of them,
 deleting, and the administrators' statistics. Every endpoint runs after
 token verification, so the requester is a known, active user.
 */
module NotificationRoutes {
  import opened Wrappers
  import opened Domain
  import opened NotificationSchema
  import Pagination
  import opened Text

  /** A notification addressed to the user's role, or to everybody when it names no role. */
  predicate Visible(n: Notification, role: Role) {
    role in n.targetRoles || |n.targetRoles| == 0
  }

  /** `isReadByUser`: some receipt names the user. */
  predicate IsReadBy(n: Notification, user: UserId) {
    exists r :: r in n.readBy && r.user == user
  }

  /** The notifications the user sees and has not read. */
  function Unread(inbox: Inbox, user: User): (ids: set<NotificationId>)
    ensures forall k :: k in ids <==>
              k in inbox.items && Visible(inbox.items[k], user.role) && !IsReadBy(inbox.items[k], user.id)
  {
    set k | k in inbox.items && Visible(inbox.items[k], user.role) && !IsReadBy(inbox.items[k], user.id)
  }

  /** `GET /notifications/unread-count`. */
  function UnreadCount(inbox: Inbox, user: User): (n: nat)
    ensures n == |Unread(inbox, user)|
    ensures n <= |inbox.items|
  {
    assert Unread(inbox, user) <= inbox.items.Keys;
    CardinalityMonotone(Unread(inbox, user), inbox.items.Keys);
    |Unread(inbox, user)|
  }

  lemma CardinalityMonotone<T>(a: set<T>, b: set<T>)
    requires a <= b
    ensures |a| <= |b|
  {
    assert b == a + (b - a);
  }

  // ---------------------------------------------------------------- listing

  /** The query string of `GET /notifications`. */
  datatype InboxQuery = InboxQuery(unreadOnly: bool, kind: Option<string>, page: Option<int>, limit: Option<int>)

  /** The type filter applies when a type other than `all` is given; a name outside
      the enumeration matches nothing. */
  predicate KindMatches(n: Notification, kind: Option<string>) {
    kind.None? || kind.value == "" || kind.value == "all" || KindName(n.kind) == kind.value
  }

  predicate Listed(n: Notification, user: User, q: InboxQuery) {
    Visible(n, user.role) && (q.unreadOnly ==> !IsReadBy(n, user.id)) && KindMatches(n, q.kind)
  }

  /** `GET /notifications`: the matching notifications and the pagination block. The
      newest-first order and the slice returned are left to the store. */
  function List(inbox: Inbox, user: User, q: InboxQuery): (r: (set<NotificationId>, Pagination.Page))
    ensures forall k :: k in r.0 <==> k in inbox.items && Listed(inbox.items[k], user, q)
    ensures r.1.total == |r.0|
    ensures r.1 == Pagination.Paginate(|r.0|, q.page, q.limit)
  {
    var ids := set k | k in inbox.items && Listed(inbox.items[k], user, q);
    (ids, Pagination.Paginate(|ids|, q.page, q.limit))
  }

  /** The unread-only listing without a type filter counts what the unread count counts. */
  lemma UnreadListingMatchesCount(inbox: Inbox, user: User, q: InboxQuery)
    requires q.unreadOnly && q.kind.None?
    ensures List(inbox, user, q).0 == Unread(inbox, user)
    ensures List(inbox, user, q).1.total == UnreadCount(inbox, user)
  {
    assert List(inbox, user, q).0 == Unread(inbox, user);
  }

  // ---------------------------------------------------------------- acknowledging

  /** No user has more than one receipt on the notification. */
  predicate OneReceiptPerUser(n: Notification) {
    forall i, j :: 0 <= i < j < |n.readBy| ==> n.readBy[i].user != n.readBy[j].user
  }

  /** The notification after `user` acknowledged it at `now`: a receipt is added
      only if the user has none yet. */
  function Acknowledged(n: Notification, user: UserId, now: Time): (m: Notification)
    ensures IsReadBy(m, user)
    ensures IsReadBy(n, user) ==> m == n
    ensures !IsReadBy(n, user) ==> m.readBy == n.readBy + [Receipt(user, now)]
    ensures m.(readBy := n.readBy) == n
    ensures forall u :: u != user ==> (IsReadBy(m, u) <==> IsReadBy(n, u))
    ensures OneReceiptPerUser(n) ==> OneReceiptPerUser(m)
  {
    if IsReadBy(n, user) then n
    else
      var m := n.(readBy := n.readBy + [NewReceipt(user, None, now)]);
      assert m.readBy[|n.readBy|].user == user;
      m
  }

  /** `POST /notifications/:id/read`. Any user may acknowledge any notification;
      visibility is not checked. */
  function MarkRead(inbox: Inbox, user: User, id: NotificationId, now: Time): (r: Result<Inbox, Error>)
    ensures r.Success? <==> id in inbox.items
    ensures id !in inbox.items ==> r == Failure(NotFound)
    ensures r.Success? ==>
              && r.value.nextId == inbox.nextId
              && r.value.items == inbox.items[id := Acknowledged(inbox.items[id], user.id, now)]
              && IsReadBy(r.value.items[id], user.id)
    ensures r.Success? && IsReadBy(inbox.items[id], user.id) ==> r.value == inbox
  {
    if id !in inbox.items then Failure(NotFound)
    else
      var n := inbox.items[id];
      if IsReadBy(n, user.id) then Success(inbox)
      else Success(Inbox(inbox.items[id := Acknowledged(n, user.id, now)], inbox.nextId))
  }

  /** Acknowledging twice is acknowledging once, whenever the second happens. */
  lemma MarkReadIdempotent(inbox: Inbox, user: User, id: NotificationId, now: Time, later: Time)
    requires MarkRead(inbox, user, id, now).Success?
    ensures MarkRead(MarkRead(inbox, user, id, now).value, user, id, later) == MarkRead(inbox, user, id, now)
  {
  }

  /** Acknowledging a visible unread notification takes exactly it off the user's
      unread list; the unread lists of other users do not change. */
  lemma MarkReadUnread(inbox: Inbox, user: User, id: NotificationId, now: Time, other: User)
    requires id in inbox.items
    ensures Unread(MarkRead(inbox, user, id, now).value, user) == Unread(inbox, user) - {id}
    ensures other.id != user.id ==>
              Unread(MarkRead(inbox, user, id, now).value, other) == Unread(inbox, other)
  {
    var r := MarkRead(inbox, user, id, now).value;
    assert Unread(r, user) == Unread(inbox, user) - {id};
    if other.id != user.id {
      assert Unread(r, other) == Unread(inbox, other);
    }
  }

  /** Every notification keeps at most one receipt per user. */
  ghost predicate ReceiptsUnique(inbox: Inbox) {
    forall k :: k in inbox.items ==> OneReceiptPerUser(inbox.items[k])
  }

  lemma MarkReadKeepsReceiptsUnique(inbox: Inbox, user: User, id: NotificationId, now: Time)
    requires ReceiptsUnique(inbox) && MarkRead(inbox, user, id, now).Success?
    ensures ReceiptsUnique(MarkRead(inbox, user, id, now).value)
  {
  }

  /** `POST /notifications/mark-all-read`: one receipt on every notification the
      user sees and had not read, all in one bulk write; the count is the number
      of those notifications. */
  function MarkAllRead(inbox: Inbox, user: User, now: Time): (r: (Inbox, nat))
    ensures r.1 == UnreadCount(inbox, user)
    ensures r.0.nextId == inbox.nextId && r.0.items.Keys == inbox.items.Keys
    ensures forall k :: k in inbox.items ==>
              r.0.items[k] == (if k in Unread(inbox, user) then Acknowledged(inbox.items[k], user.id, now)
                               else inbox.items[k])
    ensures Unread(r.0, user) == {}
  {
    var todo := Unread(inbox, user);
    var items := map k | k in inbox.items ::
      if k in todo then Acknowledged(inbox.items[k], user.id, now) else inbox.items[k];
    var r := Inbox(items, inbox.nextId);
    assert items.Keys == inbox.items.Keys;
    assert forall k :: k in items ==> k !in Unread(r, user);
    (r, |todo|)
  }

  /** After marking all read, the unread count is zero and other users' counts are unchanged. */
  lemma MarkAllReadClears(inbox: Inbox, user: User, now: Time, other: User)
    ensures UnreadCount(MarkAllRead(inbox, user, now).0, user) == 0
    ensures other.id != user.id ==> Unread(MarkAllRead(inbox, user, now).0, other) == Unread(inbox, other)
  {
    var r := MarkAllRead(inbox, user, now).0;
    if other.id != user.id {
      assert Unread(r, other) == Unread(inbox, other);
    }
  }

  lemma MarkAllReadKeepsReceiptsUnique(inbox: Inbox, user: User, now: Time)
    requires ReceiptsUnique(inbox)
    ensures ReceiptsUnique(MarkAllRead(inbox, user, now).0)
  {
  }

  // ---------------------------------------------------------------- deleting

  /** "Thirty days ago", taken as thirty whole days. */
  const DELETE_AFTER: int := 30 * DAY

  /** `DELETE /notifications/:id`: administrators may delete anything; other users
      only notifications created at least thirty days ago. */
  function Delete(inbox: Inbox, user: User, id: NotificationId, now: Time): (r: Result<Inbox, Error>)
    ensures r.Success? <==>
              id in inbox.items && (user.role == Admin || inbox.items[id].createdAt <= now - DELETE_AFTER)
    ensures id !in inbox.items ==> r == Failure(NotFound)
    ensures id in inbox.items && r.Failure? ==> r == Failure(AdminOnly)
    ensures r.Success? ==> r.value.items == inbox.items - {id} && r.value.nextId == inbox.nextId
  {
    if id !in inbox.items then Failure(NotFound)
    else if user.role != Admin && inbox.items[id].createdAt > now - DELETE_AFTER then Failure(AdminOnly)
    else Success(Inbox(inbox.items - {id}, inbox.nextId))
  }

  /** Notifications expire when they become old enough for anybody to delete, so
      a user other than an administrator can only delete one the time-to-live
      sweep has not yet removed. */
  lemma NonAdminDeletesOnlyExpired(inbox: Inbox, user: User, id: NotificationId, now: Time)
    requires user.role != Admin && Delete(inbox, user, id, now).Success?
    requires inbox.items[id].expiresAt == inbox.items[id].createdAt + TTL
    ensures Expired(inbox.items[id], now)
    ensures id !in Sweep(inbox, now).items
  {
  }

  // ---------------------------------------------------------------- statistics

  /** One group of the statistics: a type, how many notifications have it, and
      how many of those nobody has read. */
  datatype KindCount = KindCount(kind: Kind, count: nat, unread: nat)

  datatype Stats = Stats(total: nat, totalUnread: nat, byKind: seq<KindCount>)

  /** The types in the order of their names, the order of the grouped result. */
  const KINDS_BY_NAME: seq<Kind> := [InventoryUpdate, LowStock, StaleStock, System]

  /** The notifications nobody has read; "unread" here ignores who the reader is. */
  predicate Untouched(n: Notification) {
    |n.readBy| == 0
  }

  function OfKind(inbox: Inbox, k: Kind): (ids: set<NotificationId>)
    ensures forall i :: i in ids <==> i in inbox.items && inbox.items[i].kind == k
  {
    set i | i in inbox.items && inbox.items[i].kind == k
  }

  function UntouchedOfKind(inbox: Inbox, k: Kind): (ids: set<NotificationId>)
    ensures forall i :: i in ids <==> i in inbox.items && inbox.items[i].kind == k && Untouched(inbox.items[i])
  {
    set i | i in inbox.items && inbox.items[i].kind == k && Untouched(inbox.items[i])
  }

  function AllUntouched(inbox: Inbox): (ids: set<NotificationId>)
    ensures forall i :: i in ids <==> i in inbox.items && Untouched(inbox.items[i])
  {
    set i | i in inbox.items && Untouched(inbox.items[i])
  }

  /** The groups of the types that occur, in the order of `kinds`. */
  function Groups(inbox: Inbox, kinds: seq<Kind>): (r: seq<KindCount>)
    ensures forall i :: 0 <= i < |r| ==> r[i].count > 0 && r[i].kind in kinds
    ensures forall i :: 0 <= i < |r| ==>
              r[i].count == |OfKind(inbox, r[i].kind)| && r[i].unread == |UntouchedOfKind(inbox, r[i].kind)|
  {
    if |kinds| == 0 then []
    else
      var k := kinds[0];
      var g := KindCount(k, |OfKind(inbox, k)|, |UntouchedOfKind(inbox, k)|);
      (if g.count > 0 then [g] else []) + Groups(inbox, kinds[1..])
  }

  /** Every listed type that occurs gets a row. */
  lemma {:induction false} GroupsComplete(inbox: Inbox, kinds: seq<Kind>, k: Kind)
    requires k in kinds && |OfKind(inbox, k)| > 0
    ensures exists i :: 0 <= i < |Groups(inbox, kinds)| && Groups(inbox, kinds)[i].kind == k
    decreases |kinds|
  {
    var r := Groups(inbox, kinds);
    if kinds[0] == k {
      assert r[0].kind == k;
    } else {
      assert k in kinds[1..];
      GroupsComplete(inbox, kinds[1..], k);
      var rest := Groups(inbox, kinds[1..]);
      var i :| 0 <= i < |rest| && rest[i].kind == k;
      var head := |r| - |rest|;
      assert r[head + i] == rest[i];
    }
  }

  /** The rows are in strictly increasing order of their type names. */
  predicate RowsByName(rows: seq<KindCount>) {
    forall i, j :: 0 <= i < j < |rows| ==> Below(KindName(rows[i].kind), KindName(rows[j].kind))
  }

  /** The position of a type in `KINDS_BY_NAME`. */
  function Rank(k: Kind): (n: nat)
    ensures n < |KINDS_BY_NAME| && KINDS_BY_NAME[n] == k
  {
    match k
    case InventoryUpdate => 0
    case LowStock => 1
    case StaleStock => 2
    case System => 3
  }

  /** The rows are in strictly increasing rank. */
  predicate RowsByRank(rows: seq<KindCount>) {
    forall i, j :: 0 <= i < j < |rows| ==> Rank(rows[i].kind) < Rank(rows[j].kind)
  }

  /** Grouping along types in increasing rank gives rows in increasing rank. */
  lemma {:induction false} GroupsKeepRank(inbox: Inbox, kinds: seq<Kind>)
    requires forall i, j :: 0 <= i < j < |kinds| ==> Rank(kinds[i]) < Rank(kinds[j])
    ensures RowsByRank(Groups(inbox, kinds))
    decreases |kinds|
  {
    if |kinds| > 0 {
      var k := kinds[0];
      var rest := Groups(inbox, kinds[1..]);
      GroupsKeepRank(inbox, kinds[1..]);
      HeadRanksFirst(kinds, rest);
      var g := KindCount(k, |OfKind(inbox, k)|, |UntouchedOfKind(inbox, k)|);
      if g.count > 0 {
        ConsRanked(g, rest);
        assert Groups(inbox, kinds) == [g] + rest;
      } else {
        assert Groups(inbox, kinds) == rest;
      }
    }
  }

  /** Rows drawn from the later types all rank above the first type. */
  lemma HeadRanksFirst(kinds: seq<Kind>, rest: seq<KindCount>)
    requires |kinds| > 0
    requires forall i, j :: 0 <= i < j < |kinds| ==> Rank(kinds[i]) < Rank(kinds[j])
    requires forall j :: 0 <= j < |rest| ==> rest[j].kind in kinds[1..]
    ensures forall j :: 0 <= j < |rest| ==> Rank(kinds[0]) < Rank(rest[j].kind)
  {
    forall j | 0 <= j < |rest|
      ensures Rank(kinds[0]) < Rank(rest[j].kind)
    {
      var q :| 0 <= q < |kinds[1..]| && kinds[1..][q] == rest[j].kind;
      assert kinds[q + 1] == rest[j].kind;
    }
  }

  /** A row ranking below every row of a rank-ordered sequence can go in front of it. */
  lemma ConsRanked(g: KindCount, rest: seq<KindCount>)
    requires RowsByRank(rest)
    requires forall j :: 0 <= j < |rest| ==> Rank(g.kind) < Rank(rest[j].kind)
    ensures RowsByRank([g] + rest)
  {
    var r := [g] + rest;
    forall i, j | 0 <= i < j < |r|
      ensures Rank(r[i].kind) < Rank(r[j].kind)
    {
      assert r[j] == rest[j - 1];
      if i > 0 {
        assert r[i] == rest[i - 1];
      }
    }
  }

  /** A lower rank is a smaller name: "inventory_update" < "low_stock" < "stale_stock" < "system". */
  lemma RankIsNameOrder(a: Kind, b: Kind)
    requires Rank(a) < Rank(b)
    ensures Below(KindName(a), KindName(b))
  {
    if a == StaleStock {
      assert Below(KindName(a)[1..], KindName(b)[1..]);
    }
  }

  /** Grouping along the types in name order gives rows in name order. */
  lemma GroupsKeepNameOrder(inbox: Inbox)
    ensures RowsByName(Groups(inbox, KINDS_BY_NAME))
  {
    var r := Groups(inbox, KINDS_BY_NAME);
    GroupsKeepRank(inbox, KINDS_BY_NAME);
    forall i, j | 0 <= i < j < |r|
      ensures Below(KindName(r[i].kind), KindName(r[j].kind))
    {
      RankIsNameOrder(r[i].kind, r[j].kind);
    }
  }

  /** Rows in strictly increasing name order never repeat a type. */
  lemma RowsByNameDistinct(rows: seq<KindCount>)
    requires RowsByName(rows)
    ensures forall i, j :: 0 <= i < j < |rows| ==> rows[i].kind != rows[j].kind
  {
    forall i, j | 0 <= i < j < |rows|
      ensures rows[i].kind != rows[j].kind
    {
      BelowIrreflexive(KindName(rows[i].kind));
    }
  }

  function SumCounts(gs: seq<KindCount>): nat {
    if |gs| == 0 then 0 else gs[0].count + SumCounts(gs[1..])
  }

  function SumUnread(gs: seq<KindCount>): nat {
    if |gs| == 0 then 0 else gs[0].unread + SumUnread(gs[1..])
  }

  /** `GET /notifications/stats`, for administrators only. */
  function GetStats(inbox: Inbox, user: User): (r: Result<Stats, Error>)
    ensures r.Success? <==> user.role == Admin
    ensures r.Failure? ==> r.error == AdminOnly
    ensures r.Success? ==>
              && r.value.total == |inbox.items|
              && r.value.totalUnread == |AllUntouched(inbox)|
              && SumCounts(r.value.byKind) == r.value.total
              && SumUnread(r.value.byKind) == r.value.totalUnread
    ensures r.Success? ==>
              forall k :: |OfKind(inbox, k)| > 0 ==> exists i :: 0 <= i < |r.value.byKind| && r.value.byKind[i].kind == k
    ensures r.Success? ==>
              && RowsByName(r.value.byKind)
              && forall i, j :: 0 <= i < j < |r.value.byKind| ==> r.value.byKind[i].kind != r.value.byKind[j].kind
  {
    if user.role != Admin then Failure(AdminOnly)
    else
      StatsAddUp(inbox);
      GroupsKeepNameOrder(inbox);
      RowsByNameDistinct(Groups(inbox, KINDS_BY_NAME));
      forall k | |OfKind(inbox, k)| > 0
        ensures exists i :: 0 <= i < |Groups(inbox, KINDS_BY_NAME)| && Groups(inbox, KINDS_BY_NAME)[i].kind == k
      {
        EveryKindListed(k);
        GroupsComplete(inbox, KINDS_BY_NAME, k);
      }
      Success(Stats(|inbox.items|, |AllUntouched(inbox)|, Groups(inbox, KINDS_BY_NAME)))
  }

  /** The notifications of type `k`, or only the untouched ones. */
  function Selection(inbox: Inbox, k: Kind, untouched: bool): set<NotificationId> {
    if untouched then UntouchedOfKind(inbox, k) else OfKind(inbox, k)
  }

  /** The sizes of the (untouched) groups of `kinds`, the empty ones included. */
  function SumOver(inbox: Inbox, kinds: seq<Kind>, untouched: bool): nat {
    if |kinds| == 0 then 0 else |Selection(inbox, kinds[0], untouched)| + SumOver(inbox, kinds[1..], untouched)
  }

  lemma EmptyGroup(inbox: Inbox, k: Kind)
    requires |OfKind(inbox, k)| == 0
    ensures |UntouchedOfKind(inbox, k)| == 0
  {
    assert UntouchedOfKind(inbox, k) <= OfKind(inbox, k);
  }

  /** Leaving out the types that do not occur does not change the sums. */
  lemma {:induction false} GroupsSum(inbox: Inbox, kinds: seq<Kind>)
    ensures SumCounts(Groups(inbox, kinds)) == SumOver(inbox, kinds, false)
    ensures SumUnread(Groups(inbox, kinds)) == SumOver(inbox, kinds, true)
    decreases |kinds|
  {
    if |kinds| > 0 {
      GroupsSum(inbox, kinds[1..]);
      var k := kinds[0];
      var g := KindCount(k, |OfKind(inbox, k)|, |UntouchedOfKind(inbox, k)|);
      var rest := Groups(inbox, kinds[1..]);
      if g.count > 0 {
        assert Groups(inbox, kinds) == [g] + rest;
        assert ([g] + rest)[1..] == rest;
      } else {
        EmptyGroup(inbox, k);
        assert Groups(inbox, kinds) == rest;
      }
    }
  }

  /** The notifications whose type is among `kinds` (and that are untouched). */
  function Among(inbox: Inbox, kinds: seq<Kind>, untouched: bool): set<NotificationId> {
    set i | i in inbox.items && inbox.items[i].kind in kinds && (untouched ==> Untouched(inbox.items[i]))
  }

  lemma DisjointUnion<T>(a: set<T>, b: set<T>)
    requires a !! b
    ensures |a + b| == |a| + |b|
  {
    assert a * b == {};
  }

  /** With no type listed twice, the group sizes add up to the size of their union. */
  lemma {:induction false} SumOverIsSize(inbox: Inbox, kinds: seq<Kind>, untouched: bool)
    requires forall i, j :: 0 <= i < j < |kinds| ==> kinds[i] != kinds[j]
    ensures SumOver(inbox, kinds, untouched) == |Among(inbox, kinds, untouched)|
    decreases |kinds|
  {
    if |kinds| == 0 {
      assert Among(inbox, kinds, untouched) == {};
    } else {
      SumOverIsSize(inbox, kinds[1..], untouched);
      assert kinds[0] !in kinds[1..];
      var head := Selection(inbox, kinds[0], untouched);
      var tail := Among(inbox, kinds[1..], untouched);
      AmongSplits(inbox, kinds, untouched);
      DisjointUnion(head, tail);
    }
  }

  /** The notifications of the first listed type, and those of the others, part the whole. */
  lemma AmongSplits(inbox: Inbox, kinds: seq<Kind>, untouched: bool)
    requires |kinds| > 0 && kinds[0] !in kinds[1..]
    ensures Among(inbox, kinds, untouched) == Selection(inbox, kinds[0], untouched) + Among(inbox, kinds[1..], untouched)
    ensures Selection(inbox, kinds[0], untouched) !! Among(inbox, kinds[1..], untouched)
  {
    forall i | i in inbox.items
      ensures inbox.items[i].kind in kinds <==> inbox.items[i].kind == kinds[0] || inbox.items[i].kind in kinds[1..]
    {
      assert kinds == [kinds[0]] + kinds[1..];
    }
  }

  lemma EveryKindListed(k: Kind)
    ensures k in KINDS_BY_NAME
  {
    match k
    case InventoryUpdate => assert KINDS_BY_NAME[0] == k;
    case LowStock => assert KINDS_BY_NAME[1] == k;
    case StaleStock => assert KINDS_BY_NAME[2] == k;
    case System => assert KINDS_BY_NAME[3] == k;
  }

  lemma AmongEveryKind(inbox: Inbox)
    ensures Among(inbox, KINDS_BY_NAME, false) == inbox.items.Keys
    ensures Among(inbox, KINDS_BY_NAME, true) == AllUntouched(inbox)
  {
    forall i | i in inbox.items
      ensures inbox.items[i].kind in KINDS_BY_NAME
    {
      EveryKindListed(inbox.items[i].kind);
    }
  }

  /** The groups partition the collection, and its untouched part. */
  lemma StatsAddUp(inbox: Inbox)
    ensures SumCounts(Groups(inbox, KINDS_BY_NAME)) == |inbox.items|
    ensures SumUnread(Groups(inbox, KINDS_BY_NAME)) == |AllUntouched(inbox)|
  {
    GroupsSum(inbox, KINDS_BY_NAME);
    KindsByNameDistinct();
    SumOverIsSize(inbox, KINDS_BY_NAME, false);
    SumOverIsSize(inbox, KINDS_BY_NAME, true);
    AmongEveryKind(inbox);
  }

  lemma KindsByNameDistinct()
    ensures forall i, j :: 0 <= i < j < |KINDS_BY_NAME| ==> KINDS_BY_NAME[i] != KINDS_BY_NAME[j]
  {
  }
}
