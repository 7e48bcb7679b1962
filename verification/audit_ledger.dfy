/**
 The inventory as a state machine over sequences of component requests, and
 the invariants every request keeps: stored components satisfy the schema,
 part numbers are unique, every audit entry is balanced and valid, and the
 audit log is a ledger — for every component, the changes recorded against it
 add up to the quantity it holds (zero once it is deleted).

 The update step uses `UpdateAudited`; the handler as written (`Update`) breaks
 the ledger, which `AsWrittenUpdateBreaksLedger` exhibits. `RunAsWritten` runs
 the requests with the update as written: it leaves the same catalog as `Run`,
 so everything said about the catalog holds for it too, and its log still only
 grows.
 */
module AuditLedger {
  import opened Wrappers
  import opened Domain
  import opened Text
  import opened ComponentSchema
  import LogSchema
  import opened ComponentRoutes

  /** One request to the component endpoints. */
  datatype Request =
    | CreateComponent(create: CreateRequest)
    | UpdateComponent(id: ComponentId, patch: ComponentPatch)
    | DeleteComponent(id: ComponentId)
    | ReceiveStock(id: ComponentId, inward: InwardRequest)
    | IssueStock(id: ComponentId, outward: OutwardRequest)
    | AdjustStock(id: ComponentId, adjust: AdjustRequest)

  /** A request made by an authenticated user at a given time. */
  datatype Op = Op(actor: User, at: Time, request: Request)

  /** The handler a request reaches. */
  function Step(inv: Inventory, op: Op): Result<Inventory, Error> {
    match op.request
    case CreateComponent(req) => Create(inv, op.actor, req, op.at)
    case UpdateComponent(id, p) => UpdateAudited(inv, op.actor, id, p, op.at)
    case DeleteComponent(id) => Delete(inv, op.actor, id, op.at)
    case ReceiveStock(id, req) => Inward(inv, op.actor, id, req, op.at)
    case IssueStock(id, req) => Outward(inv, op.actor, id, req, op.at)
    case AdjustStock(id, req) => Adjust(inv, op.actor, id, req, op.at)
  }

  /** The inventory after a request: a refused request leaves it as it was. */
  function Apply(inv: Inventory, op: Op): (r: Inventory)
    ensures Step(inv, op).Failure? ==> r == inv
    ensures Step(inv, op).Success? ==> r == Step(inv, op).value
  {
    match Step(inv, op)
    case Success(next) => next
    case Failure(_) => inv
  }

  /** The inventory after a sequence of requests. */
  function Run(inv: Inventory, ops: seq<Op>): Inventory
    decreases |ops|
  {
    if |ops| == 0 then inv else Run(Apply(inv, ops[0]), ops[1..])
  }

  /** A refused request is skipped: the run goes on from the store as it was;
      an accepted one hands its result to the rest of the run. */
  lemma RefusedRequestSkipped(inv: Inventory, op: Op, ops: seq<Op>)
    ensures Step(inv, op).Failure? ==> Run(inv, [op] + ops) == Run(inv, ops)
    ensures Step(inv, op).Success? ==> Run(inv, [op] + ops) == Run(Step(inv, op).value, ops)
  {
    assert ([op] + ops)[0] == op && ([op] + ops)[1..] == ops;
  }

  /** Running two sequences of requests one after the other is running their concatenation. */
  lemma {:induction false} RunConcat(inv: Inventory, xs: seq<Op>, ys: seq<Op>)
    ensures Run(inv, xs + ys) == Run(Run(inv, xs), ys)
    decreases |xs|
  {
    if |xs| > 0 {
      assert (xs + ys)[0] == xs[0] && (xs + ys)[1..] == xs[1..] + ys;
      RunConcat(Apply(inv, xs[0]), xs[1..], ys);
    } else {
      assert xs + ys == ys;
    }
  }

  /** The action of the entry a request writes when it succeeds. */
  function ActionOf(r: Request): LogSchema.Action {
    match r
    case CreateComponent(_) => LogSchema.Created
    case UpdateComponent(_, _) => LogSchema.Updated
    case DeleteComponent(_) => LogSchema.Deleted
    case ReceiveStock(_, _) => LogSchema.Inward
    case IssueStock(_, _) => LogSchema.Outward
    case AdjustStock(_, _) => LogSchema.Adjustment
  }

  /** The component a request is about; a new component gets the next identifier. */
  function Target(inv: Inventory, r: Request): ComponentId {
    if r.CreateComponent? then inv.nextId else r.id
  }

  // ---------------------------------------------------------------- the invariant

  /** The sum of the changes recorded against component `id`. */
  function Delta(logs: seq<Log>, id: ComponentId): int
    decreases |logs|
  {
    if |logs| == 0 then 0
    else Delta(logs[..|logs| - 1], id) + (if Last(logs).component == id then Last(logs).quantityChanged else 0)
  }

  lemma DeltaAppend(logs: seq<Log>, l: Log, id: ComponentId)
    ensures Delta(logs + [l], id) == Delta(logs, id) + (if l.component == id then l.quantityChanged else 0)
  {
    assert (logs + [l])[..|logs|] == logs;
  }

  /** What component `id` holds; nothing once it is gone. */
  function QuantityOf(inv: Inventory, id: ComponentId): int {
    if id in inv.catalog then inv.catalog[id].quantity else 0
  }

  /** The audit log accounts for every unit in stock. */
  ghost predicate Ledger(inv: Inventory) {
    forall id: ComponentId :: Delta(inv.logs, id) == QuantityOf(inv, id)
  }

  predicate AllValid(catalog: map<ComponentId, Component>) {
    forall k :: k in catalog ==> Valid(catalog[k])
  }

  predicate UniquePartNumbers(catalog: map<ComponentId, Component>) {
    forall j, k :: j in catalog && k in catalog && catalog[j].partNumber == catalog[k].partNumber ==> j == k
  }

  predicate SoundEntries(logs: seq<Log>) {
    forall i :: 0 <= i < |logs| ==> LogSchema.Balanced(logs[i]) && LogSchema.Valid(logs[i])
  }

  ghost predicate Consistent(inv: Inventory) {
    && WellNumbered(inv)
    && AllValid(inv.catalog)
    && UniquePartNumbers(inv.catalog)
    && SoundEntries(inv.logs)
    && Ledger(inv)
  }

  /** The empty store is consistent. */
  lemma EmptyConsistent(nextId: ComponentId)
    ensures Consistent(Inventory(map[], [], nextId))
  {
    forall id: ComponentId
      ensures Delta([], id) == QuantityOf(Inventory(map[], [], nextId), id)
    {
    }
  }

  // ---------------------------------------------------------------- one write

  /** A write that changes at most component `t` and appends one entry about it
      recording the change in its quantity keeps the ledger. */
  lemma {:induction false} LedgerAfterWrite(inv: Inventory, r: Inventory, t: ComponentId)
    requires Ledger(inv)
    requires AppendsOne(inv.logs, r.logs) && Last(r.logs).component == t
    requires QuantityOf(r, t) == QuantityOf(inv, t) + Last(r.logs).quantityChanged
    requires forall k :: k != t ==> QuantityOf(r, k) == QuantityOf(inv, k)
    ensures Ledger(r)
  {
    var l := Last(r.logs);
    assert r.logs == inv.logs + [l];
    forall id: ComponentId
      ensures Delta(r.logs, id) == QuantityOf(r, id)
    {
      DeltaAppend(inv.logs, l, id);
    }
  }

  lemma SoundAfterAppend(logs: seq<Log>, after: seq<Log>)
    requires SoundEntries(logs) && AppendsOne(logs, after)
    requires LogSchema.Balanced(Last(after)) && LogSchema.Valid(Last(after))
    ensures SoundEntries(after)
  {
    assert after == logs + [Last(after)];
  }

  /** A component keeps satisfying the schema when only its stock level, its last
      issue or its stamps change, as long as the stock stays non-negative. */
  lemma ValidAfterMovement(a: Component, b: Component)
    requires Valid(a) && SameRecord(a, b) && b.quantity >= 0
    ensures Valid(b)
  {
  }

  /** Changing one stored component into `c`, keeping its part number, keeps the
      catalog valid and the part numbers unique. */
  lemma CatalogAfterReplace(catalog: map<ComponentId, Component>, t: ComponentId, c: Component)
    requires AllValid(catalog) && UniquePartNumbers(catalog) && t in catalog
    requires Valid(c) && c.partNumber == catalog[t].partNumber
    ensures AllValid(catalog[t := c]) && UniquePartNumbers(catalog[t := c])
  {
  }

  lemma MovementConsistent(inv: Inventory, r: Inventory, t: ComponentId)
    requires Consistent(inv) && t in inv.catalog
    requires t in r.catalog && r.catalog == inv.catalog[t := r.catalog[t]] && r.nextId == inv.nextId
    requires SameRecord(inv.catalog[t], r.catalog[t]) && r.catalog[t].quantity >= 0
    requires AppendsOne(inv.logs, r.logs) && Last(r.logs).component == t
    requires LogSchema.Balanced(Last(r.logs)) && LogSchema.Valid(Last(r.logs))
    requires Last(r.logs).quantityChanged == r.catalog[t].quantity - inv.catalog[t].quantity
    ensures Consistent(r)
  {
    ValidAfterMovement(inv.catalog[t], r.catalog[t]);
    CatalogAfterReplace(inv.catalog, t, r.catalog[t]);
    SoundAfterAppend(inv.logs, r.logs);
    LedgerAfterWrite(inv, r, t);
  }

  /** Storing `c` under `t` keeps the part numbers unique when no other component has its part number. */
  lemma UniqueAfterPut(catalog: map<ComponentId, Component>, t: ComponentId, c: Component)
    requires UniquePartNumbers(catalog) && !PartNumberTaken(catalog, c.partNumber, Some(t))
    ensures UniquePartNumbers(catalog[t := c])
  {
    var after := catalog[t := c];
    forall j, k | j in after && k in after && after[j].partNumber == after[k].partNumber
      ensures j == k
    {
      if j != t && k != t {
        assert catalog[j].partNumber == catalog[k].partNumber;
      }
    }
  }

  /** Storing a valid component `c` under `t`, unique in its part number, and logging
      the change in `t`'s quantity keeps the inventory consistent. */
  lemma PutConsistent(inv: Inventory, r: Inventory, t: ComponentId, c: Component)
    requires Consistent(inv) && t <= inv.nextId <= r.nextId
    requires r.catalog == inv.catalog[t := c] && Valid(c)
    requires !PartNumberTaken(inv.catalog, c.partNumber, Some(t))
    requires AppendsOne(inv.logs, r.logs) && Last(r.logs).component == t
    requires LogSchema.Balanced(Last(r.logs)) && LogSchema.Valid(Last(r.logs))
    requires Last(r.logs).quantityChanged == c.quantity - QuantityOf(inv, t)
    requires t == inv.nextId ==> t < r.nextId
    ensures Consistent(r)
  {
    UniqueAfterPut(inv.catalog, t, c);
    SoundAfterAppend(inv.logs, r.logs);
    LedgerAfterWrite(inv, r, t);
  }

  lemma CreateConsistent(inv: Inventory, actor: User, req: CreateRequest, now: Time)
    requires Consistent(inv) && Create(inv, actor, req, now).Success?
    ensures Consistent(Create(inv, actor, req, now).value)
  {
    var r := Create(inv, actor, req, now).value;
    var c := r.catalog[inv.nextId];
    assert !PartNumberTaken(inv.catalog, c.partNumber, None);
    assert QuantityOf(inv, inv.nextId) == 0;
    PutConsistent(inv, r, inv.nextId, c);
  }

  lemma UpdateConsistent(inv: Inventory, actor: User, id: ComponentId, p: ComponentPatch, now: Time)
    requires Consistent(inv) && UpdateAudited(inv, actor, id, p, now).Success?
    ensures Consistent(UpdateAudited(inv, actor, id, p, now).value)
  {
    var r := UpdateAudited(inv, actor, id, p, now).value;
    var c := Patched(inv.catalog[id], p, actor, now);
    PatchedValid(inv.catalog[id], p, actor, now);
    assert !PartNumberTaken(inv.catalog, c.partNumber, Some(id));
    PutConsistent(inv, r, id, c);
  }

  lemma DeleteConsistent(inv: Inventory, actor: User, id: ComponentId, now: Time)
    requires Consistent(inv) && Delete(inv, actor, id, now).Success?
    ensures Consistent(Delete(inv, actor, id, now).value)
  {
    var r := Delete(inv, actor, id, now).value;
    SoundAfterAppend(inv.logs, r.logs);
    LedgerAfterWrite(inv, r, id);
  }

  /** Every request keeps the inventory consistent, whether it succeeds or not. */
  lemma StepPreservesConsistency(inv: Inventory, op: Op)
    requires Consistent(inv)
    ensures Consistent(Apply(inv, op))
  {
    if Step(inv, op).Success? {
      var r := Step(inv, op).value;
      match op.request
      case CreateComponent(req) => CreateConsistent(inv, op.actor, req, op.at);
      case UpdateComponent(id, p) => UpdateConsistent(inv, op.actor, id, p, op.at);
      case DeleteComponent(id) => DeleteConsistent(inv, op.actor, id, op.at);
      case ReceiveStock(id, req) => MovementConsistent(inv, r, id);
      case IssueStock(id, req) => MovementConsistent(inv, r, id);
      case AdjustStock(id, req) => MovementConsistent(inv, r, id);
    }
  }

  /** Any sequence of requests keeps the inventory consistent. */
  lemma {:induction false} RunPreservesConsistency(inv: Inventory, ops: seq<Op>)
    requires Consistent(inv)
    ensures Consistent(Run(inv, ops))
    decreases |ops|
  {
    if |ops| > 0 {
      StepPreservesConsistency(inv, ops[0]);
      RunPreservesConsistency(Apply(inv, ops[0]), ops[1..]);
    }
  }

  /** Stock never goes negative, whatever the requests. */
  lemma {:induction false} StockNeverNegative(inv: Inventory, ops: seq<Op>, id: ComponentId)
    requires Consistent(inv)
    ensures id in Run(inv, ops).catalog ==> Run(inv, ops).catalog[id].quantity >= 0
  {
    RunPreservesConsistency(inv, ops);
  }

  // ---------------------------------------------------------------- the log

  /** A successful request appends exactly one entry, with the action of the request,
      about the component the request concerns, written by the requesting user. */
  lemma StepWritesOneMatchingEntry(inv: Inventory, op: Op)
    requires Step(inv, op).Success?
    ensures AppendsOne(inv.logs, Step(inv, op).value.logs)
    ensures Last(Step(inv, op).value.logs).action == ActionOf(op.request)
    ensures Last(Step(inv, op).value.logs).component == Target(inv, op.request)
    ensures Last(Step(inv, op).value.logs).user == op.actor.id
  {
  }

  /** The log only grows, by at most one entry per request. */
  lemma {:induction false} RunAppendsOnly(inv: Inventory, ops: seq<Op>)
    ensures inv.logs <= Run(inv, ops).logs
    ensures |Run(inv, ops).logs| <= |inv.logs| + |ops|
    decreases |ops|
  {
    if |ops| > 0 {
      var next := Apply(inv, ops[0]);
      if Step(inv, ops[0]).Success? {
        StepWritesOneMatchingEntry(inv, ops[0]);
      }
      assert inv.logs <= next.logs;
      RunAppendsOnly(next, ops[1..]);
    }
  }

  /** Only issuing stock moves the date of a component's last issue; the one other
      way is an update whose body carries `last_outward`. */
  lemma OnlyOutwardMovesLastOutward(inv: Inventory, op: Op, k: ComponentId)
    requires WellNumbered(inv) && k in inv.catalog && k in Apply(inv, op).catalog
    requires !op.request.IssueStock?
    requires op.request.UpdateComponent? ==> op.request.patch.lastOutward.None?
    ensures Apply(inv, op).catalog[k].lastOutward == inv.catalog[k].lastOutward
  {
    if Step(inv, op).Success? {
      match op.request
      case CreateComponent(req) => CreateKeepsLastOutward(inv, op.actor, req, op.at, k);
      case UpdateComponent(id, p) => UpdateKeepsLastOutward(inv, op.actor, id, p, op.at, k);
      case DeleteComponent(id) => DeleteKeepsLastOutward(inv, op.actor, id, op.at, k);
      case ReceiveStock(id, req) => InwardKeepsLastOutward(inv, op.actor, id, req, op.at, k);
      case AdjustStock(id, req) => AdjustKeepsLastOutward(inv, op.actor, id, req, op.at, k);
    }
  }

  /** Creating a component leaves every stored component as it was. */
  lemma CreateKeepsLastOutward(inv: Inventory, actor: User, req: CreateRequest, now: Time, k: ComponentId)
    requires WellNumbered(inv) && k in inv.catalog && Create(inv, actor, req, now).Success?
    ensures k in Create(inv, actor, req, now).value.catalog
    ensures Create(inv, actor, req, now).value.catalog[k].lastOutward == inv.catalog[k].lastOutward
  {
    var r := Create(inv, actor, req, now).value;
    assert k != inv.nextId;
    PutKeepsOthers(inv.catalog, r.catalog, inv.nextId, k);
  }

  /** Putting a component under one identifier leaves the others as they were. */
  lemma PutKeepsOthers(catalog: map<ComponentId, Component>, after: map<ComponentId, Component>, t: ComponentId, k: ComponentId)
    requires t in after && after == catalog[t := after[t]]
    requires k in catalog && k != t
    ensures k in after && after[k] == catalog[k]
  {
  }

  /** An update whose body has no `last_outward` keeps every issue date. */
  lemma UpdateKeepsLastOutward(inv: Inventory, actor: User, id: ComponentId, p: ComponentPatch, now: Time, k: ComponentId)
    requires k in inv.catalog && UpdateAudited(inv, actor, id, p, now).Success? && p.lastOutward.None?
    ensures k in UpdateAudited(inv, actor, id, p, now).value.catalog
    ensures UpdateAudited(inv, actor, id, p, now).value.catalog[k].lastOutward == inv.catalog[k].lastOutward
  {
  }

  /** Deleting a component leaves the others as they were. */
  lemma DeleteKeepsLastOutward(inv: Inventory, actor: User, id: ComponentId, now: Time, k: ComponentId)
    requires k in inv.catalog && Delete(inv, actor, id, now).Success? && k in Delete(inv, actor, id, now).value.catalog
    ensures Delete(inv, actor, id, now).value.catalog[k].lastOutward == inv.catalog[k].lastOutward
  {
  }

  /** Receiving stock does not touch any issue date. */
  lemma InwardKeepsLastOutward(inv: Inventory, actor: User, id: ComponentId, req: InwardRequest, now: Time, k: ComponentId)
    requires k in inv.catalog && Inward(inv, actor, id, req, now).Success?
    ensures k in Inward(inv, actor, id, req, now).value.catalog
    ensures Inward(inv, actor, id, req, now).value.catalog[k].lastOutward == inv.catalog[k].lastOutward
  {
    var r := Inward(inv, actor, id, req, now).value;
    if k != id {
      PutKeepsOthers(inv.catalog, r.catalog, id, k);
    }
  }

  /** A stock-take does not touch any issue date. */
  lemma AdjustKeepsLastOutward(inv: Inventory, actor: User, id: ComponentId, req: AdjustRequest, now: Time, k: ComponentId)
    requires k in inv.catalog && Adjust(inv, actor, id, req, now).Success?
    ensures k in Adjust(inv, actor, id, req, now).value.catalog
    ensures Adjust(inv, actor, id, req, now).value.catalog[k].lastOutward == inv.catalog[k].lastOutward
  {
    var r := Adjust(inv, actor, id, req, now).value;
    if k != id {
      PutKeepsOthers(inv.catalog, r.catalog, id, k);
    }
  }

  /** A successful issue stamps the issue date on the component. */
  lemma OutwardStampsLastOutward(inv: Inventory, op: Op)
    requires op.request.IssueStock? && Step(inv, op).Success?
    ensures op.request.id in Apply(inv, op).catalog
    ensures Apply(inv, op).catalog[op.request.id].lastOutward == op.at
  {
  }

  // ---------------------------------------------------------------- a worked example

  /** A component holding 100 with threshold 20: issuing 30 leaves 70; issuing 80 more
      is refused with the stock available and asked for; a stock-take to 15 records a
      change of -55 and leaves the component low on stock. */
  lemma WorkedExample(inv: Inventory, id: ComponentId, engineer: User, admin: User, now: Time, reason: string)
    requires id in inv.catalog && inv.catalog[id].quantity == 100 && inv.catalog[id].threshold == 20
    requires engineer.role == Engineer && admin.role == Admin && Trim(reason) != ""
    ensures
      var first := Outward(inv, engineer, id, OutwardRequest(Some(30), reason, None, None), now);
      && first.Success? && first.value.catalog[id].quantity == 70
      && var second := Outward(first.value, engineer, id, OutwardRequest(Some(80), reason, None, None), now);
      && second == Failure(InsufficientStock(70, 80))
      && var third := Adjust(first.value, admin, id, AdjustRequest(Some(15), reason, None), now);
      && third.Success? && third.value.catalog[id].quantity == 15
      && Last(third.value.logs).quantityChanged == -55
      && IsLowStock(third.value.catalog[id])
  {
    var first := Outward(inv, engineer, id, OutwardRequest(Some(30), reason, None, None), now);
    IssueThirty(inv, id, engineer, now, reason);
    IssueEightyRefused(first.value, id, engineer, now, reason);
    CountFifteen(first.value, id, admin, now, reason);
  }

  lemma IssueThirty(inv: Inventory, id: ComponentId, engineer: User, now: Time, reason: string)
    requires id in inv.catalog && inv.catalog[id].quantity == 100 && inv.catalog[id].threshold == 20
    requires engineer.role == Engineer && Trim(reason) != ""
    ensures var first := Outward(inv, engineer, id, OutwardRequest(Some(30), reason, None, None), now);
      && first.Success? && id in first.value.catalog
      && first.value.catalog[id].quantity == 70 && first.value.catalog[id].threshold == 20
  {
    var req := OutwardRequest(Some(30), reason, None, None);
    assert engineer.role in ISSUERS;
    assert OutwardAccepted(req);
  }

  lemma IssueEightyRefused(inv: Inventory, id: ComponentId, engineer: User, now: Time, reason: string)
    requires id in inv.catalog && inv.catalog[id].quantity == 70
    requires engineer.role == Engineer && Trim(reason) != ""
    ensures Outward(inv, engineer, id, OutwardRequest(Some(80), reason, None, None), now)
              == Failure(InsufficientStock(70, 80))
  {
    var req := OutwardRequest(Some(80), reason, None, None);
    assert engineer.role in ISSUERS;
    assert OutwardAccepted(req);
  }

  lemma CountFifteen(inv: Inventory, id: ComponentId, admin: User, now: Time, reason: string)
    requires id in inv.catalog && inv.catalog[id].quantity == 70 && inv.catalog[id].threshold == 20
    requires admin.role == Admin && Trim(reason) != ""
    ensures var third := Adjust(inv, admin, id, AdjustRequest(Some(15), reason, None), now);
      && third.Success? && third.value.catalog[id].quantity == 15
      && Last(third.value.logs).quantityChanged == -55
      && IsLowStock(third.value.catalog[id])
  {
    var req := AdjustRequest(Some(15), reason, None);
    assert admin.role in ADMINS;
    assert AdjustAccepted(req);
  }

  // ---------------------------------------------------------------- the update as written

  /** The handlers with the update as written. */
  function StepAsWritten(inv: Inventory, op: Op): Result<Inventory, Error> {
    match op.request
    case UpdateComponent(id, p) => Update(inv, op.actor, id, p, op.at)
    case _ => Step(inv, op)
  }

  /** The inventory after a request, with the update as written. */
  function ApplyAsWritten(inv: Inventory, op: Op): Inventory {
    match StepAsWritten(inv, op)
    case Success(next) => next
    case Failure(_) => inv
  }

  /** The inventory after a sequence of requests, with the update as written. */
  function RunAsWritten(inv: Inventory, ops: seq<Op>): Inventory
    decreases |ops|
  {
    if |ops| == 0 then inv else RunAsWritten(ApplyAsWritten(inv, ops[0]), ops[1..])
  }

  /** Two inventories that hold the same components under the same counter; their logs may differ. */
  predicate SameStore(a: Inventory, b: Inventory) {
    a.catalog == b.catalog && a.nextId == b.nextId
  }

  /** Two outcomes of the same request agree: both succeed or both fail, and on success they
      leave the same store. */
  predicate Agree(ra: Result<Inventory, Error>, rb: Result<Inventory, Error>) {
    && (ra.Success? <==> rb.Success?)
    && (ra.Success? ==> SameStore(ra.value, rb.value))
  }

  /** The handlers decide and write the catalog without reading the log. */
  lemma StepIgnoresLogs(a: Inventory, b: Inventory, op: Op)
    requires SameStore(a, b)
    ensures Agree(Step(a, op), Step(b, op))
  {
    match op.request
    case CreateComponent(req) =>
      assert Step(a, op) == Create(a, op.actor, req, op.at) && Step(b, op) == Create(b, op.actor, req, op.at);
      CreateIgnoresLogs(a, b, op.actor, req, op.at);
    case UpdateComponent(id, p) =>
      assert Step(a, op) == UpdateAudited(a, op.actor, id, p, op.at) && Step(b, op) == UpdateAudited(b, op.actor, id, p, op.at);
      UpdateIgnoresLogs(a, b, op.actor, id, p, op.at);
    case DeleteComponent(id) =>
      assert Step(a, op) == Delete(a, op.actor, id, op.at) && Step(b, op) == Delete(b, op.actor, id, op.at);
      DeleteIgnoresLogs(a, b, op.actor, id, op.at);
    case ReceiveStock(id, req) =>
      assert Step(a, op) == Inward(a, op.actor, id, req, op.at) && Step(b, op) == Inward(b, op.actor, id, req, op.at);
      InwardIgnoresLogs(a, b, op.actor, id, req, op.at);
    case IssueStock(id, req) =>
      assert Step(a, op) == Outward(a, op.actor, id, req, op.at) && Step(b, op) == Outward(b, op.actor, id, req, op.at);
      OutwardIgnoresLogs(a, b, op.actor, id, req, op.at);
    case AdjustStock(id, req) =>
      assert Step(a, op) == Adjust(a, op.actor, id, req, op.at) && Step(b, op) == Adjust(b, op.actor, id, req, op.at);
      AdjustIgnoresLogs(a, b, op.actor, id, req, op.at);
  }

  lemma CreateIgnoresLogs(a: Inventory, b: Inventory, actor: User, req: CreateRequest, now: Time)
    requires SameStore(a, b)
    ensures Agree(Create(a, actor, req, now), Create(b, actor, req, now))
  {
    if actor.role in EDITORS && CreateAccepted(req) && !PartNumberTaken(a.catalog, NormalizePartNumber(req.partNumber), None) {
      assert Create(a, actor, req, now) == Admit(a, actor, req, now);
      assert Create(b, actor, req, now) == Admit(b, actor, req, now);
      AdmitIgnoresLogs(a, b, actor, req, now);
    }
  }

  /** The record a creation saves depends on the request alone, not on the ledger. */
  lemma AdmitIgnoresLogs(a: Inventory, b: Inventory, actor: User, req: CreateRequest, now: Time)
    requires SameStore(a, b) && CreateAccepted(req)
    ensures Agree(Admit(a, actor, req, now), Admit(b, actor, req, now))
  {
    if Admit(a, actor, req, now).Success? {
      var c := Instantiate(DraftOf(req, actor), now);
      SamePut(a, b, Admit(a, actor, req, now).value, Admit(b, actor, req, now).value, c);
    }
  }

  /** Putting one component under the next identifier of the same store gives the same store. */
  lemma SamePut(a: Inventory, b: Inventory, ra: Inventory, rb: Inventory, c: Component)
    requires SameStore(a, b)
    requires a.nextId in ra.catalog && ra.catalog == a.catalog[a.nextId := ra.catalog[a.nextId]] && ra.catalog[a.nextId] == c
    requires b.nextId in rb.catalog && rb.catalog == b.catalog[b.nextId := rb.catalog[b.nextId]] && rb.catalog[b.nextId] == c
    requires ra.nextId == a.nextId + 1 && rb.nextId == b.nextId + 1
    ensures SameStore(ra, rb)
  {
  }

  lemma UpdateIgnoresLogs(a: Inventory, b: Inventory, actor: User, id: ComponentId, p: ComponentPatch, now: Time)
    requires SameStore(a, b)
    ensures Agree(UpdateAudited(a, actor, id, p, now), UpdateAudited(b, actor, id, p, now))
  {
  }

  lemma DeleteIgnoresLogs(a: Inventory, b: Inventory, actor: User, id: ComponentId, now: Time)
    requires SameStore(a, b)
    ensures Agree(Delete(a, actor, id, now), Delete(b, actor, id, now))
  {
  }

  lemma InwardIgnoresLogs(a: Inventory, b: Inventory, actor: User, id: ComponentId, req: InwardRequest, now: Time)
    requires SameStore(a, b)
    ensures Agree(Inward(a, actor, id, req, now), Inward(b, actor, id, req, now))
  {
    if Inward(a, actor, id, req, now).Success? {
      ApplyInwardIgnoresLogs(a, b, id, req.quantity.value, req.reason, req.projectName, req.batchId,
                             req.supplierInfo, req.notes, actor, now);
    }
  }

  /** The stock a receipt leaves depends on the stock before it, not on the ledger. */
  lemma ApplyInwardIgnoresLogs(a: Inventory, b: Inventory, id: ComponentId, q: int, reason: string,
                               projectName: Option<string>, batchId: Option<string>,
                               supplier: Option<LogSchema.SupplierInfo>, notes: Option<string>, actor: User, now: Time)
    requires SameStore(a, b) && id in a.catalog
    ensures SameStore(ApplyInward(a, id, q, reason, projectName, batchId, supplier, notes, actor, now),
                      ApplyInward(b, id, q, reason, projectName, batchId, supplier, notes, actor, now))
  {
  }

  lemma OutwardIgnoresLogs(a: Inventory, b: Inventory, actor: User, id: ComponentId, req: OutwardRequest, now: Time)
    requires SameStore(a, b)
    ensures Agree(Outward(a, actor, id, req, now), Outward(b, actor, id, req, now))
  {
    if Outward(a, actor, id, req, now).Success? {
      ApplyOutwardIgnoresLogs(a, b, id, req.quantity.value, req.reason, req.projectName, req.notes, actor, now);
    }
  }

  /** The stock an issue leaves depends on the stock before it, not on the ledger. */
  lemma ApplyOutwardIgnoresLogs(a: Inventory, b: Inventory, id: ComponentId, q: int, reason: string,
                                projectName: Option<string>, notes: Option<string>, actor: User, now: Time)
    requires SameStore(a, b) && id in a.catalog
    ensures SameStore(ApplyOutward(a, id, q, reason, projectName, notes, actor, now),
                      ApplyOutward(b, id, q, reason, projectName, notes, actor, now))
  {
  }

  lemma AdjustIgnoresLogs(a: Inventory, b: Inventory, actor: User, id: ComponentId, req: AdjustRequest, now: Time)
    requires SameStore(a, b)
    ensures Agree(Adjust(a, actor, id, req, now), Adjust(b, actor, id, req, now))
  {
  }

  /** With the update as written, a request succeeds exactly when it does in the corrected
      program, and leaves the same components under the same counter. */
  lemma AsWrittenStepTracksStep(a: Inventory, b: Inventory, op: Op)
    requires SameStore(a, b)
    ensures StepAsWritten(a, op).Success? <==> Step(b, op).Success?
    ensures SameStore(ApplyAsWritten(a, op), Apply(b, op))
  {
    StepIgnoresLogs(a, b, op);
  }

  /** The program as written stores exactly what the corrected one stores, whatever the
      requests: the two differ only in the entries of their logs. */
  lemma {:induction false} AsWrittenRunTracksRun(a: Inventory, b: Inventory, ops: seq<Op>)
    requires SameStore(a, b)
    ensures SameStore(RunAsWritten(a, ops), Run(b, ops))
    decreases |ops|
  {
    if |ops| > 0 {
      AsWrittenStepTracksStep(a, b, ops[0]);
      AsWrittenRunTracksRun(ApplyAsWritten(a, ops[0]), Apply(b, ops[0]), ops[1..]);
    }
  }

  /** With the update as written, stored components still satisfy the schema, part
      numbers stay unique and stock never goes negative. */
  lemma AsWrittenCatalogStaysValid(inv: Inventory, ops: seq<Op>, id: ComponentId)
    requires Consistent(inv)
    ensures WellNumbered(RunAsWritten(inv, ops))
    ensures AllValid(RunAsWritten(inv, ops).catalog) && UniquePartNumbers(RunAsWritten(inv, ops).catalog)
    ensures id in RunAsWritten(inv, ops).catalog ==> RunAsWritten(inv, ops).catalog[id].quantity >= 0
  {
    AsWrittenRunTracksRun(inv, inv, ops);
    RunPreservesConsistency(inv, ops);
  }

  /** With the update as written, a successful request appends exactly one balanced, valid entry. */
  lemma AsWrittenStepAppendsOne(inv: Inventory, op: Op)
    requires StepAsWritten(inv, op).Success?
    ensures AppendsOne(inv.logs, StepAsWritten(inv, op).value.logs)
    ensures LogSchema.Balanced(Last(StepAsWritten(inv, op).value.logs))
    ensures LogSchema.Valid(Last(StepAsWritten(inv, op).value.logs))
  {
    if !op.request.UpdateComponent? {
      StepWritesOneMatchingEntry(inv, op);
    }
  }

  /** With the update as written, the log still only grows, by at most one entry per request. */
  lemma {:induction false} AsWrittenRunAppendsOnly(inv: Inventory, ops: seq<Op>)
    ensures inv.logs <= RunAsWritten(inv, ops).logs
    ensures |RunAsWritten(inv, ops).logs| <= |inv.logs| + |ops|
    decreases |ops|
  {
    if |ops| > 0 {
      var next := ApplyAsWritten(inv, ops[0]);
      if StepAsWritten(inv, ops[0]).Success? {
        AsWrittenStepAppendsOne(inv, ops[0]);
      }
      assert inv.logs <= next.logs;
      AsWrittenRunAppendsOnly(next, ops[1..]);
    }
  }

  /** The update as written loses the ledger whenever it changes the quantity: its
      entry records no change, and names the new quantity as the previous one. */
  lemma AsWrittenUpdateBreaksLedger(inv: Inventory, actor: User, id: ComponentId, p: ComponentPatch, now: Time)
    requires Ledger(inv) && Update(inv, actor, id, p, now).Success?
    requires p.quantity.Some? && id in inv.catalog && p.quantity.value != inv.catalog[id].quantity
    ensures Last(Update(inv, actor, id, p, now).value.logs).previousQuantity == p.quantity.value
    ensures Last(Update(inv, actor, id, p, now).value.logs).quantityChanged == 0
    ensures !Ledger(Update(inv, actor, id, p, now).value)
  {
    var r := Update(inv, actor, id, p, now).value;
    assert r.logs == inv.logs + [Last(r.logs)];
    DeltaAppend(inv.logs, Last(r.logs), id);
    assert Delta(r.logs, id) == inv.catalog[id].quantity;
    assert QuantityOf(r, id) == p.quantity.value;
  }

  /** The corrected update keeps the ledger on the same requests. */
  lemma AuditedUpdateKeepsLedger(inv: Inventory, actor: User, id: ComponentId, p: ComponentPatch, now: Time)
    requires Consistent(inv) && Update(inv, actor, id, p, now).Success?
    ensures UpdateAudited(inv, actor, id, p, now).Success?
    ensures Ledger(UpdateAudited(inv, actor, id, p, now).value)
    ensures Last(UpdateAudited(inv, actor, id, p, now).value.logs).previousQuantity == inv.catalog[id].quantity
  {
    UpdateConsistent(inv, actor, id, p, now);
  }

  /** One stocked resistor holding 5 units, as created at time `at`. */
  function ExampleStore(at: Time): Inventory {
    Inventory(map[0 := Component("Resistor", "Acme", "R1", "Carbon film", 5, "A1", Resistors, 10,
                                 None, at, 0, None, at, at)],
              [LogSchema.CreatedEntry(0, 5, 0, at)], 1)
  }

  /** An update request that sets the quantity to 9 and nothing else. */
  function SetQuantity(q: int): ComponentPatch {
    ComponentPatch(None, None, None, None, Some(q), None, None, None, None, None, None, None)
  }

  /** The example store accounts for its 5 units. */
  lemma ExampleLedger(at: Time)
    ensures Ledger(ExampleStore(at))
  {
    var inv := ExampleStore(at);
    forall id: ComponentId
      ensures Delta(inv.logs, id) == QuantityOf(inv, id)
    {
      assert inv.logs[..0] == [];
    }
  }

  /** An administrator's update of the example component to 9 units is accepted. */
  lemma ExampleUpdateAccepted(at: Time)
    ensures Update(ExampleStore(at), User(0, Admin, true), 0, SetQuantity(9), at + 1).Success?
  {
    var p := SetQuantity(9);
    assert PatchAccepted(p) && PatchSavable(p);
    assert 0 in ExampleStore(at).catalog;
  }

  /** A concrete input on which the update as written breaks the ledger. */
  lemma AsWrittenUpdateCounterexample(at: Time)
    ensures Ledger(ExampleStore(at))
    ensures Update(ExampleStore(at), User(0, Admin, true), 0, SetQuantity(9), at + 1).Success?
    ensures !Ledger(Update(ExampleStore(at), User(0, Admin, true), 0, SetQuantity(9), at + 1).value)
  {
    ExampleLedger(at);
    ExampleUpdateAccepted(at);
    assert ExampleStore(at).catalog[0].quantity == 5;
    AsWrittenUpdateBreaksLedger(ExampleStore(at), User(0, Admin, true), 0, SetQuantity(9), at + 1);
  }
}
