/**
 The component endpoints as transitions of the inventory: the catalog of
 components, the audit log and the identifier counter. Each write handler is
 checked in the order the source runs its guards (role, request validation,
 duplicate part number, existence, available stock) and, when every guard
 passes, changes the catalog and appends exactly one log entry in one step.
 A failure returns an error and no new inventory, so it writes nothing.
 */
module ComponentRoutes {
  import opened Wrappers
  import opened Domain
  import opened Text
  import opened ComponentSchema
  import LogSchema
  import Auth
  import Pagination

  type Log = LogSchema.Log

  datatype Inventory = Inventory(catalog: map<ComponentId, Component>, logs: seq<Log>, nextId: ComponentId)

  /** Every stored identifier was handed out by the counter. */
  predicate WellNumbered(inv: Inventory) {
    forall k :: k in inv.catalog ==> k < inv.nextId
  }

  /** Roles allowed to create, update and receive stock. */
  const EDITORS: seq<Role> := [Admin, LabTechnician]
  /** Roles allowed to issue stock. */
  const ISSUERS: seq<Role> := [Admin, Engineer, LabTechnician]
  /** Roles allowed to delete and to adjust. */
  const ADMINS: seq<Role> := [Admin]

  /** Some component other than `except` already carries part number `p`. */
  predicate PartNumberTaken(catalog: map<ComponentId, Component>, p: string, except: Option<ComponentId>) {
    exists k :: k in catalog && Some(k) != except && catalog[k].partNumber == p
  }

  /** The record is the same apart from its stock level, its last issue and its audit stamps. */
  predicate SameRecord(a: Component, b: Component) {
    && a.name == b.name && a.manufacturer == b.manufacturer && a.partNumber == b.partNumber
    && a.description == b.description && a.locationBin == b.locationBin && a.category == b.category
    && a.threshold == b.threshold && a.datasheetLink == b.datasheetLink
    && a.createdBy == b.createdBy && a.createdAt == b.createdAt
  }

  /** The stamps `updatedBy` and `updatedAt` a successful write leaves on a component. */
  function Touch(c: Component, actor: User, now: Time): (t: Component)
    ensures SameRecord(c, t) && t.quantity == c.quantity && t.lastOutward == c.lastOutward
    ensures t.updatedBy == Some(actor.id) && t.updatedAt == now
  {
    c.(updatedBy := Some(actor.id), updatedAt := now)
  }

  /** `after` is `before` with exactly one entry appended. */
  predicate AppendsOne(before: seq<Log>, after: seq<Log>) {
    |after| == |before| + 1 && after[..|before|] == before
  }

  function Last(logs: seq<Log>): Log
    requires |logs| > 0
  {
    logs[|logs| - 1]
  }

  // ---------------------------------------------------------------- create

  /** The body of a create request as the validators see it. An absent text field
      reads as the empty string, an absent number as `None`. The unit price is checked
      by the validators but not stored in the model. */
  datatype CreateRequest = CreateRequest(
    name: string,
    manufacturer: string,
    partNumber: string,
    description: string,
    quantity: Option<int>,
    locationBin: string,
    category: string,
    threshold: Option<int>,
    datasheetLink: Option<string>,
    lastOutward: Option<Time>,
    unitPrice: Option<real>)

  /** `isFloat({ min: 0 })` on the unit price. */
  predicate PriceAccepted(price: real) {
    price >= 0.0
  }

  /** The request validators of the create route. */
  predicate CreateAccepted(req: CreateRequest) {
    && Trim(req.name) != "" && Trim(req.manufacturer) != "" && Trim(req.partNumber) != ""
    && Trim(req.description) != "" && Trim(req.locationBin) != ""
    && req.quantity.Some? && req.quantity.value >= 0
    && req.unitPrice.Some? && PriceAccepted(req.unitPrice.value)
    && ParseCategory(req.category).Some?
    && req.threshold.Some? && req.threshold.value >= 0
  }

  /** The component the route builds from an accepted request: the spread body with
      the part number upper-cased and the creator stamped. */
  function DraftOf(req: CreateRequest, actor: User): (d: Draft)
    requires CreateAccepted(req)
    ensures d.name == req.name && d.manufacturer == req.manufacturer && d.description == req.description
    ensures d.locationBin == req.locationBin && d.partNumber == NormalizePartNumber(req.partNumber)
    ensures d.quantity == req.quantity && d.threshold == req.threshold && d.createdBy == actor.id
    ensures d.lastOutward == req.lastOutward && d.datasheetLink == req.datasheetLink
    ensures CategoryName(d.category) == req.category
  {
    Draft(req.name, req.manufacturer, NormalizePartNumber(req.partNumber), req.description, req.quantity,
          req.locationBin, ParseCategory(req.category).value, req.threshold, req.datasheetLink,
          req.lastOutward, actor.id)
  }

  /** An accepted request builds a component the schema accepts exactly when its
      datasheet link has the required shape. */
  lemma DraftSavable(req: CreateRequest, actor: User)
    requires CreateAccepted(req)
    ensures SavableDraft(DraftOf(req, actor)) <==> ValidDatasheetLink(TrimOption(req.datasheetLink))
  {
    var d := DraftOf(req, actor);
    assert Trim(d.partNumber) != "" by {
      assert IsPartNumber(d.partNumber);
    }
    FilledDraftSavable(d);
  }

  /** A draft whose required texts and counts are filled in is savable exactly when
      its datasheet link has the required shape. */
  lemma FilledDraftSavable(d: Draft)
    requires Trim(d.name) != "" && Trim(d.manufacturer) != "" && Trim(d.partNumber) != ""
    requires Trim(d.description) != "" && Trim(d.locationBin) != ""
    requires d.quantity.Some? && d.quantity.value >= 0 && d.threshold.Some? && d.threshold.value >= 0
    ensures SavableDraft(d) <==> ValidDatasheetLink(TrimOption(d.datasheetLink))
  {
  }

  /** `POST /components`. */
  function Create(inv: Inventory, actor: User, req: CreateRequest, now: Time): (r: Result<Inventory, Error>)
    ensures r.Success? <==>
              && actor.role in EDITORS && CreateAccepted(req)
              && !PartNumberTaken(inv.catalog, NormalizePartNumber(req.partNumber), None)
              && ValidDatasheetLink(TrimOption(req.datasheetLink))
    ensures actor.role !in EDITORS ==> r == Failure(Forbidden(EDITORS, actor.role))
    ensures actor.role in EDITORS && !CreateAccepted(req) ==> r == Failure(ValidationFailure)
    ensures actor.role in EDITORS && CreateAccepted(req)
            && PartNumberTaken(inv.catalog, NormalizePartNumber(req.partNumber), None) ==>
              r == Failure(DuplicatePartNumber)
    ensures r.Success? ==>
              && inv.nextId in r.value.catalog
              && var c := r.value.catalog[inv.nextId];
              && r.value.catalog == inv.catalog[inv.nextId := c]
              && r.value.nextId == inv.nextId + 1
              && Valid(c) && c.partNumber == NormalizePartNumber(req.partNumber)
              && c.quantity == req.quantity.value && c.threshold == req.threshold.value
              && CategoryName(c.category) == req.category
              && c.lastOutward == req.lastOutward.GetOr(now)
              && c.createdBy == actor.id && c.createdAt == now
    ensures r.Success? ==>
              AppendsOne(inv.logs, r.value.logs) &&
              var l := Last(r.value.logs);
              && l.action == LogSchema.Created && l.component == inv.nextId && l.user == actor.id
              && l.previousQuantity == 0 && l.quantityChanged == req.quantity.value
              && LogSchema.Balanced(l) && LogSchema.Valid(l)
  {
    match Auth.CheckRole(EDITORS, Some(actor))
    case Failure(e) => Failure(e)
    case Success(_) =>
      if !CreateAccepted(req) then Failure(ValidationFailure)
      else if PartNumberTaken(inv.catalog, NormalizePartNumber(req.partNumber), None) then
        Failure(DuplicatePartNumber)
      else
        Admit(inv, actor, req, now)
  }

  /** The part of the create handler after the guards: build and save the component,
      then write the `created` entry. Only the datasheet-link validator can still refuse. */
  function Admit(inv: Inventory, actor: User, req: CreateRequest, now: Time): (r: Result<Inventory, Error>)
    requires CreateAccepted(req)
    ensures r.Success? <==> ValidDatasheetLink(TrimOption(req.datasheetLink))
    ensures r.Failure? ==> r.error == SchemaViolation
    ensures r.Success? ==>
              && inv.nextId in r.value.catalog
              && var c := r.value.catalog[inv.nextId];
              && r.value.catalog == inv.catalog[inv.nextId := c]
              && r.value.nextId == inv.nextId + 1
              && Valid(c) && c.partNumber == NormalizePartNumber(req.partNumber)
              && c.quantity == req.quantity.value && c.threshold == req.threshold.value
              && CategoryName(c.category) == req.category
              && c.lastOutward == req.lastOutward.GetOr(now)
              && c.createdBy == actor.id && c.createdAt == now
    ensures r.Success? ==>
              AppendsOne(inv.logs, r.value.logs) &&
              var l := Last(r.value.logs);
              && l.action == LogSchema.Created && l.component == inv.nextId && l.user == actor.id
              && l.previousQuantity == 0 && l.quantityChanged == req.quantity.value
              && LogSchema.Balanced(l) && LogSchema.Valid(l)
    ensures r.Success? ==> r.value.catalog[inv.nextId] == Instantiate(DraftOf(req, actor), now)
  {
    var c := Instantiate(DraftOf(req, actor), now);
    DraftSavable(req, actor);
    if !Valid(c) then Failure(SchemaViolation)
    else
      var l := LogSchema.CreatedEntry(inv.nextId, c.quantity, actor.id, now);
      AppendedIsLast(inv.logs, l);
      Success(Inventory(inv.catalog[inv.nextId := c], inv.logs + [l], inv.nextId + 1))
  }

  // ---------------------------------------------------------------- update

  /** The body of an update request: every field is optional. `lastOutward` and
      `createdBy` are not among the validated fields, but the spread body carries
      them into the update. The unit price is validated but not stored in the model. */
  datatype ComponentPatch = ComponentPatch(
    name: Option<string>,
    manufacturer: Option<string>,
    partNumber: Option<string>,
    description: Option<string>,
    quantity: Option<int>,
    locationBin: Option<string>,
    category: Option<string>,
    threshold: Option<int>,
    datasheetLink: Option<string>,
    lastOutward: Option<Time>,
    createdBy: Option<UserId>,
    unitPrice: Option<real>)

  predicate PresentText(s: Option<string>) {
    s.None? || Trim(s.value) != ""
  }

  /** The request validators of the update route: present fields must pass. */
  predicate PatchAccepted(p: ComponentPatch) {
    && PresentText(p.name) && PresentText(p.manufacturer) && PresentText(p.partNumber)
    && PresentText(p.description) && PresentText(p.locationBin)
    && (p.quantity.None? || p.quantity.value >= 0)
    && (p.unitPrice.None? || PriceAccepted(p.unitPrice.value))
    && (p.category.None? || ParseCategory(p.category.value).Some?)
    && (p.threshold.None? || p.threshold.value >= 0)
  }

  /** The update validator that still runs when the document is saved: the datasheet link. */
  predicate PatchSavable(p: ComponentPatch) {
    ValidDatasheetLink(TrimOption(p.datasheetLink))
  }

  function TrimmedOr(s: Option<string>, current: string): string {
    if s.Some? then Trim(s.value) else current
  }

  /** The component after the patch: present fields replace the stored ones. */
  function Patched(c: Component, p: ComponentPatch, actor: User, now: Time): (u: Component)
    requires PatchAccepted(p)
    ensures p.quantity.None? ==> u.quantity == c.quantity
    ensures p.quantity.Some? ==> u.quantity == p.quantity.value
    ensures p.lastOutward.None? ==> u.lastOutward == c.lastOutward
    ensures p.lastOutward.Some? ==> u.lastOutward == p.lastOutward.value
    ensures p.partNumber.Some? ==> u.partNumber == NormalizePartNumber(p.partNumber.value)
    ensures p.partNumber.None? ==> u.partNumber == c.partNumber
    ensures p.createdBy.None? ==> u.createdBy == c.createdBy
    ensures p.createdBy.Some? ==> u.createdBy == p.createdBy.value
    ensures u.createdAt == c.createdAt
    ensures u.updatedBy == Some(actor.id) && u.updatedAt == now
  {
    Component(
      TrimmedOr(p.name, c.name),
      TrimmedOr(p.manufacturer, c.manufacturer),
      if p.partNumber.Some? then NormalizePartNumber(p.partNumber.value) else c.partNumber,
      TrimmedOr(p.description, c.description),
      p.quantity.GetOr(c.quantity),
      TrimmedOr(p.locationBin, c.locationBin),
      if p.category.Some? then ParseCategory(p.category.value).value else c.category,
      p.threshold.GetOr(c.threshold),
      if p.datasheetLink.Some? then TrimOption(p.datasheetLink) else c.datasheetLink,
      p.lastOutward.GetOr(c.lastOutward),
      p.createdBy.GetOr(c.createdBy),
      Some(actor.id),
      c.createdAt,
      now)
  }

  /** A valid component stays valid under an accepted patch whose link has the required shape. */
  lemma PatchedValid(c: Component, p: ComponentPatch, actor: User, now: Time)
    requires Valid(c) && PatchAccepted(p) && PatchSavable(p)
    ensures Valid(Patched(c, p, actor, now))
  {
    var u := Patched(c, p, actor, now);
    if p.partNumber.Some? {
      assert IsPartNumber(u.partNumber);
    }
  }

  /** The request fields an update can carry, under their names in the request body. */
  datatype Field =
    | NameField | ManufacturerField | PartNumberField | DescriptionField | QuantityField
    | LocationField | CategoryField | ThresholdField | DatasheetField | LastOutwardField
    | CreatedByField | UnitPriceField

  function FieldName(f: Field): string {
    match f
    case NameField => "component_name"
    case ManufacturerField => "manufacturer_supplier"
    case PartNumberField => "part_number"
    case DescriptionField => "description"
    case QuantityField => "quantity"
    case LocationField => "location_bin"
    case CategoryField => "category"
    case ThresholdField => "critical_low_threshold"
    case DatasheetField => "datasheet_link"
    case LastOutwardField => "last_outward"
    case CreatedByField => "createdBy"
    case UnitPriceField => "unit_price"
  }

  const ALL_FIELDS: seq<Field> := [
    NameField, ManufacturerField, PartNumberField, DescriptionField, QuantityField,
    LocationField, CategoryField, ThresholdField, DatasheetField, LastOutwardField,
    CreatedByField, UnitPriceField
  ]

  /** The patch carries field `f`. */
  predicate Carries(p: ComponentPatch, f: Field) {
    match f
    case NameField => p.name.Some?
    case ManufacturerField => p.manufacturer.Some?
    case PartNumberField => p.partNumber.Some?
    case DescriptionField => p.description.Some?
    case QuantityField => p.quantity.Some?
    case LocationField => p.locationBin.Some?
    case CategoryField => p.category.Some?
    case ThresholdField => p.threshold.Some?
    case DatasheetField => p.datasheetLink.Some?
    case LastOutwardField => p.lastOutward.Some?
    case CreatedByField => p.createdBy.Some?
    case UnitPriceField => p.unitPrice.Some?
  }

  /** The members of `fs` the patch carries, in the order of `fs`. */
  function CarriedAmong(p: ComponentPatch, fs: seq<Field>): (r: seq<Field>)
    ensures |r| <= |fs|
    ensures forall f :: f in r <==> f in fs && Carries(p, f)
  {
    if |fs| == 0 then []
    else (if Carries(p, fs[0]) then [fs[0]] else []) + CarriedAmong(p, fs[1..])
  }

  /** The fields present in the patch, in schema order. */
  function Fields(p: ComponentPatch): (fs: seq<Field>)
    ensures |fs| <= 12
    ensures forall f :: f in fs <==> Carries(p, f)
  {
    CarriedAmong(p, ALL_FIELDS)
  }

  /** The note of an `updated` entry, naming the fields the request carried. */
  function UpdateNote(p: ComponentPatch): string {
    "Updated fields: " + Join(seq(|Fields(p)|, i requires 0 <= i < |Fields(p)| => FieldName(Fields(p)[i])), ", ")
  }

  /** `PUT /components/:id` as written. The part-number clash is checked before the
      component is looked up, and the `updated` entry reads its previous quantity
      after the update, so it records no change even when the patch sets a new quantity. */
  function Update(inv: Inventory, actor: User, id: ComponentId, p: ComponentPatch, now: Time)
    : (r: Result<Inventory, Error>)
    ensures r.Success? <==>
              && actor.role in EDITORS && PatchAccepted(p)
              && (p.partNumber.Some? ==> !PartNumberTaken(inv.catalog, NormalizePartNumber(p.partNumber.value), Some(id)))
              && id in inv.catalog && PatchSavable(p)
    ensures actor.role !in EDITORS ==> r == Failure(Forbidden(EDITORS, actor.role))
    ensures actor.role in EDITORS && !PatchAccepted(p) ==> r == Failure(ValidationFailure)
    ensures actor.role in EDITORS && PatchAccepted(p) && p.partNumber.Some?
            && PartNumberTaken(inv.catalog, NormalizePartNumber(p.partNumber.value), Some(id)) ==>
              r == Failure(DuplicatePartNumber)
    ensures actor.role in EDITORS && PatchAccepted(p) && p.partNumber.None? && id !in inv.catalog ==>
              r == Failure(NotFound)
    ensures r.Success? ==>
              && r.value.catalog == inv.catalog[id := Patched(inv.catalog[id], p, actor, now)]
              && r.value.nextId == inv.nextId
    ensures r.Success? ==>
              AppendsOne(inv.logs, r.value.logs) &&
              var l := Last(r.value.logs);
              && l.action == LogSchema.Updated && l.component == id && l.user == actor.id
              && l.quantityChanged == 0 && l.previousQuantity == r.value.catalog[id].quantity
              && LogSchema.Balanced(l) && LogSchema.Valid(l)
  {
    match Auth.CheckRole(EDITORS, Some(actor))
    case Failure(e) => Failure(e)
    case Success(_) =>
      if !PatchAccepted(p) then Failure(ValidationFailure)
      else if p.partNumber.Some? && PartNumberTaken(inv.catalog, NormalizePartNumber(p.partNumber.value), Some(id)) then
        Failure(DuplicatePartNumber)
      else if id !in inv.catalog then Failure(NotFound)
      else if !PatchSavable(p) then Failure(SchemaViolation)
      else
        var c := Patched(inv.catalog[id], p, actor, now);
        var l := LogSchema.UpdatedEntry(id, 0, c.quantity, c.quantity, actor.id, UpdateNote(p), now);
        AppendedIsLast(inv.logs, l);
        Success(Inventory(inv.catalog[id := c], inv.logs + [l], inv.nextId))
  }

  /** The update with its audit entry corrected: the entry records the quantity the
      component had before the update and the change the patch made. Everything else,
      including which requests succeed, is as in `Update`. */
  function UpdateAudited(inv: Inventory, actor: User, id: ComponentId, p: ComponentPatch, now: Time)
    : (r: Result<Inventory, Error>)
    ensures r.Failure? <==> Update(inv, actor, id, p, now).Failure?
    ensures r.Failure? ==> r == Update(inv, actor, id, p, now)
    ensures r.Success? ==>
              && id in inv.catalog
              && r.value.catalog == Update(inv, actor, id, p, now).value.catalog
              && r.value.nextId == inv.nextId
    ensures r.Success? ==>
              AppendsOne(inv.logs, r.value.logs) &&
              var l := Last(r.value.logs);
              && l.action == LogSchema.Updated && l.component == id && l.user == actor.id
              && l.previousQuantity == inv.catalog[id].quantity
              && l.newQuantity == r.value.catalog[id].quantity
              && LogSchema.Balanced(l) && LogSchema.Valid(l)
  {
    match Update(inv, actor, id, p, now)
    case Failure(e) => Failure(e)
    case Success(after) =>
      var before := inv.catalog[id].quantity;
      var current := after.catalog[id].quantity;
      var l := after.logs[|inv.logs|].(quantityChanged := current - before, previousQuantity := before);
      AppendedIsLast(inv.logs, l);
      Success(after.(logs := inv.logs + [l]))
  }

  // ---------------------------------------------------------------- delete

  /** `DELETE /components/:id`: the `deleted` entry empties the stock, then the component goes. */
  function Delete(inv: Inventory, actor: User, id: ComponentId, now: Time): (r: Result<Inventory, Error>)
    ensures r.Success? <==> actor.role in ADMINS && id in inv.catalog
    ensures actor.role !in ADMINS ==> r == Failure(Forbidden(ADMINS, actor.role))
    ensures actor.role in ADMINS && id !in inv.catalog ==> r == Failure(NotFound)
    ensures r.Success? ==> r.value.catalog == inv.catalog - {id} && r.value.nextId == inv.nextId
    ensures r.Success? ==>
              AppendsOne(inv.logs, r.value.logs) &&
              var l := Last(r.value.logs);
              && l.action == LogSchema.Deleted && l.component == id && l.user == actor.id
              && l.previousQuantity == inv.catalog[id].quantity && l.newQuantity == 0
              && LogSchema.Balanced(l) && LogSchema.Valid(l)
  {
    match Auth.CheckRole(ADMINS, Some(actor))
    case Failure(e) => Failure(e)
    case Success(_) =>
      if id !in inv.catalog then Failure(NotFound)
      else
        var q := inv.catalog[id].quantity;
        var l := LogSchema.DeletedEntry(id, q, actor.id, now);
        AppendedIsLast(inv.logs, l);
        Success(Inventory(inv.catalog - {id}, inv.logs + [l], inv.nextId))
  }

  // ---------------------------------------------------------------- stock movements

  /** A record after `q` units were received into it. */
  function Received(c: Component, q: int, actor: User, now: Time): Component {
    Touch(c, actor, now).(quantity := c.quantity + q)
  }

  /** A record after `q` units were issued from it on `now`. */
  function Issued(c: Component, q: int, actor: User, now: Time): Component {
    Touch(c, actor, now).(quantity := c.quantity - q, lastOutward := now)
  }

  /** Receiving `q` units of component `id`: the stock grows by `q` and an `inward`
      entry records the movement. Shared by the route and the chatbot. */
  function ApplyInward(inv: Inventory, id: ComponentId, q: int, reason: string, projectName: Option<string>,
                       batchId: Option<string>, supplier: Option<LogSchema.SupplierInfo>,
                       notes: Option<string>, actor: User, now: Time): (r: Inventory)
    requires id in inv.catalog
    ensures id in r.catalog && r.catalog == inv.catalog[id := r.catalog[id]] && r.nextId == inv.nextId
    ensures r.catalog[id] == Received(inv.catalog[id], q, actor, now)
    ensures SameRecord(inv.catalog[id], r.catalog[id])
    ensures r.catalog[id].quantity == inv.catalog[id].quantity + q
    ensures r.catalog[id].lastOutward == inv.catalog[id].lastOutward
    ensures r.catalog[id].updatedBy == Some(actor.id) && r.catalog[id].updatedAt == now
    ensures
      AppendsOne(inv.logs, r.logs) &&
      var l := Last(r.logs);
      && l.action == LogSchema.Inward && l.component == id && l.user == actor.id
      && l.quantityChanged == q && l.previousQuantity == inv.catalog[id].quantity
      && LogSchema.Balanced(l)
      && (LogSchema.Valid(l) <==> Trim(reason) != "")
  {
    var c := inv.catalog[id];
    var l := LogSchema.Entry(id, LogSchema.Inward, q, c.quantity, c.quantity + q, reason, actor.id, notes, now)
               .(projectName := TrimOption(projectName), batchId := TrimOption(batchId), supplierInfo := supplier);
    AppendedIsLast(inv.logs, l);
    Inventory(inv.catalog[id := Received(c, q, actor, now)], inv.logs + [l], inv.nextId)
  }

  /** Issuing `q` units of component `id`: the stock shrinks by `q`, the issue date
      becomes `now` and an `outward` entry records the movement. Shared by the route
      and the chatbot. */
  function ApplyOutward(inv: Inventory, id: ComponentId, q: int, reason: string, projectName: Option<string>,
                        notes: Option<string>, actor: User, now: Time): (r: Inventory)
    requires id in inv.catalog
    ensures id in r.catalog && r.catalog[id] == Issued(inv.catalog[id], q, actor, now)
    ensures id in r.catalog && r.catalog == inv.catalog[id := r.catalog[id]] && r.nextId == inv.nextId
    ensures SameRecord(inv.catalog[id], r.catalog[id])
    ensures r.catalog[id].quantity == inv.catalog[id].quantity - q
    ensures r.catalog[id].lastOutward == now
    ensures r.catalog[id].updatedBy == Some(actor.id) && r.catalog[id].updatedAt == now
    ensures
      AppendsOne(inv.logs, r.logs) &&
      var l := Last(r.logs);
      && l.action == LogSchema.Outward && l.component == id && l.user == actor.id
      && l.quantityChanged == -q && l.previousQuantity == inv.catalog[id].quantity
      && LogSchema.Balanced(l)
      && (LogSchema.Valid(l) <==> Trim(reason) != "")
  {
    var c := inv.catalog[id];
    var e := LogSchema.Entry(id, LogSchema.Outward, -q, c.quantity, c.quantity - q, reason, actor.id, notes, now);
    var l := e.(projectName := TrimOption(projectName));
    ProjectKeepsValidity(e, projectName);
    AppendedIsLast(inv.logs, l);
    Inventory(inv.catalog[id := Issued(c, q, actor, now)], inv.logs + [l], inv.nextId)
  }

  /** Setting a trimmed project name on an entry keeps it as valid as it was. */
  lemma ProjectKeepsValidity(e: Log, projectName: Option<string>)
    requires e.projectName.None?
    ensures LogSchema.Valid(e.(projectName := TrimOption(projectName))) <==> LogSchema.Valid(e)
  {
  }

  /** Appending one entry makes it the last one. */
  lemma AppendedIsLast(logs: seq<Log>, l: Log)
    ensures AppendsOne(logs, logs + [l]) && Last(logs + [l]) == l
  {
    assert (logs + [l])[..|logs|] == logs;
  }

  /** The body of an inward request. */
  datatype InwardRequest = InwardRequest(
    quantity: Option<int>,
    reason: string,
    projectName: Option<string>,
    batchId: Option<string>,
    supplierInfo: Option<LogSchema.SupplierInfo>,
    notes: Option<string>)

  /** The validators of the inward route: a positive whole quantity and a reason. */
  predicate InwardAccepted(req: InwardRequest) {
    req.quantity.Some? && req.quantity.value >= 1 && Trim(req.reason) != ""
  }

  /** `POST /components/:id/inward`. */
  function Inward(inv: Inventory, actor: User, id: ComponentId, req: InwardRequest, now: Time)
    : (r: Result<Inventory, Error>)
    ensures r.Success? <==> actor.role in EDITORS && InwardAccepted(req) && id in inv.catalog
    ensures actor.role !in EDITORS ==> r == Failure(Forbidden(EDITORS, actor.role))
    ensures actor.role in EDITORS && !InwardAccepted(req) ==> r == Failure(ValidationFailure)
    ensures actor.role in EDITORS && InwardAccepted(req) && id !in inv.catalog ==> r == Failure(NotFound)
    ensures r.Success? ==>
              && id in inv.catalog && id in r.value.catalog
              && r.value.catalog[id].quantity == inv.catalog[id].quantity + req.quantity.value
              && r.value.catalog[id].quantity > inv.catalog[id].quantity
              && r.value.catalog[id].lastOutward == inv.catalog[id].lastOutward
              && AppendsOne(inv.logs, r.value.logs) && LogSchema.Valid(Last(r.value.logs))
    ensures r.Success? ==>
              r.value == ApplyInward(inv, id, req.quantity.value, req.reason, req.projectName, req.batchId,
                                     req.supplierInfo, req.notes, actor, now)
  {
    match Auth.CheckRole(EDITORS, Some(actor))
    case Failure(e) => Failure(e)
    case Success(_) =>
      if !InwardAccepted(req) then Failure(ValidationFailure)
      else if id !in inv.catalog then Failure(NotFound)
      else Success(ApplyInward(inv, id, req.quantity.value, req.reason, req.projectName, req.batchId,
                               req.supplierInfo, req.notes, actor, now))
  }

  /** The body of an outward request. */
  datatype OutwardRequest = OutwardRequest(
    quantity: Option<int>,
    reason: string,
    projectName: Option<string>,
    notes: Option<string>)

  /** The validators of the outward route: a positive whole quantity and a reason. */
  predicate OutwardAccepted(req: OutwardRequest) {
    req.quantity.Some? && req.quantity.value >= 1 && Trim(req.reason) != ""
  }

  /** `POST /components/:id/outward`. */
  function Outward(inv: Inventory, actor: User, id: ComponentId, req: OutwardRequest, now: Time)
    : (r: Result<Inventory, Error>)
    ensures r.Success? <==>
              && actor.role in ISSUERS && OutwardAccepted(req) && id in inv.catalog
              && inv.catalog[id].quantity >= req.quantity.value
    ensures actor.role !in ISSUERS ==> r == Failure(Forbidden(ISSUERS, actor.role))
    ensures actor.role in ISSUERS && !OutwardAccepted(req) ==> r == Failure(ValidationFailure)
    ensures actor.role in ISSUERS && OutwardAccepted(req) && id !in inv.catalog ==> r == Failure(NotFound)
    ensures actor.role in ISSUERS && OutwardAccepted(req) && id in inv.catalog
            && inv.catalog[id].quantity < req.quantity.value ==>
              r == Failure(InsufficientStock(inv.catalog[id].quantity, req.quantity.value))
    ensures r.Success? ==>
              && id in inv.catalog && id in r.value.catalog
              && r.value.catalog[id].quantity == inv.catalog[id].quantity - req.quantity.value
              && 0 <= r.value.catalog[id].quantity < inv.catalog[id].quantity
              && r.value.catalog[id].lastOutward == now
              && AppendsOne(inv.logs, r.value.logs) && LogSchema.Valid(Last(r.value.logs))
    ensures r.Success? ==>
              r.value == ApplyOutward(inv, id, req.quantity.value, req.reason, req.projectName, req.notes, actor, now)
  {
    match Auth.CheckRole(ISSUERS, Some(actor))
    case Failure(e) => Failure(e)
    case Success(_) =>
      if !OutwardAccepted(req) then Failure(ValidationFailure)
      else if id !in inv.catalog then Failure(NotFound)
      else if inv.catalog[id].quantity < req.quantity.value then
        Failure(InsufficientStock(inv.catalog[id].quantity, req.quantity.value))
      else Success(ApplyOutward(inv, id, req.quantity.value, req.reason, req.projectName, req.notes, actor, now))
  }

  /** The body of an adjustment request: the new absolute stock level. */
  datatype AdjustRequest = AdjustRequest(quantity: Option<int>, reason: string, notes: Option<string>)

  /** The validators of the adjust route: a non-negative whole quantity and a reason. */
  predicate AdjustAccepted(req: AdjustRequest) {
    req.quantity.Some? && req.quantity.value >= 0 && Trim(req.reason) != ""
  }

  /** `POST /components/:id/adjust`: sets the stock to the counted level. */
  function Adjust(inv: Inventory, actor: User, id: ComponentId, req: AdjustRequest, now: Time)
    : (r: Result<Inventory, Error>)
    ensures r.Success? <==> actor.role in ADMINS && AdjustAccepted(req) && id in inv.catalog
    ensures actor.role !in ADMINS ==> r == Failure(Forbidden(ADMINS, actor.role))
    ensures actor.role in ADMINS && !AdjustAccepted(req) ==> r == Failure(ValidationFailure)
    ensures actor.role in ADMINS && AdjustAccepted(req) && id !in inv.catalog ==> r == Failure(NotFound)
    ensures r.Success? ==>
              && id in r.value.catalog && r.value.catalog == inv.catalog[id := r.value.catalog[id]]
              && r.value.nextId == inv.nextId
              && SameRecord(inv.catalog[id], r.value.catalog[id])
              && r.value.catalog[id].quantity == req.quantity.value
              && r.value.catalog[id].lastOutward == inv.catalog[id].lastOutward
    ensures r.Success? ==>
              AppendsOne(inv.logs, r.value.logs) &&
              var l := Last(r.value.logs);
              && l.action == LogSchema.Adjustment && l.component == id && l.user == actor.id
              && l.previousQuantity == inv.catalog[id].quantity
              && l.quantityChanged == req.quantity.value - inv.catalog[id].quantity
              && LogSchema.Balanced(l) && LogSchema.Valid(l)
  {
    match Auth.CheckRole(ADMINS, Some(actor))
    case Failure(e) => Failure(e)
    case Success(_) =>
      if !AdjustAccepted(req) then Failure(ValidationFailure)
      else if id !in inv.catalog then Failure(NotFound)
      else
        var c := inv.catalog[id];
        var q := req.quantity.value;
        var l := LogSchema.Entry(id, LogSchema.Adjustment, q - c.quantity, c.quantity, q, req.reason,
                                 actor.id, req.notes, now);
        AppendedIsLast(inv.logs, l);
        Success(Inventory(inv.catalog[id := Touch(c, actor, now).(quantity := q)], inv.logs + [l], inv.nextId))
  }

  // ---------------------------------------------------------------- listing

  /** The query string of `GET /components`. Text matching (`$regex` with the
      case-insensitive option) is the oracle `matches(field, pattern)`. */
  datatype ListQuery = ListQuery(
    search: string,
    category: Option<string>,
    location: Option<string>,
    lowStock: bool,
    stale: bool,
    page: Option<int>,
    limit: Option<int>)

  /** The component satisfies every filter the query turns on. */
  predicate Selected(c: Component, q: ListQuery, now: Time, matches: (string, string) -> bool) {
    && (q.search == "" || matches(c.name, q.search) || matches(c.partNumber, q.search)
        || matches(c.description, q.search) || matches(c.manufacturer, q.search))
    && (q.category.None? || q.category.value == "" || q.category.value == "all"
        || CategoryName(c.category) == q.category.value)
    && (q.location.None? || q.location.value == "" || matches(c.locationBin, q.location.value))
    && (q.lowStock ==> IsLowStock(c))
    && (q.stale ==> IsStale(c, now))
  }

  /** `GET /components`: the matching components and the pagination block. The
      sort order and the slice of documents returned are left to the store. */
  function List(inv: Inventory, q: ListQuery, now: Time, matches: (string, string) -> bool)
    : (r: (set<ComponentId>, Pagination.Page))
    ensures forall k :: k in r.0 <==> k in inv.catalog && Selected(inv.catalog[k], q, now, matches)
    ensures r.1.total == |r.0|
    ensures r.1 == Pagination.Paginate(|r.0|, q.page, q.limit)
  {
    var ids := set k | k in inv.catalog && Selected(inv.catalog[k], q, now, matches);
    (ids, Pagination.Paginate(|ids|, q.page, q.limit))
  }

  /** A new component needs a unit price, and a negative one is refused, before the
      part number is even looked up. */
  lemma CreateNeedsPrice(inv: Inventory, actor: User, req: CreateRequest, now: Time)
    requires actor.role in EDITORS
    requires req.unitPrice.None? || req.unitPrice.value < 0.0
    ensures Create(inv, actor, req, now) == Failure(ValidationFailure)
  {
  }

  /** An update may leave the price out, but a negative one is refused whether or not the
      component exists. */
  lemma UpdateRefusesNegativePrice(inv: Inventory, actor: User, id: ComponentId, p: ComponentPatch, now: Time)
    requires actor.role in EDITORS
    requires p.unitPrice.Some? && p.unitPrice.value < 0.0
    ensures Update(inv, actor, id, p, now) == Failure(ValidationFailure)
  {
  }

  /** Whatever order the store sorts the matching components in, the page it returns
      holds at most `limit` of them and nothing else. */
  lemma ListPageHoldsSelected(inv: Inventory, q: ListQuery, now: Time, matches: (string, string) -> bool,
                              sorted: seq<ComponentId>)
    requires forall k :: k in sorted <==> k in List(inv, q, now, matches).0
    requires List(inv, q, now, matches).1.limit > 0 && List(inv, q, now, matches).1.skip >= 0
    ensures |Pagination.Slice(sorted, List(inv, q, now, matches).1)| <= List(inv, q, now, matches).1.limit
    ensures forall k :: k in Pagination.Slice(sorted, List(inv, q, now, matches).1) ==>
              k in inv.catalog && Selected(inv.catalog[k], q, now, matches)
  {
    Pagination.SliceWithinPage(sorted, List(inv, q, now, matches).1);
  }

  /** With no filter turned on, the listing counts the whole catalog. */
  lemma ListWithoutFilters(inv: Inventory, q: ListQuery, now: Time, matches: (string, string) -> bool)
    requires q.search == "" && q.category.None? && q.location.None? && !q.lowStock && !q.stale
    ensures List(inv, q, now, matches).0 == inv.catalog.Keys
    ensures List(inv, q, now, matches).1.total == |inv.catalog|
  {
    assert List(inv, q, now, matches).0 == inv.catalog.Keys;
  }
}
