/**
 The audit-log record: one entry per stock transaction, referring to the
 component it concerns (the reference outlives the component) and to the
 acting user. The schema requires the three quantity fields but relates them
 in no way; that `previous + changed == new` holds is up to the writers.
 */
module LogSchema {
  import opened Wrappers
  import opened Domain
  import opened Text
  import ComponentSchema

  datatype Action = Inward | Outward | Adjustment | Created | Updated | Deleted

  function ActionName(a: Action): string {
    match a
    case Inward => "inward"
    case Outward => "outward"
    case Adjustment => "adjustment"
    case Created => "created"
    case Updated => "updated"
    case Deleted => "deleted"
  }

  /** The action enumeration check. */
  function ParseAction(s: string): (r: Option<Action>)
    ensures r.Some? ==> ActionName(r.value) == s
    ensures r.None? ==> s !in ["inward", "outward", "adjustment", "created", "updated", "deleted"]
  {
    if s == "inward" then Some(Inward)
    else if s == "outward" then Some(Outward)
    else if s == "adjustment" then Some(Adjustment)
    else if s == "created" then Some(Created)
    else if s == "updated" then Some(Updated)
    else if s == "deleted" then Some(Deleted)
    else None
  }

  lemma ActionRoundTrip(a: Action)
    ensures ParseAction(ActionName(a)) == Some(a)
  {
  }

  /** The supplier sub-document of an inward entry (its unit cost is a float and left out). */
  datatype SupplierInfo = SupplierInfo(name: Option<string>, invoiceNumber: Option<string>, purchaseDate: Option<Time>)

  datatype Log = Log(
    component: ComponentId,
    action: Action,
    quantityChanged: int,
    previousQuantity: int,
    newQuantity: int,
    reason: string,
    projectName: Option<string>,
    user: UserId,
    notes: Option<string>,
    batchId: Option<string>,
    supplierInfo: Option<SupplierInfo>,
    createdAt: Time)

  /** The quantity fields tell one consistent story. */
  predicate Balanced(l: Log) {
    l.previousQuantity + l.quantityChanged == l.newQuantity
  }

  predicate TrimmedOption(s: Option<string>) {
    s.None? || IsTrimmed(s.value)
  }

  /** The schema's constraints on a stored entry: the reason is required after
      trimming, the optional text fields are trimmed. */
  predicate Valid(l: Log) {
    && ComponentSchema.RequiredText(l.reason)
    && TrimmedOption(l.projectName)
    && TrimmedOption(l.notes)
    && TrimmedOption(l.batchId)
  }

  /** The schema constrains neither the sign nor the consistency of the quantity fields. */
  lemma SchemaAllowsUnbalancedEntries()
    ensures exists l :: Valid(l) && !Balanced(l) && l.quantityChanged < 0 && l.newQuantity < 0
  {
    var l := Log(0, Inward, -1, 5, -7, "x", None, 0, None, None, None, 0);
    assert Valid(l) && !Balanced(l);
  }

  /** The entry `new Log({...})` builds at time `now`, its setters trimming the
      reason and the optional text; it saves only if the trimmed reason is not empty. */
  function Entry(component: ComponentId, action: Action, changed: int, previous: int, current: int,
                 reason: string, user: UserId, notes: Option<string>, now: Time): (l: Log)
    ensures Valid(l) <==> Trim(reason) != ""
    ensures l.component == component && l.action == action && l.user == user && l.createdAt == now
    ensures l.quantityChanged == changed && l.previousQuantity == previous && l.newQuantity == current
    ensures l.projectName.None? && l.batchId.None? && l.supplierInfo.None?
  {
    Log(component, action, changed, previous, current, Trim(reason), None, user,
        ComponentSchema.TrimOption(notes), None, None, now)
  }

  /** The reasons the component handlers write on the entries they make themselves. */
  const CREATED_REASON: string := "Component created"
  const UPDATED_REASON: string := "Component updated"
  const DELETED_REASON: string := "Component deleted"

  /** The entry recording that a component was created with `quantity` units. */
  function CreatedEntry(component: ComponentId, quantity: int, user: UserId, now: Time): (l: Log)
    ensures l.action == Created && l.component == component && l.user == user && l.createdAt == now
    ensures l.previousQuantity == 0 && l.quantityChanged == quantity && l.newQuantity == quantity
    ensures Valid(l) && Balanced(l)
  {
    TrimTrimmed(CREATED_REASON);
    Entry(component, Created, quantity, 0, quantity, CREATED_REASON, user, None, now)
  }

  /** The entry recording an update of a component, with the given quantity fields and note. */
  function UpdatedEntry(component: ComponentId, changed: int, previous: int, current: int,
                        user: UserId, note: string, now: Time): (l: Log)
    ensures l.action == Updated && l.component == component && l.user == user && l.createdAt == now
    ensures l.quantityChanged == changed && l.previousQuantity == previous && l.newQuantity == current
    ensures l.notes.Some?
    ensures Valid(l)
  {
    TrimTrimmed(UPDATED_REASON);
    Entry(component, Updated, changed, previous, current, UPDATED_REASON, user, Some(note), now)
  }

  /** The entry recording that a component holding `quantity` units was deleted. */
  function DeletedEntry(component: ComponentId, quantity: int, user: UserId, now: Time): (l: Log)
    ensures l.action == Deleted && l.component == component && l.user == user && l.createdAt == now
    ensures l.previousQuantity == quantity && l.quantityChanged == -quantity && l.newQuantity == 0
    ensures Valid(l) && Balanced(l)
  {
    TrimTrimmed(DELETED_REASON);
    Entry(component, Deleted, -quantity, quantity, 0, DELETED_REASON, user, None, now)
  }
}
