/**
 The Component record (one stocked part) and the constraints its schema puts
 on every stored component: required trimmed text, the normalised unique part
 number, non-negative quantity and threshold, the category enumeration, the
 datasheet-link shape, the defaults, and the two derived flags `isLowStock`
 and `isStale`. The record does not carry the monetary `unit_price`;
 the create and update requests check it.
 */
module ComponentSchema {
  import opened Wrappers
  import opened Domain
  import opened Text

  datatype Category =
    | ICs | Resistors | Capacitors | Inductors | Diodes | Transistors
    | Connectors | Sensors | Modules | PCBs | Tools | Others

  const CATEGORY_NAMES: seq<string> := [
    "ICs", "Resistors", "Capacitors", "Inductors", "Diodes", "Transistors",
    "Connectors", "Sensors", "Modules", "PCBs", "Tools", "Others"
  ]

  function CategoryName(c: Category): string {
    match c
    case ICs => "ICs"
    case Resistors => "Resistors"
    case Capacitors => "Capacitors"
    case Inductors => "Inductors"
    case Diodes => "Diodes"
    case Transistors => "Transistors"
    case Connectors => "Connectors"
    case Sensors => "Sensors"
    case Modules => "Modules"
    case PCBs => "PCBs"
    case Tools => "Tools"
    case Others => "Others"
  }

  /** The category enumeration check: exactly the twelve listed names, case-sensitive. */
  function ParseCategory(s: string): (r: Option<Category>)
    ensures r.Some? <==> s in CATEGORY_NAMES
    ensures r.Some? ==> CategoryName(r.value) == s
  {
    if s == "ICs" then Some(ICs)
    else if s == "Resistors" then Some(Resistors)
    else if s == "Capacitors" then Some(Capacitors)
    else if s == "Inductors" then Some(Inductors)
    else if s == "Diodes" then Some(Diodes)
    else if s == "Transistors" then Some(Transistors)
    else if s == "Connectors" then Some(Connectors)
    else if s == "Sensors" then Some(Sensors)
    else if s == "Modules" then Some(Modules)
    else if s == "PCBs" then Some(PCBs)
    else if s == "Tools" then Some(Tools)
    else if s == "Others" then Some(Others)
    else None
  }

  /** Every category is accepted under its own name. */
  lemma CategoryRoundTrip(c: Category)
    ensures ParseCategory(CategoryName(c)) == Some(c)
  {
  }

  const DEFAULT_QUANTITY: int := 0
  const DEFAULT_THRESHOLD: int := 10
  /** "No outward in 90+ days": `setDate(getDate() - 90)`, taken as 90 whole days. */
  const STALE_AFTER: int := 90 * DAY

  datatype Component = Component(
    name: string,
    manufacturer: string,
    partNumber: string,
    description: string,
    quantity: int,
    locationBin: string,
    category: Category,
    threshold: int,             // critical_low_threshold
    datasheetLink: Option<string>,
    lastOutward: Time,
    createdBy: UserId,
    updatedBy: Option<UserId>,
    createdAt: Time,
    updatedAt: Time)

  /** A required, trimmed string field: the stored value is trimmed and not empty. */
  predicate RequiredText(s: string) {
    s != "" && IsTrimmed(s)
  }

  /** A stored part number: required, trimmed and upper-case. */
  predicate IsPartNumber(p: string) {
    RequiredText(p) && ToUpper(p) == p
  }

  /** What the part number becomes when saved: trimmed, then upper-cased. */
  function NormalizePartNumber(p: string): (r: string)
    ensures Trim(p) != "" <==> IsPartNumber(r)
    ensures IsPartNumber(p) ==> r == p
    ensures ToUpper(Trim(r)) == r
  {
    NormalizeFacts(p);
    ToUpper(Trim(p))
  }

  lemma NormalizeFacts(p: string)
    ensures Trim(p) != "" <==> IsPartNumber(ToUpper(Trim(p)))
    ensures IsPartNumber(p) ==> ToUpper(Trim(p)) == p
    ensures ToUpper(Trim(ToUpper(Trim(p)))) == ToUpper(Trim(p))
  {
    var t := Trim(p);
    ToUpperNormal(t);
    TrimTrimmed(ToUpper(t));
    if IsPartNumber(p) {
      TrimTrimmed(p);
    }
  }

  /** `/^https?:\/\/.+/`: the scheme, then at least one character that `.` matches. */
  predicate IsHttpUrl(v: string) {
    || ("http://" <= v && |v| > 7 && !IsLineTerminator(v[7]))
    || ("https://" <= v && |v| > 8 && !IsLineTerminator(v[8]))
  }

  /** The datasheet-link validator: absent, empty, or an http(s) URL. */
  predicate ValidDatasheetLink(link: Option<string>) {
    link.None? || link.value == "" || IsHttpUrl(link.value)
  }

  /** Every constraint the schema puts on a stored component. */
  predicate Valid(c: Component) {
    && RequiredText(c.name)
    && RequiredText(c.manufacturer)
    && IsPartNumber(c.partNumber)
    && RequiredText(c.description)
    && c.quantity >= 0
    && RequiredText(c.locationBin)
    && c.threshold >= 0
    && ValidDatasheetLink(c.datasheetLink)
    && (c.datasheetLink.Some? ==> IsTrimmed(c.datasheetLink.value))
  }

  /** The virtual `isLowStock`. */
  predicate IsLowStock(c: Component) {
    c.quantity <= c.threshold
  }

  /** The virtual `isStale`; unlike the stale-stock scan it does not look at the quantity. */
  predicate IsStale(c: Component, now: Time) {
    c.lastOutward < now - STALE_AFTER
  }

  /** The fields a new component is built from; absent numbers and dates take the schema defaults. */
  datatype Draft = Draft(
    name: string,
    manufacturer: string,
    partNumber: string,
    description: string,
    quantity: Option<int>,
    locationBin: string,
    category: Category,
    threshold: Option<int>,
    datasheetLink: Option<string>,
    lastOutward: Option<Time>,
    createdBy: UserId)

  function TrimOption(s: Option<string>): (r: Option<string>)
    ensures r.Some? <==> s.Some?
    ensures r.Some? ==> r.value == Trim(s.value)
  {
    match s
    case None => None
    case Some(v) => Some(Trim(v))
  }

  /** The draft passes the schema validators once the setters have run. */
  predicate SavableDraft(d: Draft) {
    && Trim(d.name) != "" && Trim(d.manufacturer) != "" && Trim(d.partNumber) != ""
    && Trim(d.description) != "" && Trim(d.locationBin) != ""
    && d.quantity.GetOr(DEFAULT_QUANTITY) >= 0 && d.threshold.GetOr(DEFAULT_THRESHOLD) >= 0
    && ValidDatasheetLink(TrimOption(d.datasheetLink))
  }

  lemma InstantiateValid(d: Draft, c: Component)
    requires c.name == Trim(d.name) && c.manufacturer == Trim(d.manufacturer)
    requires c.partNumber == NormalizePartNumber(d.partNumber) && c.description == Trim(d.description)
    requires c.quantity == d.quantity.GetOr(DEFAULT_QUANTITY) && c.locationBin == Trim(d.locationBin)
    requires c.threshold == d.threshold.GetOr(DEFAULT_THRESHOLD)
    requires c.datasheetLink == TrimOption(d.datasheetLink)
    ensures Valid(c) <==> SavableDraft(d)
  {
  }

  /** The document `new Component(draft)` builds at time `now`: setters trim the
      text fields and normalise the part number, defaults fill the gaps. */
  function Instantiate(d: Draft, now: Time): (c: Component)
    ensures c.quantity == (if d.quantity.Some? then d.quantity.value else DEFAULT_QUANTITY)
    ensures c.threshold == (if d.threshold.Some? then d.threshold.value else DEFAULT_THRESHOLD)
    ensures c.lastOutward == (if d.lastOutward.Some? then d.lastOutward.value else now)
    ensures c.partNumber == NormalizePartNumber(d.partNumber) && c.category == d.category
    ensures c.createdBy == d.createdBy && c.createdAt == now && c.updatedAt == now && c.updatedBy.None?
    ensures Valid(c) <==> SavableDraft(d)
  {
    var c := Component(
      Trim(d.name), Trim(d.manufacturer), NormalizePartNumber(d.partNumber), Trim(d.description),
      d.quantity.GetOr(DEFAULT_QUANTITY), Trim(d.locationBin), d.category,
      d.threshold.GetOr(DEFAULT_THRESHOLD), TrimOption(d.datasheetLink),
      d.lastOutward.GetOr(now), d.createdBy, None, now, now);
    InstantiateValid(d, c);
    c
  }

  /** A component saved with every default is valid only with its text fields
      present, and it is born low on stock (0 <= 10) but not stale. */
  lemma DefaultsGiveLowStockFreshComponent(d: Draft, now: Time)
    requires d.quantity.None? && d.threshold.None? && d.lastOutward.None?
    ensures IsLowStock(Instantiate(d, now))
    ensures !IsStale(Instantiate(d, now), now)
    ensures Valid(Instantiate(d, now)) <==>
              && Trim(d.name) != "" && Trim(d.manufacturer) != "" && Trim(d.partNumber) != ""
              && Trim(d.description) != "" && Trim(d.locationBin) != ""
              && ValidDatasheetLink(TrimOption(d.datasheetLink))
  {
  }
}
