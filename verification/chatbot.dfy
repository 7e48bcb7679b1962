/**
 The inventory assistant: a chat message is lower-cased and trimmed, then the
 first command family whose keywords it mentions (and whose pattern it fits)
 handles it. Inward and outward commands move stock through the same store
 updates as the component routes, but with their own guard order: the
 component is looked up before the caller's role is checked, and a quantity
 of zero is not refused.

 Regular-expression matching is not modelled: what the command patterns
 capture is given as a `Parse` of the lowered message, and whether a stored
 text matches a user-supplied pattern is the parameter `matches`.
 */
module Chatbot {
  import opened Wrappers
  import opened Domain
  import opened Text
  import opened ComponentSchema
  import LogSchema
  import opened ComponentRoutes
  import AuditLedger
  import Keys

  // ---------------------------------------------------------------- parsed commands

  /** What an inward or outward pattern captures: a count of units (digits only,
      so never negative), the component pattern and the optional `for` clause. */
  datatype Command = Command(quantity: nat, term: string, forClause: Option<string>)

  /** The captures of the command patterns on the lowered message; `None` where a
      pattern does not match. */
  datatype Parse = Parse(
    inward: Option<Command>,
    outward: Option<Command>,
    search: Option<string>,
    category: Option<string>)

  /** A `for` clause ends the trimmed message, so it holds a non-space character. */
  predicate WellFormed(p: Parse) {
    && (p.inward.Some? && p.inward.value.forClause.Some? ==> Trim(p.inward.value.forClause.value) != "")
    && (p.outward.Some? && p.outward.value.forClause.Some? ==> Trim(p.outward.value.forClause.value) != "")
  }

  const INWARD_WORDS: seq<string> := ["add", "inward", "stock"]
  const OUTWARD_WORDS: seq<string> := ["remove", "outward", "take"]
  const SEARCH_WORDS: seq<string> := ["show", "find", "search", "what is"]
  const LOW_STOCK_WORDS: seq<string> := ["low stock", "low inventory"]
  const CATEGORY_WORDS: seq<string> := ["show all", "list all"]

  /** The reason written on a chat inward entry without a `for` clause. */
  const INWARD_REASON: string := "Chatbot inventory addition"
  const INWARD_NOTE: string := "Added via chatbot"
  /** The reason of every chat outward entry, and its project when no `for` clause is given. */
  const OUTWARD_REASON: string := "Chatbot inventory removal"
  const OUTWARD_NOTE: string := "Removed via chatbot"

  const SEARCH_LIMIT: nat := 5
  const REPORT_LIMIT: nat := 10
  /** Longest accepted message, in UTF-16 code units after trimming. */
  const MAX_MESSAGE: nat := 500

  /** The category words the assistant recognises, in the order it tries them. */
  const CATEGORY_KEYS: seq<string> :=
    ["ics", "resistors", "capacitors", "inductors", "diodes", "transistors",
     "connectors", "sensors", "modules", "pcbs", "tools"]

  function InwardReason(c: Command): string {
    c.forClause.GetOr(INWARD_REASON)
  }

  function OutwardProject(c: Command): string {
    c.forClause.GetOr(OUTWARD_REASON)
  }

  /** The default texts survive the log's trimming setter. */
  lemma DefaultReasonsValid()
    ensures Trim(INWARD_REASON) == INWARD_REASON != ""
    ensures Trim(OUTWARD_REASON) == OUTWARD_REASON != ""
  {
    InwardReasonTrimmed();
    OutwardReasonTrimmed();
    TrimTrimmed(INWARD_REASON);
    TrimTrimmed(OUTWARD_REASON);
  }

  lemma InwardReasonTrimmed()
    ensures IsTrimmed(INWARD_REASON) && INWARD_REASON != ""
  {
    assert INWARD_REASON[0] == 'C';
    assert INWARD_REASON[|INWARD_REASON| - 1] == 'n';
  }

  lemma OutwardReasonTrimmed()
    ensures IsTrimmed(OUTWARD_REASON) && OUTWARD_REASON != ""
  {
    assert OUTWARD_REASON[0] == 'C';
    assert OUTWARD_REASON[|OUTWARD_REASON| - 1] == 'l';
  }

  // ---------------------------------------------------------------- command families

  datatype Branch = InwardBranch | OutwardBranch | SearchBranch | LowStockBranch | CategoryBranch | HelpBranch | NoBranch

  /** The order in which the assistant tries the command families. */
  const ORDER: seq<Branch> := [InwardBranch, OutwardBranch, SearchBranch, LowStockBranch, CategoryBranch, HelpBranch]

  /** The order that lets "show low stock" and "show all …" reach their reports:
      the two reports are tried before the general search. */
  const CORRECTED_ORDER: seq<Branch> := [InwardBranch, OutwardBranch, LowStockBranch, CategoryBranch, SearchBranch, HelpBranch]

  /** The category word the captured text names: the first key that contains it or that it contains. */
  function MatchCategory(term: string): (r: Option<string>)
    ensures r.Some? ==> exists i :: 0 <= i < |CATEGORY_KEYS| && CATEGORY_KEYS[i] == r.value && NamesKey(term, CATEGORY_KEYS[i])
                                    && forall j :: 0 <= j < i ==> !NamesKey(term, CATEGORY_KEYS[j])
    ensures r.None? <==> forall i :: 0 <= i < |CATEGORY_KEYS| ==> !NamesKey(term, CATEGORY_KEYS[i])
  {
    FirstKey(CATEGORY_KEYS, term)
  }

  predicate NamesKey(term: string, key: string) {
    Contains(ToLower(term), key) || Contains(key, ToLower(term))
  }

  function FirstKey(keys: seq<string>, term: string): (r: Option<string>)
    ensures r.Some? ==> exists i :: 0 <= i < |keys| && keys[i] == r.value && NamesKey(term, keys[i])
                                    && forall j :: 0 <= j < i ==> !NamesKey(term, keys[j])
    ensures r.None? <==> forall i :: 0 <= i < |keys| ==> !NamesKey(term, keys[i])
  {
    if |keys| == 0 then None
    else if NamesKey(term, keys[0]) then Some(keys[0])
    else
      var r := FirstKey(keys[1..], term);
      FirstKeyShift(keys, term, r);
      r
  }

  /** The first key naming the term among all keys, when the first key does not name it,
      is the first such key among the rest. */
  lemma FirstKeyShift(keys: seq<string>, term: string, r: Option<string>)
    requires |keys| > 0 && !NamesKey(term, keys[0])
    requires r.Some? ==> exists i :: 0 <= i < |keys[1..]| && keys[1..][i] == r.value && NamesKey(term, keys[1..][i])
                                     && forall j :: 0 <= j < i ==> !NamesKey(term, keys[1..][j])
    requires r.None? <==> forall i :: 0 <= i < |keys[1..]| ==> !NamesKey(term, keys[1..][i])
    ensures r.Some? ==> exists i :: 0 <= i < |keys| && keys[i] == r.value && NamesKey(term, keys[i])
                                    && forall j :: 0 <= j < i ==> !NamesKey(term, keys[j])
    ensures r.None? <==> forall i :: 0 <= i < |keys| ==> !NamesKey(term, keys[i])
  {
    if r.Some? {
      var i :| 0 <= i < |keys[1..]| && keys[1..][i] == r.value && NamesKey(term, keys[1..][i])
               && forall j :: 0 <= j < i ==> !NamesKey(term, keys[1..][j]);
      assert keys[i + 1] == keys[1..][i];
      forall j | 0 < j < i + 1
        ensures !NamesKey(term, keys[j])
      {
        assert keys[j] == keys[1..][j - 1];
      }
    } else {
      forall i | 0 < i < |keys|
        ensures !NamesKey(term, keys[i])
      {
        assert keys[i] == keys[1..][i - 1];
      }
    }
  }

  /** Which families the lowered message asks for: its keywords, and a match of
      the family's pattern where the family has one. */
  datatype Signals = Signals(inward: bool, outward: bool, search: bool, lowStock: bool, category: bool, help: bool)

  function Detect(lower: string, p: Parse): Signals {
    Signals(
      ContainsAny(lower, INWARD_WORDS) && p.inward.Some?,
      ContainsAny(lower, OUTWARD_WORDS) && p.outward.Some?,
      ContainsAny(lower, SEARCH_WORDS) && p.search.Some?,
      ContainsAny(lower, LOW_STOCK_WORDS),
      ContainsAny(lower, CATEGORY_WORDS) && p.category.Some? && MatchCategory(Trim(p.category.value)).Some?,
      Contains(lower, "help") || lower == "?")
  }

  /** Does family `b` take a message raising `s`? */
  predicate Fires(b: Branch, s: Signals) {
    match b
    case InwardBranch => s.inward
    case OutwardBranch => s.outward
    case SearchBranch => s.search
    case LowStockBranch => s.lowStock
    case CategoryBranch => s.category
    case HelpBranch => s.help
    case NoBranch => false
  }

  /** The message asks for no family at all. */
  predicate Silent(s: Signals) {
    !s.inward && !s.outward && !s.search && !s.lowStock && !s.category && !s.help
  }

  /** The first family in `order` that takes the message. */
  function Choose(order: seq<Branch>, s: Signals): (b: Branch)
    ensures b != NoBranch ==>
              && Fires(b, s)
              && exists i :: 0 <= i < |order| && order[i] == b && forall j :: 0 <= j < i ==> !Fires(order[j], s)
    ensures b == NoBranch <==> forall i :: 0 <= i < |order| ==> !Fires(order[i], s)
  {
    if |order| == 0 then NoBranch
    else if Fires(order[0], s) then order[0]
    else
      var b := Choose(order[1..], s);
      assert forall i :: 1 <= i < |order| ==> order[i] == order[1..][i - 1];
      b
  }

  // ---------------------------------------------------------------- looking components up

  /** The component's name or part number matches the pattern. */
  predicate NameOrPart(c: Component, term: string, matches: (string, string) -> bool) {
    matches(c.name, term) || matches(c.partNumber, term)
  }

  /** The component's name, part number or description matches the pattern. */
  predicate Mentions(c: Component, term: string, matches: (string, string) -> bool) {
    NameOrPart(c, term, matches) || matches(c.description, term)
  }

  /** The listing filter on the category: its name, ignoring case, contains the category word. */
  predicate InCategory(c: Component, proper: string) {
    Contains(ToLower(CategoryName(c.category)), ToLower(proper))
  }

  /** At most `limit` components satisfying `keep`, the first ones in store order
      (approximated by ascending identifiers). */
  function FirstMatching(catalog: map<ComponentId, Component>, keep: Component -> bool, limit: nat)
    : (ids: seq<ComponentId>)
    ensures |ids| <= limit
    ensures forall i :: 0 <= i < |ids| ==> ids[i] in catalog && keep(catalog[ids[i]])
    ensures forall i, j :: 0 <= i < j < |ids| ==> ids[i] < ids[j]
    ensures forall k :: k in catalog && keep(catalog[k]) && k !in ids ==>
              |ids| == limit && forall i :: 0 <= i < |ids| ==> ids[i] < k
  {
    var all := Keys.InOrder(catalog, keep);
    var ids := if |all| <= limit then all else all[..limit];
    TakeFacts(catalog, keep, limit, all, ids);
    ids
  }

  /** Cutting the ascending list of all matches at `limit` keeps the first ones. */
  lemma TakeFacts(catalog: map<ComponentId, Component>, keep: Component -> bool, limit: nat,
                  all: seq<ComponentId>, ids: seq<ComponentId>)
    requires forall i :: 0 <= i < |all| ==> all[i] in catalog && keep(catalog[all[i]])
    requires forall k :: k in catalog && keep(catalog[k]) ==> k in all
    requires forall i, j :: 0 <= i < j < |all| ==> all[i] < all[j]
    requires ids == if |all| <= limit then all else all[..limit]
    ensures |ids| <= limit
    ensures forall i :: 0 <= i < |ids| ==> ids[i] in catalog && keep(catalog[ids[i]])
    ensures forall i, j :: 0 <= i < j < |ids| ==> ids[i] < ids[j]
    ensures forall k :: k in catalog && keep(catalog[k]) && k !in ids ==>
              |ids| == limit && forall i :: 0 <= i < |ids| ==> ids[i] < k
  {
    assert forall i :: 0 <= i < |ids| ==> ids[i] == all[i];
    PrefixPrecedes(all, ids);
  }

  /** With room for one, the selection is empty only when nothing satisfies `keep`. */
  lemma FirstMatchingEmpty(catalog: map<ComponentId, Component>, keep: Component -> bool, limit: nat)
    requires limit > 0
    ensures |FirstMatching(catalog, keep, limit)| == 0 <==> forall k :: k in catalog ==> !keep(catalog[k])
  {
    var ids := FirstMatching(catalog, keep, limit);
    if |ids| > 0 {
      assert ids[0] in catalog && keep(catalog[ids[0]]);
    }
  }

  /** Whatever an ascending sequence holds beyond a prefix comes after every element of the prefix. */
  lemma PrefixPrecedes(all: seq<ComponentId>, ids: seq<ComponentId>)
    requires ids <= all
    requires forall i, j :: 0 <= i < j < |all| ==> all[i] < all[j]
    ensures forall k :: k in all && k !in ids ==> |ids| < |all| && forall i :: 0 <= i < |ids| ==> ids[i] < k
  {
    forall k | k in all && k !in ids
      ensures |ids| < |all| && forall i :: 0 <= i < |ids| ==> ids[i] < k
    {
      var j :| 0 <= j < |all| && all[j] == k;
      assert j >= |ids|;
    }
  }

  /** The component an inward or outward command acts on: the first whose name or part number matches. */
  function FindOne(catalog: map<ComponentId, Component>, term: string, matches: (string, string) -> bool)
    : (r: Option<ComponentId>)
    ensures r.Some? ==> r.value in catalog && NameOrPart(catalog[r.value], term, matches)
    ensures r.Some? ==> forall k :: k in catalog && NameOrPart(catalog[k], term, matches) ==> r.value <= k
    ensures r.None? <==> forall k :: k in catalog ==> !NameOrPart(catalog[k], term, matches)
  {
    var keep := c => NameOrPart(c, term, matches);
    var all := Keys.InOrder(catalog, keep);
    HeadIsFirstNamed(catalog, term, matches, keep, all);
    if |all| == 0 then None else Some(all[0])
  }

  /** The head of the ascending list of matches is the least match. */
  lemma HeadIsFirstNamed(catalog: map<ComponentId, Component>, term: string, matches: (string, string) -> bool,
                         keep: Component -> bool, all: seq<ComponentId>)
    requires forall c :: keep(c) == NameOrPart(c, term, matches)
    requires forall i :: 0 <= i < |all| ==> all[i] in catalog && keep(catalog[all[i]])
    requires forall k :: k in catalog && keep(catalog[k]) ==> k in all
    requires Keys.Increasing(all)
    ensures |all| > 0 ==> all[0] in catalog && NameOrPart(catalog[all[0]], term, matches)
    ensures |all| > 0 ==> forall k :: k in catalog && NameOrPart(catalog[k], term, matches) ==> all[0] <= k
    ensures |all| == 0 <==> forall k :: k in catalog ==> !NameOrPart(catalog[k], term, matches)
  {
    if |all| > 0 {
      HeadIsLeast(all);
    }
  }

  /** The head of an ascending sequence is its least element. */
  lemma HeadIsLeast(all: seq<nat>)
    requires |all| > 0 && Keys.Increasing(all)
    ensures forall k :: k in all ==> all[0] <= k
  {
    forall k | k in all
      ensures all[0] <= k
    {
      var j :| 0 <= j < |all| && all[j] == k;
      assert j == 0 || all[0] < all[j];
    }
  }

  /** `Capitalize` upper-cases the first letter only. */
  function Capitalize(s: string): (r: string)
    ensures |r| == |s|
    ensures |s| > 0 ==> r[0] == UpperChar(s[0]) && r[1..] == s[1..]
  {
    if |s| == 0 then s else [UpperChar(s[0])] + s[1..]
  }

  lemma CapitalizeExample()
    ensures Capitalize("ics") == "Ics"
  {
  }

  // ---------------------------------------------------------------- replies

  datatype Reply =
    | Added(component: ComponentId, previous: int, current: int, added: nat)
    | Removed(component: ComponentId, previous: int, current: int, removed: nat, project: string)
    | ComponentNotFound(term: string)
    | NotPermitted(operation: LogSchema.Action)
    | NotEnough(available: int, requested: nat)
    | SearchResults(term: string, found: seq<ComponentId>)
    | LowStockList(found: seq<ComponentId>)
    | CategoryList(category: string, found: seq<ComponentId>)
    | Help
    | NotUnderstood

  /** The `success` flag sent with the reply. */
  predicate Succeeded(r: Reply) {
    match r
    case Added(_, _, _, _) => true
    case Removed(_, _, _, _, _) => true
    case SearchResults(_, found) => |found| > 0
    case LowStockList(_) => true
    case CategoryList(_, found) => |found| > 0
    case Help => true
    case _ => false
  }

  /** The stock changes only on a successful movement reply. */
  predicate Moves(r: Reply) {
    r.Added? || r.Removed?
  }

  // ---------------------------------------------------------------- handling a message

  /** The inward command: find, then check the role, then add `quantity` units. */
  function InwardCommand(inv: Inventory, user: User, cmd: Command, matches: (string, string) -> bool, now: Time)
    : (r: (Inventory, Reply))
    ensures !Moves(r.1) ==> r.0 == inv
    ensures r.1.Added? <==> FindOne(inv.catalog, Trim(cmd.term), matches).Some? && user.role in EDITORS
    ensures r.1.Added? ==>
              var id := r.1.component;
              && Some(id) == FindOne(inv.catalog, Trim(cmd.term), matches)
              && r.1.previous == inv.catalog[id].quantity && r.1.added == cmd.quantity
              && r.1.current == r.1.previous + r.1.added
              && r.0 == ApplyInward(inv, id, cmd.quantity, InwardReason(cmd), None, None, None,
                                    Some(INWARD_NOTE), user, now)
    ensures FindOne(inv.catalog, Trim(cmd.term), matches).None? ==> r.1 == ComponentNotFound(Trim(cmd.term))
    ensures FindOne(inv.catalog, Trim(cmd.term), matches).Some? && user.role !in EDITORS ==>
              r.1 == NotPermitted(LogSchema.Inward)
    ensures r.1.Removed? == false
  {
    var term := Trim(cmd.term);
    match FindOne(inv.catalog, term, matches)
    case None => (inv, ComponentNotFound(term))
    case Some(id) =>
      if user.role !in EDITORS then (inv, NotPermitted(LogSchema.Inward))
      else
        var before := inv.catalog[id].quantity;
        (ApplyInward(inv, id, cmd.quantity, InwardReason(cmd), None, None, None, Some(INWARD_NOTE), user, now),
         Added(id, before, before + cmd.quantity, cmd.quantity))
  }

  /** The outward command: find, then check the role, then the stock, then remove `quantity` units. */
  function OutwardCommand(inv: Inventory, user: User, cmd: Command, matches: (string, string) -> bool, now: Time)
    : (r: (Inventory, Reply))
    ensures !Moves(r.1) ==> r.0 == inv
    ensures r.1.Removed? <==>
              var found := FindOne(inv.catalog, Trim(cmd.term), matches);
              found.Some? && user.role in ISSUERS && inv.catalog[found.value].quantity >= cmd.quantity
    ensures r.1.Removed? ==>
              var id := r.1.component;
              && Some(id) == FindOne(inv.catalog, Trim(cmd.term), matches)
              && r.1.previous == inv.catalog[id].quantity && r.1.removed == cmd.quantity
              && 0 <= r.1.current == r.1.previous - r.1.removed
              && r.1.project == OutwardProject(cmd)
              && r.0 == ApplyOutward(inv, id, cmd.quantity, OUTWARD_REASON, Some(OutwardProject(cmd)),
                                     Some(OUTWARD_NOTE), user, now)
    ensures FindOne(inv.catalog, Trim(cmd.term), matches).None? ==> r.1 == ComponentNotFound(Trim(cmd.term))
    ensures FindOne(inv.catalog, Trim(cmd.term), matches).Some? && user.role !in ISSUERS ==>
              r.1 == NotPermitted(LogSchema.Outward)
    ensures var found := FindOne(inv.catalog, Trim(cmd.term), matches);
              found.Some? && user.role in ISSUERS && inv.catalog[found.value].quantity < cmd.quantity ==>
                r.1 == NotEnough(inv.catalog[found.value].quantity, cmd.quantity)
    ensures r.1.Added? == false
  {
    var term := Trim(cmd.term);
    match FindOne(inv.catalog, term, matches)
    case None => (inv, ComponentNotFound(term))
    case Some(id) =>
      if user.role !in ISSUERS then (inv, NotPermitted(LogSchema.Outward))
      else
        var before := inv.catalog[id].quantity;
        if before < cmd.quantity then (inv, NotEnough(before, cmd.quantity))
        else
          (ApplyOutward(inv, id, cmd.quantity, OUTWARD_REASON, Some(OutwardProject(cmd)), Some(OUTWARD_NOTE), user, now),
           Removed(id, before, before - cmd.quantity, cmd.quantity, OutwardProject(cmd)))
  }

  /** The search reply: at most five components whose name, part number or description match. */
  function SearchReply(catalog: map<ComponentId, Component>, term: string, matches: (string, string) -> bool)
    : (r: Reply)
    ensures r.SearchResults? && r.term == term && |r.found| <= SEARCH_LIMIT
    ensures forall i :: 0 <= i < |r.found| ==> r.found[i] in catalog && Mentions(catalog[r.found[i]], term, matches)
    ensures |r.found| < SEARCH_LIMIT ==>
              forall k :: k in catalog && Mentions(catalog[k], term, matches) ==> k in r.found
    ensures |r.found| == 0 <==> forall k :: k in catalog ==> !Mentions(catalog[k], term, matches)
  {
    var keep := c => Mentions(c, term, matches);
    FirstMatchingEmpty(catalog, keep, SEARCH_LIMIT);
    assert forall k :: k in catalog ==> (keep(catalog[k]) <==> Mentions(catalog[k], term, matches));
    SearchResults(term, FirstMatching(catalog, keep, SEARCH_LIMIT))
  }

  /** The low-stock report: at most ten components at or below their threshold. */
  function LowStockReply(catalog: map<ComponentId, Component>): (r: Reply)
    ensures r.LowStockList? && |r.found| <= REPORT_LIMIT
    ensures forall i :: 0 <= i < |r.found| ==> r.found[i] in catalog && IsLowStock(catalog[r.found[i]])
    ensures |r.found| < REPORT_LIMIT ==> forall k :: k in catalog && IsLowStock(catalog[k]) ==> k in r.found
  {
    LowStockList(FirstMatching(catalog, c => IsLowStock(c), REPORT_LIMIT))
  }

  /** The category report: at most ten components whose category name contains the category word. */
  function CategoryReply(catalog: map<ComponentId, Component>, key: string): (r: Reply)
    ensures r.CategoryList? && r.category == Capitalize(key) && |r.found| <= REPORT_LIMIT
    ensures forall i :: 0 <= i < |r.found| ==> r.found[i] in catalog && InCategory(catalog[r.found[i]], Capitalize(key))
    ensures |r.found| == 0 <==> forall k :: k in catalog ==> !InCategory(catalog[k], Capitalize(key))
  {
    var proper := Capitalize(key);
    var keep := c => InCategory(c, proper);
    FirstMatchingEmpty(catalog, keep, REPORT_LIMIT);
    assert forall k :: k in catalog ==> (keep(catalog[k]) <==> InCategory(catalog[k], proper));
    CategoryList(proper, FirstMatching(catalog, keep, REPORT_LIMIT))
  }

  /** The reply of family `b`, which takes the message. */
  function Perform(b: Branch, inv: Inventory, user: User, lower: string, p: Parse,
                   matches: (string, string) -> bool, now: Time): (r: (Inventory, Reply))
    requires b == NoBranch || Fires(b, Detect(lower, p))
    ensures !Moves(r.1) ==> r.0 == inv
    ensures r.1.Added? ==> b == InwardBranch
    ensures r.1.Removed? ==> b == OutwardBranch
    ensures b == NoBranch <==> r.1 == NotUnderstood
  {
    match b
    case InwardBranch => InwardCommand(inv, user, p.inward.value, matches, now)
    case OutwardBranch => OutwardCommand(inv, user, p.outward.value, matches, now)
    case SearchBranch => (inv, SearchReply(inv.catalog, Trim(p.search.value), matches))
    case LowStockBranch => (inv, LowStockReply(inv.catalog))
    case CategoryBranch => (inv, CategoryReply(inv.catalog, MatchCategory(Trim(p.category.value)).value))
    case HelpBranch => (inv, Help)
    case NoBranch => (inv, NotUnderstood)
  }

  /** Which reply each family gives. */
  lemma PerformFacts(b: Branch, inv: Inventory, user: User, lower: string, p: Parse,
                     matches: (string, string) -> bool, now: Time)
    requires b == NoBranch || Fires(b, Detect(lower, p))
    ensures var r := Perform(b, inv, user, lower, p, matches, now);
      && (b == HelpBranch <==> r.1 == Help)
      && (b == InwardBranch ==> r == InwardCommand(inv, user, p.inward.value, matches, now))
      && (b == OutwardBranch ==> r == OutwardCommand(inv, user, p.outward.value, matches, now))
      && (b == SearchBranch ==> r.1.SearchResults?)
      && (b == LowStockBranch ==> r.1.LowStockList?)
      && (b == CategoryBranch ==> r.1.CategoryList?)
  {
  }

  /** The lowered message the families look at: `message.toLowerCase().trim()`. */
  function Lowered(message: string): (lower: string)
    ensures IsTrimmed(lower) && |lower| <= |message|
  {
    Trim(ToLower(message))
  }

  /** The message handler as written: a search is tried before the low-stock and category reports. */
  function Process(inv: Inventory, user: User, message: string, p: Parse,
                   matches: (string, string) -> bool, now: Time): (r: (Inventory, Reply))
    ensures r.1 == NotUnderstood <==> Silent(Detect(Lowered(message), p))
    ensures Moves(r.1) ==> Detect(Lowered(message), p).inward || Detect(Lowered(message), p).outward
    ensures !Moves(r.1) ==> r.0 == inv
  {
    var lower := Lowered(message);
    var s := Detect(lower, p);
    var b := Choose(ORDER, s);
    ChooseSilent(s);
    var r := Perform(b, inv, user, lower, p, matches, now);
    Dispatched(s, b, inv, r);
    r
  }

  /** The message handler with the reports tried before the search. */
  function ProcessCorrected(inv: Inventory, user: User, message: string, p: Parse,
                            matches: (string, string) -> bool, now: Time): (r: (Inventory, Reply))
    ensures r.1 == NotUnderstood <==> Silent(Detect(Lowered(message), p))
    ensures Moves(r.1) ==> Detect(Lowered(message), p).inward || Detect(Lowered(message), p).outward
    ensures !Moves(r.1) ==> r.0 == inv
  {
    var lower := Lowered(message);
    var s := Detect(lower, p);
    var b := Choose(CORRECTED_ORDER, s);
    ChooseSilent(s);
    var r := Perform(b, inv, user, lower, p, matches, now);
    Dispatched(s, b, inv, r);
    r
  }

  /** What a handler promises, given the family it chose and the reply that family gave. */
  lemma Dispatched(s: Signals, b: Branch, inv: Inventory, r: (Inventory, Reply))
    requires b == NoBranch <==> Silent(s)
    requires b != NoBranch ==> Fires(b, s)
    requires !Moves(r.1) ==> r.0 == inv
    requires r.1.Added? ==> b == InwardBranch
    requires r.1.Removed? ==> b == OutwardBranch
    requires b == NoBranch <==> r.1 == NotUnderstood
    ensures r.1 == NotUnderstood <==> Silent(s)
    ensures Moves(r.1) ==> s.inward || s.outward
    ensures !Moves(r.1) ==> r.0 == inv
  {
  }

  datatype ChatError = BlankMessage | MessageTooLong

  /** The checks `POST /chatbot/chat` makes before handling a message: a missing or
      blank message, and one longer than the limit after trimming, are refused. */
  function Screen(message: Option<string>): (e: Option<ChatError>)
    ensures e.None? <==> message.Some? && Trim(message.value) != "" && Utf16Length(Trim(message.value)) <= MAX_MESSAGE
    ensures e.None? ==> |Trim(message.value)| <= MAX_MESSAGE
    ensures message.None? || Trim(message.value) == "" ==> e == Some(BlankMessage)
  {
    if message.None? || Trim(message.value) == "" then Some(BlankMessage)
    else if Utf16Length(Trim(message.value)) > MAX_MESSAGE then Some(MessageTooLong)
    else None
  }

  /** `POST /chatbot/chat` as written: a message that passes the checks goes to the
      handler as written. */
  function Chat(inv: Inventory, user: User, message: Option<string>, p: Parse,
                matches: (string, string) -> bool, now: Time): (r: Result<(Inventory, Reply), ChatError>)
    ensures r.Success? <==> message.Some? && Trim(message.value) != "" && Utf16Length(Trim(message.value)) <= MAX_MESSAGE
    ensures r.Success? ==> |Trim(message.value)| <= MAX_MESSAGE
    ensures message.None? || Trim(message.value) == "" ==> r == Failure(BlankMessage)
    ensures r.Success? ==> r.value == Process(inv, user, message.value, p, matches, now)
  {
    match Screen(message)
    case Some(e) => Failure(e)
    case None => Success(Process(inv, user, message.value, p, matches, now))
  }

  /** The endpoint with the corrected handler behind the same checks. */
  function ChatCorrected(inv: Inventory, user: User, message: Option<string>, p: Parse,
                         matches: (string, string) -> bool, now: Time): (r: Result<(Inventory, Reply), ChatError>)
    ensures r.Success? <==> Chat(inv, user, message, p, matches, now).Success?
    ensures r.Failure? ==> r == Chat(inv, user, message, p, matches, now)
    ensures r.Success? ==> r.value == ProcessCorrected(inv, user, message.value, p, matches, now)
  {
    match Screen(message)
    case Some(e) => Failure(e)
    case None => Success(ProcessCorrected(inv, user, message.value, p, matches, now))
  }

  // ---------------------------------------------------------------- properties

  /** A chat inward with a positive count does what the inward route does with the
      same count, reason and note. */
  lemma InwardAgreesWithRoute(inv: Inventory, user: User, cmd: Command, matches: (string, string) -> bool,
                              now: Time, id: ComponentId)
    requires FindOne(inv.catalog, Trim(cmd.term), matches) == Some(id)
    requires user.role in EDITORS && cmd.quantity >= 1 && Trim(InwardReason(cmd)) != ""
    ensures
      var route := Inward(inv, user, id, InwardRequest(Some(cmd.quantity), InwardReason(cmd), None, None, None,
                                                       Some(INWARD_NOTE)), now);
      route.Success? && InwardCommand(inv, user, cmd, matches, now).0 == route.value
  {
  }

  /** A count of zero, which the inward route refuses, is accepted by the chat: the
      stock stays as it is and an inward entry of zero units is written. */
  lemma InwardAcceptsZero(inv: Inventory, user: User, cmd: Command, matches: (string, string) -> bool,
                          now: Time, id: ComponentId)
    requires FindOne(inv.catalog, Trim(cmd.term), matches) == Some(id)
    requires user.role in EDITORS && cmd.quantity == 0
    ensures
      var r := InwardCommand(inv, user, cmd, matches, now);
      && r.1 == Added(id, inv.catalog[id].quantity, inv.catalog[id].quantity, 0)
      && r.0.catalog[id].quantity == inv.catalog[id].quantity
      && |r.0.logs| == |inv.logs| + 1 && r.0.logs[|inv.logs|].quantityChanged == 0
    ensures Inward(inv, user, id, InwardRequest(Some(0), InwardReason(cmd), None, None, None, Some(INWARD_NOTE)), now)
              == Failure(ValidationFailure)
  {
    var r := InwardCommand(inv, user, cmd, matches, now);
    assert r.1.Added? && r.1.component == id;
    var applied := ApplyInward(inv, id, 0, InwardReason(cmd), None, None, None, Some(INWARD_NOTE), user, now);
    assert r.0 == applied;
    assert applied.catalog[id].quantity == inv.catalog[id].quantity;
    assert AppendsOne(inv.logs, applied.logs) && Last(applied.logs).quantityChanged == 0;
    var req := InwardRequest(Some(0), InwardReason(cmd), None, None, None, Some(INWARD_NOTE));
    assert !InwardAccepted(req);
  }

  /** The chat reports a missing component to any caller, where the routes first
      refuse a caller without the role. */
  lemma LookupBeforeRole(inv: Inventory, user: User, cmd: Command, matches: (string, string) -> bool, now: Time,
                         id: ComponentId, req: InwardRequest)
    requires FindOne(inv.catalog, Trim(cmd.term), matches).None? && user.role !in EDITORS
    ensures InwardCommand(inv, user, cmd, matches, now) == (inv, ComponentNotFound(Trim(cmd.term)))
    ensures Inward(inv, user, id, req, now) == Failure(Forbidden(EDITORS, user.role))
  {
  }

  /** The outward request a chat command corresponds to passes the route's validators. */
  lemma OutwardRequestAccepted(cmd: Command)
    requires cmd.quantity >= 1
    ensures OutwardAccepted(OutwardRequest(Some(cmd.quantity), OUTWARD_REASON, Some(OutwardProject(cmd)), Some(OUTWARD_NOTE)))
  {
    DefaultReasonsValid();
  }

  /** With enough stock, a chat outward with a positive count does what the outward
      route does with the same count, reason, project and note. */
  lemma OutwardAgreesWithRoute(inv: Inventory, user: User, cmd: Command, matches: (string, string) -> bool,
                               now: Time, id: ComponentId)
    requires FindOne(inv.catalog, Trim(cmd.term), matches) == Some(id)
    requires user.role in ISSUERS && cmd.quantity >= 1 && inv.catalog[id].quantity >= cmd.quantity
    ensures
      var route := Outward(inv, user, id, OutwardRequest(Some(cmd.quantity), OUTWARD_REASON, Some(OutwardProject(cmd)),
                                                         Some(OUTWARD_NOTE)), now);
      route.Success? && OutwardCommand(inv, user, cmd, matches, now).0 == route.value
  {
    OutwardRequestAccepted(cmd);
  }

  /** With too little stock, the chat and the outward route both refuse, reporting
      the same available and requested counts, and nothing changes. */
  lemma OutwardShortAgreesWithRoute(inv: Inventory, user: User, cmd: Command, matches: (string, string) -> bool,
                                    now: Time, id: ComponentId)
    requires FindOne(inv.catalog, Trim(cmd.term), matches) == Some(id)
    requires user.role in ISSUERS && cmd.quantity >= 1 && inv.catalog[id].quantity < cmd.quantity
    ensures
      var r := OutwardCommand(inv, user, cmd, matches, now);
      r.0 == inv && r.1 == NotEnough(inv.catalog[id].quantity, cmd.quantity)
    ensures Outward(inv, user, id, OutwardRequest(Some(cmd.quantity), OUTWARD_REASON, Some(OutwardProject(cmd)),
                                                  Some(OUTWARD_NOTE)), now)
              == Failure(InsufficientStock(inv.catalog[id].quantity, cmd.quantity))
  {
    assert id in inv.catalog;
    RouteRefusesShort(inv, user, cmd, now, id);
  }

  /** The outward route refuses a positive count above the stock, naming both counts. */
  lemma RouteRefusesShort(inv: Inventory, user: User, cmd: Command, now: Time, id: ComponentId)
    requires id in inv.catalog && user.role in ISSUERS && cmd.quantity >= 1 && inv.catalog[id].quantity < cmd.quantity
    ensures Outward(inv, user, id, OutwardRequest(Some(cmd.quantity), OUTWARD_REASON, Some(OutwardProject(cmd)),
                                                  Some(OUTWARD_NOTE)), now)
              == Failure(InsufficientStock(inv.catalog[id].quantity, cmd.quantity))
  {
    OutwardRequestAccepted(cmd);
  }

  /** `Choose` picks the family at `i` when it fires and none before it does. */
  lemma {:induction false} ChooseAt(order: seq<Branch>, s: Signals, i: nat)
    requires i < |order| && Fires(order[i], s)
    requires forall j :: 0 <= j < i ==> !Fires(order[j], s)
    ensures Choose(order, s) == order[i]
  {
    if i > 0 {
      assert !Fires(order[0], s);
      ChooseAt(order[1..], s, i - 1);
    }
  }

  /** Both orders list every family, so either picks one exactly when the message asks for one. */
  lemma ChooseSilent(s: Signals)
    ensures Choose(ORDER, s) == NoBranch <==> Silent(s)
    ensures Choose(CORRECTED_ORDER, s) == NoBranch <==> Silent(s)
  {
    if Choose(ORDER, s) == NoBranch {
      assert !Fires(ORDER[0], s) && !Fires(ORDER[1], s) && !Fires(ORDER[2], s);
      assert !Fires(ORDER[3], s) && !Fires(ORDER[4], s) && !Fires(ORDER[5], s);
    }
    if Choose(CORRECTED_ORDER, s) == NoBranch {
      assert !Fires(CORRECTED_ORDER[0], s) && !Fires(CORRECTED_ORDER[1], s) && !Fires(CORRECTED_ORDER[2], s);
      assert !Fires(CORRECTED_ORDER[3], s) && !Fires(CORRECTED_ORDER[4], s) && !Fires(CORRECTED_ORDER[5], s);
    }
  }

  /** The families each order picks when the search and a report both fire. */
  lemma SearchFirstOnlyAsWritten(s: Signals)
    requires !Fires(InwardBranch, s) && !Fires(OutwardBranch, s) && Fires(SearchBranch, s)
    ensures Choose(ORDER, s) == SearchBranch
    ensures Fires(LowStockBranch, s) ==> Choose(CORRECTED_ORDER, s) == LowStockBranch
    ensures !Fires(LowStockBranch, s) && Fires(CategoryBranch, s) ==>
              Choose(CORRECTED_ORDER, s) == CategoryBranch
  {
    ChooseAt(ORDER, s, 2);
    if Fires(LowStockBranch, s) {
      ChooseAt(CORRECTED_ORDER, s, 2);
    } else if Fires(CategoryBranch, s) {
      ChooseAt(CORRECTED_ORDER, s, 3);
    }
  }

  /** The two orders pick the same family unless the search and one of the reports both fire. */
  lemma OrdersAgree(s: Signals)
    requires !Fires(SearchBranch, s) || (!Fires(LowStockBranch, s) && !Fires(CategoryBranch, s))
    ensures Choose(ORDER, s) == Choose(CORRECTED_ORDER, s)
  {
    AsWrittenChoice(s);
    CorrectedChoice(s);
  }

  /** The order as written, spelled out: movements, then search, then the two reports, then help. */
  lemma AsWrittenChoice(s: Signals)
    ensures Choose(ORDER, s) ==
      if s.inward then InwardBranch else if s.outward then OutwardBranch
      else if s.search then SearchBranch else if s.lowStock then LowStockBranch
      else if s.category then CategoryBranch else if s.help then HelpBranch else NoBranch
  {
    if s.inward { ChooseAt(ORDER, s, 0); }
    else if s.outward { ChooseAt(ORDER, s, 1); }
    else if s.search { ChooseAt(ORDER, s, 2); }
    else if s.lowStock { ChooseAt(ORDER, s, 3); }
    else if s.category { ChooseAt(ORDER, s, 4); }
    else if s.help { ChooseAt(ORDER, s, 5); }
    else { ChooseSilent(s); }
  }

  /** The corrected order, spelled out: movements, then the two reports, then search, then help. */
  lemma CorrectedChoice(s: Signals)
    ensures Choose(CORRECTED_ORDER, s) ==
      if s.inward then InwardBranch else if s.outward then OutwardBranch
      else if s.lowStock then LowStockBranch else if s.category then CategoryBranch
      else if s.search then SearchBranch else if s.help then HelpBranch else NoBranch
  {
    if s.inward { ChooseAt(CORRECTED_ORDER, s, 0); }
    else if s.outward { ChooseAt(CORRECTED_ORDER, s, 1); }
    else if s.lowStock { ChooseAt(CORRECTED_ORDER, s, 2); }
    else if s.category { ChooseAt(CORRECTED_ORDER, s, 3); }
    else if s.search { ChooseAt(CORRECTED_ORDER, s, 4); }
    else if s.help { ChooseAt(CORRECTED_ORDER, s, 5); }
    else { ChooseSilent(s); }
  }

  /** As written, a message that asks for a search and for the low-stock report gets
      the search; with the reports tried first it gets the report. */
  lemma LowStockShadowedBySearch(inv: Inventory, user: User, message: string, p: Parse,
                                 matches: (string, string) -> bool, now: Time)
    requires var s := Detect(Lowered(message), p);
      && !Fires(InwardBranch, s) && !Fires(OutwardBranch, s)
      && Fires(SearchBranch, s) && Fires(LowStockBranch, s)
    ensures Process(inv, user, message, p, matches, now).1.SearchResults?
    ensures ProcessCorrected(inv, user, message, p, matches, now).1.LowStockList?
  {
    var lower := Lowered(message);
    SearchFirstOnlyAsWritten(Detect(lower, p));
    PerformFacts(SearchBranch, inv, user, lower, p, matches, now);
    PerformFacts(LowStockBranch, inv, user, lower, p, matches, now);
  }

  /** Likewise a message that asks for a search and names a category ("show all ics"). */
  lemma CategoryShadowedBySearch(inv: Inventory, user: User, message: string, p: Parse,
                                 matches: (string, string) -> bool, now: Time)
    requires var s := Detect(Lowered(message), p);
      && !Fires(InwardBranch, s) && !Fires(OutwardBranch, s) && !Fires(LowStockBranch, s)
      && Fires(SearchBranch, s) && Fires(CategoryBranch, s)
    ensures Process(inv, user, message, p, matches, now).1.SearchResults?
    ensures ProcessCorrected(inv, user, message, p, matches, now).1.CategoryList?
  {
    var lower := Lowered(message);
    SearchFirstOnlyAsWritten(Detect(lower, p));
    PerformFacts(SearchBranch, inv, user, lower, p, matches, now);
    PerformFacts(CategoryBranch, inv, user, lower, p, matches, now);
  }

  /** Everywhere else the corrected handler behaves as written. */
  lemma CorrectedAgreesOtherwise(inv: Inventory, user: User, message: string, p: Parse,
                                 matches: (string, string) -> bool, now: Time)
    requires var s := Detect(Lowered(message), p);
      !Fires(SearchBranch, s) || (!Fires(LowStockBranch, s) && !Fires(CategoryBranch, s))
    ensures ProcessCorrected(inv, user, message, p, matches, now) == Process(inv, user, message, p, matches, now)
  {
    OrdersAgree(Detect(Lowered(message), p));
  }

  /** The example the help text itself gives: "Show low stock". */
  lemma ShowLowStockLowered()
    ensures Lowered("Show low stock") == "show low stock"
  {
    var m := "Show low stock";
    assert ToLower(m) == "show low stock";
    TrimTrimmed("show low stock");
  }

  /** "show low stock" asks for a search and for the low-stock report, and for nothing before them. */
  lemma ShowLowStockSignals(p: Parse)
    requires p == Parse(None, None, Some("low stock"), None)
    ensures var s := Detect("show low stock", p);
      !s.inward && !s.outward && s.search && s.lowStock
  {
    var lower := "show low stock";
    assert "show" <= lower[0..];
    assert "low stock" <= lower[5..];
    assert Contains(lower, SEARCH_WORDS[0]) && Contains(lower, LOW_STOCK_WORDS[0]);
  }

  lemma ShowLowStockCounterexample(inv: Inventory, user: User, matches: (string, string) -> bool, now: Time)
    ensures
      var p := Parse(None, None, Some("low stock"), None);
      && Process(inv, user, "Show low stock", p, matches, now).1.SearchResults?
      && ProcessCorrected(inv, user, "Show low stock", p, matches, now).1.LowStockList?
  {
    var p := Parse(None, None, Some("low stock"), None);
    ShowLowStockLowered();
    ShowLowStockSignals(p);
    LowStockShadowedBySearch(inv, user, "Show low stock", p, matches, now);
  }

  // ---------------------------------------------------------------- the store stays consistent

  /** A chat inward keeps the ledger and the schema constraints. */
  lemma InwardKeepsConsistent(inv: Inventory, user: User, cmd: Command, matches: (string, string) -> bool, now: Time)
    requires AuditLedger.Consistent(inv)
    requires cmd.forClause.Some? ==> Trim(cmd.forClause.value) != ""
    ensures AuditLedger.Consistent(InwardCommand(inv, user, cmd, matches, now).0)
  {
    var r := InwardCommand(inv, user, cmd, matches, now);
    if r.1.Added? {
      var id := r.1.component;
      DefaultReasonsValid();
      assert Valid(inv.catalog[id]);
      AuditLedger.MovementConsistent(inv, r.0, id);
    }
  }

  /** A chat outward keeps the ledger and the schema constraints. */
  lemma OutwardKeepsConsistent(inv: Inventory, user: User, cmd: Command, matches: (string, string) -> bool, now: Time)
    requires AuditLedger.Consistent(inv)
    ensures AuditLedger.Consistent(OutwardCommand(inv, user, cmd, matches, now).0)
  {
    var r := OutwardCommand(inv, user, cmd, matches, now);
    if r.1.Removed? {
      DefaultReasonsValid();
      AuditLedger.MovementConsistent(inv, r.0, r.1.component);
    }
  }

  /** Whichever family answers, the store stays consistent. */
  lemma PerformKeepsConsistent(b: Branch, inv: Inventory, user: User, lower: string, p: Parse,
                               matches: (string, string) -> bool, now: Time)
    requires b == NoBranch || Fires(b, Detect(lower, p))
    requires AuditLedger.Consistent(inv) && WellFormed(p)
    ensures AuditLedger.Consistent(Perform(b, inv, user, lower, p, matches, now).0)
  {
    PerformFacts(b, inv, user, lower, p, matches, now);
    if b == InwardBranch {
      InwardKeepsConsistent(inv, user, p.inward.value, matches, now);
    } else if b == OutwardBranch {
      OutwardKeepsConsistent(inv, user, p.outward.value, matches, now);
    }
  }

  /** Whatever is said to the assistant, the store stays consistent. */
  lemma ChatKeepsConsistent(inv: Inventory, user: User, message: Option<string>, p: Parse,
                            matches: (string, string) -> bool, now: Time)
    requires AuditLedger.Consistent(inv) && WellFormed(p)
    ensures Chat(inv, user, message, p, matches, now).Success? ==>
              AuditLedger.Consistent(Chat(inv, user, message, p, matches, now).value.0)
  {
    if Chat(inv, user, message, p, matches, now).Success? {
      var lower := Lowered(message.value);
      var b := Choose(ORDER, Detect(lower, p));
      ChooseSilent(Detect(lower, p));
      assert Process(inv, user, message.value, p, matches, now) == Perform(b, inv, user, lower, p, matches, now);
      PerformKeepsConsistent(b, inv, user, lower, p, matches, now);
    }
  }

  /** The same with the corrected handler. */
  lemma ChatCorrectedKeepsConsistent(inv: Inventory, user: User, message: Option<string>, p: Parse,
                                     matches: (string, string) -> bool, now: Time)
    requires AuditLedger.Consistent(inv) && WellFormed(p)
    ensures ChatCorrected(inv, user, message, p, matches, now).Success? ==>
              AuditLedger.Consistent(ChatCorrected(inv, user, message, p, matches, now).value.0)
  {
    if ChatCorrected(inv, user, message, p, matches, now).Success? {
      var lower := Lowered(message.value);
      var b := Choose(CORRECTED_ORDER, Detect(lower, p));
      ChooseSilent(Detect(lower, p));
      assert ProcessCorrected(inv, user, message.value, p, matches, now) == Perform(b, inv, user, lower, p, matches, now);
      PerformKeepsConsistent(b, inv, user, lower, p, matches, now);
    }
  }
}
