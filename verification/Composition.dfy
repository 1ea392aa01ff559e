/**
 Joining component batches of several stores in memory (quant_data/composition.py): a
 bounded full outer join of the rows available at a cutoff.
 */
module Composition {
  import opened Wrappers
  import opened Ordering
  import opened Temporal
  import opened Json

  datatype ComponentRow = ComponentRow(identity: string, available: TemporalValue, payload: Value)

  /** `receipt` is the mapping the component's store returned with its rows. */
  datatype Component = Component(dataset: string, store: string, rows: seq<ComponentRow>, receipt: Value)

  /** Checked when it is made: both limits between 1 and 10000. `cutoffText` is the text
      that was parsed as the cutoff. */
  datatype Context = Context(cutoffText: string, cutoff: TemporalValue, policy: DateOnlyPolicy, componentLimit: nat,
                             joinedLimit: nat)

  predicate ContextOk(c: Context) {
    (c.cutoff.Date? || c.cutoff.DateTime?) && 1 <= c.componentLimit <= 10_000 && 1 <= c.joinedLimit <= 10_000
  }

  type Accepted = map<string, Value>

  /** `values` follows the order of the datasets. */
  datatype JoinedRow = JoinedRow(identity: string, values: seq<Option<Value>>, missing: seq<string>)

  datatype Receipt = Receipt(dataset: string, store: string, stored: Value, accepted: nat)

  datatype Composed = Composed(receipts: seq<Receipt>, rows: seq<JoinedRow>, warned: bool, truncated: bool)

  // ----- one component -----

  predicate Available(row: ComponentRow, c: Context) {
    Admitted(row.available, c.cutoff, c.policy)
  }

  predicate Warned(row: ComponentRow, c: Context) {
    var r := AvailabilityAtOrBefore(row.available, c.cutoff, c.policy);
    r.Ok? && r.value.warned
  }

  /** `by_identity`, or None when two available rows share an identity. */
  function AcceptRows(rows: seq<ComponentRow>, c: Context): Option<Accepted> {
    if rows == [] then Some(map[])
    else
      var n := |rows| - 1;
      match AcceptRows(rows[..n], c)
      case None => None
      case Some(m) =>
        if !Available(rows[n], c) then Some(m)
        else if rows[n].identity in m then None
        else Some(m[rows[n].identity := rows[n].payload])
  }

  predicate AnyWarned(rows: seq<ComponentRow>, c: Context) {
    exists i :: 0 <= i < |rows| && Warned(rows[i], c)
  }

  function AcceptComponent(component: Component, owners: map<string, string>, c: Context): Result<Accepted, Fault> {
    if component.dataset !in owners || owners[component.dataset] != component.store then Err(ConflictFault)
    else if |component.rows| > c.componentLimit then Err(ResourceLimit)
    else match AcceptRows(component.rows, c)
      case None => Err(ConflictFault)
      case Some(m) => Ok(m)
  }

  function AcceptAll(components: seq<Component>, owners: map<string, string>, c: Context)
    : Result<seq<Accepted>, Fault>
  {
    if components == [] then Ok([])
    else
      var n := |components| - 1;
      match AcceptAll(components[..n], owners, c)
      case Err(e) => Err(e)
      case Ok(front) =>
        match AcceptComponent(components[n], owners, c)
        case Err(e) => Err(e)
        case Ok(m) => Ok(front + [m])
  }

  // ----- the join -----

  predicate ByDataset(a: Component, b: Component) {
    TextLt(a.dataset, b.dataset)
  }

  predicate DistinctDatasets(components: seq<Component>) {
    forall i, j :: 0 <= i < j < |components| ==> components[i].dataset != components[j].dataset
  }

  function Stores(components: seq<Component>): set<string> {
    set i | 0 <= i < |components| :: components[i].store
  }

  function Datasets(components: seq<Component>): (r: seq<string>)
    ensures |r| == |components|
    ensures forall i :: 0 <= i < |r| ==> r[i] == components[i].dataset
  {
    if components == [] then [] else [components[0].dataset] + Datasets(components[1..])
  }

  /** Identities of all accepted rows. */
  function Identities(accepted: seq<Accepted>): (r: set<string>)
    ensures forall x :: x in r <==> exists i :: 0 <= i < |accepted| && x in accepted[i]
  {
    if accepted == [] then {}
    else
      var n := |accepted| - 1;
      assert accepted == accepted[..n] + [accepted[n]];
      Identities(accepted[..n]) + accepted[n].Keys
  }

  /** `sorted` of a set of texts. */
  ghost function SortedTexts(texts: set<string>): (r: seq<string>)
    ensures forall x :: x in r <==> x in texts
    ensures StrictlySorted(r, TextLt)
  {
    if texts == {} then []
    else
      var x :| x in texts;
      var rest := SortedTexts(texts - {x});
      TextOrder();
      forall y | y in rest ensures TextLt(x, y) || TextLt(y, x) { TextTotal(x, y); }
      InsertStrict(rest, x, TextLt);
      assert forall y :: y in Insert(rest, x, TextLt) <==> y in multiset(Insert(rest, x, TextLt));
      assert forall y :: y in rest <==> y in multiset(rest);
      Insert(rest, x, TextLt)
  }

  function ValuesOf(identity: string, accepted: seq<Accepted>): (r: seq<Option<Value>>)
    ensures |r| == |accepted|
    ensures forall i :: 0 <= i < |r| ==> r[i] == if identity in accepted[i] then Some(accepted[i][identity]) else None
  {
    if accepted == [] then []
    else
      [if identity in accepted[0] then Some(accepted[0][identity]) else None] + ValuesOf(identity, accepted[1..])
  }

  function MissingOf(datasets: seq<string>, values: seq<Option<Value>>): (r: seq<string>)
    requires |datasets| == |values|
    ensures forall d :: d in r <==> exists i :: 0 <= i < |datasets| && datasets[i] == d && values[i].None?
  {
    if datasets == [] then []
    else
      var n := |datasets| - 1;
      assert forall i :: 0 <= i < n ==> datasets[..n][i] == datasets[i] && values[..n][i] == values[i];
      MissingOf(datasets[..n], values[..n]) + (if values[n].None? then [datasets[n]] else [])
  }

  function JoinOne(identity: string, datasets: seq<string>, accepted: seq<Accepted>): JoinedRow
    requires |datasets| == |accepted|
  {
    var values := ValuesOf(identity, accepted);
    JoinedRow(identity, values, MissingOf(datasets, values))
  }

  function JoinAll(identities: seq<string>, datasets: seq<string>, accepted: seq<Accepted>): (r: seq<JoinedRow>)
    requires |datasets| == |accepted|
    ensures |r| == |identities|
    ensures forall i :: 0 <= i < |r| ==> r[i] == JoinOne(identities[i], datasets, accepted)
  {
    if identities == [] then []
    else
      var n := |identities| - 1;
      JoinAll(identities[..n], datasets, accepted) + [JoinOne(identities[n], datasets, accepted)]
  }

  function ReceiptOf(component: Component, accepted: nat): Receipt {
    Receipt(component.dataset, component.store, component.receipt, accepted)
  }

  function Receipts(components: seq<Component>, accepted: seq<Accepted>): (r: seq<Receipt>)
    requires |components| == |accepted|
    ensures |r| == |components|
    ensures forall i :: 0 <= i < |r| ==> r[i] == ReceiptOf(components[i], |accepted[i]|)
  {
    if components == [] then []
    else
      var n := |components| - 1;
      Receipts(components[..n], accepted[..n]) + [ReceiptOf(components[n], |accepted[n]|)]
  }

  lemma {:induction false} AcceptAllLength(components: seq<Component>, owners: map<string, string>, c: Context)
    ensures AcceptAll(components, owners, c).Ok? ==> |AcceptAll(components, owners, c).value| == |components|
  {
    hide AcceptComponent;
    if components != [] { AcceptAllLength(components[..|components| - 1], owners, c); }
  }

  predicate AnyComponentWarned(components: seq<Component>, c: Context) {
    exists i :: 0 <= i < |components| && AnyWarned(components[i].rows, c)
  }

  function Bounded(identities: seq<string>, limit: nat): seq<string> {
    if |identities| <= limit then identities else identities[..limit]
  }

  ghost function Join(components: seq<Component>, accepted: seq<Accepted>, c: Context): Composed
    requires |components| == |accepted|
  {
    var identities := SortedTexts(Identities(accepted));
    Composed(Receipts(components, accepted),
             JoinAll(Bounded(identities, c.joinedLimit), Datasets(components), accepted),
             AnyComponentWarned(components, c),
             |identities| > c.joinedLimit)
  }

  // ----- the result as a document -----

  const CONTRACT: string := "quant_data.cross_store_composition"
  const INTRADAY_WARNING: string := "date_only_same_day_intraday_safety_not_established"

  function PolicyText(policy: DateOnlyPolicy): string {
    if policy == CompletedDate then "completed_date" else "calendar_date_inclusive"
  }

  function ReceiptValue(receipt: Receipt): Value {
    Obj([Field("dataset_id", Str(receipt.dataset)), Field("store_role", Str(receipt.store)),
         Field("store_receipt", receipt.stored), Field("accepted_count", Int(receipt.accepted))])
  }

  function ReceiptValues(receipts: seq<Receipt>): (r: seq<Value>)
    ensures |r| == |receipts| && forall i :: 0 <= i < |r| ==> r[i] == ReceiptValue(receipts[i])
  {
    if receipts == [] then [] else [ReceiptValue(receipts[0])] + ReceiptValues(receipts[1..])
  }

  /** `values` as a mapping from its datasets, in which None is null. */
  function ValueFields(datasets: seq<string>, values: seq<Option<Value>>): seq<Field> {
    if datasets == [] || values == [] then []
    else
      var value := if values[0].Some? then values[0].value else Null;
      [Field(datasets[0], value)] + ValueFields(datasets[1..], values[1..])
  }

  function Texts(texts: seq<string>): seq<Value> {
    if texts == [] then [] else [Str(texts[0])] + Texts(texts[1..])
  }

  function RowValue(row: JoinedRow, datasets: seq<string>): Value {
    Obj([Field("join_identity", Str(row.identity)), Field("components", Obj(ValueFields(datasets, row.values))),
         Field("missing_datasets", Arr(Texts(row.missing)))])
  }

  function RowValues(rows: seq<JoinedRow>, datasets: seq<string>): (r: seq<Value>)
    ensures |r| == |rows| && forall i :: 0 <= i < |r| ==> r[i] == RowValue(rows[i], datasets)
  {
    if rows == [] then [] else [RowValue(rows[0], datasets)] + RowValues(rows[1..], datasets)
  }

  function ReceiptDatasets(receipts: seq<Receipt>): seq<string> {
    if receipts == [] then [] else [receipts[0].dataset] + ReceiptDatasets(receipts[1..])
  }

  /** The payload `compose` returns, as it is when its digest is taken. */
  function Document(r: Composed, c: Context): Value {
    Obj([Field("contract", Str(CONTRACT)), Field("contract_version", Str("1.0.0")),
         Field("consistency", Str("best_effort_multi_store")), Field("cutoff", Str(c.cutoffText)),
         Field("date_only_policy", Str(PolicyText(c.policy))), Field("component_limit", Int(c.componentLimit)),
         Field("joined_limit", Int(c.joinedLimit)), Field("components", Arr(ReceiptValues(r.receipts))),
         Field("rows", Arr(RowValues(r.rows, ReceiptDatasets(r.receipts)))),
         Field("warnings", Arr(if r.warned then [Str(INTRADAY_WARNING)] else [])),
         Field("truncated", Bool(r.truncated))])
  }

  /** Taking the digest, which encodes the payload. */
  function Sealed(r: Composed, c: Context): Result<Composed, Fault> {
    match Dumped(Document(r, c))
    case Err(e) => Err(e)
    case Ok(_) => Ok(r)
  }

  /** From the components in dataset order. */
  ghost function FromOrdered(ordered: seq<Component>, owners: map<string, string>, c: Context)
    : Result<Composed, Fault>
  {
    AcceptAllLength(ordered, owners, c);
    match AcceptAll(ordered, owners, c)
    case Err(e) => Err(e)
    case Ok(accepted) =>
      if |Stores(ordered)| < 2 then Err(ValidationFault) else Sealed(Join(ordered, accepted, c), c)
  }

  /** What `compose` returns or raises. */
  ghost function Composition(components: seq<Component>, owners: map<string, string>, c: Context)
    : Result<Composed, Fault>
  {
    if |components| < 2 then Err(ValidationFault)
    else if !DistinctDatasets(components) then Err(ConflictFault)
    else FromOrdered(Sort(components, ByDataset), owners, c)
  }

  // ----- what the join is -----

  predicate Holds(rows: seq<ComponentRow>, c: Context, identity: string) {
    exists i :: 0 <= i < |rows| && Available(rows[i], c) && rows[i].identity == identity
  }

  predicate HoldsPayload(rows: seq<ComponentRow>, c: Context, identity: string, payload: Value) {
    exists i :: 0 <= i < |rows| && Available(rows[i], c) && rows[i].identity == identity && rows[i].payload == payload
  }

  lemma {:induction false} AcceptedExactly(rows: seq<ComponentRow>, c: Context, identity: string, payload: Value)
    requires AcceptRows(rows, c).Some?
    ensures identity in AcceptRows(rows, c).value <==> Holds(rows, c, identity)
    ensures HoldsPayload(rows, c, identity, payload) <==>
      identity in AcceptRows(rows, c).value && AcceptRows(rows, c).value[identity] == payload
  {
    hide Available;
    if rows != [] {
      var n := |rows| - 1;
      AcceptedExactly(rows[..n], c, identity, payload);
      assert forall i :: 0 <= i < n ==> rows[..n][i] == rows[i];
    }
  }

  lemma {:induction false} AcceptedAt(components: seq<Component>, owners: map<string, string>, c: Context, i: nat)
    requires AcceptAll(components, owners, c).Ok? && i < |components|
    ensures |AcceptAll(components, owners, c).value| == |components|
    ensures AcceptComponent(components[i], owners, c) == Ok(AcceptAll(components, owners, c).value[i])
  {
    hide AcceptComponent;
    var n := |components| - 1;
    AcceptAllLength(components, owners, c);
    AcceptAllLength(components[..n], owners, c);
    if i < n { AcceptedAt(components[..n], owners, c, i); }
  }

  lemma {:induction false} ComponentAccepts(component: Component, owners: map<string, string>, c: Context)
    requires AcceptComponent(component, owners, c).Ok?
    ensures AcceptRows(component.rows, c) == Some(AcceptComponent(component, owners, c).value)
  {
    hide AcceptRows;
  }

  /** Some component has an available row with that identity. */
  predicate Joinable(components: seq<Component>, c: Context, identity: string) {
    exists i :: 0 <= i < |components| && Holds(components[i].rows, c, identity)
  }

  lemma {:induction false} IdentitiesExactly(components: seq<Component>, owners: map<string, string>, c: Context,
                                             identity: string)
    requires AcceptAll(components, owners, c).Ok?
    ensures identity in Identities(AcceptAll(components, owners, c).value) <==> Joinable(components, c, identity)
  {
    hide AcceptAll, AcceptComponent, AcceptRows, Holds, Identities;
    var accepted := AcceptAll(components, owners, c).value;
    AcceptAllLength(components, owners, c);
    forall i | 0 <= i < |components| ensures identity in accepted[i] <==> Holds(components[i].rows, c, identity) {
      AcceptedAt(components, owners, c, i);
      ComponentAccepts(components[i], owners, c);
      AcceptedExactly(components[i].rows, c, identity, Null);
    }
  }

  lemma SealedExactly(r: Composed, c: Context)
    ensures Sealed(r, c).Ok? <==> Dumped(Document(r, c)).Ok?
    ensures Sealed(r, c).Ok? ==> Sealed(r, c).value == r
  {
    hide Dumped, Document;
  }

  lemma ComposedFrom(components: seq<Component>, owners: map<string, string>, c: Context)
    returns (ordered: seq<Component>, accepted: seq<Accepted>)
    requires Composition(components, owners, c).Ok?
    ensures ordered == Sort(components, ByDataset) && AcceptAll(ordered, owners, c) == Ok(accepted)
    ensures |accepted| == |ordered| && Composition(components, owners, c).value == Join(ordered, accepted, c)
  {
    hide AcceptAll, Join, DistinctDatasets, Stores, Sort, Sealed;
    ordered := Sort(components, ByDataset);
    AcceptAllLength(ordered, owners, c);
    accepted := AcceptAll(ordered, owners, c).value;
    SealedExactly(Join(ordered, accepted, c), c);
  }

  lemma {:induction false} JoinedRows(components: seq<Component>, accepted: seq<Accepted>, c: Context)
    requires |components| == |accepted|
    ensures var all, r := SortedTexts(Identities(accepted)), Join(components, accepted, c);
      && |r.rows| == (if |all| <= c.joinedLimit then |all| else c.joinedLimit)
      && (r.truncated <==> |all| > c.joinedLimit)
      && forall i :: 0 <= i < |r.rows| ==>
           r.rows[i] == JoinOne(all[i], Datasets(components), accepted) && r.rows[i].identity == all[i]
  {
    hide JoinAll, SortedTexts, Identities, Datasets, Receipts, AnyComponentWarned, ValuesOf, MissingOf;
  }

  predicate Among(rows: seq<JoinedRow>, identity: string) {
    exists i :: 0 <= i < |rows| && rows[i].identity == identity
  }

  /** The rows are the first ones, up to the limit, of the sorted full outer join. */
  lemma {:induction false} RowsArePrefix(components: seq<Component>, owners: map<string, string>, c: Context,
                                         identity: string)
    requires Composition(components, owners, c).Ok?
    ensures var r := Composition(components, owners, c).value;
      && (forall i, j :: 0 <= i < j < |r.rows| ==> TextLt(r.rows[i].identity, r.rows[j].identity))
      && (Among(r.rows, identity) ==> Joinable(components, c, identity))
      && (Joinable(components, c, identity) && !Among(r.rows, identity) ==>
            r.truncated && forall i :: 0 <= i < |r.rows| ==> TextLt(r.rows[i].identity, identity))
      && (if r.truncated then |r.rows| == c.joinedLimit else |r.rows| <= c.joinedLimit)
  {
    var ordered, accepted := ComposedFrom(components, owners, c);
    IdentitiesExactly(ordered, owners, c, identity);
    JoinableOrderless(components, c, identity);
    JoinedRows(ordered, accepted, c);
    hide Composition, AcceptAll, Identities, SortedTexts, Join, JoinOne, Joinable, TextLt, Sort;
    PrefixFacts(SortedTexts(Identities(accepted)), Join(ordered, accepted, c).rows, identity);
  }

  /** `truncated` says whether an identity of the join was left behind. */
  lemma TruncatedExactly(components: seq<Component>, owners: map<string, string>, c: Context)
    requires Composition(components, owners, c).Ok?
    ensures var r := Composition(components, owners, c).value;
      r.truncated <==> exists identity :: Joinable(components, c, identity) && !Among(r.rows, identity)
  {
    var r := Composition(components, owners, c).value;
    forall identity | Joinable(components, c, identity) && !Among(r.rows, identity) ensures r.truncated {
      RowsArePrefix(components, owners, c, identity);
    }
    if r.truncated { var left := LeftBehind(components, owners, c); }
  }

  lemma LeftBehind(components: seq<Component>, owners: map<string, string>, c: Context) returns (identity: string)
    requires Composition(components, owners, c).Ok? && Composition(components, owners, c).value.truncated
    ensures Joinable(components, c, identity) && !Among(Composition(components, owners, c).value.rows, identity)
  {
    var ordered, accepted := ComposedFrom(components, owners, c);
    JoinedRows(ordered, accepted, c);
    var all := SortedTexts(Identities(accepted));
    identity := all[c.joinedLimit];
    IdentitiesExactly(ordered, owners, c, identity);
    JoinableOrderless(components, c, identity);
    hide Composition, AcceptAll, Identities, SortedTexts, Join, JoinOne, Joinable, TextLt, Sort;
    BeyondPrefix(all, Join(ordered, accepted, c).rows, c.joinedLimit);
  }

  lemma BeyondPrefix(all: seq<string>, rows: seq<JoinedRow>, k: nat)
    requires StrictlySorted(all, TextLt) && |rows| <= k < |all|
    requires forall i :: 0 <= i < |rows| ==> rows[i].identity == all[i]
    ensures !Among(rows, all[k])
  {
    TextOrder();
    hide TextLt;
  }

  lemma {:induction false} PrefixFacts(all: seq<string>, rows: seq<JoinedRow>, identity: string)
    requires StrictlySorted(all, TextLt) && |rows| <= |all|
    requires forall i :: 0 <= i < |rows| ==> rows[i].identity == all[i]
    ensures forall i, j :: 0 <= i < j < |rows| ==> TextLt(rows[i].identity, rows[j].identity)
    ensures Among(rows, identity) ==> identity in all
    ensures identity in all && !Among(rows, identity) ==>
      |rows| < |all| && forall i :: 0 <= i < |rows| ==> TextLt(rows[i].identity, identity)
  {
    hide TextLt;
    if identity in all {
      var k :| 0 <= k < |all| && all[k] == identity;
      if k < |rows| { assert rows[k].identity == identity; }
    }
  }

  lemma {:induction false} JoinableOrderless(components: seq<Component>, c: Context, identity: string)
    ensures Joinable(components, c, identity) <==> Joinable(Sort(components, ByDataset), c, identity)
  {
    SortMembers(components, ByDataset);
    hide Sort, Holds;
    var ordered := Sort(components, ByDataset);
    if Joinable(components, c, identity) {
      var i :| 0 <= i < |components| && Holds(components[i].rows, c, identity);
      assert components[i] in ordered;
    }
    if Joinable(ordered, c, identity) {
      var i :| 0 <= i < |ordered| && Holds(ordered[i].rows, c, identity);
      assert ordered[i] in components;
    }
  }

  /** A joined row has each dataset's payload for its identity, and names exactly the
      datasets that have none. */
  lemma {:induction false} ValuesAreExact(components: seq<Component>, owners: map<string, string>, c: Context, k: nat,
                                          i: nat, payload: Value)
    requires Composition(components, owners, c).Ok?
    requires k < |Composition(components, owners, c).value.rows| && i < |components|
    ensures var row, ordered := Composition(components, owners, c).value.rows[k], Sort(components, ByDataset);
      && |row.values| == |ordered|
      && (row.values[i] == Some(payload) <==> HoldsPayload(ordered[i].rows, c, row.identity, payload))
      && (ordered[i].dataset in row.missing <==> !Holds(ordered[i].rows, c, row.identity))
  {
    var ordered, accepted := ComposedFrom(components, owners, c);
    JoinedRows(ordered, accepted, c);
    AcceptedAt(ordered, owners, c, i);
    ComponentAccepts(ordered[i], owners, c);
    var row := Composition(components, owners, c).value.rows[k];
    AcceptedExactly(ordered[i].rows, c, row.identity, payload);
    DistinctAfterSort(components, owners, c);
    hide Composition, AcceptAll, AcceptRows, AcceptComponent, Identities, SortedTexts, Join, Sort, Holds, HoldsPayload;
    MissingExactly(Datasets(ordered), row.values, i);
  }

  lemma {:induction false} MissingExactly(datasets: seq<string>, values: seq<Option<Value>>, i: nat)
    requires |datasets| == |values| && i < |datasets|
    requires forall a, b :: 0 <= a < b < |datasets| ==> datasets[a] != datasets[b]
    ensures datasets[i] in MissingOf(datasets, values) <==> values[i].None?
  {
    hide MissingOf;
  }

  lemma {:induction false} DistinctAfterSort(components: seq<Component>, owners: map<string, string>, c: Context)
    requires Composition(components, owners, c).Ok?
    ensures DistinctDatasets(Sort(components, ByDataset))
    ensures forall a, b :: 0 <= a < b < |components| ==>
      Datasets(Sort(components, ByDataset))[a] != Datasets(Sort(components, ByDataset))[b]
  {
    DistinctIsOrderless(components, Sort(components, ByDataset));
    hide AcceptAll, Join, Stores, Sort, Sealed;
  }

  lemma DatasetOrder()
    ensures StrictWeak(ByDataset)
  {
    TextOrder();
    hide TextLt;
  }

  lemma DistinctComparable(components: seq<Component>)
    requires DistinctDatasets(components)
    ensures DistinctKeys(components, ByDataset)
  {
    hide TextLt;
    forall i, j | 0 <= i < j < |components|
      ensures ByDataset(components[i], components[j]) || ByDataset(components[j], components[i])
    {
      TextTotal(components[i].dataset, components[j].dataset);
    }
  }

  // ----- order does not matter -----

  lemma {:induction false} DatasetOnce(components: seq<Component>, x: Component)
    requires DistinctDatasets(components)
    ensures multiset(components)[x] <= 1
  {
    if components != [] {
      var n := |components| - 1;
      DatasetOnce(components[..n], x);
      assert components == components[..n] + [components[n]];
      if components[n] == x {
        forall i | 0 <= i < n ensures components[..n][i] != x { assert components[i].dataset != components[n].dataset; }
        assert x !in components[..n];
      }
    }
  }

  lemma DistinctIsOrderless(components: seq<Component>, others: seq<Component>)
    requires multiset(components) == multiset(others) && DistinctDatasets(components)
    ensures DistinctDatasets(others)
  {
    forall i, j | 0 <= i < j < |others| ensures others[i].dataset != others[j].dataset {
      assert others[i] in multiset(others) && others[j] in multiset(others);
      assert others[i] in components && others[j] in components;
      if others[i].dataset == others[j].dataset {
        assert others[i] == others[j];
        TwoPlaces(others, i, j);
        DatasetOnce(components, others[i]);
      }
    }
  }

  lemma {:induction false} SameSorted(components: seq<Component>, others: seq<Component>)
    requires multiset(components) == multiset(others) && DistinctDatasets(components)
    ensures Sort(components, ByDataset) == Sort(others, ByDataset)
  {
    DistinctIsOrderless(components, others);
    DatasetOrder();
    DistinctComparable(components);
    DistinctComparable(others);
    assert forall x :: x in components <==> x in multiset(components);
    assert forall x :: x in others <==> x in multiset(others);
    hide DistinctDatasets, DistinctKeys, StrictWeak, Sort;
    SortSameMembers(components, others, ByDataset);
  }

  /** The order in which components are passed changes nothing. */
  lemma ComponentOrderDoesNotMatter(components: seq<Component>, others: seq<Component>, owners: map<string, string>,
                                    c: Context)
    requires multiset(components) == multiset(others)
    ensures Composition(components, owners, c) == Composition(others, owners, c)
  {
    assert |components| == |multiset(components)| == |others|;
    if DistinctDatasets(components) {
      DistinctIsOrderless(components, others);
      SameSorted(components, others);
    } else if DistinctDatasets(others) {
      DistinctIsOrderless(others, components);
    }
    hide DistinctDatasets, Sort, AcceptAll, Join, Stores, Sealed;
  }

  /** How many available rows carry an identity. */
  function Count(rows: seq<ComponentRow>, c: Context, identity: string): nat {
    if rows == [] then 0
    else
      var n := |rows| - 1;
      Count(rows[..n], c, identity) + (if Available(rows[n], c) && rows[n].identity == identity then 1 else 0)
  }

  ghost predicate NoRepeats(rows: seq<ComponentRow>, c: Context) {
    forall identity :: Count(rows, c, identity) <= 1
  }

  lemma {:induction false} AcceptsUnlessRepeated(rows: seq<ComponentRow>, c: Context)
    ensures AcceptRows(rows, c).Some? <==> NoRepeats(rows, c)
    ensures AcceptRows(rows, c).Some? ==> forall identity :: identity in AcceptRows(rows, c).value <==>
      Count(rows, c, identity) == 1
  {
    hide Available;
    if rows != [] {
      var n := |rows| - 1;
      var front, id := rows[..n], rows[n].identity;
      AcceptsUnlessRepeated(front, c);
      forall identity
        ensures Count(rows, c, identity) ==
          Count(front, c, identity) + (if Available(rows[n], c) && id == identity then 1 else 0)
      {
      }
      hide Count;
      if NoRepeats(rows, c) {
        forall identity ensures Count(front, c, identity) <= 1 { assert Count(rows, c, identity) <= 1; }
        assert Count(rows, c, id) <= 1;
      } else if NoRepeats(front, c) {
        var x :| Count(rows, c, x) > 1;
        assert Count(front, c, x) <= 1;
      }
    }
  }

  lemma {:induction false} CountConcat(a: seq<ComponentRow>, b: seq<ComponentRow>, c: Context, identity: string)
    ensures Count(a + b, c, identity) == Count(a, c, identity) + Count(b, c, identity)
  {
    hide Available;
    if b == [] {
      assert a + b == a;
    } else {
      var n := |b| - 1;
      assert (a + b)[..|a| + n] == a + b[..n];
      CountConcat(a, b[..n], c, identity);
    }
  }

  lemma {:induction false} CountWithout(rows: seq<ComponentRow>, j: nat, c: Context, identity: string)
    requires j < |rows|
    ensures Count(rows, c, identity) ==
      Count(rows[..j] + rows[j + 1..], c, identity) + Count([rows[j]], c, identity)
  {
    hide Count;
    CountConcat(rows[..j], [rows[j]] + rows[j + 1..], c, identity);
    CountConcat([rows[j]], rows[j + 1..], c, identity);
    CountConcat(rows[..j], rows[j + 1..], c, identity);
    assert rows == rows[..j] + ([rows[j]] + rows[j + 1..]);
  }

  lemma {:induction false} CountIsOrderless(rows: seq<ComponentRow>, others: seq<ComponentRow>, c: Context,
                                            identity: string)
    requires multiset(rows) == multiset(others)
    ensures Count(rows, c, identity) == Count(others, c, identity)
    decreases |rows|
  {
    hide Count;
    if rows == [] {
      assert |multiset(others)| == 0;
    } else {
      var n := |rows| - 1;
      var j := SameRest(rows, others);
      CountIsOrderless(rows[..n], others[..j] + others[j + 1..], c, identity);
      CountWithout(rows, n, c, identity);
      CountWithout(others, j, c, identity);
      assert rows[..n] + rows[n + 1..] == rows[..n];
    }
  }

  /** The order of a component's rows changes nothing about what is accepted. */
  lemma {:induction false} AcceptIsOrderless(rows: seq<ComponentRow>, others: seq<ComponentRow>, c: Context)
    requires multiset(rows) == multiset(others)
    ensures AcceptRows(rows, c) == AcceptRows(others, c)
  {
    if NoRepeats(rows, c) { RepeatsAreOrderless(rows, others, c); }
    if NoRepeats(others, c) { RepeatsAreOrderless(others, rows, c); }
    AcceptsUnlessRepeated(rows, c);
    AcceptsUnlessRepeated(others, c);
    hide AcceptRows, Count, NoRepeats, HoldsPayload;
    if AcceptRows(rows, c).Some? {
      AcceptedSubset(rows, others, c);
      AcceptedSubset(others, rows, c);
      assert AcceptRows(rows, c).value == AcceptRows(others, c).value;
    }
  }

  lemma RepeatsAreOrderless(rows: seq<ComponentRow>, others: seq<ComponentRow>, c: Context)
    requires multiset(rows) == multiset(others) && NoRepeats(rows, c)
    ensures NoRepeats(others, c)
  {
    hide Count;
    forall identity ensures Count(others, c, identity) <= 1 {
      CountIsOrderless(rows, others, c, identity);
      assert Count(rows, c, identity) <= 1;
    }
  }

  lemma {:induction false} AcceptedSubset(rows: seq<ComponentRow>, others: seq<ComponentRow>, c: Context)
    requires multiset(rows) == multiset(others) && AcceptRows(rows, c).Some? && AcceptRows(others, c).Some?
    ensures var m, k := AcceptRows(rows, c).value, AcceptRows(others, c).value;
      forall x :: x in m ==> x in k && k[x] == m[x]
  {
    hide AcceptRows, HoldsPayload;
    var m, k := AcceptRows(rows, c).value, AcceptRows(others, c).value;
    forall x | x in m ensures x in k && k[x] == m[x] {
      AcceptedExactly(rows, c, x, m[x]);
      AcceptedExactly(others, c, x, m[x]);
      HoldsIsOrderless(rows, others, c, x, m[x]);
    }
  }

  lemma HoldsIsOrderless(rows: seq<ComponentRow>, others: seq<ComponentRow>, c: Context, identity: string,
                         payload: Value)
    requires multiset(rows) == multiset(others) && HoldsPayload(rows, c, identity, payload)
    ensures HoldsPayload(others, c, identity, payload)
  {
    hide Available;
    var i :| 0 <= i < |rows| && Available(rows[i], c) && rows[i].identity == identity && rows[i].payload == payload;
    assert rows[i] in multiset(others);
    var j :| 0 <= j < |others| && others[j] == rows[i];
  }

  /** The same datasets, stores and receipts, rows in any order. */
  predicate SameButRowOrder(components: seq<Component>, others: seq<Component>) {
    |components| == |others| && forall i :: 0 <= i < |components| ==> SameButRows(components[i], others[i])
  }

  predicate SameButRows(x: Component, y: Component) {
    x.dataset == y.dataset && x.store == y.store && x.receipt == y.receipt && multiset(x.rows) == multiset(y.rows)
  }

  lemma {:induction false} AcceptAllIsOrderless(components: seq<Component>, others: seq<Component>,
                                                owners: map<string, string>,
                                                c: Context)
    requires SameButRowOrder(components, others)
    ensures AcceptAll(components, owners, c) == AcceptAll(others, owners, c)
  {
    hide AcceptRows;
    if components != [] {
      var n := |components| - 1;
      AcceptAllIsOrderless(components[..n], others[..n], owners, c);
      AcceptIsOrderless(components[n].rows, others[n].rows, c);
      assert |components[n].rows| == |multiset(components[n].rows)| == |others[n].rows|;
    }
  }

  lemma WarnedIsOrderless(rows: seq<ComponentRow>, others: seq<ComponentRow>, c: Context)
    requires multiset(rows) == multiset(others) && AnyWarned(rows, c)
    ensures AnyWarned(others, c)
  {
    hide Warned;
    var i :| 0 <= i < |rows| && Warned(rows[i], c);
    assert rows[i] in multiset(others);
    var j :| 0 <= j < |others| && others[j] == rows[i];
  }

  lemma JoinIsOrderless(components: seq<Component>, others: seq<Component>, accepted: seq<Accepted>, c: Context)
    requires SameButRowOrder(components, others) && |components| == |accepted|
    ensures Join(components, accepted, c) == Join(others, accepted, c)
    ensures Stores(components) == Stores(others)
  {
    hide AnyWarned, JoinAll, SortedTexts, Identities;
    assert Datasets(components) == Datasets(others);
    assert Receipts(components, accepted) == Receipts(others, accepted);
    forall i | 0 <= i < |components| ensures AnyWarned(components[i].rows, c) <==> AnyWarned(others[i].rows, c) {
      if AnyWarned(components[i].rows, c) { WarnedIsOrderless(components[i].rows, others[i].rows, c); }
      if AnyWarned(others[i].rows, c) { WarnedIsOrderless(others[i].rows, components[i].rows, c); }
    }
    StoresIncluded(components, others);
    StoresIncluded(others, components);
  }

  lemma StoresIncluded(components: seq<Component>, others: seq<Component>)
    requires |components| == |others| && forall i :: 0 <= i < |components| ==> components[i].store == others[i].store
    ensures Stores(components) <= Stores(others)
  {
    forall x | x in Stores(components) ensures x in Stores(others) {
      var i :| 0 <= i < |components| && components[i].store == x;
      assert others[i].store == x;
    }
  }

  lemma ConsParallel(x: Component, y: Component, s: seq<Component>, t: seq<Component>)
    requires SameButRows(x, y) && SameButRowOrder(s, t)
    ensures SameButRowOrder([x] + s, [y] + t)
  {
    hide SameButRows;
  }

  lemma {:induction false} InsertParallel(s: seq<Component>, t: seq<Component>, x: Component, y: Component)
    requires SameButRowOrder(s, t) && SameButRows(x, y)
    ensures SameButRowOrder(Insert(s, x, ByDataset), Insert(t, y, ByDataset))
  {
    hide TextLt;
    if s == [] {
      ConsParallel(x, y, s, t);
      assert [x] + s == [x] && [y] + t == [y];
    } else {
      assert SameButRows(s[0], t[0]);
      assert ByDataset(x, s[0]) <==> ByDataset(y, t[0]);
      TailParallel(s, t);
      hide SameButRowOrder, SameButRows;
      if ByDataset(x, s[0]) {
        ConsParallel(x, y, s, t);
      } else {
        InsertParallel(s[1..], t[1..], x, y);
        ConsParallel(s[0], t[0], Insert(s[1..], x, ByDataset), Insert(t[1..], y, ByDataset));
      }
    }
  }

  lemma TailParallel(s: seq<Component>, t: seq<Component>)
    requires s != [] && SameButRowOrder(s, t)
    ensures |t| == |s| && SameButRows(s[0], t[0]) && SameButRowOrder(s[1..], t[1..])
  {
    hide SameButRows;
  }

  lemma {:induction false} SortParallel(s: seq<Component>, t: seq<Component>)
    requires SameButRowOrder(s, t)
    ensures SameButRowOrder(Sort(s, ByDataset), Sort(t, ByDataset))
  {
    hide Sort, SameButRowOrder, SameButRows, ByDataset;
    FrontParallel(s, t);
    SortLast(s);
    SortLast(t);
    if s != [] {
      var n := |s| - 1;
      SortParallel(s[..n], t[..n]);
      InsertParallel(Sort(s[..n], ByDataset), Sort(t[..n], ByDataset), s[n], t[n]);
    }
  }

  lemma {:induction false} FrontParallel(s: seq<Component>, t: seq<Component>)
    requires SameButRowOrder(s, t)
    ensures |s| == |t| && (s == [] ==> SameButRowOrder(Sort(s, ByDataset), Sort(t, ByDataset)))
    ensures s != [] ==> SameButRowOrder(s[..|s| - 1], t[..|t| - 1]) && SameButRows(s[|s| - 1], t[|t| - 1])
  {
    hide SameButRows;
  }

  lemma {:induction false} SortLast(s: seq<Component>)
    ensures s != [] ==> Sort(s, ByDataset) == Insert(Sort(s[..|s| - 1], ByDataset), s[|s| - 1], ByDataset)
  {
    hide Insert, ByDataset;
  }

  function AvailableCount(rows: seq<ComponentRow>, c: Context): nat {
    if rows == [] then 0
    else AvailableCount(rows[..|rows| - 1], c) + (if Available(rows[|rows| - 1], c) then 1 else 0)
  }

  lemma {:induction false} NothingLost(rows: seq<ComponentRow>, c: Context)
    requires AcceptRows(rows, c).Some?
    ensures |AcceptRows(rows, c).value| == AvailableCount(rows, c)
  {
    hide Available;
    if rows != [] { NothingLost(rows[..|rows| - 1], c); }
  }

  /** One receipt per component, in dataset order, counting its available rows. */
  lemma {:induction false} ReceiptsAreExact(components: seq<Component>, owners: map<string, string>, c: Context, i: nat)
    requires Composition(components, owners, c).Ok? && i < |components|
    ensures var receipts, ordered := Composition(components, owners, c).value.receipts, Sort(components, ByDataset);
      && multiset(ordered) == multiset(components) && Sorted(ordered, ByDataset)
      && |receipts| == |ordered| == |components|
      && receipts[i] == ReceiptOf(ordered[i], AvailableCount(ordered[i].rows, c))
  {
    var ordered, accepted := ComposedFrom(components, owners, c);
    DatasetOrder();
    SortSorted(components, ByDataset);
    hide Composition, AcceptAll, Sort, AvailableCount, AcceptRows, JoinAll, Identities, SortedTexts,
         AnyComponentWarned, ByDataset;
    AcceptedAt(ordered, owners, c, i);
    ComponentAccepts(ordered[i], owners, c);
    NothingLost(ordered[i].rows, c);
  }

  /** What every component must meet. */
  ghost predicate ComponentMeets(component: Component, owners: map<string, string>, c: Context) {
    && component.dataset in owners && owners[component.dataset] == component.store
    && |component.rows| <= c.componentLimit
    && NoRepeats(component.rows, c)
  }

  lemma {:induction false} AllMeetExactly(components: seq<Component>, owners: map<string, string>, c: Context)
    ensures AcceptAll(components, owners, c).Ok? <==>
      forall i :: 0 <= i < |components| ==> ComponentMeets(components[i], owners, c)
  {
    hide AcceptRows, NoRepeats;
    if components != [] {
      var n := |components| - 1;
      AllMeetExactly(components[..n], owners, c);
      AcceptsUnlessRepeated(components[n].rows, c);
      assert AcceptComponent(components[n], owners, c).Ok? <==> ComponentMeets(components[n], owners, c);
      assert forall i :: 0 <= i < n ==> components[..n][i] == components[i];
    }
  }

  /** The document of the join is one that the codec encodes. */
  ghost predicate JoinEncodes(components: seq<Component>, owners: map<string, string>, c: Context) {
    var ordered := Sort(components, ByDataset);
    AcceptAllLength(ordered, owners, c);
    var accepted := AcceptAll(ordered, owners, c);
    accepted.Ok? && Dumped(Document(Join(ordered, accepted.value, c), c)).Ok?
  }

  /** When a composition succeeds. */
  lemma ComposesExactly(components: seq<Component>, owners: map<string, string>, c: Context)
    ensures Composition(components, owners, c).Ok? <==>
      && |components| >= 2 && DistinctDatasets(components)
      && (exists a, b :: a in components && b in components && a.store != b.store)
      && (forall component :: component in components ==> ComponentMeets(component, owners, c))
      && JoinEncodes(components, owners, c)
  {
    hide Sort, AcceptAll, ComponentMeets, Join, DistinctDatasets, ByDataset, Stores, Sealed, Dumped, Document;
    var ordered := Sort(components, ByDataset);
    AllMeetExactly(ordered, owners, c);
    AcceptAllLength(ordered, owners, c);
    SortMembers(components, ByDataset);
    if AcceptAll(ordered, owners, c).Ok? { SealedExactly(Join(ordered, AcceptAll(ordered, owners, c).value, c), c); }
    TwoStoresExactly(ordered);
    assert forall x :: x in components <==> x in ordered;
  }

  // ----- the document -----

  /** A joined row as it is printed: identity, each dataset's payload or null, what is missing. */
  predicate StatesRow(v: Value, row: JoinedRow, datasets: seq<string>)
    requires |row.values| == |datasets|
  {
    && v.Obj? && Lookup(v.fields, "join_identity") == Some(Str(row.identity))
    && (match Lookup(v.fields, "components")
        case Some(Obj(fields)) =>
          && |fields| == |datasets|
          && forall i :: 0 <= i < |datasets| ==>
               fields[i] == Field(datasets[i], if row.values[i].Some? then row.values[i].value else Null)
        case _ => false)
    && (match Lookup(v.fields, "missing_datasets")
        case Some(Arr(items)) =>
          |items| == |row.missing| && forall i :: 0 <= i < |items| ==> items[i] == Str(row.missing[i])
        case _ => false)
  }

  predicate StatesReceipt(v: Value, receipt: Receipt) {
    && v.Obj? && Lookup(v.fields, "dataset_id") == Some(Str(receipt.dataset))
    && Lookup(v.fields, "store_role") == Some(Str(receipt.store))
    && Lookup(v.fields, "store_receipt") == Some(receipt.stored)
    && Lookup(v.fields, "accepted_count") == Some(Int(receipt.accepted))
  }

  lemma {:induction false} ValueFieldsAt(datasets: seq<string>, values: seq<Option<Value>>)
    requires |datasets| == |values|
    ensures |ValueFields(datasets, values)| == |datasets|
    ensures forall i :: 0 <= i < |datasets| ==>
      ValueFields(datasets, values)[i] == Field(datasets[i], if values[i].Some? then values[i].value else Null)
  {
    if datasets != [] { ValueFieldsAt(datasets[1..], values[1..]); }
  }

  lemma {:induction false} TextsAt(texts: seq<string>)
    ensures |Texts(texts)| == |texts| && forall i :: 0 <= i < |texts| ==> Texts(texts)[i] == Str(texts[i])
  {
    if texts != [] { TextsAt(texts[1..]); }
  }

  lemma {:induction false} RowIsStated(row: JoinedRow, datasets: seq<string>)
    requires |row.values| == |datasets|
    ensures StatesRow(RowValue(row, datasets), row, datasets)
  {
    hide ValueFields, Texts, Lookup;
    ValueFieldsAt(datasets, row.values);
    TextsAt(row.missing);
    var fields := RowValue(row, datasets).fields;
    assert fields[0].key == "join_identity" && fields[1].key == "components" && fields[2].key == "missing_datasets";
    assert fields[0].key[0] == 'j' && fields[1].key[0] == 'c' && fields[2].key[0] == 'm';
    FieldAt(fields, 0);
    FieldAt(fields, 1);
    FieldAt(fields, 2);
  }

  lemma {:induction false} FieldAt(fields: seq<Field>, i: nat)
    requires i < |fields| && forall j :: 0 <= j < i ==> fields[j].key != fields[i].key
    ensures Lookup(fields, fields[i].key) == Some(fields[i].value)
  {
    if i > 0 { FieldAt(fields[1..], i - 1); }
  }

  lemma {:induction false} ReceiptIsStated(receipt: Receipt)
    ensures StatesReceipt(ReceiptValue(receipt), receipt)
  {
    hide Lookup;
    var fields := ReceiptValue(receipt).fields;
    assert |fields[0].key| == |fields[1].key| == 10 && |fields[2].key| == 13 && |fields[3].key| == 14;
    assert fields[0].key[0] == 'd' && fields[1].key[0] == 's';
    FieldAt(fields, 0);
    FieldAt(fields, 1);
    FieldAt(fields, 2);
    FieldAt(fields, 3);
  }

  lemma {:induction false} DatasetsOfReceipts(receipts: seq<Receipt>)
    ensures |ReceiptDatasets(receipts)| == |receipts|
    ensures forall i :: 0 <= i < |receipts| ==> ReceiptDatasets(receipts)[i] == receipts[i].dataset
  {
    if receipts != [] { DatasetsOfReceipts(receipts[1..]); }
  }

  /** The printed result states every receipt, every row and whether it is complete. */
  lemma {:induction false} DocumentStates(r: Composed, c: Context, rows: seq<Value>, receipts: seq<Value>)
    requires forall k :: 0 <= k < |r.rows| ==> |r.rows[k].values| == |r.receipts|
    requires Document(r, c).fields[7].value == Arr(receipts) && Document(r, c).fields[8].value == Arr(rows)
    ensures Document(r, c).fields[7].key == "components" && |receipts| == |r.receipts|
    ensures forall i :: 0 <= i < |receipts| ==> StatesReceipt(receipts[i], r.receipts[i])
    ensures Document(r, c).fields[8].key == "rows" && |rows| == |r.rows|
    ensures var datasets := seq(|r.receipts|, i requires 0 <= i < |r.receipts| => r.receipts[i].dataset);
      forall k :: 0 <= k < |rows| ==> StatesRow(rows[k], r.rows[k], datasets)
    ensures Document(r, c).fields[10] == Field("truncated", Bool(r.truncated))
    ensures Document(r, c).fields[9] == Field("warnings", Arr(if r.warned then [Str(INTRADAY_WARNING)] else []))
  {
    hide RowValue, ReceiptValue, ReceiptDatasets, StatesRow, StatesReceipt;
    DatasetsOfReceipts(r.receipts);
    var datasets := seq(|r.receipts|, i requires 0 <= i < |r.receipts| => r.receipts[i].dataset);
    assert ReceiptDatasets(r.receipts) == datasets;
    forall k | 0 <= k < |r.rows| ensures StatesRow(rows[k], r.rows[k], datasets) { RowIsStated(r.rows[k], datasets); }
    forall i | 0 <= i < |r.receipts| ensures StatesReceipt(receipts[i], r.receipts[i]) {
      ReceiptIsStated(r.receipts[i]);
    }
  }

  // ----- warnings and faults -----

  /** Only the inclusive policy lets a date in on the cutoff's own day. */
  predicate OnCutoffDay(row: ComponentRow, c: Context) {
    && c.policy.CalendarDateInclusive? && c.cutoff.DateTime?
    && row.available.Date? && row.available.day == c.cutoff.day
  }

  lemma WarnedMeans(row: ComponentRow, c: Context)
    requires ContextOk(c)
    ensures Warned(row, c) <==> OnCutoffDay(row, c)
    ensures Warned(row, c) ==> Available(row, c)
  {
  }

  /** A composition carries its warning exactly when some row got in on the cutoff's day. */
  lemma {:induction false} WarnedExactly(components: seq<Component>, owners: map<string, string>, c: Context)
    requires ContextOk(c) && Composition(components, owners, c).Ok?
    ensures Composition(components, owners, c).value.warned <==>
      exists component, row :: component in components && row in component.rows && OnCutoffDay(row, c)
  {
    hide Composition, AcceptAll, Sort, Warned, OnCutoffDay, Join, AnyComponentWarned;
    var ordered, accepted := ComposedFrom(components, owners, c);
    JoinWarns(ordered, accepted, c);
    SortMembers(components, ByDataset);
    forall row ensures Warned(row, c) <==> OnCutoffDay(row, c) { WarnedMeans(row, c); }
    SomeRowWarned(ordered, c);
    assert forall component :: component in components <==> component in ordered;
  }

  lemma JoinWarns(components: seq<Component>, accepted: seq<Accepted>, c: Context)
    requires |components| == |accepted|
    ensures Join(components, accepted, c).warned <==> AnyComponentWarned(components, c)
  {
    hide JoinAll, Identities, SortedTexts, Receipts, AnyComponentWarned;
  }

  lemma {:induction false} SomeRowWarned(components: seq<Component>, c: Context)
    ensures AnyComponentWarned(components, c) <==>
      exists component, row :: component in components && row in component.rows && Warned(row, c)
  {
    hide Warned;
    if component, row :| component in components && row in component.rows && Warned(row, c) {
      var i :| 0 <= i < |components| && components[i] == component;
      var k :| 0 <= k < |component.rows| && component.rows[k] == row;
      assert AnyWarned(components[i].rows, c);
    }
    if AnyComponentWarned(components, c) {
      var i :| 0 <= i < |components| && AnyWarned(components[i].rows, c);
      var k :| 0 <= k < |components[i].rows| && Warned(components[i].rows[k], c);
      assert components[i].rows[k] in components[i].rows;
    }
  }

  /** Which fault a composition raises: too few components, datasets that repeat, the first
      component in dataset order that fails, and then one store alone. */
  lemma {:induction false} FaultsInOrder(components: seq<Component>, owners: map<string, string>, c: Context, i: nat)
    ensures |components| < 2 ==> Composition(components, owners, c) == Err(ValidationFault)
    ensures |components| >= 2 && !DistinctDatasets(components) ==>
      Composition(components, owners, c) == Err(ConflictFault)
    ensures |components| >= 2 && DistinctDatasets(components) && i < |components| ==>
      var ordered := Sort(components, ByDataset);
      (forall j :: 0 <= j < i ==> ComponentMeets(ordered[j], owners, c)) && !ComponentMeets(ordered[i], owners, c) ==>
        var owned := ordered[i].dataset in owners && owners[ordered[i].dataset] == ordered[i].store;
        Composition(components, owners, c) ==
          Err(if owned && |ordered[i].rows| > c.componentLimit then ResourceLimit else ConflictFault)
    ensures |components| >= 2 && DistinctDatasets(components) ==>
      (forall component :: component in components ==> ComponentMeets(component, owners, c)) &&
      (forall a, b :: a in components && b in components ==> a.store == b.store) ==>
        Composition(components, owners, c) == Err(ValidationFault)
  {
    hide AcceptAll, ComponentMeets, Sort, Stores, Join, DistinctDatasets;
    var ordered := Sort(components, ByDataset);
    SortMembers(components, ByDataset);
    AllMeetExactly(ordered, owners, c);
    TwoStoresExactly(ordered);
    if i < |components| && (forall j :: 0 <= j < i ==> ComponentMeets(ordered[j], owners, c))
       && !ComponentMeets(ordered[i], owners, c) {
      FirstFailing(ordered, owners, c, i);
    }
  }

  lemma {:induction false} FirstFailing(ordered: seq<Component>, owners: map<string, string>, c: Context, i: nat)
    requires i < |ordered| && !ComponentMeets(ordered[i], owners, c)
    requires forall j :: 0 <= j < i ==> ComponentMeets(ordered[j], owners, c)
    ensures var owned := ordered[i].dataset in owners && owners[ordered[i].dataset] == ordered[i].store;
      AcceptAll(ordered, owners, c) ==
        Err(if owned && |ordered[i].rows| > c.componentLimit then ResourceLimit else ConflictFault)
  {
    hide AcceptRows, NoRepeats;
    AllMeetExactly(ordered[..i], owners, c);
    AcceptsUnlessRepeated(ordered[i].rows, c);
    assert ordered[..i + 1][..i] == ordered[..i];
    AcceptAllStops(ordered, owners, c, i + 1);
  }

  lemma TwoStoresExactly(components: seq<Component>)
    ensures |Stores(components)| >= 2 <==> exists a, b :: a in components && b in components && a.store != b.store
  {
    forall a | a in components ensures a.store in Stores(components) {}
    if a, b :| a in components && b in components && a.store != b.store {
      assert {a.store, b.store} <= Stores(components);
      SubsetNotLarger({a.store, b.store}, Stores(components));
    }
    if |Stores(components)| >= 2 { var a, b := TwoOfThem(components); }
  }

  lemma TwoOfThem(components: seq<Component>) returns (a: Component, b: Component)
    requires |Stores(components)| >= 2
    ensures a in components && b in components && a.store != b.store
  {
    var s :| s in Stores(components);
    assert |Stores(components) - {s}| == |Stores(components)| - 1;
    var t :| t in Stores(components) - {s};
    var i :| 0 <= i < |components| && components[i].store == s;
    var j :| 0 <= j < |components| && components[j].store == t;
    a, b := components[i], components[j];
  }

  lemma SubsetNotLarger(a: set<string>, b: set<string>)
    requires a <= b
    ensures |a| <= |b|
  {
    assert b == a + (b - a);
  }

  /** The order of the rows inside the components changes nothing. */
  lemma RowOrderDoesNotMatter(components: seq<Component>, others: seq<Component>, owners: map<string, string>,
                              c: Context)
    requires SameButRowOrder(components, others)
    ensures Composition(components, owners, c) == Composition(others, owners, c)
  {
    SameDatasets(components, others);
    SortParallel(components, others);
    hide Sort, FromOrdered, DistinctDatasets, SameButRowOrder;
    FromOrderedIsOrderless(Sort(components, ByDataset), Sort(others, ByDataset), owners, c);
  }

  lemma FromOrderedIsOrderless(ordered: seq<Component>, again: seq<Component>, owners: map<string, string>, c: Context)
    requires SameButRowOrder(ordered, again)
    ensures FromOrdered(ordered, owners, c) == FromOrdered(again, owners, c)
  {
    hide AcceptAll, Join, Stores, SameButRowOrder, Sealed;
    AcceptAllIsOrderless(ordered, again, owners, c);
    AcceptAllLength(ordered, owners, c);
    if AcceptAll(ordered, owners, c).Ok? { JoinIsOrderless(ordered, again, AcceptAll(ordered, owners, c).value, c); }
  }

  lemma SameDatasets(components: seq<Component>, others: seq<Component>)
    requires SameButRowOrder(components, others)
    ensures |components| == |others| && (DistinctDatasets(components) <==> DistinctDatasets(others))
  {
    forall i | 0 <= i < |components| ensures components[i].dataset == others[i].dataset {
      assert SameButRows(components[i], others[i]);
    }
    hide SameButRowOrder;
  }

  // ----- the loops -----

  lemma {:induction false} AcceptStops(rows: seq<ComponentRow>, c: Context, k: nat)
    requires k <= |rows| && AcceptRows(rows[..k], c).None?
    ensures AcceptRows(rows, c).None?
    decreases |rows| - k
  {
    hide Available;
    if k == |rows| {
      assert rows[..k] == rows;
    } else {
      assert rows[..k + 1][..k] == rows[..k];
      AcceptStops(rows, c, k + 1);
    }
  }

  lemma {:induction false} AcceptAllStops(components: seq<Component>, owners: map<string, string>, c: Context, k: nat)
    requires k <= |components| && AcceptAll(components[..k], owners, c).Err?
    ensures AcceptAll(components, owners, c) == AcceptAll(components[..k], owners, c)
    decreases |components| - k
  {
    hide AcceptComponent;
    if k == |components| {
      assert components[..k] == components;
    } else {
      assert components[..k + 1][..k] == components[..k];
      AcceptAllStops(components, owners, c, k + 1);
    }
  }

  /** The row loop of one component: `by_identity` and whether a warning was met. */
  method AcceptLoop(rows: seq<ComponentRow>, c: Context) returns (byIdentity: Option<Accepted>, warned: bool)
    ensures byIdentity == AcceptRows(rows, c)
    ensures byIdentity.Some? ==> (warned <==> AnyWarned(rows, c))
  {
    hide Available, Warned;
    var m: Accepted := map[];
    warned := false;
    assert rows[..0] == [];
    for i := 0 to |rows|
      invariant AcceptRows(rows[..i], c) == Some(m)
      invariant warned <==> exists k :: 0 <= k < i && Warned(rows[k], c)
    {
      assert rows[..i + 1][..i] == rows[..i];
      if Warned(rows[i], c) { warned := true; }
      if Available(rows[i], c) {
        if rows[i].identity in m {
          AcceptStops(rows, c, i + 1);
          return None, warned;
        }
        m := m[rows[i].identity := rows[i].payload];
      }
    }
    assert rows[..|rows|] == rows;
    byIdentity := Some(m);
  }

  /** What the component loop has built after the components `done`. */
  ghost predicate Built(done: seq<Component>, accepted: seq<Accepted>, receipts: seq<Receipt>, stores: set<string>,
                        identities: set<string>) {
    && |accepted| == |done| && receipts == Receipts(done, accepted) && stores == Stores(done)
    && identities == Identities(accepted)
  }

  lemma BuiltSnoc(done: seq<Component>, accepted: seq<Accepted>, receipts: seq<Receipt>, stores: set<string>,
                  identities: set<string>, component: Component, m: Accepted)
    requires Built(done, accepted, receipts, stores, identities)
    ensures Built(done + [component], accepted + [m], receipts + [ReceiptOf(component, |m|)],
                  stores + {component.store}, identities + m.Keys)
  {
    var all, more := done + [component], accepted + [m];
    assert all[..|done|] == done && more[..|accepted|] == accepted;
    StoresSnoc(done, component);
  }

  lemma StoresSnoc(components: seq<Component>, component: Component)
    ensures Stores(components + [component]) == Stores(components) + {component.store}
  {
    var all := components + [component];
    assert forall i :: 0 <= i < |components| ==> all[i] == components[i];
    assert all[|components|] == component;
  }

  lemma BuiltNothing()
    ensures Built([], [], [], {}, {})
  {
  }

  /** One component's checks and rows. */
  method AcceptOne(component: Component, owners: map<string, string>, c: Context)
    returns (r: Result<Accepted, Fault>, warned: bool)
    ensures r == AcceptComponent(component, owners, c)
    ensures r.Ok? ==> (warned <==> AnyWarned(component.rows, c))
  {
    hide AcceptRows, AnyWarned;
    if component.dataset !in owners || owners[component.dataset] != component.store {
      return Err(ConflictFault), false;
    }
    if |component.rows| > c.componentLimit { return Err(ResourceLimit), false; }
    var byIdentity;
    byIdentity, warned := AcceptLoop(component.rows, c);
    r := if byIdentity.None? then Err(ConflictFault) else Ok(byIdentity.value);
  }

  /** The component loop. */
  method AcceptComponents(ordered: seq<Component>, owners: map<string, string>, c: Context)
    returns (r: Result<seq<Accepted>, Fault>, receipts: seq<Receipt>, stores: set<string>, identities: set<string>,
             warned: bool)
    ensures r == AcceptAll(ordered, owners, c)
    ensures r.Ok? ==>
      Built(ordered, r.value, receipts, stores, identities) && (warned <==> AnyComponentWarned(ordered, c))
  {
    hide AcceptComponent, AnyWarned, Built;
    var accepted: seq<Accepted> := [];
    receipts, stores, identities, warned := [], {}, {}, false;
    BuiltNothing();
    assert ordered[..0] == [];
    for i := 0 to |ordered|
      invariant AcceptAll(ordered[..i], owners, c) == Ok(accepted)
      invariant Built(ordered[..i], accepted, receipts, stores, identities)
      invariant warned <==> exists k :: 0 <= k < i && AnyWarned(ordered[k].rows, c)
    {
      var component := ordered[i];
      assert ordered[..i + 1][..i] == ordered[..i];
      assert ordered[..i + 1] == ordered[..i] + [component];
      var one, here := AcceptOne(component, owners, c);
      if one.Err? {
        AcceptAllStops(ordered, owners, c, i + 1);
        return Err(one.error), receipts, stores, identities, warned;
      }
      BuiltSnoc(ordered[..i], accepted, receipts, stores, identities, component, one.value);
      warned := warned || here;
      stores := stores + {component.store};
      receipts := receipts + [ReceiptOf(component, |one.value|)];
      identities := identities + one.value.Keys;
      accepted := accepted + [one.value];
    }
    assert ordered[..|ordered|] == ordered;
    r := Ok(accepted);
  }

  /** `sorted` of a set, by repeated insertion. */
  method SortTexts(texts: set<string>) returns (r: seq<string>)
    ensures r == SortedTexts(texts)
  {
    r := [];
    var left := texts;
    TextOrder();
    while left != {}
      invariant left <= texts && StrictlySorted(r, TextLt)
      invariant forall x :: x in r <==> x in texts - left
      decreases |left|
    {
      var x :| x in left;
      forall y | y in r ensures TextLt(x, y) || TextLt(y, x) { TextTotal(x, y); }
      InsertStrict(r, x, TextLt);
      InsertMembers(r, x);
      r := Insert(r, x, TextLt);
      left := left - {x};
    }
    StrictUnique(r, SortedTexts(texts), TextLt);
  }

  lemma {:induction false} InsertMembers(s: seq<string>, x: string)
    ensures forall y :: y in Insert(s, x, TextLt) <==> y in s || y == x
  {
    hide Insert;
    assert forall y :: y in Insert(s, x, TextLt) <==> y in multiset(Insert(s, x, TextLt));
    assert forall y :: y in s <==> y in multiset(s);
  }

  /** `compose`, up to the digest it puts into its result. */
  method Compose(components: seq<Component>, owners: map<string, string>, c: Context)
    returns (r: Result<Composed, Fault>)
    requires ContextOk(c)
    ensures r == Composition(components, owners, c)
  {
    hide AcceptAll, Sort, Stores, Identities, SortedTexts, Receipts, Datasets, AnyComponentWarned, DistinctDatasets,
         JoinOne, Dumped, Document;
    if |components| < 2 { return Err(ValidationFault); }
    var ordered := Sort(components, ByDataset);
    if !DistinctDatasets(components) { return Err(ConflictFault); }
    var accepted, receipts, stores, identities, warned := AcceptComponents(ordered, owners, c);
    if accepted.Err? { return Err(accepted.error); }
    if |stores| < 2 { return Err(ValidationFault); }
    var all := SortTexts(identities);
    var truncated := |all| > c.joinedLimit;
    var selected := Bounded(all, c.joinedLimit);
    var datasets := Datasets(ordered);
    var joined: seq<JoinedRow> := [];
    for i := 0 to |selected|
      invariant |joined| == i
      invariant forall k :: 0 <= k < i ==> joined[k] == JoinOne(selected[k], datasets, accepted.value)
    {
      joined := joined + [JoinOne(selected[i], datasets, accepted.value)];
    }
    assert joined == JoinAll(selected, datasets, accepted.value);
    var result := Composed(receipts, joined, warned, truncated);
    var text := Dumped(Document(result, c));
    r := if text.Err? then Err(text.error) else Ok(result);
  }
}
