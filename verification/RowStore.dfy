// The exported row store with its posting lists, and the reader that resolves
// a posting page back to rows.
module RowStore {
  import opened Text
  import opened Pages

  // ------------------------------------------------------------------- rows

  datatype Json = Null | Value(text: string)

  type Record = map<string, Json>

  // An exported row: the columns postings select on and the record shown.
  datatype ExportRow = ExportRow(
    name: string, expired: bool, provider: string, providerType: string, actionable: bool,
    hasDs: bool, hasNs: bool, hasGlue: bool, hasSynth: bool, hasTlsa: bool, stage: string, record: Record)

  datatype Filter =
    | DirectIpRecords | DelegatedNames | DefaultProviderNames | DsRecords | DnssecCandidates | TlsaPresentNames
    | StrictHnsReady | LikelyWebsites | NeedsDane | IndirectNsHandoffs | NeedsFix | MissingGlueOnly
    | Stage(stage: string) | Provider(provider: string)

  predicate Selects(f: Filter, r: ExportRow) {
    match f
    case DirectIpRecords => r.hasSynth
    case DelegatedNames => r.hasNs
    case DefaultProviderNames => r.providerType == "default_parking"
    case DsRecords => r.hasDs
    case DnssecCandidates => r.hasDs && r.hasNs
    case TlsaPresentNames => r.hasTlsa
    case StrictHnsReady => r.actionable && (r.hasSynth || (r.hasNs && r.hasGlue))
    case LikelyWebsites => r.actionable && (r.hasSynth || r.hasGlue || (r.hasDs && r.hasNs))
    case NeedsDane => r.actionable && r.hasDs && !r.hasTlsa
    case IndirectNsHandoffs => r.stage == "indirect_ns_handoff"
    case NeedsFix => r.stage == "missing_glue"
    case MissingGlueOnly => r.stage == "missing_glue"
    case Stage(stage) => r.stage == stage
    case Provider(provider) => r.provider == provider
  }

  predicate Matches(f: Filter, r: ExportRow) { !r.expired && Selects(f, r) }

  // ----------------------------------------------------------------- records

  datatype Detail = Full | Compact(columns: seq<string>)

  function Cell(r: Record, column: string): Json { if column in r then r[column] else Null }

  function Cells(r: Record, columns: seq<string>): seq<Json> { seq(|columns|,
        i requires 0 <= i < |columns| => Cell(r, columns[i])) }

  datatype Page = FullPage(records: seq<Record>) | CompactPage(columns: seq<string>, cells: seq<seq<Json>>)

  function EncodeRows(rows: seq<ExportRow>, detail: Detail): Page {
    match detail
    case Full => FullPage(seq(|rows|, i requires 0 <= i < |rows| => rows[i].record))
    case Compact(columns) => CompactPage(columns,
      seq(|rows|, i requires 0 <= i < |rows| => Cells(rows[i].record, columns)))
  }

  // Object.fromEntries over the columns: a later column of one name wins.
  function FromEntries(columns: seq<string>, cells: seq<Json>): Record {
    if columns == [] then map[]
    else
      var last := |columns| - 1;
      FromEntries(columns[..last], cells)[columns[last] := if last < |cells| then cells[last] else Null]
  }

  function RowsFromPage(page: Page): seq<Record> {
    match page
    case FullPage(records) => records
    case CompactPage(columns, cells) => seq(|cells|, i requires 0 <= i < |cells| => FromEntries(columns, cells[i]))
  }

  // What a reader sees of a record: its columns, with null for a missing one.
  function Shown(r: Record, detail: Detail): Record {
    match detail
    case Full => r
    case Compact(columns) => map c | c in columns :: Cell(r, c)
  }

  lemma {:induction false} FromEntriesOfCells(r: Record, columns: seq<string>, n: nat)
    requires n <= |columns|
    ensures FromEntries(columns[..n], Cells(r, columns)) == map c | c in columns[..n] :: Cell(r, c)
  {
    if n > 0 {
      FromEntriesOfCells(r, columns, n - 1);
      assert columns[..n][..n - 1] == columns[..n - 1];
      assert columns[..n] == columns[..n - 1] + [columns[n - 1]];
    }
  }

  // A page of either encoding decodes to what is shown of its rows.
  lemma {:induction false} PageDecodes(rows: seq<ExportRow>, detail: Detail)
    ensures RowsFromPage(EncodeRows(rows, detail))
      == seq(|rows|, i requires 0 <= i < |rows| => Shown(rows[i].record, detail))
  {
    if detail.Compact? {
      var decoded := RowsFromPage(EncodeRows(rows, detail));
      forall i | 0 <= i < |rows| ensures decoded[i] == Shown(rows[i].record, detail) {
        FromEntriesOfCells(rows[i].record, detail.columns, |detail.columns|);
        assert detail.columns[..|detail.columns|] == detail.columns;
      }
    }
  }

  // -------------------------------------------------------------- collections

  datatype Store = Store(rowCount: nat, pageSize: nat, pageCount: nat, pages: map<nat, Page>)

  datatype Postings = Postings(rowCount: nat, pageSize: nat, pageCount: nat, pages: map<nat, seq<nat>>)

  function StorePages(rows: seq<ExportRow>, detail: Detail, size: nat): map<nat, Page>
    requires size > 0
  {
    map p | 1 <= p <= PageCount(|rows|, size) :: EncodeRows(Slice(rows, size, p), detail)
  }

  // SELECT ordinal ... WHERE expired = 0 AND ... ORDER BY ordinal, from `from` on.
  function Ordinals(rows: seq<ExportRow>, f: Filter, from: nat): seq<nat>
    decreases |rows| - from
  {
    if from >= |rows| then []
    else (if Matches(f, rows[from]) then [from] else []) + Ordinals(rows, f, from + 1)
  }

  method WriteNameRowStore(rows: seq<ExportRow>, detail: Detail, size: nat) returns (store: Store)
    requires size > 0
    ensures store.rowCount == |rows| && store.pageSize == size && store.pageCount == PageCount(|rows|, size)
    ensures forall p :: 1 <= p <= store.pageCount ==>
      p in store.pages && store.pages[p] == StorePages(rows, detail, size)[p]
    ensures rows == [] ==> store.pages == map[1 := EncodeRows([], detail)]
  {
    var pages: map<nat, Page> := map[];
    if rows == [] {
      pages := map[1 := EncodeRows([], detail)];
    } else {
      var cut := WritePages(rows, size);
      pages := map p | p in cut :: EncodeRows(cut[p], detail);
    }
    store := Store(|rows|, size, PageCount(|rows|, size), pages);
  }

  method WriteNamePostings(rows: seq<ExportRow>, f: Filter, size: nat) returns (postings: Postings)
    requires size > 0
    ensures postings == Postings(|Ordinals(rows, f, 0)|, size, PageCount(|Ordinals(rows, f, 0)|, size),
      PagesOf(Ordinals(rows, f, 0), size))
  {
    var ordinals := Ordinals(rows, f, 0);
    var pages := WritePages(ordinals, size);
    postings := Postings(|ordinals|, size, PageCount(|ordinals|, size), pages);
  }

  // ------------------------------------------------------------------- reader

  datatype Place = Place(page: nat, offset: nat)

  function PlaceOf(store: Store, ordinal: nat): Place {
    var size := if store.pageSize == 0 then 1000 else store.pageSize;
    Place(ordinal / size + 1, ordinal % size)
  }

  function Places(store: Store, ordinals: seq<nat>): seq<Place> {
    seq(|ordinals|, i requires 0 <= i < |ordinals| => PlaceOf(store, ordinals[i]))
  }

  // The row at a place; a short page has none.
  function At(store: Store, place: Place): Option<Record> {
    if place.page in store.pages && place.offset < |RowsFromPage(store.pages[place.page])|
    then Some(RowsFromPage(store.pages[place.page])[place.offset]) else None
  }

  // resolved.filter(Boolean)
  function Present<T>(xs: seq<Option<T>>): seq<T> {
    if xs == [] then []
    else Present(xs[..|xs| - 1]) + (if xs[|xs| - 1].Some? then [xs[|xs| - 1].value] else [])
  }

  datatype Item = Item(index: nat, offset: nat)

  // The index lists of loadRowsByOrdinals after the first `n` ordinals.
  ghost predicate Grouped(byPage: map<nat, seq<Item>>, places: seq<Place>, n: nat)
    requires n <= |places|
  {
    && (forall p, k :: p in byPage && 0 <= k < |byPage[p]| ==> ItemOk(byPage[p][k], p, places, n))
    && (forall i :: 0 <= i < n ==> HasIndex(byPage, places[i].page, i))
  }

  predicate ItemOk(item: Item, page: nat, places: seq<Place>, n: nat)
    requires n <= |places|
  {
    item.index < n && places[item.index] == Place(page, item.offset)
  }

  ghost predicate HasIndex(byPage: map<nat, seq<Item>>, page: nat, index: nat) {
    page in byPage && exists k :: 0 <= k < |byPage[page]| && byPage[page][k].index == index
  }

  method GroupByPage(store: Store, ordinals: seq<nat>) returns (byPage: map<nat, seq<Item>>)
    ensures Grouped(byPage, Places(store, ordinals), |ordinals|)
  {
    byPage := map[];
    ghost var places := Places(store, ordinals);
    for i := 0 to |ordinals|
      invariant Grouped(byPage, places, i)
    {
      var place := PlaceOf(store, ordinals[i]);
      var items := if place.page in byPage then byPage[place.page] else [];
      GroupOneMore(byPage, places, i, place, items);
      byPage := byPage[place.page := items + [Item(i, place.offset)]];
    }
  }

  lemma {:induction false} GroupOneMore(byPage: map<nat, seq<Item>>, places: seq<Place>, i: nat, place: Place,
        items: seq<Item>)
    requires i < |places| && place == places[i] && Grouped(byPage, places, i)
    requires items == if place.page in byPage then byPage[place.page] else []
    ensures Grouped(byPage[place.page := items + [Item(i, place.offset)]], places, i + 1)
  {
    var next := byPage[place.page := items + [Item(i, place.offset)]];
    forall j | 0 <= j < i + 1 ensures HasIndex(next, places[j].page, j) {
      var p := places[j].page;
      if j == i { assert next[p][|items|].index == i; }
      else {
        assert HasIndex(byPage, p, j);
        var k :| 0 <= k < |byPage[p]| && byPage[p][k].index == j;
        assert next[p][k] == byPage[p][k];
      }
    }
    forall p, k | p in next && 0 <= k < |next[p]| ensures ItemOk(next[p][k], p, places, i + 1) {
      if p in byPage && k < |byPage[p]| { assert ItemOk(byPage[p][k], p, places, i); }
    }
  }

  // What loadRowsByOrdinals returns if every page it asks for loads: the rows
  // of the ordinals, in their order. A page that does not load fails the call.
  function Loaded(store: Store, ordinals: seq<nat>): Option<seq<Record>> {
    var places := Places(store, ordinals);
    if forall i :: 0 <= i < |places| ==> places[i].page in store.pages
    then Some(Present(seq(|places|, i requires 0 <= i < |places| => At(store, places[i])))) else None
  }

  method LoadRowsByOrdinals(store: Store, ordinals: seq<nat>) returns (rows: Option<seq<Record>>)
    ensures rows == Loaded(store, ordinals)
  {
    if ordinals == [] { return Some([]); }
    ghost var places := Places(store, ordinals);
    var byPage: map<nat, seq<Item>> := GroupByPage(store, ordinals);
    if exists p :: p in byPage && p !in store.pages && byPage[p] != [] {
      ghost var p: nat :| p in byPage && p !in store.pages && byPage[p] != [];
      assert ItemOk(byPage[p][0], p, places, |places|);
      return None;
    }
    forall i | 0 <= i < |places| ensures places[i].page in store.pages { assert HasIndex(byPage, places[i].page, i); }
    var resolved := new Option<Record>[|ordinals|](i => None);
    FillResolved(store, places, byPage, resolved);
    assert resolved[..] == seq(|places|, i requires 0 <= i < |places| => At(store, places[i]));
    rows := Some(Present(resolved[..]));
  }

  // The pages resolve in any order; each fills in the places of its items.
  method FillResolved(store: Store, ghost places: seq<Place>, byPage: map<nat, seq<Item>>,
        resolved: array<Option<Record>>)
    requires resolved.Length == |places| && Grouped(byPage, places, |places|)
    requires forall i :: 0 <= i < |places| ==> resolved[i] == None
    modifies resolved
    ensures forall i :: 0 <= i < |places| ==> resolved[i] == At(store, places[i])
  {
    var rest := byPage.Keys;
    while rest != {}
      invariant rest <= byPage.Keys && Filled(store, places, resolved[..], rest)
      decreases rest
    {
      var page :| page in rest;
      if page in store.pages { FillPage(store, places, byPage, page, resolved, rest); }
      rest := rest - {page};
    }
    forall i | 0 <= i < |places| ensures places[i].page !in rest {}
  }

  // The places of the pages still waited for are empty, the others filled.
  ghost predicate Filled(store: Store, places: seq<Place>, resolved: seq<Option<Record>>, rest: set<nat>) {
    |resolved| == |places|
    && forall i :: 0 <= i < |places| ==> resolved[i] == if places[i].page in rest then None else At(store, places[i])
  }

  method FillPage(store: Store, ghost places: seq<Place>, byPage: map<nat, seq<Item>>, page: nat,
        resolved: array<Option<Record>>,
        ghost rest: set<nat>)
    requires resolved.Length == |places| && Grouped(byPage, places, |places|) && page in byPage && page in rest
    requires page in store.pages
    requires Filled(store, places, resolved[..], rest)
    modifies resolved
    ensures Filled(store, places, resolved[..], rest - {page})
  {
    var rows, items := RowsFromPage(store.pages[page]), byPage[page];
    for k := 0 to |items|
      invariant forall i :: 0 <= i < |places| && places[i].page != page ==> resolved[i] == old(resolved[i])
      invariant forall j :: 0 <= j < k ==>
        items[j].index < |places| && resolved[items[j].index] == At(store, Place(page, items[j].offset))
      invariant forall i :: 0 <= i < |places| && places[i].page == page ==>
        resolved[i] == None || resolved[i] == At(store, places[i])
    {
      assert ItemOk(items[k], page, places, |places|);
      if items[k].offset < |rows| { resolved[items[k].index] := Some(rows[items[k].offset]); }
    }
    forall i | 0 <= i < |places| && places[i].page == page ensures resolved[i] == At(store, places[i]) {
      assert HasIndex(byPage, page, i);
      var k :| 0 <= k < |items| && items[k].index == i;
      assert ItemOk(items[k], page, places, |places|);
    }
  }

  // --------------------------------------------------------------- round trip

  // The reference: the shown records of the matching rows, in row order.
  function Filtered(rows: seq<ExportRow>, f: Filter, detail: Detail, from: nat): seq<Record>
    decreases |rows| - from
  {
    if from >= |rows| then []
    else
      (if Matches(f, rows[from]) then [Shown(rows[from].record, detail)] else [])
      + Filtered(rows, f, detail, from + 1)
  }

  lemma {:induction false} OrdinalsSelect(rows: seq<ExportRow>, f: Filter, detail: Detail, from: nat)
    ensures |Ordinals(rows, f, from)| == |Filtered(rows, f, detail, from)|
    ensures forall k :: 0 <= k < |Ordinals(rows, f, from)| ==>
      from <= Ordinals(rows, f, from)[k] < |rows|
      && Filtered(rows, f, detail, from)[k] == Shown(rows[Ordinals(rows, f, from)[k]].record, detail)
    decreases |rows| - from
  {
    if from < |rows| { OrdinalsSelect(rows, f, detail, from + 1); }
  }

  ghost predicate StoreHolds(store: Store, rows: seq<ExportRow>, detail: Detail, size: nat) {
    && size > 0 && store.pageSize == size
    && forall p :: 1 <= p <= PageCount(|rows|, size) ==>
      p in store.pages && store.pages[p] == EncodeRows(Slice(rows, size, p), detail)
  }

  lemma {:induction false} OrdinalResolves(store: Store, rows: seq<ExportRow>, detail: Detail, size: nat, ordinal: nat)
    requires StoreHolds(store, rows, detail, size) && ordinal < |rows|
    ensures PlaceOf(store, ordinal).page in store.pages
    ensures At(store, PlaceOf(store, ordinal)) == Some(Shown(rows[ordinal].record, detail))
  {
    OrdinalFound(rows, size, ordinal);
    PageDecodes(Slice(rows, size, OrdinalPage(ordinal, size)), detail);
  }

  lemma {:induction false} AllPresent<T>(xs: seq<Option<T>>, ys: seq<T>)
    requires |xs| == |ys| && forall i :: 0 <= i < |xs| ==> xs[i] == Some(ys[i])
    ensures Present(xs) == ys
  {
    if xs != [] {
      AllPresent(xs[..|xs| - 1], ys[..|ys| - 1]);
      assert ys == ys[..|ys| - 1] + [ys[|ys| - 1]];
    }
  }

  // Every posting page of every filter reads back as the same page of the
  // matching rows, whatever the two page sizes.
  lemma {:induction false} PostingPageReadsBack(store: Store, rows: seq<ExportRow>, detail: Detail, f: Filter,
        size: nat, postingSize: nat, page: nat)
    requires StoreHolds(store, rows, detail, size) && postingSize > 0
    ensures Loaded(store, Slice(Ordinals(rows, f, 0), postingSize, page))
         == Some(Slice(Filtered(rows, f, detail, 0), postingSize, page))
  {
    var part, want := Slice(Ordinals(rows, f, 0), postingSize, page),
      Slice(Filtered(rows, f, detail, 0), postingSize, page);
    OrdinalsSelect(rows, f, detail, 0);
    SlicesAlike(Ordinals(rows, f, 0), Filtered(rows, f, detail, 0), postingSize, page);
    forall i | 0 <= i < |part| ensures part[i] < |rows| && want[i] == Shown(rows[part[i]].record, detail) {
      var o := SlicesPair(Ordinals(rows, f, 0), Filtered(rows, f, detail, 0), postingSize, page, i);
    }
    OrdinalsResolve(store, rows, detail, size, part, want);
  }

  lemma {:induction false} OrdinalsResolve(store: Store, rows: seq<ExportRow>, detail: Detail, size: nat,
        ordinals: seq<nat>, want: seq<Record>)
    requires StoreHolds(store, rows, detail, size) && |ordinals| == |want|
    requires forall i :: 0 <= i < |ordinals| ==>
      ordinals[i] < |rows| && want[i] == Shown(rows[ordinals[i]].record, detail)
    ensures Loaded(store, ordinals) == Some(want)
  {
    var places := Places(store, ordinals);
    forall i | 0 <= i < |places| ensures places[i].page in store.pages && At(store, places[i]) == Some(want[i]) {
      OrdinalResolves(store, rows, detail, size, ordinals[i]);
    }
    AllPresent(seq(|places|, i requires 0 <= i < |places| => At(store, places[i])), want);
  }

  // The pages of a filter, one after the other, as the reader sees them.
  function ReadAll(store: Store, postings: Postings, count: nat): Option<seq<Record>>
    requires forall p :: 1 <= p <= count ==> p in postings.pages
  {
    if count == 0 then Some([])
    else
      var before, last := ReadAll(store, postings, count - 1), Loaded(store, postings.pages[count]);
      if before.Some? && last.Some? then Some(before.value + last.value) else None
  }

  lemma {:induction false} ReadAllJoins(store: Store, rows: seq<ExportRow>, detail: Detail, f: Filter, size: nat,
        postings: Postings, count: nat)
    requires StoreHolds(store, rows, detail, size) && postings.pageSize > 0
    requires postings.pages == PagesOf(Ordinals(rows, f, 0), postings.pageSize)
    requires count <= PageCount(|Ordinals(rows, f, 0)|, postings.pageSize)
    ensures ReadAll(store, postings, count) == Some(Joined(Filtered(rows, f, detail, 0), postings.pageSize, count))
  {
    if count > 0 {
      ReadAllJoins(store, rows, detail, f, size, postings, count - 1);
      PostingPageReadsBack(store, rows, detail, f, size, postings.pageSize, count);
      assert postings.pages[count] == Slice(Ordinals(rows, f, 0), postings.pageSize, count);
    }
  }

  // All posting pages read through the paged row store are exactly the rows
  // the filter selects, in order, once each.
  lemma {:induction false} PostingsReadBack(store: Store, rows: seq<ExportRow>, detail: Detail, f: Filter, size: nat,
        postings: Postings)
    requires StoreHolds(store, rows, detail, size) && postings.pageSize > 0
    requires postings.pages == PagesOf(Ordinals(rows, f, 0), postings.pageSize)
    requires postings.pageCount == PageCount(|Ordinals(rows, f, 0)|, postings.pageSize)
    ensures ReadAll(store, postings, postings.pageCount) == Some(Filtered(rows, f, detail, 0))
  {
    OrdinalsSelect(rows, f, detail, 0);
    ReadAllJoins(store, rows, detail, f, size, postings, postings.pageCount);
    JoinedIsAll(Filtered(rows, f, detail, 0), postings.pageSize);
  }

  // Writer and reader together.
  method ExportAndRead(rows: seq<ExportRow>, detail: Detail, f: Filter, size: nat,
        page: nat) returns (shown: Option<seq<Record>>)
    requires size > 0 && 1 <= page <= PageCount(|Ordinals(rows, f, 0)|, size)
    ensures shown == Some(Slice(Filtered(rows, f, detail, 0), size, page))
  {
    var store := WriteNameRowStore(rows, detail, size);
    var postings := WriteNamePostings(rows, f, size);
    shown := LoadRowsByOrdinals(store, postings.pages[page]);
    PostingPageReadsBack(store, rows, detail, f, size, size, page);
  }
}
