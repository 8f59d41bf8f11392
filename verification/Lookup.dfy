// Exact-name lookup in the exported row store: a binary search over pages.
module Lookup {
  import opened Text
  import opened Pages
  import opened RowStore

  // String(row.name || "")
  function NameOf(r: Record): string {
    if "name" in r && r["name"].Value? then r["name"].text else ""
  }

  ghost predicate SortedRows(rows: seq<ExportRow>) {
    forall i, j {:trigger Less(rows[i].name, rows[j].name)} :: 0 <= i < j < |rows| ==> Less(rows[i].name, rows[j].name)
  }

  // A store as the exporter leaves it: rows in name order, each shown with its name.
  ghost predicate Exported(store: Store, rows: seq<ExportRow>, detail: Detail, size: nat) {
    && StoreHolds(store, rows, detail, size) && store.pageCount == PageCount(|rows|, size)
    && SortedRows(rows)
    && forall r :: r in rows ==> NameOf(Shown(r.record, detail)) == r.name
  }

  // What a loaded page shows.
  lemma {:induction false} PageShows(store: Store, rows: seq<ExportRow>, detail: Detail, size: nat, page: nat)
    requires Exported(store, rows, detail, size) && 1 <= page <= store.pageCount
    ensures page in store.pages
    ensures var part := Slice(rows, size, page);
      part != [] && RowsFromPage(store.pages[page])
        == seq(|part|, i requires 0 <= i < |part| => Shown(part[i].record, detail))
  {
    PageCountBounds(|rows|, size, page);
    PageDecodes(Slice(rows, size, page), detail);
  }

  // Where a row lies relative to a page, by name alone.
  lemma {:induction false} RowBesidePage(rows: seq<ExportRow>, size: nat, page: nat, o: nat)
    requires SortedRows(rows) && size > 0 && o < |rows| && Slice(rows, size, page) != []
    ensures var part := Slice(rows, size, page);
      && (Less(rows[o].name, part[0].name) ==> OrdinalPage(o, size) < page)
      && (Less(part[|part| - 1].name, rows[o].name) ==> OrdinalPage(o, size) > page)
      && (OrdinalPage(o, size) == page ==> rows[o] in part)
  {
    var part := Slice(rows, size, page);
    OrdinalFound(rows, size, o);
    PlaceIsOrdinal(rows, size, page, 0);
    PlaceIsOrdinal(rows, size, page, |part| - 1);
    var first, last := Start(page, size), Start(page, size) + |part| - 1;
    if Less(rows[o].name, part[0].name) {
      NotAfter(rows, o, first);
      QuotientBelow(o, first, size);
      if OrdinalPage(o, size) == page { SamePageBelow(rows, size, page, o); }
    }
    if Less(part[|part| - 1].name, rows[o].name) {
      NotAfter(rows, last, o);
      QuotientBelow(last, o, size);
      if OrdinalPage(o, size) == page { SamePageBelow(rows, size, page, o); }
    }
  }

  lemma {:induction false} NotAfter(rows: seq<ExportRow>, i: nat, j: nat)
    requires SortedRows(rows) && i < |rows| && j < |rows| && Less(rows[i].name, rows[j].name)
    ensures i < j
  {
    LessIrreflexive(rows[i].name);
    if j < i { LessTransitive(rows[i].name, rows[j].name, rows[i].name); }
  }

  // A row on the page is neither before its first nor behind its last.
  lemma {:induction false} SamePageBelow(rows: seq<ExportRow>, size: nat, page: nat, o: nat)
    requires SortedRows(rows) && size > 0 && o < |rows| && OrdinalPage(o, size) == page && Slice(rows, size, page) != []
    ensures var part := Slice(rows, size, page);
      !Less(rows[o].name, part[0].name) && !Less(part[|part| - 1].name, rows[o].name)
  {
    var part := Slice(rows, size, page);
    OrdinalFound(rows, size, o);
    var i := o % size;
    SlicesSorted(rows, size, page, 0, i);
    SlicesSorted(rows, size, page, i, |part| - 1);
  }

  lemma {:induction false} SlicesSorted(rows: seq<ExportRow>, size: nat, page: nat, i: nat, j: nat)
    requires SortedRows(rows) && size > 0 && i <= j < |Slice(rows, size, page)|
    ensures !Less(Slice(rows, size, page)[j].name, Slice(rows, size, page)[i].name)
  {
    PlaceIsOrdinal(rows, size, page, i);
    PlaceIsOrdinal(rows, size, page, j);
    var a, b := Start(page, size) + i, Start(page, size) + j;
    if Less(rows[b].name, rows[a].name) { NotAfter(rows, b, a); }
  }

  // `null`, a failed page load, or an answer.
  datatype Answer = NoCollection | LoadFailed | Answer(found: bool, row: Option<Record>)

  // The pages a row of the wanted name can be on.
  ghost predicate Between(rows: seq<ExportRow>, size: nat, name: string, low: nat, high: int)
    requires size > 0
  {
    forall o: nat :: o < |rows| && rows[o].name == name ==> low <= OrdinalPage(o, size) <= high
  }

  lemma {:induction false} Narrow(rows: seq<ExportRow>, size: nat, name: string, low: nat, high: int, page: nat)
    requires SortedRows(rows) && size > 0 && Slice(rows, size, page) != [] && Between(rows, size, name, low, high)
    ensures var part := Slice(rows, size, page);
      && (Less(name, part[0].name) ==> Between(rows, size, name, low, page - 1))
      && (Less(part[|part| - 1].name, name) ==> Between(rows, size, name, page + 1, high))
  {
    var part := Slice(rows, size, page);
    forall o: nat | o < |rows| && rows[o].name == name
      ensures Less(name, part[0].name) ==> OrdinalPage(o, size) <= page - 1
      ensures Less(part[|part| - 1].name, name) ==> OrdinalPage(o, size) >= page + 1
    {
      RowBesidePage(rows, size, page, o);
    }
  }

  lemma {:induction false} RowsInOrder(rows: seq<ExportRow>, i: nat, j: nat)
    requires SortedRows(rows) && i < |rows| && j < |rows|
    ensures i < j ==> Less(rows[i].name, rows[j].name)
    ensures j < i ==> Less(rows[j].name, rows[i].name)
    ensures rows[i].name == rows[j].name ==> i == j
  {
    LessIrreflexive(rows[i].name);
  }

  // A row not on the page is before its first row or behind its last.
  lemma {:induction false} PageDecides(rows: seq<ExportRow>, size: nat, page: nat, r: ExportRow)
    requires SortedRows(rows) && size > 0 && Slice(rows, size, page) != [] && r in rows
    ensures var part := Slice(rows, size, page);
      r in part || Less(r.name, part[0].name) || Less(part[|part| - 1].name, r.name)
  {}

  // rows.find((item) => item.name === name)
  method Find(rows: seq<Record>, name: string) returns (row: Option<Record>)
    ensures row.Some? ==> row.value in rows && NameOf(row.value) == name
    ensures row.None? ==> forall r :: r in rows ==> NameOf(r) != name
  {
    for i := 0 to |rows|
      invariant forall k :: 0 <= k < i ==> NameOf(rows[k]) != name
    {
      if NameOf(rows[i]) == name { return Some(rows[i]); }
    }
    row := None;
  }

  // What the search promises: the row of that name, if there is one.
  ghost predicate RightAnswer(rows: seq<ExportRow>, detail: Detail, name: string, a: Answer) {
    && a.Answer? && (a.found <==> a.row.Some?)
    && (a.found <==> exists r :: r in rows && r.name == name)
    && (forall r :: r in rows && r.name == name ==> a.row == Some(Shown(r.record, detail)))
  }

  lemma {:induction false} ShownName(rows: seq<ExportRow>, detail: Detail, shown: seq<Record>, part: seq<ExportRow>,
        i: nat)
    requires forall r :: r in rows ==> NameOf(Shown(r.record, detail)) == r.name
    requires i < |part| == |shown| && part[i] in rows && shown[i] == Shown(part[i].record, detail)
    ensures NameOf(shown[i]) == part[i].name
  {}

  // A page that was searched in vain has no row of the name.
  lemma {:induction false} NotOnPage(store: Store, rows: seq<ExportRow>, detail: Detail, size: nat, page: nat,
        name: string)
    requires Exported(store, rows, detail, size) && 1 <= page <= store.pageCount && page in store.pages
    requires forall r :: r in RowsFromPage(store.pages[page]) ==> NameOf(r) != name
    ensures forall r :: r in Slice(rows, size, page) ==> r.name != name
  {
    var part, shown := Slice(rows, size, page), RowsFromPage(store.pages[page]);
    PageShows(store, rows, detail, size, page);
    forall i | 0 <= i < |part| ensures part[i].name != name {
      PlaceIsOrdinal(rows, size, page, i);
      ShownName(rows, detail, shown, part, i);
      assert shown[i] in shown;
    }
  }

  // The row found on a page is the one row of its name.
  lemma {:induction false} FoundRow(store: Store, rows: seq<ExportRow>, detail: Detail, size: nat, page: nat,
        name: string, row: Record)
    requires Exported(store, rows, detail, size) && 1 <= page <= store.pageCount && page in store.pages
    requires row in RowsFromPage(store.pages[page]) && NameOf(row) == name
    ensures RightAnswer(rows, detail, name, Answer(true, Some(row)))
  {
    var part, shown := Slice(rows, size, page), RowsFromPage(store.pages[page]);
    PageShows(store, rows, detail, size, page);
    var i :| 0 <= i < |shown| && shown[i] == row;
    PlaceIsOrdinal(rows, size, page, i);
    var o := Start(page, size) + i;
    ShownName(rows, detail, shown, part, i);
    assert rows[o] in rows && rows[o].name == name;
    forall r | r in rows && r.name == name ensures r == rows[o] {
      var a :| 0 <= a < |rows| && rows[a] == r;
      RowsInOrder(rows, a, o);
    }
  }

  // The bounds of a loaded page, as the loop reads them.
  ghost predicate Outside(shown: seq<Record>, name: string)
    requires shown != []
  {
    Less(name, NameOf(shown[0])) || Less(NameOf(shown[|shown| - 1]), name)
  }

  lemma {:induction false} FoundOnPage(store: Store, rows: seq<ExportRow>, detail: Detail, size: nat, page: nat,
        name: string, row: Option<Record>)
    requires Exported(store, rows, detail, size) && 1 <= page <= store.pageCount && page in store.pages
    requires RowsFromPage(store.pages[page]) != [] && !Outside(RowsFromPage(store.pages[page]), name)
    requires row.Some? ==> row.value in RowsFromPage(store.pages[page]) && NameOf(row.value) == name
    requires row.None? ==> forall r :: r in RowsFromPage(store.pages[page]) ==> NameOf(r) != name
    ensures RightAnswer(rows, detail, name, Answer(row.Some?, row))
  {
    if row.Some? {
      FoundRow(store, rows, detail, size, page, name, row.value);
    } else {
      NotOnPage(store, rows, detail, size, page, name);
      FirstAndLast(store, rows, detail, size, page);
      forall r | r in rows ensures r.name != name { PageDecides(rows, size, page, r); }
    }
  }

  // A loaded page is not empty and halves the pages the name can be on.
  lemma {:induction false} LookAt(store: Store, rows: seq<ExportRow>, detail: Detail, size: nat, page: nat,
        name: string, low: nat, high: int)
    requires Exported(store, rows, detail, size) && 1 <= page <= store.pageCount && Between(rows, size, name, low, high)
    ensures page in store.pages && RowsFromPage(store.pages[page]) != []
    ensures var shown := RowsFromPage(store.pages[page]);
      && (Less(name, NameOf(shown[0])) ==> Between(rows, size, name, low, page - 1))
      && (Less(NameOf(shown[|shown| - 1]), name) ==> Between(rows, size, name, page + 1, high))
  {
    PageShows(store, rows, detail, size, page);
    FirstAndLast(store, rows, detail, size, page);
    Narrow(rows, size, name, low, high, page);
  }

  lemma {:induction false} NowhereLeft(rows: seq<ExportRow>, size: nat, name: string, low: nat, high: int)
    requires size > 0 && Between(rows, size, name, low, high) && low > high
    ensures forall r :: r in rows ==> r.name != name
  {}

  method LookupExactNameFromStatic(store: Store, name: string, ghost rows: seq<ExportRow>, ghost detail: Detail,
        ghost size: nat)
      returns (a: Answer)
    requires Exported(store, rows, detail, size)
    ensures if rows == [] then a == NoCollection else RightAnswer(rows, detail, name, a)
  {
    PageCountBounds(|rows|, size, 1);
    if store.pageCount == 0 { return NoCollection; }
    var low, high := 1, store.pageCount;
    InitiallyAnywhere(rows, size, name);
    while low <= high
      invariant 1 <= low && high <= store.pageCount && Between(rows, size, name, low, high)
      decreases high - low + 1
    {
      var page := (low + high) / 2;
      LookAt(store, rows, detail, size, page, name, low, high);
      if page !in store.pages { return LoadFailed; }
      var shown := RowsFromPage(store.pages[page]);
      if shown == [] { break; }
      var first, last := NameOf(shown[0]), NameOf(shown[|shown| - 1]);
      if Less(name, first) {
        high := page - 1;
      } else if Less(last, name) {
        low := page + 1;
      } else {
        var row := Find(shown, name);
        FoundOnPage(store, rows, detail, size, page, name, row);
        return Answer(row.Some?, row);
      }
    }
    NowhereLeft(rows, size, name, low, high);
    a := Answer(false, None);
  }

  lemma {:induction false} InitiallyAnywhere(rows: seq<ExportRow>, size: nat, name: string)
    requires size > 0
    ensures Between(rows, size, name, 1, PageCount(|rows|, size))
  {
    forall o: nat | o < |rows|
      ensures 1 <= OrdinalPage(o, size) <= PageCount(|rows|, size)
    {
      OrdinalFound(rows, size, o);
    }
  }

  lemma {:induction false} FirstAndLast(store: Store, rows: seq<ExportRow>, detail: Detail, size: nat, page: nat)
    requires Exported(store, rows, detail, size) && 1 <= page <= store.pageCount && page in store.pages
    ensures var part, shown := Slice(rows, size, page), RowsFromPage(store.pages[page]);
      part != [] && |shown| == |part| && NameOf(shown[0]) == part[0].name
        && NameOf(shown[|shown| - 1]) == part[|part| - 1].name
  {
    var part, shown := Slice(rows, size, page), RowsFromPage(store.pages[page]);
    PageShows(store, rows, detail, size, page);
    PlaceIsOrdinal(rows, size, page, 0);
    PlaceIsOrdinal(rows, size, page, |part| - 1);
    ShownName(rows, detail, shown, part, 0);
    ShownName(rows, detail, shown, part, |part| - 1);
  }
}
