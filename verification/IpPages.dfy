// Pages of the names behind one address: field bit masks, their default and
// the two page encodings, with the reader's decoding.
module IpPages {
  import opened Text
  import opened Tables
  import opened Pages

  // ------------------------------------------------------------------- masks

  function Bit(f: Field): bv8 {
    match f
    case GLUE4 => 1
    case GLUE6 => 2
    case SYNTH4 => 4
    case SYNTH6 => 8
  }

  predicate HasBit(mask: bv8, f: Field) { mask & Bit(f) == Bit(f) }

  // _ip_field_mask over the fields group_concat joins.
  method IpFieldMask(fields: seq<Field>) returns (mask: bv8)
    ensures mask == Mask(fields)
  {
    mask := 0;
    for i := 0 to |fields|
      invariant mask == Mask(fields[..i])
    {
      assert fields[..i + 1][..i] == fields[..i];
      mask := mask | Bit(fields[i]);
    }
    assert fields[..|fields|] == fields;
  }

  function Mask(fields: seq<Field>): bv8 {
    if fields == [] then 0 else Mask(fields[..|fields| - 1]) | Bit(fields[|fields| - 1])
  }

  lemma {:induction false} OrBit(mask: bv8, f: Field, g: Field)
    ensures HasBit(mask | Bit(f), g) <==> HasBit(mask, g) || f == g
  {}

  lemma {:induction false} MaskHas(fields: seq<Field>, g: Field)
    ensures HasBit(Mask(fields), g) <==> g in fields
  {
    if fields != [] {
      var before, last := fields[..|fields| - 1], fields[|fields| - 1];
      MaskHas(before, g);
      OrBit(Mask(before), last, g);
      assert fields == before + [last];
    } else {
      assert Bit(g) & 0 != Bit(g);
    }
  }

  // ipFieldsFromMask: the map's entries in the order of their bits.
  const FIELD_MAP: seq<Field> := [GLUE4, GLUE6, SYNTH4, SYNTH6]

  function FieldsFromMask(mask: bv8, entries: seq<Field>): seq<Field> {
    if entries == [] then []
    else (if HasBit(mask, entries[0]) then [entries[0]] else []) + FieldsFromMask(mask, entries[1..])
  }

  // The fields of a row in the fixed order, once each.
  function Canonical(fields: seq<Field>, entries: seq<Field>): seq<Field> {
    if entries == [] then []
    else (if entries[0] in fields then [entries[0]] else []) + Canonical(fields, entries[1..])
  }

  lemma {:induction false} MaskRoundTrip(fields: seq<Field>, entries: seq<Field>)
    ensures FieldsFromMask(Mask(fields), entries) == Canonical(fields, entries)
  {
    if entries != [] {
      MaskHas(fields, entries[0]);
      MaskRoundTrip(fields, entries[1..]);
    }
  }

  // Masks lose the order and the repetition of the fields and nothing else.
  lemma {:induction false} SameMaskSameFields(a: seq<Field>, b: seq<Field>)
    ensures Mask(a) == Mask(b) <==> forall f :: f in a <==> f in b
  {
    forall f: Field ensures (HasBit(Mask(a), f) <==> f in a) && (HasBit(Mask(b), f) <==> f in b) {
      MaskHas(a, f);
      MaskHas(b, f);
    }
    if forall f :: f in a <==> f in b {
      MaskBounded(a);
      MaskBounded(b);
      SameBits(Mask(a), Mask(b));
    }
  }

  lemma {:induction false} MaskBounded(fields: seq<Field>)
    ensures Mask(fields) < 16
  {
    if fields != [] { MaskBounded(fields[..|fields| - 1]); }
  }

  lemma {:induction false} SameBits(a: bv8, b: bv8)
    requires a < 16 && b < 16 && forall f :: HasBit(a, f) <==> HasBit(b, f)
    ensures a == b
  {
    assert HasBit(a, GLUE4) <==> HasBit(b, GLUE4);
    assert HasBit(a, GLUE6) <==> HasBit(b, GLUE6);
    assert HasBit(a, SYNTH4) <==> HasBit(b, SYNTH4);
    assert HasBit(a, SYNTH6) <==> HasBit(b, SYNTH6);
  }

  // The mask as a number: one, two, four and eight for the fields it holds.
  lemma {:induction false} MaskIsSum(fields: seq<Field>)
    ensures Mask(fields) as int == (if GLUE4 in fields then 1 else 0) + (if GLUE6 in fields then 2 else 0)
                                   + (if SYNTH4 in fields then 4 else 0) + (if SYNTH6 in fields then 8 else 0)
  {
    if fields != [] {
      var before, last := fields[..|fields| - 1], fields[|fields| - 1];
      assert fields == before + [last];
      MaskIsSum(before);
      MaskBounded(before);
      OneMoreBit(Mask(before), last);
      MaskHas(before, last);
    }
  }

  lemma {:induction false} OneMoreBit(mask: bv8, f: Field)
    requires mask < 16
    ensures (mask | Bit(f)) == if HasBit(mask, f) then mask else mask + Bit(f)
    ensures !HasBit(mask, f) ==> mask as int + Bit(f) as int < 256
  {}

  // ------------------------------------------------------------ default mask

  // A name with an address, and the fields that give it.
  datatype IpName = IpName(name: string, fields: seq<Field>)

  function CountOf(rows: seq<IpName>, f: Field): nat {
    if rows == [] then 0 else CountOf(rows[..|rows| - 1], f) + (if f in rows[|rows| - 1].fields then 1 else 0)
  }

  // GROUP BY field: only fields some row has.
  function FieldCounts(rows: seq<IpName>): map<Field, nat> {
    map f: Field | CountOf(rows, f) > 0 :: CountOf(rows, f)
  }

  // _default_ip_field_mask
  function DefaultMask(counts: map<Field, nat>, rowCount: nat): Option<bv8> {
    if rowCount == 0 || |counts| != 1 then None
    else
      var f := OnlyField(counts);
      if counts[f] != rowCount then None else Some(Bit(f))
  }

  // The field of a one-entry table.
  function OnlyField(counts: map<Field, nat>): (f: Field)
    requires |counts| == 1
    ensures f in counts
  {
    if GLUE4 in counts then GLUE4 else if GLUE6 in counts then GLUE6 else if SYNTH4 in counts then SYNTH4
    else
      assert SYNTH6 in counts by {
        AnyField(counts);
        var f: Field :| f in counts;
        assert f != GLUE4 && f != GLUE6 && f != SYNTH4;
      }
      SYNTH6
  }

  lemma {:induction false} AnyField(counts: map<Field, nat>)
    requires |counts| == 1
    ensures exists f :: f in counts
  {}

  lemma {:induction false} CountBounds(rows: seq<IpName>, f: Field)
    ensures CountOf(rows, f) <= |rows|
    ensures CountOf(rows, f) == |rows| <==> forall i :: 0 <= i < |rows| ==> f in rows[i].fields
    ensures CountOf(rows, f) == 0 <==> forall i :: 0 <= i < |rows| ==> f !in rows[i].fields
  {
    if rows != [] {
      var before, m := rows[..|rows| - 1], |rows| - 1;
      CountBounds(before, f);
      assert forall i :: 0 <= i < |rows| ==> rows[i] == if i < m then before[i] else rows[m];
    }
  }

  ghost predicate AllOnly(rows: seq<IpName>, f: Field) {
    forall r :: r in rows ==> forall g :: g in r.fields <==> g == f
  }

  // A default exists exactly if all rows have one and the same single field.
  lemma {:induction false} DefaultMaskIff(rows: seq<IpName>)
    ensures DefaultMask(FieldCounts(rows), |rows|).Some? <==> rows != [] && exists f :: AllOnly(rows, f)
    ensures forall f :: rows != [] && AllOnly(rows, f) ==> DefaultMask(FieldCounts(rows), |rows|) == Some(Bit(f))
  {
    var counts := FieldCounts(rows);
    forall f: Field
      ensures f in counts <==> exists r :: r in rows && f in r.fields
      ensures f in counts ==> (counts[f] == |rows| <==> forall r :: r in rows ==> f in r.fields)
    {
      CountBounds(rows, f);
    }
    if DefaultMask(counts, |rows|).Some? {
      var f := OnlyField(counts);
      forall r, g: Field | r in rows ensures g in r.fields <==> g == f {
        if g in r.fields { OnlyOne(counts, f, g); }
      }
      assert AllOnly(rows, f);
    }
    forall f: Field | rows != [] && AllOnly(rows, f) ensures DefaultMask(counts, |rows|) == Some(Bit(f)) {
      assert rows[0] in rows;
      assert counts.Keys == {f};
      assert |counts| == |counts.Keys|;
    }
  }

  lemma {:induction false} OnlyOne(counts: map<Field, nat>, f: Field, g: Field)
    requires |counts| == 1 && f in counts && g in counts
    ensures f == g
  {
    if f != g {
      assert {f, g} <= counts.Keys;
      SubsetSize({f, g}, counts.Keys);
    }
  }

  // -------------------------------------------------------------------- pages

  datatype MaskedName = MaskedName(name: string, mask: bv8)

  datatype IpPage = NamePage(mask: bv8, names: seq<string>) | MaskPage(rows: seq<MaskedName>)

  function Masked(rows: seq<IpName>): seq<MaskedName> {
    seq(|rows|, i requires 0 <= i < |rows| => MaskedName(rows[i].name, Mask(rows[i].fields)))
  }

  // _write_ip_address_page
  function EncodePage(rows: seq<MaskedName>, defaultMask: Option<bv8>): IpPage {
    if defaultMask.Some? && forall i :: 0 <= i < |rows| ==> rows[i].mask == defaultMask.value
    then NamePage(defaultMask.value, seq(|rows|, i requires 0 <= i < |rows| => rows[i].name))
    else MaskPage(rows)
  }

  datatype ShownName = ShownName(name: string, mask: bv8, fields: seq<Field>)

  // rowsFromPage for the two address encodings.
  function DecodePage(page: IpPage): seq<ShownName> {
    match page
    case NamePage(mask, names) =>
      seq(|names|, i requires 0 <= i < |names| => ShownName(names[i], mask, FieldsFromMask(mask, FIELD_MAP)))
    case MaskPage(rows) =>
      seq(|rows|, i requires 0 <= i < |rows| => ShownName(rows[i].name, rows[i].mask,
        FieldsFromMask(rows[i].mask, FIELD_MAP)))
  }

  function ShownRow(r: IpName): ShownName { ShownName(r.name, Mask(r.fields), Canonical(r.fields, FIELD_MAP)) }

  function ShownRows(rows: seq<IpName>): seq<ShownName> { seq(|rows|, i requires 0 <= i < |rows| => ShownRow(rows[i])) }

  // Whatever the default mask, a page decodes to its names and their fields.
  lemma {:induction false} IpPageRoundTrip(rows: seq<IpName>, defaultMask: Option<bv8>)
    ensures DecodePage(EncodePage(Masked(rows), defaultMask)) == ShownRows(rows)
  {
    var decoded := DecodePage(EncodePage(Masked(rows), defaultMask));
    forall i | 0 <= i < |rows| ensures decoded[i] == ShownRow(rows[i]) { MaskRoundTrip(rows[i].fields, FIELD_MAP); }
  }

  datatype IpExport = IpExport(rowCount: nat, pageSize: nat, pageCount: nat, pages: map<nat, IpPage>)

  // The loop of write_ip_address_names: rows are gathered and written out when
  // a page is full, the rest at the end.
  ghost predicate Gathering(rows: seq<IpName>, size: nat, done: nat, page: nat, current: seq<MaskedName>,
        pages: map<nat, IpPage>,
        defaultMask: Option<bv8>)
    requires size > 0
  {
    && done <= |rows| && page >= 1 && |current| < size && Start(page, size) + |current| == done
    && current == Masked(rows[Start(page, size)..done])
    && (forall p :: p in pages <==> 1 <= p < page)
    && (forall p :: p in pages ==> pages[p] == EncodePage(Masked(Slice(rows, size, p)), defaultMask))
  }

  // One more row stays gathered, or fills its page.
  lemma {:induction false} GatherOne(rows: seq<IpName>, size: nat, done: nat, page: nat, current: seq<MaskedName>,
        pages: map<nat, IpPage>,
        defaultMask: Option<bv8>, next: seq<MaskedName>)
    requires size > 0 && done < |rows| && Gathering(rows, size, done, page, current, pages, defaultMask)
    requires next == current + [MaskedName(rows[done].name, Mask(rows[done].fields))]
    ensures |next| < size ==> Gathering(rows, size, done + 1, page, next, pages, defaultMask)
    ensures |next| >= size ==>
      Gathering(rows, size, done + 1, page + 1, [], pages[page := EncodePage(next, defaultMask)], defaultMask)
  {
    var start := Start(page, size);
    assert next == Masked(rows[start..done + 1]);
    if |next| >= size {
      assert Start(page + 1, size) == done + 1;
      assert Slice(rows, size, page) == rows[start..done + 1];
      assert Masked(rows[done + 1..done + 1]) == [];
    }
  }

  lemma {:induction false} LastPage(rows: seq<IpName>, size: nat, page: nat)
    requires size > 0 && page >= 1 && Start(page, size) <= |rows| < Start(page, size) + size
    ensures Slice(rows, size, page) == rows[Start(page, size)..|rows|]
    ensures PageCount(|rows|, size) == if |rows| == Start(page, size) then page - 1 else page
  {
    PageCountBounds(|rows|, size, page);
    PageCountBounds(|rows|, size, page + 1);
    if page > 1 { PageCountBounds(|rows|, size, page - 1); }
  }

  function EncodedPages(rows: seq<IpName>, size: nat, defaultMask: Option<bv8>): map<nat, IpPage>
    requires size > 0
  {
    map p | 1 <= p <= PageCount(|rows|, size) :: EncodePage(Masked(Slice(rows, size, p)), defaultMask)
  }

  lemma {:induction false} LastPages(rows: seq<IpName>, size: nat, page: nat, current: seq<MaskedName>,
        pages: map<nat, IpPage>, defaultMask: Option<bv8>)
    requires size > 0 && Gathering(rows, size, |rows|, page, current, pages, defaultMask)
    ensures (if current != [] then pages[page := EncodePage(current, defaultMask)] else pages)
      == EncodedPages(rows, size, defaultMask)
  {
    LastPage(rows, size, page);
    var all := if current != [] then pages[page := EncodePage(current, defaultMask)] else pages;
    assert current != [] ==> current == Masked(Slice(rows, size, page));
    SamePages(all, EncodedPages(rows, size, defaultMask), PageCount(|rows|, size));
  }

  lemma {:induction false} SamePages(a: map<nat, IpPage>, b: map<nat, IpPage>, count: nat)
    requires forall p :: p in a <==> 1 <= p <= count
    requires forall p :: p in b <==> 1 <= p <= count
    requires forall p :: 1 <= p <= count ==> a[p] == b[p]
    ensures a == b
  {}

  method WriteIpAddressNames(rows: seq<IpName>, size: nat) returns (x: IpExport, defaultMask: Option<bv8>)
    requires size > 0
    ensures defaultMask == DefaultMask(FieldCounts(rows), |rows|)
    ensures x.rowCount == |rows| && x.pageSize == size && x.pageCount == PageCount(|rows|, size)
    ensures x.pages == EncodedPages(rows, size, defaultMask)
  {
    defaultMask := DefaultMask(FieldCounts(rows), |rows|);
    var current: seq<MaskedName> := [];
    var page := 1;
    var pages: map<nat, IpPage> := map[];
    for i := 0 to |rows|
      invariant Gathering(rows, size, i, page, current, pages, defaultMask)
    {
      var mask := IpFieldMask(rows[i].fields);
      GatherOne(rows, size, i, page, current, pages, defaultMask, current + [MaskedName(rows[i].name, mask)]);
      current := current + [MaskedName(rows[i].name, mask)];
      if |current| >= size {
        pages := pages[page := EncodePage(current, defaultMask)];
        current := [];
        page := page + 1;
      }
    }
    LastPages(rows, size, page, current, pages, defaultMask);
    if current != [] { pages := pages[page := EncodePage(current, defaultMask)]; }
    x := IpExport(|rows|, size, PageCount(|rows|, size), pages);
  }

  // What the reader shows of each page, and of the first pages together.
  function Decoded(pages: map<nat, IpPage>): map<nat, seq<ShownName>> { map p | p in pages :: DecodePage(pages[p]) }

  function ReadPages(decoded: map<nat, seq<ShownName>>, count: nat): seq<ShownName>
    requires forall p :: 1 <= p <= count ==> p in decoded
  {
    if count == 0 then [] else ReadPages(decoded, count - 1) + decoded[count]
  }

  lemma {:induction false} PageReads(rows: seq<IpName>, size: nat, x: IpExport, defaultMask: Option<bv8>, page: nat)
    requires size > 0 && 1 <= page <= PageCount(|rows|, size) && x.pages == EncodedPages(rows, size, defaultMask)
    ensures DecodePage(x.pages[page]) == Slice(ShownRows(rows), size, page)
  {
    IpPageRoundTrip(Slice(rows, size, page), defaultMask);
    ShownSlice(rows, size, page);
  }

  lemma {:induction false} PagesRead(decoded: map<nat, seq<ShownName>>, shown: seq<ShownName>, size: nat, count: nat)
    requires size > 0
    requires forall p :: 1 <= p <= count ==> p in decoded && decoded[p] == Slice(shown, size, p)
    ensures ReadPages(decoded, count) == Joined(shown, size, count)
  {
    if count > 0 { PagesRead(decoded, shown, size, count - 1); }
  }

  // All pages of an address read back as all its names, in order, each with its
  // fields.
  lemma {:induction false} IpExportReadsBack(rows: seq<IpName>, size: nat, x: IpExport, defaultMask: Option<bv8>)
    requires size > 0 && x.pages == EncodedPages(rows, size, defaultMask)
    ensures ReadPages(Decoded(x.pages), PageCount(|rows|, size)) == ShownRows(rows)
  {
    forall p | 1 <= p <= PageCount(|rows|, size) ensures Decoded(x.pages)[p] == Slice(ShownRows(rows), size, p) {
      PageReads(rows, size, x, defaultMask, p);
    }
    PagesRead(Decoded(x.pages), ShownRows(rows), size, PageCount(|rows|, size));
    JoinedIsAll(ShownRows(rows), size);
  }

  lemma {:induction false} ShownSlice(rows: seq<IpName>, size: nat, page: nat)
    requires size > 0
    ensures ShownRows(Slice(rows, size, page)) == Slice(ShownRows(rows), size, page)
  {}

  // With a default mask every page is written in the short form.
  lemma {:induction false} DefaultMeansShort(rows: seq<IpName>, size: nat, page: nat)
    requires size > 0 && DefaultMask(FieldCounts(rows), |rows|).Some?
    ensures EncodePage(Masked(Slice(rows, size, page)), DefaultMask(FieldCounts(rows), |rows|)).NamePage?
  {
    DefaultMaskIff(rows);
    var f :| AllOnly(rows, f);
    var part := Slice(rows, size, page);
    forall i | 0 <= i < |part| ensures Mask(part[i].fields) == Bit(f) {
      PlaceIsOrdinal(rows, size, page, i);
      assert part[i] in rows;
      SameMaskSameFields(part[i].fields, [f]);
      assert [f][..0] == [];
    }
  }
}
