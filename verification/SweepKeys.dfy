// The authority keys of a row, and which of them its page makes health keys.
module SweepKeys {
  import opened Text
  import opened Sweep
  import opened SweepSelect
  import opened SweepTier

  // ------------------------------------------------------- a row's authorities

  lemma {:induction false} PrefixedHas(prefix: string, values: seq<string>, key: string)
    ensures key in Prefixed(prefix, values) <==> exists v :: v in values && v != "" && key == prefix + v
  {
    if values != [] {
      PrefixedHas(prefix, values[1..], key);
      assert values == [values[0]] + values[1..];
    }
  }

  lemma {:induction false} PlainAllHas(values: seq<string>, plain: string)
    ensures plain in PlainAll(values) <==> exists v :: v in values && plain == PlainName(v)
  {
    if values != [] {
      PlainAllHas(values[1..], plain);
      assert values == [values[0]] + values[1..];
    }
  }

  predicate ByAddress(r: Root, key: string) { exists a :: a in r.bootstrap && a != "" && key == "ip:" + a }

  predicate ByName(r: Root, key: string) {
    exists n :: n in r.nsNames
      && TrimRight(Lower(Strip(n)), Dots) != "" && key == "ns:" + TrimRight(Lower(Strip(n)), Dots)
  }

  // The addresses of a row; if it has none its nameservers, trimmed and lowered;
  // if none of these has a name its provider.
  lemma {:induction false} AuthorityKeysAre(r: Root, key: string)
    ensures key in AuthorityKeys(r) <==>
      if exists k :: ByAddress(r, k) then ByAddress(r, key)
      else if exists k :: ByName(r, k) then ByName(r, key)
      else key == "provider:" + (if r.provider == "" then "unknown" else r.provider)
  {
    AddressKeys(r);
    NameKeys(r);
  }

  lemma {:induction false} AddressKeys(r: Root)
    ensures forall k :: k in Prefixed("ip:", r.bootstrap) <==> ByAddress(r, k)
    ensures Prefixed("ip:", r.bootstrap) == [] <==> forall k :: !ByAddress(r, k)
  {
    var keys := Prefixed("ip:", r.bootstrap);
    forall k ensures k in keys <==> ByAddress(r, k) { PrefixedHas("ip:", r.bootstrap, k); }
    if keys != [] { assert keys[0] in keys; }
  }

  lemma {:induction false} NameKeys(r: Root)
    ensures forall k :: k in Prefixed("ns:", PlainAll(r.nsNames)) <==> ByName(r, k)
    ensures Prefixed("ns:", PlainAll(r.nsNames)) == [] <==> forall k :: !ByName(r, k)
  {
    var keys := Prefixed("ns:", PlainAll(r.nsNames));
    forall k ensures k in keys <==> ByName(r, k) {
      PrefixedHas("ns:", PlainAll(r.nsNames), k);
      forall v { PlainAllHas(r.nsNames, v); }
    }
    if keys != [] { assert keys[0] in keys; }
  }

  // ----------------------------------------------------- what a page names twice

  // The keys of a page's rows, one row after another, without the rows that are
  // skipped for want of an address.
  function PageKeys(tier: Tier, page: seq<Root>): seq<string> {
    if page == [] then []
    else
      (if (tier.DsBootstrap? || tier.Bootstrap?) && |page[0].bootstrap| == 0 then [] else AuthorityKeys(page[0]))
      + PageKeys(tier, page[1..])
  }

  predicate Twice(keys: seq<string>, key: string) { exists i, j :: 0 <= i < j < |keys| && keys[i] == keys[j] == key }

  lemma {:induction false} OccurrencesJoin(a: seq<string>, b: seq<string>, key: string)
    ensures Occurrences(a + b, key) == Occurrences(a, key) + Occurrences(b, key)
  {
    if a == [] { assert a + b == b; }
    else {
      assert (a + b)[1..] == a[1..] + b;
      OccurrencesJoin(a[1..], b, key);
    }
  }

  lemma {:induction false} PageCountIs(tier: Tier, page: seq<Root>, key: string)
    ensures PageCount(tier, page, key) == Occurrences(PageKeys(tier, page), key)
  {
    if page != [] {
      PageCountIs(tier, page[1..], key);
      OccurrencesJoin(if Skipped(tier, page[0]) then [] else AuthorityKeys(page[0]), PageKeys(tier, page[1..]), key);
    }
  }

  lemma {:induction false} OccursIff(keys: seq<string>, key: string)
    ensures Occurrences(keys, key) > 0 <==> key in keys
    ensures Occurrences(keys, key) > 1 <==> Twice(keys, key)
  {
    if keys != [] {
      var rest := keys[1..];
      OccursIff(rest, key);
      assert keys == [keys[0]] + rest;
      if Twice(keys, key) {
        var i, j :| 0 <= i < j < |keys| && keys[i] == keys[j] == key;
        assert rest[j - 1] == key;
        if i > 0 { assert rest[i - 1] == rest[j - 1] == key; }
      }
      if Twice(rest, key) {
        var i, j :| 0 <= i < j < |rest| && rest[i] == rest[j] == key;
        assert keys[i + 1] == keys[j + 1] == key;
      }
      if keys[0] == key && key in rest {
        var j :| 0 <= j < |rest| && rest[j] == key;
        assert keys[0] == keys[j + 1] == key;
      }
    }
  }

  lemma {:induction false} SharedHas(tier: Tier, page: seq<Root>, keys: seq<string>, key: string)
    ensures key in Shared(tier, page, keys) <==> key in keys && Twice(PageKeys(tier, page), key)
  {
    if keys != [] {
      SharedHas(tier, page, keys[1..], key);
      assert keys == [keys[0]] + keys[1..];
      PageCountIs(tier, page, keys[0]);
      OccursIff(PageKeys(tier, page), keys[0]);
    }
  }

  // ------------------------------------------------------------ a tier's rows

  // The page of a row: the rows from the last multiple of the page size on.
  function PageOf(rows: seq<Root>, size: nat, k: nat): seq<Root>
    requires size > 0 && k < |rows|
  {
    if k < size then (if |rows| <= size then rows else rows[..size]) else PageOf(rows[size..], size, k - size)
  }

  lemma {:induction false} MarkedRowAt(tier: Tier, rows: seq<Root>, size: nat, k: nat)
    requires size > 0 && k < |rows|
    ensures MarkedRows(tier, rows, size)[k]
         == Candidate(tier, rows[k], HealthKeys(tier, PageOf(rows, size, k), rows[k]))
    decreases |rows|
  {
    if k >= size {
      MarkedBehind(tier, rows, size);
      MarkedRowAt(tier, rows[size..], size, k - size);
      assert MarkedRows(tier, rows, size)[size..][k - size] == MarkedRows(tier, rows, size)[k];
    }
  }

  // The health keys of a row the tier reads are those of its authority keys that
  // the rows of its page name twice.
  lemma {:induction false} HealthKeysAre(topology: seq<Root>, tier: Tier, s: Live, size: nat, k: nat, key: string)
    requires size > 0 && k < |TierRows(topology, tier, s, size)|
    ensures var rows := RowsAfter(topology, tier, if tier in s.cursors then s.cursors[tier] else "");
      var c := TierRows(topology, tier, s, size)[k];
      && k < |rows| && c.root == rows[k]
      && (key in c.healthKeys <==>
            key in AuthorityKeys(c.root) && Twice(PageKeys(tier, PageOf(rows, size, k)), key))
  {
    var rows := RowsAfter(topology, tier, Cursor(s, tier));
    MarkedRowAt(tier, rows, size, k);
    SharedHas(tier, PageOf(rows, size, k), AuthorityKeys(rows[k]), key);
  }
}
