// Cutting a sequence into pages of a fixed size, as fetchmany does, and
// finding an element again from its ordinal.
module Pages {

  function PageCount(n: nat, size: nat): nat
    requires size > 0
  {
    (n + size - 1) / size
  }

  function Capped(a: int, b: int): int { if a <= b then a else b }

  // Where the one-based page `page` starts: size times the pages before it.
  function Start(page: nat, size: nat): nat {
    if page <= 1 then 0 else Start(page - 1, size) + size
  }

  lemma {:induction false} StartIs(page: nat, size: nat)
    requires page > 0
    ensures Start(page, size) == (page - 1) * size
  {
    if page > 1 { StartIs(page - 1, size); }
  }

  lemma {:induction false} StartAscends(a: nat, b: nat, size: nat)
    requires a <= b
    ensures Start(a, size) <= Start(b, size)
  {
    if a < b { StartAscends(a, b - 1, size); }
  }

  // A page of a sequence.
  function Slice<T>(xs: seq<T>, size: nat, page: nat): seq<T> {
    if page == 0 || Start(page, size) >= |xs| then [] else xs[Start(page, size)..Capped(Start(page, size) + size, |xs|)]
  }

  function OrdinalPage(ordinal: nat, size: nat): nat
    requires size > 0
  {
    ordinal / size + 1
  }

  lemma {:induction false} DivMod(a: nat, size: nat)
    requires size > 0
    ensures a == a / size * size + a % size && a % size < size
  {}

  lemma {:induction false} QuotientBelow(a: nat, b: nat, size: nat)
    requires size > 0 && a <= b
    ensures a / size <= b / size
  {
    DivMod(a, size);
    DivMod(b, size);
    if b / size < a / size { Times(b / size + 1, a / size, size); }
  }

  lemma {:induction false} Times(a: nat, b: nat, size: nat)
    requires a <= b
    ensures a * size <= b * size
  {}

  // The quotient is the number the product brackets.
  lemma {:induction false} QuotientIs(a: nat, q: nat, size: nat)
    requires size > 0 && q * size <= a < q * size + size
    ensures a / size == q
  {
    DivMod(a, size);
    if a / size < q { Times(a / size + 1, q, size); }
    if q < a / size { Times(q + 1, a / size, size); }
  }

  // Pages are counted so that page p exists iff it has a first element.
  lemma {:induction false} PageCountBounds(n: nat, size: nat, page: nat)
    requires size > 0 && page > 0
    ensures page <= PageCount(n, size) <==> Start(page, size) < n
    ensures Start(PageCount(n, size) + 1, size) >= n
  {
    var count := PageCount(n, size);
    DivMod(n + size - 1, size);
    StartIs(count + 1, size);
    if count > 0 {
      StartIs(count, size);
      LastStart(n, size, count);
    }
    if page <= count { StartAscends(page, count, size); }
    else { StartAscends(count + 1, page, size); }
  }

  lemma {:induction false} LastStart(n: nat, size: nat, count: nat)
    requires size > 0 && count > 0 && count == PageCount(n, size)
    ensures (count - 1) * size < n
  {}

  // Dividing an ordinal by the page size finds its page and place.
  lemma {:induction false} OrdinalFound<T>(xs: seq<T>, size: nat, ordinal: nat)
    requires size > 0 && ordinal < |xs|
    ensures 1 <= OrdinalPage(ordinal, size) <= PageCount(|xs|, size)
    ensures ordinal % size < |Slice(xs, size, OrdinalPage(ordinal, size))|
    ensures Slice(xs, size, OrdinalPage(ordinal, size))[ordinal % size] == xs[ordinal]
  {
    OrdinalSplits(ordinal, size);
    PageCountBounds(|xs|, size, OrdinalPage(ordinal, size));
  }

  lemma {:induction false} OrdinalSplits(ordinal: nat, size: nat)
    requires size > 0
    ensures ordinal == Start(OrdinalPage(ordinal, size), size) + ordinal % size && ordinal % size < size
  {
    DivMod(ordinal, size);
    StartIs(OrdinalPage(ordinal, size), size);
  }

  // Conversely the place of a page's element is its ordinal.
  lemma {:induction false} PlaceIsOrdinal<T>(xs: seq<T>, size: nat, page: nat, i: nat)
    requires size > 0 && i < |Slice(xs, size, page)|
    ensures page > 0 && Start(page, size) + i < |xs|
    ensures Slice(xs, size, page)[i] == xs[Start(page, size) + i]
    ensures OrdinalPage(Start(page, size) + i, size) == page
  {
    StartIs(page, size);
    QuotientIs(Start(page, size) + i, page - 1, size);
  }

  // The same page of two sequences of one length pairs the same elements.
  lemma {:induction false} SlicesPair<T, U>(xs: seq<T>, ys: seq<U>, size: nat, page: nat, i: nat) returns (o: nat)
    requires size > 0 && |xs| == |ys| && i < |Slice(xs, size, page)|
    ensures i < |Slice(ys, size, page)| && o < |xs|
    ensures Slice(xs, size, page)[i] == xs[o] && Slice(ys, size, page)[i] == ys[o]
  {
    PlaceIsOrdinal(xs, size, page, i);
    o := Start(page, size) + i;
  }

  lemma {:induction false} SlicesAlike<T, U>(xs: seq<T>, ys: seq<U>, size: nat, page: nat)
    requires size > 0 && |xs| == |ys|
    ensures |Slice(xs, size, page)| == |Slice(ys, size, page)|
  {}

  // The first `count` pages one after the other.
  function Joined<T>(xs: seq<T>, size: nat, count: nat): seq<T>
    requires size > 0
  {
    if count == 0 then [] else Joined(xs, size, count - 1) + Slice(xs, size, count)
  }

  lemma {:induction false} JoinedIsPrefix<T>(xs: seq<T>, size: nat, count: nat)
    requires size > 0
    ensures Joined(xs, size, count) == xs[..Capped(Start(count + 1, size), |xs|)]
  {
    if count > 0 { JoinedIsPrefix(xs, size, count - 1); }
  }

  // All pages together are the sequence.
  lemma {:induction false} JoinedIsAll<T>(xs: seq<T>, size: nat)
    requires size > 0
    ensures Joined(xs, size, PageCount(|xs|, size)) == xs
  {
    PageCountBounds(|xs|, size, 1);
    JoinedIsPrefix(xs, size, PageCount(|xs|, size));
  }

  // ---------------------------------------------------------------- writing

  function PagesOf<T>(xs: seq<T>, size: nat): map<nat, seq<T>>
    requires size > 0
  {
    map page | 1 <= page <= PageCount(|xs|, size) :: Slice(xs, size, page)
  }

  // What one fetchmany returns, and what it leaves.
  function Fetched<T>(rest: seq<T>, size: nat): seq<T> { if |rest| <= size then rest else rest[..size] }
  function Left<T>(rest: seq<T>, size: nat): seq<T> { if |rest| <= size then [] else rest[size..] }

  // `rest` is what remains before the fetch of a page.
  ghost predicate AtPage<T>(xs: seq<T>, size: nat, page: nat, rest: seq<T>)
    requires size > 0
  {
    page >= 1 && rest == if Start(page, size) <= |xs| then xs[Start(page, size)..] else []
  }

  lemma {:induction false} FetchPage<T>(xs: seq<T>, size: nat, page: nat, rest: seq<T>)
    requires size > 0 && AtPage(xs, size, page, rest)
    ensures rest != [] <==> page <= PageCount(|xs|, size)
    ensures rest != [] ==> Fetched(rest, size) == Slice(xs, size, page)
    ensures AtPage(xs, size, page + 1, Left(rest, size))
  {
    PageCountBounds(|xs|, size, page);
  }

  ghost predicate Written<T>(xs: seq<T>, size: nat, page: nat, pages: map<nat, seq<T>>)
    requires size > 0
  {
    && (forall p :: p in pages <==> 1 <= p < page && p <= PageCount(|xs|, size))
    && (forall p :: p in pages ==> pages[p] == Slice(xs, size, p))
  }

  // The `while True: fetchmany(size)` loop of the page writers.
  method WritePages<T>(xs: seq<T>, size: nat) returns (pages: map<nat, seq<T>>)
    requires size > 0
    ensures pages == PagesOf(xs, size)
  {
    pages := map[];
    var rest := xs;
    var page := 1;
    while rest != []
      invariant AtPage(xs, size, page, rest) && Written(xs, size, page, pages)
      decreases |rest|
    {
      FetchPage(xs, size, page, rest);
      pages := pages[page := Fetched(rest, size)];
      rest := Left(rest, size);
      page := page + 1;
    }
    FetchPage(xs, size, page, rest);
  }
}
