// The page loop of selection over one tier.
module SweepTier {
  import opened Text
  import opened Sweep
  import opened SweepSelect
  import opened SweepPage

  // The rows a scan of the tier may read, page by page: those behind the
  // tier's stored cursor.
  function TierRows(topology: seq<Root>, tier: Tier, s: Live, size: nat): (rows: seq<Candidate>)
    requires size > 0
  {
    MarkedRows(tier, RowsAfter(topology, tier, Cursor(s, tier)), size)
  }

  // The rows of a tier carry its name, ascend, and are rows of the topology.
  lemma {:induction false} TierRowsHave(topology: seq<Root>, tier: Tier, s: Live, size: nat)
    requires SortedTopology(topology) && size > 0
    ensures var rows := TierRows(topology, tier, s, size);
      && Ascending(rows)
      && forall c :: c in rows ==>
           c.tier == tier && c.root in topology && InTier(tier, c.root) && Less(Cursor(s, tier), c.root.name)
  {
    var roots := RowsAfter(topology, tier, Cursor(s, tier));
    RowsAfterHas(topology, tier, Cursor(s, tier));
    var rows := TierRows(topology, tier, s, size);
    forall i, j | 0 <= i < j < |rows| ensures Less(rows[i].root.name, rows[j].root.name) {
      assert Less(roots[i].name, roots[j].name);
    }
    forall c | c in rows
      ensures c.tier == tier && c.root in topology && InTier(tier, c.root) && Less(Cursor(s, tier), c.root.name)
    {
      var k :| 0 <= k < |rows| && rows[k] == c;
      assert roots[k] in roots;
    }
  }

  // `picks` and the cursor position `passed` in the tier's rows so far.
  ghost predicate TierScan(rows: seq<Candidate>, s: Live, now: int, picks: seq<Candidate>, passed: nat) {
    Picked(rows, picks, s, now) && AccountedTo(picks, rows, passed, s, now)
  }

  // The page stands at row `pos`.
  predicate PageAt(rows: seq<Candidate>, pos: nat, page: seq<Candidate>) {
    pos + |page| <= |rows| && forall k :: 0 <= k < |page| ==> page[k] == rows[pos + k]
  }

  lemma {:induction false} PicksJoin(rows: seq<Candidate>, before: seq<Candidate>, picks: seq<Candidate>, pos: nat,
        page: seq<Candidate>, upto: nat)
    requires PageAt(rows, pos, page) && upto <= |page| && PicksTo(rows, pos, before) && PicksTo(page, upto, picks)
    ensures PicksTo(rows, pos + upto, before + picks)
  {
    forall c | c in before + picks ensures AmongFirst(rows, pos + upto, c) {
      if c in before {
        assert AmongFirst(rows, pos, c);
      } else {
        assert AmongFirst(page, upto, c);
        var k :| 0 <= k < upto && page[k] == c;
        assert rows[pos + k] == c;
      }
    }
  }

  // The page's picks behind those of earlier pages.
  lemma {:induction false} AppendPicks(rows: seq<Candidate>, s: Live, now: int, pos: nat, page: seq<Candidate>,
        before: seq<Candidate>, picks: seq<Candidate>)
    requires Ascending(rows) && PageAt(rows, pos, page)
    requires Picked(rows, before, s, now) && PicksTo(rows, pos, before) && Picked(page, picks, s, now)
    ensures Picked(rows, before + picks, s, now)
  {
    forall c | c in picks ensures exists k :: pos <= k < |rows| && rows[k] == c {
      var i :| 0 <= i < |page| && page[i] == c;
      assert rows[pos + i] == c;
    }
    forall c, d | c in before && d in picks ensures Less(c.root.name, d.root.name) {
      assert AmongFirst(rows, pos, c);
      var i :| 0 <= i < pos && rows[i] == c;
      var j :| pos <= j < |rows| && rows[j] == d;
      assert Less(rows[i].root.name, rows[j].root.name);
    }
    AscendingJoin(before, picks);
  }

  lemma {:induction false} AscendingJoin(before: seq<Candidate>, picks: seq<Candidate>)
    requires Ascending(before) && Ascending(picks)
    requires forall c, d :: c in before && d in picks ==> Less(c.root.name, d.root.name)
    ensures Ascending(before + picks)
  {}

  lemma {:induction false} AccountedJoin(picks: seq<Candidate>, rows: seq<Candidate>, pos: nat, page: seq<Candidate>,
        moved: nat, s: Live, now: int)
    requires PageAt(rows, pos, page)
    requires AccountedTo(picks, rows, pos, s, now) && AccountedTo(picks, page, moved, s, now)
    ensures AccountedTo(picks, rows, pos + moved, s, now)
  {
    forall k | 0 <= k < pos + moved ensures Accounted(picks, rows[k], s, now) {
      if k >= pos { assert page[k - pos] == rows[k]; }
    }
  }

  // What the row loop did to the page at row `pos`.
  lemma {:induction false} PageExtendsTier(rows: seq<Candidate>, s: Live, now: int, pos: nat, page: seq<Candidate>,
        before: seq<Candidate>, did: PageEnd)
    requires Ascending(rows) && PageAt(rows, pos, page)
    requires TierScan(rows, s, now, before, pos) && PicksTo(rows, pos, before)
    requires Scanning(page, s, now, did.upto, did.picks, did.passed, did.waiting)
    ensures TierScan(rows, s, now, before + did.picks, pos + did.passed)
    ensures did.waiting ==> pos + did.passed < |rows| && Held(rows[pos + did.passed], s, now)
  {
    var all := before + did.picks;
    AppendPicks(rows, s, now, pos, page, before, did.picks);
    AccountedMore(before, all, rows, pos, s, now);
    AccountedMore(did.picks, all, page, did.passed, s, now);
    AccountedJoin(all, rows, pos, page, did.passed, s, now);
  }

  // The page loop's variables, with the candidates it added and how many of the
  // tier's rows the cursor moved over and the loop read.
  datatype Loop = Loop(
    cursor: string, progress: Option<string>, stop: bool, done: bool, picks: seq<Candidate>, passed: nat, read: nat)

  // The loop's variables have these values.
  predicate Runs(loop: Loop, cursor: string, progress: Option<string>, stop: bool, done: bool) {
    loop.cursor == cursor && loop.progress == progress && loop.stop == stop && loop.done == done
  }

  // What the row loop did to one page, as Scanning describes it.
  datatype PageEnd = PageEnd(picks: seq<Candidate>, passed: nat, upto: nat, waiting: bool, reached: bool)

  // The loop goes on only behind full pages, and its cursor is at their end.
  ghost predicate AtRow(topology: seq<Root>, tier: Tier, s: Live, now: int, size: nat, loop: Loop)
    requires size > 0
  {
    var roots := RowsAfter(topology, tier, Cursor(s, tier));
    && loop.passed <= |roots| && RowsAfter(topology, tier, loop.cursor) == roots[loop.passed..]
    && PageStart(loop.passed, size)
  }

  function ProgressAt(rows: seq<Candidate>, passed: nat): Option<string>
    requires passed <= |rows|
  {
    if passed == 0 then None else Some(rows[passed - 1].root.name)
  }

  // The page loop of a tier: where the cursor is, what progress is stored and
  // whether the loop stops; then it has come to the tier's end, the batch is
  // full, or the cursor waits at a row of an unknown authority.
  ghost predicate TierState(topology: seq<Root>, tier: Tier, s: Live, now: int, size: nat, loop: Loop, full: bool)
    requires size > 0
  {
    && LoopState(TierRows(topology, tier, s, size), s, now, loop, full)
    && (!loop.stop ==> AtRow(topology, tier, s, now, size, loop))
  }

  ghost predicate LoopState(rows: seq<Candidate>, s: Live, now: int, loop: Loop, full: bool) {
    && TierScan(rows, s, now, loop.picks, loop.passed)
    && (loop.stop ==> loop.done || full || (loop.passed < |rows| && Held(rows[loop.passed], s, now)))
    && (loop.done ==> loop.stop && loop.passed == |rows|)
    && loop.progress == (if loop.done then Some("") else ProgressAt(rows, loop.passed))
  }

  // What the scan of a tier comes to: a batch that is not full stops only at
  // the tier's end or where the cursor waits. `read` rows were read.
  datatype Scan = Scan(
    tier: Tier, picks: seq<Candidate>, passed: nat, progress: Option<string>, done: bool, read: nat)

  ghost predicate TierScanned(topology: seq<Root>, s: Live, now: int, size: nat, full: bool, scan: Scan)
    requires size > 0
  {
    var rows := TierRows(topology, scan.tier, s, size);
    && TierScan(rows, s, now, scan.picks, scan.passed)
    && (scan.done ==> scan.passed == |rows|)
    && (scan.done || full || (scan.passed < |rows| && Held(rows[scan.passed], s, now)))
    && scan.progress == (if scan.done then Some("") else ProgressAt(rows, scan.passed))
  }

  lemma {:induction false} TierEnds(topology: seq<Root>, tier: Tier, s: Live, now: int, size: nat, loop: Loop,
        full: bool)
    requires size > 0 && TierState(topology, tier, s, now, size, loop, full) && (loop.stop || full)
    ensures TierScanned(topology, s, now, size, full,
      Scan(tier, loop.picks, loop.passed, loop.progress, loop.done, loop.read))
  {}

  // The rows left once the cursor stands at the last row it moved over.
  lemma {:induction false} RowsLeft(topology: seq<Root>, tier: Tier, s: Live, size: nat, page: seq<Candidate>,
        cursor: string, passed: nat, moved: nat)
    requires size > 0 && SortedTopology(topology) && PageAt(TierRows(topology, tier, s, size), passed, page)
    requires RowsAfter(topology, tier, cursor) == RowsAfter(topology, tier, Cursor(s, tier))[passed..]
    requires moved <= |page|
    ensures RowsAfter(topology, tier, CursorAt(page, moved, cursor))
         == RowsAfter(topology, tier, Cursor(s, tier))[passed + moved..]
  {
    if moved > 0 {
      assert page[moved - 1] == TierRows(topology, tier, s, size)[passed + (moved - 1)];
      RowsAfterRow(topology, tier, Cursor(s, tier), passed + moved - 1);
    }
  }

  // The loop's variables after a nonempty page.
  function AfterPage(page: seq<Candidate>, size: nat, loop: Loop, did: PageEnd): Loop
    requires did.passed <= |page|
  {
    var held := did.waiting || did.reached;
    var cursor := CursorAt(page, did.passed, loop.cursor);
    var done := |page| < size && !held;
    Loop(cursor, if done then Some("") else if did.passed > 0 then Some(cursor) else loop.progress,
         held || |page| < size, done, loop.picks + did.picks, loop.passed + did.passed, loop.passed + did.upto)
  }

  // The page the loop reads next.
  ghost predicate NextPage(topology: seq<Root>, tier: Tier, cursor: string, size: nat, page: seq<Candidate>) {
    page == MarkedPage(tier, FirstPage(RowsAfter(topology, tier, cursor), size))
  }

  // It stands at the loop's position, and only the last page is short.
  predicate NextAt(rows: seq<Candidate>, pos: nat, page: seq<Candidate>, size: nat) {
    PageAt(rows, pos, page) && |page| <= size && (|page| < size ==> pos + |page| == |rows|)
  }

  lemma {:induction false} NextPageIs(topology: seq<Root>, tier: Tier, s: Live, now: int, size: nat, loop: Loop,
        page: seq<Candidate>)
    requires size > 0 && AtRow(topology, tier, s, now, size, loop) && NextPage(topology, tier, loop.cursor, size, page)
    ensures NextAt(TierRows(topology, tier, s, size), loop.passed, page, size)
  {
    MarkedPageAt(tier, RowsAfter(topology, tier, Cursor(s, tier)), size, loop.passed);
    SliceAt(TierRows(topology, tier, s, size), loop.passed, page);
  }

  lemma {:induction false} SliceAt(rows: seq<Candidate>, pos: nat, page: seq<Candidate>)
    requires pos + |page| <= |rows| && page == rows[pos..pos + |page|]
    ensures PageAt(rows, pos, page)
  {}

  lemma {:induction false} PageStartNext(n: nat, size: nat)
    requires size > 0 && PageStart(n, size)
    ensures PageStart(n + size, size)
  {
    assert n + size - size == n;
  }

  lemma {:induction false} PageAscends(topology: seq<Root>, tier: Tier, cursor: string, size: nat, page: seq<Candidate>)
    requires SortedTopology(topology) && NextPage(topology, tier, cursor, size, page)
    ensures Ascending(page)
  {
    var roots := RowsAfter(topology, tier, cursor);
    RowsAfterHas(topology, tier, cursor);
    forall i, j | 0 <= i < j < |page| ensures Less(page[i].root.name, page[j].root.name) {
      assert Less(roots[i].name, roots[j].name);
    }
  }

  // --------------------------------------------------------- the rows it read

  predicate EndsPage(rows: seq<Candidate>, read: nat, size: nat) { read == |rows| || PageStart(read, size) }

  // The rows read so far are handled and hold the picks; the loop goes on with
  // the first row not read, and stops in the middle of a page only if the batch
  // is full.
  ghost predicate ReadRows(rows: seq<Candidate>, size: nat, s: Live, now: int, selected: seq<Candidate>, loop: Loop,
        full: bool) {
    && loop.passed <= loop.read && HandledTo(selected, rows, loop.read, s, now) && PicksTo(rows, loop.read, loop.picks)
    && (if !loop.stop then loop.read == loop.passed else full || EndsPage(rows, loop.read, size))
    && (if loop.done then loop.read == |rows| else loop.stop && !full ==> loop.passed < loop.read)
  }

  lemma {:induction false} HandledJoin(selected: seq<Candidate>, rows: seq<Candidate>, s: Live, now: int, pos: nat,
        page: seq<Candidate>, upto: nat)
    requires PageAt(rows, pos, page)
    requires HandledTo(selected, rows, pos, s, now) && HandledTo(selected, page, upto, s, now)
    ensures HandledTo(selected, rows, pos + upto, s, now)
  {
    forall k | 0 <= k < pos + upto ensures Handled(selected, rows[k], s, now) {
      if k >= pos { assert page[k - pos] == rows[k]; }
    }
  }

  // One page: what it did to the loop, and what is read now.
  lemma {:induction false} PageExtendsLoop(rows: seq<Candidate>, s: Live, now: int, size: nat, page: seq<Candidate>,
        loop: Loop, did: PageEnd, full: bool)
    requires Ascending(rows) && page != [] && NextAt(rows, loop.passed, page, size)
    requires LoopState(rows, s, now, loop, false) && !loop.stop && PicksTo(rows, loop.passed, loop.picks)
    requires Scanning(page, s, now, did.upto, did.picks, did.passed, did.waiting)
    requires if did.reached then full else did.upto == |page|
    ensures LoopState(rows, s, now, AfterPage(page, size, loop, did), full)
  {
    PageExtendsTier(rows, s, now, loop.passed, page, loop.picks, did);
  }

  lemma {:induction false} PageRead(rows: seq<Candidate>, size: nat, s: Live, now: int, selected0: seq<Candidate>,
        selected: seq<Candidate>, page: seq<Candidate>, loop: Loop, did: PageEnd, full: bool)
    requires size > 0 && !loop.stop && ReadRows(rows, size, s, now, selected0, loop, false)
    requires NextAt(rows, loop.passed, page, size) && PageStart(loop.passed, size)
    requires ReadTo(page, s, now, selected, did.picks, did.upto) && selected0 <= selected
    requires did.passed <= did.upto && (if did.reached then full else did.upto == |page|)
    requires if did.waiting then did.passed < did.upto else !did.reached ==> did.passed == |page|
    ensures ReadRows(rows, size, s, now, selected, AfterPage(page, size, loop, did), full)
  {
    StaysHandled(selected0, selected, rows, loop.passed, s, now);
    HandledJoin(selected, rows, s, now, loop.passed, page, did.upto);
    PicksJoin(rows, loop.picks, did.picks, loop.passed, page, did.upto);
    PageStartNext(loop.passed, size);
  }

  // A page that lets the loop go on was moved over as a whole.
  lemma {:induction false} GoesOn(page: seq<Candidate>, s: Live, now: int, size: nat, loop: Loop, did: PageEnd)
    requires Scanning(page, s, now, did.upto, did.picks, did.passed, did.waiting) && |page| <= size
    requires !did.reached ==> did.upto == |page|
    ensures did.passed <= did.upto <= |page|
    ensures if did.waiting then did.passed < did.upto else !did.reached ==> did.passed == |page|
    ensures var next := AfterPage(page, size, loop, did);
      !next.stop ==>
        |page| == size && did.passed == |page| && next.passed == loop.passed + |page|
        && next.cursor == CursorAt(page, |page|, loop.cursor)
  {}

  lemma {:induction false} NextRow(topology: seq<Root>, tier: Tier, s: Live, now: int, size: nat,
        page: seq<Candidate>, loop: Loop, next: Loop)
    requires SortedTopology(topology) && size > 0 && AtRow(topology, tier, s, now, size, loop)
    requires PageAt(TierRows(topology, tier, s, size), loop.passed, page) && |page| == size
    requires next.passed == loop.passed + |page| && next.cursor == CursorAt(page, |page|, loop.cursor)
    ensures AtRow(topology, tier, s, now, size, next)
  {
    RowsLeft(topology, tier, s, size, page, loop.cursor, loop.passed, |page|);
    PageStartNext(loop.passed, size);
  }

  lemma {:induction false} PageDone(topology: seq<Root>, tier: Tier, s: Live, now: int, size: nat,
        page: seq<Candidate>, selected0: seq<Candidate>, selected: seq<Candidate>, loop: Loop, did: PageEnd, full: bool)
      returns (next: Loop)
    requires SortedTopology(topology) && size > 0 && page != []
    requires TierState(topology, tier, s, now, size, loop, false) && !loop.stop
    requires NextPage(topology, tier, loop.cursor, size, page)
    requires Scanning(page, s, now, did.upto, did.picks, did.passed, did.waiting)
    requires if did.reached then full else did.upto == |page|
    requires ReadRows(TierRows(topology, tier, s, size), size, s, now, selected0, loop, false)
    requires ReadTo(page, s, now, selected, did.picks, did.upto) && selected0 <= selected
    ensures next == AfterPage(page, size, loop, did)
    ensures TierState(topology, tier, s, now, size, next, full)
    ensures !next.stop ==> loop.passed < next.passed
    ensures ReadRows(TierRows(topology, tier, s, size), size, s, now, selected, next, full)
  {
    next := AfterPage(page, size, loop, did);
    var rows := TierRows(topology, tier, s, size);
    TierRowsHave(topology, tier, s, size);
    NextPageIs(topology, tier, s, now, size, loop, page);
    GoesOn(page, s, now, size, loop, did);
    PageExtendsLoop(rows, s, now, size, page, loop, did, full);
    PageRead(rows, size, s, now, selected0, selected, page, loop, did, full);
    if !next.stop { NextRow(topology, tier, s, now, size, page, loop, next); }
  }

  // What a scan read: all of the tier, or up to the end of the page its cursor
  // waits on, or until the batch was full.
  ghost predicate ReadScan(topology: seq<Root>, s: Live, now: int, size: nat, selected: seq<Candidate>, full: bool,
        scan: Scan)
    requires size > 0
  {
    var rows := TierRows(topology, scan.tier, s, size);
    && scan.passed <= scan.read && HandledTo(selected, rows, scan.read, s, now) && PicksTo(rows, scan.read, scan.picks)
    && (full || EndsPage(rows, scan.read, size))
    && (if scan.done then scan.read == |rows| else full || scan.passed < scan.read)
  }

  // The variables behind a page: the loop ends where the cursor waits, at the
  // limit, or with a short page.
  method ReadPage(tier: Tier, rows: seq<Root>, s: Live, now: int, maximum: Option<nat>, size: nat,
        selected0: seq<Candidate>, samples0: map<string, nat>, cursor0: string, progress0: Option<string>,
        ghost loop0: Loop)
      returns (selected: seq<Candidate>, samples: map<string, nat>, cursor: string,
        progress: Option<string>, stop: bool, done: bool, ghost did: PageEnd)
    requires Ascending(MarkedPage(tier, rows)) && Tally(maximum, selected0, samples0, false, s, now)
    requires Runs(loop0, cursor0, progress0, false, false)
    ensures var page := MarkedPage(tier, rows);
      && Scanning(page, s, now, did.upto, did.picks, did.passed, did.waiting)
      && ReadTo(page, s, now, selected, did.picks, did.upto)
      && Runs(AfterPage(page, size, loop0, did), cursor, progress, stop, done)
    ensures selected == selected0 + did.picks && Tally(maximum, selected, samples, did.waiting, s, now)
    ensures if did.reached then Full(maximum, |selected|) else did.upto == |rows|
  {
    var page := MarkSharedAuthorityKeys(tier, rows);
    var waiting, reached, moved;
    ghost var picked, upto;
    selected, samples, cursor, waiting, reached, picked, moved, upto :=
      ScanMarked(page, s, now, maximum, selected0, samples0, cursor0);
    progress := if moved > 0 then Some(cursor) else progress0;
    stop, done := waiting || reached || |rows| < size, false;
    if |rows| < size && !(waiting || reached) { progress, done := Some(""), true; }
    did := PageEnd(picked, moved, upto, waiting, reached);
  }

  // One nonempty page of the tier.
  method ScanPage(topology: seq<Root>, tier: Tier, s: Live, now: int, maximum: Option<nat>, size: nat, rows: seq<Root>,
        selected0: seq<Candidate>, samples0: map<string, nat>, cursor0: string, progress0: Option<string>,
        ghost loop0: Loop)
      returns (selected: seq<Candidate>, samples: map<string, nat>, cursor: string,
        progress: Option<string>, stop: bool, done: bool, ghost loop: Loop, ghost picked: seq<Candidate>)
    requires SortedTopology(topology) && size > 0
    requires Tally(maximum, selected0, samples0, false, s, now)
    requires TierState(topology, tier, s, now, size, loop0, false) && Runs(loop0, cursor0, progress0, false, false)
    requires rows == FirstPage(RowsAfter(topology, tier, cursor0), size) && rows != []
    requires ReadRows(TierRows(topology, tier, s, size), size, s, now, selected0, loop0, false)
    ensures selected == selected0 + picked && loop.picks == loop0.picks + picked
    ensures Tally(maximum, selected, samples, false, s, now)
    ensures TierState(topology, tier, s, now, size, loop, Full(maximum, |selected|))
    ensures Runs(loop, cursor, progress, stop, done) && (!stop ==> loop0.passed < loop.passed)
    ensures stop && !done ==> |selected| > 0 || Full(maximum, |selected|)
    ensures ReadRows(TierRows(topology, tier, s, size), size, s, now, selected, loop, Full(maximum, |selected|))
  {
    ghost var page := MarkedPage(tier, rows);
    ghost var did;
    PageAscends(topology, tier, cursor0, size, page);
    selected, samples, cursor, progress, stop, done, did :=
      ReadPage(tier, rows, s, now, maximum, size, selected0, samples0, cursor0, progress0, loop0);
    picked := did.picks;
    loop := PageDone(topology, tier, s, now, size, page, selected0, selected, loop0, did, Full(maximum, |selected|));
  }

  // One turn of the page loop.
  method ScanNext(topology: seq<Root>, tier: Tier, s: Live, now: int, maximum: Option<nat>, size: nat,
        selected0: seq<Candidate>, samples0: map<string, nat>, cursor0: string, progress0: Option<string>,
        ghost loop0: Loop)
      returns (selected: seq<Candidate>, samples: map<string, nat>, cursor: string,
        progress: Option<string>, stop: bool, done: bool, ghost loop: Loop, ghost picked: seq<Candidate>)
    requires SortedTopology(topology) && size > 0
    requires Tally(maximum, selected0, samples0, false, s, now)
    requires ReadRows(TierRows(topology, tier, s, size), size, s, now, selected0, loop0, false)
    ensures ReadRows(TierRows(topology, tier, s, size), size, s, now, selected, loop, Full(maximum, |selected|))
    requires TierState(topology, tier, s, now, size, loop0, false) && Runs(loop0, cursor0, progress0, false, false)
    ensures selected == selected0 + picked && loop.picks == loop0.picks + picked
    ensures Tally(maximum, selected, samples, false, s, now)
    ensures TierState(topology, tier, s, now, size, loop, Full(maximum, |selected|))
    ensures Runs(loop, cursor, progress, stop, done) && (!stop ==> loop0.passed < loop.passed)
    ensures stop && !done ==> |selected| > 0 || Full(maximum, |selected|)
  {
    var rows := FirstPage(RowsAfter(topology, tier, cursor0), size);
    if rows == [] {
      selected, samples, cursor, progress, done, stop := selected0, samples0, cursor0, Some(""), true, true;
      picked, loop := [], Loop(cursor0, Some(""), true, true, loop0.picks, loop0.passed, loop0.passed);
      EmptyPage(topology, tier, s, now, size, Full(maximum, |selected|), loop0);
      assert loop0.picks + picked == loop0.picks;
    } else {
      selected, samples, cursor, progress, stop, done, loop, picked :=
        ScanPage(topology, tier, s, now, maximum, size, rows, selected0, samples0, cursor0, progress0, loop0);
    }
  }

  // The page loop of one tier, from the tier's stored cursor.
  method ScanTier(topology: seq<Root>, tier: Tier, s: Live, now: int, maximum: Option<nat>, pageSize: int,
        selected0: seq<Candidate>, samples0: map<string, nat>)
      returns (selected: seq<Candidate>, samples: map<string, nat>, progress: Option<string>, done: bool,
        ghost scan: Scan)
    requires SortedTopology(topology)
    requires Tally(maximum, selected0, samples0, false, s, now) && !Full(maximum, |selected0|)
    ensures selected == selected0 + scan.picks
    ensures scan.tier == tier && scan.progress == progress && scan.done == done
    ensures TierScanned(topology, s, now, PageSize(pageSize), Full(maximum, |selected|), scan)
    ensures ReadScan(topology, s, now, PageSize(pageSize), selected, Full(maximum, |selected|), scan)
    ensures Tally(maximum, selected, samples, false, s, now)
    ensures |selected| == 0 ==> done
  {
    var size := PageSize(pageSize);
    var cursor := Cursor(s, tier);
    ghost var count := |TierRows(topology, tier, s, size)|;
    selected, samples, progress, done := selected0, samples0, None, false;
    var stop := false;
    ghost var loop := Loop(cursor, None, false, false, [], 0, 0);
    AtStart(topology, tier, s, now, size, Full(maximum, |selected|));
    while !stop && !Full(maximum, |selected|)
      invariant TierState(topology, tier, s, now, size, loop, Full(maximum, |selected|))
      invariant Runs(loop, cursor, progress, stop, done)
      invariant ReadRows(TierRows(topology, tier, s, size), size, s, now, selected, loop, Full(maximum, |selected|))
      invariant selected == selected0 + loop.picks
      invariant Tally(maximum, selected, samples, false, s, now)
      invariant stop && !done ==> |selected| > 0 || Full(maximum, |selected|)
      invariant loop.passed <= count
      decreases !stop, count - loop.passed
    {
      ghost var before, picked := loop.picks, [];
      selected, samples, cursor, progress, stop, done, loop, picked :=
        ScanNext(topology, tier, s, now, maximum, size, selected, samples, cursor, progress, loop);
      Associate(selected0, before, picked);
    }
    TierEnds(topology, tier, s, now, size, loop, Full(maximum, |selected|));
    scan := Scan(tier, loop.picks, loop.passed, progress, done, loop.read);
  }

  lemma {:induction false} AtStart(topology: seq<Root>, tier: Tier, s: Live, now: int, size: nat, full: bool)
    requires size > 0
    ensures TierState(topology, tier, s, now, size, Loop(Cursor(s, tier), None, false, false, [], 0, 0), full)
  {
    var roots := RowsAfter(topology, tier, Cursor(s, tier));
    assert roots[0..] == roots;
  }

  lemma {:induction false} EmptyPage(topology: seq<Root>, tier: Tier, s: Live, now: int, size: nat, full: bool,
        loop: Loop)
    requires size > 0 && TierState(topology, tier, s, now, size, loop, false) && !loop.stop
    requires FirstPage(RowsAfter(topology, tier, loop.cursor), size) == []
    ensures TierState(topology, tier, s, now, size,
      Loop(loop.cursor, Some(""), true, true, loop.picks, loop.passed, loop.passed), full)
  {}

  function PageSize(pageSize: int): (size: nat)
    ensures size > 0
  {
    if pageSize > 1 then pageSize else 1
  }
}
