// The nameserver lookup shards: a writer that keeps a bounded number of files
// open in least-recently-used order, and the reader of one shard.
module ShardWriters {
  import opened Text
  import opened Fnv
  import opened NameserverQuery

  // A line of a shard: the nameserver it is for and the rest of its payload.
  datatype Line = Line(n: string, payload: string)

  datatype Handle = Handle(shard: nat, buffer: seq<Line>)

  function ShardOf(nameserver: string, count: nat): nat
    requires count > 0
  {
    Bucket(Python(Utf8(PlainName(nameserver))), count)
  }

  function Stored(files: map<nat, seq<Line>>, shard: nat): seq<Line> { if shard in files then files[shard] else [] }

  // Lines written to a shard and not yet in its file.
  function Buffered(handles: seq<Handle>, shard: nat): seq<Line> {
    if handles == [] then []
    else (if handles[0].shard == shard then handles[0].buffer else []) + Buffered(handles[1..], shard)
  }

  function LinesAt(files: map<nat, seq<Line>>, handles: seq<Handle>, shard: nat): seq<Line> {
    Stored(files, shard) + Buffered(handles, shard)
  }

  ghost predicate Distinct(handles: seq<Handle>) {
    forall i, j :: 0 <= i < j < |handles| ==> handles[i].shard != handles[j].shard
  }

  ghost predicate Opened(files: map<nat, seq<Line>>, handles: seq<Handle>) {
    forall i :: 0 <= i < |handles| ==> handles[i].shard in files
  }

  lemma {:induction false} BufferedJoin(a: seq<Handle>, b: seq<Handle>, shard: nat)
    ensures Buffered(a + b, shard) == Buffered(a, shard) + Buffered(b, shard)
  {
    if a == [] { assert a + b == b; }
    else {
      assert (a + b)[1..] == a[1..] + b;
      BufferedJoin(a[1..], b, shard);
    }
  }

  lemma {:induction false} NothingBuffered(handles: seq<Handle>, shard: nat)
    requires forall i :: 0 <= i < |handles| ==> handles[i].shard != shard
    ensures Buffered(handles, shard) == []
  {
    if handles != [] { NothingBuffered(handles[1..], shard); }
  }

  // Taking a handle out of the middle to the end.
  lemma {:induction false} MovedToEnd(handles: seq<Handle>, i: nat, shard: nat)
    requires Distinct(handles) && i < |handles|
    ensures var rest := handles[..i] + handles[i + 1..];
      && Distinct(rest + [handles[i]])
      && Buffered(rest + [handles[i]], shard) == Buffered(handles, shard)
  {
    assert handles == handles[..i] + [handles[i]] + handles[i + 1..];
    MoveOver(handles[..i], handles[i], handles[i + 1..], shard);
  }

  lemma {:induction false} MoveOver(before: seq<Handle>, h: Handle, after: seq<Handle>, shard: nat)
    requires Distinct(before + [h] + after)
    ensures Buffered(before + after + [h], shard) == Buffered(before + [h] + after, shard)
  {
    BufferedJoin(before + [h], after, shard);
    BufferedJoin(before, [h], shard);
    BufferedJoin(before + after, [h], shard);
    BufferedJoin(before, after, shard);
    if h.shard == shard {
      OthersDiffer(before, h, after);
      NothingBuffered(before, shard);
      NothingBuffered(after, shard);
    } else {
      NothingBuffered([h], shard);
    }
  }

  lemma {:induction false} OthersDiffer(before: seq<Handle>, h: Handle, after: seq<Handle>)
    requires Distinct(before + [h] + after)
    ensures forall i :: 0 <= i < |before| ==> before[i].shard != h.shard
    ensures forall i :: 0 <= i < |after| ==> after[i].shard != h.shard
  {
    var all, m := before + [h] + after, |before|;
    assert all[m] == h;
    forall i | 0 <= i < |after| ensures after[i].shard != h.shard { assert all[m + 1 + i] == after[i]; }
    forall i | 0 <= i < |before| ensures before[i].shard != h.shard { assert all[i] == before[i]; }
  }

  lemma {:induction false} AppendedToLast(handles: seq<Handle>, shard: nat, line: Line, other: nat)
    requires handles != [] && handles[|handles| - 1].shard == shard
    ensures var last := handles[|handles| - 1];
      Buffered(handles[..|handles| - 1] + [last.(buffer := last.buffer + [line])], other)
        == Buffered(handles, other) + (if other == shard then [line] else [])
  {
    var before, last := handles[..|handles| - 1], handles[|handles| - 1];
    assert handles == before + [last];
    BufferedJoin(before, [last], other);
    BufferedJoin(before, [last.(buffer := last.buffer + [line])], other);
    assert Buffered([last], other) == if other == shard then last.buffer else [];
    var longer := last.(buffer := last.buffer + [line]);
    assert Buffered([longer], other) == if other == shard then longer.buffer else [];
  }

  class NameserverShardWriters {
    const shardCount: nat
    const maxOpen: nat
    var handles: seq<Handle>
    var files: map<nat, seq<Line>>

    ghost predicate Valid()
      reads this
    {
      shardCount > 0 && maxOpen > 0 && |handles| <= maxOpen && Distinct(handles) && Opened(files, handles)
    }

    // The shard's lines as they will be once every file is closed.
    ghost function Lines(shard: nat): seq<Line>
      reads this
    {
      LinesAt(files, handles, shard)
    }

    constructor (count: nat, open: nat)
      requires count > 0 && open > 0
      ensures Valid() && files == map[] && handles == [] && shardCount == count && maxOpen == open
    {
      shardCount, maxOpen, handles, files := count, open, [], map[];
    }

    // Closing a file writes out what it buffers.
    method CloseOldest()
      requires Valid() && handles != []
      modifies this
      ensures Valid() && handles == old(handles[1..])
      ensures files.Keys == old(files.Keys) && forall s: nat :: Lines(s) == old(Lines(s))
    {
      var h := handles[0];
      files := files[h.shard := files[h.shard] + h.buffer];
      handles := handles[1..];
      forall s: nat ensures Lines(s) == old(Lines(s)) {
        if s == h.shard { NothingBuffered(handles, s); }
      }
    }

    // _handle: the shard's handle becomes the most recently used one.
    method Open(shard: nat)
      requires Valid()
      modifies this
      ensures Valid() && handles != [] && handles[|handles| - 1].shard == shard
      ensures files.Keys == old(files.Keys) + {shard} && forall s: nat :: Lines(s) == old(Lines(s))
    {
      var i := 0;
      while i < |handles| && handles[i].shard != shard
        invariant i <= |handles| && forall j :: 0 <= j < i ==> handles[j].shard != shard
      {
        i := i + 1;
      }
      if i < |handles| {
        forall s: nat { MovedToEnd(handles, i, s); }
        handles := handles[..i] + handles[i + 1..] + [handles[i]];
      } else {
        if |handles| >= maxOpen { CloseOldest(); }
        OpenLast(shard);
      }
    }

    method OpenLast(shard: nat)
      requires Valid() && |handles| < maxOpen && forall j :: 0 <= j < |handles| ==> handles[j].shard != shard
      modifies this
      ensures Valid() && handles == old(handles) + [Handle(shard, [])]
      ensures files.Keys == old(files.Keys) + {shard} && forall s: nat :: Lines(s) == old(Lines(s))
    {
      forall s: nat ensures Buffered(handles + [Handle(shard, [])], s) == Buffered(handles, s) {
        BufferedJoin(handles, [Handle(shard, [])], s);
      }
      files := files[shard := Stored(files, shard)];
      handles := handles + [Handle(shard, [])];
    }

    method Write(nameserver: string, payload: string)
      requires Valid()
      modifies this
      ensures Valid()
      ensures var shard := ShardOf(nameserver, shardCount);
        && files.Keys == old(files.Keys) + {shard}
        && forall s: nat :: Lines(s) == old(Lines(s)) + (if s == shard then [Line(nameserver, payload)] else [])
    {
      var shard, line := ShardOf(nameserver, shardCount), Line(nameserver, payload);
      Open(shard);
      forall s: nat { AppendedToLast(handles, shard, line, s); }
      var last := |handles| - 1;
      handles := handles[..last] + [handles[last].(buffer := handles[last].buffer + [line])];
    }

    method Close()
      requires Valid()
      modifies this
      ensures Valid() && handles == []
      ensures files.Keys == old(files.Keys) && forall s: nat :: Stored(files, s) == old(Lines(s))
    {
      while handles != []
        invariant Valid() && files.Keys == old(files.Keys)
        invariant forall s: nat :: Lines(s) == old(Lines(s))
        decreases |handles|
      {
        CloseNewest();
      }
    }

    // popitem() takes the last handle.
    method CloseNewest()
      requires Valid() && handles != []
      modifies this
      ensures Valid() && handles == old(handles[..|handles| - 1])
      ensures files.Keys == old(files.Keys) && forall s: nat :: Lines(s) == old(Lines(s))
    {
      var last := |handles| - 1;
      var h := handles[last];
      forall s: nat { WithoutLast(handles, s); }
      files := files[h.shard := files[h.shard] + h.buffer];
      handles := handles[..last];
    }
  }

  lemma {:induction false} WithoutLast(handles: seq<Handle>, shard: nat)
    requires handles != [] && Distinct(handles)
    ensures var before, h := handles[..|handles| - 1], handles[|handles| - 1];
      Buffered(handles, shard) == (if shard == h.shard then h.buffer else Buffered(before, shard))
      && (shard == h.shard ==> Buffered(before, shard) == [])
  {
    var before, h := handles[..|handles| - 1], handles[|handles| - 1];
    assert handles == before + [h];
    BufferedJoin(before, [h], shard);
    if shard == h.shard { NothingBuffered(before, shard); }
  }

  // -------------------------------------------------------------- whole exports

  // What unlimited handles would write: each shard's lines in writing order.
  function Unlimited(writes: seq<Line>, count: nat, shard: nat): seq<Line>
    requires count > 0
  {
    if writes == [] then []
    else
      var last := writes[|writes| - 1];
      Unlimited(writes[..|writes| - 1], count, shard) + (if ShardOf(last.n, count) == shard then [last] else [])
  }

  // write_nameserver_names: any number of open files gives the same shards.
  method WriteShards(writes: seq<Line>, count: nat, open: nat) returns (files: map<nat, seq<Line>>)
    requires count > 0 && open > 0
    ensures forall s: nat :: Stored(files, s) == Unlimited(writes, count, s)
    ensures forall s :: s in files ==> s < count
  {
    var writers := new NameserverShardWriters(count, open);
    for i := 0 to |writes|
      invariant writers.Valid() && writers.shardCount == count
      invariant forall s: nat :: writers.Lines(s) == Unlimited(writes[..i], count, s)
      invariant forall s :: s in writers.files ==> s < count
    {
      assert writes[..i + 1][..i] == writes[..i];
      writers.Write(writes[i].n, writes[i].payload);
    }
    assert writes[..|writes|] == writes;
    writers.Close();
    files := writers.files;
  }

  // ------------------------------------------------------------------ the reader

  // The entry map of loadNameserverFromShard: a later line of one name wins,
  // a line without a name is skipped.
  method ReadShard(lines: seq<Line>) returns (entries: map<string, Line>)
    ensures forall n :: n in entries <==> n != "" && LastLine(lines, n).Some?
    ensures forall n :: n in entries ==> LastLine(lines, n) == Some(entries[n])
  {
    entries := map[];
    for i := 0 to |lines|
      invariant forall n :: n in entries <==> n != "" && LastLine(lines[..i], n).Some?
      invariant forall n :: n in entries ==> LastLine(lines[..i], n) == Some(entries[n])
    {
      assert lines[..i + 1][..i] == lines[..i];
      if lines[i].n != "" { entries := entries[lines[i].n := lines[i]]; }
    }
    assert lines[..|lines|] == lines;
  }

  function LastLine(lines: seq<Line>, n: string): Option<Line> {
    if lines == [] then None
    else if lines[|lines| - 1].n == n then Some(lines[|lines| - 1])
    else LastLine(lines[..|lines| - 1], n)
  }

  lemma {:induction false} ShardKeepsLast(writes: seq<Line>, count: nat, n: string)
    requires count > 0
    ensures LastLine(Unlimited(writes, count, ShardOf(n, count)), n) == LastLine(writes, n)
  {
    if writes != [] {
      var before, last := writes[..|writes| - 1], writes[|writes| - 1];
      ShardKeepsLast(before, count, n);
      var past := Unlimited(before, count, ShardOf(n, count));
      if ShardOf(last.n, count) == ShardOf(n, count) {
        assert (past + [last])[..|past|] == past;
      } else {
        assert past + [] == past;
      }
    }
  }

  lemma {:induction false} LastLineNames(lines: seq<Line>, n: string)
    ensures LastLine(lines, n).Some? ==> LastLine(lines, n).value.n == n
  {
    if lines != [] { LastLineNames(lines[..|lines| - 1], n); }
  }

  // What a query finds among the nameservers written.
  function Found(writes: seq<Line>, query: string): Option<Line> {
    var nameserver := NormalizeNameserverQuery(query);
    if nameserver.None? then None else LastLine(writes, nameserver.value)
  }

  // lookupNameserver behind write_nameserver_names, for any query: the last
  // line written for the nameserver asked for, however few files are open at
  // once.
  method WriteAndLookUp(writes: seq<Line>, count: nat, open: nat, query: string) returns (entry: Option<Line>)
    requires count > 0 && open > 0
    ensures entry == Found(writes, query)
  {
    var files := WriteShards(writes, count, open);
    var nameserver := NormalizeNameserverQuery(query);
    if nameserver.None? { return None; }
    SearchableIsPlain(nameserver.value);
    var shard := JsShardId(nameserver.value, count);
    var entries := ReadShard(Stored(files, shard));
    ShardKeepsLast(writes, count, nameserver.value);
    entry := if nameserver.value in entries then Some(entries[nameserver.value]) else None;
  }

  // A written nameserver is found by some query exactly if its name passes the
  // reader's test; any other one is in a shard and out of reach.
  lemma {:induction false} WrittenIsFoundIff(writes: seq<Line>, n: string)
    requires LastLine(writes, n).Some?
    ensures (exists query :: Found(writes, query) == LastLine(writes, n)) <==> Searchable(n)
  {
    LastLineNames(writes, n);
    if query :| Found(writes, query) == LastLine(writes, n) {
      LastLineNames(writes, NormalizeNameserverQuery(query).value);
    }
    if Searchable(n) {
      SearchableIsQuery(n);
      assert Found(writes, n) == LastLine(writes, n);
    }
  }
}
