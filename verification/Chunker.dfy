/** The streaming export: CSV lines of one organisation are cut into Parquet files. */
module Chunker {
  import opened Names
  import opened Numbers
  import opened Sequences
  import opened ColdListing
  import opened ColdOrder

  /** One data line of the COPY stream: the row and its size in bytes. */
  datatype Line = Line(row: Row, bytes: nat)

  /** The cut's parameters: the size of the header line and the byte limit of this run. */
  datatype Cut = Cut(header: nat, limit: nat)

  const CHUNK_ROWS := 50_000

  const MEGABYTE := 1024 * 1024

  /** _get_archive_chunk_bytes: a quarter of DuckDB's memory limit but at least a megabyte, or 64
      megabytes without one. */
  function ChunkLimit(memory: Option<int>): (limit: nat)
    ensures limit >= MEGABYTE
  {
    if memory.None? then 64 * MEGABYTE
    else if memory.value / 4 < MEGABYTE then MEGABYTE
    else memory.value / 4
  }

  function Bytes(lines: seq<Line>): nat {
    if lines == [] then 0 else Bytes(lines[..|lines| - 1]) + lines[|lines| - 1].bytes
  }

  function RowsOf(lines: seq<Line>): (r: Rows)
    ensures |r| == |lines| && forall i :: 0 <= i < |r| ==> r[i] == lines[i].row
  {
    seq(|lines|, i requires 0 <= i < |lines| => lines[i].row)
  }

  /** The buffer, header included, has reached a limit. */
  predicate Full(cut: Cut, buf: seq<Line>) {
    cut.header + Bytes(buf) >= cut.limit || |buf| >= CHUNK_ROWS
  }

  function IsFull(cut: Cut): seq<Line> -> bool {
    buf => Full(cut, buf)
  }

  /** The groups of lines the loop flushes, given what is already buffered. */
  function Split(full: seq<Line> -> bool, buf: seq<Line>, lines: seq<Line>): seq<seq<Line>>
    decreases |lines|
  {
    if lines == [] then
      if buf == [] then [] else [buf]
    else
      var grown := buf + [lines[0]];
      if full(grown) then [grown] + Split(full, [], lines[1..]) else Split(full, grown, lines[1..])
  }

  /** What an export must look like, without saying how it is computed: the groups are the lines
      in order, none is empty, no group could have been closed earlier, and every group but
      the last was closed because a limit was reached. */
  ghost predicate IsCut(full: seq<Line> -> bool, lines: seq<Line>, groups: seq<seq<Line>>) {
    Flatten(groups) == lines && WellClosed(full, groups)
  }

  ghost predicate NeverFullBefore(full: seq<Line> -> bool, g: seq<Line>) {
    forall n :: 0 < n < |g| ==> !full(g[..n])
  }

  lemma {:induction false} SplitContents(full: seq<Line> -> bool, buf: seq<Line>, lines: seq<Line>)
    ensures Flatten(Split(full, buf, lines)) == buf + lines
    decreases |lines|
  {
    if lines == [] {
      if buf != [] { assert [buf][..0] == []; }
    } else {
      var grown := buf + [lines[0]];
      assert buf + lines == grown + lines[1..];
      if full(grown) {
        SplitContents(full, [], lines[1..]);
        FlattenCons(grown, Split(full, [], lines[1..]));
      } else {
        SplitContents(full, grown, lines[1..]);
      }
    }
  }

  /** No group is empty or could have been closed earlier, and all but the last were full. */
  ghost predicate WellClosed(full: seq<Line> -> bool, groups: seq<seq<Line>>) {
    && (forall g :: g in groups ==> g != [] && NeverFullBefore(full, g))
    && (forall i :: 0 <= i < |groups| - 1 ==> full(groups[i]))
  }

  lemma CloseOneMore(full: seq<Line> -> bool, g: seq<Line>, rest: seq<seq<Line>>)
    requires WellClosed(full, rest) && g != [] && NeverFullBefore(full, g) && full(g)
    ensures WellClosed(full, [g] + rest)
  {
    var groups := [g] + rest;
    forall i | 0 <= i < |groups| - 1 ensures full(groups[i]) {
      if i > 0 { assert groups[i] == rest[i - 1]; }
    }
  }

  lemma BufferGrows(full: seq<Line> -> bool, buf: seq<Line>, line: Line)
    requires NeverFullBefore(full, buf) && (buf != [] ==> !full(buf))
    ensures NeverFullBefore(full, buf + [line])
  {
    var grown := buf + [line];
    forall n | 0 < n < |grown| ensures !full(grown[..n]) {
      if n < |buf| { assert grown[..n] == buf[..n]; } else { assert grown[..n] == buf; }
    }
  }

  lemma {:induction false} SplitGroups(full: seq<Line> -> bool, buf: seq<Line>, lines: seq<Line>)
    requires NeverFullBefore(full, buf) && (buf != [] ==> !full(buf))
    ensures WellClosed(full, Split(full, buf, lines))
    decreases |lines|
  {
    if lines != [] {
      var grown := buf + [lines[0]];
      BufferGrows(full, buf, lines[0]);
      if full(grown) {
        SplitGroups(full, [], lines[1..]);
        CloseOneMore(full, grown, Split(full, [], lines[1..]));
      } else {
        SplitGroups(full, grown, lines[1..]);
      }
    }
  }

  /** The loop cuts as specified. */
  lemma SplitIsCut(full: seq<Line> -> bool, lines: seq<Line>)
    ensures IsCut(full, lines, Split(full, [], lines))
  {
    SplitContents(full, [], lines);
    SplitGroups(full, [], lines);
  }

  lemma {:induction false} SplitPeels(full: seq<Line> -> bool, buf: seq<Line>, tail: seq<Line>, rest: seq<Line>)
    requires tail != [] && NeverFullBefore(full, buf + tail)
    requires full(buf + tail) || rest == []
    ensures Split(full, buf, tail + rest) == [buf + tail] + Split(full, [], rest)
    decreases |tail|
  {
    var grown := buf + [tail[0]];
    assert (tail + rest)[1..] == tail[1..] + rest;
    if |tail| > 1 {
      assert grown == (buf + tail)[..|grown|];
      assert !full(grown);
      assert grown + tail[1..] == buf + tail;
      SplitPeels(full, grown, tail[1..], rest);
    } else {
      assert grown == buf + tail && (tail + rest)[1..] == rest;
      if !full(grown) {
        assert [grown] + Split(full, [], []) == [grown];
      }
    }
  }

  /** There is only one such cut, so the specification pins the export down. */
  lemma {:induction false} CutUnique(full: seq<Line> -> bool, lines: seq<Line>, groups: seq<seq<Line>>)
    requires IsCut(full, lines, groups)
    ensures groups == Split(full, [], lines)
    decreases |groups|
  {
    if groups != [] {
      var g, rest := groups[0], groups[1..];
      assert groups == [g] + rest;
      FlattenCons(g, rest);
      assert g in groups;
      forall h | h in rest ensures h in groups {}
      forall i | 0 <= i < |rest| - 1 ensures full(rest[i]) {
        assert rest[i] == groups[i + 1];
      }
      CutUnique(full, Flatten(rest), rest);
      assert [] + g == g;
      SplitPeels(full, [], g, Flatten(rest));
    }
  }

  /** Every flushed group is at most one line over: the rows fit the row limit, and the buffer
      without its last line is below the byte limit unless it is the bare header. */
  lemma GroupBounds(cut: Cut, g: seq<Line>)
    requires g != [] && NeverFullBefore(IsFull(cut), g)
    ensures |g| <= CHUNK_ROWS
    ensures cut.header + Bytes(g) <= Max(cut.limit, cut.header) + g[|g| - 1].bytes
  {
    if |g| > 1 {
      assert !Full(cut, g[..|g| - 1]);
    }
  }

  /** The loop ends with rows still buffered. */
  ghost predicate EndsOpen(full: seq<Line> -> bool, lines: seq<Line>) {
    var groups := Split(full, [], lines);
    groups != [] && !full(groups[|groups| - 1])
  }

  /** A single open group, hence a flat file, exactly when no limit was ever reached. */
  lemma FlatIffNeverFull(full: seq<Line> -> bool, lines: seq<Line>)
    requires lines != []
    ensures |Split(full, [], lines)| == 1 && EndsOpen(full, lines) <==> forall n :: 0 < n <= |lines| ==> !full(lines[..n])
  {
    var groups := Split(full, [], lines);
    SplitIsCut(full, lines);
    if |groups| == 1 && EndsOpen(full, lines) {
      assert groups == [groups[0]];
      FlattenOne(groups[0]);
      assert groups[0] == lines && groups[0] in groups;
      assert lines[..|lines|] == lines;
    }
    if forall n :: 0 < n <= |lines| ==> !full(lines[..n]) {
      assert [lines][..0] == [];
      assert lines[..|lines|] == lines;
      CutUnique(full, lines, [lines]);
    }
  }

  lemma {:induction false} BytesGrow(lines: seq<Line>, n: nat)
    requires n <= |lines|
    ensures Bytes(lines[..n]) <= Bytes(lines)
  {
    if n < |lines| {
      BytesGrow(lines[..|lines| - 1], n);
      assert lines[..|lines| - 1][..n] == lines[..n];
    } else {
      assert lines[..n] == lines;
    }
  }

  /** A flat file exactly when all the lines together stay below both limits. */
  lemma FlatIffBelowLimits(cut: Cut, lines: seq<Line>)
    requires lines != []
    ensures |Split(IsFull(cut), [], lines)| == 1 && EndsOpen(IsFull(cut), lines) <==> !Full(cut, lines)
  {
    FlatIffNeverFull(IsFull(cut), lines);
    assert lines[..|lines|] == lines;
    forall n | 0 < n <= |lines| ensures Full(cut, lines[..n]) ==> Full(cut, lines) {
      BytesGrow(lines, n);
    }
  }

  // ----- writing the files -----

  /** Where a flush goes: the first and only file is flat, the others are numbered chunks. */
  function FlushPath(date: string, chunk: nat, isFinal: bool): Path {
    if chunk == 0 && isFinal then File(date + EXT) else Chunk(date, ChunkName(chunk))
  }

  function PutFile(t: Tier, p: Path, rows: Rows): Tier {
    match p
    case File(n) => t.(files := t.files[n := rows])
    case Chunk(d, n) => t.(dirs := t.dirs[d := (if d in t.dirs then t.dirs[d] else map[])[n := rows]])
  }

  /** `groups` were flushed, numbered from 0; `open` says the last one was the final flush. */
  function PutGroups(t: Tier, date: string, groups: seq<Rows>, open: bool): Tier {
    if groups == [] then t
    else
      var n := |groups| - 1;
      PutFile(PutGroups(t, date, groups[..n], false), FlushPath(date, n, open), groups[n])
  }

  /** The chunk files of an earlier run are removed before exporting. */
  function ClearChunks(t: Tier, date: string): Tier {
    if date in t.dirs then t.(dirs := t.dirs[date := map[]]) else t
  }

  function DeleteChunk(t: Tier, date: string, name: string): Tier {
    if date in t.dirs then t.(dirs := t.dirs[date := t.dirs[date] - {name}]) else t
  }

  function DeleteAll(t: Tier, date: string, names: seq<string>): Tier {
    if names == [] then t else DeleteChunk(DeleteAll(t, date, names[..|names| - 1]), date, names[|names| - 1])
  }

  lemma {:induction false} DeleteAllIs(t: Tier, date: string, names: seq<string>)
    requires date in t.dirs
    ensures DeleteAll(t, date, names) == t.(dirs := t.dirs[date := t.dirs[date] - set n | n in names])
  {
    if names == [] {
      assert t.dirs[date] - (set n | n in names) == t.dirs[date];
      assert t.dirs[date := t.dirs[date]] == t.dirs;
    } else {
      var init, last := names[..|names| - 1], names[|names| - 1];
      DeleteAllIs(t, date, init);
      assert (set n | n in names) == (set n | n in init) + {last};
      assert t.dirs[date] - (set n | n in init) - {last} == t.dirs[date] - set n | n in names;
    }
  }

  lemma DeleteAllClears(t: Tier, date: string, names: seq<string>)
    requires date in t.dirs && forall n :: n in t.dirs[date] ==> n in names
    ensures DeleteAll(t, date, names) == ClearChunks(t, date)
  {
    DeleteAllIs(t, date, names);
    assert t.dirs[date] - (set n | n in names) == map[];
  }

  function GroupRows(groups: seq<seq<Line>>): (r: seq<Rows>)
    ensures |r| == |groups| && forall i :: 0 <= i < |r| ==> r[i] == RowsOf(groups[i])
  {
    seq(|groups|, i requires 0 <= i < |groups| => RowsOf(groups[i]))
  }

  /** An organisation's storage after its turn; one that already has its flat file is skipped. */
  ghost function Archived(t: Tier, date: string, cut: Cut, lines: seq<Line>): Tier {
    if date + EXT in t.files then t
    else PutGroups(ClearChunks(t, date), date, GroupRows(Split(IsFull(cut), [], lines)), EndsOpen(IsFull(cut), lines))
  }

  /** One organisation's storage during an uninterrupted export. */
  class OrgExport {
    var tree: Tier

    constructor (t: Tier)
      ensures tree == t
    {
      tree := t;
    }

    /** _flush_csv_to_parquet. */
    method Flush(date: string, chunk: nat, totalRows: nat, buf: seq<Line>, isFinal: bool) returns (nextChunk: nat, newTotal: nat)
      modifies this
      ensures tree == PutFile(old(tree), FlushPath(date, chunk, isFinal), RowsOf(buf))
      ensures nextChunk == if chunk == 0 && isFinal then chunk else chunk + 1
      ensures newTotal == totalRows + |buf|
    {
      nextChunk := chunk;
      if !(chunk == 0 && isFinal) {
        nextChunk := chunk + 1;
      }
      tree := PutFile(tree, FlushPath(date, chunk, isFinal), RowsOf(buf));
      newTotal := totalRows + |buf|;
    }

    /** Removes the partial chunks of a crashed run, one file at a time. */
    method DeleteChunks(date: string)
      modifies this
      ensures tree == ClearChunks(old(tree), date)
    {
      if date !in tree.dirs {
        return;
      }
      var names := Sorted(tree.dirs[date].Keys);
      for i := 0 to |names|
        invariant tree == DeleteAll(old(tree), date, names[..i])
      {
        assert names[..i + 1][..i] == names[..i];
        tree := DeleteChunk(tree, date, names[i]);
      }
      assert names[..|names|] == names;
      DeleteAllClears(old(tree), date, names);
    }

    /** The body of the per-organisation loop of archive_partition_per_org: an organisation that
        already has its flat file is skipped. */
    method ArchiveOrg(date: string, cut: Cut, lines: seq<Line>) returns (totalRows: nat)
      modifies this
      ensures tree == Archived(old(tree), date, cut, lines)
      ensures totalRows == if date + EXT in old(tree).files then 0 else |lines|
    {
      if date + EXT in tree.files {
        return 0;
      }
      DeleteChunks(date);
      totalRows := Stream(date, cut, lines);
    }

    /** A flush after the groups of `done`. */
    method FlushNext(date: string, chunk: nat, totalRows: nat, buf: seq<Line>, isFinal: bool, ghost t0: Tier, ghost done: seq<seq<Line>>)
      returns (nextChunk: nat, newTotal: nat)
      requires chunk == |done| && tree == PutGroups(t0, date, GroupRows(done), false)
      modifies this
      ensures tree == PutGroups(t0, date, GroupRows(done + [buf]), isFinal)
      ensures !isFinal ==> nextChunk == chunk + 1
      ensures newTotal == totalRows + |buf|
    {
      PutNext(t0, date, done, buf, isFinal);
      nextChunk, newTotal := Flush(date, chunk, totalRows, buf, isFinal);
    }

    method Stream(date: string, cut: Cut, lines: seq<Line>) returns (totalRows: nat)
      modifies this
      ensures tree == PutGroups(old(tree), date, GroupRows(Split(IsFull(cut), [], lines)), EndsOpen(IsFull(cut), lines))
      ensures totalRows == |lines|
    {
      var full := IsFull(cut);
      var chunk, buf := 0, [];
      totalRows := 0;
      ghost var t0, done: seq<seq<Line>> := tree, [];
      for i := 0 to |lines|
        invariant chunk == |done| && totalRows + |buf| == i
        invariant tree == PutGroups(t0, date, GroupRows(done), false)
        invariant StreamedUpTo(full, done, buf, lines, i)
      {
        StreamOn(full, done, buf, lines, i);
        buf := buf + [lines[i]];
        if full(buf) {
          chunk, totalRows := FlushNext(date, chunk, totalRows, buf, false, t0, done);
          done := done + [buf];
          buf := [];
        }
      }
      StreamEnd(full, done, buf);
      if buf != [] {
        chunk, totalRows := FlushNext(date, chunk, totalRows, buf, true, t0, done);
      }
    }
  }

  /** Mid-stream: every flushed group was full, the buffered one is not. */
  ghost predicate Halfway(full: seq<Line> -> bool, done: seq<seq<Line>>, buf: seq<Line>) {
    (done != [] ==> full(done[|done| - 1])) && (buf != [] ==> !full(buf))
  }

  /** What was flushed, and what will be from here, is the whole cut. */
  ghost predicate StreamedUpTo(full: seq<Line> -> bool, done: seq<seq<Line>>, buf: seq<Line>, lines: seq<Line>, i: nat) {
    i <= |lines| && done + Split(full, buf, lines[i..]) == Split(full, [], lines) && Halfway(full, done, buf)
  }

  lemma StreamOn(full: seq<Line> -> bool, done: seq<seq<Line>>, buf: seq<Line>, lines: seq<Line>, i: nat)
    requires i < |lines| && StreamedUpTo(full, done, buf, lines, i)
    ensures var grown := buf + [lines[i]];
            if full(grown) then StreamedUpTo(full, done + [grown], [], lines, i + 1) else StreamedUpTo(full, done, grown, lines, i + 1)
  {
    StreamStep(full, done, buf, lines[i..]);
    assert lines[i..][1..] == lines[i + 1..];
  }

  lemma Regroup<T>(xs: seq<T>, y: T, zs: seq<T>)
    ensures xs + [y] + zs == xs + ([y] + zs)
  {
  }

  lemma StreamStep(full: seq<Line> -> bool, done: seq<seq<Line>>, buf: seq<Line>, lines: seq<Line>)
    requires lines != [] && Halfway(full, done, buf)
    ensures var grown := buf + [lines[0]];
            if full(grown) then
              && Halfway(full, done + [grown], [])
              && done + [grown] + Split(full, [], lines[1..]) == done + Split(full, buf, lines)
            else
              && Halfway(full, done, grown)
              && done + Split(full, grown, lines[1..]) == done + Split(full, buf, lines)
  {
    var grown := buf + [lines[0]];
    Regroup(done, grown, Split(full, [], lines[1..]));
  }

  lemma StreamEnd(full: seq<Line> -> bool, done: seq<seq<Line>>, buf: seq<Line>)
    requires Halfway(full, done, buf)
    ensures var groups := done + Split(full, buf, []);
            && groups == (if buf == [] then done else done + [buf])
            && ((groups != [] && !full(groups[|groups| - 1])) <==> buf != [])
  {
    assert done + [] == done;
  }

  lemma PutNext(t: Tier, date: string, done: seq<seq<Line>>, buf: seq<Line>, open: bool)
    ensures PutGroups(t, date, GroupRows(done + [buf]), open)
            == PutFile(PutGroups(t, date, GroupRows(done), false), FlushPath(date, |done|, open), RowsOf(buf))
  {
    assert GroupRows(done + [buf])[..|done|] == GroupRows(done);
  }
}
