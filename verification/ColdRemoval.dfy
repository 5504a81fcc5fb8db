/** Project removal against enumeration: what a reader sees after the rewrite is what it saw
    before without the project's rows, unless an emptied file was hiding others. */
module ColdRemoval {
  import opened Names
  import opened Sequences
  import opened ColdListing
  import opened ColdRewrite

  const Everything: Path -> bool := p => true
  const EveryHour: HourPath -> bool := p => true

  // ----- visible rows, directory by directory -----

  function NamedRows(files: map<string, Rows>): string -> Rows {
    n => if n in files && IsParquet(n) then files[n] else []
  }

  function RowsOfFiles(files: map<string, Rows>): Rows {
    Gather(Sorted(files.Keys), NamedRows(files))
  }

  function DirRows(t: Tier): string -> Rows {
    d => if d in t.dirs && d + EXT !in t.files then RowsOfFiles(t.dirs[d]) else []
  }

  lemma FilePieceRows(t: Tier, n: string)
    requires n in t.files
    ensures NamedRows(t.files)(n) == Gather(FilePiece(All)(n), RowsIn(t))
  {
    GatherOne(File(n), RowsIn(t));
  }

  lemma ChunkRows(t: Tier, d: string)
    requires d in t.dirs
    ensures Gather(ChunkPaths(d, t.dirs[d]), RowsIn(t)) == RowsOfFiles(t.dirs[d])
  {
    var names := Sorted(t.dirs[d].Keys);
    forall n | n in names ensures NamedRows(t.dirs[d])(n) == Gather(ChunkPiece(d)(n), RowsIn(t)) {
      GatherOne(Chunk(d, n), RowsIn(t));
    }
    GatherGather(names, ChunkPiece(d), RowsIn(t), NamedRows(t.dirs[d]));
  }

  lemma DirPieceRows(t: Tier, d: string)
    ensures DirRows(t)(d) == Gather(DirPiece(t, All)(d), RowsIn(t))
  {
    if d in t.dirs { ChunkRows(t, d); }
  }

  lemma VisibleSplit(t: Tier)
    ensures VisibleRows(t, All) == RowsOfFiles(t.files) + Gather(Sorted(t.dirs.Keys), DirRows(t))
  {
    var files, dirs := Sorted(t.files.Keys), Sorted(t.dirs.Keys);
    GatherAppend(Gather(files, FilePiece(All)), Gather(dirs, DirPiece(t, All)), RowsIn(t));
    forall n | n in files { FilePieceRows(t, n); }
    GatherGather(files, FilePiece(All), RowsIn(t), NamedRows(t.files));
    forall d | d in dirs { DirPieceRows(t, d); }
    GatherGather(dirs, DirPiece(t, All), RowsIn(t), DirRows(t));
  }

  // ----- the purge of one directory -----

  function PurgeFiles(files: map<string, Rows>, keep: Row -> bool): map<string, Rows> {
    map n | n in files && !(IsParquet(n) && Keep(files[n], keep) == []) ::
      if IsParquet(n) then Keep(files[n], keep) else files[n]
  }

  /** Names whose rows are gone drop out of the sorted listing without disturbing the rest. */
  lemma SortedSubset<B>(a: set<string>, b: set<string>, f: string -> seq<B>)
    requires a <= b && forall x :: x in b - a ==> f(x) == []
    ensures Gather(Sorted(a), f) == Gather(Sorted(b), f)
  {
    var isIn := x => x in a;
    var kept := Keep(Sorted(b), isIn);
    SortedAscends(a);
    SortedAscends(b);
    KeepAscends(Sorted(b), isIn);
    forall x ensures x in kept <==> x in Sorted(a) { KeepMember(Sorted(b), isIn, x); }
    SameMembersSameLength(kept, Sorted(a));
    AscendingUnique(kept, Sorted(a));
    KeepGathers(Sorted(b), isIn, f);
  }

  lemma {:induction false} KeepAscends(xs: seq<string>, p: string -> bool)
    requires Ascending(xs)
    ensures Ascending(Keep(xs, p))
  {
    if xs != [] {
      var init, last := xs[..|xs| - 1], xs[|xs| - 1];
      KeepAscends(init, p);
      var k := Keep(init, p);
      forall i | 0 <= i < |k| ensures Lt(k[i], last) {
        KeepMember(init, p, k[i]);
        assert k[i] in k;
        var j :| 0 <= j < |init| && init[j] == k[i];
      }
    }
  }

  lemma SameMembersSameLength(a: seq<string>, b: seq<string>)
    requires Ascending(a) && Ascending(b) && forall x :: x in a <==> x in b
    ensures |a| == |b|
  {
    DistinctCard(a);
    DistinctCard(b);
    assert (set x | x in a) == (set x | x in b);
  }

  lemma {:induction false} DistinctCard(a: seq<string>)
    requires Ascending(a)
    ensures |set x | x in a| == |a|
  {
    if a != [] {
      var init, last := a[..|a| - 1], a[|a| - 1];
      DistinctCard(init);
      assert last !in init;
      assert (set x | x in a) == (set x | x in init) + {last};
    }
  }

  lemma {:induction false} KeepGathers<B>(xs: seq<string>, p: string -> bool, f: string -> seq<B>)
    requires forall x :: x in xs && !p(x) ==> f(x) == []
    ensures Gather(Keep(xs, p), f) == Gather(xs, f)
  {
    if xs != [] {
      var init, last := xs[..|xs| - 1], xs[|xs| - 1];
      assert forall x :: x in init ==> x in xs;
      KeepGathers(init, p, f);
      GatherAppend(Keep(init, p), if p(last) then [last] else [], f);
      GatherOne(last, f);
    }
  }

  lemma FilesCommute(files: map<string, Rows>, keep: Row -> bool)
    ensures RowsOfFiles(PurgeFiles(files, keep)) == Keep(RowsOfFiles(files), keep)
  {
    var after := PurgeFiles(files, keep);
    SortedSubset(after.Keys, files.Keys, NamedRows(after));
    KeepGather(Sorted(files.Keys), NamedRows(files), keep, NamedRows(after));
  }

  // ----- the flat layout -----

  /** The date's flat file loses every row while its directory still holds chunk rows. */
  predicate DirReexposes(t: Tier, keep: Row -> bool, d: string) {
    d in t.dirs && d + EXT in t.files && Keep(t.files[d + EXT], keep) == [] && RowsOfFiles(t.dirs[d]) != []
  }

  ghost predicate Reexposes(t: Tier, keep: Row -> bool) {
    exists d :: d in t.dirs && DirReexposes(t, keep, d)
  }

  lemma PurgedShape(t: Tier, keep: Row -> bool)
    ensures Purged(t, keep, Everything).files == PurgeFiles(t.files, keep)
    ensures Purged(t, keep, Everything).dirs.Keys == t.dirs.Keys
  {
  }

  lemma PurgedDir(t: Tier, keep: Row -> bool, d: string)
    requires d in t.dirs
    ensures Purged(t, keep, Everything).dirs[d] == if d + EXT in t.files then t.dirs[d] else PurgeFiles(t.dirs[d], keep)
  {
  }

  lemma PurgedDirRows(t: Tier, keep: Row -> bool, d: string)
    requires d in t.dirs
    ensures DirRows(Purged(t, keep, Everything))(d)
            == if d + EXT in t.files && Keep(t.files[d + EXT], keep) == [] then RowsOfFiles(t.dirs[d])
               else Keep(DirRows(t)(d), keep)
  {
    PurgedShape(t, keep);
    PurgedDir(t, keep, d);
    StemExt(d, d + EXT);
    FilesCommute(t.dirs[d], keep);
  }

  function KeptDirRows(t: Tier, keep: Row -> bool): string -> Rows {
    d => Keep(DirRows(t)(d), keep)
  }

  lemma KeptDirRowsAt(t: Tier, keep: Row -> bool, d: string)
    ensures KeptDirRows(t, keep)(d) == Keep(DirRows(t)(d), keep)
    ensures d + EXT in t.files ==> KeptDirRows(t, keep)(d) == []
  {
    assert Keep<Row>([], keep) == [];
  }

  lemma FilteredSplit(t: Tier, keep: Row -> bool)
    ensures Keep(VisibleRows(t, All), keep)
            == RowsOfFiles(PurgeFiles(t.files, keep)) + Gather(Sorted(t.dirs.Keys), KeptDirRows(t, keep))
  {
    VisibleSplit(t);
    KeepAppend(RowsOfFiles(t.files), Gather(Sorted(t.dirs.Keys), DirRows(t)), keep);
    FilesCommute(t.files, keep);
    KeepGather(Sorted(t.dirs.Keys), DirRows(t), keep, KeptDirRows(t, keep));
  }

  lemma PurgedSplit(t: Tier, keep: Row -> bool)
    ensures VisibleRows(Purged(t, keep, Everything), All)
            == RowsOfFiles(PurgeFiles(t.files, keep)) + Gather(Sorted(t.dirs.Keys), DirRows(Purged(t, keep, Everything)))
  {
    VisibleSplit(Purged(t, keep, Everything));
    PurgedShape(t, keep);
  }

  lemma DirCompare(t: Tier, keep: Row -> bool, d: string)
    requires d in t.dirs
    ensures var before, after := KeptDirRows(t, keep)(d), DirRows(Purged(t, keep, Everything))(d);
            if DirReexposes(t, keep, d) then |before| < |after| else before == after
  {
    KeptDirRowsAt(t, keep, d);
    PurgedDirRows(t, keep, d);
  }

  lemma DirsCompare(t: Tier, keep: Row -> bool)
    ensures var before, after := Gather(Sorted(t.dirs.Keys), KeptDirRows(t, keep)),
                                 Gather(Sorted(t.dirs.Keys), DirRows(Purged(t, keep, Everything)));
            if Reexposes(t, keep) then |before| < |after| else before == after
  {
    var f, g := KeptDirRows(t, keep), DirRows(Purged(t, keep, Everything));
    var more := d => DirReexposes(t, keep, d);
    forall d | d in Sorted(t.dirs.Keys) ensures if more(d) then |f(d)| < |g(d)| else f(d) == g(d) {
      DirCompare(t, keep, d);
    }
    GatherCompare(Sorted(t.dirs.Keys), f, g, more);
    assert Reexposes(t, keep) <==> exists d :: d in Sorted(t.dirs.Keys) && more(d);
  }

  /** After the rewrite the visible rows are the earlier ones without the project's, in the same
      order, exactly when no emptied flat file was shadowing leftover chunks; otherwise there are
      strictly more. */
  lemma RemovalCommutes(t: Tier, keep: Row -> bool)
    ensures VisibleRows(Purged(t, keep, Everything), All) == Keep(VisibleRows(t, All), keep) <==> !Reexposes(t, keep)
    ensures Reexposes(t, keep) ==> |VisibleRows(Purged(t, keep, Everything), All)| > |Keep(VisibleRows(t, All), keep)|
    ensures |VisibleRows(Purged(t, keep, Everything), All)| >= |Keep(VisibleRows(t, All), keep)|
  {
    FilteredSplit(t, keep);
    PurgedSplit(t, keep);
    DirsCompare(t, keep);
  }

  /** A day sealed with only the deleted project's rows, above a leftover chunk of the same
      project: the rewrite brings that project's row back. */
  lemma RemovalBringsRowsBack()
    ensures var gone := (r: Row) => r.owner != 7;
            var t := Tier(map["20260115.parquet" := [Row(1, 7)]],
                          map["20260115" := map["chunk_000.parquet" := [Row(2, 7)]]]);
            Reexposes(t, gone) && VisibleRows(Purged(t, gone, Everything), All) != []
  {
    var gone := (r: Row) => r.owner != 7;
    var flat, left := [Row(1, 7)], [Row(2, 7)];
    var chunks := map["chunk_000.parquet" := left];
    var t := Tier(map["20260115.parquet" := flat], map["20260115" := chunks]);
    assert "20260115" + EXT == "20260115.parquet";
    KeepOne(Row(1, 7), gone);
    assert IsParquet("chunk_000.parquet");
    GatherMember(Sorted(chunks.Keys), NamedRows(chunks), Row(2, 7));
    assert "chunk_000.parquet" in Sorted(chunks.Keys) && Row(2, 7) in NamedRows(chunks)("chunk_000.parquet");
    assert DirReexposes(t, gone, "20260115");
    RemovalCommutes(t, gone);
  }

  // ----- the hour-tiered layout -----

  function DateRows(t: HourTree): string -> Rows {
    d => if d in t.dates && d + EXT !in t.days then VisibleRows(t.dates[d], All) else []
  }

  lemma UnderRows(t: HourTree, d: string, paths: seq<Path>)
    requires d in t.dates
    ensures Gather(Under(d, paths), HourRowsIn(t)) == Gather(paths, RowsIn(t.dates[d]))
  {
    forall q | q in paths ensures RowsIn(t.dates[d])(q) == Gather(HourPiece(d)(q), HourRowsIn(t)) {
      GatherOne(Hour(d, q), HourRowsIn(t));
    }
    GatherGather(paths, HourPiece(d), HourRowsIn(t), RowsIn(t.dates[d]));
  }

  lemma DatePieceRows(t: HourTree, d: string)
    ensures DateRows(t)(d) == Gather(DatePiece(t, All)(d), HourRowsIn(t))
  {
    if d in t.dates { UnderRows(t, d, Listing(t.dates[d], All)); }
  }

  lemma DayPieceRows(t: HourTree, n: string)
    requires n in t.days
    ensures NamedRows(t.days)(n) == Gather(DayPiece(All)(n), HourRowsIn(t))
  {
    GatherOne(Day(n), HourRowsIn(t));
  }

  lemma HourVisibleSplit(t: HourTree)
    ensures HourVisibleRows(t, All) == RowsOfFiles(t.days) + Gather(Sorted(t.dates.Keys), DateRows(t))
  {
    var days, dates := Sorted(t.days.Keys), Sorted(t.dates.Keys);
    GatherAppend(Gather(days, DayPiece(All)), Gather(dates, DatePiece(t, All)), HourRowsIn(t));
    forall n | n in days { DayPieceRows(t, n); }
    GatherGather(days, DayPiece(All), HourRowsIn(t), NamedRows(t.days));
    forall d | d in dates { DatePieceRows(t, d); }
    GatherGather(dates, DatePiece(t, All), HourRowsIn(t), DateRows(t));
  }

  /** A sealed day loses every row while its date directory still shows rows, or inside an open
      date some sealed hour does. */
  ghost predicate DateReexposes(t: HourTree, keep: Row -> bool, d: string) {
    d in t.dates &&
    if d + EXT in t.days then Keep(t.days[d + EXT], keep) == [] && VisibleRows(t.dates[d], All) != []
    else Reexposes(t.dates[d], keep)
  }

  ghost predicate HourReexposes(t: HourTree, keep: Row -> bool) {
    exists d :: d in t.dates && DateReexposes(t, keep, d)
  }

  lemma HourPurgedShape(t: HourTree, keep: Row -> bool)
    ensures HourPurged(t, keep, EveryHour).days == PurgeFiles(t.days, keep)
    ensures HourPurged(t, keep, EveryHour).dates.Keys == t.dates.Keys
  {
  }

  lemma PurgedTier(t: Tier, keep: Row -> bool, d: string)
    ensures Purged(t, keep, ReadableIn(d, EveryHour)) == Purged(t, keep, Everything)
  {
    var a, b := Purged(t, keep, ReadableIn(d, EveryHour)), Purged(t, keep, Everything);
    forall p ensures Present(a, p) <==> Present(b, p)
             ensures RowsAt(a, p) == RowsAt(b, p)
    {
      PurgedAt(t, p, keep, ReadableIn(d, EveryHour));
      PurgedAt(t, p, keep, Everything);
    }
    TierExtensional(a, b);
  }

  function KeptDateRows(t: HourTree, keep: Row -> bool): string -> Rows {
    d => Keep(DateRows(t)(d), keep)
  }

  lemma SealedDateRows(t: HourTree, keep: Row -> bool, d: string)
    requires d in t.dates && d + EXT in t.days
    ensures DateRows(t)(d) == [] && KeptDateRows(t, keep)(d) == []
    ensures DateRows(HourPurged(t, keep, EveryHour))(d)
            == if Keep(t.days[d + EXT], keep) == [] then VisibleRows(t.dates[d], All) else []
  {
    assert DateRows(t)(d) == [] && Keep<Row>([], keep) == [];
    HourPurgedShape(t, keep);
    StemExt(d, d + EXT);
    assert HourPurged(t, keep, EveryHour).dates[d] == DatePurged(t, d, keep, EveryHour) == t.dates[d];
  }

  lemma OpenDatePurged(t: HourTree, keep: Row -> bool, d: string)
    requires d in t.dates && d + EXT !in t.days
    ensures d in HourPurged(t, keep, EveryHour).dates && d + EXT !in HourPurged(t, keep, EveryHour).days
    ensures HourPurged(t, keep, EveryHour).dates[d] == Purged(t.dates[d], keep, Everything)
  {
    PurgedTier(t.dates[d], keep, d);
    assert HourPurged(t, keep, EveryHour).dates[d] == DatePurged(t, d, keep, EveryHour);
  }

  lemma OpenDateRows(t: HourTree, keep: Row -> bool, d: string)
    requires d in t.dates && d + EXT !in t.days
    ensures KeptDateRows(t, keep)(d) == Keep(VisibleRows(t.dates[d], All), keep)
    ensures DateRows(HourPurged(t, keep, EveryHour))(d) == VisibleRows(Purged(t.dates[d], keep, Everything), All)
  {
    OpenDatePurged(t, keep, d);
    assert DateRows(t)(d) == VisibleRows(t.dates[d], All);
  }

  lemma DateCompare(t: HourTree, keep: Row -> bool, d: string)
    requires d in t.dates
    ensures var before, after := KeptDateRows(t, keep)(d), DateRows(HourPurged(t, keep, EveryHour))(d);
            if DateReexposes(t, keep, d) then |before| < |after| else before == after
  {
    if d + EXT in t.days {
      SealedDateRows(t, keep, d);
    } else {
      OpenDateRows(t, keep, d);
      RemovalCommutes(t.dates[d], keep);
    }
  }

  lemma DatesCompare(t: HourTree, keep: Row -> bool)
    ensures var before, after := Gather(Sorted(t.dates.Keys), KeptDateRows(t, keep)),
                                 Gather(Sorted(t.dates.Keys), DateRows(HourPurged(t, keep, EveryHour)));
            if HourReexposes(t, keep) then |before| < |after| else before == after
  {
    var f, g := KeptDateRows(t, keep), DateRows(HourPurged(t, keep, EveryHour));
    ghost var more := d => DateReexposes(t, keep, d);
    forall d | d in Sorted(t.dates.Keys) ensures if more(d) then |f(d)| < |g(d)| else f(d) == g(d) {
      DateCompare(t, keep, d);
    }
    GatherCompare(Sorted(t.dates.Keys), f, g, more);
    assert HourReexposes(t, keep) <==> exists d :: d in Sorted(t.dates.Keys) && more(d);
  }

  lemma HourFilteredSplit(t: HourTree, keep: Row -> bool)
    ensures Keep(HourVisibleRows(t, All), keep)
            == RowsOfFiles(PurgeFiles(t.days, keep)) + Gather(Sorted(t.dates.Keys), KeptDateRows(t, keep))
  {
    HourVisibleSplit(t);
    KeepAppend(RowsOfFiles(t.days), Gather(Sorted(t.dates.Keys), DateRows(t)), keep);
    FilesCommute(t.days, keep);
    KeepGather(Sorted(t.dates.Keys), DateRows(t), keep, KeptDateRows(t, keep));
  }

  /** The same law for the hour-tiered layout, where sealed days shadow dates and sealed hours
      shadow chunks. */
  lemma HourRemovalCommutes(t: HourTree, keep: Row -> bool)
    ensures HourVisibleRows(HourPurged(t, keep, EveryHour), All) == Keep(HourVisibleRows(t, All), keep)
            <==> !HourReexposes(t, keep)
    ensures HourReexposes(t, keep) ==> |HourVisibleRows(HourPurged(t, keep, EveryHour), All)| > |Keep(HourVisibleRows(t, All), keep)|
    ensures |HourVisibleRows(HourPurged(t, keep, EveryHour), All)| >= |Keep(HourVisibleRows(t, All), keep)|
  {
    HourFilteredSplit(t, keep);
    HourVisibleSplit(HourPurged(t, keep, EveryHour));
    HourPurgedShape(t, keep);
    DatesCompare(t, keep);
  }
}
