/** The cold-storage tree of one organisation and the two file enumerators that readers use. */
module ColdListing {
  import opened Names
  import opened Sequences

  /** One archived row: its UUIDv7 id as a number, and the project (logs, spans) or issue
      (issue events) that a later deletion may single out. */
  datatype Row = Row(id: nat, owner: int)

  type Rows = seq<Row>

  /** Flat layout: `{date}.parquet` files beside `{date}/chunk_*.parquet` directories. The
      hour-tiered layout has the same shape inside each date: `{HH}.parquet` beside `{HH}/`. */
  datatype Tier = Tier(files: map<string, Rows>, dirs: map<string, map<string, Rows>>)

  datatype Path = File(name: string) | Chunk(dir: string, name: string)

  /** Hour-tiered layout: sealed days beside one Tier per open date. */
  datatype HourTree = HourTree(days: map<string, Rows>, dates: map<string, Tier>)

  datatype HourPath = Day(name: string) | Hour(date: string, path: Path)

  const EXT := ".parquet"
  const DAY_MS := 86_400_000

  predicate IsParquet(f: string) {
    |f| >= |EXT| && f[|f| - |EXT|..] == EXT
  }

  /** `f.removesuffix(".parquet")`. */
  function Stem(f: string): string {
    if IsParquet(f) then f[..|f| - |EXT|] else f
  }

  lemma StemExt(d: string, f: string)
    ensures IsParquet(d + EXT) && Stem(d + EXT) == d
    ensures IsParquet(f) && Stem(f) == d <==> f == d + EXT
  {
    assert (d + EXT)[|d|..] == EXT && (d + EXT)[..|d|] == d;
    if IsParquet(f) && Stem(f) == d {
      assert f == f[..|f| - |EXT|] + f[|f| - |EXT|..];
    }
  }

  /** Does the named day overlap [start, end)? `parse` is strptime to milliseconds; a name it
      cannot read is kept. */
  predicate DateInRange(date: string, start: int, end: int, parse: string -> Option<int>) {
    var day := parse(date);
    day.None? || (day.value < end && day.value + DAY_MS > start)
  }

  /** The filter applies only when both ends are given. */
  predicate Wanted(date: string, start: Option<int>, end: Option<int>, parse: string -> Option<int>) {
    start.None? || end.None? || DateInRange(date, start.value, end.value, parse)
  }

  function InWindow(start: int, end: int, parse: string -> Option<int>): string -> bool {
    d => Wanted(d, Some(start), Some(end), parse)
  }

  // ----- what each enumerator returns -----

  function FilePiece(keep: string -> bool): string -> seq<Path> {
    f => if IsParquet(f) && keep(Stem(f)) then [File(f)] else []
  }

  function ChunkPiece(dir: string): string -> seq<Path> {
    f => if IsParquet(f) then [Chunk(dir, f)] else []
  }

  function ChunkPaths(dir: string, files: map<string, Rows>): seq<Path> {
    Gather(Sorted(files.Keys), ChunkPiece(dir))
  }

  /** A kept flat file of this stem shadows the directory of the same name. */
  predicate Shadowed(files: map<string, Rows>, d: string, keep: string -> bool) {
    d + EXT in files && keep(d)
  }

  function DirPiece(t: Tier, keep: string -> bool): string -> seq<Path> {
    d => if d in t.dirs && !Shadowed(t.files, d, keep) && keep(d) then ChunkPaths(d, t.dirs[d]) else []
  }

  function Listing(t: Tier, keep: string -> bool): seq<Path> {
    Gather(Sorted(t.files.Keys), FilePiece(keep)) + Gather(Sorted(t.dirs.Keys), DirPiece(t, keep))
  }

  function DayPiece(keep: string -> bool): string -> seq<HourPath> {
    f => if IsParquet(f) && keep(Stem(f)) then [Day(f)] else []
  }

  function HourPiece(date: string): Path -> seq<HourPath> {
    p => [Hour(date, p)]
  }

  function Under(date: string, paths: seq<Path>): seq<HourPath> {
    Gather(paths, HourPiece(date))
  }

  function DatePiece(t: HourTree, keep: string -> bool): string -> seq<HourPath> {
    d => if d in t.dates && !Shadowed(t.days, d, keep) && keep(d) then Under(d, Listing(t.dates[d], All)) else []
  }

  function HourListing(t: HourTree, keep: string -> bool): seq<HourPath> {
    Gather(Sorted(t.days.Keys), DayPiece(keep)) + Gather(Sorted(t.dates.Keys), DatePiece(t, keep))
  }

  const All: string -> bool := d => true

  /** The stems of the kept flat files: `compacted_dates`, `rolled`, `sealed_hours`. */
  function StemPiece(keep: string -> bool): string -> seq<string> {
    f => if IsParquet(f) && keep(Stem(f)) then [Stem(f)] else []
  }

  function KeptStems(files: map<string, Rows>, keep: string -> bool): seq<string> {
    Gather(Sorted(files.Keys), StemPiece(keep))
  }

  lemma KeptStem(files: map<string, Rows>, keep: string -> bool, d: string)
    ensures d in KeptStems(files, keep) <==> Shadowed(files, d, keep)
  {
    GatherMember(Sorted(files.Keys), StemPiece(keep), d);
    StemExt(d, d + EXT);
    if d in KeptStems(files, keep) {
      var f :| f in Sorted(files.Keys) && d in StemPiece(keep)(f);
      StemExt(d, f);
    }
  }

  // ----- the enumerators, as the loops that append to `paths` -----

  /** A directory that cannot be listed shows nothing. */
  function Unlisted(t: Tier, failing: set<string>): Tier {
    t.(dirs := map d | d in t.dirs :: if d in failing then map[] else t.dirs[d])
  }

  function HourUnlisted(t: HourTree, failing: set<string>, within: map<string, set<string>>): HourTree {
    t.(dates := map d | d in t.dates ::
         if d in failing then Tier(map[], map[]) else Unlisted(t.dates[d], FailingIn(within, d)))
  }

  function FailingIn(within: map<string, set<string>>, d: string): set<string> {
    if d in within then within[d] else {}
  }

  /** u is t as a reader sees it whose listing of some date directories fails. */
  ghost predicate SeenAs(t: Tier, failing: set<string>, u: Tier) {
    && u.files == t.files && u.dirs.Keys == t.dirs.Keys
    && forall d :: d in t.dirs ==> u.dirs[d] == if d in failing then map[] else t.dirs[d]
  }

  lemma UnlistedSeen(t: Tier, failing: set<string>)
    ensures SeenAs(t, failing, Unlisted(t, failing))
  {
  }

  /** enumerate_org_parquet_files. `None` is a failed listing of the organisation's directory;
      `failing` are the date directories whose own listing fails, which are skipped. */
  method EnumerateOrg(dir: Option<Tier>, keep: string -> bool, failing: set<string>) returns (paths: seq<Path>)
    ensures paths == if dir.None? then [] else Listing(Unlisted(dir.value, failing), keep)
  {
    if dir.None? {
      return [];
    }
    UnlistedSeen(dir.value, failing);
    paths := EnumerateTier(dir.value, keep, failing, Unlisted(dir.value, failing));
  }

  method EnumerateTier(t: Tier, keep: string -> bool, failing: set<string>, ghost u: Tier) returns (paths: seq<Path>)
    requires SeenAs(t, failing, u)
    ensures paths == Listing(u, keep)
  {
    var compacted;
    paths, compacted := EnumerateFiles(t.files, keep);
    var chunks := EnumerateDirs(t, keep, compacted, failing, u);
    paths := paths + chunks;
  }

  /** The loop over subdirectories: skips dates a flat file shadows, dates out of range and
      directories that cannot be listed. */
  method EnumerateDirs(t: Tier, keep: string -> bool, compacted: set<string>, failing: set<string>, ghost u: Tier)
    returns (paths: seq<Path>)
    requires SeenAs(t, failing, u) && forall d :: d in compacted <==> d in KeptStems(t.files, keep)
    ensures paths == Gather(Sorted(u.dirs.Keys), DirPiece(u, keep))
  {
    paths := [];
    var subdirs := Sorted(t.dirs.Keys);
    for i := 0 to |subdirs|
      invariant paths == Gather(subdirs[..i], DirPiece(u, keep))
    {
      GatherStep(subdirs, DirPiece(u, keep), i);
      var chunks := EnumerateDir(t, keep, compacted, failing, subdirs[i], u);
      paths := paths + chunks;
    }
    assert subdirs[..|subdirs|] == subdirs;
  }

  method EnumerateDir(t: Tier, keep: string -> bool, compacted: set<string>, failing: set<string>, d: string, ghost u: Tier)
    returns (paths: seq<Path>)
    requires d in t.dirs && SeenAs(t, failing, u)
    requires forall d :: d in compacted <==> d in KeptStems(t.files, keep)
    ensures paths == DirPiece(u, keep)(d)
  {
    KeptStem(t.files, keep, d);
    if d in compacted || !keep(d) {
      return [];
    }
    if d in failing {
      NothingListed(d);
      return [];
    }
    paths := EnumerateChunks(d, t.dirs[d]);
  }

  lemma NothingListed(d: string)
    ensures ChunkPaths(d, map[]) == []
  {
    SortedAscends({});
    assert Sorted({}) == [];
  }

  /** The loop over flat files: appends their paths and collects the dates they shadow. */
  method EnumerateFiles(files: map<string, Rows>, keep: string -> bool)
    returns (paths: seq<Path>, compacted: set<string>)
    ensures paths == Gather(Sorted(files.Keys), FilePiece(keep))
    ensures forall d :: d in compacted <==> d in KeptStems(files, keep)
  {
    paths, compacted := [], {};
    var flat := Sorted(files.Keys);
    for i := 0 to |flat|
      invariant paths == Gather(flat[..i], FilePiece(keep))
      invariant forall d :: d in compacted <==> d in Gather(flat[..i], StemPiece(keep))
    {
      GatherStep(flat, FilePiece(keep), i);
      GatherStep(flat, StemPiece(keep), i);
      if IsParquet(flat[i]) && keep(Stem(flat[i])) {
        paths := paths + [File(flat[i])];
        compacted := compacted + {Stem(flat[i])};
      }
    }
    assert flat[..|flat|] == flat;
  }

  /** The loop over one directory's chunk files. */
  method EnumerateChunks(dir: string, files: map<string, Rows>) returns (paths: seq<Path>)
    ensures paths == ChunkPaths(dir, files)
  {
    paths := [];
    var names := Sorted(files.Keys);
    for i := 0 to |names|
      invariant paths == Gather(names[..i], ChunkPiece(dir))
    {
      GatherStep(names, ChunkPiece(dir), i);
      if IsParquet(names[i]) {
        paths := paths + [Chunk(dir, names[i])];
      }
    }
    assert names[..|names|] == names;
  }

  ghost predicate HourSeenAs(t: HourTree, failing: set<string>, within: map<string, set<string>>, u: HourTree) {
    && u.days == t.days && u.dates.Keys == t.dates.Keys
    && forall d :: d in t.dates ==>
         if d in failing then u.dates[d] == Tier(map[], map[]) else SeenAs(t.dates[d], FailingIn(within, d), u.dates[d])
  }

  lemma HourUnlistedSeen(t: HourTree, failing: set<string>, within: map<string, set<string>>)
    ensures HourSeenAs(t, failing, within, HourUnlisted(t, failing, within))
  {
    forall d | d in t.dates { UnlistedSeen(t.dates[d], FailingIn(within, d)); }
  }

  /** enumerate_hour_tiered_files. Inside one date, sealed hours shadow hour directories exactly
      as flat days shadow date directories in the flat layout. `failing` are the date directories
      that cannot be listed, `within` the hour directories. */
  method EnumerateHours(dir: Option<HourTree>, keep: string -> bool, failing: set<string>, within: map<string, set<string>>)
    returns (paths: seq<HourPath>)
    ensures paths == if dir.None? then [] else HourListing(HourUnlisted(dir.value, failing, within), keep)
  {
    if dir.None? {
      return [];
    }
    HourUnlistedSeen(dir.value, failing, within);
    paths := EnumerateTree(dir.value, keep, failing, within, HourUnlisted(dir.value, failing, within));
  }

  method EnumerateTree(t: HourTree, keep: string -> bool, failing: set<string>, within: map<string, set<string>>, ghost u: HourTree)
    returns (paths: seq<HourPath>)
    requires HourSeenAs(t, failing, within, u)
    ensures paths == HourListing(u, keep)
  {
    var rolled;
    paths, rolled := EnumerateDays(t.days, keep);
    var dates := EnumerateDates(t, keep, rolled, failing, within, u);
    paths := paths + dates;
  }

  method EnumerateDays(files: map<string, Rows>, keep: string -> bool) returns (paths: seq<HourPath>, rolled: set<string>)
    ensures paths == Gather(Sorted(files.Keys), DayPiece(keep))
    ensures StemsAre(rolled, files, keep)
  {
    paths, rolled := [], {};
    var days := Sorted(files.Keys);
    for i := 0 to |days|
      invariant paths == Gather(days[..i], DayPiece(keep))
      invariant forall d :: d in rolled <==> d in Gather(days[..i], StemPiece(keep))
    {
      GatherStep(days, DayPiece(keep), i);
      GatherStep(days, StemPiece(keep), i);
      if IsParquet(days[i]) && keep(Stem(days[i])) {
        paths := paths + [Day(days[i])];
        rolled := rolled + {Stem(days[i])};
      }
    }
    assert days[..|days|] == days;
  }

  ghost predicate StemsAre(rolled: set<string>, files: map<string, Rows>, keep: string -> bool) {
    forall d :: d in rolled <==> d in KeptStems(files, keep)
  }

  /** The loop has taken these dates. */
  ghost predicate DatesTaken(u: HourTree, keep: string -> bool, dates: seq<string>, i: nat, paths: seq<HourPath>)
    requires i <= |dates|
  {
    paths == Gather(dates[..i], DatePiece(u, keep))
  }

  lemma DateTaken(u: HourTree, keep: string -> bool, dates: seq<string>, i: nat, paths: seq<HourPath>, hours: seq<HourPath>)
    requires i < |dates| && DatesTaken(u, keep, dates, i, paths) && hours == DatePiece(u, keep)(dates[i])
    ensures DatesTaken(u, keep, dates, i + 1, paths + hours)
  {
    GatherStep(dates, DatePiece(u, keep), i);
  }

  method EnumerateDates(t: HourTree, keep: string -> bool, rolled: set<string>, failing: set<string>,
                        within: map<string, set<string>>, ghost u: HourTree)
    returns (paths: seq<HourPath>)
    requires HourSeenAs(t, failing, within, u) && StemsAre(rolled, t.days, keep)
    ensures paths == Gather(Sorted(u.dates.Keys), DatePiece(u, keep))
  {
    paths := [];
    var dates := Sorted(t.dates.Keys);
    SameDateNames(t, failing, within, u);
    for i := 0 to |dates|
      invariant DatesTaken(u, keep, dates, i, paths)
    {
      var hours := EnumerateDate(t, keep, rolled, failing, within, dates[i], u);
      DateTaken(u, keep, dates, i, paths, hours);
      paths := paths + hours;
    }
    AllDatesTaken(u, keep, dates, paths);
  }

  lemma AllDatesTaken(u: HourTree, keep: string -> bool, dates: seq<string>, paths: seq<HourPath>)
    requires DatesTaken(u, keep, dates, |dates|, paths)
    ensures paths == Gather(dates, DatePiece(u, keep))
  {
    assert dates[..|dates|] == dates;
  }

  lemma SameDateNames(t: HourTree, failing: set<string>, within: map<string, set<string>>, u: HourTree)
    requires HourSeenAs(t, failing, within, u)
    ensures Sorted(u.dates.Keys) == Sorted(t.dates.Keys) && forall i :: 0 <= i < |Sorted(t.dates.Keys)| ==> Sorted(t.dates.Keys)[i] in t.dates
  {
    forall i | 0 <= i < |Sorted(t.dates.Keys)| ensures Sorted(t.dates.Keys)[i] in t.dates {
      assert Sorted(t.dates.Keys)[i] in Sorted(t.dates.Keys);
    }
  }

  method EnumerateDate(t: HourTree, keep: string -> bool, rolled: set<string>, failing: set<string>,
                       within: map<string, set<string>>, d: string, ghost u: HourTree)
    returns (paths: seq<HourPath>)
    requires d in t.dates && HourSeenAs(t, failing, within, u)
    requires StemsAre(rolled, t.days, keep)
    ensures paths == DatePiece(u, keep)(d)
  {
    KeptStem(t.days, keep, d);
    if d in rolled || !keep(d) {
      return [];
    }
    if d in failing {
      EmptyTierListing(d);
      return [];
    }
    var inside := EnumerateTier(t.dates[d], All, FailingIn(within, d), u.dates[d]);
    paths := Under(d, inside);
  }

  lemma EmptyTierListing(d: string)
    ensures Under(d, Listing(Tier(map[], map[]), All)) == []
  {
    SortedAscends({});
    assert Sorted({}) == [];
  }

  /** With nothing failing, the tree is listed as it is. */
  lemma AllListed(t: Tier)
    ensures Unlisted(t, {}) == t
  {
  }

  lemma AllHoursListed(t: HourTree)
    ensures HourUnlisted(t, {}, map[]) == t
  {
    forall d | d in t.dates { AllListed(t.dates[d]); }
  }

  // ----- what a listing exposes -----

  /** The shadowing rules, file by file. */
  predicate Visible(t: Tier, keep: string -> bool, p: Path) {
    match p
    case File(n) => n in t.files && IsParquet(n) && keep(Stem(n))
    case Chunk(d, n) => d in t.dirs && n in t.dirs[d] && IsParquet(n) && keep(d) && d + EXT !in t.files
  }

  predicate HourVisible(t: HourTree, keep: string -> bool, p: HourPath) {
    match p
    case Day(n) => n in t.days && IsParquet(n) && keep(Stem(n))
    case Hour(d, q) => d in t.dates && keep(d) && d + EXT !in t.days && Visible(t.dates[d], All, q)
  }

  /** Distinct names give distinct paths when a path tells which name it came from. */
  lemma {:induction false} GatherDistinct<A, B>(xs: seq<A>, f: A -> seq<B>, source: B -> A)
    requires Distinct(xs)
    requires forall x :: x in xs ==> Distinct(f(x))
    requires forall x, b :: x in xs && b in f(x) ==> source(b) == x
    ensures Distinct(Gather(xs, f))
  {
    if xs != [] {
      var init, last := xs[..|xs| - 1], xs[|xs| - 1];
      assert forall x :: x in init ==> x in xs;
      GatherDistinct(init, f, source);
      var g := Gather(init, f);
      forall b | b in g ensures b !in f(last) {
        GatherMember(init, f, b);
        var x :| x in init && b in f(x);
        assert source(b) == x && last !in init;
      }
      DistinctAppend(g, f(last));
    }
  }

  lemma DistinctAppend<T>(xs: seq<T>, ys: seq<T>)
    requires Distinct(xs) && Distinct(ys)
    requires forall x :: x in xs ==> x !in ys
    ensures Distinct(xs + ys)
  {
    forall i, j | 0 <= i < j < |xs + ys| ensures (xs + ys)[i] != (xs + ys)[j] {
      if i < |xs| <= j { assert xs[i] in xs && ys[j - |xs|] in ys; }
    }
  }

  lemma SortedDistinct(names: set<string>)
    ensures Distinct(Sorted(names))
  {
    SortedAscends(names);
    AscendingDistinct(Sorted(names));
  }

  lemma ChunkMember(dir: string, files: map<string, Rows>, p: Path)
    ensures p in ChunkPaths(dir, files) <==> p.Chunk? && p.dir == dir && p.name in files && IsParquet(p.name)
  {
    GatherMember(Sorted(files.Keys), ChunkPiece(dir), p);
    if p.Chunk? && p.dir == dir && p.name in files && IsParquet(p.name) {
      assert p.name in Sorted(files.Keys) && ChunkPiece(dir)(p.name) == [p];
    }
  }

  lemma ChunksDistinct(dir: string, files: map<string, Rows>)
    ensures Distinct(ChunkPaths(dir, files))
  {
    SortedDistinct(files.Keys);
    GatherDistinct(Sorted(files.Keys), ChunkPiece(dir), (p: Path) => p.name);
  }

  lemma FileMember(files: map<string, Rows>, keep: string -> bool, p: Path)
    ensures p in Gather(Sorted(files.Keys), FilePiece(keep))
            <==> p.File? && p.name in files && IsParquet(p.name) && keep(Stem(p.name))
  {
    GatherMember(Sorted(files.Keys), FilePiece(keep), p);
    if p.File? && p.name in files && IsParquet(p.name) && keep(Stem(p.name)) {
      assert p.name in Sorted(files.Keys) && FilePiece(keep)(p.name) == [p];
    }
  }

  lemma FilesDistinct(files: map<string, Rows>, keep: string -> bool)
    ensures Distinct(Gather(Sorted(files.Keys), FilePiece(keep)))
  {
    SortedDistinct(files.Keys);
    GatherDistinct(Sorted(files.Keys), FilePiece(keep), (p: Path) => p.name);
  }

  lemma DirPieceMember(t: Tier, keep: string -> bool, d: string, p: Path)
    ensures p in DirPiece(t, keep)(d) <==> p.Chunk? && p.dir == d && Visible(t, keep, p)
  {
    if d in t.dirs { ChunkMember(d, t.dirs[d], p); }
  }

  lemma DirMember(t: Tier, keep: string -> bool, p: Path)
    ensures p in Gather(Sorted(t.dirs.Keys), DirPiece(t, keep)) <==> p.Chunk? && Visible(t, keep, p)
  {
    var f := DirPiece(t, keep);
    GatherMember(Sorted(t.dirs.Keys), f, p);
    if p in Gather(Sorted(t.dirs.Keys), f) {
      var d :| d in Sorted(t.dirs.Keys) && p in f(d);
      DirPieceMember(t, keep, d, p);
    }
    if p.Chunk? && Visible(t, keep, p) {
      DirPieceMember(t, keep, p.dir, p);
      assert p.dir in Sorted(t.dirs.Keys);
    }
  }

  lemma DirsDistinct(t: Tier, keep: string -> bool)
    ensures Distinct(Gather(Sorted(t.dirs.Keys), DirPiece(t, keep)))
  {
    var f := DirPiece(t, keep);
    var source := (p: Path) => if p.Chunk? then p.dir else p.name;
    forall d, p | p in f(d) ensures source(p) == d {
      DirPieceMember(t, keep, d, p);
    }
    forall d | d in t.dirs ensures Distinct(f(d)) {
      ChunksDistinct(d, t.dirs[d]);
    }
    SortedDistinct(t.dirs.Keys);
    GatherDistinct(Sorted(t.dirs.Keys), f, source);
  }

  lemma ListingMember(t: Tier, keep: string -> bool, p: Path)
    ensures p in Listing(t, keep) <==> Visible(t, keep, p)
  {
    FileMember(t.files, keep, p);
    DirMember(t, keep, p);
  }

  /** The flat-layout listing is exactly the visible files, each once. */
  lemma ListingExact(t: Tier, keep: string -> bool)
    ensures forall p :: p in Listing(t, keep) <==> Visible(t, keep, p)
    ensures Distinct(Listing(t, keep))
  {
    forall p ensures p in Listing(t, keep) <==> Visible(t, keep, p) {
      ListingMember(t, keep, p);
    }
    var a, b := Gather(Sorted(t.files.Keys), FilePiece(keep)), Gather(Sorted(t.dirs.Keys), DirPiece(t, keep));
    FilesDistinct(t.files, keep);
    DirsDistinct(t, keep);
    forall p | p in a ensures p !in b {
      FileMember(t.files, keep, p);
      DirMember(t, keep, p);
    }
    DistinctAppend(a, b);
  }

  lemma ListedDistinct(t: Tier)
    ensures Distinct(Listing(t, All))
  {
    ListingExact(t, All);
  }

  lemma UnderMember(date: string, paths: seq<Path>, p: HourPath)
    ensures p in Under(date, paths) <==> p.Hour? && p.date == date && p.path in paths
  {
    GatherMember(paths, HourPiece(date), p);
    if p.Hour? && p.date == date && p.path in paths {
      assert p in HourPiece(date)(p.path);
    }
  }

  lemma UnderDistinct(date: string, paths: seq<Path>)
    requires Distinct(paths)
    ensures Distinct(Under(date, paths))
  {
    GatherDistinct(paths, HourPiece(date), (p: HourPath) => if p.Hour? then p.path else File(p.name));
  }

  lemma DatePieceMember(t: HourTree, keep: string -> bool, d: string, p: HourPath)
    ensures p in DatePiece(t, keep)(d) <==> p.Hour? && p.date == d && HourVisible(t, keep, p)
  {
    if d in t.dates {
      UnderMember(d, Listing(t.dates[d], All), p);
      if p.Hour? { ListingMember(t.dates[d], All, p.path); }
    }
  }

  lemma DayMember(t: HourTree, keep: string -> bool, p: HourPath)
    ensures p in Gather(Sorted(t.days.Keys), DayPiece(keep)) <==> p.Day? && HourVisible(t, keep, p)
  {
    GatherMember(Sorted(t.days.Keys), DayPiece(keep), p);
    if p.Day? && HourVisible(t, keep, p) {
      assert p.name in Sorted(t.days.Keys) && DayPiece(keep)(p.name) == [p];
    }
  }

  lemma DateMember(t: HourTree, keep: string -> bool, p: HourPath)
    ensures p in Gather(Sorted(t.dates.Keys), DatePiece(t, keep)) <==> p.Hour? && HourVisible(t, keep, p)
  {
    var f := DatePiece(t, keep);
    GatherMember(Sorted(t.dates.Keys), f, p);
    if p in Gather(Sorted(t.dates.Keys), f) {
      var d :| d in Sorted(t.dates.Keys) && p in f(d);
      DatePieceMember(t, keep, d, p);
    }
    if p.Hour? && HourVisible(t, keep, p) {
      DatePieceMember(t, keep, p.date, p);
      assert p.date in Sorted(t.dates.Keys);
    }
  }

  lemma DaysDistinct(t: HourTree, keep: string -> bool)
    ensures Distinct(Gather(Sorted(t.days.Keys), DayPiece(keep)))
  {
    SortedDistinct(t.days.Keys);
    GatherDistinct(Sorted(t.days.Keys), DayPiece(keep), (p: HourPath) => if p.Day? then p.name else p.date);
  }

  lemma DatesDistinct(t: HourTree, keep: string -> bool)
    ensures Distinct(Gather(Sorted(t.dates.Keys), DatePiece(t, keep)))
  {
    var f := DatePiece(t, keep);
    var source := (p: HourPath) => if p.Hour? then p.date else p.name;
    forall d, p | p in f(d) ensures source(p) == d {
      DatePieceMember(t, keep, d, p);
    }
    forall d | d in t.dates ensures Distinct(f(d)) {
      ListingExact(t.dates[d], All);
      UnderDistinct(d, Listing(t.dates[d], All));
    }
    SortedDistinct(t.dates.Keys);
    GatherDistinct(Sorted(t.dates.Keys), f, source);
  }

  /** The hour-tiered listing is exactly the visible files, each once: a sealed day shadows its
      date directory, a sealed hour its chunks. */
  lemma HourListingExact(t: HourTree, keep: string -> bool)
    ensures forall p :: p in HourListing(t, keep) <==> HourVisible(t, keep, p)
    ensures Distinct(HourListing(t, keep))
  {
    var a, b := Gather(Sorted(t.days.Keys), DayPiece(keep)), Gather(Sorted(t.dates.Keys), DatePiece(t, keep));
    forall p ensures p in a <==> p.Day? && HourVisible(t, keep, p)
             ensures p in b <==> p.Hour? && HourVisible(t, keep, p)
    {
      DayMember(t, keep, p);
      DateMember(t, keep, p);
    }
    DaysDistinct(t, keep);
    DatesDistinct(t, keep);
    DistinctAppend(a, b);
  }

  /** The day a path is filed under. */
  function DateOf(p: Path): string {
    match p
    case File(n) => Stem(n)
    case Chunk(d, _) => d
  }

  function DateWanted(keep: string -> bool): Path -> bool {
    p => keep(DateOf(p))
  }

  lemma FilesInRange(files: map<string, Rows>, keep: string -> bool)
    ensures Keep(Gather(Sorted(files.Keys), FilePiece(All)), DateWanted(keep)) == Gather(Sorted(files.Keys), FilePiece(keep))
  {
    var names, wanted := Sorted(files.Keys), DateWanted(keep);
    forall f | f in names ensures FilePiece(keep)(f) == Keep(FilePiece(All)(f), wanted) {
      KeepOne(File(f), wanted);
      assert DateOf(File(f)) == Stem(f);
    }
    KeepGather(names, FilePiece(All), wanted, FilePiece(keep));
  }

  lemma DirPieceInRange(t: Tier, keep: string -> bool, d: string)
    ensures DirPiece(t, keep)(d) == Keep(DirPiece(t, All)(d), DateWanted(keep))
  {
    if d in t.dirs { KeepChunks(d, t.dirs[d], keep); }
  }

  lemma DirsInRange(t: Tier, keep: string -> bool)
    ensures Keep(Gather(Sorted(t.dirs.Keys), DirPiece(t, All)), DateWanted(keep)) == Gather(Sorted(t.dirs.Keys), DirPiece(t, keep))
  {
    var names, wanted := Sorted(t.dirs.Keys), DateWanted(keep);
    forall d | d in names ensures DirPiece(t, keep)(d) == Keep(DirPiece(t, All)(d), wanted) {
      DirPieceInRange(t, keep, d);
    }
    KeepGather(names, DirPiece(t, All), wanted, DirPiece(t, keep));
  }

  /** A ranged listing is the full listing minus the unwanted days, in the same order: dropping
      a flat file out of range never re-exposes the chunks it shadows. */
  lemma RangeOnlyFilters(t: Tier, keep: string -> bool)
    ensures Listing(t, keep) == Keep(Listing(t, All), DateWanted(keep))
  {
    FilesInRange(t.files, keep);
    DirsInRange(t, keep);
    KeepAppend(Gather(Sorted(t.files.Keys), FilePiece(All)), Gather(Sorted(t.dirs.Keys), DirPiece(t, All)), DateWanted(keep));
  }

  lemma {:induction false} KeepNone<T>(xs: seq<T>, p: T -> bool)
    requires forall x :: x in xs ==> !p(x)
    ensures Keep(xs, p) == []
  {
    if xs != [] {
      assert forall x :: x in xs[..|xs| - 1] ==> x in xs;
      KeepNone(xs[..|xs| - 1], p);
    }
  }

  lemma KeepChunks(d: string, files: map<string, Rows>, keep: string -> bool)
    ensures Keep(ChunkPaths(d, files), DateWanted(keep)) == if keep(d) then ChunkPaths(d, files) else []
  {
    var paths := ChunkPaths(d, files);
    forall p | p in paths ensures DateWanted(keep)(p) == keep(d) {
      ChunkMember(d, files, p);
      assert DateOf(p) == d;
    }
    if keep(d) {
      KeepAll(paths, DateWanted(keep));
    } else {
      KeepNone(paths, DateWanted(keep));
    }
  }

  // ----- rows -----

  function RowsAt(t: Tier, p: Path): Rows {
    match p
    case File(n) => if n in t.files then t.files[n] else []
    case Chunk(d, n) => if d in t.dirs && n in t.dirs[d] then t.dirs[d][n] else []
  }

  function HourRowsAt(t: HourTree, p: HourPath): Rows {
    match p
    case Day(n) => if n in t.days then t.days[n] else []
    case Hour(d, q) => if d in t.dates then RowsAt(t.dates[d], q) else []
  }

  function RowsIn(t: Tier): Path -> Rows {
    p => RowsAt(t, p)
  }

  function HourRowsIn(t: HourTree): HourPath -> Rows {
    p => HourRowsAt(t, p)
  }

  /** What a reader of every listed file sees, in listing order. */
  function VisibleRows(t: Tier, keep: string -> bool): Rows {
    Gather(Listing(t, keep), RowsIn(t))
  }

  function HourVisibleRows(t: HourTree, keep: string -> bool): Rows {
    Gather(HourListing(t, keep), HourRowsIn(t))
  }

  /** The date filter of a read never hides a row of its window, provided every file holds only
      rows of the day it is named for. `time` is the millisecond a row's id encodes. */
  lemma RangeKeepsRows(t: Tier, start: int, end: int, parse: string -> Option<int>, time: Row -> int, r: Row)
    requires forall p, x :: x in RowsAt(t, p) && parse(DateOf(p)).Some?
               ==> parse(DateOf(p)).value <= time(x) < parse(DateOf(p)).value + DAY_MS
    requires start <= time(r) < end
    requires r in VisibleRows(t, All)
    ensures r in VisibleRows(t, InWindow(start, end, parse))
  {
    var keep := InWindow(start, end, parse);
    GatherMember(Listing(t, All), RowsIn(t), r);
    var p :| p in Listing(t, All) && r in RowsIn(t)(p);
    RangeOnlyFilters(t, keep);
    KeepMember(Listing(t, All), DateWanted(keep), p);
    assert r in RowsAt(t, p) && keep(DateOf(p));
    GatherMember(Listing(t, keep), RowsIn(t), r);
    assert p in Listing(t, keep) && r in RowsIn(t)(p);
  }

  /** The moment lies in the window and on the day that begins at `day`. */
  predicate Shared(m: int, start: int, end: int, day: int) {
    start <= m < end && day <= m < day + 86_400_000
  }

  lemma SharesMoment(start: int, end: int, parse: string -> Option<int>, date: string)
    requires start < end
    ensures InWindow(start, end, parse)(date) <==> parse(date).None? || exists m :: Shared(m, start, end, parse(date).value)
  {
    if parse(date).Some? {
      var day := parse(date).value;
      var m := if day < start then start else day;
      if day < end && day + 86_400_000 > start { assert Shared(m, start, end, day); }
    }
  }

  /** And shows no other day: a path is in the ranged listing exactly if it is in the full one and its
      day, if the name can be read as one, has a moment in the window. */
  lemma RangeShowsItsDays(t: Tier, start: int, end: int, parse: string -> Option<int>, p: Path)
    requires start < end
    ensures p in Listing(t, InWindow(start, end, parse)) <==>
            p in Listing(t, All) && (parse(DateOf(p)).None? || exists m :: Shared(m, start, end, parse(DateOf(p)).value))
  {
    SharesMoment(start, end, parse, DateOf(p));
    RangeOnlyFilters(t, InWindow(start, end, parse));
    KeepMember(Listing(t, All), DateWanted(InWindow(start, end, parse)), p);
  }

  /** With either end missing nothing is filtered. */
  lemma NoRangeKeepsAll(start: Option<int>, end: Option<int>, parse: string -> Option<int>, date: string)
    requires start.None? || end.None?
    ensures Wanted(date, start, end, parse)
  {
  }
}
