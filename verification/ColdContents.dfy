/** What storage holds path by path: what an export puts there, and what it and every run of the
    archive protocol leave alone. */
module ColdContents {
  import opened Names
  import opened Sequences
  import opened ColdListing
  import opened ColdOrder
  import opened Chunker
  import opened ColdArchive

  /** The rows stored under a path, if it is there. */
  function Content(t: Tier, p: Path): Option<Rows> {
    match p
    case File(n) => if n in t.files then Some(t.files[n]) else None
    case Chunk(d, n) => if d in t.dirs && n in t.dirs[d] then Some(t.dirs[d][n]) else None
  }

  /** The date's flat file, or anything in its chunk directory. */
  predicate OfDate(p: Path, date: string) {
    match p
    case File(n) => n == date + EXT
    case Chunk(d, _) => d == date
  }

  // ----- one export -----

  lemma {:induction false} GroupsElsewhere(t: Tier, date: string, groups: seq<Rows>, open: bool, p: Path)
    requires !OfDate(p, date)
    ensures Content(PutGroups(t, date, groups, open), p) == Content(t, p)
  {
    if groups != [] { GroupsElsewhere(t, date, groups[..|groups| - 1], false, p); }
  }

  lemma ClearElsewhere(t: Tier, date: string, p: Path)
    requires !OfDate(p, date)
    ensures Content(ClearChunks(t, date), p) == Content(t, p)
  {
  }

  /** An organisation's turn leaves every other path as it was, and skips it if its flat file is there. */
  lemma OtherPathsKept(t: Tier, date: string, cut: Cut, lines: seq<Line>, p: Path)
    requires !OfDate(p, date) || Content(t, File(date + EXT)) != None
    ensures Content(Archived(t, date, cut, lines), p) == Content(t, p)
  {
    if date + EXT !in t.files {
      ClearElsewhere(t, date, p);
      GroupsElsewhere(ClearChunks(t, date), date, GroupRows(Split(IsFull(cut), [], lines)), EndsOpen(IsFull(cut), lines), p);
    }
  }

  /** In particular whatever is filed under another date. */
  lemma OtherDatesKept(t: Tier, date: string, cut: Cut, lines: seq<Line>, p: Path)
    requires DateOf(p) != date
    ensures Content(Archived(t, date, cut, lines), p) == Content(t, p)
  {
    if p.File? { StemExt(date, p.name); }
    OtherPathsKept(t, date, cut, lines, p);
  }

  lemma OnlyGroup<T>(groups: seq<seq<T>>, xs: seq<T>)
    requires |groups| == 1 && Flatten(groups) == [] + xs
    ensures groups == [xs]
  {
    assert groups == [groups[0]] && [] + xs == xs;
    FlattenOne(groups[0]);
  }

  /** Of its own date nothing is left from before: all lines in one flat file if they are below both
      limits, otherwise group i of their cut as chunk i. */
  lemma OwnPathsAre(t: Tier, date: string, cut: Cut, lines: seq<Line>, p: Path)
    requires OfDate(p, date) && Content(t, File(date + EXT)) == None
    ensures var groups := Split(IsFull(cut), [], lines);
            Content(Archived(t, date, cut, lines), p) ==
            if lines == [] then None
            else if !Full(cut, lines) then if p.File? then Some(RowsOf(lines)) else None
            else if p.Chunk? && p.name in ChunkNames(|groups|) then Some(RowsOf(groups[NumberOf(p.name, |groups|)]))
            else None
  {
    var full, cleared := IsFull(cut), ClearChunks(t, date);
    var groups, open := GroupRows(Split(full, [], lines)), EndsOpen(full, lines);
    assert ChunkFiles(cleared, date) == map[];
    SplitContents(full, [], lines);
    if lines != [] {
      FlatIffBelowLimits(cut, lines);
      ExportedFiles(cleared, date, groups, open);
      if !Full(cut, lines) {
        OnlyGroup(Split(full, [], lines), lines);
      } else if p.Chunk? {
        ChunkMapNames(groups, |groups|, p.name);
        if p.name in ChunkNames(|groups|) { ChunkMapAt(groups, |groups|, NumberOf(p.name, |groups|)); }
      }
    }
  }

  /** The number of a chunk name. */
  ghost function NumberOf(name: string, n: nat): (i: nat)
    requires name in ChunkNames(n)
    ensures i < n && ChunkName(i) == name
  {
    assert exists i :: 0 <= i < n && ChunkNames(n)[i] == name;
    var i :| 0 <= i < n && ChunkNames(n)[i] == name;
    i
  }

  // ----- every run -----

  lemma WriteElsewhere(c: Config, w: World, v: World, org: int, p: Path)
    requires Write(c, w, v) && !OfDate(p, c.date)
    ensures Content(StoreOf(v, org), p) == Content(StoreOf(w, org), p)
  {
  }

  lemma ClearStepElsewhere(c: Config, w: World, v: World, org: int, p: Path)
    requires Clear(c, w, v) && !OfDate(p, c.date)
    ensures Content(StoreOf(v, org), p) == Content(StoreOf(w, org), p)
  {
  }

  lemma StepElsewhere(c: Config, w: World, v: World, org: int, p: Path)
    requires Step(c, w, v) && !OfDate(p, c.date)
    ensures Content(StoreOf(v, org), p) == Content(StoreOf(w, org), p)
  {
    if Write(c, w, v) {
      WriteElsewhere(c, w, v, org, p);
    } else if Clear(c, w, v) {
      ClearStepElsewhere(c, w, v, org, p);
    } else {
      assert v.store == w.store;
    }
  }

  /** No step of any run, whether it crashes, restarts or loses rows, touches another path. */
  lemma {:induction false} RunLeavesOtherPaths(c: Config, ws: seq<World>, i: nat, org: int, p: Path)
    requires Run(c, ws) && i < |ws| && !OfDate(p, c.date)
    ensures Content(StoreOf(ws[i], org), p) == Content(StoreOf(ws[0], org), p)
  {
    if i > 0 {
      RunLeavesOtherPaths(c, ws, i - 1, org, p);
      StepElsewhere(c, ws[i - 1], ws[i], org, p);
    }
  }

  ghost predicate SameOnDate(t: Tier, u: Tier, date: string) {
    forall p :: OfDate(p, date) ==> Content(t, p) == Content(u, p)
  }

  lemma SameFiles(t: Tier, u: Tier, date: string)
    requires SameOnDate(t, u, date)
    ensures ChunkFiles(t, date) == ChunkFiles(u, date)
    ensures (date + EXT in t.files <==> date + EXT in u.files) && (date + EXT in t.files ==> t.files[date + EXT] == u.files[date + EXT])
  {
    assert Content(t, File(date + EXT)) == Content(u, File(date + EXT)) by { assert OfDate(File(date + EXT), date); }
    forall n ensures n in ChunkFiles(t, date) <==> n in ChunkFiles(u, date)
             ensures n in ChunkFiles(t, date) ==> ChunkFiles(t, date)[n] == ChunkFiles(u, date)[n] {
      assert OfDate(Chunk(date, n), date);
      assert Content(t, Chunk(date, n)) == Content(u, Chunk(date, n));
    }
  }

  /** The files of one date show the same rows if its paths hold the same. */
  lemma SameContentSameRows(c: Config, t: Tier, u: Tier)
    requires SameOnDate(t, u, c.date)
    ensures DateRows(c, t) == DateRows(c, u)
  {
    SameFiles(t, u, c.date);
    DateRowsAre(c, t);
    DateRowsAre(c, u);
  }

  /** So what an organisation's storage exposes for any other date never changes. */
  lemma RunLeavesOtherDates(c: Config, ws: seq<World>, i: nat, org: int, date: string)
    requires Run(c, ws) && i < |ws| && date != c.date
    ensures VisibleRows(StoreOf(ws[i], org), OnDate(date)) == VisibleRows(StoreOf(ws[0], org), OnDate(date))
  {
    forall p | OfDate(p, date) ensures Content(StoreOf(ws[i], org), p) == Content(StoreOf(ws[0], org), p) {
      StemExt(date, date + EXT);
      StemExt(c.date, c.date + EXT);
      RunLeavesOtherPaths(c, ws, i, org, p);
    }
    SameContentSameRows(c.(date := date), StoreOf(ws[i], org), StoreOf(ws[0], org));
  }

  ghost predicate OnlyEligible(c: Config, w: World) {
    w.phase.Exporting? ==> forall org :: org in w.phase.todo ==> org in c.rows && org in c.eligible
  }

  lemma StepLeavesOthers(c: Config, w: World, v: World, org: int)
    requires Step(c, w, v) && OnlyEligible(c, w) && !(org in c.rows && org in c.eligible)
    ensures OnlyEligible(c, v) && StoreOf(v, org) == StoreOf(w, org)
  {
  }

  /** Nor is anything of an organisation that is not eligible, or has no rows here, ever touched. */
  lemma {:induction false} RunLeavesOtherOrgs(c: Config, ws: seq<World>, i: nat, org: int)
    requires Run(c, ws) && i < |ws| && !(org in c.rows && org in c.eligible)
    ensures StoreOf(ws[i], org) == StoreOf(ws[0], org) && OnlyEligible(c, ws[i])
  {
    if i > 0 {
      RunLeavesOtherOrgs(c, ws, i - 1, org);
      StepLeavesOthers(c, ws[i - 1], ws[i], org);
    }
  }
}
