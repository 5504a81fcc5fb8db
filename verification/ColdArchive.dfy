/** Archiving one partition (export per organisation, detach, drop) as a protocol that may crash
    after any storage or DDL step and be restarted any number of times. */
module ColdArchive {
  import opened Names
  import opened Sequences
  import opened ColdListing
  import opened ColdOrder
  import opened ColdRemoval
  import opened Chunker

  /** The partition's rows per organisation, and what is fixed for all runs: its date name, the
      organisations eligible for cold storage, whether a storage backend is set up, the size of the
      CSV header and of each row's line, and the memory limits that runs may be configured with. */
  datatype Config = Config(date: string, rows: map<int, Rows>, eligible: set<int>, backend: bool,
                           header: nat, bytes: Row -> nat, memory: set<Option<int>>)

  /** The export of one organisation: not looked at yet, removing an earlier run's chunks, or
      writing `groups` with the first `k` on storage. `open` marks a final, not full, group. */
  datatype OrgPhase = Fresh
                    | Clearing(names: seq<string>, groups: seq<Rows>, open: bool)
                    | Writing(k: nat, groups: seq<Rows>, open: bool)

  datatype Phase = Idle | Exporting(todo: seq<int>, org: OrgPhase) | Detaching | Dropping | Done

  /** `table` is whether the partition table still exists, with all its rows. */
  datatype World = World(table: bool, attached: bool, store: map<int, Tier>, phase: Phase)

  function StoreOf(w: World, org: int): Tier {
    if org in w.store then w.store[org] else Tier(map[], map[])
  }

  function SetStore(w: World, org: int, t: Tier): World {
    w.(store := w.store[org := t])
  }

  function FlatName(c: Config): string {
    c.date + EXT
  }

  function ChunkFiles(t: Tier, date: string): map<string, Rows> {
    if date in t.dirs then t.dirs[date] else map[]
  }

  function CutOf(c: Config, memory: Option<int>): Cut {
    Cut(c.header, ChunkLimit(memory))
  }

  /** The export cut some arrival order of the organisation's rows under one of the memory limits. */
  ghost predicate CanCut(c: Config, rows: Rows, groups: seq<Rows>, open: bool) {
    exists memory, lines :: IsExport(c, rows, groups, open, memory, lines)
  }

  ghost predicate IsExport(c: Config, rows: Rows, groups: seq<Rows>, open: bool, memory: Option<int>, lines: seq<Line>) {
    && memory in c.memory && AreLines(c, lines)
    && multiset(RowsOf(lines)) == multiset(rows)
    && groups == GroupRows(Split(IsFull(CutOf(c, memory)), [], lines))
    && (open <==> EndsOpen(IsFull(CutOf(c, memory)), lines))
  }

  predicate AreLines(c: Config, lines: seq<Line>) {
    forall i :: 0 <= i < |lines| ==> lines[i].bytes == c.bytes(lines[i].row)
  }

  function LinesOf(c: Config, rows: Rows): (lines: seq<Line>)
    ensures AreLines(c, lines) && RowsOf(lines) == rows
  {
    seq(|rows|, i requires 0 <= i < |rows| => Line(rows[i], c.bytes(rows[i])))
  }

  function GroupPath(c: Config, k: nat, groups: seq<Rows>, open: bool): Path {
    FlushPath(c.date, k, open && k == |groups| - 1)
  }

  /** `SELECT DISTINCT organization_id ... ORDER BY organization_id`, the eligible ones. */
  ghost predicate OrgsInOrder(todo: seq<int>, orgs: set<int>) {
    (forall o :: o in todo <==> o in orgs) && forall i, j :: 0 <= i < j < |todo| ==> todo[i] < todo[j]
  }

  // ----- the steps -----

  /** archive_and_swap_partition starts, or is restarted after it finished or crashed. Without a
      backend, or with the table gone, nothing is exported and the workflow goes on to detach. */
  ghost predicate Begin(c: Config, w: World, v: World) {
    && w.phase == Idle
    && if !c.backend || !w.table then v == w.(phase := Detaching)
       else exists todo :: OrgsInOrder(todo, c.rows.Keys * c.eligible) && v == w.(phase := Exporting(todo, Fresh))
  }

  /** The flat file decides: present means archived, otherwise list what must be cleared. */
  ghost predicate Look(c: Config, w: World, v: World) {
    && w.phase.Exporting? && w.phase.todo != [] && w.phase.org == Fresh
    && var org := w.phase.todo[0];
       if FlatName(c) in StoreOf(w, org).files then v == w.(phase := Exporting(w.phase.todo[1..], Fresh))
       else org in c.rows && exists groups, open | CanCut(c, c.rows[org], groups, open) ::
              v == w.(phase := w.phase.(org := Clearing(Sorted(ChunkFiles(StoreOf(w, org), c.date).Keys), groups, open)))
  }

  predicate Clear(c: Config, w: World, v: World) {
    && w.phase.Exporting? && w.phase.todo != [] && w.phase.org.Clearing?
    && var org, p := w.phase.todo[0], w.phase.org;
       if p.names == [] then v == w.(phase := w.phase.(org := Writing(0, p.groups, p.open)))
       else v == SetStore(w, org, DeleteChunk(StoreOf(w, org), c.date, p.names[0])).(phase := w.phase.(org := p.(names := p.names[1..])))
  }

  predicate Write(c: Config, w: World, v: World) {
    && w.phase.Exporting? && w.phase.todo != [] && w.phase.org.Writing?
    && var org, p := w.phase.todo[0], w.phase.org;
       if p.k >= |p.groups| then v == w.(phase := Exporting(w.phase.todo[1..], Fresh))
       else v == SetStore(w, org, PutFile(StoreOf(w, org), GroupPath(c, p.k, p.groups, p.open), p.groups[p.k]))
                 .(phase := w.phase.(org := p.(k := p.k + 1)))
  }

  predicate Exported(w: World, v: World) {
    w.phase.Exporting? && w.phase.todo == [] && v == w.(phase := Detaching)
  }

  /** DETACH tolerates a partition that is already detached or gone. */
  predicate Detach(w: World, v: World) {
    w.phase == Detaching && v == w.(attached := false, phase := Dropping)
  }

  /** DROP TABLE IF EXISTS. */
  predicate Drop(w: World, v: World) {
    w.phase == Dropping && v == w.(table := false, phase := Done)
  }

  /** A crash, an exception or the end of the process: whatever was done stays done. */
  predicate Crash(w: World, v: World) {
    v == w.(phase := Idle)
  }

  /** One step of an uninterrupted run. */
  ghost predicate Work(c: Config, w: World, v: World) {
    Begin(c, w, v) || Look(c, w, v) || Clear(c, w, v) || Write(c, w, v) || Exported(w, v) || Detach(w, v) || Drop(w, v)
  }

  ghost predicate Step(c: Config, w: World, v: World) {
    Work(c, w, v) || Crash(w, v)
  }

  // ----- what readers see -----

  function OnDate(date: string): string -> bool {
    d => d == date
  }

  /** The rows of this partition's date that enumerate_org_parquet_files exposes. */
  function DateRows(c: Config, t: Tier): Rows {
    VisibleRows(t, OnDate(c.date))
  }

  ghost predicate ArchivedOrg(c: Config, t: Tier, rows: Rows) {
    multiset(DateRows(c, t)) == multiset(rows)
  }

  /** Every eligible organisation's rows are all still in the table or exactly, none missing and
      none twice, what readers of cold storage see. */
  ghost predicate NoLoss(c: Config, w: World) {
    forall org :: org in c.rows && org in c.eligible ==> w.table || ArchivedOrg(c, StoreOf(w, org), c.rows[org])
  }

  /** The start: the table holds the rows, no run is active, and a flat file for the date, if one
      exists already, is a finished archive of the same rows. Chunks may be left over. */
  ghost predicate Init(c: Config, w: World) {
    && w.table && w.phase == Idle && c.memory != {}
    && (forall org :: org in c.rows ==> c.rows[org] != [])
    && forall org :: org in c.rows && org in c.eligible ==> FlatIsWhole(c, StoreOf(w, org), c.rows[org])
  }

  ghost predicate FlatIsWhole(c: Config, t: Tier, rows: Rows) {
    FlatName(c) in t.files ==> multiset(t.files[FlatName(c)]) == multiset(rows)
  }

  /** Executions, newest state last. */
  ghost predicate Run(c: Config, ws: seq<World>) {
    && ws != [] && Init(c, ws[0])
    && forall i :: 0 <= i < |ws| - 1 ==> Step(c, ws[i], ws[i + 1])
  }

  // ----- what the files of one date expose -----

  lemma FilesOnDate(c: Config, files: map<string, Rows>)
    ensures Gather(Sorted(files.Keys), FilePiece(OnDate(c.date))) == if FlatName(c) in files then [File(FlatName(c))] else []
  {
    var f := FilePiece(OnDate(c.date));
    forall n | n != FlatName(c) ensures f(n) == [] { StemExt(c.date, n); }
    StemExt(c.date, FlatName(c));
    SortedDistinct(files.Keys);
    GatherSingle(Sorted(files.Keys), f, FlatName(c));
  }

  lemma DirsOnDate(c: Config, t: Tier)
    ensures Gather(Sorted(t.dirs.Keys), DirPiece(t, OnDate(c.date)))
            == if c.date in t.dirs && FlatName(c) !in t.files then ChunkPaths(c.date, t.dirs[c.date]) else []
  {
    var f := DirPiece(t, OnDate(c.date));
    forall d | d != c.date ensures f(d) == [] {}
    SortedDistinct(t.dirs.Keys);
    GatherSingle(Sorted(t.dirs.Keys), f, c.date);
    DirOnDate(c, t);
  }

  lemma DirOnDate(c: Config, t: Tier)
    ensures DirPiece(t, OnDate(c.date))(c.date)
            == if c.date in t.dirs && FlatName(c) !in t.files then ChunkPaths(c.date, t.dirs[c.date]) else []
  {
  }

  lemma DateRowsAre(c: Config, t: Tier)
    ensures DateRows(c, t) == if FlatName(c) in t.files then t.files[FlatName(c)] else RowsOfFiles(ChunkFiles(t, c.date))
  {
    FilesOnDate(c, t.files);
    DirsOnDate(c, t);
    if FlatName(c) in t.files {
      assert Listing(t, OnDate(c.date)) == [File(FlatName(c))];
      GatherOne(File(FlatName(c)), RowsIn(t));
    } else if c.date in t.dirs {
      assert Listing(t, OnDate(c.date)) == ChunkPaths(c.date, t.dirs[c.date]);
      ChunkRows(t, c.date);
    }
  }

  // ----- what finished groups amount to -----

  function ChunkMap(groups: seq<Rows>, k: nat): map<string, Rows>
    requires k <= |groups|
  {
    if k == 0 then map[] else ChunkMap(groups, k - 1)[ChunkName(k - 1) := groups[k - 1]]
  }

  lemma {:induction false} ChunkMapAt(groups: seq<Rows>, k: nat, i: nat)
    requires i < k <= |groups|
    ensures ChunkName(i) in ChunkMap(groups, k) && ChunkMap(groups, k)[ChunkName(i)] == groups[i]
  {
    if i < k - 1 {
      ChunkMapAt(groups, k - 1, i);
      if ChunkName(i) == ChunkName(k - 1) { ChunkNameInjective(i, k - 1); }
    }
  }

  lemma {:induction false} ChunkMapNames(groups: seq<Rows>, k: nat, n: string)
    requires k <= |groups|
    ensures n in ChunkMap(groups, k) <==> n in ChunkNames(k)
  {
    if k > 0 {
      ChunkMapNames(groups, k - 1, n);
      assert ChunkNames(k) == ChunkNames(k - 1) + [ChunkName(k - 1)];
    }
  }

  lemma {:induction false} GatherChunks(groups: seq<Rows>, k: nat, f: string -> Rows)
    requires k <= |groups| && forall i :: 0 <= i < k ==> f(ChunkName(i)) == groups[i]
    ensures Gather(ChunkNames(k), f) == Flatten(groups[..k])
  {
    if k > 0 {
      GatherChunks(groups, k - 1, f);
      assert ChunkNames(k)[..k - 1] == ChunkNames(k - 1);
      assert groups[..k][..k - 1] == groups[..k - 1];
    }
  }

  lemma ChunkNamesDistinct(k: nat)
    ensures Distinct(ChunkNames(k))
  {
    forall i, j | 0 <= i < j < k ensures ChunkNames(k)[i] != ChunkNames(k)[j] {
      if ChunkName(i) == ChunkName(j) { ChunkNameInjective(i, j); }
    }
  }

  /** All chunks together hold the groups' rows, whatever order they are listed in. */
  lemma ChunkMapRows(groups: seq<Rows>, k: nat)
    requires k <= |groups|
    ensures multiset(RowsOfFiles(ChunkMap(groups, k))) == multiset(Flatten(groups[..k]))
  {
    var files := ChunkMap(groups, k);
    forall n { ChunkMapNames(groups, k, n); }
    SortedDistinct(files.Keys);
    ChunkNamesDistinct(k);
    SameMembers(Sorted(files.Keys), ChunkNames(k));
    GatherPermuted(Sorted(files.Keys), ChunkNames(k), NamedRows(files));
    forall i | 0 <= i < k ensures NamedRows(files)(ChunkName(i)) == groups[i] {
      ChunkNameParquet(i);
      ChunkMapAt(groups, k, i);
    }
    GatherChunks(groups, k, NamedRows(files));
  }

  lemma {:induction false} ConcatGroupRows(groups: seq<seq<Line>>)
    ensures Flatten(GroupRows(groups)) == RowsOf(Flatten(groups))
  {
    if groups != [] {
      var init := groups[..|groups| - 1];
      ConcatGroupRows(init);
      assert GroupRows(groups)[..|groups| - 1] == GroupRows(init);
    }
  }

  lemma CutKeepsRows(c: Config, rows: Rows, groups: seq<Rows>, open: bool)
    requires CanCut(c, rows, groups, open)
    ensures multiset(Flatten(groups)) == multiset(rows)
    ensures rows != [] ==> groups != []
  {
    var memory, lines :| IsExport(c, rows, groups, open, memory, lines);
    SplitContents(IsFull(CutOf(c, memory)), [], lines);
    ConcatGroupRows(Split(IsFull(CutOf(c, memory)), [], lines));
    assert [] + lines == lines;
    if groups == [] {
      assert |multiset(rows)| == 0;
    }
  }

  // ----- the invariant -----

  ghost predicate AllArchived(c: Config, w: World) {
    forall org :: org in c.rows && org in c.eligible ==> ArchivedOrg(c, StoreOf(w, org), c.rows[org])
  }

  predicate GoesFlat(groups: seq<Rows>, open: bool) {
    open && |groups| == 1
  }

  ghost predicate OrgInv(c: Config, t: Tier, rows: Rows, p: OrgPhase) {
    match p
    case Fresh => true
    case Clearing(names, groups, open) =>
      && CanCut(c, rows, groups, open) && FlatName(c) !in t.files
      && forall n :: n in ChunkFiles(t, c.date) ==> n in names
    case Writing(k, groups, open) =>
      && CanCut(c, rows, groups, open) && k <= |groups|
      && if GoesFlat(groups, open) && k == 1 then FlatName(c) in t.files && t.files[FlatName(c)] == groups[0]
         else FlatName(c) !in t.files && ChunkFiles(t, c.date) == ChunkMap(groups, k)
  }

  ghost predicate OthersArchived(c: Config, w: World, todo: seq<int>) {
    forall org :: org in c.rows && org in c.eligible && org !in todo ==> ArchivedOrg(c, StoreOf(w, org), c.rows[org])
  }

  ghost predicate PhaseInv(c: Config, w: World) {
    match w.phase
    case Idle => (w.table && c.backend) || AllArchived(c, w)
    case Exporting(todo, p) =>
      && w.table && c.backend
      && (forall org :: org in todo ==> org in c.rows && org in c.eligible)
      && OthersArchived(c, w, todo)
      && (todo != [] ==> OrgInv(c, StoreOf(w, todo[0]), c.rows[todo[0]], p))
    case Detaching => AllArchived(c, w)
    case Dropping => AllArchived(c, w) && !w.attached
    case Done => AllArchived(c, w) && !w.attached && !w.table
  }

  ghost predicate Inv(c: Config, w: World) {
    && c.memory != {}
    && (forall org :: org in c.rows ==> c.rows[org] != [])
    && (forall org :: org in c.rows && org in c.eligible ==> FlatIsWhole(c, StoreOf(w, org), c.rows[org]))
    && PhaseInv(c, w)
  }

  lemma ArchivedByFlat(c: Config, t: Tier, rows: Rows)
    requires FlatIsWhole(c, t, rows) && FlatName(c) in t.files
    ensures ArchivedOrg(c, t, rows)
  {
    DateRowsAre(c, t);
  }

  lemma FlatGroupIsWhole(c: Config, t: Tier, rows: Rows, groups: seq<Rows>, open: bool)
    requires CanCut(c, rows, groups, open) && |groups| == 1
    requires FlatName(c) in t.files && t.files[FlatName(c)] == groups[0]
    ensures ArchivedOrg(c, t, rows) && FlatIsWhole(c, t, rows)
  {
    assert groups == [groups[0]];
    FlattenOne(groups[0]);
    CutKeepsRows(c, rows, groups, open);
    DateRowsAre(c, t);
  }

  lemma ChunkMapWhole(c: Config, rows: Rows, groups: seq<Rows>, open: bool)
    requires CanCut(c, rows, groups, open)
    ensures multiset(RowsOfFiles(ChunkMap(groups, |groups|))) == multiset(rows)
  {
    ChunkMapRows(groups, |groups|);
    assert groups[..|groups|] == groups;
    CutKeepsRows(c, rows, groups, open);
  }

  lemma ChunksAreWhole(c: Config, t: Tier, rows: Rows, groups: seq<Rows>, open: bool)
    requires CanCut(c, rows, groups, open)
    requires FlatName(c) !in t.files && ChunkFiles(t, c.date) == ChunkMap(groups, |groups|)
    ensures ArchivedOrg(c, t, rows)
  {
    ChunkMapWhole(c, rows, groups, open);
    DateRowsAre(c, t);
  }

  lemma ArchivedByGroups(c: Config, t: Tier, rows: Rows, groups: seq<Rows>, open: bool)
    requires rows != [] && OrgInv(c, t, rows, Writing(|groups|, groups, open))
    ensures ArchivedOrg(c, t, rows)
  {
    if GoesFlat(groups, open) {
      FlatGroupIsWhole(c, t, rows, groups, open);
    } else {
      ChunksAreWhole(c, t, rows, groups, open);
    }
  }

  lemma OthersArchivedNext(c: Config, w: World, v: World, todo: seq<int>)
    requires todo != [] && OthersArchived(c, w, todo) && v.store == w.store && todo[0] in c.rows
    requires ArchivedOrg(c, StoreOf(w, todo[0]), c.rows[todo[0]])
    ensures OthersArchived(c, v, todo[1..])
  {
    forall org | org in c.rows && org in c.eligible && org !in todo[1..]
      ensures ArchivedOrg(c, StoreOf(v, org), c.rows[org])
    {
      assert StoreOf(v, org) == StoreOf(w, org);
      assert todo == [todo[0]] + todo[1..];
    }
  }

  /** The organisation at the head is finished: the rest of the invariant moves on. */
  lemma NextOrg(c: Config, w: World)
    requires Inv(c, w) && w.phase.Exporting? && w.phase.todo != []
    requires ArchivedOrg(c, StoreOf(w, w.phase.todo[0]), c.rows[w.phase.todo[0]])
    ensures Inv(c, w.(phase := Exporting(w.phase.todo[1..], Fresh)))
  {
    var v := w.(phase := Exporting(w.phase.todo[1..], Fresh));
    OthersArchivedNext(c, w, v, w.phase.todo);
    assert forall org :: StoreOf(v, org) == StoreOf(w, org);
  }

  /** Only the head organisation's storage and progress change. */
  lemma SameOrg(c: Config, w: World, t: Tier, p: OrgPhase)
    requires Inv(c, w) && w.phase.Exporting? && w.phase.todo != []
    requires FlatIsWhole(c, t, c.rows[w.phase.todo[0]]) && OrgInv(c, t, c.rows[w.phase.todo[0]], p)
    ensures Inv(c, SetStore(w, w.phase.todo[0], t).(phase := w.phase.(org := p)))
  {
    var org := w.phase.todo[0];
    var v := SetStore(w, org, t).(phase := w.phase.(org := p));
    assert forall o :: StoreOf(v, o) == if o == org then t else StoreOf(w, o);
  }

  lemma LookKeeps(c: Config, w: World, v: World)
    requires Inv(c, w) && Look(c, w, v)
    ensures Inv(c, v)
  {
    var org := w.phase.todo[0];
    var t := StoreOf(w, org);
    if FlatName(c) in t.files {
      ArchivedByFlat(c, t, c.rows[org]);
      NextOrg(c, w);
    } else {
      assert forall o :: StoreOf(v, o) == StoreOf(w, o);
    }
  }

  lemma ClearKeeps(c: Config, w: World, v: World)
    requires Inv(c, w) && Clear(c, w, v)
    ensures Inv(c, v)
  {
    var org, p := w.phase.todo[0], w.phase.org;
    var t := StoreOf(w, org);
    if p.names == [] {
      assert ChunkFiles(t, c.date) == map[];
      assert forall o :: StoreOf(v, o) == StoreOf(w, o);
    } else {
      var next := DeleteChunk(t, c.date, p.names[0]);
      assert forall n :: n in ChunkFiles(next, c.date) ==> n in ChunkFiles(t, c.date) && n != p.names[0];
      assert p.names == [p.names[0]] + p.names[1..];
      SameOrg(c, w, next, p.(names := p.names[1..]));
    }
  }

  lemma PutKeeps(c: Config, t: Tier, rows: Rows, k: nat, groups: seq<Rows>, open: bool)
    requires OrgInv(c, t, rows, Writing(k, groups, open)) && k < |groups|
    ensures var next := PutFile(t, GroupPath(c, k, groups, open), groups[k]);
            OrgInv(c, next, rows, Writing(k + 1, groups, open)) && FlatIsWhole(c, next, rows)
  {
    if GoesFlat(groups, open) {
      FlatGroupIsWhole(c, PutFile(t, GroupPath(c, k, groups, open), groups[k]), rows, groups, open);
    }
  }

  lemma WroteAllKeeps(c: Config, w: World)
    requires Inv(c, w) && w.phase.Exporting? && w.phase.todo != [] && w.phase.org.Writing? && w.phase.org.k >= |w.phase.org.groups|
    ensures Inv(c, w.(phase := Exporting(w.phase.todo[1..], Fresh)))
  {
    var org, p := w.phase.todo[0], w.phase.org;
    ArchivedByGroups(c, StoreOf(w, org), c.rows[org], p.groups, p.open);
    NextOrg(c, w);
  }

  lemma WriteKeeps(c: Config, w: World, v: World)
    requires Inv(c, w) && Write(c, w, v)
    ensures Inv(c, v)
  {
    var org, p := w.phase.todo[0], w.phase.org;
    var t := StoreOf(w, org);
    if p.k >= |p.groups| {
      WroteAllKeeps(c, w);
    } else {
      PutKeeps(c, t, c.rows[org], p.k, p.groups, p.open);
      SameOrg(c, w, PutFile(t, GroupPath(c, p.k, p.groups, p.open), p.groups[p.k]), p.(k := p.k + 1));
    }
  }

  lemma RestKeeps(c: Config, w: World, v: World)
    requires Inv(c, w)
    requires Begin(c, w, v) || Exported(w, v) || Detach(w, v) || Drop(w, v) || Crash(w, v)
    ensures Inv(c, v)
  {
    assert forall o :: StoreOf(v, o) == StoreOf(w, o);
  }

  lemma StepKeeps(c: Config, w: World, v: World)
    requires Inv(c, w) && Step(c, w, v)
    ensures Inv(c, v)
  {
    if Look(c, w, v) {
      LookKeeps(c, w, v);
    } else if Clear(c, w, v) {
      ClearKeeps(c, w, v);
    } else if Write(c, w, v) {
      WriteKeeps(c, w, v);
    } else {
      RestKeeps(c, w, v);
    }
  }

  lemma InvIsSafe(c: Config, w: World)
    requires Inv(c, w)
    ensures NoLoss(c, w)
  {
  }

  lemma {:induction false} RunKeeps(c: Config, ws: seq<World>, i: nat)
    requires Run(c, ws) && i < |ws|
    requires c.backend || AllArchived(c, ws[0])
    ensures Inv(c, ws[i])
  {
    if i > 0 {
      RunKeeps(c, ws, i - 1);
      StepKeeps(c, ws[i - 1], ws[i]);
    }
  }

  /** Crash safety: with a storage backend, no run of exports, detaches and drops, however often
      it crashes and restarts, ever loses or duplicates an eligible organisation's row. */
  lemma NoRunLosesRows(c: Config, ws: seq<World>, i: nat)
    requires Run(c, ws) && i < |ws|
    requires c.backend || AllArchived(c, ws[0])
    ensures NoLoss(c, ws[i])
  {
    RunKeeps(c, ws, i);
    InvIsSafe(c, ws[i]);
  }

  /** Without a backend the export returns no files and the partition is dropped all the same. */
  function UnarchivedRun(w: World): seq<World> {
    var v := w.(phase := Detaching);
    [w, v, v.(attached := false, phase := Dropping), v.(attached := false, table := false, phase := Done)]
  }

  lemma NoBackendDrops(c: Config, w: World)
    requires Init(c, w) && !c.backend && !AllArchived(c, w)
    ensures Run(c, UnarchivedRun(w)) && UnarchivedRun(w)[0] == w && !NoLoss(c, UnarchivedRun(w)[3])
  {
    var ws := UnarchivedRun(w);
    assert Begin(c, ws[0], ws[1]) && Detach(ws[1], ws[2]) && Drop(ws[2], ws[3]);
    var org :| org in c.rows && org in c.eligible && !ArchivedOrg(c, StoreOf(w, org), c.rows[org]);
    assert StoreOf(ws[3], org) == StoreOf(w, org);
  }

  /** The exact condition: every run from `w` is loss-free if and only if a storage backend is
      configured or every eligible organisation had been archived before. */
  lemma LossFreeExactly(c: Config, w: World)
    requires Init(c, w)
    ensures (forall ws, i :: Run(c, ws) && ws[0] == w && 0 <= i < |ws| ==> NoLoss(c, ws[i]))
            <==> c.backend || AllArchived(c, w)
  {
    if c.backend || AllArchived(c, w) {
      forall ws, i | Run(c, ws) && ws[0] == w && 0 <= i < |ws| ensures NoLoss(c, ws[i]) {
        NoRunLosesRows(c, ws, i);
      }
    } else {
      NoBackendDrops(c, w);
      assert 0 <= 3 < |UnarchivedRun(w)|;
    }
  }

  // ----- an uninterrupted rerun always finishes -----

  function PhaseRank(w: World): nat {
    match w.phase
    case Idle => 4
    case Exporting(_, _) => 3
    case Detaching => 2
    case Dropping => 1
    case Done => 0
  }

  function OrgsLeft(w: World): nat {
    if w.phase.Exporting? then |w.phase.todo| else 0
  }

  function OrgRank(w: World): nat {
    if !w.phase.Exporting? then 0
    else
      match w.phase.org
      case Fresh => 2
      case Clearing(_, _, _) => 1
      case Writing(_, _, _) => 0
  }

  function StepsLeft(w: World): nat {
    if !w.phase.Exporting? then 0
    else
      match w.phase.org
      case Fresh => 0
      case Clearing(names, _, _) => |names|
      case Writing(k, groups, _) => if k < |groups| then |groups| - k else 0
  }

  /** The lexicographic order on (phase, organisations left, stage of the export, files left). */
  predicate Nearer(v: World, w: World) {
    || PhaseRank(v) < PhaseRank(w)
    || (PhaseRank(v) == PhaseRank(w) &&
        (|| OrgsLeft(v) < OrgsLeft(w)
         || (OrgsLeft(v) == OrgsLeft(w) &&
             (|| OrgRank(v) < OrgRank(w)
              || (OrgRank(v) == OrgRank(w) && StepsLeft(v) < StepsLeft(w))))))
  }

  /** Without crashes every step brings the end nearer, so no run goes on for ever. */
  lemma WorkGetsNearer(c: Config, w: World, v: World)
    requires Work(c, w, v)
    ensures Nearer(v, w)
  {
  }

  lemma {:induction false} Greatest(orgs: set<int>, x: int) returns (g: int)
    requires x in orgs
    ensures g in orgs && forall o :: o in orgs ==> o <= g
    decreases |orgs|
  {
    g := x;
    if y :| y in orgs - {x} {
      var h := Greatest(orgs - {x}, y);
      g := if x < h then h else x;
    }
    forall o | o in orgs ensures o <= g { assert o == x || o in orgs - {x}; }
  }

  lemma {:induction false} OrderOrgs(orgs: set<int>) returns (todo: seq<int>)
    ensures OrgsInOrder(todo, orgs)
    decreases |orgs|
  {
    if x :| x in orgs {
      var g := Greatest(orgs, x);
      var rest := OrderOrgs(orgs - {g});
      todo := rest + [g];
      forall i | 0 <= i < |rest| ensures rest[i] < g { assert rest[i] in rest; }
    } else {
      todo := [];
    }
  }

  /** The export of the rows in the order given. */
  lemma SomeCut(c: Config, rows: Rows, memory: Option<int>) returns (groups: seq<Rows>, open: bool)
    requires memory in c.memory
    ensures CanCut(c, rows, groups, open) && IsExport(c, rows, groups, open, memory, LinesOf(c, rows))
  {
    var full := IsFull(CutOf(c, memory));
    groups, open := GroupRows(Split(full, [], LinesOf(c, rows))), EndsOpen(full, LinesOf(c, rows));
    assert IsExport(c, rows, groups, open, memory, LinesOf(c, rows));
  }

  /** Until it is done, an uninterrupted run always has a next step. */
  lemma WorkIsPossible(c: Config, w: World) returns (v: World)
    requires Inv(c, w) && w.phase != Done
    ensures Work(c, w, v)
  {
    match w.phase
    case Idle =>
      var todo := OrderOrgs(c.rows.Keys * c.eligible);
      v := if !c.backend || !w.table then w.(phase := Detaching) else w.(phase := Exporting(todo, Fresh));
      assert Begin(c, w, v);
    case Exporting(todo, p) =>
      if todo == [] {
        v := w.(phase := Detaching);
        assert Exported(w, v);
      } else {
        v := ExportIsPossible(c, w);
      }
    case Detaching =>
      v := w.(attached := false, phase := Dropping);
      assert Detach(w, v);
    case Dropping =>
      v := w.(table := false, phase := Done);
      assert Drop(w, v);
  }

  /** The organisation is skipped, or its chunks are listed for clearing and its rows cut in the order
      the partition holds them. */
  lemma LookIsPossible(c: Config, w: World, memory: Option<int>) returns (v: World)
    requires Inv(c, w) && w.phase.Exporting? && w.phase.todo != [] && w.phase.org == Fresh && memory in c.memory
    ensures Look(c, w, v) && v == w.(phase := v.phase)
    ensures if FlatName(c) in StoreOf(w, w.phase.todo[0]).files then v.phase == Exporting(w.phase.todo[1..], Fresh)
            else v.phase == w.phase.(org := v.phase.org) && v.phase.org.Clearing?
                 && IsExport(c, c.rows[w.phase.todo[0]], v.phase.org.groups, v.phase.org.open, memory, LinesOf(c, c.rows[w.phase.todo[0]]))
  {
    var org, t := w.phase.todo[0], StoreOf(w, w.phase.todo[0]);
    var groups, open := SomeCut(c, c.rows[org], memory);
    v := if FlatName(c) in t.files then w.(phase := Exporting(w.phase.todo[1..], Fresh))
         else w.(phase := w.phase.(org := Clearing(Sorted(ChunkFiles(t, c.date).Keys), groups, open)));
  }

  lemma ExportIsPossible(c: Config, w: World) returns (v: World)
    requires Inv(c, w) && w.phase.Exporting? && w.phase.todo != []
    ensures Work(c, w, v)
  {
    var org, t := w.phase.todo[0], StoreOf(w, w.phase.todo[0]);
    match w.phase.org
    case Fresh =>
      var memory :| memory in c.memory;
      v := LookIsPossible(c, w, memory);
    case Clearing(names, groups, open) =>
      v := if names == [] then w.(phase := w.phase.(org := Writing(0, groups, open)))
           else SetStore(w, org, DeleteChunk(t, c.date, names[0])).(phase := w.phase.(org := Clearing(names[1..], groups, open)));
      assert Clear(c, w, v);
    case Writing(k, groups, open) =>
      v := if k >= |groups| then w.(phase := Exporting(w.phase.todo[1..], Fresh))
           else SetStore(w, org, PutFile(t, GroupPath(c, k, groups, open), groups[k])).(phase := w.phase.(org := Writing(k + 1, groups, open)));
      assert Write(c, w, v);
  }

  ghost predicate Uninterrupted(c: Config, ws: seq<World>) {
    ws != [] && forall i :: 0 <= i < |ws| - 1 ==> Work(c, ws[i], ws[i + 1])
  }

  /** Every uninterrupted run keeps the invariant and comes nearer the end with every step, and
      wherever it cannot go on it has ended detached, dropped and fully archived. */
  lemma {:induction false} EveryRerunEndsWell(c: Config, ws: seq<World>, i: nat)
    requires Uninterrupted(c, ws) && Inv(c, ws[0]) && i < |ws|
    ensures Inv(c, ws[i])
    ensures i + 1 < |ws| ==> Nearer(ws[i + 1], ws[i])
    ensures (forall v :: !Work(c, ws[i], v)) ==> ws[i].phase == Done && !ws[i].table && !ws[i].attached && AllArchived(c, ws[i])
  {
    if i > 0 {
      EveryRerunEndsWell(c, ws, i - 1);
      StepKeeps(c, ws[i - 1], ws[i]);
    }
    if i + 1 < |ws| { WorkGetsNearer(c, ws[i], ws[i + 1]); }
    if ws[i].phase != Done {
      var v := WorkIsPossible(c, ws[i]);
    }
  }

  /** From any state a crash can leave behind, a rerun that is not interrupted ends with the
      partition detached, dropped and every eligible row in cold storage. */
  lemma RerunFinishes(c: Config, w: World) returns (ws: seq<World>)
    requires Inv(c, w)
    ensures Uninterrupted(c, ws) && ws[0] == w
    ensures var last := ws[|ws| - 1]; last.phase == Done && !last.table && !last.attached && AllArchived(c, last)
    decreases PhaseRank(w), OrgsLeft(w), OrgRank(w), StepsLeft(w)
  {
    if w.phase == Done {
      ws := [w];
    } else {
      var v := WorkIsPossible(c, w);
      StepKeeps(c, w, v);
      WorkGetsNearer(c, w, v);
      var rest := RerunFinishes(c, v);
      ws := [w] + rest;
      forall i | 0 <= i < |ws| - 1 ensures Work(c, ws[i], ws[i + 1]) {
        if i > 0 { assert ws[i] == rest[i - 1] && ws[i + 1] == rest[i]; }
      }
    }
  }

  /** One write of the protocol is one more group of the stream. */
  lemma WriteAddsGroup(c: Config, t: Tier, groups: seq<Rows>, open: bool, k: nat)
    requires k < |groups|
    ensures PutFile(PutGroups(t, c.date, groups[..k], false), GroupPath(c, k, groups, open), groups[k])
            == PutGroups(t, c.date, groups[..k + 1], open && k + 1 == |groups|)
  {
    assert groups[..k + 1][..k] == groups[..k];
  }

  /** The storage of the organisation being written and its progress. */
  predicate WritingAt(w: World, org: int, k: nat, groups: seq<Rows>, open: bool) {
    w.phase.Exporting? && w.phase.todo != [] && w.phase.todo[0] == org && w.phase.org == Writing(k, groups, open)
  }

  lemma {:induction false} WritesSoFar(c: Config, ws: seq<World>, org: int, groups: seq<Rows>, open: bool, k: nat)
    requires ws != [] && WritingAt(ws[0], org, 0, groups, open) && k < |ws| && k <= |groups|
    requires forall i :: 0 <= i < |ws| - 1 ==> Write(c, ws[i], ws[i + 1])
    ensures WritingAt(ws[k], org, k, groups, open)
    ensures StoreOf(ws[k], org) == PutGroups(StoreOf(ws[0], org), c.date, groups[..k], open && k == |groups|)
    ensures forall o :: o != org ==> StoreOf(ws[k], o) == StoreOf(ws[0], o)
  {
    if k > 0 {
      WritesSoFar(c, ws, org, groups, open, k - 1);
      WriteAddsGroup(c, StoreOf(ws[0], org), groups, open, k - 1);
      assert Write(c, ws[k - 1], ws[k]);
    }
  }

  /** The protocol refines the streaming loop: after all the writes of an export that was cut as the
      loop cuts, the organisation's storage is exactly what `OrgExport.Stream` leaves, and every
      other organisation's is untouched. */
  lemma WritesEqualStream(c: Config, ws: seq<World>, org: int, cut: Cut, lines: seq<Line>)
    requires var groups, open := GroupRows(Split(IsFull(cut), [], lines)), EndsOpen(IsFull(cut), lines);
             |ws| == |groups| + 1 && WritingAt(ws[0], org, 0, groups, open)
    requires forall i :: 0 <= i < |ws| - 1 ==> Write(c, ws[i], ws[i + 1])
    ensures StoreOf(ws[|ws| - 1], org)
            == PutGroups(StoreOf(ws[0], org), c.date, GroupRows(Split(IsFull(cut), [], lines)), EndsOpen(IsFull(cut), lines))
    ensures forall o :: o != org ==> StoreOf(ws[|ws| - 1], o) == StoreOf(ws[0], o)
  {
    var groups := GroupRows(Split(IsFull(cut), [], lines));
    WritesSoFar(c, ws, org, groups, EndsOpen(IsFull(cut), lines), |groups|);
    assert groups[..|groups|] == groups;
  }

  /** Chunks numbered from 0 without a gap, and nothing else touched. */
  lemma {:induction false} ChunksWritten(t: Tier, date: string, groups: seq<Rows>, k: nat)
    requires k <= |groups| && ChunkFiles(t, date) == map[]
    ensures var u := PutGroups(t, date, groups[..k], false);
            ChunkFiles(u, date) == ChunkMap(groups, k) && u.files == t.files
  {
    if k > 0 {
      ChunksWritten(t, date, groups, k - 1);
      assert groups[..k][..k - 1] == groups[..k - 1];
    }
  }

  /** What an export leaves for its date: one flat file if its only group stayed open, otherwise
      exactly the chunks 0 to n - 1, chunk i holding group i. */
  lemma ExportedFiles(t: Tier, date: string, groups: seq<Rows>, open: bool)
    requires groups != [] && ChunkFiles(t, date) == map[]
    ensures var u := PutGroups(t, date, groups, open);
            if GoesFlat(groups, open) then u == t.(files := t.files[date + EXT := groups[0]])
            else u.files == t.files && ChunkFiles(u, date) == ChunkMap(groups, |groups|)
  {
    assert groups[..|groups|] == groups;
    ChunksWritten(t, date, groups, |groups| - 1);
    ChunksWritten(t, date, groups, |groups|);
    if |groups| == 1 { assert groups[..0] == []; }
  }

  // ----- which exports are flat -----

  function TotalBytes(bytes: Row -> nat, rows: Rows): nat {
    if rows == [] then 0 else TotalBytes(bytes, rows[..|rows| - 1]) + bytes(rows[|rows| - 1])
  }

  lemma {:induction false} TotalAppend(bytes: Row -> nat, a: Rows, b: Rows)
    ensures TotalBytes(bytes, a + b) == TotalBytes(bytes, a) + TotalBytes(bytes, b)
  {
    if b == [] {
      assert a + b == a;
    } else {
      assert (a + b)[..|a + b| - 1] == a + b[..|b| - 1];
      TotalAppend(bytes, a, b[..|b| - 1]);
    }
  }

  lemma {:induction false} TotalPermuted(bytes: Row -> nat, a: Rows, b: Rows)
    requires multiset(a) == multiset(b)
    ensures TotalBytes(bytes, a) == TotalBytes(bytes, b) && |a| == |b|
  {
    assert |multiset(a)| == |a| && |multiset(b)| == |b|;
    if a != [] {
      var x, y := LastElsewhere(a, b);
      var last := a[|a| - 1];
      TotalPermuted(bytes, a[..|a| - 1], x + y);
      TotalAppend(bytes, x + [last], y);
      TotalAppend(bytes, x, [last]);
      TotalAppend(bytes, x, y);
      assert [last][..0] == [];
    }
  }

  lemma {:induction false} LinesTotal(c: Config, lines: seq<Line>)
    requires AreLines(c, lines)
    ensures Bytes(lines) == TotalBytes(c.bytes, RowsOf(lines))
  {
    if lines != [] {
      LinesTotal(c, lines[..|lines| - 1]);
      assert RowsOf(lines)[..|lines| - 1] == RowsOf(lines[..|lines| - 1]);
    }
  }

  /** The header and all rows together stay below both limits. */
  predicate Small(c: Config, rows: Rows, memory: Option<int>) {
    c.header + TotalBytes(c.bytes, rows) < ChunkLimit(memory) && |rows| < CHUNK_ROWS
  }

  /** In whatever order the rows arrive, an export goes to one flat file exactly if they are small. */
  lemma FlatIffSmall(c: Config, rows: Rows, groups: seq<Rows>, open: bool, memory: Option<int>, lines: seq<Line>)
    requires rows != [] && IsExport(c, rows, groups, open, memory, lines)
    ensures GoesFlat(groups, open) <==> Small(c, rows, memory)
  {
    TotalPermuted(c.bytes, RowsOf(lines), rows);
    LinesTotal(c, lines);
    FlatIffBelowLimits(CutOf(c, memory), lines);
  }

  // ----- the order an export leaves -----

  /** Elements of an earlier group stand before those of a later one. */
  lemma {:induction false} FlattenOrder<T>(groups: seq<seq<T>>, rel: (T, T) -> bool, i: nat, j: nat, a: T, b: T)
    requires Pairwise(Flatten(groups), rel) && i < j < |groups| && a in groups[i] && b in groups[j]
    ensures rel(a, b)
  {
    var init, last := groups[..|groups| - 1], groups[|groups| - 1];
    if j < |init| {
      forall m, n | 0 <= m < n < |Flatten(init)| ensures rel(Flatten(init)[m], Flatten(init)[n]) {
        assert Flatten(groups)[m] == Flatten(init)[m] && Flatten(groups)[n] == Flatten(init)[n];
      }
      FlattenOrder(init, rel, i, j, a, b);
    } else {
      FlattenHas(init, init[i], a);
      var m :| 0 <= m < |Flatten(init)| && Flatten(init)[m] == a;
      var n :| 0 <= n < |last| && last[n] == b;
      assert Flatten(groups)[m] == a && Flatten(groups)[|Flatten(init)| + n] == b;
    }
  }

  ghost predicate GroupsAscend(groups: seq<Rows>) {
    forall i, j, x: Row, r: Row :: 0 <= i < j < |groups| && x in groups[i] && r in groups[j] ==> x.id < r.id
  }

  lemma ChunkNameOf(u: Tier, date: string, groups: seq<Rows>, p: Path) returns (i: nat)
    requires ChunkFiles(u, date) == ChunkMap(groups, |groups|) && Visible(u, All, p) && p.Chunk? && p.dir == date
    ensures i < |groups| && p.name == ChunkName(i) && RowsAt(u, p) == groups[i]
  {
    ChunkMapNames(groups, |groups|, p.name);
    i :| 0 <= i < |groups| && ChunkNames(|groups|)[i] == p.name;
    ChunkMapAt(groups, |groups|, i);
  }

  lemma FewChunksAscend(u: Tier, date: string, groups: seq<Rows>)
    requires ChunkFiles(u, date) == ChunkMap(groups, |groups|) && GroupsAscend(groups) && |groups| <= 1000
    ensures DateAscends(u, date)
  {
    forall p, q, x, r | InChunks(u, p, q) && p.dir == date && x in RowsAt(u, p) && r in RowsAt(u, q) ensures x.id <= r.id {
      var i := ChunkNameOf(u, date, groups, p);
      var j := ChunkNameOf(u, date, groups, q);
      if j < i {
        ChunkNameOrder(j, i);
        LeAntisym(p.name, q.name);
      }
    }
  }

  lemma ChunkInPlace(u: Tier, date: string, groups: seq<Rows>, m: nat)
    requires ChunkFiles(u, date) == ChunkMap(groups, |groups|) && date + EXT !in u.files && m < |groups|
    ensures Visible(u, All, Chunk(date, ChunkName(m))) && RowsAt(u, Chunk(date, ChunkName(m))) == groups[m]
  {
    ChunkMapAt(groups, |groups|, m);
    ChunkNameParquet(m);
  }

  lemma PairDescends(u: Tier, p: Path, q: Path, x: Row, r: Row)
    requires InChunks(u, p, q) && x in RowsAt(u, p) && r in RowsAt(u, q) && r.id < x.id
    ensures !DateAscends(u, p.dir)
  {
  }

  /** A later chunk listed before an earlier one breaks the order. */
  lemma MisplacedDescends(u: Tier, date: string, groups: seq<Rows>, m: nat, n: nat)
    requires ChunkFiles(u, date) == ChunkMap(groups, |groups|) && GroupsAscend(groups) && date + EXT !in u.files
    requires n < m < |groups| && Lt(ChunkName(m), ChunkName(n)) && groups[m] != [] && groups[n] != []
    ensures !DateAscends(u, date)
  {
    ChunkInPlace(u, date, groups, m);
    ChunkInPlace(u, date, groups, n);
    PairDescends(u, Chunk(date, ChunkName(m)), Chunk(date, ChunkName(n)), groups[m][0], groups[n][0]);
  }

  const ById: (Line, Line) -> bool := (a: Line, b: Line) => a.row.id < b.row.id

  lemma OrderedGroups(full: seq<Line> -> bool, lines: seq<Line>)
    requires Pairwise(lines, ById)
    ensures GroupsAscend(GroupRows(Split(full, [], lines)))
    ensures forall i :: 0 <= i < |Split(full, [], lines)| ==> GroupRows(Split(full, [], lines))[i] != []
  {
    var groups := Split(full, [], lines);
    SplitIsCut(full, lines);
    forall i, j, x: Row, r: Row | 0 <= i < j < |groups| && x in GroupRows(groups)[i] && r in GroupRows(groups)[j] ensures x.id < r.id {
      var a: Line :| a in groups[i] && a.row == x;
      var b: Line :| b in groups[j] && b.row == r;
      FlattenOrder(groups, ById, i, j, a, b);
    }
    forall i | 0 <= i < |groups| ensures GroupRows(groups)[i] != [] {
      assert groups[i] in groups;
    }
  }

  /** Rows streamed in id order leave chunks in id order, as listed, if and only if they fill at
      most 1000 groups. */
  lemma OrderedExportAscends(t: Tier, date: string, cut: Cut, lines: seq<Line>)
    requires Pairwise(lines, ById) && lines != [] && ChunkFiles(t, date) == map[] && date + EXT !in t.files
    ensures var groups := Split(IsFull(cut), [], lines);
            DateAscends(PutGroups(t, date, GroupRows(groups), EndsOpen(IsFull(cut), lines)), date) <==> |groups| <= 1000
  {
    var full := IsFull(cut);
    var rows, open := GroupRows(Split(full, [], lines)), EndsOpen(full, lines);
    OrderedGroups(full, lines);
    SplitContents(full, [], lines);
    ExportedFiles(t, date, rows, open);
    var u := PutGroups(t, date, rows, open);
    if GoesFlat(rows, open) {
      assert DateAscends(u, date);
    } else if |rows| <= 1000 {
      FewChunksAscend(u, date, rows);
    } else {
      ThousandthChunkMisplaced();
      MisplacedDescends(u, date, rows, 1000, 101);
    }
  }
}
