/** Removing a deleted project's rows from cold storage, file by file. */
module ColdRewrite {
  import opened Names
  import opened Sequences
  import opened ColdListing

  /** What one file holds afterwards; `None` when it is deleted. `keep` is the WHERE filter;
      a file whose processing raises is logged and left as it is. */
  function After(rows: Rows, keep: Row -> bool, readable: bool): Option<Rows> {
    if !readable then Some(rows)
    else if |Keep(rows, keep)| == 0 then None
    else Some(Keep(rows, keep))
  }

  function AfterAt(t: Tier, p: Path, keep: Row -> bool, readable: Path -> bool): Option<Rows> {
    if Visible(t, All, p) then After(RowsAt(t, p), keep, readable(p)) else Some(RowsAt(t, p))
  }

  /** The tree after the rewrite: every visible file is filtered, the shadowed ones untouched. */
  function Purged(t: Tier, keep: Row -> bool, readable: Path -> bool): Tier {
    Tier(map n | n in t.files && AfterAt(t, File(n), keep, readable).Some? :: AfterAt(t, File(n), keep, readable).value,
         map d | d in t.dirs ::
           map n | n in t.dirs[d] && AfterAt(t, Chunk(d, n), keep, readable).Some?
             :: AfterAt(t, Chunk(d, n), keep, readable).value)
  }

  predicate Present(t: Tier, p: Path) {
    match p
    case File(n) => n in t.files
    case Chunk(d, n) => d in t.dirs && n in t.dirs[d]
  }

  function Delete(t: Tier, p: Path): Tier {
    match p
    case File(n) => t.(files := t.files - {n})
    case Chunk(d, n) => if d in t.dirs then t.(dirs := t.dirs[d := t.dirs[d] - {n}]) else t
  }

  function Write(t: Tier, p: Path, rows: Rows): Tier
    requires Present(t, p)
  {
    match p
    case File(n) => t.(files := t.files[n := rows])
    case Chunk(d, n) => t.(dirs := t.dirs[d := t.dirs[d][n := rows]])
  }

  lemma DeleteAt(t: Tier, p: Path, q: Path)
    ensures Present(Delete(t, p), q) <==> Present(t, q) && q != p
    ensures q != p ==> RowsAt(Delete(t, p), q) == RowsAt(t, q)
  {
  }

  lemma WriteAt(t: Tier, p: Path, rows: Rows, q: Path)
    requires Present(t, p)
    ensures Present(Write(t, p, rows), q) <==> Present(t, q)
    ensures RowsAt(Write(t, p, rows), q) == if q == p then rows else RowsAt(t, q)
  {
  }

  /** One pass of the loop body changes its own file and nothing else. */
  lemma RewriteOneAt(t: Tier, p: Path, keep: Row -> bool, readable: bool, q: Path)
    requires Present(t, p)
    ensures q == p ==> FileIs(RewriteOne(t, p, keep, readable), q, After(RowsAt(t, p), keep, readable))
    ensures q != p ==> (Present(RewriteOne(t, p, keep, readable), q) <==> Present(t, q))
                       && RowsAt(RewriteOne(t, p, keep, readable), q) == RowsAt(t, q)
    ensures RewriteOne(t, p, keep, readable).dirs.Keys == t.dirs.Keys
  {
    DeleteAt(t, p, q);
    forall rows { WriteAt(t, p, rows, q); }
  }

  lemma TierExtensional(a: Tier, b: Tier)
    requires a.dirs.Keys == b.dirs.Keys
    requires forall p :: Present(a, p) <==> Present(b, p)
    requires forall p :: RowsAt(a, p) == RowsAt(b, p)
    ensures a == b
  {
    forall n ensures n in a.files <==> n in b.files
             ensures n in a.files ==> a.files[n] == b.files[n]
    {
      assert Present(a, File(n)) <==> Present(b, File(n));
      assert RowsAt(a, File(n)) == RowsAt(b, File(n));
    }
    forall d | d in a.dirs ensures a.dirs[d] == b.dirs[d] {
      forall n ensures n in a.dirs[d] <==> n in b.dirs[d]
               ensures n in a.dirs[d] ==> a.dirs[d][n] == b.dirs[d][n]
      {
        assert Present(a, Chunk(d, n)) <==> Present(b, Chunk(d, n));
        assert RowsAt(a, Chunk(d, n)) == RowsAt(b, Chunk(d, n));
      }
    }
  }

  /** The loop body for one listed file; a file that has vanished is skipped. */
  function RewriteOne(t: Tier, p: Path, keep: Row -> bool, readable: bool): Tier {
    if !Present(t, p) then t
    else
      match After(RowsAt(t, p), keep, readable)
      case None => Delete(t, p)
      case Some(rows) => if rows == RowsAt(t, p) then t else Write(t, p, rows)
  }

  predicate Touched(t: Tier, p: Path, keep: Row -> bool, readable: bool) {
    Present(t, p) && readable && (Keep(RowsAt(t, p), keep) == [] || Keep(RowsAt(t, p), keep) != RowsAt(t, p))
  }

  function RewriteAll(t: Tier, paths: seq<Path>, keep: Row -> bool, readable: Path -> bool): Tier {
    if paths == [] then t
    else
      var p := paths[|paths| - 1];
      RewriteOne(RewriteAll(t, paths[..|paths| - 1], keep, readable), p, keep, readable(p))
  }

  /** How many listed files end up deleted or rewritten, each judged by its own content. */
  function TouchCount(t: Tier, paths: seq<Path>, keep: Row -> bool, readable: Path -> bool): nat {
    if paths == [] then 0
    else
      var p := paths[|paths| - 1];
      TouchCount(t, paths[..|paths| - 1], keep, readable) + if Touched(t, p, keep, readable(p)) then 1 else 0
  }

  /** The state half-way through: the files of `done` are filtered, every other one is as it was. */
  ghost predicate Midway(t0: Tier, t: Tier, done: seq<Path>, keep: Row -> bool, readable: Path -> bool) {
    && t.dirs.Keys == t0.dirs.Keys
    && (forall p :: p !in done ==> (Present(t, p) <==> Present(t0, p)) && RowsAt(t, p) == RowsAt(t0, p))
    && (forall p :: p in done ==> FileIs(t, p, After(RowsAt(t0, p), keep, readable(p))))
  }

  predicate FileIs(t: Tier, p: Path, content: Option<Rows>) {
    match content
    case None => !Present(t, p) && RowsAt(t, p) == []
    case Some(rows) => Present(t, p) && RowsAt(t, p) == rows
  }

  /** Files are rewritten independently: each ends as its own content alone decides. */
  lemma {:induction false} RewriteAllMidway(t: Tier, paths: seq<Path>, keep: Row -> bool, readable: Path -> bool)
    requires Distinct(paths) && forall p :: p in paths ==> Present(t, p)
    ensures Midway(t, RewriteAll(t, paths, keep, readable), paths, keep, readable)
  {
    if paths != [] {
      var init, p := paths[..|paths| - 1], paths[|paths| - 1];
      assert paths == init + [p] && p !in init;
      RewriteAllMidway(t, init, keep, readable);
      var half := RewriteAll(t, init, keep, readable);
      MidwayStep(t, half, init, p, keep, readable);
    }
  }

  lemma MidwayStep(t0: Tier, t: Tier, done: seq<Path>, p: Path, keep: Row -> bool, readable: Path -> bool)
    requires Midway(t0, t, done, keep, readable)
    requires p !in done && Present(t, p)
    ensures Midway(t0, RewriteOne(t, p, keep, readable(p)), done + [p], keep, readable)
  {
    var r := RewriteOne(t, p, keep, readable(p));
    forall q { RewriteOneAt(t, p, keep, readable(p), q); }
    forall q | q in done + [p] ensures FileIs(r, q, After(RowsAt(t0, q), keep, readable(q))) {
      if q != p { assert q in done; }
    }
  }

  lemma PurgedAt(t: Tier, p: Path, keep: Row -> bool, readable: Path -> bool)
    ensures Present(Purged(t, keep, readable), p) <==> Present(t, p) && AfterAt(t, p, keep, readable).Some?
    ensures RowsAt(Purged(t, keep, readable), p)
            == if Present(t, p) && AfterAt(t, p, keep, readable).Some? then AfterAt(t, p, keep, readable).value else []
  {
    match p
    case File(n) =>
    case Chunk(d, n) => assert d in t.dirs <==> d in Purged(t, keep, readable).dirs;
  }

  lemma MidwayAt(t0: Tier, t: Tier, p: Path, keep: Row -> bool, readable: Path -> bool)
    requires Midway(t0, t, Listing(t0, All), keep, readable)
    ensures Present(t, p) <==> Present(Purged(t0, keep, readable), p)
    ensures RowsAt(t, p) == RowsAt(Purged(t0, keep, readable), p)
  {
    PurgedAt(t0, p, keep, readable);
    ListingMember(t0, All, p);
    if p in Listing(t0, All) {
      assert FileIs(t, p, After(RowsAt(t0, p), keep, readable(p)));
    }
  }

  lemma RewriteAllIsPurged(t: Tier, keep: Row -> bool, readable: Path -> bool)
    ensures RewriteAll(t, Listing(t, All), keep, readable) == Purged(t, keep, readable)
  {
    var r := RewriteAll(t, Listing(t, All), keep, readable);
    ListingExact(t, All);
    RewriteAllMidway(t, Listing(t, All), keep, readable);
    forall p { MidwayAt(t, r, p, keep, readable); }
    TierExtensional(r, Purged(t, keep, readable));
  }

  /** One organisation's flat-layout storage, rewritten in place. */
  class OrgStorage {
    var tree: Tier

    constructor (t: Tier)
      ensures tree == t
    {
      tree := t;
    }

    /** The body of the loop: count, then delete, skip or replace. */
    method RewriteFile(p: Path, keep: Row -> bool, readable: bool) returns (changed: bool)
      modifies this
      ensures tree == RewriteOne(old(tree), p, keep, readable)
      ensures changed <==> Touched(old(tree), p, keep, readable)
    {
      if !readable || !Present(tree, p) {
        return false;
      }
      var rows := RowsAt(tree, p);
      var remaining := |Keep(rows, keep)|;
      KeepAll(rows, keep);
      if remaining == 0 {
        tree := Delete(tree, p);
        return true;
      }
      if remaining == |rows| {
        return false;
      }
      tree := Write(tree, p, Keep(rows, keep));
      return true;
    }

    /** rewrite_parquet_excluding_project over the flat layout; the result counts the files that
        had to be deleted or rewritten. */
    method RewriteExcluding(keep: Row -> bool, readable: Path -> bool) returns (rewritten: nat)
      modifies this
      ensures tree == RewriteAll(old(tree), Listing(old(tree), All), keep, readable)
      ensures rewritten == TouchCount(old(tree), Listing(old(tree), All), keep, readable)
    {
      AllListed(tree);
      var paths := EnumerateOrg(Some(tree), All, {});
      ListedPresent(tree);
      rewritten := RewriteListed(paths, keep, readable);
    }

    method RewriteListed(paths: seq<Path>, keep: Row -> bool, readable: Path -> bool) returns (rewritten: nat)
      requires Distinct(paths) && forall p :: p in paths ==> Present(tree, p)
      modifies this
      ensures tree == RewriteAll(old(tree), paths, keep, readable)
      ensures rewritten == TouchCount(old(tree), paths, keep, readable)
    {
      rewritten := 0;
      for i := 0 to |paths|
        invariant tree == RewriteAll(old(tree), paths[..i], keep, readable)
        invariant rewritten == TouchCount(old(tree), paths[..i], keep, readable)
      {
        assert paths[..i + 1][..i] == paths[..i];
        TouchedLater(old(tree), paths, i, keep, readable);
        var changed := RewriteFile(paths[i], keep, readable(paths[i]));
        if changed {
          rewritten := rewritten + 1;
        }
      }
      assert paths[..|paths|] == paths;
    }
  }

  lemma ListedPresent(t: Tier)
    ensures Distinct(Listing(t, All))
    ensures forall p :: p in Listing(t, All) ==> Present(t, p)
  {
    ListingExact(t, All);
  }

  /** Rewriting the files before it does not change whether a file has to be rewritten. */
  lemma TouchedLater(t: Tier, paths: seq<Path>, i: nat, keep: Row -> bool, readable: Path -> bool)
    requires Distinct(paths) && i < |paths| && forall p :: p in paths ==> Present(t, p)
    ensures Touched(RewriteAll(t, paths[..i], keep, readable), paths[i], keep, readable(paths[i]))
            <==> Touched(t, paths[i], keep, readable(paths[i]))
  {
    assert forall p :: p in paths[..i] ==> p in paths;
    RewriteAllMidway(t, paths[..i], keep, readable);
    assert paths[i] !in paths[..i];
  }

  // ----- the hour-tiered layout -----

  predicate HourPresent(t: HourTree, p: HourPath) {
    match p
    case Day(n) => n in t.days
    case Hour(d, q) => d in t.dates && Present(t.dates[d], q)
  }

  function HourAfterAt(t: HourTree, p: HourPath, keep: Row -> bool, readable: HourPath -> bool): Option<Rows> {
    if HourVisible(t, All, p) then After(HourRowsAt(t, p), keep, readable(p)) else Some(HourRowsAt(t, p))
  }

  /** The hour-tiered tree after the rewrite: sealed days filtered, open dates purged tier by
      tier, dates shadowed by a sealed day untouched. */
  function HourPurged(t: HourTree, keep: Row -> bool, readable: HourPath -> bool): HourTree {
    HourTree(map n | n in t.days && HourAfterAt(t, Day(n), keep, readable).Some? :: HourAfterAt(t, Day(n), keep, readable).value,
             map d | d in t.dates :: DatePurged(t, d, keep, readable))
  }

  function DatePurged(t: HourTree, d: string, keep: Row -> bool, readable: HourPath -> bool): Tier
    requires d in t.dates
  {
    if d + EXT in t.days then t.dates[d] else Purged(t.dates[d], keep, ReadableIn(d, readable))
  }

  function ReadableIn(d: string, readable: HourPath -> bool): Path -> bool {
    q => readable(Hour(d, q))
  }

  function HourDelete(t: HourTree, p: HourPath): HourTree
    requires HourPresent(t, p)
  {
    match p
    case Day(n) => t.(days := t.days - {n})
    case Hour(d, q) => t.(dates := t.dates[d := Delete(t.dates[d], q)])
  }

  function HourWrite(t: HourTree, p: HourPath, rows: Rows): HourTree
    requires HourPresent(t, p)
  {
    match p
    case Day(n) => t.(days := t.days[n := rows])
    case Hour(d, q) => t.(dates := t.dates[d := Write(t.dates[d], q, rows)])
  }

  ghost predicate HourSameDirs(a: HourTree, b: HourTree) {
    a.dates.Keys == b.dates.Keys && forall d :: d in a.dates ==> a.dates[d].dirs.Keys == b.dates[d].dirs.Keys
  }

  function HourRewriteOne(t: HourTree, p: HourPath, keep: Row -> bool, readable: bool): HourTree {
    if !HourPresent(t, p) then t
    else
      match After(HourRowsAt(t, p), keep, readable)
      case None => HourDelete(t, p)
      case Some(rows) => if rows == HourRowsAt(t, p) then t else HourWrite(t, p, rows)
  }

  function HourRewriteAll(t: HourTree, paths: seq<HourPath>, keep: Row -> bool, readable: HourPath -> bool): HourTree {
    if paths == [] then t
    else
      var p := paths[|paths| - 1];
      HourRewriteOne(HourRewriteAll(t, paths[..|paths| - 1], keep, readable), p, keep, readable(p))
  }

  lemma HourDeleteAt(t: HourTree, p: HourPath, q: HourPath)
    requires HourPresent(t, p)
    ensures HourPresent(HourDelete(t, p), q) <==> HourPresent(t, q) && q != p
    ensures q != p ==> HourRowsAt(HourDelete(t, p), q) == HourRowsAt(t, q)
    ensures HourSameDirs(HourDelete(t, p), t)
  {
    if p.Hour? && q.Hour? { DeleteAt(t.dates[p.date], p.path, q.path); }
  }

  lemma HourWriteAt(t: HourTree, p: HourPath, rows: Rows, q: HourPath)
    requires HourPresent(t, p)
    ensures HourPresent(HourWrite(t, p, rows), q) <==> HourPresent(t, q)
    ensures HourRowsAt(HourWrite(t, p, rows), q) == if q == p then rows else HourRowsAt(t, q)
    ensures HourSameDirs(HourWrite(t, p, rows), t)
  {
    if p.Hour? && q.Hour? { WriteAt(t.dates[p.date], p.path, rows, q.path); }
  }

  lemma HourRewriteOneAt(t: HourTree, p: HourPath, keep: Row -> bool, readable: bool, q: HourPath)
    requires HourPresent(t, p)
    ensures q == p ==> HourFileIs(HourRewriteOne(t, p, keep, readable), q, After(HourRowsAt(t, p), keep, readable))
    ensures q != p ==> (HourPresent(HourRewriteOne(t, p, keep, readable), q) <==> HourPresent(t, q))
                       && HourRowsAt(HourRewriteOne(t, p, keep, readable), q) == HourRowsAt(t, q)
    ensures HourSameDirs(HourRewriteOne(t, p, keep, readable), t)
  {
    HourDeleteAt(t, p, q);
    forall rows { HourWriteAt(t, p, rows, q); }
  }

  predicate HourFileIs(t: HourTree, p: HourPath, content: Option<Rows>) {
    match content
    case None => !HourPresent(t, p) && HourRowsAt(t, p) == []
    case Some(rows) => HourPresent(t, p) && HourRowsAt(t, p) == rows
  }

  ghost predicate HourMidway(t0: HourTree, t: HourTree, done: seq<HourPath>, keep: Row -> bool, readable: HourPath -> bool) {
    && HourSameDirs(t, t0)
    && (forall p :: p !in done ==> (HourPresent(t, p) <==> HourPresent(t0, p)) && HourRowsAt(t, p) == HourRowsAt(t0, p))
    && (forall p :: p in done ==> HourFileIs(t, p, After(HourRowsAt(t0, p), keep, readable(p))))
  }

  lemma {:induction false} HourRewriteAllMidway(t: HourTree, paths: seq<HourPath>, keep: Row -> bool, readable: HourPath -> bool)
    requires Distinct(paths) && forall p :: p in paths ==> HourPresent(t, p)
    ensures HourMidway(t, HourRewriteAll(t, paths, keep, readable), paths, keep, readable)
  {
    if paths != [] {
      var init, p := paths[..|paths| - 1], paths[|paths| - 1];
      assert paths == init + [p] && p !in init;
      HourRewriteAllMidway(t, init, keep, readable);
      HourMidwayStep(t, HourRewriteAll(t, init, keep, readable), init, p, keep, readable);
    }
  }

  lemma HourMidwayStep(t0: HourTree, t: HourTree, done: seq<HourPath>, p: HourPath, keep: Row -> bool, readable: HourPath -> bool)
    requires HourMidway(t0, t, done, keep, readable)
    requires p !in done && HourPresent(t, p)
    ensures HourMidway(t0, HourRewriteOne(t, p, keep, readable(p)), done + [p], keep, readable)
  {
    var r := HourRewriteOne(t, p, keep, readable(p));
    forall q { HourRewriteOneAt(t, p, keep, readable(p), q); }
    forall q | q in done + [p] ensures HourFileIs(r, q, After(HourRowsAt(t0, q), keep, readable(q))) {
      if q != p { assert q in done; }
    }
  }

  lemma HourPurgedAt(t: HourTree, p: HourPath, keep: Row -> bool, readable: HourPath -> bool)
    ensures HourPresent(HourPurged(t, keep, readable), p) <==> HourPresent(t, p) && HourAfterAt(t, p, keep, readable).Some?
    ensures HourRowsAt(HourPurged(t, keep, readable), p)
            == if HourPresent(t, p) && HourAfterAt(t, p, keep, readable).Some? then HourAfterAt(t, p, keep, readable).value else []
  {
    match p
    case Day(n) =>
    case Hour(d, q) =>
      assert d in t.dates <==> d in HourPurged(t, keep, readable).dates;
      if d in t.dates { PurgedAt(t.dates[d], q, keep, ReadableIn(d, readable)); }
  }

  lemma HourMidwayAt(t0: HourTree, t: HourTree, p: HourPath, keep: Row -> bool, readable: HourPath -> bool)
    requires HourMidway(t0, t, HourListing(t0, All), keep, readable)
    ensures HourPresent(t, p) <==> HourPresent(HourPurged(t0, keep, readable), p)
    ensures HourRowsAt(t, p) == HourRowsAt(HourPurged(t0, keep, readable), p)
  {
    HourPurgedAt(t0, p, keep, readable);
    HourListingExact(t0, All);
    if p in HourListing(t0, All) {
      assert HourFileIs(t, p, After(HourRowsAt(t0, p), keep, readable(p)));
    }
  }

  lemma HourTreeExtensional(a: HourTree, b: HourTree)
    requires HourSameDirs(a, b)
    requires forall p :: HourPresent(a, p) <==> HourPresent(b, p)
    requires forall p :: HourRowsAt(a, p) == HourRowsAt(b, p)
    ensures a == b
  {
    forall n ensures n in a.days <==> n in b.days
             ensures n in a.days ==> a.days[n] == b.days[n]
    {
      assert HourPresent(a, Day(n)) <==> HourPresent(b, Day(n));
      assert HourRowsAt(a, Day(n)) == HourRowsAt(b, Day(n));
    }
    forall d | d in a.dates ensures a.dates[d] == b.dates[d] {
      forall q ensures Present(a.dates[d], q) <==> Present(b.dates[d], q)
               ensures RowsAt(a.dates[d], q) == RowsAt(b.dates[d], q)
      {
        assert HourPresent(a, Hour(d, q)) <==> HourPresent(b, Hour(d, q));
        assert HourRowsAt(a, Hour(d, q)) == HourRowsAt(b, Hour(d, q));
      }
      TierExtensional(a.dates[d], b.dates[d]);
    }
  }

  /** Rewriting every listed hour-tiered file gives the purged tree. */
  lemma HourRewriteAllIsPurged(t: HourTree, keep: Row -> bool, readable: HourPath -> bool)
    ensures HourRewriteAll(t, HourListing(t, All), keep, readable) == HourPurged(t, keep, readable)
  {
    HourListedPresent(t);
    HourRewriteAllMidway(t, HourListing(t, All), keep, readable);
    HourMidwayEnd(t, HourRewriteAll(t, HourListing(t, All), keep, readable), keep, readable);
  }

  lemma HourListedPresent(t: HourTree)
    ensures Distinct(HourListing(t, All))
    ensures forall p :: p in HourListing(t, All) ==> HourPresent(t, p)
  {
    HourListingExact(t, All);
  }

  lemma HourMidwayEnd(t0: HourTree, t: HourTree, keep: Row -> bool, readable: HourPath -> bool)
    requires HourMidway(t0, t, HourListing(t0, All), keep, readable)
    ensures t == HourPurged(t0, keep, readable)
  {
    var goal := HourPurged(t0, keep, readable);
    HourPurgedSameDirs(t0, keep, readable);
    assert HourSameDirs(t, goal);
    forall p ensures HourPresent(t, p) <==> HourPresent(goal, p)
             ensures HourRowsAt(t, p) == HourRowsAt(goal, p)
    {
      HourMidwayAt(t0, t, p, keep, readable);
    }
    HourTreeExtensional(t, goal);
  }

  lemma HourPurgedSameDirs(t: HourTree, keep: Row -> bool, readable: HourPath -> bool)
    ensures HourSameDirs(HourPurged(t, keep, readable), t)
  {
  }

  predicate HourTouched(t: HourTree, p: HourPath, keep: Row -> bool, readable: bool) {
    HourPresent(t, p) && readable && (Keep(HourRowsAt(t, p), keep) == [] || Keep(HourRowsAt(t, p), keep) != HourRowsAt(t, p))
  }

  function HourTouchCount(t: HourTree, paths: seq<HourPath>, keep: Row -> bool, readable: HourPath -> bool): nat {
    if paths == [] then 0
    else
      var p := paths[|paths| - 1];
      HourTouchCount(t, paths[..|paths| - 1], keep, readable) + if HourTouched(t, p, keep, readable(p)) then 1 else 0
  }

  lemma HourTouchedLater(t: HourTree, paths: seq<HourPath>, i: nat, keep: Row -> bool, readable: HourPath -> bool)
    requires Distinct(paths) && i < |paths| && forall p :: p in paths ==> HourPresent(t, p)
    ensures HourTouched(HourRewriteAll(t, paths[..i], keep, readable), paths[i], keep, readable(paths[i]))
            <==> HourTouched(t, paths[i], keep, readable(paths[i]))
  {
    assert forall p :: p in paths[..i] ==> p in paths;
    HourRewriteAllMidway(t, paths[..i], keep, readable);
    assert paths[i] !in paths[..i];
  }

  /** One organisation's hour-tiered storage (span trees), rewritten in place. */
  class HourStorage {
    var tree: HourTree

    constructor (t: HourTree)
      ensures tree == t
    {
      tree := t;
    }

    method RewriteFile(p: HourPath, keep: Row -> bool, readable: bool) returns (changed: bool)
      modifies this
      ensures tree == HourRewriteOne(old(tree), p, keep, readable)
      ensures changed <==> HourTouched(old(tree), p, keep, readable)
    {
      if !readable || !HourPresent(tree, p) {
        return false;
      }
      var rows := HourRowsAt(tree, p);
      var remaining := |Keep(rows, keep)|;
      KeepAll(rows, keep);
      if remaining == 0 {
        tree := HourDelete(tree, p);
        return true;
      }
      if remaining == |rows| {
        return false;
      }
      tree := HourWrite(tree, p, Keep(rows, keep));
      changed := true;
    }

    /** rewrite_parquet_excluding_project over the hour-tiered layout. */
    method RewriteExcluding(keep: Row -> bool, readable: HourPath -> bool) returns (rewritten: nat)
      modifies this
      ensures tree == HourRewriteAll(old(tree), HourListing(old(tree), All), keep, readable)
      ensures rewritten == HourTouchCount(old(tree), HourListing(old(tree), All), keep, readable)
    {
      AllHoursListed(tree);
      var paths := EnumerateHours(Some(tree), All, {}, map[]);
      HourListedPresent(tree);
      rewritten := RewriteListed(paths, keep, readable);
    }

    method RewriteListed(paths: seq<HourPath>, keep: Row -> bool, readable: HourPath -> bool) returns (rewritten: nat)
      requires Distinct(paths) && forall p :: p in paths ==> HourPresent(tree, p)
      modifies this
      ensures tree == HourRewriteAll(old(tree), paths, keep, readable)
      ensures rewritten == HourTouchCount(old(tree), paths, keep, readable)
    {
      rewritten := 0;
      for i := 0 to |paths|
        invariant tree == HourRewriteAll(old(tree), paths[..i], keep, readable)
        invariant rewritten == HourTouchCount(old(tree), paths[..i], keep, readable)
      {
        assert paths[..i + 1][..i] == paths[..i];
        HourTouchedLater(old(tree), paths, i, keep, readable);
        var changed := RewriteFile(paths[i], keep, readable(paths[i]));
        if changed {
          rewritten := rewritten + 1;
        }
      }
      assert paths[..|paths|] == paths;
    }
  }

  // ----- what a removal leaves, path by path -----

  /** A file that readers see and DuckDB can process holds its remaining rows, or is gone if there are
      none; a shadowed one, and one whose processing fails, is exactly as it was. */
  lemma RemovalLeaves(t: Tier, keep: Row -> bool, readable: Path -> bool, p: Path)
    ensures Present(Purged(t, keep, readable), p) <==>
            Present(t, p) && (Visible(t, All, p) && readable(p) ==> exists r :: r in RowsAt(t, p) && keep(r))
    ensures Present(Purged(t, keep, readable), p) ==>
            RowsAt(Purged(t, keep, readable), p) == if Visible(t, All, p) && readable(p) then Keep(RowsAt(t, p), keep) else RowsAt(t, p)
  {
    PurgedAt(t, p, keep, readable);
    NoneKept(RowsAt(t, p), keep);
  }

  lemma HourRemovalLeaves(t: HourTree, keep: Row -> bool, readable: HourPath -> bool, p: HourPath)
    ensures HourPresent(HourPurged(t, keep, readable), p) <==>
            HourPresent(t, p) && (HourVisible(t, All, p) && readable(p) ==> exists r :: r in HourRowsAt(t, p) && keep(r))
    ensures HourPresent(HourPurged(t, keep, readable), p) ==>
            HourRowsAt(HourPurged(t, keep, readable), p)
            == if HourVisible(t, All, p) && readable(p) then Keep(HourRowsAt(t, p), keep) else HourRowsAt(t, p)
  {
    HourPurgedAt(t, p, keep, readable);
    NoneKept(HourRowsAt(t, p), keep);
  }

  lemma NoneKept(rows: Rows, keep: Row -> bool)
    ensures |Keep(rows, keep)| == 0 <==> forall r :: r in rows ==> !keep(r)
  {
    forall r { KeepMember(rows, keep, r); }
    if |Keep(rows, keep)| > 0 { assert Keep(rows, keep)[0] in Keep(rows, keep); }
  }

  /** The number reported is that of the listed files that could be processed and had a row to lose or
      no row at all. */
  lemma {:induction false} TouchCounts(t: Tier, paths: seq<Path>, keep: Row -> bool, readable: Path -> bool)
    requires forall p :: p in paths ==> Present(t, p)
    ensures TouchCount(t, paths, keep, readable) == |Sequences.Keep(paths, LosesRow(t, keep, readable))|
  {
    if paths != [] {
      var init, p := paths[..|paths| - 1], paths[|paths| - 1];
      assert forall q :: q in init ==> q in paths;
      TouchCounts(t, init, keep, readable);
      assert p in paths;
      KeepAll(RowsAt(t, p), keep);
      NoneKept(RowsAt(t, p), keep);
    }
  }

  ghost function LosesRow(t: Tier, keep: Row -> bool, readable: Path -> bool): Path -> bool {
    p => readable(p) && (RowsAt(t, p) == [] || exists r :: r in RowsAt(t, p) && !keep(r))
  }
}
