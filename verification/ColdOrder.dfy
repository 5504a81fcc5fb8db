/** When does the order of a flat-layout listing justify the early exit of the scan? */
module ColdOrder {
  import opened Names
  import opened Numbers
  import opened Sequences
  import opened ColdListing
  import opened ColdScan

  // ----- chunk names -----

  /** `chunk_{n:03d}.parquet` */
  function ChunkName(n: nat): string {
    "chunk_" + Pad3(n) + EXT
  }

  function ChunkNames(n: nat): (r: seq<string>)
    ensures |r| == n && forall i :: 0 <= i < n ==> r[i] == ChunkName(i)
  {
    seq(n, i requires 0 <= i < n => ChunkName(i))
  }

  lemma ChunkNameParquet(n: nat)
    ensures IsParquet(ChunkName(n))
  {
    var head := "chunk_" + Pad3(n);
    assert ChunkName(n)[|head|..] == EXT;
  }

  lemma ChunkNameInjective(m: nat, n: nat)
    requires ChunkName(m) == ChunkName(n)
    ensures m == n
  {
    assert ChunkName(m)[6..|ChunkName(m)| - 8] == Pad3(m);
    assert ChunkName(n)[6..|ChunkName(n)| - 8] == Pad3(n);
    Pad3Value(m);
    Pad3Value(n);
  }

  lemma ChunkNameOrder(m: nat, n: nat)
    requires m < n < 1000
    ensures Lt(ChunkName(m), ChunkName(n))
  {
    assert Pow10(3) == 10 * (10 * (10 * Pow10(0)));
    FixedOrder(m, n, 3);
    LtSameLength(Pad3(m), Pad3(n), EXT, EXT);
    LtAfterPrefix("chunk_", Pad3(m) + EXT, Pad3(n) + EXT);
    assert "chunk_" + (Pad3(m) + EXT) == ChunkName(m) && "chunk_" + (Pad3(n) + EXT) == ChunkName(n);
  }

  lemma LateNumbers()
    ensures Pad3(1000) == "1000" && Pad3(101) == "101"
  {
    assert Decimal(10) == "10" && Decimal(100) == "100";
    assert Fixed(1, 1) == "1" && Fixed(10, 2) == "10";
  }

  lemma ThousandthChunkMisplaced()
    ensures Lt(ChunkName(1000), ChunkName(101))
  {
    LateNumbers();
    var a, b := "00.parquet", "1.parquet";
    assert ChunkName(1000) == "chunk_10" + a && ChunkName(101) == "chunk_10" + b;
    LtAfterPrefix("chunk_10", a, b);
  }

  /** The chunks an archive writes are listed in the order written exactly up to 1000 of them. */
  lemma ChunksListInWriteOrder(n: nat)
    ensures Sorted(set i | 0 <= i < n :: ChunkName(i)) == ChunkNames(n) <==> n <= 1000
  {
    var names := set i | 0 <= i < n :: ChunkName(i);
    SortedAscends(names);
    if n <= 1000 {
      forall i, j | 0 <= i < j < n ensures Lt(ChunkNames(n)[i], ChunkNames(n)[j]) {
        ChunkNameOrder(i, j);
      }
      forall x ensures x in Sorted(names) <==> x in ChunkNames(n) {
        if x in ChunkNames(n) {
          var i :| 0 <= i < n && ChunkNames(n)[i] == x;
          assert x in names;
        }
        if x in names {
          var i :| 0 <= i < n && x == ChunkName(i);
          assert ChunkNames(n)[i] == x;
        }
      }
      ChunkCount(n);
      AscendingUnique(Sorted(names), ChunkNames(n));
    } else if Sorted(names) == ChunkNames(n) {
      assert Lt(ChunkNames(n)[101], ChunkNames(n)[1000]);
      ThousandthChunkMisplaced();
      LeAntisym(ChunkName(101), ChunkName(1000));
      assert false;
    }
  }

  lemma {:induction false} ChunkCount(n: nat)
    ensures |set i | 0 <= i < n :: ChunkName(i)| == n
  {
    if n > 0 {
      ChunkCount(n - 1);
      var before := set i | 0 <= i < n - 1 :: ChunkName(i);
      NewChunkName(n - 1);
      assert (set i | 0 <= i < n :: ChunkName(i)) == before + {ChunkName(n - 1)};
    }
  }

  lemma NewChunkName(n: nat)
    ensures ChunkName(n) !in (set i | 0 <= i < n :: ChunkName(i))
  {
    if ChunkName(n) in (set i | 0 <= i < n :: ChunkName(i)) {
      var i :| 0 <= i < n && ChunkName(i) == ChunkName(n);
      ChunkNameInjective(i, n);
      assert false;
    }
  }

  // ----- the order of a listing -----

  ghost predicate Pairwise<T>(xs: seq<T>, rel: (T, T) -> bool) {
    forall i, j :: 0 <= i < j < |xs| ==> rel(xs[i], xs[j])
  }

  lemma PairwiseAppend<T>(xs: seq<T>, ys: seq<T>, rel: (T, T) -> bool)
    requires Pairwise(xs, rel) && Pairwise(ys, rel)
    requires forall x, y :: x in xs && y in ys ==> rel(x, y)
    ensures Pairwise(xs + ys, rel)
  {
  }

  lemma {:induction false} GatherPairwise<T>(names: seq<string>, f: string -> seq<T>, rel: (T, T) -> bool)
    requires Ascending(names)
    requires forall n :: n in names ==> Pairwise(f(n), rel)
    requires forall m, n, x, y :: m in names && n in names && Lt(m, n) && x in f(m) && y in f(n) ==> rel(x, y)
    ensures Pairwise(Gather(names, f), rel)
  {
    if names != [] {
      var init, last := names[..|names| - 1], names[|names| - 1];
      assert forall n :: n in init ==> n in names;
      GatherPairwise(init, f, rel);
      forall x, y | x in Gather(init, f) && y in f(last) ensures rel(x, y) {
        GatherMember(init, f, x);
        var m :| m in init && x in f(m);
        var i :| 0 <= i < |init| && init[i] == m;
        assert Lt(names[i], names[|names| - 1]);
      }
      PairwiseAppend(Gather(init, f), f(last), rel);
    }
  }

  predicate Before(p: Path, q: Path) {
    match (p, q)
    case (File(a), File(b)) => Lt(a, b)
    case (File(_), Chunk(_, _)) => true
    case (Chunk(_, _), File(_)) => false
    case (Chunk(d, a), Chunk(e, b)) => Lt(d, e) || (d == e && Lt(a, b))
  }

  const IsBefore: (Path, Path) -> bool := (p, q) => Before(p, q)

  lemma FilePieceIs(n: string, p: Path)
    requires p in FilePiece(All)(n)
    ensures p == File(n)
  {
  }

  lemma ChunkPieceIs(d: string, n: string, p: Path)
    requires p in ChunkPiece(d)(n)
    ensures p == Chunk(d, n)
  {
  }

  lemma ShortPairwise<T>(xs: seq<T>, rel: (T, T) -> bool)
    requires |xs| <= 1
    ensures Pairwise(xs, rel)
  {
  }

  lemma FilesInOrder(files: map<string, Rows>)
    ensures Pairwise(Gather(Sorted(files.Keys), FilePiece(All)), IsBefore)
  {
    var f := FilePiece(All);
    forall n ensures Pairwise(f(n), IsBefore) { ShortPairwise(f(n), IsBefore); }
    forall m, n, x, y | Lt(m, n) && x in f(m) && y in f(n) ensures IsBefore(x, y) {
      FilePieceIs(m, x);
      FilePieceIs(n, y);
    }
    SortedAscends(files.Keys);
    GatherPairwise(Sorted(files.Keys), f, IsBefore);
  }

  lemma ChunksInOrder(d: string, files: map<string, Rows>)
    ensures Pairwise(ChunkPaths(d, files), IsBefore)
  {
    var f := ChunkPiece(d);
    forall n ensures Pairwise(f(n), IsBefore) { ShortPairwise(f(n), IsBefore); }
    forall m, n, x, y | Lt(m, n) && x in f(m) && y in f(n) ensures IsBefore(x, y) {
      ChunkPieceIs(d, m, x);
      ChunkPieceIs(d, n, y);
    }
    SortedAscends(files.Keys);
    GatherPairwise(Sorted(files.Keys), f, IsBefore);
  }

  lemma DirsBefore(t: Tier, d: string, e: string, p: Path, q: Path)
    requires Lt(d, e) && p in DirPiece(t, All)(d) && q in DirPiece(t, All)(e)
    ensures Before(p, q)
  {
    DirPieceMember(t, All, d, p);
    DirPieceMember(t, All, e, q);
  }

  lemma DirsInOrder(t: Tier)
    ensures Pairwise(Gather(Sorted(t.dirs.Keys), DirPiece(t, All)), IsBefore)
  {
    SortedAscends(t.dirs.Keys);
    forall d | d in t.dirs ensures Pairwise(DirPiece(t, All)(d), IsBefore) {
      ChunksInOrder(d, t.dirs[d]);
    }
    forall d, e, p, q | Lt(d, e) && p in DirPiece(t, All)(d) && q in DirPiece(t, All)(e) ensures IsBefore(p, q) {
      DirsBefore(t, d, e, p, q);
    }
    GatherPairwise(Sorted(t.dirs.Keys), DirPiece(t, All), IsBefore);
  }

  /** Flat files by date, then chunks by date and chunk name. */
  lemma ListingOrder(t: Tier)
    ensures Pairwise(Listing(t, All), IsBefore)
  {
    var a, b := Gather(Sorted(t.files.Keys), FilePiece(All)), Gather(Sorted(t.dirs.Keys), DirPiece(t, All));
    FilesInOrder(t.files);
    DirsInOrder(t);
    forall p, q | p in a && q in b ensures IsBefore(p, q) {
      FileMember(t.files, All, p);
      DirMember(t, All, q);
    }
    PairwiseAppend(a, b, IsBefore);
  }

  /** The listed files' rows, in listing order. */
  function FilesOf(t: Tier): (r: seq<Rows>)
    ensures |r| == |Listing(t, All)| && forall i :: 0 <= i < |r| ==> r[i] == RowsAt(t, Listing(t, All)[i])
  {
    seq(|Listing(t, All)|, i requires 0 <= i < |Listing(t, All)| => RowsAt(t, Listing(t, All)[i]))
  }

  /** Every file is named for an 8-character date, and later dates hold larger ids: a partition
      holds the rows of one date, and ids follow time. */
  ghost predicate ByDate(t: Tier) {
    && (forall p :: Visible(t, All, p) ==> |DateOf(p)| == 8)
    && (forall p, q, x, r | Visible(t, All, p) && Visible(t, All, q) && x in RowsAt(t, p) && r in RowsAt(t, q) ::
          Lt(DateOf(p), DateOf(q)) ==> x.id < r.id)
  }

  /** Within the date, chunks listed later hold ids at least as large. */
  ghost predicate DateAscends(t: Tier, d: string) {
    forall p, q, x, r | InChunks(t, p, q) && p.dir == d && x in RowsAt(t, p) && r in RowsAt(t, q) :: x.id <= r.id
  }

  ghost predicate ChunksAscend(t: Tier) {
    forall d :: DateAscends(t, d)
  }

  /** Two chunks of one date, in listing order. */
  predicate InChunks(t: Tier, p: Path, q: Path) {
    Visible(t, All, p) && Visible(t, All, q) && p.Chunk? && q.Chunk? && p.dir == q.dir && Lt(p.name, q.name)
  }

  /** A chunked date with rows that is older than a flat date with rows. */
  ghost predicate ChunkedBehindFlat(t: Tier) {
    exists c, f :: Stale(t, c, f)
  }

  predicate Stale(t: Tier, c: Path, f: Path) {
    && Visible(t, All, c) && Visible(t, All, f) && c.Chunk? && f.File?
    && Lt(DateOf(c), DateOf(f)) && RowsAt(t, c) != [] && RowsAt(t, f) != []
  }

  lemma FlatNameOrder(a: string, b: string)
    requires IsParquet(a) && IsParquet(b) && |Stem(a)| == |Stem(b)| && Lt(a, b)
    ensures Lt(Stem(a), Stem(b))
  {
    StemExt(Stem(a), a);
    StemExt(Stem(b), b);
    LeTotal(Stem(a), Stem(b));
    if Lt(Stem(b), Stem(a)) {
      LtSameLength(Stem(b), Stem(a), EXT, EXT);
      LeAntisym(a, b);
      assert false;
    }
  }

  lemma PairAscends(t: Tier, p: Path, q: Path, x: Row, r: Row)
    requires ByDate(t) && !ChunkedBehindFlat(t) && ChunksAscend(t)
    requires Visible(t, All, p) && Visible(t, All, q) && Before(p, q) && x in RowsAt(t, p) && r in RowsAt(t, q)
    ensures r.id >= x.id
  {
    if p.File? && q.File? {
      FlatNameOrder(p.name, q.name);
    } else if p.File? {
      assert !Stale(t, q, p);
      LeTotal(DateOf(p), DateOf(q));
      StemExt(DateOf(p), p.name);
    } else if p.dir == q.dir {
      assert InChunks(t, p, q) && DateAscends(t, p.dir);
    }
  }

  lemma IndexOrder<T>(xs: seq<T>, rel: (T, T) -> bool, p: T, q: T) returns (i: nat, j: nat)
    requires Pairwise(xs, rel) && p in xs && q in xs && p != q && !rel(q, p)
    ensures i < j < |xs| && xs[i] == p && xs[j] == q
  {
    i :| 0 <= i < |xs| && xs[i] == p;
    j :| 0 <= j < |xs| && xs[j] == q;
    if j < i {
      assert false;
    }
  }

  lemma ListedBefore(t: Tier, p: Path, q: Path) returns (i: nat, j: nat)
    requires Visible(t, All, p) && Visible(t, All, q) && p != q && !Before(q, p)
    ensures i < j < |Listing(t, All)| && Listing(t, All)[i] == p && Listing(t, All)[j] == q
  {
    ListingMember(t, All, p);
    ListingMember(t, All, q);
    ListingOrder(t);
    i, j := IndexOrder(Listing(t, All), IsBefore, p, q);
  }

  lemma StalePairDescends(t: Tier, c: Path, f: Path)
    requires ByDate(t) && Stale(t, c, f)
    ensures !Ascends(FilesOf(t))
  {
    var i, j := ListedBefore(t, f, c);
    var r, x := RowsAt(t, c)[0], RowsAt(t, f)[0];
    assert x in FilesOf(t)[i] && r in FilesOf(t)[j] && r.id < x.id;
  }

  lemma ChunkPairDescends(t: Tier, p: Path, q: Path, x: Row, r: Row)
    requires InChunks(t, p, q) && x in RowsAt(t, p) && r in RowsAt(t, q) && x.id > r.id
    ensures !Ascends(FilesOf(t))
  {
    if Before(q, p) { LeAntisym(p.name, q.name); }
    var i, j := ListedBefore(t, p, q);
    assert x in FilesOf(t)[i] && r in FilesOf(t)[j];
  }

  lemma DateDescends(t: Tier, d: string)
    requires !DateAscends(t, d)
    ensures !Ascends(FilesOf(t))
  {
    var p, q, x, r :| InChunks(t, p, q) && p.dir == d && x in RowsAt(t, p) && r in RowsAt(t, q) && x.id > r.id;
    ChunkPairDescends(t, p, q, x, r);
  }

  lemma FilesAscend(t: Tier)
    requires ByDate(t) && !ChunkedBehindFlat(t) && ChunksAscend(t)
    ensures Ascends(FilesOf(t))
  {
    var paths := Listing(t, All);
    ListingOrder(t);
    forall i, j, x, r | 0 <= i < j < |paths| && x in FilesOf(t)[i] && r in FilesOf(t)[j] ensures r.id >= x.id {
      ListingMember(t, All, paths[i]);
      ListingMember(t, All, paths[j]);
      assert IsBefore(paths[i], paths[j]);
      PairAscends(t, paths[i], paths[j], x, r);
    }
  }

  lemma FilesAscendExactly(t: Tier)
    requires ByDate(t)
    ensures Ascends(FilesOf(t)) <==> !ChunkedBehindFlat(t) && ChunksAscend(t)
  {
    if ChunkedBehindFlat(t) {
      var c, f :| Stale(t, c, f);
      StalePairDescends(t, c, f);
    } else if !ChunksAscend(t) {
      var d :| !DateAscends(t, d);
      DateDescends(t, d);
    } else {
      FilesAscend(t);
    }
  }

  /** The exact premise of the early exit in terms of what is stored: the scan returns the true
      newest k rows for every k if and only if no chunked date lies behind a flat one and within
      each date the chunks, as listed, ascend. */
  lemma ListingOrderExact(t: Tier)
    requires ByDate(t)
    ensures (forall k :: ScanIsRight(FilesOf(t), k, Some(k))) <==> !ChunkedBehindFlat(t) && ChunksAscend(t)
  {
    EarlyExitExact(FilesOf(t));
    FilesAscendExactly(t);
  }

  /** A listing without chunks, whatever directories lie beside or below it, always meets the premise. */
  lemma FlatListingsScanRight(t: Tier, k: nat)
    requires ByDate(t) && forall p :: Visible(t, All, p) ==> p.File?
    ensures ScanIsRight(FilesOf(t), k, Some(k))
  {
    ListingOrderExact(t);
  }

  function TwoChunks(date: string, a: Row, b: Row): Tier {
    Tier(map[], map[date := map[ChunkName(0) := [a], ChunkName(1) := [b]]])
  }

  lemma TwoChunksVisible(date: string, a: Row, b: Row, p: Path)
    ensures Visible(TwoChunks(date, a, b), All, p) <==> p == Chunk(date, ChunkName(0)) || p == Chunk(date, ChunkName(1))
  {
    ChunkNameParquet(0);
    ChunkNameParquet(1);
  }

  lemma TwoChunksByDate(date: string, a: Row, b: Row)
    requires |date| == 8
    ensures ByDate(TwoChunks(date, a, b)) && !ChunkedBehindFlat(TwoChunks(date, a, b))
  {
    forall p | Visible(TwoChunks(date, a, b), All, p) ensures p.Chunk? && DateOf(p) == date {
      TwoChunksVisible(date, a, b, p);
    }
    LeRefl(date);
  }

  lemma TwoChunksDescend(date: string, a: Row, b: Row)
    requires b.id < a.id
    ensures !ChunksAscend(TwoChunks(date, a, b))
  {
    var t, p, q := TwoChunks(date, a, b), Chunk(date, ChunkName(0)), Chunk(date, ChunkName(1));
    TwoChunksVisible(date, a, b, p);
    TwoChunksVisible(date, a, b, q);
    ChunkNameOrder(0, 1);
    assert RowsAt(t, p) == [a] && RowsAt(t, q) == [b];
    assert InChunks(t, p, q) && a in RowsAt(t, p) && b in RowsAt(t, q);
    assert !DateAscends(t, date);
  }

  /** One date exported in two chunks, the first holding the newer row because the export does not
      order its rows: some query for the newest rows returns other ones. */
  lemma UnorderedChunksScanWrong(date: string, newer: Row, older: Row)
    requires |date| == 8 && older.id < newer.id
    ensures ByDate(TwoChunks(date, newer, older)) && !ChunkedBehindFlat(TwoChunks(date, newer, older))
    ensures exists k :: !ScanIsRight(FilesOf(TwoChunks(date, newer, older)), k, Some(k))
  {
    TwoChunksByDate(date, newer, older);
    TwoChunksDescend(date, newer, older);
    ListingOrderExact(TwoChunks(date, newer, older));
  }

  /** A query's WHERE filter keeps ascending files ascending. */
  lemma FilteredAscends(files: seq<Rows>, where: Row -> bool, kept: seq<Rows>)
    requires Ascends(files) && |kept| == |files|
    requires forall i :: 0 <= i < |files| ==> kept[i] == Keep(files[i], where)
    ensures Ascends(kept)
  {
    forall i, j, x: Row, r: Row | 0 <= i < j < |kept| && x in kept[i] && r in kept[j] ensures r.id >= x.id {
      KeepMember(files[i], where, x);
      KeepMember(files[j], where, r);
    }
  }

  // ----- an older chunked date beside a newer flat one -----

  function Mixed(older: string, a: Row, newer: string, b: Row): Tier {
    Tier(map[newer + EXT := [b]], map[older := map[ChunkName(0) := [a]]])
  }

  lemma MixedVisible(older: string, a: Row, newer: string, b: Row, p: Path)
    requires older != newer
    ensures Visible(Mixed(older, a, newer, b), All, p) <==> p == File(newer + EXT) || p == Chunk(older, ChunkName(0))
  {
    StemExt(newer, newer + EXT);
    ChunkNameParquet(0);
    assert older == (older + EXT)[..|older|] && newer == (newer + EXT)[..|newer|];
  }

  lemma MixedMembers(older: string, a: Row, newer: string, b: Row)
    requires older != newer
    ensures forall p :: p in Listing(Mixed(older, a, newer, b), All) <==> p == File(newer + EXT) || p == Chunk(older, ChunkName(0))
  {
    forall p
      ensures p in Listing(Mixed(older, a, newer, b), All) <==> p == File(newer + EXT) || p == Chunk(older, ChunkName(0))
    {
      MixedVisible(older, a, newer, b, p);
      ListingMember(Mixed(older, a, newer, b), All, p);
    }
  }

  lemma MixedListing(older: string, a: Row, newer: string, b: Row)
    requires older != newer
    ensures Listing(Mixed(older, a, newer, b), All) == [File(newer + EXT), Chunk(older, ChunkName(0))]
  {
    var t, f, c := Mixed(older, a, newer, b), File(newer + EXT), Chunk(older, ChunkName(0));
    MixedMembers(older, a, newer, b);
    ListedDistinct(t);
    ListingOrder(t);
    var i, j := IndexOrder(Listing(t, All), IsBefore, f, c);
    PairOnly(Listing(t, All), f, c, i, j);
  }

  lemma PairOnly<T>(xs: seq<T>, a: T, b: T, i: nat, j: nat)
    requires Distinct(xs) && forall x :: x in xs ==> x == a || x == b
    requires i < j < |xs| && xs[i] == a && xs[j] == b
    ensures xs == [a, b]
  {
    var k := Min(2, |xs| - 1);
    assert xs[0] in xs && xs[1] in xs && xs[k] in xs;
    assert i == 0 && j == 1 && k < 2;
  }

  lemma OneRow(r: Row)
    ensures TakeTop([r], 1) == [r]
  {
    assert SortDesc([r]) == InsertDesc(r, []) == [r];
  }

  lemma LastFileOnly(b: Row, a: Row)
    ensures ColdTopK([[b], [a]], 1, Some(1)) == [a]
    ensures a.id < b.id ==> !ScanIsRight([[b], [a]], 1, Some(1))
  {
    OneRow(a);
    assert [] + TakeTop([a], 1) == [a];
    assert Scan([[b], [a]], 1, Some(1), []) == [a];
    AllRowsMember([[b], [a]], b);
    assert b in [[b], [a]][0];
  }

  lemma MixedFiles(older: string, a: Row, newer: string, b: Row)
    requires older != newer
    ensures FilesOf(Mixed(older, a, newer, b)) == [[b], [a]]
  {
    MixedListing(older, a, newer, b);
    FilesOfPair(Mixed(older, a, newer, b), File(newer + EXT), Chunk(older, ChunkName(0)));
  }

  lemma FilesOfPair(t: Tier, p: Path, q: Path)
    requires Listing(t, All) == [p, q]
    ensures FilesOf(t) == [RowsAt(t, p), RowsAt(t, q)]
  {
  }

  /** Asking such storage for its newest row returns the older date's row, for any two dates and
      rows: flat files are listed first and the scan runs backwards. */
  lemma OlderChunkHidesNewerDay(older: string, a: Row, newer: string, b: Row)
    requires Lt(older, newer) && a.id < b.id
    ensures ColdTopK(FilesOf(Mixed(older, a, newer, b)), 1, Some(1)) == [a]
    ensures !ScanIsRight(FilesOf(Mixed(older, a, newer, b)), 1, Some(1))
  {
    MixedFiles(older, a, newer, b);
    LastFileOnly(b, a);
  }
}
