/** The cold read path: newest file first, a top-k of each file, and an early exit. */
module ColdScan {
  import opened Names
  import opened Numbers
  import opened Sequences
  import opened ColdListing

  // ----- ORDER BY id DESC LIMIT k -----

  ghost predicate Descending(rows: Rows) {
    forall i, j :: 0 <= i < j < |rows| ==> rows[i].id >= rows[j].id
  }

  function InsertDesc(r: Row, rows: Rows): Rows {
    if rows == [] || r.id >= rows[0].id then [r] + rows else [rows[0]] + InsertDesc(r, rows[1..])
  }

  function SortDesc(rows: Rows): Rows {
    if rows == [] then [] else InsertDesc(rows[0], SortDesc(rows[1..]))
  }

  lemma {:induction false} InsertDescContents(r: Row, rows: Rows)
    ensures multiset(InsertDesc(r, rows)) == multiset(rows) + multiset{r}
  {
    if rows != [] && r.id < rows[0].id {
      InsertDescContents(r, rows[1..]);
      assert rows == [rows[0]] + rows[1..];
    }
  }

  lemma {:induction false} InsertDescSorted(r: Row, rows: Rows)
    requires Descending(rows)
    ensures Descending(InsertDesc(r, rows))
  {
    if rows != [] && r.id < rows[0].id {
      InsertDescSorted(r, rows[1..]);
      InsertDescContents(r, rows[1..]);
      var rest := InsertDesc(r, rows[1..]);
      forall x | x in rest ensures x.id <= rows[0].id {
        assert x in multiset(rest);
        if x != r { assert x in rows[1..]; }
      }
    }
  }

  lemma {:induction false} SortDescSorted(rows: Rows)
    ensures Descending(SortDesc(rows)) && multiset(SortDesc(rows)) == multiset(rows)
    ensures |SortDesc(rows)| == |rows|
  {
    if rows != [] {
      SortDescSorted(rows[1..]);
      InsertDescSorted(rows[0], SortDesc(rows[1..]));
      InsertDescContents(rows[0], SortDesc(rows[1..]));
      assert rows == [rows[0]] + rows[1..];
    }
    assert |multiset(SortDesc(rows))| == |multiset(rows)|;
  }

  /** The first k rows of the descending order: one file's query, and the caller's final cut. */
  function TakeTop(rows: Rows, k: nat): Rows {
    SortDescSorted(rows);
    SortDesc(rows)[..Min(k, |rows|)]
  }

  /** What a reader asking for the newest k rows of `all` must get. */
  ghost predicate IsTopK(top: Rows, all: multiset<Row>, k: nat) {
    && |top| == Min(k, |all|)
    && multiset(top) <= all
    && Descending(top)
    && (forall r, x :: r in top && x in all - multiset(top) ==> r.id >= x.id)
  }

  lemma CutRanks(s: Rows, n: nat)
    requires Descending(s) && n <= |s|
    ensures Descending(s[..n])
    ensures multiset(s) == multiset(s[..n]) + multiset(s[n..])
    ensures forall r, x :: r in s[..n] && x in s[n..] ==> r.id >= x.id
  {
    assert s == s[..n] + s[n..];
  }

  lemma CutIsTop(s: Rows, k: nat)
    requires Descending(s)
    ensures IsTopK(s[..Min(k, |s|)], multiset(s), k)
  {
    var n := Min(k, |s|);
    CutRanks(s, n);
    assert multiset(s) - multiset(s[..n]) == multiset(s[n..]);
    assert forall x :: x in multiset(s[n..]) ==> x in s[n..];
  }

  lemma TakeTopIsTopK(rows: Rows, k: nat)
    ensures IsTopK(TakeTop(rows, k), multiset(rows), k)
    ensures k >= |rows| ==> multiset(TakeTop(rows, k)) == multiset(rows)
    ensures |TakeTop(rows, k)| <= |rows|
  {
    var s := SortDesc(rows);
    SortDescSorted(rows);
    CutIsTop(s, k);
    if k >= |rows| { assert s[..Min(k, |s|)] == s; }
  }

  // ----- the scan -----

  /** The scan loop on files given oldest first: the last unread file's top k is appended, and
      with a limit the loop stops once that many rows are in hand. */
  function Scan(files: seq<Rows>, k: nat, limit: Option<nat>, acc: Rows): Rows
    decreases |files|
  {
    if files == [] then acc
    else
      var got := acc + TakeTop(files[|files| - 1], k);
      if limit.Some? && |got| >= limit.value then got else Scan(files[..|files| - 1], k, limit, got)
  }

  function AllRows(files: seq<Rows>): multiset<Row> {
    if files == [] then multiset{} else AllRows(files[..|files| - 1]) + multiset(files[|files| - 1])
  }

  /** Rows of a later file never rank below rows of an earlier one. */
  ghost predicate Ascends(files: seq<Rows>) {
    forall i, j, x, r :: 0 <= i < j < |files| && x in files[i] && r in files[j] ==> r.id >= x.id
  }

  /** When a row was dropped from a part's top k, everything that made a top k of the reduced
      whole ranks above it. */
  lemma DroppedRanksBelow(top: Rows, best: Rows, other: multiset<Row>, k: nat, r: Row, x: Row)
    requires IsTopK(top, multiset(best) + other, k)
    requires |best| == k && r in top && forall b :: b in best ==> b.id >= x.id
    ensures r.id >= x.id
  {
    if multiset(best) <= multiset(top) {
      SubsetSameSize(multiset(best), multiset(top));
      assert r in multiset(top) && r in multiset(best);
    } else {
      var b :| multiset(best)[b] > multiset(top)[b];
      assert b in multiset(best) && b in best;
      assert b in multiset(best) + other - multiset(top);
    }
  }

  /** Keeping only the top k of a part loses nothing for the top k of the whole. */
  lemma TopOfTops(top: Rows, part: Rows, other: multiset<Row>, k: nat)
    requires IsTopK(top, multiset(TakeTop(part, k)) + other, k)
    ensures IsTopK(top, multiset(part) + other, k)
  {
    TakeTopIsTopK(part, k);
    PartialTop(top, part, TakeTop(part, k), other, k);
  }

  lemma PartialTop(top: Rows, part: Rows, best: Rows, other: multiset<Row>, k: nat)
    requires IsTopK(top, multiset(best) + other, k)
    requires IsTopK(best, multiset(part), k)
    ensures IsTopK(top, multiset(part) + other, k)
  {
    var dropped := multiset(part) - multiset(best);
    assert multiset(part) == multiset(best) + dropped;
    assert |multiset(part)| == |best| + |dropped|;
    var all := multiset(part) + other;
    assert all - multiset(top) == (multiset(best) + other - multiset(top)) + dropped;
    forall r, x | r in top && x in all - multiset(top) ensures r.id >= x.id {
      if x in dropped {
        assert |dropped| > 0;
        DroppedRanksBelow(top, best, other, k, r, x);
      }
    }
    assert |all| == |multiset(best) + other| + |dropped|;
  }

  lemma SubsetSameSize(a: multiset<Row>, b: multiset<Row>)
    requires a <= b && |a| >= |b|
    ensures a == b
  {
    assert b == a + (b - a);
    assert |b - a| == 0;
  }

  /** With k rows in hand, rows that rank below all of them change nothing. */
  lemma OlderRowsCannotOutrank(top: Rows, seen: multiset<Row>, older: multiset<Row>, k: nat)
    requires IsTopK(top, seen, k) && |seen| >= k
    requires forall r, x :: r in seen && x in older ==> r.id >= x.id
    ensures IsTopK(top, seen + older, k)
  {
    forall r, x | r in top && x in seen + older - multiset(top) ensures r.id >= x.id {
      assert r in seen;
      assert seen + older - multiset(top) == (seen - multiset(top)) + older;
    }
  }

  lemma {:induction false} AllRowsMember(files: seq<Rows>, x: Row)
    ensures x in AllRows(files) <==> exists i :: 0 <= i < |files| && x in files[i]
  {
    if files != [] {
      var init, last := files[..|files| - 1], files[|files| - 1];
      AllRowsMember(init, x);
      if i :| 0 <= i < |init| && x in init[i] { assert x in files[i]; }
      if i :| 0 <= i < |files| && x in files[i] {
        if i < |init| { assert x in init[i]; } else { assert x in last; }
      }
      assert x in multiset(last) <==> x in last;
    }
  }

  /** `rows` never rank below a row of `files`. */
  ghost predicate Outranks(rows: Rows, files: seq<Rows>) {
    forall i, x, r :: 0 <= i < |files| && x in files[i] && r in rows ==> r.id >= x.id
  }

  lemma ScanStops(init: seq<Rows>, last: Rows, k: nat, acc: Rows, top: Rows)
    requires Outranks(acc + last, init)
    requires |acc + TakeTop(last, k)| >= k
    requires IsTopK(top, multiset(acc + TakeTop(last, k)), k)
    ensures IsTopK(top, multiset(acc) + (AllRows(init) + multiset(last)), k)
  {
    ReadTop(last, k, acc, top);
    OutranksAll(acc + last, init);
    OlderRowsCannotOutrank(top, multiset(acc + last), AllRows(init), k);
    assert multiset(acc) + (AllRows(init) + multiset(last)) == multiset(acc + last) + AllRows(init);
  }

  lemma ReadTop(last: Rows, k: nat, acc: Rows, top: Rows)
    requires |acc + TakeTop(last, k)| >= k
    requires IsTopK(top, multiset(acc + TakeTop(last, k)), k)
    ensures IsTopK(top, multiset(acc + last), k) && |multiset(acc + last)| >= k
  {
    assert multiset(acc + TakeTop(last, k)) == multiset(TakeTop(last, k)) + multiset(acc);
    TopOfTops(top, last, multiset(acc), k);
    TakeTopIsTopK(last, k);
    assert multiset(acc + last) == multiset(last) + multiset(acc);
  }

  lemma OutranksAll(rows: Rows, files: seq<Rows>)
    requires Outranks(rows, files)
    ensures forall r, x :: r in multiset(rows) && x in AllRows(files) ==> r.id >= x.id
  {
    forall r, x | r in multiset(rows) && x in AllRows(files) ensures r.id >= x.id {
      AllRowsMember(files, x);
    }
  }

  lemma ScanGoesOn(init: seq<Rows>, last: Rows, k: nat, acc: Rows, top: Rows)
    requires IsTopK(top, multiset(acc + TakeTop(last, k)) + AllRows(init), k)
    ensures IsTopK(top, multiset(acc) + (AllRows(init) + multiset(last)), k)
  {
    var rest := multiset(acc) + AllRows(init);
    assert multiset(acc + TakeTop(last, k)) + AllRows(init) == multiset(TakeTop(last, k)) + rest;
    TopOfTops(top, last, rest, k);
    assert multiset(acc) + (AllRows(init) + multiset(last)) == multiset(last) + rest;
  }

  lemma OutranksOn(files: seq<Rows>, k: nat, acc: Rows)
    requires files != [] && Ascends(files) && Outranks(acc, files)
    ensures Ascends(files[..|files| - 1])
    ensures Outranks(acc + files[|files| - 1], files[..|files| - 1])
    ensures Outranks(acc + TakeTop(files[|files| - 1], k), files[..|files| - 1])
  {
    var init, last := files[..|files| - 1], files[|files| - 1];
    TakeTopIsTopK(last, k);
    forall i, x: Row, r: Row | 0 <= i < |init| && x in init[i] && r in acc + last ensures r.id >= x.id {
      assert x in files[i];
    }
    forall r | r in acc + TakeTop(last, k) ensures r in acc + last {
      if r !in acc { assert r in multiset(TakeTop(last, k)) && r in multiset(last); }
    }
  }

  /** Whatever is the top k of the scanned rows is the top k of everything. */
  lemma {:induction false} ScanTop(files: seq<Rows>, k: nat, limit: Option<nat>, acc: Rows, top: Rows)
    requires limit.None? || (limit.value == k && Ascends(files) && Outranks(acc, files))
    requires IsTopK(top, multiset(Scan(files, k, limit, acc)), k)
    ensures IsTopK(top, multiset(acc) + AllRows(files), k)
    decreases |files|
  {
    if files == [] {
      assert multiset(acc) + AllRows(files) == multiset(acc);
    } else {
      var init, last := files[..|files| - 1], files[|files| - 1];
      var got := acc + TakeTop(last, k);
      if limit.Some? {
        OutranksOn(files, k, acc);
      }
      if limit.Some? && |got| >= k {
        ScanStops(init, last, k, acc, top);
      } else {
        ScanTop(init, k, limit, got, top);
        ScanGoesOn(init, last, k, acc, top);
      }
    }
  }

  /** The rows a caller keeps: the scan's rows in id order, cut to k. */
  function ColdTopK(files: seq<Rows>, k: nat, limit: Option<nat>): Rows {
    TakeTop(Scan(files, k, limit, []), k)
  }

  ghost predicate ScanIsRight(files: seq<Rows>, k: nat, limit: Option<nat>) {
    IsTopK(ColdTopK(files, k, limit), AllRows(files), k)
  }

  /** Ascending files, or no early exit: the scan returns the true newest k rows. */
  lemma ScanEqualsGlobalSort(files: seq<Rows>, k: nat, limit: Option<nat>)
    requires limit.None? || (limit.value == k && Ascends(files))
    ensures ScanIsRight(files, k, limit)
  {
    TakeTopIsTopK(Scan(files, k, limit, []), k);
    ScanTop(files, k, limit, [], ColdTopK(files, k, limit));
    assert multiset([]) + AllRows(files) == AllRows(files);
  }

  lemma {:induction false} AllRowsSplit(files: seq<Rows>, j: nat)
    requires j <= |files|
    ensures AllRows(files) == AllRows(files[..j]) + AllRows(files[j..])
    decreases |files|
  {
    if j < |files| {
      var init, last := files[..|files| - 1], files[|files| - 1];
      AllRowsSplit(init, j);
      assert init[..j] == files[..j] && files[j..][..|files| - j - 1] == init[j..];
    } else {
      assert files[..j] == files && files[j..] == [];
    }
  }

  /** A limit equal to the size of a suffix makes the scan stop exactly at its first file. */
  lemma {:induction false} ScanStopsAt(files: seq<Rows>, j: nat, k: nat, acc: Rows)
    requires j < |files| && files[j] != []
    requires k == |acc| + |AllRows(files[j..])|
    ensures multiset(Scan(files, k, Some(k), acc)) == multiset(acc) + AllRows(files[j..])
    decreases |files|
  {
    var init, last := files[..|files| - 1], files[|files| - 1];
    assert files[j..][..|files| - j - 1] == init[j..];
    assert AllRows(files[j..]) == AllRows(init[j..]) + multiset(last);
    TakeTopIsTopK(last, k);
    var got := acc + TakeTop(last, k);
    assert |multiset(TakeTop(last, k))| == |last|;
    assert multiset(got) == multiset(acc) + multiset(last);
    if j == |files| - 1 {
      assert init[j..] == [];
    } else {
      AllRowsMember(init[j..], files[j][0]);
      assert init[j..][0] == files[j];
      assert files[j][0] in AllRows(init[j..]);
      assert |AllRows(init[j..])| > 0;
      ScanStopsAt(init, j, k, got);
    }
  }

  /** Exact premise of the early exit: it is right for every limit only on ascending files. */
  lemma ScanNeedsAscending(files: seq<Rows>)
    requires forall k :: ScanIsRight(files, k, Some(k))
    ensures Ascends(files)
  {
    forall i, j, x, r | 0 <= i < j < |files| && x in files[i] && r in files[j] ensures r.id >= x.id {
      var k := |AllRows(files[j..])|;
      assert ScanIsRight(files, k, Some(k));
      ScanStopsAt(files, j, k, []);
      var rows := Scan(files, k, Some(k), []);
      assert multiset(rows) == AllRows(files[j..]);
      assert |multiset(rows)| == |rows|;
      TakeTopIsTopK(rows, k);
      AllRowsSplit(files, j);
      AllRowsMember(files[..j], x);
      assert x in files[..j][i];
      AllRowsMember(files[j..], r);
      assert r in files[j..][0];
      assert r in multiset(ColdTopK(files, k, Some(k)));
      assert x in AllRows(files) - multiset(ColdTopK(files, k, Some(k)));
    }
  }

  lemma EarlyExitExact(files: seq<Rows>)
    ensures (forall k :: ScanIsRight(files, k, Some(k))) <==> Ascends(files)
  {
    if Ascends(files) {
      forall k ensures ScanIsRight(files, k, Some(k)) { ScanEqualsGlobalSort(files, k, Some(k)); }
    }
    if forall k :: ScanIsRight(files, k, Some(k)) {
      ScanNeedsAscending(files);
    }
  }

  // ----- the loop over files -----

  /** A file as DuckDB finds it: readable, structurally damaged, or failing for another reason
      (memory, network), which must surface. */
  datatype Content = Readable(rows: Rows) | Corrupt | Failing

  /** The matching rows of each readable file; damaged files drop out. */
  function Usable(files: seq<Content>, where: Row -> bool): seq<Rows> {
    if files == [] then []
    else
      var last := files[|files| - 1];
      Usable(files[..|files| - 1], where) + if last.Readable? then [Keep(last.rows, where)] else []
  }

  /** One file's query: filtered, newest first, at most k rows. */
  function Fetch(where: Row -> bool, k: nat): Rows -> Rows {
    rows => TakeTop(Keep(rows, where), k)
  }

  /** The readable files' rows. */
  function Contents(files: seq<Content>): seq<Rows> {
    if files == [] then []
    else
      var last := files[|files| - 1];
      Contents(files[..|files| - 1]) + if last.Readable? then [last.rows] else []
  }

  /** The scan, running any query on each file. */
  function ScanBy(files: seq<Rows>, fetch: Rows -> Rows, limit: Option<nat>, acc: Rows): Rows
    decreases |files|
  {
    if files == [] then acc
    else
      var got := acc + fetch(files[|files| - 1]);
      if limit.Some? && |got| >= limit.value then got else ScanBy(files[..|files| - 1], fetch, limit, got)
  }

  lemma {:induction false} UsableContents(files: seq<Content>, where: Row -> bool)
    ensures |Usable(files, where)| == |Contents(files)|
    ensures forall i :: 0 <= i < |Contents(files)| ==> Usable(files, where)[i] == Keep(Contents(files)[i], where)
  {
    if files != [] { UsableContents(files[..|files| - 1], where); }
  }

  lemma {:induction false} ScanByIs(xs: seq<Rows>, ys: seq<Rows>, fetch: Rows -> Rows, k: nat, limit: Option<nat>, acc: Rows)
    requires |xs| == |ys| && forall i :: 0 <= i < |xs| ==> fetch(xs[i]) == TakeTop(ys[i], k)
    ensures ScanBy(xs, fetch, limit, acc) == Scan(ys, k, limit, acc)
  {
    if xs != [] {
      var n := |xs| - 1;
      assert fetch(xs[n]) == TakeTop(ys[n], k);
      ScanByIs(xs[..n], ys[..n], fetch, k, limit, acc + fetch(xs[n]));
    }
  }

  lemma ScanByFetch(files: seq<Content>, where: Row -> bool, k: nat, limit: Option<nat>, acc: Rows)
    ensures ScanBy(Contents(files), Fetch(where, k), limit, acc) == Scan(Usable(files, where), k, limit, acc)
  {
    UsableContents(files, where);
    ScanByIs(Contents(files), Usable(files, where), Fetch(where, k), k, limit, acc);
  }

  /** What remains to be scanned once files i and later have been read. */
  function Rest(files: seq<Content>, i: nat, fetch: Rows -> Rows, limit: Option<nat>, rows: Rows): Rows
    requires i <= |files|
  {
    ScanBy(Contents(files[..i]), fetch, limit, rows)
  }

  lemma RestSkip(files: seq<Content>, i: nat, fetch: Rows -> Rows, limit: Option<nat>, rows: Rows)
    requires i < |files| && !files[i].Readable?
    ensures Rest(files, i + 1, fetch, limit, rows) == Rest(files, i, fetch, limit, rows)
  {
    assert files[..i + 1][..i] == files[..i];
    assert Contents(files[..i]) + [] == Contents(files[..i]);
  }

  lemma RestRead(files: seq<Content>, i: nat, fetch: Rows -> Rows, limit: Option<nat>, rows: Rows, got: Rows)
    requires i < |files| && files[i].Readable? && got == rows + fetch(files[i].rows)
    ensures Rest(files, i + 1, fetch, limit, rows)
            == if limit.Some? && |got| >= limit.value then got else Rest(files, i, fetch, limit, got)
  {
    assert files[..i + 1][..i] == files[..i];
    var older := Contents(files[..i]);
    assert Contents(files[..i + 1]) == older + [files[i].rows];
    assert (older + [files[i].rows])[..|older|] == older;
  }

  /** The rows in hand when files i and later have all been read. */
  function InHand(files: seq<Content>, i: nat, fetch: Rows -> Rows): Rows
    requires i <= |files|
    decreases |files| - i
  {
    if i == |files| then []
    else InHand(files, i + 1, fetch) + if files[i].Readable? then fetch(files[i].rows) else []
  }

  /** The scan gets as far back as file i: no later file failed, and none filled the limit. */
  predicate Reached(files: seq<Content>, i: nat, fetch: Rows -> Rows, limit: Option<nat>)
    requires i < |files|
    decreases |files| - i
  {
    i + 1 == |files| ||
    (&& Reached(files, i + 1, fetch, limit) && !files[i + 1].Failing?
     && !(files[i + 1].Readable? && limit.Some? && |InHand(files, i + 1, fetch)| >= limit.value))
  }

  lemma {:induction false} NothingBeyond(files: seq<Content>, i: nat, n: nat, fetch: Rows -> Rows, limit: Option<nat>)
    requires n <= i < |files| && !Reached(files, i, fetch, limit)
    ensures !Reached(files, n, fetch, limit)
    decreases i - n
  {
    if n < i { NothingBeyond(files, i, n + 1, fetch, limit); }
  }

  lemma StopsHere(files: seq<Content>, i: nat, fetch: Rows -> Rows, limit: Option<nat>)
    requires i < |files|
    requires files[i].Failing? || (files[i].Readable? && limit.Some? && |InHand(files, i, fetch)| >= limit.value)
    ensures forall n :: 0 <= n < i ==> !Reached(files, n, fetch, limit)
  {
    forall n | 0 <= n < i ensures !Reached(files, n, fetch, limit) {
      NothingBeyond(files, i - 1, n, fetch, limit);
    }
  }

  /** The rows returned, or the exception, and the files removed from storage. */
  datatype Read = Read(result: Option<Rows>, deleted: set<nat>)

  /** The loop before file i - 1, with these rows in hand and these files deleted. */
  function ReadOn(files: seq<Content>, i: nat, fetch: Rows -> Rows, limit: Option<nat>, rows: Rows, deleted: set<nat>): Read
    requires i <= |files|
    decreases i
  {
    if i == 0 then Read(Some(rows), deleted)
    else
      match files[i - 1]
      case Failing => Read(None, deleted)
      case Corrupt => ReadOn(files, i - 1, fetch, limit, rows, deleted + {i - 1})
      case Readable(content) =>
        var got := rows + fetch(content);
        if limit.Some? && |got| >= limit.value then Read(Some(got), deleted)
        else ReadOn(files, i - 1, fetch, limit, got, deleted)
  }

  /** _query_cold_parquet_files_inner; `fetch` is the query run on one file. */
  method QueryFiles(files: seq<Content>, fetch: Rows -> Rows, limit: Option<nat>)
    returns (result: Option<Rows>, deleted: set<nat>)
    ensures Read(result, deleted) == ReadOn(files, |files|, fetch, limit, [], {})
  {
    var rows: Rows := [];
    deleted := {};
    var i := |files|;
    while i > 0
      invariant 0 <= i <= |files|
      invariant ReadOn(files, i, fetch, limit, rows, deleted) == ReadOn(files, |files|, fetch, limit, [], {})
    {
      i := i - 1;
      match files[i] {
        case Failing =>
          return None, deleted;
        case Corrupt =>
          deleted := deleted + {i};
        case Readable(content) =>
          rows := rows + fetch(content);
          if limit.Some? && |rows| >= limit.value {
            return Some(rows), deleted;
          }
      }
    }
    result := Some(rows);
  }

  /** What is returned is the scan of the readable files. */
  lemma {:induction false} ReadScans(files: seq<Content>, i: nat, fetch: Rows -> Rows, limit: Option<nat>, rows: Rows, deleted: set<nat>)
    requires i <= |files|
    ensures var r := ReadOn(files, i, fetch, limit, rows, deleted).result;
            r.Some? ==> r.value == Rest(files, i, fetch, limit, rows)
    decreases i
  {
    if i > 0 {
      match files[i - 1]
      case Failing =>
      case Corrupt =>
        RestSkip(files, i - 1, fetch, limit, rows);
        ReadScans(files, i - 1, fetch, limit, rows, deleted + {i - 1});
      case Readable(content) =>
        var got := rows + fetch(content);
        RestRead(files, i - 1, fetch, limit, rows, got);
        ReadScans(files, i - 1, fetch, limit, got, deleted);
    }
  }

  /** Reading file i reaches the one before it, unless it fails or fills the limit. */
  lemma ReachNext(files: seq<Content>, i: nat, fetch: Rows -> Rows, limit: Option<nat>, rows: Rows, got: Rows)
    requires i < |files| && rows == InHand(files, i + 1, fetch) && Reached(files, i, fetch, limit) && !files[i].Failing?
    requires got == if files[i].Readable? then rows + fetch(files[i].rows) else rows
    requires !(files[i].Readable? && limit.Some? && |got| >= limit.value)
    ensures got == InHand(files, i, fetch) && (i > 0 ==> Reached(files, i - 1, fetch, limit))
  {
    assert rows + [] == rows;
  }

  /** A file is deleted exactly if it was before, or is corrupt and still to be reached. */
  lemma {:induction false} ReadDeletes(files: seq<Content>, i: nat, fetch: Rows -> Rows, limit: Option<nat>, rows: Rows, deleted: set<nat>, n: nat)
    requires i <= |files| && rows == InHand(files, i, fetch) && (i > 0 ==> Reached(files, i - 1, fetch, limit))
    ensures n in ReadOn(files, i, fetch, limit, rows, deleted).deleted
            <==> n in deleted || (n < i && files[n].Corrupt? && Reached(files, n, fetch, limit))
    decreases i
  {
    if i > 0 {
      match files[i - 1]
      case Failing => StopsHere(files, i - 1, fetch, limit);
      case Corrupt =>
        ReachNext(files, i - 1, fetch, limit, rows, rows);
        ReadDeletes(files, i - 1, fetch, limit, rows, deleted + {i - 1}, n);
      case Readable(content) =>
        var got := rows + fetch(content);
        if limit.Some? && |got| >= limit.value {
          StopsHere(files, i - 1, fetch, limit);
        } else {
          ReachNext(files, i - 1, fetch, limit, rows, got);
          ReadDeletes(files, i - 1, fetch, limit, got, deleted, n);
        }
    }
  }

  /** Some file before i fails and is reached. */
  predicate FailsBelow(files: seq<Content>, i: nat, fetch: Rows -> Rows, limit: Option<nat>)
    requires i <= |files|
  {
    i > 0 && ((files[i - 1].Failing? && Reached(files, i - 1, fetch, limit)) || FailsBelow(files, i - 1, fetch, limit))
  }

  lemma {:induction false} FailsBelowMeans(files: seq<Content>, i: nat, fetch: Rows -> Rows, limit: Option<nat>)
    requires i <= |files|
    ensures FailsBelow(files, i, fetch, limit) <==> exists n :: 0 <= n < i && files[n].Failing? && Reached(files, n, fetch, limit)
  {
    if i > 0 { FailsBelowMeans(files, i - 1, fetch, limit); }
  }

  lemma {:induction false} NoFailureBeyond(files: seq<Content>, i: nat, n: nat, fetch: Rows -> Rows, limit: Option<nat>)
    requires n <= i < |files|
    requires files[i].Failing? || (files[i].Readable? && limit.Some? && |InHand(files, i, fetch)| >= limit.value)
    ensures !FailsBelow(files, n, fetch, limit)
  {
    if n > 0 {
      NothingBeyond(files, i - 1, n - 1, fetch, limit);
      NoFailureBeyond(files, i, n - 1, fetch, limit);
    }
  }

  /** The read raises exactly if a failing file is still to be reached. */
  lemma {:induction false} ReadRaises(files: seq<Content>, i: nat, fetch: Rows -> Rows, limit: Option<nat>, rows: Rows, deleted: set<nat>)
    requires i <= |files| && rows == InHand(files, i, fetch) && (i > 0 ==> Reached(files, i - 1, fetch, limit))
    ensures ReadOn(files, i, fetch, limit, rows, deleted).result.None? <==> FailsBelow(files, i, fetch, limit)
    decreases i
  {
    if i > 0 {
      match files[i - 1]
      case Failing =>
      case Corrupt =>
        ReachNext(files, i - 1, fetch, limit, rows, rows);
        ReadRaises(files, i - 1, fetch, limit, rows, deleted + {i - 1});
      case Readable(content) =>
        var got := rows + fetch(content);
        if limit.Some? && |got| >= limit.value {
          NoFailureBeyond(files, i - 1, i - 1, fetch, limit);
        } else {
          ReachNext(files, i - 1, fetch, limit, rows, got);
          ReadRaises(files, i - 1, fetch, limit, got, deleted);
        }
    }
  }

  /** What a query does to its files: it returns the scan of the readable ones unless it reaches a
      failing one, and deletes exactly the corrupt ones it reaches. */
  lemma QueryOutcome(files: seq<Content>, where: Row -> bool, k: nat, limit: Option<nat>)
    ensures var r := ReadOn(files, |files|, Fetch(where, k), limit, [], {});
            && (r.result.Some? ==> r.result.value == Scan(Usable(files, where), k, limit, []))
            && (r.result.None? <==> exists n :: 0 <= n < |files| && files[n].Failing? && Reached(files, n, Fetch(where, k), limit))
            && forall n: nat :: n in r.deleted <==> n < |files| && files[n].Corrupt? && Reached(files, n, Fetch(where, k), limit)
  {
    ReadScans(files, |files|, Fetch(where, k), limit, [], {});
    ScanByFetch(files, where, k, limit, []);
    assert files[..|files|] == files;
    ReadRaises(files, |files|, Fetch(where, k), limit, [], {});
    FailsBelowMeans(files, |files|, Fetch(where, k), limit);
    forall n: nat
      ensures n in ReadOn(files, |files|, Fetch(where, k), limit, [], {}).deleted
              <==> n < |files| && files[n].Corrupt? && Reached(files, n, Fetch(where, k), limit)
    {
      ReadDeletes(files, |files|, Fetch(where, k), limit, [], {}, n);
    }
  }
}
