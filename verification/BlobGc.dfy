/** The blob garbage collector racing with checksum-deduplicated uploads. One step is one SQL
    statement or one storage call; a crash may stop either side anywhere. */
module BlobGc {
  import opened Numbers

  const MAX_DELETIONS: nat := 10_000
  const BATCH: nat := 1000

  /** A FileBlob row: its content's checksum, its object's storage name, and when it was created. */
  datatype Blob = Blob(checksum: nat, name: nat, created: int)

  /** A File row that references a blob. */
  datatype FileRow = FileRow(blob: nat, created: int)

  /** `used` holds every blob id ever given out; storage maps an object's name to its content's checksum. */
  datatype Db = Db(blobs: map<nat, Blob>, used: set<nat>, files: map<nat, FileRow>, storage: map<nat, nat>)

  /** The two querysets: old blobs without a recent File, and blobs past the grace period without any. */
  datatype Pass = Retention(cutoff: int) | Orphans(cutoff: int)

  /** A row as the collector fetched it. */
  datatype Fetched = Fetched(id: nat, blob: Blob)

  /** Where the collector is in `_delete_file_blobs`. */
  datatype Gc = Idle
              | Selecting(pass: Pass, total: nat)
              | Chosen(pass: Pass, total: nat, batch: seq<Fetched>)
              | RowsGone(pass: Pass, total: nat, batch: seq<Fetched>, count: nat)
              | Sweeping(pass: Pass, total: nat, count: nat, pending: seq<Fetched>)

  /** Where an upload is in get_or_create and the File insert that follows it. */
  datatype Upload = Start(checksum: nat) | Stored(checksum: nat, name: nat) | Holding(id: nat) | Finished

  datatype State = State(db: Db, gc: Gc, uploads: seq<Upload>)

  // ----- the collector's statements -----

  predicate Keeps(db: Db, pass: Pass, id: nat, f: nat) {
    f in db.files && db.files[f].blob == id && (pass.Retention? ==> db.files[f].created >= pass.cutoff)
  }

  predicate Stale(db: Db, pass: Pass, id: nat) {
    id in db.blobs && db.blobs[id].created < pass.cutoff && forall f :: f in db.files ==> !Keeps(db, pass, id, f)
  }

  function Ids(batch: seq<Fetched>): set<nat> {
    set b | b in batch :: b.id
  }

  /** The rows a delete removes: the queryset's conditions are evaluated again. */
  function Gone(db: Db, pass: Pass, batch: seq<Fetched>): set<nat> {
    set id | id in Ids(batch) && Stale(db, pass, id)
  }

  /** The rows and, by cascade, the Files that reference them. */
  function WithoutRows(db: Db, gone: set<nat>): Db {
    db.(blobs := db.blobs - gone, files := map f | f in db.files && db.files[f].blob !in gone :: db.files[f])
  }

  /** The fetched rows that are not in the table any more. */
  function Missing(db: Db, batch: seq<Fetched>): seq<Fetched> {
    if batch == [] then []
    else Missing(db, batch[..|batch| - 1]) + if batch[|batch| - 1].id in db.blobs then [] else [batch[|batch| - 1]]
  }

  predicate IsFetch(db: Db, pass: Pass, batch: seq<Fetched>) {
    && 0 < |batch| <= BATCH
    && (forall i, j :: 0 <= i < j < |batch| ==> batch[i].id != batch[j].id)
    && forall i :: 0 <= i < |batch| ==> Stale(db, pass, batch[i].id) && batch[i].blob == db.blobs[batch[i].id]
  }

  predicate GcStep(s: State, t: State) {
    && t.uploads == s.uploads
    && match s.gc
       case Idle => t.db == s.db && t.gc.Selecting? && t.gc.total == 0
       case Selecting(pass, total) =>
         t.db == s.db && (t.gc == Idle || (total < MAX_DELETIONS && t.gc.Chosen? && t.gc == Chosen(pass, total, t.gc.batch) && IsFetch(s.db, pass, t.gc.batch)))
       case Chosen(pass, total, batch) =>
         var gone := Gone(s.db, pass, batch);
         t.db == WithoutRows(s.db, gone) && t.gc == RowsGone(pass, total, batch, |gone|)
       case RowsGone(pass, total, batch, count) =>
         t.db == s.db && t.gc == Sweeping(pass, total, count, if count == |batch| then batch else Missing(s.db, batch))
       case Sweeping(pass, total, count, pending) =>
         if pending == [] then t.db == s.db && t.gc == Selecting(pass, total + count)
         else t.gc == s.gc.(pending := pending[1..]) && (t.db == s.db || t.db == s.db.(storage := s.db.storage - {pending[0].blob.name}))
  }

  /** The process dies and nothing more of this call happens. */
  predicate GcCrash(s: State, t: State) {
    t == s.(gc := Idle)
  }

  // ----- an upload's statements -----

  /** get_or_create's lookup. */
  predicate Find(s: State, t: State, k: nat) {
    && k < |s.uploads| && s.uploads[k].Start? && t.gc == s.gc && t.db == s.db
    && exists id :: id in s.db.blobs && s.db.blobs[id].checksum == s.uploads[k].checksum && t.uploads == s.uploads[k := Holding(id)]
  }

  /** The collector fetched a row with that name and may still delete the object. */
  predicate Tracked(gc: Gc, name: nat) {
    match gc
    case Idle => false
    case Selecting(_, _) => false
    case Chosen(_, _, batch) => exists i :: 0 <= i < |batch| && batch[i].blob.name == name
    case RowsGone(_, _, batch, _) => exists i :: 0 <= i < |batch| && batch[i].blob.name == name
    case Sweeping(_, _, _, pending) => exists i :: 0 <= i < |pending| && pending[i].blob.name == name
  }

  /** No row, no other upload and no entry of the collector has the name. */
  predicate SafeName(s: State, k: nat, name: nat) {
    && (forall id :: id in s.db.blobs ==> s.db.blobs[id].name != name)
    && (forall j :: 0 <= j < |s.uploads| && j != k && s.uploads[j].Stored? ==> s.uploads[j].name != name)
    && !Tracked(s.gc, name)
  }

  /** The content is stored under some name, replacing what storage has there. The lookup that found
      no row is any earlier moment's, so a row may have landed since. */
  predicate StoreAny(s: State, t: State, k: nat, name: nat) {
    && k < |s.uploads| && s.uploads[k].Start? && t.gc == s.gc
    && t.db == s.db.(storage := s.db.storage[name := s.uploads[k].checksum])
    && t.uploads == s.uploads[k := Stored(s.uploads[k].checksum, name)]
  }

  /** Under a safe name, such as one that nothing in storage has (`FreeNameIsSafe`). */
  predicate Store(s: State, t: State, k: nat, name: nat) {
    StoreAny(s, t, k, name) && SafeName(s, k, name)
  }

  /** The row insert; the unique checksum sends a loser back to the lookup, its object unreferenced. */
  predicate InsertBlob(s: State, t: State, k: nat, id: nat, created: int) {
    && k < |s.uploads| && s.uploads[k].Stored? && t.gc == s.gc
    && if exists other :: other in s.db.blobs && s.db.blobs[other].checksum == s.uploads[k].checksum
       then t.db == s.db && t.uploads == s.uploads[k := Start(s.uploads[k].checksum)]
       else
         && id !in s.db.used
         && t.db == s.db.(blobs := s.db.blobs[id := Blob(s.uploads[k].checksum, s.uploads[k].name, created)], used := s.db.used + {id})
         && t.uploads == s.uploads[k := Holding(id)]
  }

  /** The File insert; the foreign key refuses it if the blob's row is gone. */
  predicate InsertFile(s: State, t: State, k: nat, f: nat, created: int) {
    && k < |s.uploads| && s.uploads[k].Holding? && t.gc == s.gc && t.uploads == s.uploads[k := Finished]
    && f !in s.db.files
    && t.db == if s.uploads[k].id in s.db.blobs then s.db.(files := s.db.files[f := FileRow(s.uploads[k].id, created)]) else s.db
  }

  /** An upload gives up anywhere, or a new one begins. */
  predicate Churn(s: State, t: State, k: nat, checksum: nat) {
    k < |s.uploads| && t == s.(uploads := s.uploads[k := Start(checksum)])
  }

  ghost predicate UploadStep(s: State, t: State) {
    || (exists k :: Find(s, t, k))
    || (exists k, name :: Store(s, t, k, name))
    || (exists k, id, created :: InsertBlob(s, t, k, id, created))
    || (exists k, f, created :: InsertFile(s, t, k, f, created))
    || (exists k, checksum :: Churn(s, t, k, checksum))
  }

  ghost predicate Step(s: State, t: State) {
    GcStep(s, t) || GcCrash(s, t) || UploadStep(s, t)
  }

  // ----- the invariant -----

  /** The object holds this content. */
  predicate Holds(db: Db, name: nat, checksum: nat) {
    name in db.storage && db.storage[name] == checksum
  }

  /** Every row's object holds the row's content. */
  predicate Intact(db: Db) {
    forall id :: id in db.blobs ==> Holds(db, db.blobs[id].name, db.blobs[id].checksum)
  }

  predicate UniqueChecksums(db: Db) {
    forall i, j :: i in db.blobs && j in db.blobs && i != j ==> db.blobs[i].checksum != db.blobs[j].checksum
  }

  /** Every row has its bytes, no two rows share an object or a checksum, ids are known, and Files
      have their rows. */
  predicate DbInv(db: Db) {
    && Intact(db) && UniqueChecksums(db)
    && (forall id :: id in db.blobs ==> id in db.used)
    && (forall i, j :: i in db.blobs && j in db.blobs && i != j ==> db.blobs[i].name != db.blobs[j].name)
    && (forall f :: f in db.files ==> db.files[f].blob in db.blobs)
  }

  /** The object is stored and no row names it. */
  predicate Loose(db: Db, name: nat) {
    name in db.storage && forall id :: id in db.blobs ==> db.blobs[id].name != name
  }

  /** The object is an upload's, not yet in a row. */
  predicate Claimed(uploads: seq<Upload>, name: nat) {
    exists k :: 0 <= k < |uploads| && uploads[k].Stored? && uploads[k].name == name
  }

  predicate UploadsInv(db: Db, uploads: seq<Upload>) {
    && (forall k :: 0 <= k < |uploads| && uploads[k].Stored? ==> Loose(db, uploads[k].name) && Holds(db, uploads[k].name, uploads[k].checksum))
    && (forall j, k :: 0 <= j < k < |uploads| && uploads[j].Stored? && uploads[k].Stored? ==> uploads[j].name != uploads[k].name)
  }

  /** Nobody else's: the row is gone, and neither a row nor an upload has the object. */
  predicate Doomed(s: State, b: Fetched) {
    b.id !in s.db.blobs && Loose(s.db, b.blob.name) && !Claimed(s.uploads, b.blob.name)
  }

  predicate InPlace(db: Db, b: Fetched) {
    b.id in db.blobs && db.blobs[b.id] == b.blob
  }

  predicate Separate(bs: seq<Fetched>) {
    forall i, j :: 0 <= i < j < |bs| ==> bs[i].id != bs[j].id && bs[i].blob.name != bs[j].blob.name
  }

  predicate GcInv(s: State) {
    match s.gc
    case Idle => true
    case Selecting(_, total) => total < MAX_DELETIONS + BATCH
    case Chosen(_, total, batch) =>
      total < MAX_DELETIONS && |batch| <= BATCH && Separate(batch) && forall i :: 0 <= i < |batch| ==> InPlace(s.db, batch[i]) && batch[i].id in s.db.used
    case RowsGone(_, total, batch, count) =>
      && total < MAX_DELETIONS && count <= |batch| <= BATCH && Separate(batch)
      && (forall i :: 0 <= i < |batch| ==> batch[i].id in s.db.used && (InPlace(s.db, batch[i]) || Doomed(s, batch[i])))
      && (count == |batch| ==> forall i :: 0 <= i < |batch| ==> batch[i].id !in s.db.blobs)
    case Sweeping(_, total, count, pending) =>
      && total < MAX_DELETIONS && count <= BATCH && Separate(pending)
      && forall i :: 0 <= i < |pending| ==> pending[i].id in s.db.used && Doomed(s, pending[i])
  }

  predicate Inv(s: State) {
    DbInv(s.db) && UploadsInv(s.db, s.uploads) && GcInv(s)
  }

  // ----- the collector keeps it -----

  lemma DeleteKeepsDb(db: Db, gone: set<nat>)
    requires DbInv(db)
    ensures DbInv(WithoutRows(db, gone))
  {
  }

  lemma {:induction false} IdsCount(batch: seq<Fetched>)
    requires forall i, j :: 0 <= i < j < |batch| ==> batch[i].id != batch[j].id
    ensures |Ids(batch)| == |batch|
  {
    if batch == [] {
      assert Ids(batch) == {};
    } else {
      var init, last := batch[..|batch| - 1], batch[|batch| - 1];
      IdsCount(init);
      assert Ids(batch) == Ids(init) + {last.id};
      assert last.id !in Ids(init);
    }
  }

  lemma GoneCounts(db: Db, pass: Pass, batch: seq<Fetched>)
    requires forall i, j :: 0 <= i < j < |batch| ==> batch[i].id != batch[j].id
    ensures |Gone(db, pass, batch)| <= |batch|
    ensures |Gone(db, pass, batch)| == |batch| ==> forall i :: 0 <= i < |batch| ==> batch[i].id in Gone(db, pass, batch)
  {
    IdsCount(batch);
    assert Gone(db, pass, batch) <= Ids(batch);
    SubsetSize(Gone(db, pass, batch), Ids(batch));
    forall i | 0 <= i < |batch| ensures batch[i].id in Ids(batch) {
    }
  }

  lemma DeleteKeeps(s: State, t: State)
    requires Inv(s) && s.gc.Chosen? && GcStep(s, t)
    ensures Inv(t)
  {
    var gone := Gone(s.db, s.gc.pass, s.gc.batch);
    DeleteKeepsDb(s.db, gone);
    GoneCounts(s.db, s.gc.pass, s.gc.batch);
    forall i | 0 <= i < |s.gc.batch| ensures InPlace(t.db, s.gc.batch[i]) || Doomed(t, s.gc.batch[i]) {
      DeletedOrInPlace(s, t, s.gc.batch[i]);
    }
  }

  lemma DeletedOrInPlace(s: State, t: State, b: Fetched)
    requires DbInv(s.db) && UploadsInv(s.db, s.uploads) && s.gc.Chosen? && GcStep(s, t) && InPlace(s.db, b)
    ensures InPlace(t.db, b) || Doomed(t, b)
  {
  }

  lemma {:induction false} MissingAreThose(db: Db, batch: seq<Fetched>)
    ensures forall b :: b in Missing(db, batch) <==> b in batch && b.id !in db.blobs
  {
    if batch != [] {
      var init, last := batch[..|batch| - 1], batch[|batch| - 1];
      MissingAreThose(db, init);
      assert batch == init + [last];
    }
  }

  lemma {:induction false} MissingSeparate(db: Db, batch: seq<Fetched>)
    requires Separate(batch)
    ensures Separate(Missing(db, batch))
  {
    if batch != [] {
      var init, last := batch[..|batch| - 1], batch[|batch| - 1];
      MissingSeparate(db, init);
      MissingAreThose(db, init);
      forall i | 0 <= i < |Missing(db, init)| ensures Missing(db, init)[i].id != last.id && Missing(db, init)[i].blob.name != last.blob.name {
        assert Missing(db, init)[i] in init;
      }
    }
  }

  lemma SelectSurvivorsKeeps(s: State, t: State)
    requires Inv(s) && s.gc.RowsGone? && GcStep(s, t)
    ensures Inv(t)
  {
    MissingAreThose(s.db, s.gc.batch);
    MissingSeparate(s.db, s.gc.batch);
    forall i | 0 <= i < |t.gc.pending| ensures t.gc.pending[i].id in t.db.used && Doomed(t, t.gc.pending[i]) {
      assert t.gc.pending[i] in s.gc.batch;
    }
  }

  lemma SweepKeeps(s: State, t: State)
    requires Inv(s) && s.gc.Sweeping? && GcStep(s, t)
    ensures Inv(t)
  {
    if s.gc.pending != [] {
      var rest := s.gc.pending[1..];
      forall i | 0 <= i < |rest| ensures rest[i] == s.gc.pending[i + 1] && rest[i].blob.name != s.gc.pending[0].blob.name {
      }
    }
  }

  lemma GcKeeps(s: State, t: State)
    requires Inv(s) && GcStep(s, t)
    ensures Inv(t)
  {
    match s.gc
    case Chosen(_, _, _) => DeleteKeeps(s, t);
    case RowsGone(_, _, _, _) => SelectSurvivorsKeeps(s, t);
    case Sweeping(_, _, _, _) => SweepKeeps(s, t);
    case _ =>
  }

  // ----- uploads keep it -----

  lemma StoreKeeps(s: State, t: State, k: nat, name: nat)
    requires Inv(s) && Store(s, t, k, name)
    ensures Inv(t)
  {
  }

  lemma InsertBlobKeeps(s: State, t: State, k: nat, id: nat, created: int)
    requires Inv(s) && InsertBlob(s, t, k, id, created)
    ensures Inv(t)
  {
  }

  lemma InsertFileKeeps(s: State, t: State, k: nat, f: nat, created: int)
    requires Inv(s) && InsertFile(s, t, k, f, created)
    ensures Inv(t)
  {
  }

  lemma UploadKeeps(s: State, t: State)
    requires Inv(s) && UploadStep(s, t)
    ensures Inv(t)
  {
    if k, name :| Store(s, t, k, name) {
      StoreKeeps(s, t, k, name);
    } else if k, id, created :| InsertBlob(s, t, k, id, created) {
      InsertBlobKeeps(s, t, k, id, created);
    } else if k, f, created :| InsertFile(s, t, k, f, created) {
      InsertFileKeeps(s, t, k, f, created);
    } else {
      QuietKeeps(s, t);
    }
  }

  lemma QuietKeeps(s: State, t: State)
    requires Inv(s) && t.db == s.db && t.gc == s.gc && |t.uploads| == |s.uploads|
    requires forall k :: 0 <= k < |t.uploads| && t.uploads[k].Stored? ==> t.uploads[k] == s.uploads[k]
    ensures Inv(t)
  {
    forall name | Claimed(t.uploads, name) ensures Claimed(s.uploads, name) {
      var k :| 0 <= k < |t.uploads| && t.uploads[k].Stored? && t.uploads[k].name == name;
      assert s.uploads[k].Stored? && s.uploads[k].name == name;
    }
  }

  lemma StepKeeps(s: State, t: State)
    requires Inv(s) && Step(s, t)
    ensures Inv(t)
  {
    if GcStep(s, t) {
      GcKeeps(s, t);
    } else if UploadStep(s, t) {
      UploadKeeps(s, t);
    }
  }

  // ----- runs -----

  /** A sound database, the collector idle, and uploads about to begin. */
  ghost predicate Run(ss: seq<State>) {
    && ss != [] && DbInv(ss[0].db) && ss[0].gc == Idle
    && (forall k :: 0 <= k < |ss[0].uploads| ==> !ss[0].uploads[k].Stored?)
    && forall i :: 0 <= i < |ss| - 1 ==> Step(ss[i], ss[i + 1])
  }

  lemma {:induction false} RunKeeps(ss: seq<State>, i: nat)
    requires Run(ss) && i < |ss|
    ensures Inv(ss[i])
  {
    if i > 0 {
      RunKeeps(ss, i - 1);
      StepKeeps(ss[i - 1], ss[i]);
    }
  }

  /** Under any interleaving, with crashes and failed storage deletes, every FileBlob row still has
      its content stored under its name, and every File its row. */
  lemma EveryRowKeepsItsBytes(ss: seq<State>, i: nat)
    requires Run(ss) && i < |ss|
    ensures Intact(ss[i].db)
    ensures forall f :: f in ss[i].db.files ==> ss[i].db.files[f].blob in ss[i].db.blobs
  {
    RunKeeps(ss, i);
  }

  /** One call of `_delete_file_blobs` deletes at most 10,999 rows: what it has counted so far, and
      the batch it is working on. */
  lemma OneCallDeletesFew(ss: seq<State>, i: nat)
    requires Run(ss) && i < |ss|
    ensures var gc := ss[i].gc;
            match gc
            case Idle => true
            case Selecting(_, total) => total <= 10_999
            case Chosen(_, total, batch) => total + |batch| <= 10_999
            case RowsGone(_, total, _, count) => total + count <= 10_999
            case Sweeping(_, total, count, _) => total + count <= 10_999
  {
    RunKeeps(ss, i);
  }

  /** And it counts what it deletes: exactly the rows that went. */
  lemma DeleteCountsRows(s: State, t: State)
    requires GcStep(s, t) && s.gc.Chosen?
    ensures |s.db.blobs.Keys| == |t.db.blobs.Keys| + t.gc.count
  {
    RowsSplit(s.db, Gone(s.db, s.gc.pass, s.gc.batch));
  }

  lemma RowsSplit(db: Db, gone: set<nat>)
    requires gone <= db.blobs.Keys
    ensures |db.blobs.Keys| == |WithoutRows(db, gone).blobs.Keys| + |gone|
  {
    assert db.blobs.Keys == WithoutRows(db, gone).blobs.Keys + gone;
  }

  /** A File disappears only in a retention pass's delete, and then it is older than the cutoff. */
  lemma OnlyOldFilesGo(s: State, t: State, f: nat)
    requires Step(s, t) && f in s.db.files && f !in t.db.files
    ensures s.gc.Chosen? && s.gc.pass.Retention? && s.db.files[f].created < s.gc.pass.cutoff
  {
    if UploadStep(s, t) {
      UploadKeepsFiles(s, t, f);
    }
    assert GcStep(s, t) && s.gc.Chosen?;
    var id := s.db.files[f].blob;
    assert id in Gone(s.db, s.gc.pass, s.gc.batch);
    assert !Keeps(s.db, s.gc.pass, id, f);
  }

  lemma UploadKeepsFiles(s: State, t: State, f: nat)
    requires UploadStep(s, t) && f in s.db.files
    ensures f in t.db.files && t.db.files[f] == s.db.files[f]
  {
  }

  lemma StepKeepsFile(s: State, t: State, f: nat)
    requires Step(s, t) && f in s.db.files && f in t.db.files
    ensures t.db.files[f] == s.db.files[f]
  {
    if UploadStep(s, t) { UploadKeepsFiles(s, t, f); }
  }

  lemma RecentFileStays(s: State, t: State, f: nat)
    requires Step(s, t) && f in s.db.files && CutoffBy(s, s.db.files[f].created)
    ensures f in t.db.files && t.db.files[f] == s.db.files[f]
  {
    if f !in t.db.files {
      OnlyOldFilesGo(s, t, f);
      assert false;
    }
    StepKeepsFile(s, t, f);
  }

  predicate CutoffBy(s: State, time: int) {
    s.gc.Chosen? && s.gc.pass.Retention? ==> s.gc.pass.cutoff <= time
  }

  /** If the File is there at k and no cutoff passes it, it is there, the same, at k + 1. */
  ghost predicate FileKept(ss: seq<State>, k: nat, f: nat) {
    && k + 1 < |ss|
    && (f in ss[k].db.files && CutoffBy(ss[k], ss[k].db.files[f].created) ==>
          f in ss[k + 1].db.files && ss[k + 1].db.files[f] == ss[k].db.files[f])
  }

  lemma RunKeepsFile(ss: seq<State>, k: nat, f: nat)
    requires Run(ss) && k + 1 < |ss|
    ensures FileKept(ss, k, f)
  {
    assert Step(ss[k], ss[k + 1]);
    if f in ss[k].db.files && CutoffBy(ss[k], ss[k].db.files[f].created) { RecentFileStays(ss[k], ss[k + 1], f); }
  }

  lemma {:induction false} FileKeptAlong(ss: seq<State>, i: nat, j: nat, f: nat)
    requires i <= j < |ss| && f in ss[i].db.files
    requires forall k :: i <= k < j ==> FileKept(ss, k, f) && CutoffBy(ss[k], ss[i].db.files[f].created)
    ensures f in ss[j].db.files && ss[j].db.files[f] == ss[i].db.files[f]
    decreases j
  {
    if i < j {
      FileKeptAlong(ss, i, j - 1, f);
      assert FileKept(ss, j - 1, f);
    }
  }

  /** A File not older than any retention cutoff of the run is there to the end, bytes and all. */
  lemma RecentFilesStay(ss: seq<State>, i: nat, j: nat, f: nat)
    requires Run(ss) && i <= j < |ss| && f in ss[i].db.files
    requires forall k :: i <= k < j ==> CutoffBy(ss[k], ss[i].db.files[f].created)
    ensures f in ss[j].db.files && ss[j].db.files[f] == ss[i].db.files[f]
    ensures ss[j].db.files[f].blob in ss[j].db.blobs && Intact(ss[j].db)
  {
    forall k | i <= k < j ensures FileKept(ss, k, f) { RunKeepsFile(ss, k, f); }
    FileKeptAlong(ss, i, j, f);
    RunKeeps(ss, j);
  }

  /** A row goes only if it was created before the pass's cutoff and, in the orphan pass, has no File
      at all, in the retention pass none as recent as the cutoff. */
  lemma OnlyOldRowsGo(s: State, t: State, id: nat)
    requires DbInv(s.db) && Step(s, t) && id in s.db.blobs && id !in t.db.blobs
    ensures s.gc.Chosen? && s.db.blobs[id].created < s.gc.pass.cutoff
    ensures forall f :: f in s.db.files && s.db.files[f].blob == id ==> s.gc.pass.Retention? && s.db.files[f].created < s.gc.pass.cutoff
  {
    if UploadStep(s, t) {
      UploadKeepsRows(s, t, id);
    }
    assert GcStep(s, t) && s.gc.Chosen?;
    assert id in Gone(s.db, s.gc.pass, s.gc.batch);
    forall f | f in s.db.files && s.db.files[f].blob == id ensures s.gc.pass.Retention? && s.db.files[f].created < s.gc.pass.cutoff {
      assert !Keeps(s.db, s.gc.pass, id, f);
    }
  }

  lemma UploadKeepsRows(s: State, t: State, id: nat)
    requires UploadStep(s, t) && id in s.db.blobs && DbInv(s.db)
    ensures id in t.db.blobs && t.db.blobs[id] == s.db.blobs[id]
  {
  }

  predicate OldestCutoff(s: State, time: int) {
    s.gc.Chosen? ==> s.gc.pass.cutoff <= time
  }

  lemma YoungRowStays(s: State, t: State, id: nat)
    requires DbInv(s.db) && Step(s, t) && id in s.db.blobs && OldestCutoff(s, s.db.blobs[id].created)
    ensures id in t.db.blobs && t.db.blobs[id] == s.db.blobs[id]
  {
    if id !in t.db.blobs {
      OnlyOldRowsGo(s, t, id);
      assert false;
    }
    if UploadStep(s, t) { UploadKeepsRows(s, t, id); }
  }

  ghost predicate RowKept(ss: seq<State>, k: nat, id: nat) {
    && k + 1 < |ss|
    && (id in ss[k].db.blobs && OldestCutoff(ss[k], ss[k].db.blobs[id].created) ==>
          id in ss[k + 1].db.blobs && ss[k + 1].db.blobs[id] == ss[k].db.blobs[id])
  }

  lemma RunKeepsRow(ss: seq<State>, k: nat, id: nat)
    requires Run(ss) && k + 1 < |ss|
    ensures RowKept(ss, k, id)
  {
    assert Step(ss[k], ss[k + 1]);
    RunKeeps(ss, k);
    if id in ss[k].db.blobs && OldestCutoff(ss[k], ss[k].db.blobs[id].created) { YoungRowStays(ss[k], ss[k + 1], id); }
  }

  lemma {:induction false} RowKeptAlong(ss: seq<State>, i: nat, j: nat, id: nat)
    requires i <= j < |ss| && id in ss[i].db.blobs
    requires forall k :: i <= k < j ==> RowKept(ss, k, id) && OldestCutoff(ss[k], ss[i].db.blobs[id].created)
    ensures id in ss[j].db.blobs && ss[j].db.blobs[id] == ss[i].db.blobs[id]
    decreases j
  {
    if i < j {
      RowKeptAlong(ss, i, j - 1, id);
      assert RowKept(ss, j - 1, id);
    }
  }

  /** The grace period: a row no older than any cutoff of the run is there to the end, with its bytes,
      whether or not a File references it yet. */
  lemma YoungRowsStay(ss: seq<State>, i: nat, j: nat, id: nat)
    requires Run(ss) && i <= j < |ss| && id in ss[i].db.blobs
    requires forall k :: i <= k < j ==> OldestCutoff(ss[k], ss[i].db.blobs[id].created)
    ensures id in ss[j].db.blobs && ss[j].db.blobs[id] == ss[i].db.blobs[id]
    ensures Holds(ss[j].db, ss[j].db.blobs[id].name, ss[j].db.blobs[id].checksum)
  {
    forall k | i <= k < j ensures RowKept(ss, k, id) { RunKeepsRow(ss, k, id); }
    RowKeptAlong(ss, i, j, id);
    RunKeeps(ss, j);
  }

  /** What a pass may delete: rows from before its cutoff that no File references or, in the retention
      pass, none at least as recent as the cutoff. */
  lemma StaleIdsAre(db: Db, cutoff: int)
    ensures StaleIds(db, Orphans(cutoff)) ==
            set id | id in db.blobs && db.blobs[id].created < cutoff && forall f :: f in db.files ==> db.files[f].blob != id
    ensures StaleIds(db, Retention(cutoff)) ==
            set id | id in db.blobs && db.blobs[id].created < cutoff
                     && forall f :: f in db.files && db.files[f].created >= cutoff ==> db.files[f].blob != id
  {
  }

  // ----- an uninterrupted call -----

  function StaleIds(db: Db, pass: Pass): set<nat> {
    set id | id in db.blobs && Stale(db, pass, id)
  }

  function ObjectsOf(db: Db, ids: set<nat>): set<nat> {
    set id | id in ids && id in db.blobs :: db.blobs[id].name
  }

  /** Rows, their Files and their objects gone, and nothing else. */
  function Collected(db: Db, gone: set<nat>): Db {
    WithoutRows(db, gone).(storage := db.storage - ObjectsOf(db, gone))
  }

  lemma CollectMore(db: Db, gone: set<nat>, more: set<nat>)
    requires DbInv(db) && gone !! more
    ensures Collected(Collected(db, gone), more) == Collected(db, gone + more)
  {
    assert ObjectsOf(db, gone + more) == ObjectsOf(db, gone) + ObjectsOf(Collected(db, gone), more);
    assert db.blobs - gone - more == db.blobs - (gone + more);
  }

  /** What is collected changes neither the other rows nor whether they are stale. */
  lemma CollectedStale(db: Db, gone: set<nat>, pass: Pass)
    requires DbInv(db)
    ensures StaleIds(Collected(db, gone), pass) == StaleIds(db, pass) - gone
  {
    var c := Collected(db, gone);
    forall id ensures Stale(c, pass, id) <==> Stale(db, pass, id) && id !in gone {
      if id in c.blobs {
        forall f ensures Keeps(c, pass, id, f) <==> Keeps(db, pass, id, f) {
        }
      }
    }
  }

  /** Collecting keeps every remaining row's object. */
  lemma CollectedKeeps(db: Db, gone: set<nat>)
    requires DbInv(db)
    ensures DbInv(Collected(db, gone))
  {
  }

  class Maintenance {
    var db: Db

    constructor (d: Db)
      ensures db == d
    {
      db := d;
    }

    /** `queryset[:1000]`. */
    method Select(pass: Pass) returns (batch: seq<Fetched>)
      ensures if batch == [] then StaleIds(db, pass) == {} else IsFetch(db, pass, batch)
    {
      batch := [];
      var rest := db.blobs.Keys;
      while rest != {} && |batch| < BATCH
        invariant rest <= db.blobs.Keys && |batch| <= BATCH
        invariant forall i, j :: 0 <= i < j < |batch| ==> batch[i].id != batch[j].id
        invariant forall i :: 0 <= i < |batch| ==> batch[i].id !in rest && Stale(db, pass, batch[i].id) && batch[i].blob == db.blobs[batch[i].id]
        invariant batch == [] ==> forall id :: id in db.blobs && Stale(db, pass, id) ==> id in rest
        decreases rest
      {
        var id :| id in rest;
        rest := rest - {id};
        if Stale(db, pass, id) { batch := batch + [Fetched(id, db.blobs[id])]; }
      }
    }

    /** The storage deletes, one by one. */
    method Sweep(batch: seq<Fetched>)
      modifies this
      ensures db == old(db).(storage := old(db).storage - NamesOf(batch))
    {
      var i := 0;
      while i < |batch|
        invariant 0 <= i <= |batch|
        invariant db == old(db).(storage := old(db).storage - NamesOf(batch[..i]))
      {
        assert batch[..i + 1] == batch[..i] + [batch[i]];
        assert NamesOf(batch[..i + 1]) == NamesOf(batch[..i]) + {batch[i].blob.name};
        db := db.(storage := db.storage - {batch[i].blob.name});
        i := i + 1;
      }
      assert batch[..|batch|] == batch;
    }

    /** One turn of the loop, with nobody else writing: every fetched row is still stale, so all of
        them go, and then their objects. */
    method DeleteBatch(pass: Pass, batch: seq<Fetched>) returns (deleted: nat)
      requires DbInv(db) && IsFetch(db, pass, batch)
      modifies this
      ensures db == Collected(old(db), Ids(batch)) && deleted == |Ids(batch)| == |batch| && Ids(batch) <= StaleIds(old(db), pass)
    {
      IdsCount(batch);
      AllGone(db, pass, batch);
      var gone := Gone(db, pass, batch);
      db := WithoutRows(db, gone);
      deleted := |gone|;
      Sweep(if deleted == |batch| then batch else Missing(db, batch));
    }

    /** `_delete_file_blobs`, uninterrupted and with every storage delete succeeding. */
    method DeleteFileBlobs(pass: Pass) returns (total: nat, ghost gone: set<nat>)
      requires DbInv(db)
      modifies this
      ensures db == Collected(old(db), gone) && gone <= StaleIds(old(db), pass)
      ensures total == |gone| <= 10_999 && (total < MAX_DELETIONS ==> gone == StaleIds(old(db), pass))
    {
      total, gone := 0, {};
      assert Collected(db, {}) == db;
      ghost var was, stale := db, StaleIds(db, pass);
      while total < MAX_DELETIONS
        invariant db == Collected(was, gone) && gone <= stale && total == |gone| <= 10_999
        decreases |stale - gone|
      {
        CollectedKeeps(was, gone);
        CollectedStale(was, gone, pass);
        var batch := Select(pass);
        if batch == [] { return; }
        var deleted := DeleteBatch(pass, batch);
        OneBatchMore(was, gone, Ids(batch), pass);
        gone := gone + Ids(batch);
        total := total + deleted;
      }
    }
  }

  function NamesOf(batch: seq<Fetched>): set<nat> {
    set b | b in batch :: b.blob.name
  }

  lemma AllGone(db: Db, pass: Pass, batch: seq<Fetched>)
    requires IsFetch(db, pass, batch)
    ensures Gone(db, pass, batch) == Ids(batch) <= StaleIds(db, pass)
    ensures NamesOf(batch) == ObjectsOf(db, Ids(batch))
  {
    forall id | id in Ids(batch) ensures Stale(db, pass, id) {
      var b :| b in batch && b.id == id;
    }
    forall b | b in batch ensures b.blob.name in ObjectsOf(db, Ids(batch)) {
      assert b.id in Ids(batch);
    }
    forall n | n in ObjectsOf(db, Ids(batch)) ensures n in NamesOf(batch) {
      var id :| id in Ids(batch) && id in db.blobs && db.blobs[id].name == n;
      var b :| b in batch && b.id == id;
      assert b.blob.name == n;
    }
  }

  lemma OneBatchMore(db: Db, gone: set<nat>, more: set<nat>, pass: Pass)
    requires DbInv(db) && gone <= StaleIds(db, pass) && more <= StaleIds(Collected(db, gone), pass) && more != {}
    ensures Collected(Collected(db, gone), more) == Collected(db, gone + more)
    ensures gone + more <= StaleIds(db, pass) && |gone + more| == |gone| + |more|
    ensures |StaleIds(db, pass) - (gone + more)| < |StaleIds(db, pass) - gone|
  {
    CollectedStale(db, gone, pass);
    CollectMore(db, gone, more);
    Fewer(StaleIds(db, pass), gone, more);
  }

  lemma Fewer(all: set<nat>, gone: set<nat>, more: set<nat>)
    requires more <= all - gone && more != {}
    ensures |all - (gone + more)| < |all - gone| && |gone + more| == |gone| + |more|
  {
    assert all - gone == (all - (gone + more)) + more;
  }
}
