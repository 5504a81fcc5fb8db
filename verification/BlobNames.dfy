/** Which storage names are safe to store under: the exact condition, and what overwriting a name
    costs when every object is named by its checksum. */
module BlobNames {
  import opened Numbers
  import opened Sequences
  import opened BlobGc

  ghost function Steps(): (State, State) -> bool {
    (s: State, t: State) => Step(s, t)
  }

  /** A run from anywhere. */
  ghost predicate Path(ss: seq<State>) {
    Chain(ss, Steps())
  }

  /** Some continuation leaves a row without its bytes. */
  ghost predicate Loses(s: State) {
    exists ss: seq<State> :: Path(ss) && ss[0] == s && !Intact(ss[|ss| - 1].db)
  }

  // ----- safe names stay safe -----

  /** A name that nothing in storage has is safe. */
  lemma FreeNameIsSafe(s: State, k: nat, name: nat)
    requires Inv(s) && name !in s.db.storage
    ensures SafeName(s, k, name)
  {
  }

  lemma {:induction false} PathKeeps(ss: seq<State>, i: nat)
    requires Path(ss) && Inv(ss[0]) && i < |ss|
    ensures Inv(ss[i])
  {
    if i > 0 {
      PathKeeps(ss, i - 1);
      assert Steps()(ss[i - 1], ss[i]);
      StepKeeps(ss[i - 1], ss[i]);
    }
  }

  lemma InvNeverLoses(s: State)
    requires Inv(s)
    ensures !Loses(s)
  {
    if ss: seq<State> :| Path(ss) && ss[0] == s && !Intact(ss[|ss| - 1].db) {
      PathKeeps(ss, |ss| - 1);
      assert false;
    }
  }

  // ----- losing continuations -----

  lemma LosesNow(s: State)
    requires !Intact(s.db)
    ensures Loses(s)
  {
    assert Path([s]) && [s][0] == s;
  }

  lemma LosesLater(s: State, t: State)
    requires Step(s, t) && Loses(t)
    ensures Loses(s)
  {
    var ss: seq<State> :| Path(ss) && ss[0] == t && !Intact(ss[|ss| - 1].db);
    assert Steps()(s, t);
    ChainJoins([s, t], ss, Steps());
  }

  /** No File is as recent as the cutoff. */
  predicate AllBefore(files: map<nat, FileRow>, cutoff: int) {
    forall f :: f in files ==> files[f].created < cutoff
  }

  lemma {:induction false} SomeCutoff(files: map<nat, FileRow>, least: int) returns (cutoff: int)
    ensures AllBefore(files, cutoff) && least < cutoff
    decreases |files|
  {
    if f :| f in files {
      var rest := files - {f};
      assert |rest| < |files| by { assert files.Keys == rest.Keys + {f}; }
      var c := SomeCutoff(rest, least);
      cutoff := if files[f].created < c then c else files[f].created + 1;
      forall g | g in files ensures files[g].created < cutoff {
        assert g == f || (g in rest && rest[g] == files[g]);
      }
    } else {
      cutoff := least + 1;
    }
  }

  /** The collector, at the end of a retention pass over one row. */
  function Retired(s: State, id: nat, cutoff: int): State
    requires id in s.db.blobs
  {
    var gone := WithoutRows(s.db, {id});
    State(gone.(storage := gone.storage - {s.db.blobs[id].name}), Sweeping(Retention(cutoff), 0, 1, []), s.uploads)
  }

  lemma SingleBatch(db: Db, pass: Pass, id: nat)
    requires Stale(db, pass, id)
    ensures var batch := [Fetched(id, db.blobs[id])]; IsFetch(db, pass, batch) && Gone(db, pass, batch) == {id}
  {
    var batch := [Fetched(id, db.blobs[id])];
    assert batch[0].id in Ids(batch);
  }

  /** Once its Files are old enough a row can go, with its object. */
  lemma RetireLoses(s: State, id: nat, cutoff: int)
    requires id in s.db.blobs && s.db.blobs[id].created < cutoff && AllBefore(s.db.files, cutoff)
    requires Loses(Retired(s, id, cutoff))
    ensures Loses(s)
  {
    var pass, batch := Retention(cutoff), [Fetched(id, s.db.blobs[id])];
    var idle := s.(gc := Idle);
    var selecting := s.(gc := Selecting(pass, 0));
    var chosen := s.(gc := Chosen(pass, 0, batch));
    var rowsGone := s.(gc := RowsGone(pass, 0, batch, 1), db := WithoutRows(s.db, {id}));
    var sweeping := rowsGone.(gc := Sweeping(pass, 0, 1, batch));
    SingleBatch(s.db, pass, id);
    assert GcStep(sweeping, Retired(s, id, cutoff)) by { assert batch[1..] == []; }
    LosesLater(sweeping, Retired(s, id, cutoff));
    assert GcStep(rowsGone, sweeping);
    LosesLater(rowsGone, sweeping);
    assert GcStep(chosen, rowsGone);
    LosesLater(chosen, rowsGone);
    assert GcStep(selecting, chosen);
    LosesLater(selecting, chosen);
    assert GcStep(idle, selecting);
    LosesLater(idle, selecting);
    assert GcCrash(s, idle);
    LosesLater(s, idle);
  }

  /** An upload is about to insert a row for content its object does not hold. */
  predicate BadClaim(s: State, k: nat) {
    k < |s.uploads| && s.uploads[k].Stored? && !Holds(s.db, s.uploads[k].name, s.uploads[k].checksum)
  }

  predicate NoRowFor(db: Db, checksum: nat) {
    forall id :: id in db.blobs ==> db.blobs[id].checksum != checksum
  }

  function Inserted(s: State, k: nat, id: nat): State
    requires k < |s.uploads| && s.uploads[k].Stored?
  {
    s.(db := s.db.(blobs := s.db.blobs[id := Blob(s.uploads[k].checksum, s.uploads[k].name, 0)], used := s.db.used + {id}),
       uploads := s.uploads[k := Holding(id)])
  }

  lemma InsertStep(s: State, k: nat, id: nat)
    requires k < |s.uploads| && s.uploads[k].Stored? && NoRowFor(s.db, s.uploads[k].checksum) && id !in s.db.used
    ensures Step(s, Inserted(s, k, id))
  {
    assert InsertBlob(s, Inserted(s, k, id), k, id, 0);
  }

  lemma FirstBadClaimLoses(s: State, k: nat)
    requires BadClaim(s, k) && NoRowFor(s.db, s.uploads[k].checksum)
    ensures Loses(s)
  {
    var id := FreshId(s.db.used);
    InsertStep(s, k, id);
    var t := Inserted(s, k, id);
    assert id in t.db.blobs && !Holds(t.db, t.db.blobs[id].name, t.db.blobs[id].checksum);
    LosesNow(t);
    LosesLater(s, t);
  }

  lemma BadClaimLoses(s: State, k: nat)
    requires BadClaim(s, k) && UniqueChecksums(s.db)
    ensures Loses(s)
  {
    if NoRowFor(s.db, s.uploads[k].checksum) {
      FirstBadClaimLoses(s, k);
    } else {
      var id :| id in s.db.blobs && s.db.blobs[id].checksum == s.uploads[k].checksum;
      var cutoff := SomeCutoff(s.db.files, s.db.blobs[id].created);
      FirstBadClaimLoses(Retired(s, id, cutoff), k);
      RetireLoses(s, id, cutoff);
    }
  }

  /** A row has the name: its bytes are replaced, or they go with the row and take the upload's along. */
  lemma RowsNameLoses(s: State, t: State, k: nat, name: nat, id: nat)
    requires Inv(s) && StoreAny(s, t, k, name) && id in s.db.blobs && s.db.blobs[id].name == name
    ensures Loses(t)
  {
    if s.db.blobs[id].checksum != s.uploads[k].checksum {
      assert !Holds(t.db, name, t.db.blobs[id].checksum);
      LosesNow(t);
    } else {
      var cutoff := SomeCutoff(t.db.files, t.db.blobs[id].created);
      BadClaimLoses(Retired(t, id, cutoff), k);
      RetireLoses(t, id, cutoff);
    }
  }

  /** Two uploads hold the same object with the right content: one inserts its row, the row goes. */
  lemma SharedClaimLoses(t: State, j: nat, k: nat)
    requires j < |t.uploads| && k < |t.uploads| && j != k && t.uploads[j].Stored? && t.uploads[k] == t.uploads[j]
    requires NoRowFor(t.db, t.uploads[k].checksum) && UniqueChecksums(t.db)
    ensures Loses(t)
  {
    var id := FreshId(t.db.used);
    var u := Inserted(t, k, id);
    var cutoff := SomeCutoff(u.db.files, 0);
    BadClaimLoses(Retired(u, id, cutoff), j);
    RetireLoses(u, id, cutoff);
    InsertStep(t, k, id);
    LosesLater(t, u);
  }

  lemma OthersNameLoses(s: State, t: State, k: nat, name: nat, j: nat)
    requires Inv(s) && StoreAny(s, t, k, name)
    requires j < |s.uploads| && j != k && s.uploads[j].Stored? && s.uploads[j].name == name
    ensures Loses(t)
  {
    if s.uploads[j].checksum != s.uploads[k].checksum {
      BadClaimLoses(t, j);
    } else if NoRowFor(t.db, t.uploads[k].checksum) {
      SharedClaimLoses(t, j, k);
    } else {
      var id :| id in t.db.blobs && t.db.blobs[id].checksum == t.uploads[k].checksum;
      var cutoff := SomeCutoff(t.db.files, t.db.blobs[id].created);
      SharedClaimLoses(Retired(t, id, cutoff), j, k);
      RetireLoses(t, id, cutoff);
    }
  }

  /** The storage deletes reach the entry, those before it failing. */
  lemma {:induction false} SweepLoses(t: State, k: nat, i: nat)
    requires t.gc.Sweeping? && i < |t.gc.pending| && UniqueChecksums(t.db)
    requires k < |t.uploads| && t.uploads[k].Stored? && t.uploads[k].name == t.gc.pending[i].blob.name
    ensures Loses(t)
    decreases i
  {
    var next := t.(gc := t.gc.(pending := t.gc.pending[1..]));
    if i > 0 {
      SweepLoses(next, k, i - 1);
    } else {
      next := next.(db := t.db.(storage := t.db.storage - {t.gc.pending[0].blob.name}));
      BadClaimLoses(next, k);
    }
    assert GcStep(t, next);
    LosesLater(t, next);
  }

  lemma TrackedNameLoses(s: State, t: State, k: nat, name: nat)
    requires Inv(s) && StoreAny(s, t, k, name) && Tracked(s.gc, name)
    requires forall id :: id in s.db.blobs ==> s.db.blobs[id].name != name
    ensures Loses(t)
  {
    if s.gc.Sweeping? {
      var i :| 0 <= i < |s.gc.pending| && s.gc.pending[i].blob.name == name;
      SweepLoses(t, k, i);
    } else {
      RowlessNameIsSwept(s, name);
      var i :| 0 <= i < |s.gc.batch| && s.gc.batch[i].blob.name == name;
      assert t.db.blobs == s.db.blobs;
      SelectThenSweepLoses(t, k, i);
    }
  }

  lemma SelectThenSweepLoses(t: State, k: nat, i: nat)
    requires t.gc.RowsGone? && UniqueChecksums(t.db) && i < |t.gc.batch| && t.gc.batch[i].id !in t.db.blobs
    requires k < |t.uploads| && t.uploads[k].Stored? && t.uploads[k].name == t.gc.batch[i].blob.name
    ensures Loses(t)
  {
    var pending := if t.gc.count == |t.gc.batch| then t.gc.batch else Missing(t.db, t.gc.batch);
    MissingAreThose(t.db, t.gc.batch);
    assert t.gc.batch[i] in t.gc.batch;
    assert t.gc.batch[i] in pending;
    var j :| 0 <= j < |pending| && pending[j] == t.gc.batch[i];
    var u := t.(gc := Sweeping(t.gc.pass, t.gc.total, t.gc.count, pending));
    SweepLoses(u, k, j);
    assert GcStep(t, u);
    LosesLater(t, u);
  }

  /** A fetched entry whose name no row has is one whose row the delete removed. */
  lemma RowlessNameIsSwept(s: State, name: nat)
    requires Inv(s) && Tracked(s.gc, name) && !s.gc.Sweeping?
    requires forall id :: id in s.db.blobs ==> s.db.blobs[id].name != name
    ensures s.gc.RowsGone? && forall i :: 0 <= i < |s.gc.batch| && s.gc.batch[i].blob.name == name ==> s.gc.batch[i].id !in s.db.blobs
  {
    var i :| 0 <= i < |s.gc.batch| && s.gc.batch[i].blob.name == name;
    assert !InPlace(s.db, s.gc.batch[i]);
  }

  /** Storing under a name is safe exactly if no row, no other upload and no entry of the collector
      has it: otherwise some continuation, with every later name safe, leaves a row without its bytes. */
  lemma SafeExactly(s: State, t: State, k: nat, name: nat)
    requires Inv(s) && StoreAny(s, t, k, name)
    ensures (forall ss: seq<State> :: Path(ss) && ss[0] == t ==> Intact(ss[|ss| - 1].db)) <==> SafeName(s, k, name)
  {
    if SafeName(s, k, name) {
      StoreKeeps(s, t, k, name);
      InvNeverLoses(t);
    } else if id :| id in s.db.blobs && s.db.blobs[id].name == name {
      RowsNameLoses(s, t, k, name, id);
    } else if j :| 0 <= j < |s.uploads| && j != k && s.uploads[j].Stored? && s.uploads[j].name == name {
      OthersNameLoses(s, t, k, name, j);
    } else {
      TrackedNameLoses(s, t, k, name);
    }
  }

  // ----- naming objects by their checksum, and overwriting -----

  /** `putfile`'s name with storage that overwrites: the name is the checksum. */
  ghost predicate OverStep(s: State, t: State) {
    || GcStep(s, t)
    || (exists k, id, created :: InsertBlob(s, t, k, id, created))
    || (exists k :: 0 <= k < |s.uploads| && s.uploads[k].Start? && StoreAny(s, t, k, s.uploads[k].checksum))
  }

  ghost predicate OverRun(ss: seq<State>) {
    && ss != [] && Inv(ss[0]) && ss[0].gc == Idle
    && forall i :: 0 <= i < |ss| - 1 ==> OverStep(ss[i], ss[i + 1])
  }

  /** One orphaned row, its object named by its checksum. */
  function OneRow(id: nat, checksum: nat, created: int, used: set<nat>): Db {
    Db(map[id := Blob(checksum, checksum, created)], used, map[], map[checksum := checksum])
  }

  /** No row, and the object still there. */
  function RowDeleted(checksum: nat): Db {
    Db(map[], {0}, map[], map[checksum := checksum])
  }

  function UntilTheDelete(checksum: nat, created: int): seq<State> {
    var row, uploads := Fetched(0, Blob(checksum, checksum, created)), [Start(checksum)];
    [State(OneRow(0, checksum, created, {0}), Idle, uploads),
     State(OneRow(0, checksum, created, {0}), Selecting(Orphans(created + 1), 0), uploads),
     State(OneRow(0, checksum, created, {0}), Chosen(Orphans(created + 1), 0, [row]), uploads),
     State(RowDeleted(checksum), RowsGone(Orphans(created + 1), 0, [row], 1), uploads)]
  }

  function FromTheDelete(checksum: nat, created: int, later: int): seq<State> {
    var row, again := Fetched(0, Blob(checksum, checksum, created)), OneRow(1, checksum, later, {0, 1});
    [State(RowDeleted(checksum), RowsGone(Orphans(created + 1), 0, [row], 1), [Start(checksum)]),
     State(RowDeleted(checksum), RowsGone(Orphans(created + 1), 0, [row], 1), [Stored(checksum, checksum)]),
     State(again, RowsGone(Orphans(created + 1), 0, [row], 1), [Holding(1)]),
     State(again, Sweeping(Orphans(created + 1), 0, 1, [row]), [Holding(1)]),
     State(again.(storage := map[]), Sweeping(Orphans(created + 1), 0, 1, []), [Holding(1)])]
  }

  lemma UntilTheDeleteRuns(checksum: nat, created: int)
    ensures OverRun(UntilTheDelete(checksum, created))
  {
    var db, pass := OneRow(0, checksum, created, {0}), Orphans(created + 1);
    SingleBatch(db, pass, 0);
    assert WithoutRows(db, {0}) == RowDeleted(checksum);
  }

  lemma FromTheDeleteRuns(checksum: nat, created: int, later: int)
    ensures var ss := FromTheDelete(checksum, created, later); forall i :: 0 <= i < |ss| - 1 ==> OverStep(ss[i], ss[i + 1])
  {
    var ss := FromTheDelete(checksum, created, later);
    assert StoreAny(ss[0], ss[1], 0, checksum) by { assert ss[0].db.storage[checksum := checksum] == ss[0].db.storage; }
    assert InsertBlob(ss[1], ss[2], 0, 1, later) by { assert ss[1].db.used + {1} == {0, 1}; }
    assert GcStep(ss[3], ss[4]) by { assert ss[3].db.storage - {checksum} == map[]; }
  }

  /** From an idle collector and one expired row: its row goes, an upload of the same content stores
      its object and inserts its row, and the collector's storage delete takes that row's bytes. */
  lemma OverwritingRunLosesBytes(checksum: nat, created: int, later: int) returns (ss: seq<State>)
    ensures OverRun(ss) && ss[0].uploads == [Start(checksum)] && ss[0].db.blobs == map[0 := Blob(checksum, checksum, created)]
    ensures var last := ss[|ss| - 1].db; last.blobs == map[1 := Blob(checksum, checksum, later)] && checksum !in last.storage
  {
    var first, rest := UntilTheDelete(checksum, created), FromTheDelete(checksum, created, later);
    UntilTheDeleteRuns(checksum, created);
    FromTheDeleteRuns(checksum, created, later);
    ss := first + rest[1..];
    forall i | 0 <= i < |ss| - 1 ensures OverStep(ss[i], ss[i + 1]) {
      if i < 3 {
        assert ss[i] == first[i] && ss[i + 1] == first[i + 1];
      } else {
        assert ss[i] == rest[i - 3] && ss[i + 1] == rest[i - 2];
      }
    }
  }

  // ----- uploads can always be completed -----

  /** The upload has ended with a File whose row has this content, and its bytes. */
  predicate Uploaded(s: State, k: nat, checksum: nat, f: nat) {
    && k < |s.uploads| && s.uploads[k] == Finished && f in s.db.files && s.db.files[f].blob in s.db.blobs
    && s.db.blobs[s.db.files[f].blob].checksum == checksum && Holds(s.db, s.db.blobs[s.db.files[f].blob].name, checksum)
  }

  lemma PathThen(s: State, t: State, rest: seq<State>) returns (ss: seq<State>)
    requires Step(s, t) && Path(rest) && rest[0] == t
    ensures Path(ss) && ss[0] == s && ss[|ss| - 1] == rest[|rest| - 1]
  {
    assert Steps()(s, t);
    ChainJoins([s, t], rest, Steps());
    ss := Joined([s, t], rest);
  }

  lemma HolderFinishes(s: State, k: nat, checksum: nat, f: nat) returns (ss: seq<State>)
    requires Inv(s) && k < |s.uploads| && s.uploads[k].Holding? && f !in s.db.files
    requires s.uploads[k].id in s.db.blobs && s.db.blobs[s.uploads[k].id].checksum == checksum
    ensures Path(ss) && ss[0] == s && Uploaded(ss[|ss| - 1], k, checksum, f)
  {
    var id := s.uploads[k].id;
    var t := s.(db := s.db.(files := s.db.files[f := FileRow(id, 0)]), uploads := s.uploads[k := Finished]);
    assert InsertFile(s, t, k, f, 0);
    ss := PathThen(s, t, [t]);
  }

  /** The content has no row yet: it is stored under a free name and its row inserted. */
  lemma NewContentFinishes(s: State, k: nat, checksum: nat, f: nat) returns (ss: seq<State>)
    requires Inv(s) && k < |s.uploads| && s.uploads[k] == Start(checksum) && f !in s.db.files && NoRowFor(s.db, checksum)
    ensures Path(ss) && ss[0] == s && Uploaded(ss[|ss| - 1], k, checksum, f)
  {
    var name := FreshId(s.db.storage.Keys);
    FreeNameIsSafe(s, k, name);
    var stored := s.(db := s.db.(storage := s.db.storage[name := checksum]), uploads := s.uploads[k := Stored(checksum, name)]);
    assert Store(s, stored, k, name);
    StoreKeeps(s, stored, k, name);
    var id := FreshId(s.db.used);
    InsertStep(stored, k, id);
    StepKeeps(stored, Inserted(stored, k, id));
    var rest := HolderFinishes(Inserted(stored, k, id), k, checksum, f);
    rest := PathThen(stored, Inserted(stored, k, id), rest);
    ss := PathThen(s, stored, rest);
  }

  lemma KnownContentFinishes(s: State, k: nat, checksum: nat, f: nat) returns (ss: seq<State>)
    requires Inv(s) && k < |s.uploads| && s.uploads[k] == Start(checksum) && f !in s.db.files && !NoRowFor(s.db, checksum)
    ensures Path(ss) && ss[0] == s && Uploaded(ss[|ss| - 1], k, checksum, f)
  {
    var id :| id in s.db.blobs && s.db.blobs[id].checksum == checksum;
    var t := s.(uploads := s.uploads[k := Holding(id)]);
    assert Find(s, t, k);
    StepKeeps(s, t);
    var rest := HolderFinishes(t, k, checksum, f);
    ss := PathThen(s, t, rest);
  }

  /** Whatever an upload was doing, it can give up and a new one of any content can run to its end:
      a File whose row has the content and whose object holds it. */
  lemma UploadsComplete(s: State, k: nat, checksum: nat) returns (ss: seq<State>, f: nat)
    requires Inv(s) && k < |s.uploads|
    ensures Path(ss) && ss[0] == s && f !in s.db.files && Uploaded(ss[|ss| - 1], k, checksum, f)
  {
    f := FreshId(s.db.files.Keys);
    var t := s.(uploads := s.uploads[k := Start(checksum)]);
    assert Churn(s, t, k, checksum);
    StepKeeps(s, t);
    if NoRowFor(t.db, checksum) {
      ss := NewContentFinishes(t, k, checksum, f);
    } else {
      ss := KnownContentFinishes(t, k, checksum, f);
    }
    ss := PathThen(s, t, ss);
  }
}
