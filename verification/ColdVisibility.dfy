/** What readers can see while a partition is archived. Rows in a detached table are not lost, but no
    query finds them until cold storage exposes them. */
module ColdVisibility {
  import opened Names
  import opened Sequences
  import opened ColdListing
  import opened ColdOrder
  import opened ColdRemoval
  import opened Chunker
  import opened ColdArchive

  /** Every eligible organisation's rows are in the attached partition or exposed by cold storage. */
  ghost predicate AllSeen(c: Config, w: World) {
    forall org :: org in c.rows && org in c.eligible ==> w.attached || ArchivedOrg(c, StoreOf(w, org), c.rows[org])
  }

  /** The process is stopped after DETACH and before DROP. */
  predicate StoppedBeforeDrop(w: World, v: World) {
    w.phase == Dropping && Crash(w, v)
  }

  // ----- without such a stop -----

  predicate DetachedOnlyToDrop(w: World) {
    w.attached || !w.table || w.phase == Dropping
  }

  lemma {:induction false} RunKeepsSeen(c: Config, ws: seq<World>, i: nat)
    requires Run(c, ws) && ws[0].attached && i < |ws| && (c.backend || AllArchived(c, ws[0]))
    requires forall k :: 0 <= k < i ==> !StoppedBeforeDrop(ws[k], ws[k + 1])
    ensures Inv(c, ws[i]) && DetachedOnlyToDrop(ws[i])
  {
    if i > 0 {
      RunKeepsSeen(c, ws, i - 1);
      assert Step(c, ws[i - 1], ws[i]) && !StoppedBeforeDrop(ws[i - 1], ws[i]);
      StepKeeps(c, ws[i - 1], ws[i]);
      StaysDetachedOnlyToDrop(c, ws[i - 1], ws[i]);
    }
  }

  lemma StaysDetachedOnlyToDrop(c: Config, w: World, v: World)
    requires Inv(c, w) && DetachedOnlyToDrop(w) && Step(c, w, v) && !StoppedBeforeDrop(w, v)
    ensures DetachedOnlyToDrop(v)
  {
  }

  /** Unless the process is stopped between DETACH and DROP, readers see every row at every moment. */
  lemma SeenUnlessStopped(c: Config, ws: seq<World>, i: nat)
    requires Run(c, ws) && ws[0].attached && i < |ws| && (c.backend || AllArchived(c, ws[0]))
    requires forall k :: 0 <= k < i ==> !StoppedBeforeDrop(ws[k], ws[k + 1])
    ensures AllSeen(c, ws[i])
  {
    RunKeepsSeen(c, ws, i);
    assert ws[i].phase.Exporting? ==> ws[i].table;
  }

  // ----- when every run keeps the rows in sight -----

  ghost predicate AllFlat(c: Config, w: World) {
    forall org :: org in c.rows && org in c.eligible ==> FlatName(c) in StoreOf(w, org).files
  }

  /** Every eligible organisation is flat already, or small enough to go flat under any of the limits. */
  ghost predicate SmallOrFlat(c: Config, w: World) {
    forall org :: org in c.rows && org in c.eligible ==>
      FlatName(c) in StoreOf(w, org).files || forall m :: m in c.memory ==> Small(c, c.rows[org], m)
  }

  /** A flat file stays: only chunks are ever deleted. */
  lemma StillFlat(c: Config, w: World, v: World, org: int)
    requires Step(c, w, v) && FlatName(c) in StoreOf(w, org).files
    ensures FlatName(c) in StoreOf(v, org).files
  {
  }

  lemma AllStillFlat(c: Config, w: World, v: World)
    requires Step(c, w, v)
    ensures AllFlat(c, w) ==> AllFlat(c, v)
    ensures SmallOrFlat(c, w) ==> SmallOrFlat(c, v)
  {
    forall org | FlatName(c) in StoreOf(w, org).files ensures FlatName(c) in StoreOf(v, org).files { StillFlat(c, w, v, org); }
  }

  /** The organisations whose turn is over are flat. */
  ghost predicate FlatUpTo(c: Config, w: World, todo: seq<int>) {
    forall org :: org in c.rows && org in c.eligible && org !in todo ==> FlatName(c) in StoreOf(w, org).files
  }

  predicate HeadGoesFlat(p: OrgPhase) {
    match p
    case Fresh => true
    case Clearing(_, groups, open) => GoesFlat(groups, open)
    case Writing(_, groups, open) => GoesFlat(groups, open)
  }

  /** Before the partition is detached everything is flat. */
  ghost predicate FlatByDetach(c: Config, w: World) {
    && SmallOrFlat(c, w)
    && match w.phase
       case Idle => (w.attached && w.table) || AllFlat(c, w)
       case Exporting(todo, p) => (w.attached || AllFlat(c, w)) && FlatUpTo(c, w, todo) && HeadGoesFlat(p)
       case _ => AllFlat(c, w)
  }

  lemma UpToNext(c: Config, w: World, v: World)
    requires w.phase.Exporting? && w.phase.todo != [] && FlatUpTo(c, w, w.phase.todo) && Step(c, w, v)
    requires FlatName(c) in StoreOf(v, w.phase.todo[0]).files
    ensures FlatUpTo(c, v, w.phase.todo[1..])
  {
    forall org | org in c.rows && org in c.eligible && org !in w.phase.todo[1..] ensures FlatName(c) in StoreOf(v, org).files {
      assert w.phase.todo == [w.phase.todo[0]] + w.phase.todo[1..];
      if org != w.phase.todo[0] { StillFlat(c, w, v, org); }
    }
  }

  lemma UpToSame(c: Config, w: World, v: World, todo: seq<int>)
    requires FlatUpTo(c, w, todo) && Step(c, w, v)
    ensures FlatUpTo(c, v, todo)
  {
    forall org | org in c.rows && org in c.eligible && org !in todo ensures FlatName(c) in StoreOf(v, org).files { StillFlat(c, w, v, org); }
  }

  lemma LookKeepsFlat(c: Config, w: World, v: World)
    requires Inv(c, w) && FlatByDetach(c, w) && Look(c, w, v)
    ensures FlatByDetach(c, v)
  {
    AllStillFlat(c, w, v);
    var org := w.phase.todo[0];
    if FlatName(c) in StoreOf(w, org).files {
      StillFlat(c, w, v, org);
      UpToNext(c, w, v);
    } else {
      UpToSame(c, w, v, w.phase.todo);
      var p := v.phase.org;
      var memory, lines :| IsExport(c, c.rows[org], p.groups, p.open, memory, lines);
      FlatIffSmall(c, c.rows[org], p.groups, p.open, memory, lines);
    }
  }

  lemma WriteKeepsFlat(c: Config, w: World, v: World)
    requires Inv(c, w) && FlatByDetach(c, w) && Write(c, w, v)
    ensures FlatByDetach(c, v)
  {
    AllStillFlat(c, w, v);
    if w.phase.org.k >= |w.phase.org.groups| {
      StillFlat(c, w, v, w.phase.todo[0]);
      UpToNext(c, w, v);
    } else {
      UpToSame(c, w, v, w.phase.todo);
    }
  }

  lemma ClearKeepsFlat(c: Config, w: World, v: World)
    requires FlatByDetach(c, w) && Clear(c, w, v)
    ensures FlatByDetach(c, v)
  {
    AllStillFlat(c, w, v);
    UpToSame(c, w, v, w.phase.todo);
  }

  lemma BeginKeepsFlat(c: Config, w: World, v: World)
    requires FlatByDetach(c, w) && c.backend && Begin(c, w, v)
    ensures FlatByDetach(c, v)
  {
    AllStillFlat(c, w, v);
  }

  /** When nobody is left to export, everybody is flat. */
  lemma ExportedKeepsFlat(c: Config, w: World, v: World)
    requires FlatByDetach(c, w) && Exported(w, v)
    ensures FlatByDetach(c, v)
  {
    AllStillFlat(c, w, v);
    assert AllFlat(c, w);
  }

  lemma DdlKeepsFlat(c: Config, w: World, v: World)
    requires Inv(c, w) && FlatByDetach(c, w) && (Detach(w, v) || Drop(w, v) || Crash(w, v))
    ensures FlatByDetach(c, v)
  {
    AllStillFlat(c, w, v);
  }

  lemma StepKeepsFlat(c: Config, w: World, v: World)
    requires Inv(c, w) && FlatByDetach(c, w) && c.backend && Step(c, w, v)
    ensures FlatByDetach(c, v)
  {
    if Look(c, w, v) {
      LookKeepsFlat(c, w, v);
    } else if Write(c, w, v) {
      WriteKeepsFlat(c, w, v);
    } else if Clear(c, w, v) {
      ClearKeepsFlat(c, w, v);
    } else if Begin(c, w, v) {
      BeginKeepsFlat(c, w, v);
    } else if Exported(w, v) {
      ExportedKeepsFlat(c, w, v);
    } else {
      DdlKeepsFlat(c, w, v);
    }
  }

  lemma FlatSeen(c: Config, w: World)
    requires Inv(c, w) && AllFlat(c, w)
    ensures AllSeen(c, w)
  {
    forall org | org in c.rows && org in c.eligible ensures ArchivedOrg(c, StoreOf(w, org), c.rows[org]) {
      ArchivedByFlat(c, StoreOf(w, org), c.rows[org]);
    }
  }

  lemma {:induction false} FlatRun(c: Config, ws: seq<World>, i: nat)
    requires Run(c, ws) && i < |ws| && c.backend && ws[0].attached && SmallOrFlat(c, ws[0])
    ensures Inv(c, ws[i]) && FlatByDetach(c, ws[i])
  {
    RunKeeps(c, ws, i);
    if i > 0 {
      FlatRun(c, ws, i - 1);
      StepKeepsFlat(c, ws[i - 1], ws[i]);
    }
  }

  lemma FlatRunSeen(c: Config, ws: seq<World>, i: nat)
    requires Run(c, ws) && i < |ws| && c.backend && ws[0].attached && SmallOrFlat(c, ws[0])
    ensures AllSeen(c, ws[i])
  {
    FlatRun(c, ws, i);
    if !ws[i].attached { FlatSeen(c, ws[i]); }
  }

  lemma {:induction false} IdleStoreSeen(c: Config, ws: seq<World>, i: nat)
    requires Run(c, ws) && i < |ws| && !c.backend && AllArchived(c, ws[0])
    ensures ws[i].store == ws[0].store && AllSeen(c, ws[i])
  {
    RunKeeps(c, ws, i);
    if i > 0 {
      IdleStoreSeen(c, ws, i - 1);
      RunKeeps(c, ws, i - 1);
    }
    assert forall org :: StoreOf(ws[i], org) == StoreOf(ws[0], org);
  }

  // ----- a run that hides rows -----

  /** The organisation has no flat file and is not about to get one. */
  predicate StaysChunked(c: Config, w: World, org: int) {
    && FlatName(c) !in StoreOf(w, org).files
    && (w.phase.Exporting? && w.phase.todo != [] && w.phase.todo[0] == org ==>
          match w.phase.org
          case Fresh => true
          case Clearing(_, groups, open) => !GoesFlat(groups, open)
          case Writing(_, groups, open) => !GoesFlat(groups, open))
  }

  /** Too large for one file under this limit. */
  predicate Large(c: Config, org: int, memory: Option<int>) {
    memory in c.memory && org in c.rows && !Small(c, c.rows[org], memory)
  }

  lemma LookUnder(c: Config, w: World, org: int, memory: Option<int>) returns (v: World)
    requires Inv(c, w) && w.phase.Exporting? && w.phase.todo != [] && w.phase.org == Fresh && memory in c.memory
    requires FlatName(c) !in StoreOf(w, org).files
    ensures Look(c, w, v) && v == w.(phase := v.phase) && FlatName(c) !in StoreOf(v, org).files
    ensures if w.phase.todo[0] == org then v.phase == w.phase.(org := v.phase.org) && v.phase.org.Clearing?
            else v.phase.Exporting? && (v.phase.todo == w.phase.todo || v.phase == Exporting(w.phase.todo[1..], Fresh))
    ensures Large(c, org, memory) ==> StaysChunked(c, v, org)
  {
    v := LookIsPossible(c, w, memory);
    assert forall p :: StoreOf(v, p) == StoreOf(w, p);
    if w.phase.todo[0] == org {
      FlatIffSmall(c, c.rows[org], v.phase.org.groups, v.phase.org.open, memory, LinesOf(c, c.rows[org]));
    }
  }

  lemma ClearOn(c: Config, w: World, org: int) returns (v: World)
    requires Inv(c, w) && w.phase.Exporting? && w.phase.todo != [] && w.phase.org.Clearing? && FlatName(c) !in StoreOf(w, org).files
    ensures Clear(c, w, v) && v.table == w.table && v.attached == w.attached && FlatName(c) !in StoreOf(v, org).files
    ensures v.phase.Exporting? && v.phase.todo == w.phase.todo && !v.phase.org.Fresh?
    ensures StaysChunked(c, w, org) ==> StaysChunked(c, v, org)
  {
    var o, p := w.phase.todo[0], w.phase.org;
    if p.names == [] {
      v := w.(phase := w.phase.(org := Writing(0, p.groups, p.open)));
      assert forall q :: StoreOf(v, q) == StoreOf(w, q);
    } else {
      v := SetStore(w, o, DeleteChunk(StoreOf(w, o), c.date, p.names[0])).(phase := w.phase.(org := p.(names := p.names[1..])));
      assert forall q :: StoreOf(v, q).files == StoreOf(w, q).files;
    }
  }

  lemma WriteOn(c: Config, w: World, org: int) returns (v: World)
    requires Inv(c, w) && w.phase.Exporting? && w.phase.todo != [] && w.phase.org.Writing? && StaysChunked(c, w, org)
    ensures Write(c, w, v) && StaysChunked(c, v, org) && v.table == w.table && v.attached == w.attached
    ensures v.phase.Exporting? && (v.phase.todo == w.phase.todo || v.phase == Exporting(w.phase.todo[1..], Fresh))
  {
    var o, p := w.phase.todo[0], w.phase.org;
    if p.k >= |p.groups| {
      v := w.(phase := Exporting(w.phase.todo[1..], Fresh));
      assert forall q :: StoreOf(v, q) == StoreOf(w, q);
    } else {
      v := SetStore(w, o, PutFile(StoreOf(w, o), GroupPath(c, p.k, p.groups, p.open), p.groups[p.k])).(phase := w.phase.(org := p.(k := p.k + 1)));
      assert forall q :: q != o ==> StoreOf(v, q) == StoreOf(w, q);
      assert o == org ==> GroupPath(c, p.k, p.groups, p.open).Chunk?;
    }
  }

  lemma BeginWith(c: Config, w: World, todo: seq<int>) returns (v: World)
    requires w.phase == Idle && c.backend && w.table && OrgsInOrder(todo, c.rows.Keys * c.eligible)
    ensures Begin(c, w, v) && v == w.(phase := Exporting(todo, Fresh))
    ensures forall q :: StoreOf(v, q) == StoreOf(w, q)
  {
    v := w.(phase := Exporting(todo, Fresh));
  }

  lemma WorkChunked(c: Config, w: World, org: int, memory: Option<int>) returns (v: World)
    requires Inv(c, w) && Large(c, org, memory) && c.backend && w.table && StaysChunked(c, w, org) && w.phase != Dropping && w.phase != Done
    ensures Work(c, w, v) && v.table && StaysChunked(c, v, org) && (v.phase == Dropping ==> !v.attached)
  {
    if w.phase == Idle {
      var todo := OrderOrgs(c.rows.Keys * c.eligible);
      v := BeginWith(c, w, todo);
    } else if w.phase == Detaching {
      v := w.(attached := false, phase := Dropping);
      assert StoreOf(v, org) == StoreOf(w, org);
    } else if w.phase.todo == [] {
      v := w.(phase := Detaching);
      assert StoreOf(v, org) == StoreOf(w, org);
    } else if w.phase.org == Fresh {
      v := LookUnder(c, w, org, memory);
    } else if w.phase.org.Clearing? {
      v := ClearOn(c, w, org);
    } else {
      v := WriteOn(c, w, org);
    }
  }

  ghost function StepIn(c: Config): (World, World) -> bool {
    (w: World, v: World) => Step(c, w, v)
  }

  ghost predicate Steps(c: Config, ws: seq<World>) {
    Chain(ws, StepIn(c))
  }

  lemma StepThen(c: Config, w: World, rest: seq<World>)
    requires Steps(c, rest) && Step(c, w, rest[0])
    ensures Steps(c, [w] + rest) && ([w] + rest)[|rest|] == rest[|rest| - 1]
  {
    ChainJoins([w, rest[0]], rest, StepIn(c));
    assert Joined([w, rest[0]], rest) == [w] + rest;
  }

  /** A run up to the moment between DETACH and DROP that leaves the organisation in chunks. */
  lemma ReachDropping(c: Config, w: World, org: int, memory: Option<int>) returns (ws: seq<World>)
    requires Inv(c, w) && Large(c, org, memory) && c.backend && w.table && StaysChunked(c, w, org) && w.phase != Done && (w.phase == Dropping ==> !w.attached)
    ensures Steps(c, ws) && ws[0] == w
    ensures var d := ws[|ws| - 1]; d.phase == Dropping && d.table && !d.attached && FlatName(c) !in StoreOf(d, org).files && Inv(c, d)
    decreases PhaseRank(w), OrgsLeft(w), OrgRank(w), StepsLeft(w)
  {
    if w.phase == Dropping {
      ws := [w];
    } else {
      var v := WorkChunked(c, w, org, memory);
      StepKeeps(c, w, v);
      WorkGetsNearer(c, w, v);
      var rest := ReachDropping(c, v, org, memory);
      StepThen(c, w, rest);
      ws := [w] + rest;
    }
  }

  /** The rerun of a detached partition is about to clear this organisation's chunks. */
  ghost predicate AboutToClear(c: Config, w: World, org: int) {
    && Inv(c, w) && FlatName(c) !in StoreOf(w, org).files && !w.attached
    && w.phase.Exporting? && w.phase.todo != [] && w.phase.todo[0] == org && w.phase.org.Clearing?
  }

  lemma ClearedHides(c: Config, w: World, org: int)
    requires AboutToClear(c, w, org) && w.phase.org.names == []
    ensures !AllSeen(c, w)
  {
    assert ChunkFiles(StoreOf(w, org), c.date) == map[];
    NothingShown(c, StoreOf(w, org));
    assert org in c.rows && c.rows[org] != [] && |multiset(c.rows[org])| > 0;
  }

  lemma ClearOne(c: Config, w: World, org: int) returns (v: World)
    requires AboutToClear(c, w, org) && w.phase.org.names != []
    ensures Step(c, w, v) && AboutToClear(c, v, org) && |v.phase.org.names| < |w.phase.org.names|
  {
    v := ClearOn(c, w, org);
    StepKeeps(c, w, v);
  }

  /** Clearing an organisation's chunks one after another leaves it nothing to show. */
  lemma ClearAll(c: Config, w: World, org: int) returns (ws: seq<World>)
    requires AboutToClear(c, w, org)
    ensures Steps(c, ws) && ws[0] == w && !AllSeen(c, ws[|ws| - 1])
    decreases |w.phase.org.names|
  {
    if w.phase.org.names == [] {
      ws := [w];
      ClearedHides(c, w, org);
    } else {
      var v := ClearOne(c, w, org);
      var rest := ClearAll(c, v, org);
      StepThen(c, w, rest);
      ws := [w] + rest;
    }
  }

  lemma NothingShown(c: Config, t: Tier)
    requires FlatName(c) !in t.files && ChunkFiles(t, c.date) == map[]
    ensures ColdArchive.DateRows(c, t) == []
  {
    DateRowsAre(c, t);
    SortedAscends({});
    assert Sorted({}) == [];
  }

  /** The rerun of a detached partition has this organisation's export still before it. */
  ghost predicate StillToCome(c: Config, w: World, org: int) {
    && Inv(c, w) && FlatName(c) !in StoreOf(w, org).files && c.backend && w.table && !w.attached
    && w.phase.Exporting? && org in w.phase.todo && (w.phase.todo[0] == org ==> !w.phase.org.Writing?)
  }

  lemma Restart(c: Config, idle: World, org: int) returns (b: World)
    requires Inv(c, idle) && c.backend && idle.phase == Idle && idle.table && !idle.attached && FlatName(c) !in StoreOf(idle, org).files
    requires org in c.rows && org in c.eligible
    ensures Step(c, idle, b) && StillToCome(c, b, org)
  {
    var todo := OrderOrgs(c.rows.Keys * c.eligible);
    b := BeginWith(c, idle, todo);
    StepKeeps(c, idle, b);
    assert StoreOf(b, org) == StoreOf(idle, org);
  }

  lemma ComeNearer(c: Config, w: World, org: int) returns (v: World)
    requires StillToCome(c, w, org) && !AboutToClear(c, w, org)
    ensures Step(c, w, v) && StillToCome(c, v, org) && Nearer(v, w)
  {
    if w.phase.org == Fresh {
      var memory :| memory in c.memory;
      v := LookUnder(c, w, org, memory);
    } else if w.phase.org.Clearing? {
      v := ClearOn(c, w, org);
    } else {
      v := WriteOn(c, w, org);
    }
    assert w.phase.todo == [w.phase.todo[0]] + w.phase.todo[1..];
    assert Work(c, w, v);
    StepKeeps(c, w, v);
    WorkGetsNearer(c, w, v);
  }

  /** One organisation after another, until it is this one's turn. */
  lemma ReachClearing(c: Config, w: World, org: int) returns (ws: seq<World>)
    requires StillToCome(c, w, org)
    ensures Steps(c, ws) && ws[0] == w && AboutToClear(c, ws[|ws| - 1], org)
    decreases PhaseRank(w), OrgsLeft(w), OrgRank(w), StepsLeft(w)
  {
    if AboutToClear(c, w, org) {
      ws := [w];
    } else {
      var v := ComeNearer(c, w, org);
      var rest := ReachClearing(c, v, org);
      StepThen(c, w, rest);
      ws := [w] + rest;
    }
  }

  /** After the stop, the rerun clears the organisation's chunks when its turn comes. */
  lemma RerunHides(c: Config, d: World, org: int) returns (ws: seq<World>)
    requires Inv(c, d) && c.backend && d.phase == Dropping && d.table && !d.attached && FlatName(c) !in StoreOf(d, org).files
    requires org in c.rows && org in c.eligible
    ensures Steps(c, ws) && ws[0] == d && !AllSeen(c, ws[|ws| - 1])
  {
    var idle := d.(phase := Idle);
    assert Crash(d, idle) && StoreOf(idle, org) == StoreOf(d, org);
    StepKeeps(c, d, idle);
    var b := Restart(c, idle, org);
    var first := ReachClearing(c, b, org);
    var second := ClearAll(c, first[|first| - 1], org);
    ChainJoins(first, second, StepIn(c));
    ws := Joined(first, second);
    StepThen(c, idle, ws);
    ws := [idle] + ws;
    StepThen(c, d, ws);
    ws := [d] + ws;
  }

  lemma HidingRun(c: Config, w: World, org: int, memory: Option<int>) returns (ws: seq<World>)
    requires Init(c, w) && c.backend && Large(c, org, memory) && org in c.eligible && FlatName(c) !in StoreOf(w, org).files
    ensures Run(c, ws) && ws[0] == w && !AllSeen(c, ws[|ws| - 1])
  {
    var first := ReachDropping(c, w, org, memory);
    var second := RerunHides(c, first[|first| - 1], org);
    ChainJoins(first, second, StepIn(c));
    ws := Joined(first, second);
  }

  /** The exact condition: from an attached partition every run keeps every row in sight, at every
      moment, if and only if every eligible organisation is flat already or small enough for one
      flat file under any of the limits or, without a backend, is archived already. Otherwise a stop
      between DETACH and DROP lets the rerun clear chunks that are the only rows readers have left. */
  lemma SeenExactly(c: Config, w: World)
    requires Init(c, w) && w.attached
    ensures (forall ws, i :: Run(c, ws) && ws[0] == w && 0 <= i < |ws| ==> AllSeen(c, ws[i]))
            <==> if c.backend then SmallOrFlat(c, w) else AllArchived(c, w)
  {
    if c.backend && SmallOrFlat(c, w) {
      forall ws, i | Run(c, ws) && ws[0] == w && 0 <= i < |ws| ensures AllSeen(c, ws[i]) { FlatRunSeen(c, ws, i); }
    } else if c.backend {
      var org :| org in c.rows && org in c.eligible && FlatName(c) !in StoreOf(w, org).files && !(forall m :: m in c.memory ==> Small(c, c.rows[org], m));
      var memory :| memory in c.memory && !Small(c, c.rows[org], memory);
      var ws := HidingRun(c, w, org, memory);
      assert 0 <= |ws| - 1 < |ws|;
    } else if AllArchived(c, w) {
      forall ws, i | Run(c, ws) && ws[0] == w && 0 <= i < |ws| ensures AllSeen(c, ws[i]) { IdleStoreSeen(c, ws, i); }
    } else {
      NoBackendHides(c, w);
    }
  }

  lemma NoBackendHides(c: Config, w: World)
    requires Init(c, w) && !c.backend && !AllArchived(c, w)
    ensures Run(c, UnarchivedRun(w)) && UnarchivedRun(w)[0] == w && !AllSeen(c, UnarchivedRun(w)[3])
  {
    NoBackendDrops(c, w);
  }
}
