/** Workers racing to create issues. Tables are maps, one SQL statement (or one `atomic()` block)
    is one step, and any number of workers with overlapping batches interleave freely. */
module IngestRace {
  import opened Names
  import opened Numbers
  import opened Sequences

  datatype Key = Key(project: nat, hash: nat)

  /** One processing event: what was received, and what the worker has found out about it. */
  datatype Processing = Processing(key: Key, received: int, release: Option<nat>, issue: Option<nat>, made: bool)

  /** An entry of the in-memory update dictionary. */
  datatype Update = Update(added: nat, lastSeen: int, release: Option<nat>)

  datatype Row = Row(count: nat, lastSeen: int, release: Option<nat>)

  datatype Issue = Issue(project: nat, short: nat)

  /** The unique constraint on (project, value) is the map `hashes`. */
  datatype Tables = Tables(counter: map<nat, nat>, issues: map<nat, Issue>, hashes: map<Key, nat>, index: map<nat, Row>)

  // ----- folding a batch into per-issue updates -----

  function Later(u: Update, e: Processing): Update {
    if u.lastSeen < e.received then Update(u.added + 1, e.received, if e.release.Some? then e.release else u.release)
    else Update(u.added + 1, u.lastSeen, if u.release.None? then e.release else u.release)
  }

  function Bump(m: map<nat, Update>, e: Processing): map<nat, Update> {
    if e.made || e.issue.None? then m
    else if e.issue.value in m then m[e.issue.value := Later(m[e.issue.value], e)]
    else m[e.issue.value := Update(1, e.received, e.release)]
  }

  function Aggregate(es: seq<Processing>): map<nat, Update> {
    if es == [] then map[] else Bump(Aggregate(es[..|es| - 1]), es[|es| - 1])
  }

  /** The loop of update_issues over the batch's event objects. */
  method CollectUpdates(events: array<Processing>) returns (updates: map<nat, Update>)
    ensures updates == Aggregate(events[..])
  {
    updates := map[];
    var i := 0;
    while i < events.Length
      invariant 0 <= i <= events.Length
      invariant updates == Aggregate(events[..i])
    {
      var e := events[i];
      assert events[..i + 1][..i] == events[..i];
      if !e.made && e.issue.Some? {
        var id := e.issue.value;
        if id in updates {
          var u := updates[id];
          u := u.(added := u.added + 1);
          if u.lastSeen < e.received {
            u := u.(lastSeen := e.received);
            if e.release.Some? { u := u.(release := e.release); }
          } else if u.release.None? && e.release.Some? {
            u := u.(release := e.release);
          }
          updates := updates[id := u];
        } else {
          updates := updates[id := Update(1, e.received, e.release)];
        }
      }
      i := i + 1;
    }
    assert events[..events.Length] == events[..];
  }

  // ----- what the updates mean, by counting -----

  /** Which events to count: all of an issue's, or those received at or after a time, or those
      that name a release. */
  datatype Which = All | Since(time: int) | Releasing

  predicate Fits(e: Processing, w: Which) {
    match w
    case All => true
    case Since(t) => e.received >= t
    case Releasing => e.release.Some?
  }

  /** How many events of the batch are credited to the issue: the creating event at once, the
      others when the batch is saved. */
  function Credited(es: seq<Processing>, saved: bool, id: nat, w: Which): nat {
    if es == [] then 0
    else
      var e := es[|es| - 1];
      Credited(es[..|es| - 1], saved, id, w) + if e.issue == Some(id) && (e.made || saved) && Fits(e, w) then 1 else 0
  }

  /** How many of the batch's events, by key, belong to the issue. */
  function Hits(es: seq<Processing>, hashes: map<Key, nat>, id: nat, w: Which): nat {
    if es == [] then 0
    else
      var e := es[|es| - 1];
      Hits(es[..|es| - 1], hashes, id, w) + if e.key in hashes && hashes[e.key] == id && Fits(e, w) then 1 else 0
  }

  /** An issue is in the update set exactly if the batch holds an event for it that did not
      create it; its added count is their number, its last_seen their latest time, and it names a
      release exactly if one of them does. */
  lemma {:induction false} AggregateCounts(es: seq<Processing>, id: nat, time: int)
    ensures var pending := Credited(es, true, id, All) - Credited(es, false, id, All);
            && pending >= 0 && (id in Aggregate(es) <==> pending > 0)
            && (id in Aggregate(es) ==> Aggregate(es)[id].added == pending)
    ensures id in Aggregate(es) ==>
              (Aggregate(es)[id].lastSeen >= time <==>
               Credited(es, true, id, Since(time)) > Credited(es, false, id, Since(time)))
    ensures id in Aggregate(es) ==>
              (Aggregate(es)[id].release.Some? <==>
               Credited(es, true, id, Releasing) > Credited(es, false, id, Releasing))
    ensures Credited(es, true, id, Since(time)) >= Credited(es, false, id, Since(time))
    ensures Credited(es, true, id, Releasing) >= Credited(es, false, id, Releasing)
    ensures id !in Aggregate(es) ==> Credited(es, true, id, Since(time)) == Credited(es, false, id, Since(time))
    ensures id !in Aggregate(es) ==> Credited(es, true, id, Releasing) == Credited(es, false, id, Releasing)
  {
    if es != [] {
      AggregateCounts(es[..|es| - 1], id, time);
    }
  }

  // ----- check_set_issue_id -----

  function Inferred(e: Processing, key: Key, id: nat): Processing {
    if e.issue.None? && e.key == key then e.(issue := Some(id)) else e
  }

  function Infer(es: seq<Processing>, key: Key, id: nat): (r: seq<Processing>) {
    seq(|es|, i requires 0 <= i < |es| => Inferred(es[i], key, id))
  }

  /** Every event of the batch with that key and no issue gets this one; nothing else changes. */
  lemma InferredAt(es: seq<Processing>, key: Key, id: nat, i: nat)
    requires i < |es|
    ensures Infer(es, key, id)[i] ==
            Processing(es[i].key, es[i].received, es[i].release, if es[i].issue == None && es[i].key == key then Some(id) else es[i].issue, es[i].made)
  {
  }

  method CheckSetIssueId(events: array<Processing>, key: Key, id: nat)
    modifies events
    ensures events[..] == Infer(old(events[..]), key, id)
  {
    var i := 0;
    while i < events.Length
      invariant 0 <= i <= events.Length
      invariant forall k :: 0 <= k < i ==> events[k] == Inferred(old(events[..])[k], key, id)
      invariant forall k :: i <= k < events.Length ==> events[k] == old(events[..])[k]
    {
      if events[i].issue.None? && events[i].key == key {
        events[i] := events[i].(issue := Some(id));
      }
      i := i + 1;
    }
  }

  // ----- one worker's steps -----

  /** `At(i)` is the main loop before event i; `Reserved` has consumed a project counter value;
      `Lost` has caught IntegrityError; `Saving` is the statement of update_issues, which found no
      row for the `missing` issues; `Saved` has run it, and for the `dropped` ones another worker's
      row had come first. */
  datatype Phase = Fetching | At(i: nat) | Reserved(i: nat, short: nat) | Lost(i: nat)
                 | Saving(missing: set<nat>) | Saved(missing: set<nat>, dropped: set<nat>)

  datatype Worker = Worker(events: seq<Processing>, known: map<Key, nat>, at: Phase)

  predicate Submap(a: map<Key, nat>, b: map<Key, nat>) {
    forall k :: k in a ==> k in b && a[k] == b[k]
  }

  /** The lookup may read a stale replica, so it returns any part of the hash table; it joins the
      index, so only hashes whose issue has its row. */
  predicate Fetch(t: Tables, w: Worker, t2: Tables, w2: Worker) {
    && w.at == Fetching && t2 == t && Submap(w2.known, t.hashes) && (forall k :: k in w2.known ==> w2.known[k] in t.index)
    && w2 == w.(known := w2.known, at := At(0))
  }

  function SetIssue(es: seq<Processing>, i: nat, id: nat): seq<Processing>
    requires i < |es|
  {
    es[i := es[i].(issue := Some(id))]
  }

  predicate Known(t: Tables, w: Worker, t2: Tables, w2: Worker) {
    && w.at.At? && w.at.i < |w.events| && w.events[w.at.i].key in w.known && t2 == t
    && w2 == w.(events := SetIssue(w.events, w.at.i, w.known[w.events[w.at.i].key]), at := At(w.at.i + 1))
  }

  /** The event's issue was inferred from an earlier event of the batch. */
  predicate Skip(t: Tables, w: Worker, t2: Tables, w2: Worker) {
    && w.at.At? && w.at.i < |w.events| && w.events[w.at.i].key !in w.known && w.events[w.at.i].issue.Some? && t2 == t
    && w2 == w.(at := At(w.at.i + 1))
  }

  function NextShort(t: Tables, project: nat): nat {
    if project in t.counter then t.counter[project] + 1 else 1
  }

  /** The counter upsert commits on its own, so its value is consumed whatever follows. */
  predicate Reserve(t: Tables, w: Worker, t2: Tables, w2: Worker) {
    && w.at.At? && w.at.i < |w.events| && w.events[w.at.i].key !in w.known && w.events[w.at.i].issue.None?
    && var project := w.events[w.at.i].key.project;
       && t2 == t.(counter := t.counter[project := NextShort(t, project)])
       && w2 == w.(at := Reserved(w.at.i, NextShort(t, project)))
  }

  function Inserted(t: Tables, e: Processing, short: nat, id: nat): Tables {
    t.(issues := t.issues[id := Issue(e.key.project, short)], hashes := t.hashes[e.key := id],
       index := t.index[id := Row(1, e.received, e.release)])
  }

  function Made(es: seq<Processing>, i: nat, id: nat): seq<Processing>
    requires i < |es|
  {
    var inferred := Infer(es, es[i].key, id);
    inferred[i := inferred[i].(issue := Some(id), made := true)]
  }

  /** The atomic block: Issue, IssueHash and IssueIndex rows together, under a fresh id. */
  predicate Insert(t: Tables, w: Worker, t2: Tables, w2: Worker, id: nat) {
    && w.at.Reserved? && w.at.i < |w.events| && id !in t.issues && id !in t.index
    && var e := w.events[w.at.i];
       && e.key !in t.hashes && t2 == Inserted(t, e, w.at.short, id)
       && w2 == w.(events := Made(w.events, w.at.i, id), at := At(w.at.i + 1))
  }

  /** The unique constraint rolls the whole block back. */
  predicate Lose(t: Tables, w: Worker, t2: Tables, w2: Worker) {
    && w.at.Reserved? && w.at.i < |w.events| && w.events[w.at.i].key in t.hashes && t2 == t && w2 == w.(at := Lost(w.at.i))
  }

  predicate ReadBack(t: Tables, w: Worker, t2: Tables, w2: Worker) {
    && w.at.Lost? && w.at.i < |w.events| && w.events[w.at.i].key in t.hashes && t2 == t
    && w2 == w.(events := SetIssue(w.events, w.at.i, t.hashes[w.events[w.at.i].key]), at := At(w.at.i + 1))
  }

  function Merged(r: Row, u: Update): Row {
    Row(r.count + u.added, if u.lastSeen > r.lastSeen then u.lastSeen else r.lastSeen,
        if u.release.Some? then u.release else r.release)
  }

  /** The writes of update_issues: update the rows that were there when the statement began, insert
      the missing ones, and do nothing where a row has come in between. */
  function Applied(index: map<nat, Row>, us: map<nat, Update>, missing: set<nat>): map<nat, Row> {
    map id | id in index.Keys + us.Keys ::
      if id !in us then index[id]
      else if id !in index then Row(us[id].added, us[id].lastSeen, us[id].release)
      else if id in missing then index[id]
      else Merged(index[id], us[id])
  }

  /** update_issues begins: its statement sees the rows committed so far. */
  predicate Look(t: Tables, w: Worker, t2: Tables, w2: Worker) {
    w.at == At(|w.events|) && t2 == t && w2 == w.(at := Saving(Aggregate(w.events).Keys - t.index.Keys))
  }

  predicate Save(t: Tables, w: Worker, t2: Tables, w2: Worker) {
    && w.at.Saving? && t2 == t.(index := Applied(t.index, Aggregate(w.events), w.at.missing))
    && w2 == w.(at := Saved(w.at.missing, w.at.missing * t.index.Keys))
  }

  ghost predicate WorkerStep(t: Tables, w: Worker, t2: Tables, w2: Worker) {
    || Fetch(t, w, t2, w2) || Known(t, w, t2, w2) || Skip(t, w, t2, w2) || Reserve(t, w, t2, w2)
    || (exists id :: Insert(t, w, t2, w2, id))
    || Lose(t, w, t2, w2) || ReadBack(t, w, t2, w2) || Look(t, w, t2, w2) || Save(t, w, t2, w2)
  }

  // ----- what holds of one worker -----

  predicate Settled(es: seq<Processing>, n: nat, hashes: map<Key, nat>) {
    && n <= |es|
    && (forall i :: 0 <= i < n ==> es[i].issue.Some?)
    && (forall i :: 0 <= i < |es| && es[i].issue.Some? ==> es[i].key in hashes && hashes[es[i].key] == es[i].issue.value)
    && (forall i :: 0 <= i < |es| && es[i].made ==> es[i].issue.Some?)
  }

  predicate WorkerInv(w: Worker, hashes: map<Key, nat>) {
    && Submap(w.known, hashes)
    && match w.at
       case Fetching => Settled(w.events, 0, hashes)
       case At(i) => Settled(w.events, i, hashes)
       case Reserved(i, _) => i < |w.events| && Settled(w.events, i, hashes) && w.events[i].issue.None?
       case Lost(i) => i < |w.events| && Settled(w.events, i, hashes) && w.events[i].key in hashes
       case Saving(_) => Settled(w.events, |w.events|, hashes)
       case Saved(_, _) => Settled(w.events, |w.events|, hashes)
  }

  /** A hash has its issue; the issue may still be without its index row. */
  predicate TablesInv(t: Tables) {
    forall k :: k in t.hashes ==> t.hashes[k] in t.issues
  }

  /** Another worker's step only adds hashes. */
  lemma WorkerInvStable(w: Worker, hashes: map<Key, nat>, more: map<Key, nat>)
    requires WorkerInv(w, hashes) && Submap(hashes, more)
    ensures WorkerInv(w, more)
  {
  }

  lemma MadeSettles(es: seq<Processing>, i: nat, id: nat, hashes: map<Key, nat>)
    requires i < |es| && Settled(es, i, hashes) && es[i].key !in hashes
    ensures Settled(Made(es, i, id), i + 1, hashes[es[i].key := id])
  {
  }

  lemma InsertKeeps(t: Tables, w: Worker, t2: Tables, w2: Worker, id: nat)
    requires TablesInv(t) && WorkerInv(w, t.hashes) && Insert(t, w, t2, w2, id)
    ensures TablesInv(t2) && WorkerInv(w2, t2.hashes) && Submap(t.hashes, t2.hashes)
  {
    MadeSettles(w.events, w.at.i, id, t.hashes);
  }

  lemma WorkerKeeps(t: Tables, w: Worker, t2: Tables, w2: Worker)
    requires TablesInv(t) && WorkerInv(w, t.hashes) && WorkerStep(t, w, t2, w2)
    ensures TablesInv(t2) && WorkerInv(w2, t2.hashes) && Submap(t.hashes, t2.hashes)
  {
    if id :| Insert(t, w, t2, w2, id) {
      InsertKeeps(t, w, t2, w2, id);
    }
  }

  // ----- what one worker's step credits -----

  predicate Counts(e: Processing, saved: bool, id: nat, w: Which) {
    e.issue == Some(id) && (e.made || saved) && Fits(e, w)
  }

  function One(b: bool): nat {
    if b then 1 else 0
  }

  lemma {:induction false} CreditedUpdate(es: seq<Processing>, i: nat, e: Processing, saved: bool, id: nat, w: Which)
    requires i < |es|
    ensures Credited(es[i := e], saved, id, w) + One(Counts(es[i], saved, id, w))
         == Credited(es, saved, id, w) + One(Counts(e, saved, id, w))
  {
    var n := |es| - 1;
    if i == n {
      assert es[i := e][..n] == es[..n];
    } else {
      assert es[i := e][..n] == es[..n][i := e];
      CreditedUpdate(es[..n], i, e, saved, id, w);
    }
  }

  /** Inferring an issue for more events credits nothing before the batch is saved. */
  lemma {:induction false} InferCredits(es: seq<Processing>, key: Key, made: nat, id: nat, w: Which)
    requires forall i :: 0 <= i < |es| && es[i].made ==> es[i].issue.Some?
    ensures Credited(Infer(es, key, made), false, id, w) == Credited(es, false, id, w)
  {
    if es != [] {
      var n := |es| - 1;
      assert Infer(es, key, made)[..n] == Infer(es[..n], key, made);
      InferCredits(es[..n], key, made, id, w);
    }
  }

  lemma MadeCredits(es: seq<Processing>, i: nat, made: nat, id: nat, w: Which)
    requires i < |es| && es[i].issue.None?
    requires forall k :: 0 <= k < |es| && es[k].made ==> es[k].issue.Some?
    ensures Credited(Made(es, i, made), false, id, w) == Credited(es, false, id, w) + One(id == made && Fits(es[i], w))
  {
    var inferred := Infer(es, es[i].key, made);
    InferCredits(es, es[i].key, made, id, w);
    CreditedUpdate(inferred, i, inferred[i].(issue := Some(made), made := true), false, id, w);
  }

  function Credit(w: Worker, id: nat, which: Which): nat {
    Credited(w.events, w.at.Saved? && id !in w.at.dropped, id, which)
  }

  /** A row accounts for credits if its count is the base count plus all of them, its last_seen
      is past a time exactly if the base's or one of theirs is, and it names a release exactly if
      the base or one of them does. An id without a row has no credits. */
  predicate Accounts(index0: map<nat, Row>, index: map<nat, Row>, id: nat, all: nat, time: int, since: nat, releasing: nat) {
    if id in index then
      && index[id].count == (if id in index0 then index0[id].count else 0) + all
      && (index[id].lastSeen >= time <==> (id in index0 && index0[id].lastSeen >= time) || since > 0)
      && (index[id].release.Some? <==> (id in index0 && index0[id].release.Some?) || releasing > 0)
    else
      id !in index0 && all == 0 && since == 0 && releasing == 0
  }

  /** One worker's step changes the row by exactly what it changes of the worker's credits;
      `a`, `s` and `r` are the other workers' credits. */
  ghost predicate Accounted(index0: map<nat, Row>, t: Tables, w: Worker, id: nat, time: int, a: nat, s: nat, r: nat) {
    Accounts(index0, t.index, id, a + Credit(w, id, All), time, s + Credit(w, id, Since(time)), r + Credit(w, id, Releasing))
  }

  lemma SetIssueAccounts(index0: map<nat, Row>, t: Tables, w: Worker, w2: Worker, to: nat, id: nat, time: int, a: nat, s: nat, r: nat)
    requires (w.at.At? || w.at.Lost?) && w.at.i < |w.events| && Settled(w.events, w.at.i, t.hashes)
    requires w.at.Lost? ==> w.events[w.at.i].key in t.hashes
    requires w.events[w.at.i].key in t.hashes && to == t.hashes[w.events[w.at.i].key]
    requires w2 == w.(events := SetIssue(w.events, w.at.i, to), at := At(w.at.i + 1))
    requires Accounted(index0, t, w, id, time, a, s, r)
    ensures Accounted(index0, t, w2, id, time, a, s, r)
  {
    var i := w.at.i;
    var e := w.events[i].(issue := Some(to));
    CreditedUpdate(w.events, i, e, false, id, All);
    CreditedUpdate(w.events, i, e, false, id, Since(time));
    CreditedUpdate(w.events, i, e, false, id, Releasing);
  }

  lemma InsertAccounts(index0: map<nat, Row>, t: Tables, w: Worker, t2: Tables, w2: Worker, to: nat, id: nat, time: int, a: nat, s: nat, r: nat)
    requires WorkerInv(w, t.hashes) && Insert(t, w, t2, w2, to)
    requires Accounted(index0, t, w, id, time, a, s, r)
    ensures Accounted(index0, t2, w2, id, time, a, s, r)
  {
    MadeCredits(w.events, w.at.i, to, id, All);
    MadeCredits(w.events, w.at.i, to, id, Since(time));
    MadeCredits(w.events, w.at.i, to, id, Releasing);
  }

  lemma SaveAccounts(index0: map<nat, Row>, t: Tables, w: Worker, t2: Tables, w2: Worker, id: nat, time: int, a: nat, s: nat, r: nat)
    requires Save(t, w, t2, w2)
    requires Accounted(index0, t, w, id, time, a, s, r)
    ensures Accounted(index0, t2, w2, id, time, a, s, r)
  {
    AggregateCounts(w.events, id, time);
  }

  lemma StepAccounts(index0: map<nat, Row>, t: Tables, w: Worker, t2: Tables, w2: Worker, id: nat, time: int, a: nat, s: nat, r: nat)
    requires WorkerInv(w, t.hashes) && WorkerStep(t, w, t2, w2)
    requires Accounted(index0, t, w, id, time, a, s, r)
    ensures Accounted(index0, t2, w2, id, time, a, s, r)
  {
    if to :| Insert(t, w, t2, w2, to) {
      InsertAccounts(index0, t, w, t2, w2, to, id, time, a, s, r);
    } else if Save(t, w, t2, w2) {
      SaveAccounts(index0, t, w, t2, w2, id, time, a, s, r);
    } else if Known(t, w, t2, w2) || ReadBack(t, w, t2, w2) {
      SetIssueAccounts(index0, t, w, w2, t.hashes[w.events[w.at.i].key], id, time, a, s, r);
    }
  }

  // ----- all workers -----

  datatype State = State(tables: Tables, workers: seq<Worker>)

  ghost predicate StepOf(s: State, t: State, k: nat) {
    && k < |s.workers| && |t.workers| == |s.workers| && t.workers == s.workers[k := t.workers[k]]
    && WorkerStep(s.tables, s.workers[k], t.tables, t.workers[k])
  }

  ghost predicate Step(s: State, t: State) {
    exists k :: StepOf(s, t, k)
  }

  /** Fresh workers over any batches, and any tables in which a hash has its issue. */
  predicate Ready(s: State) {
    && TablesInv(s.tables)
    && forall k :: 0 <= k < |s.workers| ==> FreshWorker(s.workers[k])
  }

  predicate FreshWorker(w: Worker) {
    && w.at == Fetching && w.known == map[]
    && forall i :: 0 <= i < |w.events| ==> w.events[i].issue.None? && !w.events[i].made
  }

  ghost predicate Run(ss: seq<State>) {
    ss != [] && Ready(ss[0]) && forall i :: 0 <= i < |ss| - 1 ==> Step(ss[i], ss[i + 1])
  }

  predicate AllSaved(s: State) {
    forall k :: 0 <= k < |s.workers| ==> s.workers[k].at.Saved?
  }

  predicate Inv(s: State) {
    TablesInv(s.tables) && forall k :: 0 <= k < |s.workers| ==> WorkerInv(s.workers[k], s.tables.hashes)
  }

  lemma StepKeeps(s: State, t: State)
    requires Inv(s) && Step(s, t)
    ensures Inv(t) && Submap(s.tables.hashes, t.tables.hashes)
  {
    var k: nat :| StepOf(s, t, k);
    WorkerKeeps(s.tables, s.workers[k], t.tables, t.workers[k]);
    forall j | 0 <= j < |t.workers| && j != k ensures WorkerInv(t.workers[j], t.tables.hashes) {
      WorkerInvStable(s.workers[j], s.tables.hashes, t.tables.hashes);
    }
  }

  lemma {:induction false} RunKeeps(ss: seq<State>, i: nat)
    requires Run(ss) && i < |ss|
    ensures Inv(ss[i])
  {
    if i > 0 {
      RunKeeps(ss, i - 1);
      StepKeeps(ss[i - 1], ss[i]);
    }
  }

  function Total(ws: seq<Worker>, id: nat, which: Which): nat {
    if ws == [] then 0 else Total(ws[..|ws| - 1], id, which) + Credit(ws[|ws| - 1], id, which)
  }

  lemma {:induction false} TotalUpdate(ws: seq<Worker>, k: nat, w: Worker, id: nat, which: Which)
    requires k < |ws|
    ensures Total(ws, id, which) >= Credit(ws[k], id, which)
    ensures Total(ws[k := w], id, which) == Total(ws, id, which) - Credit(ws[k], id, which) + Credit(w, id, which)
  {
    var n := |ws| - 1;
    if k == n {
      assert ws[k := w][..n] == ws[..n];
    } else {
      assert ws[k := w][..n] == ws[..n][k := w];
      TotalUpdate(ws[..n], k, w, id, which);
    }
  }

  ghost predicate Balanced(index0: map<nat, Row>, s: State, id: nat, time: int) {
    Accounts(index0, s.tables.index, id, Total(s.workers, id, All), time, Total(s.workers, id, Since(time)), Total(s.workers, id, Releasing))
  }

  lemma StepBalances(index0: map<nat, Row>, s: State, t: State, id: nat, time: int)
    requires Inv(s) && Step(s, t) && Balanced(index0, s, id, time)
    ensures Balanced(index0, t, id, time)
  {
    var k: nat :| StepOf(s, t, k);
    var w, x := s.workers[k], t.workers[k];
    TotalUpdate(s.workers, k, x, id, All);
    TotalUpdate(s.workers, k, x, id, Since(time));
    TotalUpdate(s.workers, k, x, id, Releasing);
    StepAccounts(index0, s.tables, w, t.tables, x, id, time, Total(s.workers, id, All) - Credit(w, id, All),
                 Total(s.workers, id, Since(time)) - Credit(w, id, Since(time)),
                 Total(s.workers, id, Releasing) - Credit(w, id, Releasing));
  }

  lemma {:induction false} FreshCredits(es: seq<Processing>, id: nat, which: Which)
    requires forall i :: 0 <= i < |es| ==> !es[i].made
    ensures Credited(es, false, id, which) == 0
  {
    if es != [] {
      FreshCredits(es[..|es| - 1], id, which);
    }
  }

  lemma {:induction false} FreshTotal(ws: seq<Worker>, id: nat, which: Which)
    requires forall k :: 0 <= k < |ws| ==> FreshWorker(ws[k])
    ensures Total(ws, id, which) == 0
  {
    if ws != [] {
      FreshTotal(ws[..|ws| - 1], id, which);
      FreshCredits(ws[|ws| - 1].events, id, which);
    }
  }

  lemma {:induction false} RunBalances(ss: seq<State>, i: nat, id: nat, time: int)
    requires Run(ss) && i < |ss|
    ensures Balanced(ss[0].tables.index, ss[i], id, time)
  {
    if i == 0 {
      FreshTotal(ss[0].workers, id, All);
      FreshTotal(ss[0].workers, id, Since(time));
      FreshTotal(ss[0].workers, id, Releasing);
    } else {
      RunBalances(ss, i - 1, id, time);
      RunKeeps(ss, i - 1);
      StepBalances(ss[0].tables.index, ss[i - 1], ss[i], id, time);
    }
  }

  // ----- from credits back to the events received -----

  predicate SameReceipt(e: Processing, f: Processing) {
    e.key == f.key && e.received == f.received && e.release == f.release
  }

  predicate SameBatch(es: seq<Processing>, fs: seq<Processing>) {
    |es| == |fs| && forall i :: 0 <= i < |es| ==> SameReceipt(es[i], fs[i])
  }

  lemma StepSameBatch(t: Tables, w: Worker, t2: Tables, w2: Worker)
    requires WorkerStep(t, w, t2, w2)
    ensures SameBatch(w.events, w2.events)
  {
  }

  lemma {:induction false} RunSameBatch(ss: seq<State>, i: nat, k: nat)
    requires Run(ss) && i < |ss| && k < |ss[0].workers|
    ensures |ss[i].workers| == |ss[0].workers| && SameBatch(ss[0].workers[k].events, ss[i].workers[k].events)
  {
    if i > 0 {
      RunSameBatch(ss, i - 1, k);
      var j: nat :| StepOf(ss[i - 1], ss[i], j);
      StepSameBatch(ss[i - 1].tables, ss[i - 1].workers[j], ss[i].tables, ss[i].workers[j]);
    }
  }

  lemma {:induction false} SettledHits(es: seq<Processing>, fs: seq<Processing>, hashes: map<Key, nat>, id: nat, which: Which)
    requires SameBatch(fs, es)
    requires forall i :: 0 <= i < |es| ==> es[i].issue.Some? && es[i].key in hashes && hashes[es[i].key] == es[i].issue.value
    ensures Credited(es, true, id, which) == Hits(fs, hashes, id, which)
  {
    if es != [] {
      SettledHits(es[..|es| - 1], fs[..|es| - 1], hashes, id, which);
    }
  }

  /** How many of all the received events belong to the issue. */
  function AllHits(ws: seq<Worker>, hashes: map<Key, nat>, id: nat, which: Which): nat {
    if ws == [] then 0 else AllHits(ws[..|ws| - 1], hashes, id, which) + Hits(ws[|ws| - 1].events, hashes, id, which)
  }

  /** The worker dropped its update of the issue. */
  function Drops(id: nat): Worker -> bool {
    (w: Worker) => w.at.Saved? && id in w.at.dropped
  }

  function HowMany(ws: seq<Worker>, p: Worker -> bool): nat {
    if ws == [] then 0 else HowMany(ws[..|ws| - 1], p) + One(p(ws[|ws| - 1]))
  }

  lemma {:induction false} HowManyUpdate(ws: seq<Worker>, k: nat, w: Worker, p: Worker -> bool)
    requires k < |ws|
    ensures HowMany(ws, p) >= One(p(ws[k]))
    ensures HowMany(ws[k := w], p) == HowMany(ws, p) - One(p(ws[k])) + One(p(w))
  {
    var n := |ws| - 1;
    if k == n {
      assert ws[k := w][..n] == ws[..n];
    } else {
      assert ws[k := w][..n] == ws[..n][k := w];
      HowManyUpdate(ws[..n], k, w, p);
    }
  }

  /** A saved worker is credited all its events for the issue, or, if it dropped its update, fewer. */
  lemma WorkerHits(w: Worker, v: Worker, hashes: map<Key, nat>, id: nat, which: Which)
    requires SameBatch(v.events, w.events) && WorkerInv(w, hashes) && w.at.Saved?
    requires forall m :: m in w.at.dropped ==> m in Aggregate(w.events)
    ensures !Drops(id)(w) ==> Credit(w, id, which) == Hits(v.events, hashes, id, which)
    ensures Credit(w, id, All) + One(Drops(id)(w)) <= Hits(v.events, hashes, id, All)
  {
    SettledHits(w.events, v.events, hashes, id, which);
    SettledHits(w.events, v.events, hashes, id, All);
    AggregateCounts(w.events, id, 0);
  }

  lemma {:induction false} TotalHits(ws: seq<Worker>, vs: seq<Worker>, hashes: map<Key, nat>, id: nat, which: Which)
    requires |vs| == |ws| && forall k :: 0 <= k < |ws| ==> SameBatch(vs[k].events, ws[k].events)
    requires forall k :: 0 <= k < |ws| ==> WorkerInv(ws[k], hashes) && ws[k].at.Saved?
    requires forall k, m :: 0 <= k < |ws| && m in ws[k].at.dropped ==> m in Aggregate(ws[k].events)
    ensures HowMany(ws, Drops(id)) == 0 ==> Total(ws, id, which) == AllHits(vs, hashes, id, which)
    ensures Total(ws, id, All) + HowMany(ws, Drops(id)) <= AllHits(vs, hashes, id, All)
  {
    if ws != [] {
      var n := |ws| - 1;
      TotalHits(ws[..n], vs[..n], hashes, id, which);
      WorkerHits(ws[n], vs[n], hashes, id, which);
    }
  }

  lemma RunHits(ss: seq<State>, i: nat, id: nat, which: Which)
    requires Run(ss) && i < |ss| && AllSaved(ss[i])
    ensures var all := AllHits(ss[0].workers, ss[i].tables.hashes, id, which);
            HowMany(ss[i].workers, Drops(id)) == 0 ==> Total(ss[i].workers, id, which) == all
    ensures Total(ss[i].workers, id, All) + HowMany(ss[i].workers, Drops(id)) <= AllHits(ss[0].workers, ss[i].tables.hashes, id, All)
  {
    RunKeeps(ss, i);
    RunLength(ss, i);
    forall k | 0 <= k < |ss[0].workers| ensures SameBatch(ss[0].workers[k].events, ss[i].workers[k].events) {
      RunSameBatch(ss, i, k);
    }
    RunKeepsRows(ss, i);
    TotalHits(ss[i].workers, ss[0].workers, ss[i].tables.hashes, id, which);
  }

  lemma {:induction false} RunLength(ss: seq<State>, i: nat)
    requires Run(ss) && i < |ss|
    ensures |ss[i].workers| == |ss[0].workers|
  {
    if i > 0 {
      RunLength(ss, i - 1);
      var j: nat :| StepOf(ss[i - 1], ss[i], j);
    }
  }

  // ----- which index rows are there -----

  /** A made issue has its row; an issue to be saved has one unless it is missing, a saved one has one. */
  predicate RowsInv(w: Worker, index: map<nat, Row>) {
    && (forall i :: 0 <= i < |w.events| && w.events[i].made && w.events[i].issue.Some? ==> w.events[i].issue.value in index)
    && (w.at.Saving? ==> w.at.missing <= Aggregate(w.events).Keys <= index.Keys + w.at.missing)
    && (w.at.Saved? ==> w.at.dropped <= w.at.missing <= Aggregate(w.events).Keys <= index.Keys)
  }

  lemma MadeHasRows(es: seq<Processing>, i: nat, id: nat, index: map<nat, Row>, row: Row)
    requires i < |es| && forall k :: 0 <= k < |es| && es[k].made && es[k].issue.Some? ==> es[k].issue.value in index
    requires forall k :: 0 <= k < |es| && es[k].made ==> es[k].issue.Some?
    ensures forall k :: 0 <= k < |es| && Made(es, i, id)[k].made && Made(es, i, id)[k].issue.Some? ==> Made(es, i, id)[k].issue.value in index[id := row]
  {
  }

  lemma WorkerKeepsRows(t: Tables, w: Worker, t2: Tables, w2: Worker)
    requires WorkerInv(w, t.hashes) && RowsInv(w, t.index) && WorkerStep(t, w, t2, w2)
    ensures RowsInv(w2, t2.index) && t.index.Keys <= t2.index.Keys
  {
    if id :| Insert(t, w, t2, w2, id) {
      var e := w.events[w.at.i];
      MadeHasRows(w.events, w.at.i, id, t.index, Row(1, e.received, e.release));
    } else if Known(t, w, t2, w2) || ReadBack(t, w, t2, w2) {
      RereadHasRows(w, w2, t.hashes);
    } else {
      QuietKeepsRows(t, w, t2, w2);
    }
  }

  lemma QuietKeepsRows(t: Tables, w: Worker, t2: Tables, w2: Worker)
    requires RowsInv(w, t.index)
    requires Fetch(t, w, t2, w2) || Skip(t, w, t2, w2) || Reserve(t, w, t2, w2) || Lose(t, w, t2, w2) || Look(t, w, t2, w2) || Save(t, w, t2, w2)
    ensures RowsInv(w2, t2.index) && t.index.Keys <= t2.index.Keys
  {
  }

  lemma RereadHasRows(w: Worker, w2: Worker, hashes: map<Key, nat>)
    requires (w.at.At? || w.at.Lost?) && w.at.i < |w.events| && Settled(w.events, w.at.i, hashes)
    requires w.events[w.at.i].key in hashes
    requires w2.events == SetIssue(w.events, w.at.i, hashes[w.events[w.at.i].key])
    ensures forall k :: 0 <= k < |w2.events| && w2.events[k].made ==> w2.events[k] == w.events[k]
  {
  }

  lemma {:induction false} RunKeepsRows(ss: seq<State>, i: nat)
    requires Run(ss) && i < |ss|
    ensures forall k :: 0 <= k < |ss[i].workers| ==> RowsInv(ss[i].workers[k], ss[i].tables.index)
    ensures ss[0].tables.index.Keys <= ss[i].tables.index.Keys
  {
    if i > 0 {
      RunKeepsRows(ss, i - 1);
      RunKeeps(ss, i - 1);
      var s, t := ss[i - 1], ss[i];
      var k: nat :| StepOf(s, t, k);
      WorkerKeepsRows(s.tables, s.workers[k], t.tables, t.workers[k]);
    }
  }

  /** Creating an issue settles every event of the batch with its key at once, so that none of them
      reserves another short id. */
  lemma MadeSettlesAll(t: Tables, w: Worker, t2: Tables, w2: Worker, id: nat, i: nat)
    requires WorkerInv(w, t.hashes) && Insert(t, w, t2, w2, id) && i < |w.events| && w.events[i].key == w.events[w.at.i].key
    ensures w2.events[i].issue == Some(id) && (w2.events[i].made <==> i == w.at.i || w.events[i].made)
  {
    if w.events[i].issue.Some? {
      assert false;
    }
  }

  // ----- who finds a row missing -----

  /** The worker's statement found no row for the issue. */
  function Finds(id: nat): Worker -> bool {
    (w: Worker) => (w.at.Saving? || w.at.Saved?) && id in w.at.missing
  }

  /** It did, and its own row is the one that went in. */
  function FillsIn(id: nat): Worker -> bool {
    (w: Worker) => w.at.Saved? && id in w.at.missing && id !in w.at.dropped
  }

  /** Of the workers that found the row missing, one fills it in as soon as it is there. */
  ghost predicate FilledOnce(s: State, id: nat) {
    HowMany(s.workers, FillsIn(id)) == One(id in s.tables.index && HowMany(s.workers, Finds(id)) > 0)
  }

  /** An issue that somebody found missing is an old one. */
  ghost predicate MissingAreOld(s: State) {
    forall k, id :: 0 <= k < |s.workers| && Finds(id)(s.workers[k]) ==> id in s.tables.issues
  }

  lemma {:induction false} AggregateFrom(es: seq<Processing>, id: nat) returns (i: nat)
    requires id in Aggregate(es)
    ensures i < |es| && es[i].issue == Some(id) && !es[i].made
  {
    var n := |es| - 1;
    if !es[n].made && es[n].issue == Some(id) {
      i := n;
    } else {
      i := AggregateFrom(es[..n], id);
    }
  }

  lemma StepMissingOld(s: State, t: State)
    requires Inv(s) && MissingAreOld(s) && Step(s, t)
    ensures MissingAreOld(t)
  {
    var k: nat :| StepOf(s, t, k);
    var w, x := s.workers[k], t.workers[k];
    forall id | Finds(id)(x) ensures id in t.tables.issues {
      if Look(s.tables, w, t.tables, x) {
        var i := AggregateFrom(w.events, id);
      } else {
        assert Finds(id)(w);
      }
    }
    forall j, id | 0 <= j < |t.workers| && Finds(id)(t.workers[j]) ensures id in t.tables.issues {
      if j != k { assert Finds(id)(s.workers[j]); }
    }
  }

  lemma {:induction false} SomeFinds(ws: seq<Worker>, p: Worker -> bool)
    ensures HowMany(ws, p) > 0 <==> exists k :: 0 <= k < |ws| && p(ws[k])
  {
    if ws != [] {
      SomeFinds(ws[..|ws| - 1], p);
      if k :| 0 <= k < |ws| && p(ws[k]) {
        assert k < |ws| - 1 ==> ws[..|ws| - 1][k] == ws[k];
      }
    }
  }

  lemma StepFillsOnce(s: State, t: State, id: nat)
    requires Inv(s) && MissingAreOld(s) && Step(s, t) && FilledOnce(s, id)
    requires forall k :: 0 <= k < |s.workers| ==> RowsInv(s.workers[k], s.tables.index)
    ensures FilledOnce(t, id)
  {
    var k: nat :| StepOf(s, t, k);
    HowManyUpdate(s.workers, k, t.workers[k], Finds(id));
    HowManyUpdate(s.workers, k, t.workers[k], FillsIn(id));
    SomeFinds(s.workers, Finds(id));
    WorkerFills(s.tables, s.workers[k], t.tables, t.workers[k], id, HowMany(s.workers, Finds(id)) > 0);
  }

  /** What one worker's step does to the row and to its own part. */
  lemma WorkerFills(t: Tables, w: Worker, t2: Tables, w2: Worker, id: nat, found: bool)
    requires WorkerStep(t, w, t2, w2) && RowsInv(w, t.index) && (found ==> id in t.issues) && (Finds(id)(w) ==> found)
    ensures if Save(t, w, t2, w2) then
              && Finds(id)(w2) == Finds(id)(w) && !FillsIn(id)(w)
              && (FillsIn(id)(w2) <==> Finds(id)(w) && id !in t.index)
              && (found ==> (id in t2.index <==> id in t.index || Finds(id)(w)))
            else
              && FillsIn(id)(w2) == FillsIn(id)(w) && (Finds(id)(w) ==> Finds(id)(w2))
              && (Finds(id)(w2) && !Finds(id)(w) ==> id !in t2.index)
              && (found ==> (id in t2.index <==> id in t.index))
  {
  }

  lemma {:induction false} RunFillsOnce(ss: seq<State>, i: nat, id: nat)
    requires Run(ss) && i < |ss|
    ensures FilledOnce(ss[i], id) && MissingAreOld(ss[i])
  {
    if i == 0 {
      SomeFinds(ss[0].workers, Finds(id));
      SomeFinds(ss[0].workers, FillsIn(id));
    } else {
      RunFillsOnce(ss, i - 1, id);
      RunKeeps(ss, i - 1);
      RunKeepsRows(ss, i - 1);
      StepMissingOld(ss[i - 1], ss[i]);
      StepFillsOnce(ss[i - 1], ss[i], id);
    }
  }

  lemma {:induction false} FindersPart(ws: seq<Worker>, index: map<nat, Row>, id: nat)
    requires forall k :: 0 <= k < |ws| ==> ws[k].at.Saved? && RowsInv(ws[k], index)
    ensures HowMany(ws, Finds(id)) == HowMany(ws, FillsIn(id)) + HowMany(ws, Drops(id))
    ensures HowMany(ws, Finds(id)) > 0 ==> id in index
  {
    if ws != [] { FindersPart(ws[..|ws| - 1], index, id); }
  }

  /** At the end all but one of the workers that found the row missing have dropped their update. */
  lemma DropsAtTheEnd(ss: seq<State>, i: nat, id: nat)
    requires Run(ss) && i < |ss| && AllSaved(ss[i])
    ensures var finders := HowMany(ss[i].workers, Finds(id));
            HowMany(ss[i].workers, Drops(id)) == if finders > 0 then finders - 1 else 0
    ensures HowMany(ss[i].workers, Finds(id)) > 0 ==> id in ss[i].tables.index
  {
    RunFillsOnce(ss, i, id);
    RunKeepsRows(ss, i);
    FindersPart(ss[i].workers, ss[i].tables.index, id);
  }

  /** The issue's row accounts for everything received in the run. */
  ghost predicate Conserved(s: State, t: State, id: nat) {
    forall time :: Accounts(s.tables.index, t.tables.index, id, AllHits(s.workers, t.tables.hashes, id, All), time,
                            AllHits(s.workers, t.tables.hashes, id, Since(time)), AllHits(s.workers, t.tables.hashes, id, Releasing))
  }

  /** Conservation under races: when every worker has saved, in whatever interleaving, each issue's
      count is its earlier count plus the number of events received for it, last_seen is the latest
      of the earlier value and their times, and it names a release exactly if it did or one of them
      does, if and only if at most one worker's statement found the issue without its row. */
  lemma CountsConserved(ss: seq<State>, i: nat, id: nat)
    requires Run(ss) && i < |ss| && AllSaved(ss[i])
    ensures Conserved(ss[0], ss[i], id) <==> HowMany(ss[i].workers, Finds(id)) <= 1
  {
    DropsAtTheEnd(ss, i, id);
    RunBalances(ss, i, id, 0);
    RunHits(ss, i, id, All);
    if HowMany(ss[i].workers, Finds(id)) <= 1 {
      forall time ensures Accounts(ss[0].tables.index, ss[i].tables.index, id, AllHits(ss[0].workers, ss[i].tables.hashes, id, All), time,
                                   AllHits(ss[0].workers, ss[i].tables.hashes, id, Since(time)), AllHits(ss[0].workers, ss[i].tables.hashes, id, Releasing)) {
        RunBalances(ss, i, id, time);
        RunHits(ss, i, id, Since(time));
        RunHits(ss, i, id, Releasing);
      }
    } else {
      assert !Accounts(ss[0].tables.index, ss[i].tables.index, id, AllHits(ss[0].workers, ss[i].tables.hashes, id, All), 0,
                       AllHits(ss[0].workers, ss[i].tables.hashes, id, Since(0)), AllHits(ss[0].workers, ss[i].tables.hashes, id, Releasing));
    }
  }

  /** Otherwise the count falls short by at least one event for each further such worker. */
  lemma CountFallsShort(ss: seq<State>, i: nat, id: nat)
    requires Run(ss) && i < |ss| && AllSaved(ss[i]) && HowMany(ss[i].workers, Finds(id)) > 1
    ensures id in ss[i].tables.index && id !in ss[0].tables.index
    ensures ss[i].tables.index[id].count + HowMany(ss[i].workers, Finds(id)) - 1 <= AllHits(ss[0].workers, ss[i].tables.hashes, id, All)
  {
    DropsAtTheEnd(ss, i, id);
    RunBalances(ss, i, id, 0);
    RunHits(ss, i, id, All);
    FindersContend(ss, i, id);
  }

  /** Every received event ends with its (project, hash) in the table and its issue's row in place. */
  lemma EveryEventFiled(ss: seq<State>, i: nat, k: nat, n: nat)
    requires Run(ss) && i < |ss| && AllSaved(ss[i]) && k < |ss[0].workers| && n < |ss[0].workers[k].events|
    ensures |ss[i].workers| == |ss[0].workers|
    ensures var key, t := ss[0].workers[k].events[n].key, ss[i].tables;
            key in t.hashes && t.hashes[key] in t.issues && t.hashes[key] in t.index
  {
    RunKeeps(ss, i);
    RunSameBatch(ss, i, k);
    RunKeepsRows(ss, i);
    var es := ss[i].workers[k].events;
    if !es[n].made { AggregateHas(es, n); }
  }

  lemma {:induction false} AggregateHas(es: seq<Processing>, i: nat)
    requires i < |es| && es[i].issue.Some? && !es[i].made
    ensures es[i].issue.value in Aggregate(es)
  {
    if i < |es| - 1 { AggregateHas(es[..|es| - 1], i); }
  }

  // ----- and before the run: who can find a row missing -----

  /** One of the batch's events belongs to the issue by a hash that is there at the start. */
  predicate HasEventFor(w: Worker, hashes: map<Key, nat>, id: nat) {
    exists i :: 0 <= i < |w.events| && w.events[i].key in hashes && hashes[w.events[i].key] == id
  }

  function Contends(hashes: map<Key, nat>, id: nat): Worker -> bool {
    (w: Worker) => HasEventFor(w, hashes, id)
  }

  /** A hash of the run has its issue's row from the start. */
  predicate NewHashesIndexed(t: Tables, hashes0: map<Key, nat>) {
    Submap(hashes0, t.hashes) && forall k :: k in t.hashes && k !in hashes0 ==> t.hashes[k] in t.index
  }

  ghost predicate FinderOf(w: Worker, t0: Tables) {
    forall id :: Finds(id)(w) ==> id !in t0.index && HasEventFor(w, t0.hashes, id)
  }

  lemma LookFinder(t0: Tables, t: Tables, w: Worker, t2: Tables, w2: Worker)
    requires WorkerInv(w, t.hashes) && NewHashesIndexed(t, t0.hashes) && t0.index.Keys <= t.index.Keys && Look(t, w, t2, w2)
    ensures FinderOf(w2, t0)
  {
    forall id | Finds(id)(w2) ensures id !in t0.index && HasEventFor(w2, t0.hashes, id) {
      var i := AggregateFrom(w.events, id);
      assert w.events[i].key in t.hashes && t.hashes[w.events[i].key] == id;
    }
  }

  lemma WorkerFinder(t0: Tables, t: Tables, w: Worker, t2: Tables, w2: Worker)
    requires TablesInv(t) && WorkerInv(w, t.hashes) && NewHashesIndexed(t, t0.hashes) && t0.index.Keys <= t.index.Keys
    requires WorkerStep(t, w, t2, w2) && FinderOf(w, t0)
    ensures NewHashesIndexed(t2, t0.hashes) && FinderOf(w2, t0)
  {
    StepNewHashes(t0.hashes, t, w, t2, w2);
    if Look(t, w, t2, w2) {
      LookFinder(t0, t, w, t2, w2);
    } else if w2.at.Saved? {
      SaveFinder(t0, t, w, t2, w2);
    }
  }

  lemma SaveFinder(t0: Tables, t: Tables, w: Worker, t2: Tables, w2: Worker)
    requires Save(t, w, t2, w2) && FinderOf(w, t0)
    ensures FinderOf(w2, t0)
  {
    forall id | Finds(id)(w2) ensures id !in t0.index && HasEventFor(w2, t0.hashes, id) {
      assert Finds(id)(w);
    }
  }

  lemma StepNewHashes(hashes0: map<Key, nat>, t: Tables, w: Worker, t2: Tables, w2: Worker)
    requires TablesInv(t) && WorkerInv(w, t.hashes) && NewHashesIndexed(t, hashes0) && WorkerStep(t, w, t2, w2)
    ensures NewHashesIndexed(t2, hashes0)
  {
    if id :| Insert(t, w, t2, w2, id) { InsertKeeps(t, w, t2, w2, id); }
  }

  lemma {:induction false} RunFinders(ss: seq<State>, i: nat)
    requires Run(ss) && i < |ss|
    ensures NewHashesIndexed(ss[i].tables, ss[0].tables.hashes)
    ensures forall k :: 0 <= k < |ss[i].workers| ==> FinderOf(ss[i].workers[k], ss[0].tables)
  {
    if i > 0 {
      RunFinders(ss, i - 1);
      RunKeeps(ss, i - 1);
      RunKeepsRows(ss, i - 1);
      StepFinders(ss[0].tables, ss[i - 1], ss[i]);
    }
  }

  lemma StepFinders(t0: Tables, s: State, t: State)
    requires Inv(s) && Step(s, t) && NewHashesIndexed(s.tables, t0.hashes) && t0.index.Keys <= s.tables.index.Keys
    requires forall k :: 0 <= k < |s.workers| ==> FinderOf(s.workers[k], t0)
    ensures NewHashesIndexed(t.tables, t0.hashes)
    ensures forall k :: 0 <= k < |t.workers| ==> FinderOf(t.workers[k], t0)
  {
    var j: nat :| StepOf(s, t, j);
    WorkerFinder(t0, s.tables, s.workers[j], t.tables, t.workers[j]);
    forall k | 0 <= k < |t.workers| ensures FinderOf(t.workers[k], t0) {
      if k != j { assert t.workers[k] == s.workers[k]; }
    }
  }

  lemma {:induction false} Fewer(ws: seq<Worker>, vs: seq<Worker>, p: Worker -> bool, q: Worker -> bool)
    requires |ws| == |vs| && forall k :: 0 <= k < |ws| && p(ws[k]) ==> q(vs[k])
    ensures HowMany(ws, p) <= HowMany(vs, q)
  {
    if ws != [] { Fewer(ws[..|ws| - 1], vs[..|ws| - 1], p, q); }
  }

  lemma SameContends(w: Worker, v: Worker, hashes: map<Key, nat>, id: nat)
    requires SameBatch(v.events, w.events) && HasEventFor(w, hashes, id)
    ensures HasEventFor(v, hashes, id)
  {
    var i :| 0 <= i < |w.events| && w.events[i].key in hashes && hashes[w.events[i].key] == id;
    assert SameReceipt(v.events[i], w.events[i]);
  }

  /** Only workers with an event for an issue that had no row at the start can find it missing. */
  lemma FindersContend(ss: seq<State>, i: nat, id: nat)
    requires Run(ss) && i < |ss|
    ensures HowMany(ss[i].workers, Finds(id)) <= HowMany(ss[0].workers, Contends(ss[0].tables.hashes, id))
    ensures HowMany(ss[i].workers, Finds(id)) > 0 ==> id !in ss[0].tables.index
  {
    RunFinders(ss, i);
    RunLength(ss, i);
    forall k | 0 <= k < |ss[i].workers| && Finds(id)(ss[i].workers[k]) ensures Contends(ss[0].tables.hashes, id)(ss[0].workers[k]) {
      RunSameBatch(ss, i, k);
      SameContends(ss[i].workers[k], ss[0].workers[k], ss[0].tables.hashes, id);
    }
    Fewer(ss[i].workers, ss[0].workers, Finds(id), Contends(ss[0].tables.hashes, id));
    SomeFinds(ss[i].workers, Finds(id));
  }

  // ----- one issue per (project, hash) -----

  /** The issue's only hash is this one, and both belong to the same project. */
  predicate OnlyHash(t: Tables, id: nat, key: Key) {
    && id in t.issues && t.issues[id].project == key.project && key in t.hashes && t.hashes[key] == id
    && forall k :: k in t.hashes && t.hashes[k] == id ==> k == key
  }

  lemma StepKeepsHash(s: State, t: State, id: nat, key: Key)
    requires Inv(s) && Step(s, t) && OnlyHash(s.tables, id, key)
    ensures OnlyHash(t.tables, id, key)
  {
  }

  lemma CreatingStep(s: State, t: State, id: nat) returns (key: Key)
    requires TablesInv(s.tables) && Step(s, t) && id in t.tables.issues && id !in s.tables.issues
    ensures OnlyHash(t.tables, id, key)
  {
    var k: nat :| StepOf(s, t, k);
    key := CreatingWorker(s.tables, s.workers[k], t.tables, t.workers[k], id);
  }

  lemma CreatingWorker(t: Tables, w: Worker, t2: Tables, w2: Worker, id: nat) returns (key: Key)
    requires TablesInv(t) && WorkerStep(t, w, t2, w2) && id in t2.issues && id !in t.issues
    ensures OnlyHash(t2, id, key)
  {
    var made :| Insert(t, w, t2, w2, made);
    key := w.events[w.at.i].key;
  }

  /** A losing insert leaves nothing behind: every issue of the run that was not there at its
      start has exactly one (project, hash), of its own project. */
  lemma {:induction false} CreatedIssueHasOneHash(ss: seq<State>, i: nat, id: nat) returns (key: Key)
    requires Run(ss) && i < |ss| && id in ss[i].tables.issues && id !in ss[0].tables.issues
    ensures OnlyHash(ss[i].tables, id, key)
  {
    if i == 0 {
      assert false;
    } else {
      RunKeeps(ss, i - 1);
      if id in ss[i - 1].tables.issues {
        key := CreatedIssueHasOneHash(ss, i - 1, id);
        StepKeepsHash(ss[i - 1], ss[i], id, key);
      } else {
        key := CreatingStep(ss[i - 1], ss[i], id);
      }
    }
  }

  // ----- short ids -----

  predicate Claims(w: Worker, project: nat, short: nat) {
    w.at.Reserved? && w.at.i < |w.events| && w.events[w.at.i].key.project == project && w.at.short == short
  }

  predicate Issued(c: map<nat, nat>, project: nat, short: nat) {
    project in c && short <= c[project]
  }

  /** Every short id in use is at most its project's counter, and no two issues of a project share one. */
  ghost predicate ShortsDistinct(t: Tables) {
    && (forall a :: a in t.issues ==> Issued(t.counter, t.issues[a].project, t.issues[a].short))
    && (forall a, b :: a in t.issues && b in t.issues && a != b ==> t.issues[a] != t.issues[b])
  }

  /** A reserved short id is neither in use nor reserved twice. */
  ghost predicate ShortInv(s: State) {
    && ShortsDistinct(s.tables)
    && (forall k :: 0 <= k < |s.workers| ==> Reservation(s.tables, s.workers[k]))
    && (forall j, k :: 0 <= j < k < |s.workers| ==> Apart(s.workers[j], s.workers[k]))
  }

  predicate Reservation(t: Tables, w: Worker) {
    w.at.Reserved? && w.at.i < |w.events| ==>
      && Issued(t.counter, w.events[w.at.i].key.project, w.at.short)
      && forall a :: a in t.issues ==> t.issues[a] != Issue(w.events[w.at.i].key.project, w.at.short)
  }

  predicate Apart(v: Worker, w: Worker) {
    v.at.Reserved? && v.at.i < |v.events| ==> !Claims(w, v.events[v.at.i].key.project, v.at.short)
  }

  lemma ReserveKeepsShorts(s: State, t: State, k: nat)
    requires ShortInv(s) && StepOf(s, t, k) && Reserve(s.tables, s.workers[k], t.tables, t.workers[k])
    ensures ShortInv(t)
  {
  }

  lemma InsertKeepsShorts(s: State, t: State, k: nat, id: nat)
    requires ShortInv(s) && StepOf(s, t, k) && Insert(s.tables, s.workers[k], t.tables, t.workers[k], id)
    ensures ShortInv(t)
  {
  }

  lemma QuietKeepsShorts(s: State, t: State, k: nat)
    requires ShortInv(s) && StepOf(s, t, k)
    requires t.tables.issues == s.tables.issues && t.tables.counter == s.tables.counter && !t.workers[k].at.Reserved?
    ensures ShortInv(t)
  {
  }

  lemma StepKeepsShorts(s: State, t: State)
    requires ShortInv(s) && Step(s, t)
    ensures ShortInv(t)
  {
    var k: nat :| StepOf(s, t, k);
    if id :| Insert(s.tables, s.workers[k], t.tables, t.workers[k], id) {
      InsertKeepsShorts(s, t, k, id);
    } else if Reserve(s.tables, s.workers[k], t.tables, t.workers[k]) {
      ReserveKeepsShorts(s, t, k);
    } else {
      QuietKeepsShorts(s, t, k);
    }
  }

  lemma {:induction false} RunKeepsShorts(ss: seq<State>, i: nat)
    requires Run(ss) && ShortInv(ss[0]) && i < |ss|
    ensures ShortInv(ss[i])
  {
    if i > 0 {
      RunKeepsShorts(ss, i - 1);
      StepKeepsShorts(ss[i - 1], ss[i]);
    }
  }

  /** Two issues of one project never share a short id at any point of any run, whichever workers
      lose their insert and waste the value they had reserved. */
  lemma ShortIdsDistinct(ss: seq<State>, i: nat)
    requires Run(ss) && ShortsDistinct(ss[0].tables) && i < |ss|
    ensures ShortsDistinct(ss[i].tables)
  {
    assert ShortInv(ss[0]);
    RunKeepsShorts(ss, i);
  }

  /** The project's counter, zero before its first issue. */
  function CounterOf(t: Tables, project: nat): nat {
    if project in t.counter then t.counter[project] else 0
  }

  /** In this step a worker takes a short id for the project. */
  ghost predicate Reserves(s: State, t: State, project: nat) {
    exists k :: 0 <= k < |s.workers| && k < |t.workers| && s.workers[k].at.At? && t.workers[k].at.Reserved?
                && s.workers[k].at.i < |s.workers[k].events| && s.workers[k].events[s.workers[k].at.i].key.project == project
  }

  ghost function Reservations(ss: seq<State>, project: nat): nat {
    if |ss| < 2 then 0
    else Reservations(ss[..|ss| - 1], project) + if Reserves(ss[|ss| - 2], ss[|ss| - 1], project) then 1 else 0
  }

  lemma StepCounts(s: State, t: State, project: nat)
    requires Step(s, t)
    ensures CounterOf(t.tables, project) == CounterOf(s.tables, project) + if Reserves(s, t, project) then 1 else 0
  {
    var k: nat :| StepOf(s, t, k);
    WorkerCounts(s.tables, s.workers[k], t.tables, t.workers[k], project);
    forall j | 0 <= j < |s.workers| && j != k ensures t.workers[j] == s.workers[j] {}
  }

  lemma WorkerCounts(t: Tables, w: Worker, t2: Tables, w2: Worker, project: nat)
    requires WorkerStep(t, w, t2, w2)
    ensures var takes := w.at.At? && w2.at.Reserved? && w.at.i < |w.events| && w.events[w.at.i].key.project == project;
            CounterOf(t2, project) == (CounterOf(t, project) + if takes then 1 else 0) && (takes ==> w2.at.short == CounterOf(t2, project))
  {
  }

  /** Short ids are handed out one by one: a project's counter grows by exactly the number of
      reservations, whether their inserts win or lose. */
  lemma {:induction false} CounterCountsReservations(ss: seq<State>, project: nat)
    requires Run(ss)
    ensures CounterOf(ss[|ss| - 1].tables, project) == CounterOf(ss[0].tables, project) + Reservations(ss, project)
  {
    if |ss| > 1 {
      var init := ss[..|ss| - 1];
      assert Run(init) by { assert init[0] == ss[0]; }
      CounterCountsReservations(init, project);
      assert init[|init| - 1] == ss[|ss| - 2];
      StepCounts(ss[|ss| - 2], ss[|ss| - 1], project);
    }
  }

  // ----- every run can be completed -----

  function Left(w: Worker): nat {
    match w.at
    case Fetching => 3 * |w.events| + 3
    case At(i) => if i <= |w.events| then 3 * (|w.events| - i) + 2 else 0
    case Reserved(i, _) => if i < |w.events| then 3 * (|w.events| - i) + 1 else 0
    case Lost(i) => if i < |w.events| then 3 * (|w.events| - i) else 0
    case Saving(_) => 1
    case Saved(_, _) => 0
  }

  function AllLeft(ws: seq<Worker>): nat {
    if ws == [] then 0 else AllLeft(ws[..|ws| - 1]) + Left(ws[|ws| - 1])
  }

  lemma {:induction false} LeftUpdate(ws: seq<Worker>, k: nat, w: Worker)
    requires k < |ws|
    ensures AllLeft(ws[k := w]) == AllLeft(ws) - Left(ws[k]) + Left(w)
  {
    var n := |ws| - 1;
    if k == n {
      assert ws[k := w][..n] == ws[..n];
    } else {
      assert ws[k := w][..n] == ws[..n][k := w];
      LeftUpdate(ws[..n], k, w);
    }
  }

  lemma WorkerShrinks(t: Tables, w: Worker, t2: Tables, w2: Worker)
    requires WorkerStep(t, w, t2, w2)
    ensures Left(w2) < Left(w)
  {
  }

  /** Every step leaves less to do, so no run is longer than three steps an event and three a worker. */
  lemma StepsAreBounded(s: State, t: State)
    requires Step(s, t)
    ensures AllLeft(t.workers) < AllLeft(s.workers)
  {
    var k: nat :| StepOf(s, t, k);
    WorkerShrinks(s.tables, s.workers[k], t.tables, t.workers[k]);
    LeftUpdate(s.workers, k, t.workers[k]);
  }

  lemma WorkerMoves(t: Tables, w: Worker) returns (t2: Tables, w2: Worker)
    requires WorkerInv(w, t.hashes) && !w.at.Saved?
    ensures WorkerStep(t, w, t2, w2)
  {
    t2, w2 := t, w;
    if w.at == Fetching {
      w2 := w.(known := map[], at := At(0));
    } else if w.at.At? && w.at.i == |w.events| {
      w2 := w.(at := Saving(Aggregate(w.events).Keys - t.index.Keys));
    } else if w.at.Saving? {
      t2, w2 := t.(index := Applied(t.index, Aggregate(w.events), w.at.missing)), w.(at := Saved(w.at.missing, w.at.missing * t.index.Keys));
    } else {
      var i := w.at.i;
      var key := w.events[i].key;
      if w.at.Lost? {
        w2 := w.(events := SetIssue(w.events, i, t.hashes[key]), at := At(i + 1));
      } else if w.at.Reserved? && key in t.hashes {
        w2 := w.(at := Lost(i));
      } else if w.at.Reserved? {
        var id := FreshId(t.issues.Keys + t.index.Keys);
        assert id !in t.issues.Keys + t.index.Keys;
        t2, w2 := Inserted(t, w.events[i], w.at.short, id), w.(events := Made(w.events, i, id), at := At(i + 1));
        assert Insert(t, w, t2, w2, id);
      } else if key in w.known {
        w2 := w.(events := SetIssue(w.events, i, w.known[key]), at := At(i + 1));
      } else if w.events[i].issue.Some? {
        w2 := w.(at := At(i + 1));
      } else {
        t2, w2 := t.(counter := t.counter[key.project := NextShort(t, key.project)]), w.(at := Reserved(i, NextShort(t, key.project)));
      }
    }
  }

  /** Until it has saved, a worker can always take its next step, whatever the others have done. */
  lemma NeverBlocked(s: State, k: nat) returns (t: State)
    requires Inv(s) && k < |s.workers| && !s.workers[k].at.Saved?
    ensures StepOf(s, t, k)
  {
    var t2, w2 := WorkerMoves(s.tables, s.workers[k]);
    t := State(t2, s.workers[k := w2]);
  }

  // ----- which starting points conserve every count -----

  ghost function Steps(): (State, State) -> bool {
    (s: State, t: State) => Step(s, t)
  }

  predicate AllRows(s: State) {
    forall k :: 0 <= k < |s.workers| ==> RowsInv(s.workers[k], s.tables.index)
  }

  /** The issue is there without its row, and so are the starting hashes. */
  ghost predicate Rowless(s: State, hashes0: map<Key, nat>, id: nat) {
    Inv(s) && AllRows(s) && id in s.tables.issues && id !in s.tables.index && Submap(hashes0, s.tables.hashes)
  }

  lemma StepKeepsRows(s: State, t: State)
    requires Inv(s) && AllRows(s) && Step(s, t)
    ensures AllRows(t)
  {
    var k: nat :| StepOf(s, t, k);
    WorkerKeepsRows(s.tables, s.workers[k], t.tables, t.workers[k]);
  }

  lemma EarlyStep(t: Tables, w: Worker, t2: Tables, w2: Worker, id: nat)
    requires WorkerStep(t, w, t2, w2) && !w.at.Saving? && id in t.issues && id !in t.index
    ensures id in t2.issues && id !in t2.index && !w2.at.Saved?
    ensures w2.at.Saving? ==> Look(t, w, t2, w2)
  {
  }

  /** One step of a worker that has not looked yet leaves the row out, or finds it missing. */
  lemma StepToLook(s: State, k: nat, hashes0: map<Key, nat>, id: nat) returns (t: State)
    requires Rowless(s, hashes0, id) && k < |s.workers| && !s.workers[k].at.Saving? && !s.workers[k].at.Saved?
    requires HasEventFor(s.workers[k], hashes0, id)
    ensures Step(s, t) && StepOf(s, t, k) && Rowless(t, hashes0, id) && HasEventFor(t.workers[k], hashes0, id)
    ensures !t.workers[k].at.Saved? && (t.workers[k].at.Saving? ==> Finds(id)(t.workers[k]))
    ensures Left(t.workers[k]) < Left(s.workers[k])
  {
    t := NeverBlocked(s, k);
    StepKeeps(s, t);
    StepKeepsRows(s, t);
    EarlyStep(s.tables, s.workers[k], t.tables, t.workers[k], id);
    StepSameBatch(s.tables, s.workers[k], t.tables, t.workers[k]);
    StillHasEvent(s.workers[k], t.workers[k], hashes0, id);
    WorkerShrinks(s.tables, s.workers[k], t.tables, t.workers[k]);
    if t.workers[k].at.Saving? { LookFinds(s.tables, s.workers[k], t.tables, t.workers[k], hashes0, id); }
  }

  lemma StillHasEvent(w: Worker, v: Worker, hashes: map<Key, nat>, id: nat)
    requires SameBatch(w.events, v.events) && HasEventFor(w, hashes, id)
    ensures HasEventFor(v, hashes, id)
  {
    var i :| 0 <= i < |w.events| && w.events[i].key in hashes && hashes[w.events[i].key] == id;
    assert v.events[i].key == w.events[i].key;
  }

  lemma LookFinds(t: Tables, w: Worker, t2: Tables, w2: Worker, hashes0: map<Key, nat>, id: nat)
    requires WorkerInv(w, t.hashes) && RowsInv(w, t.index) && Submap(hashes0, t.hashes) && id !in t.index
    requires Look(t, w, t2, w2) && HasEventFor(w, hashes0, id)
    ensures Finds(id)(w2)
  {
    var i :| 0 <= i < |w.events| && w.events[i].key in hashes0 && hashes0[w.events[i].key] == id;
    assert w.events[i].issue == Some(id);
    AggregateHas(w.events, i);
  }

  /** Alone, the worker goes on until its statement finds the row missing. */
  lemma {:induction false} ReachLook(s: State, k: nat, hashes0: map<Key, nat>, id: nat) returns (ss: seq<State>)
    requires Rowless(s, hashes0, id) && k < |s.workers| && !s.workers[k].at.Saving? && !s.workers[k].at.Saved?
    requires HasEventFor(s.workers[k], hashes0, id)
    ensures Chain(ss, Steps()) && ss[0] == s
    ensures var t := ss[|ss| - 1]; Rowless(t, hashes0, id) && |t.workers| == |s.workers| && Finds(id)(t.workers[k])
                                   && forall j :: 0 <= j < |s.workers| && j != k ==> t.workers[j] == s.workers[j]
    decreases Left(s.workers[k])
  {
    var t := StepToLook(s, k, hashes0, id);
    if t.workers[k].at.Saving? {
      ss := [s, t];
    } else {
      var rest := ReachLook(t, k, hashes0, id);
      ChainJoins([s, t], rest, Steps());
      ss := Joined([s, t], rest);
    }
  }

  lemma StillFinds(t: Tables, w: Worker, t2: Tables, w2: Worker, id: nat)
    requires WorkerStep(t, w, t2, w2) && Finds(id)(w)
    ensures Finds(id)(w2)
  {
  }

  /** Every run can be completed, and who has found the row missing has done so. */
  lemma {:induction false} Completed(s: State, id: nat) returns (ss: seq<State>)
    requires Inv(s)
    ensures Chain(ss, Steps()) && ss[0] == s
    ensures var t := ss[|ss| - 1]; AllSaved(t) && |t.workers| == |s.workers|
                                   && forall j :: 0 <= j < |s.workers| && Finds(id)(s.workers[j]) ==> Finds(id)(t.workers[j])
    decreases AllLeft(s.workers)
  {
    if k :| 0 <= k < |s.workers| && !s.workers[k].at.Saved? {
      var t := NeverBlocked(s, k);
      StepKeeps(s, t);
      StepsAreBounded(s, t);
      if Finds(id)(s.workers[k]) { StillFinds(s.tables, s.workers[k], t.tables, t.workers[k], id); }
      var rest := Completed(t, id);
      ChainJoins([s, t], rest, Steps());
      ss := Joined([s, t], rest);
    } else {
      ss := [s];
    }
  }

  lemma {:induction false} TwoOf(ws: seq<Worker>, p: Worker -> bool, j: nat, k: nat)
    requires j < k < |ws| && p(ws[j]) && p(ws[k])
    ensures HowMany(ws, p) >= 2
  {
    if k < |ws| - 1 {
      TwoOf(ws[..|ws| - 1], p, j, k);
    } else {
      SomeFinds(ws[..k], p);
      assert ws[..k][j] == ws[j];
    }
  }

  lemma {:induction false} PickTwo(ws: seq<Worker>, p: Worker -> bool) returns (j: nat, k: nat)
    requires HowMany(ws, p) >= 2
    ensures j < k < |ws| && p(ws[j]) && p(ws[k])
  {
    var n := |ws| - 1;
    if HowMany(ws[..n], p) >= 2 {
      j, k := PickTwo(ws[..n], p);
    } else {
      SomeFinds(ws[..n], p);
      j, k :| 0 <= j < n && p(ws[..n][j]) && k == n;
    }
  }

  /** Two workers with events for an issue without a row both look before either saves. */
  lemma LosingRun(s: State, id: nat) returns (ss: seq<State>)
    requires Ready(s) && id !in s.tables.index && HowMany(s.workers, Contends(s.tables.hashes, id)) >= 2
    ensures Run(ss) && ss[0] == s && AllSaved(ss[|ss| - 1]) && HowMany(ss[|ss| - 1].workers, Finds(id)) >= 2
  {
    var hashes0 := s.tables.hashes;
    var j, k := PickTwo(s.workers, Contends(hashes0, id));
    assert id in s.tables.issues;
    var first := ReachLook(s, j, hashes0, id);
    var second := ReachLook(first[|first| - 1], k, hashes0, id);
    var third := Completed(second[|second| - 1], id);
    ChainJoins(first, second, Steps());
    ChainJoins(Joined(first, second), third, Steps());
    ss := Joined(Joined(first, second), third);
    TwoOf(ss[|ss| - 1].workers, Finds(id), j, k);
    forall i | 0 <= i < |ss| - 1 ensures Step(ss[i], ss[i + 1]) { assert Steps()(ss[i], ss[i + 1]); }
  }

  ghost predicate AlwaysConserved(s: State, id: nat) {
    forall ss: seq<State>, i :: Run(ss) && ss[0] == s && 0 <= i < |ss| && AllSaved(ss[i]) ==> Conserved(s, ss[i], id)
  }

  /** The exact condition before the run: an issue's count, last_seen and release come out right in
      every interleaving if and only if it has its index row or at most one of the batches holds
      events for it. */
  lemma ConservedExactly(s: State, id: nat)
    requires Ready(s)
    ensures AlwaysConserved(s, id) <==> id in s.tables.index || HowMany(s.workers, Contends(s.tables.hashes, id)) <= 1
  {
    if id in s.tables.index || HowMany(s.workers, Contends(s.tables.hashes, id)) <= 1 {
      forall ss: seq<State>, i | Run(ss) && ss[0] == s && 0 <= i < |ss| && AllSaved(ss[i]) ensures Conserved(s, ss[i], id) {
        FindersContend(ss, i, id);
        CountsConserved(ss, i, id);
      }
    } else {
      var ss := LosingRun(s, id);
      CountsConserved(ss, |ss| - 1, id);
    }
  }
}
