/** Which release an issue's row ends with: what one batch makes of its events, what one worker's
    statements make of the row, and what is left when all have saved. */
module IngestReleases {
  import opened Names
  import opened Sequences
  import opened IngestRace

  // ----- one batch -----

  /** An event for the issue that did not create it. */
  predicate Pending(e: Processing, id: nat) {
    e.issue == Some(id) && !e.made
  }

  /** Received later than every such event before it. */
  predicate NewLatest(es: seq<Processing>, id: nat, i: nat)
    requires i < |es|
  {
    Pending(es[i], id) && forall j :: 0 <= j < i && Pending(es[j], id) ==> es[j].received < es[i].received
  }

  predicate NamesAsLatest(es: seq<Processing>, id: nat, i: nat)
    requires i < |es|
  {
    NewLatest(es, id, i) && es[i].release.Some?
  }

  predicate LastToName(es: seq<Processing>, id: nat, i: nat)
    requires i < |es|
  {
    NamesAsLatest(es, id, i) && forall k :: i < k < |es| ==> !NamesAsLatest(es, id, k)
  }

  /** No new latest event names a release, and this is the first of the others that does. */
  predicate FirstToName(es: seq<Processing>, id: nat, i: nat)
    requires i < |es|
  {
    && Pending(es[i], id) && es[i].release.Some?
    && (forall k :: 0 <= k < |es| ==> !NamesAsLatest(es, id, k))
    && forall j :: 0 <= j < i && Pending(es[j], id) ==> es[j].release.None?
  }

  /** The entry's time is the latest of its events'. */
  lemma {:induction false} EntryTime(es: seq<Processing>, id: nat)
    ensures id in Aggregate(es) <==> exists i :: 0 <= i < |es| && Pending(es[i], id)
    ensures id in Aggregate(es) ==> forall i :: 0 <= i < |es| && Pending(es[i], id) ==> es[i].received <= Aggregate(es)[id].lastSeen
    ensures id in Aggregate(es) ==> exists i :: 0 <= i < |es| && NewLatest(es, id, i) && es[i].received == Aggregate(es)[id].lastSeen
  {
    if es != [] {
      var n := |es| - 1;
      EntryTime(es[..n], id);
      forall i | 0 <= i < n ensures NewLatest(es[..n], id, i) == NewLatest(es, id, i) { SamePrefix(es, n, id, i); }
      if id in Aggregate(es[..n]) {
        var i :| 0 <= i < n && NewLatest(es[..n], id, i) && es[..n][i].received == Aggregate(es[..n])[id].lastSeen;
        assert NewLatest(es, id, i);
        if Pending(es[n], id) && es[i].received < es[n].received { LaterIsLatest(es, id); }
      } else if Pending(es[n], id) {
        LaterIsLatest(es, id);
      }
    }
  }

  lemma SamePrefix(es: seq<Processing>, n: nat, id: nat, i: nat)
    requires i < n <= |es|
    ensures NewLatest(es[..n], id, i) <==> NewLatest(es, id, i)
  {
    forall j | 0 <= j <= i ensures es[..n][j] == es[j] {}
  }

  lemma LaterIsLatest(es: seq<Processing>, id: nat)
    requires es != [] && Pending(es[|es| - 1], id)
    requires id in Aggregate(es[..|es| - 1]) ==> Aggregate(es[..|es| - 1])[id].lastSeen < es[|es| - 1].received
    requires var init := es[..|es| - 1];
             if id in Aggregate(init) then forall i :: 0 <= i < |init| && Pending(init[i], id) ==> init[i].received <= Aggregate(init)[id].lastSeen
             else forall i :: 0 <= i < |init| ==> !Pending(init[i], id)
    ensures NewLatest(es, id, |es| - 1)
  {
    forall j | 0 <= j < |es| - 1 && Pending(es[j], id) ensures es[j].received < es[|es| - 1].received {
      assert es[..|es| - 1][j] == es[j];
    }
  }

  /** A new event for the issue is the latest exactly if the entry so far is older. */
  lemma LatestExactly(es: seq<Processing>, id: nat)
    requires es != [] && Pending(es[|es| - 1], id)
    ensures var init := es[..|es| - 1];
            NewLatest(es, id, |es| - 1) <==> (id in Aggregate(init) ==> Aggregate(init)[id].lastSeen < es[|es| - 1].received)
  {
    var init := es[..|es| - 1];
    EntryTime(init, id);
    if id in Aggregate(init) ==> Aggregate(init)[id].lastSeen < es[|es| - 1].received {
      LaterIsLatest(es, id);
    } else {
      var i :| 0 <= i < |init| && NewLatest(init, id, i) && init[i].received == Aggregate(init)[id].lastSeen;
      assert Pending(es[i], id) && es[i].received >= es[|es| - 1].received;
    }
  }

  /** The release is that of the last new latest event naming one; if there is none, that of the
      first event naming one. */
  lemma {:induction false} EntryRelease(es: seq<Processing>, id: nat, i: nat)
    requires i < |es| && (LastToName(es, id, i) || FirstToName(es, id, i))
    ensures id in Aggregate(es) && Aggregate(es)[id].release == es[i].release
    decreases |es|
  {
    var n := |es| - 1;
    if i < n {
      NamersBefore(es, id, i);
      EntryRelease(es[..n], id, i);
      assert es[..n][i] == es[i] && es[i].release.Some? && !NamesAsLatest(es, id, n);
      if Pending(es[n], id) { LatestExactly(es, id); }
    } else {
      LastEntryNames(es, id);
    }
  }

  /** Without the last event, the others are what they were. */
  lemma NamersBefore(es: seq<Processing>, id: nat, i: nat)
    requires i < |es| - 1 && (LastToName(es, id, i) || FirstToName(es, id, i))
    ensures var init := es[..|es| - 1]; LastToName(init, id, i) || FirstToName(init, id, i)
  {
    var init := es[..|es| - 1];
    forall k | 0 <= k < |init| ensures NamesAsLatest(init, id, k) == NamesAsLatest(es, id, k) && init[k] == es[k] { SamePrefix(es, |init|, id, k); }
    if LastToName(es, id, i) {
      assert LastToName(init, id, i);
    } else {
      assert FirstToName(init, id, i);
    }
  }

  lemma LastEntryNames(es: seq<Processing>, id: nat)
    requires es != [] && (LastToName(es, id, |es| - 1) || FirstToName(es, id, |es| - 1))
    ensures id in Aggregate(es) && Aggregate(es)[id].release == es[|es| - 1].release
  {
    var init := es[..|es| - 1];
    LatestExactly(es, id);
    if !NewLatest(es, id, |es| - 1) {
      forall k | 0 <= k < |init| ensures init[k] == es[k] {}
      EntryUnnamed(init, id);
    }
  }

  /** Without an event that names one it has none. */
  lemma {:induction false} EntryUnnamed(es: seq<Processing>, id: nat)
    requires forall i :: 0 <= i < |es| && Pending(es[i], id) ==> es[i].release.None?
    ensures id in Aggregate(es) ==> Aggregate(es)[id].release == None
  {
    if es != [] {
      forall i | 0 <= i < |es| - 1 ensures es[..|es| - 1][i] == es[i] {}
      EntryUnnamed(es[..|es| - 1], id);
    }
  }

  /** In particular, if the first event received at the entry's time names a release, that is it. */
  lemma LatestRelease(es: seq<Processing>, id: nat, i: nat)
    requires i < |es| && Pending(es[i], id) && id in Aggregate(es) && es[i].received == Aggregate(es)[id].lastSeen
    requires forall j :: 0 <= j < i && Pending(es[j], id) ==> es[j].received != es[i].received
    ensures es[i].release.Some? ==> Aggregate(es)[id].release == es[i].release
  {
    EntryTime(es, id);
    if es[i].release.Some? {
      assert NamesAsLatest(es, id, i);
      forall k | i < k < |es| ensures !NamesAsLatest(es, id, k) {
        assert Pending(es[k], id) ==> es[k].received <= es[i].received;
      }
      EntryRelease(es, id, i);
    }
  }

  /** It is always one that an event of the batch names. */
  lemma {:induction false} EntryNamed(es: seq<Processing>, id: nat) returns (i: nat)
    requires id in Aggregate(es) && Aggregate(es)[id].release.Some?
    ensures i < |es| && Pending(es[i], id) && es[i].release == Aggregate(es)[id].release
  {
    var n := |es| - 1;
    if Pending(es[n], id) && es[n].release == Aggregate(es)[id].release {
      i := n;
    } else {
      i := EntryNamed(es[..n], id);
    }
  }

  // ----- one worker's steps -----

  /** The update of a batch that names a release replaces the row's; one that names none keeps it. */
  lemma SavedRelease(t: Tables, w: Worker, t2: Tables, w2: Worker, id: nat, i: nat)
    requires Save(t, w, t2, w2) && i < |w.events| && id !in w2.at.dropped
    requires LastToName(w.events, id, i) || FirstToName(w.events, id, i)
    requires id in w.at.missing ==> id !in t.index
    ensures id in t2.index && t2.index[id].release == w.events[i].release
  {
    EntryRelease(w.events, id, i);
  }

  lemma SavedWithoutRelease(t: Tables, w: Worker, t2: Tables, w2: Worker, id: nat)
    requires Save(t, w, t2, w2) && id in t.index
    requires id in w2.at.dropped || forall i :: 0 <= i < |w.events| && Pending(w.events[i], id) ==> w.events[i].release.None?
    requires RowsInv(w, t.index)
    ensures id in t2.index && t2.index[id].release == t.index[id].release
  {
    if id !in w2.at.dropped { EntryUnnamed(w.events, id); }
  }

  predicate NamesIn(es: seq<Processing>, hashes: map<Key, nat>, id: nat, release: Option<nat>) {
    release.Some? && exists n :: 0 <= n < |es| && es[n].key in hashes && hashes[es[n].key] == id && es[n].release == release
  }

  /** Its events credit the issue with no release they did not before, and the row keeps the one it has. */
  predicate SameReleases(t: Tables, w: Worker, t2: Tables, w2: Worker, id: nat) {
    && Credit(w2, id, Releasing) == Credit(w, id, Releasing)
    && (id in t.index ==> id in t2.index && t2.index[id].release == t.index[id].release)
  }

  lemma SaveReleases(t: Tables, w: Worker, t2: Tables, w2: Worker, id: nat)
    requires WorkerInv(w, t.hashes) && RowsInv(w, t.index) && Save(t, w, t2, w2)
    ensures SameReleases(t, w, t2, w2, id) || (id in t2.index && NamesIn(w2.events, t2.hashes, id, t2.index[id].release))
  {
    AggregateCounts(w.events, id, 0);
    if id in Aggregate(w.events) && id !in w2.at.dropped && Aggregate(w.events)[id].release.Some? {
      var i := EntryNamed(w.events, id);
      assert t2.index[id].release == w.events[i].release;
      assert w2.events[i].key in t2.hashes && t2.hashes[w2.events[i].key] == id;
    }
  }

  lemma InsertReleases(t: Tables, w: Worker, t2: Tables, w2: Worker, id: nat, made: nat)
    requires WorkerInv(w, t.hashes) && Insert(t, w, t2, w2, made)
    ensures SameReleases(t, w, t2, w2, id) || (id in t2.index && NamesIn(w2.events, t2.hashes, id, t2.index[id].release))
  {
    var i := w.at.i;
    MadeCredits(w.events, i, made, id, Releasing);
    assert w2.events[i].key == w.events[i].key && w2.events[i].release == w.events[i].release;
  }

  lemma SetReleases(w: Worker, to: nat, id: nat, hashes: map<Key, nat>)
    requires (w.at.At? || w.at.Lost?) && w.at.i < |w.events| && Settled(w.events, w.at.i, hashes)
    requires w.events[w.at.i].key in hashes && to == hashes[w.events[w.at.i].key]
    ensures Credited(SetIssue(w.events, w.at.i, to), false, id, Releasing) == Credited(w.events, false, id, Releasing)
  {
    CreditedUpdate(w.events, w.at.i, w.events[w.at.i].(issue := Some(to)), false, id, Releasing);
  }

  lemma WorkerReleases(t: Tables, w: Worker, t2: Tables, w2: Worker, id: nat)
    requires WorkerInv(w, t.hashes) && RowsInv(w, t.index) && WorkerStep(t, w, t2, w2)
    ensures SameReleases(t, w, t2, w2, id) || (id in t2.index && NamesIn(w2.events, t2.hashes, id, t2.index[id].release))
  {
    if made :| Insert(t, w, t2, w2, made) {
      InsertReleases(t, w, t2, w2, id, made);
    } else if Save(t, w, t2, w2) {
      SaveReleases(t, w, t2, w2, id);
    } else if Known(t, w, t2, w2) || ReadBack(t, w, t2, w2) {
      SetReleases(w, t.hashes[w.events[w.at.i].key], id, t.hashes);
    }
  }

  // ----- whole runs -----

  /** Some event of some batch that belongs to the issue names this release. */
  ghost predicate NamedBy(ws: seq<Worker>, hashes: map<Key, nat>, id: nat, release: Option<nat>) {
    exists k :: 0 <= k < |ws| && NamesIn(ws[k].events, hashes, id, release)
  }

  lemma StillNames(es: seq<Processing>, fs: seq<Processing>, hashes: map<Key, nat>, more: map<Key, nat>, id: nat, release: Option<nat>)
    requires SameBatch(es, fs) && Submap(hashes, more) && NamesIn(es, hashes, id, release)
    ensures NamesIn(fs, more, id, release)
  {
    var n :| 0 <= n < |es| && es[n].key in hashes && hashes[es[n].key] == id && es[n].release == release;
    assert SameReceipt(es[n], fs[n]);
  }

  ghost predicate ReleaseNamed(s: State, id: nat) {
    id in s.tables.index && Total(s.workers, id, Releasing) > 0 ==> NamedBy(s.workers, s.tables.hashes, id, s.tables.index[id].release)
  }

  lemma StepStillNamed(s: State, t: State, id: nat, release: Option<nat>)
    requires Inv(s) && Step(s, t) && NamedBy(s.workers, s.tables.hashes, id, release)
    ensures NamedBy(t.workers, t.tables.hashes, id, release)
  {
    StepKeeps(s, t);
    var k :| 0 <= k < |s.workers| && NamesIn(s.workers[k].events, s.tables.hashes, id, release);
    var j: nat :| StepOf(s, t, j);
    if j == k { StepSameBatch(s.tables, s.workers[k], t.tables, t.workers[k]); }
    StillNames(s.workers[k].events, t.workers[k].events, s.tables.hashes, t.tables.hashes, id, release);
  }

  lemma StepReleaseNamed(s: State, t: State, id: nat)
    requires Inv(s) && AllRows(s) && Step(s, t) && ReleaseNamed(s, id)
    requires Total(s.workers, id, Releasing) > 0 ==> id in s.tables.index
    ensures ReleaseNamed(t, id)
  {
    var k: nat :| StepOf(s, t, k);
    TotalUpdate(s.workers, k, t.workers[k], id, Releasing);
    WorkerReleases(s.tables, s.workers[k], t.tables, t.workers[k], id);
    if SameReleases(s.tables, s.workers[k], t.tables, t.workers[k], id) && Total(t.workers, id, Releasing) > 0 {
      StepStillNamed(s, t, id, s.tables.index[id].release);
    }
  }

  lemma {:induction false} RunReleaseNamed(ss: seq<State>, i: nat, id: nat)
    requires Run(ss) && i < |ss|
    ensures ReleaseNamed(ss[i], id)
  {
    if i == 0 {
      FreshTotal(ss[0].workers, id, Releasing);
    } else {
      RunReleaseNamed(ss, i - 1, id);
      RunKeeps(ss, i - 1);
      RunKeepsRows(ss, i - 1);
      RunBalances(ss, i - 1, id, 0);
      StepReleaseNamed(ss[i - 1], ss[i], id);
    }
  }

  lemma {:induction false} HitNames(es: seq<Processing>, hashes: map<Key, nat>, id: nat)
    ensures Hits(es, hashes, id, Releasing) > 0 <==> exists release :: NamesIn(es, hashes, id, release)
  {
    if es != [] {
      var n := |es| - 1;
      HitNames(es[..n], hashes, id);
      if release :| NamesIn(es[..n], hashes, id, release) {
        var m :| 0 <= m < n && es[..n][m].key in hashes && hashes[es[..n][m].key] == id && es[..n][m].release == release;
        assert es[m].release == release;
        assert NamesIn(es, hashes, id, release);
      }
      if release :| NamesIn(es, hashes, id, release) {
        var m :| 0 <= m < |es| && es[m].key in hashes && hashes[es[m].key] == id && es[m].release == release;
        if m < n { assert es[..n][m] == es[m]; assert NamesIn(es[..n], hashes, id, release); }
      } else if Hits(es, hashes, id, Releasing) > 0 {
        assert NamesIn(es, hashes, id, es[n].release);
      }
    }
  }

  lemma {:induction false} NamedHits(ws: seq<Worker>, hashes: map<Key, nat>, id: nat, release: Option<nat>)
    requires NamedBy(ws, hashes, id, release)
    ensures AllHits(ws, hashes, id, Releasing) > 0
  {
    var n := |ws| - 1;
    if NamesIn(ws[n].events, hashes, id, release) {
      HitNames(ws[n].events, hashes, id);
    } else {
      assert NamedBy(ws[..n], hashes, id, release) by {
        var k :| 0 <= k < |ws| && NamesIn(ws[k].events, hashes, id, release);
        assert ws[..n][k] == ws[k];
      }
      NamedHits(ws[..n], hashes, id, release);
    }
  }

  /** When all have saved and at most one worker found the row missing, the row's release is one that
      the run's events for the issue name, if any of them names one: what the row named before never
      outlives it. So if they all name the same, the row names that. */
  lemma FinalReleaseIsNamed(ss: seq<State>, i: nat, id: nat, some: Option<nat>)
    requires Run(ss) && i < |ss| && AllSaved(ss[i]) && HowMany(ss[i].workers, Finds(id)) <= 1
    requires NamedBy(ss[0].workers, ss[i].tables.hashes, id, some)
    ensures id in ss[i].tables.index && NamedBy(ss[0].workers, ss[i].tables.hashes, id, ss[i].tables.index[id].release)
    ensures (forall r :: NamedBy(ss[0].workers, ss[i].tables.hashes, id, r) ==> r == some) ==> ss[i].tables.index[id].release == some
  {
    DropsAtTheEnd(ss, i, id);
    RunHits(ss, i, id, Releasing);
    NamedHits(ss[0].workers, ss[i].tables.hashes, id, some);
    RunReleaseNamed(ss, i, id);
    RunBalances(ss, i, id, 0);
    NamedAtStart(ss, i, id, ss[i].tables.index[id].release);
  }

  lemma NamedAtStart(ss: seq<State>, i: nat, id: nat, release: Option<nat>)
    requires Run(ss) && i < |ss| && NamedBy(ss[i].workers, ss[i].tables.hashes, id, release)
    ensures NamedBy(ss[0].workers, ss[i].tables.hashes, id, release)
  {
    RunLength(ss, i);
    var k :| 0 <= k < |ss[i].workers| && NamesIn(ss[i].workers[k].events, ss[i].tables.hashes, id, release);
    RunSameBatch(ss, i, k);
    SameBatchBack(ss[0].workers[k].events, ss[i].workers[k].events);
    StillNames(ss[i].workers[k].events, ss[0].workers[k].events, ss[i].tables.hashes, ss[i].tables.hashes, id, release);
  }

  lemma SameBatchBack(es: seq<Processing>, fs: seq<Processing>)
    requires SameBatch(es, fs)
    ensures SameBatch(fs, es)
  {
    forall i | 0 <= i < |es| ensures SameReceipt(fs[i], es[i]) { assert SameReceipt(es[i], fs[i]); }
  }
}
