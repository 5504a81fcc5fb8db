/** Per-batch tallies added to running tables: the hourly project and issue counts, the daily tag
    counts, and the transaction groups' running averages. */
module IngestStats {
  import opened Names
  import opened Numbers
  import opened Sequences

  const HOUR: int := 3_600_000
  const DAY: int := 86_400_000

  /** A tally's dictionary key: what is counted, and when. */
  datatype Slot = ProjectHour(date: int, project: nat)
                | IssueHour(date: int, issue: nat)
                | IssueDay(date: int, issue: nat, key: nat, value: nat)

  /** One count, for an organization; also the primary key of a table row. */
  datatype Hit = Hit(slot: Slot, org: nat)

  /** A dictionary entry, born as a zero count without an organization. */
  datatype Cell = Cell(count: nat, org: Option<nat>)

  datatype Event = Event(received: int, project: nat, org: nat, issue: Option<nat>, tags: seq<(nat, nat)>)

  function Hour(t: int): int { t - t % HOUR }

  function Day(t: int): int { t - t % DAY }

  // ----- the hits an event makes -----

  function ProjectHits(): Event -> seq<Hit> {
    (e: Event) => [Hit(ProjectHour(Hour(e.received), e.project), e.org)]
  }

  function IssueHits(): Event -> seq<Hit> {
    (e: Event) => if e.issue.Some? then [Hit(IssueHour(Hour(e.received), e.issue.value), e.org)] else []
  }

  function TagHit(e: Event, issue: nat): ((nat, nat)) -> seq<Hit> {
    (tag: (nat, nat)) => [Hit(IssueDay(Day(e.received), issue, tag.0, tag.1), e.org)]
  }

  function TagHits(): Event -> seq<Hit> {
    (e: Event) => if e.issue.Some? then Gather(e.tags, TagHit(e, e.issue.value)) else []
  }

  // ----- the in-memory tallies -----

  function Count(stats: map<Slot, Cell>, h: Hit): map<Slot, Cell> {
    stats[h.slot := Cell((if h.slot in stats then stats[h.slot].count else 0) + 1, Some(h.org))]
  }

  function Tally(hits: seq<Hit>): map<Slot, Cell> {
    if hits == [] then map[] else Count(Tally(hits[..|hits| - 1]), hits[|hits| - 1])
  }

  lemma TallyStep(hits: seq<Hit>, h: Hit)
    ensures Tally(hits + [h]) == Count(Tally(hits), h)
  {
    assert (hits + [h])[..|hits|] == hits;
  }

  /** `bucket["count"] += 1; bucket["organization_id"] = org` on a defaultdict. */
  method Increment(stats: map<Slot, Cell>, slot: Slot, org: nat) returns (next: map<Slot, Cell>)
    ensures next == Count(stats, Hit(slot, org))
  {
    var cell := if slot in stats then stats[slot] else Cell(0, None);
    cell := cell.(count := cell.count + 1);
    cell := cell.(org := Some(org));
    next := stats[slot := cell];
  }

  lemma ProjectStep(events: seq<Event>, i: nat)
    requires i < |events|
    ensures var e := events[i];
            Tally(Gather(events[..i + 1], ProjectHits())) ==
            Count(Tally(Gather(events[..i], ProjectHits())), Hit(ProjectHour(Hour(e.received), e.project), e.org))
  {
    GatherStep(events, ProjectHits(), i);
    TallyStep(Gather(events[..i], ProjectHits()), Hit(ProjectHour(Hour(events[i].received), events[i].project), events[i].org));
  }

  lemma IssueStep(events: seq<Event>, i: nat)
    requires i < |events|
    ensures var e, before := events[i], Tally(Gather(events[..i], IssueHits()));
            Tally(Gather(events[..i + 1], IssueHits())) ==
            if e.issue.Some? then Count(before, Hit(IssueHour(Hour(e.received), e.issue.value), e.org)) else before
  {
    var e := events[i];
    GatherStep(events, IssueHits(), i);
    if e.issue.Some? {
      TallyStep(Gather(events[..i], IssueHits()), Hit(IssueHour(Hour(e.received), e.issue.value), e.org));
    } else {
      assert Gather(events[..i], IssueHits()) + [] == Gather(events[..i], IssueHits());
    }
  }

  /** The statistics part of the main loop. */
  method TallyEvents(events: seq<Event>) returns (projects: map<Slot, Cell>, issues: map<Slot, Cell>)
    ensures projects == Tally(Gather(events, ProjectHits()))
    ensures issues == Tally(Gather(events, IssueHits()))
  {
    projects, issues := map[], map[];
    var i := 0;
    while i < |events|
      invariant 0 <= i <= |events|
      invariant projects == Tally(Gather(events[..i], ProjectHits()))
      invariant issues == Tally(Gather(events[..i], IssueHits()))
    {
      var e := events[i];
      ProjectStep(events, i);
      IssueStep(events, i);
      projects := Increment(projects, ProjectHour(Hour(e.received), e.project), e.org);
      if e.issue.Some? {
        issues := Increment(issues, IssueHour(Hour(e.received), e.issue.value), e.org);
      }
      i := i + 1;
    }
    assert events[..|events|] == events;
  }

  /** One event's tags. */
  method TallyOne(stats: map<Slot, Cell>, e: Event, issue: nat, ghost before: seq<Hit>) returns (next: map<Slot, Cell>)
    requires stats == Tally(before)
    ensures next == Tally(before + Gather(e.tags, TagHit(e, issue)))
  {
    next := stats;
    var i := 0;
    assert before + Gather(e.tags[..0], TagHit(e, issue)) == before;
    while i < |e.tags|
      invariant 0 <= i <= |e.tags|
      invariant next == Tally(before + Gather(e.tags[..i], TagHit(e, issue)))
    {
      ghost var hits := before + Gather(e.tags[..i], TagHit(e, issue));
      ghost var h := Hit(IssueDay(Day(e.received), issue, e.tags[i].0, e.tags[i].1), e.org);
      GatherStep(e.tags, TagHit(e, issue), i);
      assert before + Gather(e.tags[..i + 1], TagHit(e, issue)) == hits + [h];
      TallyStep(hits, h);
      next := Increment(next, IssueDay(Day(e.received), issue, e.tags[i].0, e.tags[i].1), e.org);
      i := i + 1;
    }
    assert e.tags[..|e.tags|] == e.tags;
  }

  method TallyTags(events: seq<Event>) returns (stats: map<Slot, Cell>)
    ensures stats == Tally(Gather(events, TagHits()))
  {
    stats := map[];
    var i := 0;
    while i < |events|
      invariant 0 <= i <= |events|
      invariant stats == Tally(Gather(events[..i], TagHits()))
    {
      GatherStep(events, TagHits(), i);
      if events[i].issue.Some? {
        stats := TallyOne(stats, events[i], events[i].issue.value, Gather(events[..i], TagHits()));
      } else {
        assert Gather(events[..i], TagHits()) + [] == Gather(events[..i], TagHits());
      }
      i := i + 1;
    }
    assert events[..|events|] == events;
  }

  // ----- the upsert -----

  predicate HasRow(stats: map<Slot, Cell>, h: Hit) {
    h.slot in stats && stats[h.slot].org == Some(h.org)
  }

  function Rows(stats: map<Slot, Cell>): set<Hit> {
    set s | s in stats && stats[s].org.Some? :: Hit(s, stats[s].org.value)
  }

  function Read(table: map<Hit, nat>, h: Hit): nat {
    if h in table then table[h] else 0
  }

  /** INSERT ... ON CONFLICT DO UPDATE SET count = count + EXCLUDED.count, one statement. */
  function Upserted(table: map<Hit, nat>, stats: map<Slot, Cell>): map<Hit, nat> {
    map h | h in table.Keys + Rows(stats) :: Read(table, h) + if HasRow(stats, h) then stats[h.slot].count else 0
  }

  /** Every batch in turn: tallied, then upserted. */
  function After(table: map<Hit, nat>, batches: seq<seq<Hit>>): map<Hit, nat> {
    if batches == [] then table else Upserted(After(table, batches[..|batches| - 1]), Tally(batches[|batches| - 1]))
  }

  // ----- what the tables hold -----

  function OnSlot(s: Slot): Hit -> bool {
    (h: Hit) => h.slot == s
  }

  /** The hits on one slot, in order. */
  function HitsOn(hits: seq<Hit>, s: Slot): seq<Hit> {
    Keep(hits, OnSlot(s))
  }

  /** A dictionary entry counts all hits on its slot and has the last one's organization. */
  lemma {:induction false} TallyCounts(hits: seq<Hit>, s: Slot)
    ensures s in Tally(hits) <==> HitsOn(hits, s) != []
    ensures s in Tally(hits) ==> Tally(hits)[s] == Cell(|HitsOn(hits, s)|, Some(HitsOn(hits, s)[|HitsOn(hits, s)| - 1].org))
    ensures forall h :: h in HitsOn(hits, s) ==> h in hits && h.slot == s
  {
    if hits != [] {
      TallyCounts(hits[..|hits| - 1], s);
      assert hits == hits[..|hits| - 1] + [hits[|hits| - 1]];
    }
  }

  lemma RowsHave(stats: map<Slot, Cell>, h: Hit)
    ensures h in Rows(stats) <==> HasRow(stats, h)
  {
    if HasRow(stats, h) {
      assert h == Hit(h.slot, stats[h.slot].org.value);
    }
  }

  /** What one batch adds to a row: the hits on its slot, if the last of them is the row's own. */
  function Credit(hits: seq<Hit>, h: Hit): nat {
    var on := HitsOn(hits, h.slot);
    if on != [] && on[|on| - 1] == h then |on| else 0
  }

  function Credited(batches: seq<seq<Hit>>, h: Hit): nat {
    if batches == [] then 0 else Credited(batches[..|batches| - 1], h) + Credit(batches[|batches| - 1], h)
  }

  lemma UpsertCredits(table: map<Hit, nat>, hits: seq<Hit>, h: Hit)
    ensures Read(Upserted(table, Tally(hits)), h) == Read(table, h) + Credit(hits, h)
    ensures h in Upserted(table, Tally(hits)) <==> h in table || Credit(hits, h) > 0
  {
    TallyCounts(hits, h.slot);
    RowsHave(Tally(hits), h);
  }

  /** After any batches a row's count is its earlier count plus what each batch credits to it. */
  lemma {:induction false} AfterReads(table: map<Hit, nat>, batches: seq<seq<Hit>>, h: Hit)
    ensures Read(After(table, batches), h) == Read(table, h) + Credited(batches, h)
    ensures h in After(table, batches) <==> h in table || Credited(batches, h) > 0
  {
    if batches != [] {
      AfterReads(table, batches[..|batches| - 1], h);
      UpsertCredits(After(table, batches[..|batches| - 1]), batches[|batches| - 1], h);
    }
  }

  // ----- batching is invisible -----

  /** No slot is counted for two organizations. */
  predicate Consistent(hits: seq<Hit>) {
    forall g, h :: g in hits && h in hits && g.slot == h.slot ==> g == h
  }

  /** Then a row is credited exactly its own hits. */
  lemma {:induction false} OwnHits(hits: seq<Hit>, h: Hit)
    requires forall g :: g in hits && g.slot == h.slot ==> g == h
    ensures Credit(hits, h) == multiset(hits)[h] == |HitsOn(hits, h.slot)|
  {
    if hits != [] {
      var init, last := hits[..|hits| - 1], hits[|hits| - 1];
      assert hits == init + [last];
      assert multiset(hits) == multiset(init) + multiset{last};
      OwnHits(init, h);
    }
  }

  lemma NoHits(hits: seq<Hit>, h: Hit)
    requires h !in hits
    ensures Credit(hits, h) == 0
  {
    TallyCounts(hits, h.slot);
  }

  lemma ConsistentCredit(hits: seq<Hit>, h: Hit)
    requires Consistent(hits)
    ensures Credit(hits, h) == multiset(hits)[h]
  {
    if h in hits {
      OwnHits(hits, h);
    } else {
      NoHits(hits, h);
    }
  }

  lemma {:induction false} ConsistentCredits(batches: seq<seq<Hit>>, h: Hit)
    requires forall b :: b in batches ==> Consistent(b)
    ensures Credited(batches, h) == multiset(Flatten(batches))[h]
  {
    if batches != [] {
      var init, last := batches[..|batches| - 1], batches[|batches| - 1];
      ConsistentCredits(init, h);
      ConsistentCredit(last, h);
      assert multiset(Flatten(batches)) == multiset(Flatten(init)) + multiset(last);
    }
  }

  lemma BatchesConsistent(batches: seq<seq<Hit>>, all: seq<Hit>)
    requires multiset(Flatten(batches)) == multiset(all) && Consistent(all)
    ensures forall b :: b in batches ==> Consistent(b)
  {
    forall b, g, h | b in batches && g in b && h in b && g.slot == h.slot ensures g == h {
      FlattenHas(batches, b, g);
      FlattenHas(batches, b, h);
      assert g in multiset(all) && h in multiset(all);
    }
  }

  lemma SameHitsSameRow(table: map<Hit, nat>, bs: seq<seq<Hit>>, cs: seq<seq<Hit>>, h: Hit)
    requires multiset(Flatten(bs)) == multiset(Flatten(cs)) && Consistent(Flatten(bs))
    ensures h in After(table, bs) <==> h in After(table, cs)
    ensures Read(After(table, bs), h) == Read(After(table, cs), h)
  {
    BatchesConsistent(bs, Flatten(bs));
    BatchesConsistent(cs, Flatten(bs));
    ConsistentCredits(bs, h);
    ConsistentCredits(cs, h);
    AfterReads(table, bs, h);
    AfterReads(table, cs, h);
  }

  /** Any two ways of batching the same hits, in any order, leave the same table. */
  lemma SameHitsSameTable(table: map<Hit, nat>, bs: seq<seq<Hit>>, cs: seq<seq<Hit>>)
    requires multiset(Flatten(bs)) == multiset(Flatten(cs)) && Consistent(Flatten(bs))
    ensures After(table, bs) == After(table, cs)
  {
    var b, c := After(table, bs), After(table, cs);
    forall h ensures (h in b <==> h in c) && Read(b, h) == Read(c, h) {
      SameHitsSameRow(table, bs, cs, h);
    }
    SameReadsSameTable(b, c);
  }

  lemma SameReadsSameTable(b: map<Hit, nat>, c: map<Hit, nat>)
    requires forall h :: (h in b <==> h in c) && Read(b, h) == Read(c, h)
    ensures b == c
  {
    forall h | h in b ensures b[h] == c[h] {
      assert Read(b, h) == Read(c, h);
    }
  }

  // ----- the same for batches of events -----

  function HitBatches(batches: seq<seq<Event>>, f: Event -> seq<Hit>): seq<seq<Hit>> {
    if batches == [] then [] else HitBatches(batches[..|batches| - 1], f) + [Gather(batches[|batches| - 1], f)]
  }

  lemma {:induction false} FlatHits(batches: seq<seq<Event>>, f: Event -> seq<Hit>)
    ensures Flatten(HitBatches(batches, f)) == Gather(Flatten(batches), f)
  {
    if batches != [] {
      var init, last := batches[..|batches| - 1], batches[|batches| - 1];
      FlatHits(init, f);
      GatherAppend(Flatten(init), last, f);
      var hs := HitBatches(init, f);
      assert (hs + [Gather(last, f)])[..|hs|] == hs;
    }
  }

  /** Projects and issues each belong to one organization. */
  predicate OneOrg(events: seq<Event>) {
    forall d, e :: d in events && e in events && (d.project == e.project || (d.issue.Some? && d.issue == e.issue)) ==> d.org == e.org
  }

  lemma OneOrgProjects(events: seq<Event>)
    requires OneOrg(events)
    ensures Consistent(Gather(events, ProjectHits()))
  {
    forall g, h | g in Gather(events, ProjectHits()) && h in Gather(events, ProjectHits()) && g.slot == h.slot ensures g == h {
      GatherMember(events, ProjectHits(), g);
      GatherMember(events, ProjectHits(), h);
    }
  }

  lemma OneOrgIssues(events: seq<Event>)
    requires OneOrg(events)
    ensures Consistent(Gather(events, IssueHits()))
  {
    forall g, h | g in Gather(events, IssueHits()) && h in Gather(events, IssueHits()) && g.slot == h.slot ensures g == h {
      GatherMember(events, IssueHits(), g);
      GatherMember(events, IssueHits(), h);
    }
  }

  /** A tag hit comes from an event with that issue and organization. */
  lemma TagHitFrom(events: seq<Event>, h: Hit) returns (e: Event)
    requires h in Gather(events, TagHits())
    ensures e in events && h.slot.IssueDay? && e.issue == Some(h.slot.issue) && e.org == h.org
  {
    GatherMember(events, TagHits(), h);
    e :| e in events && h in TagHits()(e);
    GatherMember(e.tags, TagHit(e, e.issue.value), h);
  }

  lemma OneOrgTags(events: seq<Event>)
    requires OneOrg(events)
    ensures Consistent(Gather(events, TagHits()))
  {
    forall g, h | g in Gather(events, TagHits()) && h in Gather(events, TagHits()) && g.slot == h.slot ensures g == h {
      var d := TagHitFrom(events, g);
      var e := TagHitFrom(events, h);
    }
  }

  lemma SameEventsSameStatistic(table: map<Hit, nat>, bs: seq<seq<Event>>, cs: seq<seq<Event>>, f: Event -> seq<Hit>)
    requires multiset(Flatten(bs)) == multiset(Flatten(cs)) && Consistent(Gather(Flatten(bs), f))
    ensures After(table, HitBatches(bs, f)) == After(table, HitBatches(cs, f))
  {
    FlatHits(bs, f);
    FlatHits(cs, f);
    GatherPermuted(Flatten(bs), Flatten(cs), f);
    SameHitsSameTable(table, HitBatches(bs, f), HitBatches(cs, f));
  }

  /** The statistic is the same however these events are split into batches, in any order. */
  ghost predicate Invisible(table: map<Hit, nat>, events: seq<Event>, f: Event -> seq<Hit>) {
    forall bs: seq<seq<Event>>, cs: seq<seq<Event>> ::
      multiset(Flatten(bs)) == multiset(events) && multiset(Flatten(cs)) == multiset(events) ==>
      After(table, HitBatches(bs, f)) == After(table, HitBatches(cs, f))
  }

  // ----- and only when no slot serves two organizations -----

  /** Every event's hits carry its own organization. */
  ghost predicate OwnOrg(f: Event -> seq<Hit>) {
    forall e: Event, h: Hit :: h in f(e) ==> h.org == e.org
  }

  function Singles(events: seq<Event>): seq<seq<Event>> {
    if events == [] then [] else Singles(events[..|events| - 1]) + [[events[|events| - 1]]]
  }

  lemma SinglesStep(events: seq<Event>, e: Event)
    ensures Singles(events + [e]) == Singles(events) + [[e]]
  {
    assert (events + [e])[..|events|] == events;
  }

  lemma {:induction false} SinglesFlat(events: seq<Event>)
    ensures Flatten(Singles(events)) == events
  {
    if events != [] {
      SinglesFlat(events[..|events| - 1]);
      FlattenLast(Singles(events[..|events| - 1]), [events[|events| - 1]]);
    }
  }

  /** One more batch adds its own credit. */
  lemma OneBatchMore(batches: seq<seq<Event>>, b: seq<Event>, f: Event -> seq<Hit>, h: Hit)
    ensures Credited(HitBatches(batches + [b], f), h) == Credited(HitBatches(batches, f), h) + Credit(Gather(b, f), h)
  {
    assert (batches + [b])[..|batches|] == batches;
    var hs := HitBatches(batches, f);
    assert (hs + [Gather(b, f)])[..|hs|] == hs;
  }

  lemma OneEventsCredit(e: Event, f: Event -> seq<Hit>, g: Hit)
    requires OwnOrg(f) && g in f(e)
    ensures Credit(f(e), g) > 0
  {
    forall h | h in f(e) && h.slot == g.slot ensures h == g {
      assert h.org == e.org && g.org == e.org;
    }
    OwnHits(f(e), g);
  }

  /** Batched together, the later event's organization takes the earlier one's hits on the slot. */
  lemma PairsCredit(d: Event, e: Event, f: Event -> seq<Hit>, g: Hit, h: Hit)
    requires OwnOrg(f) && g in f(d) && h in f(e) && g.slot == h.slot && g.org != h.org
    ensures Credit(f(d) + f(e), g) == 0
  {
    KeepAppend(f(d), f(e), OnSlot(g.slot));
    KeepMember(f(e), OnSlot(g.slot), h);
    var on := HitsOn(f(e), g.slot);
    assert h in on;
    KeepMember(f(e), OnSlot(g.slot), on[|on| - 1]);
    assert on[|on| - 1].org == e.org == h.org;
    assert HitsOn(f(d) + f(e), g.slot) == HitsOn(f(d), g.slot) + on;
  }

  lemma Together(rest: seq<Event>, d: Event, e: Event, f: Event -> seq<Hit>, g: Hit, h: Hit)
    requires OwnOrg(f) && g in f(d) && h in f(e) && g.slot == h.slot && g.org != h.org
    ensures Credited(HitBatches(Singles(rest) + [[d, e]], f), g) == Credited(HitBatches(Singles(rest), f), g)
  {
    OneBatchMore(Singles(rest), [d, e], f, g);
    GatherAppend([d], [e], f);
    assert [d] + [e] == [d, e];
    GatherOne(d, f);
    GatherOne(e, f);
    PairsCredit(d, e, f, g, h);
  }

  lemma Apart(rest: seq<Event>, d: Event, e: Event, f: Event -> seq<Hit>, g: Hit)
    requires OwnOrg(f) && g in f(d)
    ensures Credited(HitBatches(Singles(rest + [d, e]), f), g) > Credited(HitBatches(Singles(rest), f), g)
  {
    SinglesStep(rest, d);
    SinglesStep(rest + [d], e);
    assert rest + [d] + [e] == rest + [d, e];
    OneBatchMore(Singles(rest), [d], f, g);
    OneBatchMore(Singles(rest + [d]), [e], f, g);
    GatherOne(d, f);
    OneEventsCredit(d, f, g);
  }

  /** So batching two such events together shows, whatever else is in the batches. */
  lemma TogetherDiffers(table: map<Hit, nat>, rest: seq<Event>, d: Event, e: Event, f: Event -> seq<Hit>, g: Hit, h: Hit)
    requires OwnOrg(f) && g in f(d) && h in f(e) && g.slot == h.slot && g.org != h.org
    ensures After(table, HitBatches(Singles(rest) + [[d, e]], f)) != After(table, HitBatches(Singles(rest + [d, e]), f))
  {
    Together(rest, d, e, f, g, h);
    Apart(rest, d, e, f, g);
    AfterReads(table, HitBatches(Singles(rest) + [[d, e]], f), g);
    AfterReads(table, HitBatches(Singles(rest + [d, e]), f), g);
  }

  /** Bringing two events to the end. */
  lemma EndPair(events: seq<Event>, d: Event, e: Event) returns (rest: seq<Event>)
    requires d in events && e in events && d != e
    ensures multiset(rest + [d, e]) == multiset(events)
  {
    var a, b := Without(events, e);
    assert d in multiset(events);
    assert d in multiset(a + b);
    var x, y := Without(a + b, d);
    rest := x + y;
    assert multiset([d, e]) == multiset{d} + multiset{e};
  }

  lemma PairShows(table: map<Hit, nat>, events: seq<Event>, f: Event -> seq<Hit>, g: Hit, h: Hit)
    requires OwnOrg(f) && g in Gather(events, f) && h in Gather(events, f) && g.slot == h.slot && g != h
    ensures !Invisible(table, events, f)
  {
    var d := HitFrom(events, f, g);
    var e := HitFrom(events, f, h);
    var rest := EndPair(events, d, e);
    TogetherDiffers(table, rest, d, e, f, g, h);
    SameEventsEitherWay(rest, d, e);
    Shows(table, events, f, Singles(rest) + [[d, e]], Singles(rest + [d, e]));
  }

  lemma HitFrom(events: seq<Event>, f: Event -> seq<Hit>, h: Hit) returns (e: Event)
    requires OwnOrg(f) && h in Gather(events, f)
    ensures e in events && h in f(e) && h.org == e.org
  {
    GatherMember(events, f, h);
    e :| e in events && h in f(e);
  }

  lemma SameEventsEitherWay(rest: seq<Event>, d: Event, e: Event)
    ensures Flatten(Singles(rest) + [[d, e]]) == rest + [d, e] == Flatten(Singles(rest + [d, e]))
  {
    SinglesFlat(rest);
    SinglesFlat(rest + [d, e]);
    FlattenLast(Singles(rest), [d, e]);
  }

  lemma Shows(table: map<Hit, nat>, events: seq<Event>, f: Event -> seq<Hit>, bs: seq<seq<Event>>, cs: seq<seq<Event>>)
    requires multiset(Flatten(bs)) == multiset(events) && multiset(Flatten(cs)) == multiset(events)
    requires After(table, HitBatches(bs, f)) != After(table, HitBatches(cs, f))
    ensures !Invisible(table, events, f)
  {
  }

  lemma ConsistentInvisible(table: map<Hit, nat>, events: seq<Event>, f: Event -> seq<Hit>)
    requires Consistent(Gather(events, f))
    ensures Invisible(table, events, f)
  {
    forall bs: seq<seq<Event>>, cs: seq<seq<Event>> | multiset(Flatten(bs)) == multiset(events) && multiset(Flatten(cs)) == multiset(events)
      ensures After(table, HitBatches(bs, f)) == After(table, HitBatches(cs, f))
    {
      GatherPermuted(events, Flatten(bs), f);
      ConsistentAs(Gather(events, f), Gather(Flatten(bs), f));
      SameEventsSameStatistic(table, bs, cs, f);
    }
  }

  lemma InvisibleExactly(table: map<Hit, nat>, events: seq<Event>, f: Event -> seq<Hit>)
    requires OwnOrg(f)
    ensures Invisible(table, events, f) <==> Consistent(Gather(events, f))
  {
    if Consistent(Gather(events, f)) {
      ConsistentInvisible(table, events, f);
    } else {
      var g, h :| g in Gather(events, f) && h in Gather(events, f) && g.slot == h.slot && g != h;
      PairShows(table, events, f, g, h);
    }
  }

  lemma TagsOwnOrg()
    ensures OwnOrg(TagHits())
  {
    forall e: Event, h: Hit | h in TagHits()(e) ensures h.org == e.org {
      GatherMember(e.tags, TagHit(e, e.issue.value), h);
    }
  }

  /** For each of the three statistics: all splits of these events into batches, in any order, leave
      the same counts if and only if no slot is hit for two organizations. */
  lemma BatchingIsInvisible(table: map<Hit, nat>, events: seq<Event>)
    ensures Invisible(table, events, ProjectHits()) <==> Consistent(Gather(events, ProjectHits()))
    ensures Invisible(table, events, IssueHits()) <==> Consistent(Gather(events, IssueHits()))
    ensures Invisible(table, events, TagHits()) <==> Consistent(Gather(events, TagHits()))
  {
    InvisibleExactly(table, events, ProjectHits());
    InvisibleExactly(table, events, IssueHits());
    TagsOwnOrg();
    InvisibleExactly(table, events, TagHits());
  }

  /** So it is invisible whenever each project and each issue belongs to one organization. */
  lemma OneOrgIsEnough(table: map<Hit, nat>, events: seq<Event>)
    requires OneOrg(events)
    ensures Invisible(table, events, ProjectHits()) && Invisible(table, events, IssueHits()) && Invisible(table, events, TagHits())
  {
    OneOrgProjects(events);
    OneOrgIssues(events);
    OneOrgTags(events);
    BatchingIsInvisible(table, events);
  }

  lemma ConsistentAs(hits: seq<Hit>, others: seq<Hit>)
    requires Consistent(hits) && multiset(others) == multiset(hits)
    ensures Consistent(others)
  {
    forall g, h | g in others && h in others && g.slot == h.slot ensures g == h {
      assert g in multiset(hits) && h in multiset(hits);
    }
  }

  // ----- the sums -----

  ghost function Pick<K>(m: map<K, nat>): (k: K)
    requires m != map[]
    ensures k in m
  {
    assert m.Keys != {};
    var k :| k in m;
    k
  }

  ghost function Sum<K>(m: map<K, nat>): nat
    decreases |m|
  {
    if m == map[] then 0 else m[Pick(m)] + Sum(m - {Pick(m)})
  }

  lemma {:induction false} SumRemove<K>(m: map<K, nat>, k: K)
    requires k in m
    ensures Sum(m) == m[k] + Sum(m - {k})
    decreases |m|
  {
    var h := Pick(m);
    if h != k {
      SumRemove(m - {h}, k);
      SumRemove(m - {k}, h);
      assert m - {h} - {k} == m - {k} - {h};
    }
  }

  lemma SumPut<K>(m: map<K, nat>, k: K, v: nat)
    ensures Sum(m[k := v]) == Sum(m) + v - if k in m then m[k] else 0
  {
    SumRemove(m[k := v], k);
    assert m[k := v] - {k} == m - {k};
    if k in m {
      SumRemove(m, k);
    } else {
      assert m - {k} == m;
    }
  }

  function Counts(stats: map<Slot, Cell>): map<Slot, nat> {
    map s | s in stats :: stats[s].count
  }

  lemma {:induction false} TallySum(hits: seq<Hit>)
    ensures Sum(Counts(Tally(hits))) == |hits|
    ensures forall s :: s in Tally(hits) ==> Tally(hits)[s].org.Some?
  {
    if hits != [] {
      var init, h := Tally(hits[..|hits| - 1]), hits[|hits| - 1];
      TallySum(hits[..|hits| - 1]);
      var n := (if h.slot in init then init[h.slot].count else 0) + 1;
      assert Counts(Tally(hits)) == Counts(init)[h.slot := n];
      SumPut(Counts(init), h.slot, n);
    }
  }

  /** The upsert, one dictionary entry at a time. */
  lemma UpsertLast(table: map<Hit, nat>, stats: map<Slot, Cell>, s: Slot, h: Hit)
    requires s in stats && stats[s].org.Some? && h == Hit(s, stats[s].org.value)
    ensures Upserted(table, stats) == Upserted(table, stats - {s})[h := Read(table, h) + stats[s].count]
    ensures Read(Upserted(table, stats - {s}), h) == Read(table, h)
  {
    var less := stats - {s};
    forall g ensures g in Rows(stats) <==> g in Rows(less) || g == h
             ensures g != h ==> (HasRow(stats, g) <==> HasRow(less, g)) {
      RowsHave(stats, g);
      RowsHave(less, g);
    }
  }

  lemma CountsRemove(stats: map<Slot, Cell>, s: Slot)
    requires s in stats
    ensures Sum(Counts(stats)) == stats[s].count + Sum(Counts(stats - {s}))
  {
    assert Counts(stats) - {s} == Counts(stats - {s});
    SumRemove(Counts(stats), s);
  }

  lemma UpsertLastSum(table: map<Hit, nat>, stats: map<Slot, Cell>, s: Slot)
    requires s in stats && stats[s].org.Some?
    ensures Sum(Upserted(table, stats)) == Sum(Upserted(table, stats - {s})) + stats[s].count
  {
    var h := Hit(s, stats[s].org.value);
    UpsertLast(table, stats, s, h);
    SumPut(Upserted(table, stats - {s}), h, Read(table, h) + stats[s].count);
  }

  lemma UpsertNothing(table: map<Hit, nat>)
    ensures Upserted(table, map[]) == table
    ensures Sum(Counts(map[])) == 0
  {
    assert Counts(map[]) == map[];
  }

  lemma {:induction false} UpsertSum(table: map<Hit, nat>, stats: map<Slot, Cell>)
    requires forall s :: s in stats ==> stats[s].org.Some?
    ensures Sum(Upserted(table, stats)) == Sum(table) + Sum(Counts(stats))
    decreases |stats|
  {
    if stats == map[] {
      UpsertNothing(table);
    } else {
      assert stats.Keys != {};
      var s :| s in stats;
      UpsertSum(table, stats - {s});
      UpsertLastSum(table, stats, s);
      CountsRemove(stats, s);
    }
  }

  /** Nothing is lost or counted twice: a statistic's grand total grows by exactly the number of
      hits in all the batches, however they are split. */
  lemma {:induction false} TotalsGrowByHits(table: map<Hit, nat>, batches: seq<seq<Hit>>)
    ensures Sum(After(table, batches)) == Sum(table) + |Flatten(batches)|
  {
    if batches != [] {
      TotalsGrowByHits(table, batches[..|batches| - 1]);
      TallySum(batches[|batches| - 1]);
      UpsertSum(After(table, batches[..|batches| - 1]), Tally(batches[|batches| - 1]));
    }
  }

  lemma {:induction false} OneHitEach(events: seq<Event>)
    ensures |Gather(events, ProjectHits())| == |events|
  {
    if events != [] {
      OneHitEach(events[..|events| - 1]);
    }
  }

  /** The hourly project counts sum to the number of events. */
  lemma ProjectCountsSumToEvents(table: map<Hit, nat>, batches: seq<seq<Event>>)
    ensures Sum(After(table, HitBatches(batches, ProjectHits()))) == Sum(table) + |Flatten(batches)|
  {
    TotalsGrowByHits(table, HitBatches(batches, ProjectHits()));
    FlatHits(batches, ProjectHits());
    OneHitEach(Flatten(batches));
  }

  /** How many (event, tag) pairs belong to a known issue. */
  function TagPairs(events: seq<Event>): nat {
    if events == [] then 0 else
      TagPairs(events[..|events| - 1]) + if events[|events| - 1].issue.Some? then |events[|events| - 1].tags| else 0
  }

  lemma {:induction false} TagHitsCount(tags: seq<(nat, nat)>, e: Event, issue: nat)
    ensures |Gather(tags, TagHit(e, issue))| == |tags|
  {
    if tags != [] {
      TagHitsCount(tags[..|tags| - 1], e, issue);
    }
  }

  lemma {:induction false} TagPairsCount(events: seq<Event>)
    ensures |Gather(events, TagHits())| == TagPairs(events)
  {
    if events != [] {
      var e := events[|events| - 1];
      TagPairsCount(events[..|events| - 1]);
      if e.issue.Some? {
        TagHitsCount(e.tags, e, e.issue.value);
      }
    }
  }

  /** The daily tag counts sum to the number of (event, tag) pairs. */
  lemma TagCountsSumToPairs(table: map<Hit, nat>, batches: seq<seq<Event>>)
    ensures Sum(After(table, HitBatches(batches, TagHits()))) == Sum(table) + TagPairs(Flatten(batches))
  {
    TotalsGrowByHits(table, HitBatches(batches, TagHits()));
    FlatHits(batches, TagHits());
    TagPairsCount(Flatten(batches));
  }

  // ----- transaction groups, over exact reals -----

  /** One transaction of a group: its start and end where it has both, and whether its status is
      an error. Times are in milliseconds. */
  datatype Sample = Sample(group: nat, start: Option<real>, end: Option<real>, failed: bool)

  datatype Group = Group(count: nat, errors: nat, average: real)

  /** A backward clock counts as zero. */
  function Duration(s: Sample): real {
    if s.start.None? || s.end.None? || s.end.value - s.start.value < 0.0 then 0.0 else s.end.value - s.start.value
  }

  function Durations(samples: seq<Sample>, g: nat): seq<real> {
    if samples == [] then [] else
      var s := samples[|samples| - 1];
      Durations(samples[..|samples| - 1], g) + if s.group == g then [Duration(s)] else []
  }

  function Failures(samples: seq<Sample>, g: nat): nat {
    if samples == [] then 0 else
      var s := samples[|samples| - 1];
      Failures(samples[..|samples| - 1], g) + if s.group == g && s.failed then 1 else 0
  }

  function RealSum(ds: seq<real>): real {
    if ds == [] then 0.0 else RealSum(ds[..|ds| - 1]) + ds[|ds| - 1]
  }

  /** `group_durations[g]` on a defaultdict(list), and `group_error_counts.get(g, 0)`. */
  function Listed(durations: map<nat, seq<real>>, g: nat): seq<real> {
    if g in durations then durations[g] else []
  }

  ghost predicate ListsDurations(m: map<nat, seq<real>>, samples: seq<Sample>) {
    forall g :: Listed(m, g) == Durations(samples, g) && (g in m ==> m[g] != [])
  }

  ghost predicate CountsFailures(m: map<nat, nat>, samples: seq<Sample>) {
    forall g :: (if g in m then m[g] else 0) == Failures(samples, g)
  }

  lemma ListedStep(m: map<nat, seq<real>>, samples: seq<Sample>, i: nat)
    requires i < |samples| && ListsDurations(m, samples[..i])
    ensures ListsDurations(m[samples[i].group := Listed(m, samples[i].group) + [Duration(samples[i])]], samples[..i + 1])
  {
    assert samples[..i + 1][..i] == samples[..i];
  }

  lemma FailureStep(m: map<nat, nat>, samples: seq<Sample>, i: nat)
    requires i < |samples| && CountsFailures(m, samples[..i])
    ensures var g := samples[i].group;
            CountsFailures(if samples[i].failed then m[g := (if g in m then m[g] else 0) + 1] else m, samples[..i + 1])
  {
    assert samples[..i + 1][..i] == samples[..i];
  }

  /** The collecting loop over the transactions of a batch. */
  method Collect(samples: seq<Sample>) returns (durations: map<nat, seq<real>>, errors: map<nat, nat>)
    ensures ListsDurations(durations, samples) && CountsFailures(errors, samples)
  {
    durations, errors := map[], map[];
    var i := 0;
    while i < |samples|
      invariant 0 <= i <= |samples|
      invariant ListsDurations(durations, samples[..i]) && CountsFailures(errors, samples[..i])
    {
      var s := samples[i];
      ListedStep(durations, samples, i);
      FailureStep(errors, samples, i);
      durations := durations[s.group := Listed(durations, s.group) + [Duration(s)]];
      if s.failed {
        errors := errors[s.group := (if s.group in errors then errors[s.group] else 0) + 1];
      }
      i := i + 1;
    }
    assert samples[..|samples|] == samples;
  }

  /** `sum(durations)` and the one UPDATE of _update_transaction_group_stats, for a group in the
      batch; a group without samples is not updated. */
  function Merge(t: Group, ds: seq<real>, errors: nat): Group {
    if ds == [] then t
    else Group(t.count + |ds|, t.errors + errors,
               if t.count + |ds| > 0 then (t.average * t.count as real + RealSum(ds)) / (t.count + |ds|) as real else 0.0)
  }

  function AfterSamples(t: Group, batches: seq<seq<Sample>>, g: nat): Group {
    if batches == [] then t else
      var last := batches[|batches| - 1];
      Merge(AfterSamples(t, batches[..|batches| - 1], g), Durations(last, g), Failures(last, g))
  }

  lemma DivideBack(total: real, n: nat)
    requires n > 0
    ensures total / n as real * n as real == total
  {
  }

  /** Count times average. */
  function Total(t: Group): real {
    t.average * t.count as real
  }

  lemma MergeTotals(t: Group, ds: seq<real>, errors: nat)
    ensures Total(Merge(t, ds, errors)) == Total(t) + RealSum(ds)
  {
    if ds != [] {
      DivideBack(Total(t) + RealSum(ds), t.count + |ds|);
    }
  }

  lemma {:induction false} RealSumAppend(ds: seq<real>, es: seq<real>)
    ensures RealSum(ds + es) == RealSum(ds) + RealSum(es)
  {
    if es == [] {
      assert ds + es == ds;
    } else {
      assert (ds + es)[..|ds + es| - 1] == ds + es[..|es| - 1];
      RealSumAppend(ds, es[..|es| - 1]);
    }
  }

  lemma {:induction false} DurationsAppend(ss: seq<Sample>, ts: seq<Sample>, g: nat)
    ensures Durations(ss + ts, g) == Durations(ss, g) + Durations(ts, g)
    ensures Failures(ss + ts, g) == Failures(ss, g) + Failures(ts, g)
  {
    if ts == [] {
      assert ss + ts == ss;
    } else {
      assert (ss + ts)[..|ss + ts| - 1] == ss + ts[..|ts| - 1];
      DurationsAppend(ss, ts[..|ts| - 1], g);
    }
  }

  lemma {:induction false} FailuresFew(ss: seq<Sample>, g: nat)
    ensures Failures(ss, g) <= |Durations(ss, g)|
  {
    if ss != [] {
      FailuresFew(ss[..|ss| - 1], g);
    }
  }

  lemma {:induction false} CountsAdd(t: Group, batches: seq<seq<Sample>>, g: nat)
    ensures AfterSamples(t, batches, g).count == t.count + |Durations(Flatten(batches), g)|
    ensures AfterSamples(t, batches, g).errors == t.errors + Failures(Flatten(batches), g)
  {
    if batches != [] {
      var init, last := batches[..|batches| - 1], batches[|batches| - 1];
      CountsAdd(t, init, g);
      DurationsAppend(Flatten(init), last, g);
      FailuresFew(last, g);
    }
  }

  lemma {:induction false} TotalsAdd(t: Group, batches: seq<seq<Sample>>, g: nat)
    ensures Total(AfterSamples(t, batches, g)) == Total(t) + RealSum(Durations(Flatten(batches), g))
  {
    if batches != [] {
      var init, last := batches[..|batches| - 1], batches[|batches| - 1];
      TotalsAdd(t, init, g);
      MergeTotals(AfterSamples(t, init, g), Durations(last, g), Failures(last, g));
      DurationsAppend(Flatten(init), last, g);
      RealSumAppend(Durations(Flatten(init), g), Durations(last, g));
    }
  }

  /** After any batches a group's count times its average is the exact total of all durations,
      its count and errors grow by the samples' own, and errors never outgrow the count. */
  lemma AverageIsExact(t: Group, batches: seq<seq<Sample>>, g: nat)
    ensures var u, all := AfterSamples(t, batches, g), Flatten(batches);
            && u.count == t.count + |Durations(all, g)|
            && u.errors == t.errors + Failures(all, g)
            && Total(u) == Total(t) + RealSum(Durations(all, g))
            && (t.errors <= t.count ==> u.errors <= u.count)
  {
    CountsAdd(t, batches, g);
    TotalsAdd(t, batches, g);
    FailuresFew(Flatten(batches), g);
  }

  lemma {:induction false} SamplesPermuted(ss: seq<Sample>, ts: seq<Sample>, g: nat)
    requires multiset(ss) == multiset(ts)
    ensures |Durations(ss, g)| == |Durations(ts, g)| && Failures(ss, g) == Failures(ts, g)
    ensures RealSum(Durations(ss, g)) == RealSum(Durations(ts, g))
  {
    if ss == [] {
      assert |multiset(ts)| == 0;
      assert ts == [];
    } else {
      var init, last := ss[..|ss| - 1], ss[|ss| - 1];
      assert ss == init + [last];
      var a, b := LastElsewhere(ss, ts);
      SamplesPermuted(init, a + b, g);
      MiddleMoves(a, last, b, g);
      DurationsAppend(init, [last], g);
      RealSumAppend(Durations(init, g), Durations([last], g));
    }
  }

  lemma MiddleMoves(a: seq<Sample>, s: Sample, b: seq<Sample>, g: nat)
    ensures |Durations(a + [s] + b, g)| == |Durations(a + b, g)| + |Durations([s], g)|
    ensures Failures(a + [s] + b, g) == Failures(a + b, g) + Failures([s], g)
    ensures RealSum(Durations(a + [s] + b, g)) == RealSum(Durations(a + b, g)) + RealSum(Durations([s], g))
  {
    DurationsAppend(a + [s], b, g);
    DurationsAppend(a, [s], g);
    DurationsAppend(a, b, g);
    RealSumAppend(Durations(a, g) + Durations([s], g), Durations(b, g));
    RealSumAppend(Durations(a, g), Durations([s], g));
    RealSumAppend(Durations(a, g), Durations(b, g));
  }

  lemma SameCountsAndTotals(t: Group, bs: seq<seq<Sample>>, cs: seq<seq<Sample>>, g: nat)
    requires multiset(Flatten(bs)) == multiset(Flatten(cs))
    ensures var u, v := AfterSamples(t, bs, g), AfterSamples(t, cs, g);
            u.count == v.count && u.errors == v.errors && Total(u) == Total(v)
  {
    CountsAdd(t, bs, g);
    CountsAdd(t, cs, g);
    TotalsAdd(t, bs, g);
    TotalsAdd(t, cs, g);
    SamplesPermuted(Flatten(bs), Flatten(cs), g);
  }

  /** Batching is invisible to transaction groups too. */
  lemma GroupBatchingIsInvisible(t: Group, bs: seq<seq<Sample>>, cs: seq<seq<Sample>>, g: nat)
    requires multiset(Flatten(bs)) == multiset(Flatten(cs))
    ensures AfterSamples(t, bs, g) == AfterSamples(t, cs, g)
  {
    SameCountsAndTotals(t, bs, cs, g);
    var u, v := AfterSamples(t, bs, g), AfterSamples(t, cs, g);
    if u.count > 0 {
      SameTotal(u, v);
    } else {
      Untouched(t, bs, g);
      Untouched(t, cs, g);
    }
  }

  lemma SameTotal(u: Group, v: Group)
    requires u.count > 0 && u.count == v.count && u.errors == v.errors && Total(u) == Total(v)
    ensures u == v
  {
    SameProduct(u.average, v.average, u.count);
  }

  lemma SameProduct(a: real, b: real, n: nat)
    requires n > 0 && a * n as real == b * n as real
    ensures a == b
  {
    DivideBack(a, n);
  }

  lemma {:induction false} Untouched(t: Group, batches: seq<seq<Sample>>, g: nat)
    requires AfterSamples(t, batches, g).count == 0
    ensures AfterSamples(t, batches, g) == t
  {
    if batches != [] {
      var init := batches[..|batches| - 1];
      MergeTotals(AfterSamples(t, init, g), Durations(batches[|batches| - 1], g), Failures(batches[|batches| - 1], g));
      Untouched(t, init, g);
    }
  }

  // ----- hours, days and durations -----

  /** A slot's hour begins at or before the event and less than 3,600 seconds earlier, on the hour. */
  lemma HourOf(t: int)
    ensures Hour(t) <= t < Hour(t) + 3_600_000 && Hour(t) % 3_600_000 == 0
  {
  }

  lemma DayOf(t: int)
    ensures Day(t) <= t < Day(t) + 86_400_000 && Day(t) % 86_400_000 == 0
  {
  }

  /** Two events of a project share an hourly slot exactly if they were received in one clock hour, and
      two of an issue a daily one exactly if received on one date. */
  lemma SameSlotExactly(d: Event, e: Event)
    ensures ProjectHits()(d)[0].slot == ProjectHits()(e)[0].slot <==> d.project == e.project && d.received / 3_600_000 == e.received / 3_600_000
    ensures d.issue.Some? && e.issue.Some? ==>
              (IssueHits()(d)[0].slot == IssueHits()(e)[0].slot <==> d.issue == e.issue && d.received / 3_600_000 == e.received / 3_600_000)
    ensures forall i, j, a, b :: TagHit(d, i)(a)[0].slot == TagHit(e, j)(b)[0].slot <==>
              i == j && a == b && d.received / 86_400_000 == e.received / 86_400_000
  {
    SameFloor(d.received, e.received, 3_600_000);
    SameFloor(d.received, e.received, 86_400_000);
  }

  lemma SameFloor(a: int, b: int, step: nat)
    requires step > 0
    ensures a - a % step == b - b % step <==> a / step == b / step
  {
    assert a - a % step == step * (a / step) && b - b % step == step * (b / step);
    if step * (a / step) == step * (b / step) { OneQuotient(step, a / step, 0, b / step, 0); }
  }

  /** A duration is the difference of the two times if both are known and in order, otherwise zero. */
  lemma DurationIs(s: Sample)
    ensures Duration(s) >= 0.0
    ensures s.start.Some? && s.end.Some? ==>
              if s.end.value >= s.start.value then Duration(s) + s.start.value == s.end.value else Duration(s) == 0.0
    ensures s.start.None? || s.end.None? ==> Duration(s) == 0.0
  {
  }
}
