/** Nested TIME -> HASH partitions: the catalog, the statements Postgres would refuse, and the
    planner that decides which statements to send. */
module Partitions {
  import opened Names
  import opened Numbers
  import opened Uuid7

  /** `{parent}_{YYYYMMDD}`, `{parent}_{YYYYMMDD}_h{i}`, and any other table of the database. */
  datatype Name = RangeName(day: int) | ChildName(day: int, i: nat) | OtherName(n: nat)

  datatype Bounds = RangeBounds(lo: int, hi: int) | HashBounds(modulus: nat, remainder: nat) | OtherBounds

  datatype Strategy = Plain | ByHash | ByOther

  datatype Parent = Root | Under(day: int) | Elsewhere

  datatype Table = Table(parent: Parent, bounds: Bounds, strategy: Strategy)

  type Catalog = map<Name, Table>

  datatype Ddl = CreateRange(day: int, lo: int, hi: int, strategy: Strategy) | CreateChild(day: int, i: nat, modulus: nat)

  // ----- what Postgres does with a statement -----

  predicate RangesOverlap(a: Bounds, b: Bounds) {
    a.RangeBounds? && b.RangeBounds? && a.lo < b.hi && b.lo < a.hi
  }

  /** Two hash bounds clash if they can hold the same row, or if neither modulus divides the other. */
  predicate HashesClash(a: Bounds, b: Bounds) {
    && a.HashBounds? && b.HashBounds? && a.modulus > 0 && b.modulus > 0
    && var least := if a.modulus < b.modulus then a.modulus else b.modulus;
       var most := if a.modulus < b.modulus then b.modulus else a.modulus;
       most % least != 0 || a.remainder % least == b.remainder % least
  }

  predicate RangeRefused(c: Catalog, lo: int, hi: int) {
    lo >= hi || exists n :: n in c && c[n].parent == Root && RangesOverlap(c[n].bounds, RangeBounds(lo, hi))
  }

  predicate ChildRefused(c: Catalog, day: int, i: nat, modulus: nat) {
    || RangeName(day) !in c || c[RangeName(day)].strategy != ByHash || i >= modulus
    || exists n :: n in c && c[n].parent == Under(day) && HashesClash(c[n].bounds, HashBounds(modulus, i))
  }

  /** CREATE TABLE IF NOT EXISTS ... PARTITION OF: nothing if the name is taken, an error if the
      bounds are illegal, a new table otherwise. */
  function Exec(c: Catalog, d: Ddl): Option<Catalog> {
    match d
    case CreateRange(day, lo, hi, strategy) =>
      if RangeName(day) in c then Some(c)
      else if RangeRefused(c, lo, hi) then None
      else Some(c[RangeName(day) := Table(Root, RangeBounds(lo, hi), strategy)])
    case CreateChild(day, i, modulus) =>
      if ChildName(day, i) in c then Some(c)
      else if ChildRefused(c, day, i, modulus) then None
      else Some(c[ChildName(day, i) := Table(Under(day), HashBounds(modulus, i), Plain)])
  }

  /** Several statements in one transaction: all of them, or none. */
  function ExecAll(c: Catalog, ds: seq<Ddl>): Option<Catalog> {
    if ds == [] then Some(c) else
      match ExecAll(c, ds[..|ds| - 1])
      case None => None
      case Some(b) => Exec(b, ds[|ds| - 1])
  }

  // ----- the planner -----

  function AllChildren(day: int, modulus: nat, k: nat): seq<Ddl> {
    if k == 0 then [] else AllChildren(day, modulus, k - 1) + [CreateChild(day, k - 1, modulus)]
  }

  /** create_time_partition. */
  function Statements(day: int, lo: int, hi: int, buckets: int): seq<Ddl> {
    if buckets > 0 then [CreateRange(day, lo, hi, ByHash)] + AllChildren(day, buckets, buckets)
    else [CreateRange(day, lo, hi, Plain)]
  }

  /** list_partitions of a range partition. */
  function Children(c: Catalog, day: int): set<Name> {
    set n | n in c && c[n].parent == Under(day)
  }

  function Moduli(c: Catalog, names: set<Name>): set<nat> {
    set n | n in names && n in c && c[n].bounds.HashBounds? :: c[n].bounds.modulus
  }

  /** The statements for the buckets not yet listed. */
  function Missing(names: set<Name>, day: int, modulus: nat, k: nat): seq<Ddl> {
    if k == 0 then []
    else Missing(names, day, modulus, k - 1) + if ChildName(day, k - 1) in names then [] else [CreateChild(day, k - 1, modulus)]
  }

  /** Which statements a call sends; none if there is nothing to do or nothing it may touch. */
  function Plan(c: Catalog, day: int, lo: int, hi: int, buckets: int): seq<Ddl> {
    if RangeName(day) !in c then Statements(day, lo, hi, buckets)
    else if buckets <= 0 then []
    else
      var kids := Children(c, day);
      if kids != {} && Moduli(c, kids) != {buckets} then [] else Missing(kids, day, buckets, buckets)
  }

  /** A call's effect: the catalog afterwards, and the number of statements or the exception. */
  datatype Outcome = Outcome(tables: Catalog, executed: Option<nat>)

  function Call(c: Catalog, day: int, lo: int, hi: int, buckets: int): Outcome {
    var ds := Plan(c, day, lo, hi, buckets);
    match ExecAll(c, ds)
    case None => Outcome(c, None)
    case Some(b) => Outcome(b, Some(|ds|))
  }

  /** No count given means the configured one. */
  function Buckets(hashBuckets: Option<int>, setting: int): int {
    if hashBuckets.None? then setting else hashBuckets.value
  }

  // ----- the same, as the source runs it -----

  class Manager {
    var tables: Catalog

    constructor (c: Catalog)
      ensures tables == c
    {
      tables := c;
    }

    method CreateTimePartition(day: int, lo: int, hi: int, buckets: int) returns (sqls: seq<Ddl>)
      ensures sqls == Statements(day, lo, hi, buckets)
    {
      if buckets > 0 {
        sqls := [CreateRange(day, lo, hi, ByHash)];
        var i := 0;
        while i < buckets
          invariant 0 <= i <= buckets
          invariant sqls == [CreateRange(day, lo, hi, ByHash)] + AllChildren(day, buckets, i)
        {
          sqls := sqls + [CreateChild(day, i, buckets)];
          i := i + 1;
        }
      } else {
        sqls := [CreateRange(day, lo, hi, Plain)];
      }
    }

    /** The moduli the children expose, read off their bounds one child at a time. */
    method ReadModuli(children: set<Name>) returns (moduli: set<nat>)
      ensures moduli == Moduli(tables, children)
    {
      moduli := {};
      var rest := children;
      while rest != {}
        invariant rest <= children
        invariant moduli == Moduli(tables, children - rest)
        decreases rest
      {
        var child :| child in rest;
        assert children - (rest - {child}) == (children - rest) + {child};
        if child in tables && tables[child].bounds.HashBounds? {
          moduli := moduli + {tables[child].bounds.modulus};
        }
        rest := rest - {child};
      }
      assert children - rest == children;
    }

    /** May buckets of this modulus be added beside the children? */
    method SameModulus(children: set<Name>, buckets: nat) returns (same: bool)
      ensures same <==> Moduli(tables, children) == {buckets}
    {
      var moduli := ReadModuli(children);
      if |moduli| != 1 {
        // inconsistent moduli, or children that expose none
        assert moduli != {buckets};
        return false;
      }
      var modulus :| modulus in moduli;
      assert |moduli - {modulus}| == 0;
      assert moduli == {modulus};
      same := modulus == buckets;
      assert !same ==> modulus !in {buckets};
    }

    /** `[sql for i, sql in enumerate(sqls[1:]) if name_h{i} not in existing]`. */
    method FilterExisting(existing: set<Name>, day: int, buckets: nat, sqls: seq<Ddl>) returns (missing: seq<Ddl>)
      requires sqls == AllChildren(day, buckets, buckets)
      ensures missing == Missing(existing, day, buckets, buckets)
    {
      missing := [];
      ChildrenLength(day, buckets, buckets);
      var i := 0;
      while i < |sqls|
        invariant 0 <= i <= |sqls| == buckets
        invariant missing == Missing(existing, day, buckets, i)
      {
        ChildAt(day, buckets, buckets, i);
        if ChildName(day, i) !in existing { missing := missing + [sqls[i]]; }
        i := i + 1;
      }
    }

    /** `with transaction.atomic()`: the first refused statement rolls all of them back. */
    method RunAtomically(sqls: seq<Ddl>) returns (ok: bool)
      modifies this
      ensures ok <==> ExecAll(old(tables), sqls).Some?
      ensures tables == if ok then ExecAll(old(tables), sqls).value else old(tables)
    {
      var now := tables;
      var i := 0;
      while i < |sqls|
        invariant 0 <= i <= |sqls|
        invariant ExecAll(old(tables), sqls[..i]) == Some(now) && tables == old(tables)
      {
        assert sqls[..i + 1][..i] == sqls[..i];
        match Exec(now, sqls[i])
        case None =>
          RefusedPrefix(tables, sqls, i + 1);
          return false;
        case Some(next) => now := next;
        i := i + 1;
      }
      assert sqls[..|sqls|] == sqls;
      tables := now;
      ok := true;
    }

    /** execute_partition_creation; `None` is an exception. */
    method ExecutePartitionCreation(day: int, lo: int, hi: int, hashBuckets: Option<int>, setting: int) returns (executed: Option<nat>)
      modifies this
      ensures Outcome(tables, executed) == Call(old(tables), day, lo, hi, Buckets(hashBuckets, setting))
    {
      var buckets := Buckets(hashBuckets, setting);
      var rangeExists := RangeName(day) in tables;
      var existing := if rangeExists && buckets > 0 then Children(tables, day) else {};
      if existing != {} {
        var extendable := SameModulus(existing, buckets);
        if !extendable { return Some(0); }
      }
      var sqls := CreateTimePartition(day, lo, hi, buckets);
      var todo := sqls;
      if rangeExists {
        todo := [];
        if buckets > 0 { todo := FilterExisting(existing, day, buckets, sqls[1..]); }
      }
      if todo == [] { return Some(0); }
      var ok := RunAtomically(todo);
      executed := if ok then Some(|todo|) else None;
    }
  }

  lemma {:induction false} ChildAt(day: int, modulus: nat, k: nat, i: nat)
    requires i < k
    ensures |AllChildren(day, modulus, k)| == k && AllChildren(day, modulus, k)[i] == CreateChild(day, i, modulus)
  {
    ChildrenLength(day, modulus, k - 1);
    if i < k - 1 {
      ChildAt(day, modulus, k - 1, i);
    }
  }

  lemma {:induction false} ChildrenLength(day: int, modulus: nat, k: nat)
    ensures |AllChildren(day, modulus, k)| == k
  {
    if k > 0 { ChildrenLength(day, modulus, k - 1); }
  }

  /** Once a statement is refused the transaction stays refused. */
  lemma {:induction false} RefusedPrefix(c: Catalog, ds: seq<Ddl>, i: nat)
    requires i <= |ds| && ExecAll(c, ds[..i]) == None
    ensures ExecAll(c, ds) == None
    decreases |ds|
  {
    if i < |ds| {
      assert ds[..|ds| - 1][..i] == ds[..i];
      RefusedPrefix(c, ds[..|ds| - 1], i);
    } else {
      assert ds[..i] == ds;
    }
  }

  // ----- consistent catalogs -----

  /** A range partition is a proper range under the root; `_h{i}` is bucket i of its own hashed
      range partition; a range partition divided some other way is left to others. */
  predicate WellPlaced(c: Catalog, n: Name)
    requires n in c
  {
    match n
    case RangeName(_) => c[n].parent == Root && c[n].bounds.RangeBounds? && c[n].bounds.lo < c[n].bounds.hi
    case ChildName(day, i) =>
      && RangeName(day) in c && c[RangeName(day)].strategy == ByHash && c[n].strategy == Plain
      && c[n].parent == Under(day) && c[n].bounds.HashBounds? && c[n].bounds.remainder == i < c[n].bounds.modulus
    case OtherName(_) =>
      && (c[n].parent == Root ==> c[n].bounds.RangeBounds? && c[n].bounds.lo < c[n].bounds.hi)
      && (c[n].parent.Under? ==> RangeName(c[n].parent.day) in c && c[RangeName(c[n].parent.day)].strategy == ByOther && c[n].bounds.OtherBounds?)
  }

  ghost predicate Consistent(c: Catalog) {
    && (forall n :: n in c ==> WellPlaced(c, n))
    && (forall day, i, j :: ChildName(day, i) in c && ChildName(day, j) in c ==> c[ChildName(day, i)].bounds.modulus == c[ChildName(day, j)].bounds.modulus)
    && (forall m, n :: m in c && n in c && m != n && c[m].parent == Root && c[n].parent == Root ==> !RangesOverlap(c[m].bounds, c[n].bounds))
  }

  /** Every bucket of the range partition is there, and no other. */
  ghost predicate FullSet(c: Catalog, day: int, modulus: nat) {
    modulus > 0 && forall i: nat :: if i < modulus then ChildName(day, i) in c && c[ChildName(day, i)].bounds == HashBounds(modulus, i) else ChildName(day, i) !in c
  }

  /** No hashed range partition is missing a bucket. */
  ghost predicate Complete(c: Catalog) {
    forall day :: RangeName(day) in c && c[RangeName(day)].strategy == ByHash ==> exists modulus :: FullSet(c, day, modulus)
  }

  lemma OwnChildrenListed(c: Catalog, day: int, i: nat)
    requires Consistent(c)
    ensures ChildName(day, i) in Children(c, day) <==> ChildName(day, i) in c
  {
  }

  /** A hashed range partition's existing buckets all have this modulus, so it can take another. */
  ghost predicate Takes(c: Catalog, day: int, modulus: nat) {
    && Consistent(c) && modulus > 0 && RangeName(day) in c && c[RangeName(day)].strategy == ByHash
    && forall i :: ChildName(day, i) in c ==> c[ChildName(day, i)].bounds.modulus == modulus
  }

  /** The catalog with the first k buckets there. */
  function Filled(c: Catalog, day: int, modulus: nat, k: nat): Catalog {
    if k == 0 then c
    else
      var b := Filled(c, day, modulus, k - 1);
      if ChildName(day, k - 1) in b then b else b[ChildName(day, k - 1) := Table(Under(day), HashBounds(modulus, k - 1), Plain)]
  }

  /** Equal moduli clash only on equal remainders. */
  lemma OneModulusNoClash(modulus: nat, r: nat, i: nat)
    requires r < modulus && i < modulus && r != i
    ensures !HashesClash(HashBounds(modulus, r), HashBounds(modulus, i))
  {
    assert r % modulus == r && i % modulus == i;
  }

  lemma NoSiblingClashes(c: Catalog, day: int, modulus: nat, i: nat, n: Name)
    requires Takes(c, day, modulus) && i < modulus && ChildName(day, i) !in c && n in c && c[n].parent == Under(day)
    ensures !HashesClash(c[n].bounds, HashBounds(modulus, i))
  {
    assert WellPlaced(c, n);
    assert n == ChildName(day, n.i);
    OneModulusNoClash(modulus, n.i, i);
  }

  lemma BucketAccepted(c: Catalog, day: int, modulus: nat, i: nat)
    requires Takes(c, day, modulus) && i < modulus && ChildName(day, i) !in c
    ensures Exec(c, CreateChild(day, i, modulus)) == Some(c[ChildName(day, i) := Table(Under(day), HashBounds(modulus, i), Plain)])
  {
    forall n | n in c && c[n].parent == Under(day) ensures !HashesClash(c[n].bounds, HashBounds(modulus, i)) {
      NoSiblingClashes(c, day, modulus, i, n);
    }
  }

  lemma BucketKeeps(c: Catalog, day: int, modulus: nat, i: nat)
    requires Takes(c, day, modulus) && i < modulus && ChildName(day, i) !in c
    ensures Takes(c[ChildName(day, i) := Table(Under(day), HashBounds(modulus, i), Plain)], day, modulus)
  {
    var b := c[ChildName(day, i) := Table(Under(day), HashBounds(modulus, i), Plain)];
    forall n | n in b ensures WellPlaced(b, n) {
      assert n in c ==> WellPlaced(c, n);
    }
  }

  lemma {:induction false} FilledAdds(c: Catalog, day: int, modulus: nat, k: nat, n: Name)
    ensures n in c ==> n in Filled(c, day, modulus, k) && Filled(c, day, modulus, k)[n] == c[n]
    ensures n !in c ==> (n in Filled(c, day, modulus, k) <==> n.ChildName? && n.day == day && n.i < k)
    ensures n !in c && n in Filled(c, day, modulus, k) ==> Filled(c, day, modulus, k)[n] == Table(Under(day), HashBounds(modulus, n.i), Plain)
  {
    if k > 0 {
      FilledAdds(c, day, modulus, k - 1, n);
    }
  }

  lemma FilledStep(c: Catalog, day: int, modulus: nat, k: nat)
    requires Takes(c, day, modulus) && k < modulus && Takes(Filled(c, day, modulus, k), day, modulus)
    ensures Takes(Filled(c, day, modulus, k + 1), day, modulus)
    ensures ChildName(day, k) in c ==> Filled(c, day, modulus, k + 1) == Filled(c, day, modulus, k)
    ensures ChildName(day, k) !in c ==> Exec(Filled(c, day, modulus, k), CreateChild(day, k, modulus)) == Some(Filled(c, day, modulus, k + 1))
  {
    FilledAdds(c, day, modulus, k, ChildName(day, k));
    if ChildName(day, k) !in c {
      BucketAccepted(Filled(c, day, modulus, k), day, modulus, k);
      BucketKeeps(Filled(c, day, modulus, k), day, modulus, k);
    }
  }

  lemma ExecOneMore(c: Catalog, ds: seq<Ddl>, d: Ddl)
    requires ExecAll(c, ds).Some?
    ensures ExecAll(c, ds + [d]) == Exec(ExecAll(c, ds).value, d)
  {
    assert (ds + [d])[..|ds|] == ds;
  }

  /** The planned statements for a hashed range partition all succeed, and fill exactly the gaps. */
  lemma {:induction false} FillingWorks(c: Catalog, day: int, modulus: nat, k: nat)
    requires Takes(c, day, modulus) && k <= modulus
    ensures ExecAll(c, Missing(Children(c, day), day, modulus, k)) == Some(Filled(c, day, modulus, k))
    ensures Takes(Filled(c, day, modulus, k), day, modulus)
  {
    if k > 0 {
      FillingWorks(c, day, modulus, k - 1);
      FilledStep(c, day, modulus, k - 1);
      OwnChildrenListed(c, day, k - 1);
      var ds := Missing(Children(c, day), day, modulus, k - 1);
      if ChildName(day, k - 1) !in c {
        ExecOneMore(c, ds, CreateChild(day, k - 1, modulus));
      } else {
        assert ds + [] == ds;
      }
    }
  }

  lemma FilledIsFull(c: Catalog, day: int, modulus: nat)
    requires Takes(c, day, modulus)
    ensures FullSet(Filled(c, day, modulus, modulus), day, modulus)
  {
    forall i: nat ensures if i < modulus then ChildName(day, i) in Filled(c, day, modulus, modulus) && Filled(c, day, modulus, modulus)[ChildName(day, i)].bounds == HashBounds(modulus, i)
                          else ChildName(day, i) !in Filled(c, day, modulus, modulus) {
      FilledAdds(c, day, modulus, modulus, ChildName(day, i));
      assert ChildName(day, i) in c ==> WellPlaced(c, ChildName(day, i));
    }
  }

  // ----- what a call does, case by case -----

  function WithRange(c: Catalog, day: int, lo: int, hi: int, strategy: Strategy): Catalog {
    c[RangeName(day) := Table(Root, RangeBounds(lo, hi), strategy)]
  }

  lemma RangeKeeps(c: Catalog, day: int, lo: int, hi: int, strategy: Strategy)
    requires Consistent(c) && RangeName(day) !in c && !RangeRefused(c, lo, hi)
    ensures Consistent(WithRange(c, day, lo, hi, strategy))
    ensures forall i :: ChildName(day, i) !in WithRange(c, day, lo, hi, strategy)
  {
    var b := WithRange(c, day, lo, hi, strategy);
    forall n | n in b ensures WellPlaced(b, n) {
      assert n in c ==> WellPlaced(c, n);
    }
    forall i ensures ChildName(day, i) !in b {
      assert ChildName(day, i) in c ==> WellPlaced(c, ChildName(day, i));
    }
  }

  lemma {:induction false} AllMissing(names: set<Name>, day: int, modulus: nat, k: nat)
    requires forall i :: ChildName(day, i) !in names
    ensures Missing(names, day, modulus, k) == AllChildren(day, modulus, k)
  {
    if k > 0 { AllMissing(names, day, modulus, k - 1); }
  }

  lemma {:induction false} ExecFirst(c: Catalog, d: Ddl, ds: seq<Ddl>)
    ensures ExecAll(c, [d] + ds) == if Exec(c, d).None? then None else ExecAll(Exec(c, d).value, ds)
  {
    if ds == [] {
      assert [d] + ds == [d] && [d][..0] == [];
    } else {
      assert ([d] + ds)[..|ds|] == [d] + ds[..|ds| - 1];
      ExecFirst(c, d, ds[..|ds| - 1]);
    }
  }

  lemma ExecSingle(c: Catalog, d: Ddl)
    ensures ExecAll(c, [d]) == Exec(c, d)
  {
    assert [d][..0] == [];
  }

  lemma NewRangeRefused(c: Catalog, day: int, lo: int, hi: int, buckets: int)
    requires RangeName(day) !in c && RangeRefused(c, lo, hi)
    ensures ExecAll(c, Statements(day, lo, hi, buckets)) == None
  {
    if buckets <= 0 {
      ExecSingle(c, CreateRange(day, lo, hi, Plain));
    } else {
      ExecFirst(c, CreateRange(day, lo, hi, ByHash), AllChildren(day, buckets, buckets));
    }
  }

  lemma NewHashedRange(c: Catalog, day: int, lo: int, hi: int, buckets: int)
    requires Consistent(c) && RangeName(day) !in c && !RangeRefused(c, lo, hi) && buckets > 0
    ensures Takes(WithRange(c, day, lo, hi, ByHash), day, buckets)
    ensures ExecAll(c, Statements(day, lo, hi, buckets)) == Some(Filled(WithRange(c, day, lo, hi, ByHash), day, buckets, buckets))
    ensures |Statements(day, lo, hi, buckets)| == buckets + 1
  {
    var b := WithRange(c, day, lo, hi, ByHash);
    RangeKeeps(c, day, lo, hi, ByHash);
    assert Takes(b, day, buckets);
    AllMissing(Children(b, day), day, buckets, buckets);
    FillingWorks(b, day, buckets, buckets);
    ChildrenLength(day, buckets, buckets);
    assert Exec(c, CreateRange(day, lo, hi, ByHash)) == Some(b);
    ExecFirst(c, CreateRange(day, lo, hi, ByHash), AllChildren(day, buckets, buckets));
  }

  /** A new date: all of the range partition and its buckets, or an exception and nothing. */
  lemma NewDateCall(c: Catalog, day: int, lo: int, hi: int, buckets: int)
    requires Consistent(c) && RangeName(day) !in c
    ensures Call(c, day, lo, hi, buckets) ==
            if RangeRefused(c, lo, hi) then Outcome(c, None)
            else if buckets <= 0 then Outcome(WithRange(c, day, lo, hi, Plain), Some(1))
            else Outcome(Filled(WithRange(c, day, lo, hi, ByHash), day, buckets, buckets), Some(buckets + 1))
    ensures !RangeRefused(c, lo, hi) && buckets > 0 ==> Takes(WithRange(c, day, lo, hi, ByHash), day, buckets)
  {
    if RangeRefused(c, lo, hi) {
      NewRangeRefused(c, day, lo, hi, buckets);
    } else if buckets <= 0 {
      ExecSingle(c, CreateRange(day, lo, hi, Plain));
    } else {
      NewHashedRange(c, day, lo, hi, buckets);
    }
  }

  /** The configured count fits a range partition that has only such buckets, or none yet. */
  ghost predicate Fits(c: Catalog, day: int, buckets: int) {
    buckets > 0 && forall i :: ChildName(day, i) in c ==> c[ChildName(day, i)].bounds.HashBounds? && c[ChildName(day, i)].bounds.modulus == buckets
  }

  lemma FittingModuli(c: Catalog, day: int, buckets: nat)
    requires Consistent(c) && RangeName(day) in c && c[RangeName(day)].strategy == ByHash && Children(c, day) != {}
    ensures Moduli(c, Children(c, day)) == {buckets} <==> Fits(c, day, buckets)
  {
    var kid :| kid in Children(c, day);
    forall n | n in Children(c, day) ensures n.ChildName? && n.day == day && c[n].bounds.HashBounds? {
      assert WellPlaced(c, n);
    }
    var i := kid.i;
    assert kid == ChildName(day, i) && c[kid].bounds.modulus in Moduli(c, Children(c, day));
    forall n | n in Children(c, day) ensures c[n].bounds.modulus == c[kid].bounds.modulus {
      assert n == ChildName(day, n.i);
    }
    assert Moduli(c, Children(c, day)) == {c[kid].bounds.modulus};
    if Fits(c, day, buckets) {
      assert c[ChildName(day, i)].bounds.modulus == buckets;
    } else if buckets > 0 {
      assert forall j :: ChildName(day, j) in c ==> ChildName(day, j) in Children(c, day) by {
        forall j | ChildName(day, j) in c ensures ChildName(day, j) in Children(c, day) { OwnChildrenListed(c, day, j); }
      }
    } else {
      assert WellPlaced(c, kid);
    }
  }

  /** A hashed range partition: exactly the missing buckets if the count fits, otherwise nothing. */
  lemma HashedDateCall(c: Catalog, day: int, lo: int, hi: int, buckets: int)
    requires Consistent(c) && RangeName(day) in c && c[RangeName(day)].strategy == ByHash
    ensures Call(c, day, lo, hi, buckets) ==
            if Fits(c, day, buckets) then Outcome(Filled(c, day, buckets, buckets), Some(|Missing(Children(c, day), day, buckets, buckets)|))
            else Outcome(c, Some(0))
    ensures Fits(c, day, buckets) ==> Takes(c, day, buckets)
  {
    if buckets > 0 {
      if Children(c, day) != {} {
        FittingModuli(c, day, buckets);
      } else {
        forall i ensures ChildName(day, i) !in c { OwnChildrenListed(c, day, i); }
      }
      if Fits(c, day, buckets) {
        FillingWorks(c, day, buckets, buckets);
      }
    }
  }

  /** Any other existing table: never changed; an exception if buckets are asked of a childless one. */
  lemma OtherDateCall(c: Catalog, day: int, lo: int, hi: int, buckets: int)
    requires Consistent(c) && RangeName(day) in c && c[RangeName(day)].strategy != ByHash
    ensures Call(c, day, lo, hi, buckets) == Outcome(c, if buckets > 0 && Children(c, day) == {} then None else Some(0))
  {
    if buckets > 0 {
      var kids := Children(c, day);
      if kids == {} {
        AllMissing(kids, day, buckets, buckets);
        FirstChildRefused(c, day, buckets, buckets);
      } else {
        forall n | n in kids ensures !c[n].bounds.HashBounds? {
          assert WellPlaced(c, n);
        }
        assert Moduli(c, kids) == {};
        assert buckets !in Moduli(c, kids);
      }
    }
  }

  lemma {:induction false} FirstChildRefused(c: Catalog, day: int, modulus: nat, k: nat)
    requires Consistent(c) && RangeName(day) in c && c[RangeName(day)].strategy != ByHash && k > 0
    ensures ExecAll(c, AllChildren(day, modulus, k)) == None
  {
    var init := AllChildren(day, modulus, k - 1);
    assert (init + [CreateChild(day, k - 1, modulus)])[..|init|] == init;
    if k == 1 {
      assert ChildName(day, 0) in c ==> WellPlaced(c, ChildName(day, 0));
    } else {
      FirstChildRefused(c, day, modulus, k - 1);
    }
  }

  // ----- what every call keeps -----

  /** Every table of b is still in c, the same. */
  predicate Keeps(b: Catalog, c: Catalog) {
    forall n :: n in b ==> n in c && c[n] == b[n]
  }

  lemma FilledKeeps(c: Catalog, day: int, modulus: nat)
    requires Takes(c, day, modulus)
    ensures Consistent(Filled(c, day, modulus, modulus)) && Keeps(c, Filled(c, day, modulus, modulus))
    ensures FullSet(Filled(c, day, modulus, modulus), day, modulus)
  {
    FillingWorks(c, day, modulus, modulus);
    FilledIsFull(c, day, modulus);
    forall n | n in c ensures n in Filled(c, day, modulus, modulus) && Filled(c, day, modulus, modulus)[n] == c[n] {
      FilledAdds(c, day, modulus, modulus, n);
    }
  }

  /** Whatever the dates and bucket count, and whether it returns or raises, a call keeps the
      catalog consistent and changes no table that was there. */
  lemma CallKeepsConsistent(c: Catalog, day: int, lo: int, hi: int, buckets: int)
    requires Consistent(c)
    ensures Consistent(Call(c, day, lo, hi, buckets).tables) && Keeps(c, Call(c, day, lo, hi, buckets).tables)
  {
    if RangeName(day) !in c {
      NewDateCall(c, day, lo, hi, buckets);
      if !RangeRefused(c, lo, hi) {
        RangeKeeps(c, day, lo, hi, Plain);
        if buckets > 0 { FilledKeeps(WithRange(c, day, lo, hi, ByHash), day, buckets); }
      }
    } else if c[RangeName(day)].strategy == ByHash {
      HashedDateCall(c, day, lo, hi, buckets);
      if Fits(c, day, buckets) { FilledKeeps(c, day, buckets); }
    } else {
      OtherDateCall(c, day, lo, hi, buckets);
    }
  }

  lemma OtherSetStays(c: Catalog, day: int, modulus: nat, k: nat, other: int, m: nat)
    requires other != day && FullSet(c, other, m)
    ensures FullSet(Filled(c, day, modulus, k), other, m)
  {
    var b := Filled(c, day, modulus, k);
    forall i: nat ensures if i < m then ChildName(other, i) in b && b[ChildName(other, i)].bounds == HashBounds(m, i) else ChildName(other, i) !in b {
      FilledAdds(c, day, modulus, k, ChildName(other, i));
    }
  }

  lemma FilledKeepsComplete(c: Catalog, day: int, modulus: nat)
    requires Takes(c, day, modulus)
    requires forall d :: d != day && RangeName(d) in c && c[RangeName(d)].strategy == ByHash ==> exists m :: FullSet(c, d, m)
    ensures Complete(Filled(c, day, modulus, modulus))
  {
    var b := Filled(c, day, modulus, modulus);
    forall d | RangeName(d) in b && b[RangeName(d)].strategy == ByHash ensures exists m :: FullSet(b, d, m) {
      FilledAdds(c, day, modulus, modulus, RangeName(d));
      if d == day {
        FilledIsFull(c, day, modulus);
      } else {
        var m :| FullSet(c, d, m);
        OtherSetStays(c, day, modulus, modulus, d, m);
      }
    }
  }

  lemma RangeLeavesSets(c: Catalog, day: int, lo: int, hi: int, strategy: Strategy, d: int, m: nat)
    requires FullSet(c, d, m)
    ensures FullSet(WithRange(c, day, lo, hi, strategy), d, m)
  {
  }

  lemma NewDateKeepsComplete(c: Catalog, day: int, lo: int, hi: int, buckets: int)
    requires Consistent(c) && Complete(c) && RangeName(day) !in c && !RangeRefused(c, lo, hi)
    ensures Complete(Call(c, day, lo, hi, buckets).tables)
  {
    NewDateCall(c, day, lo, hi, buckets);
    var strategy := if buckets > 0 then ByHash else Plain;
    var b := WithRange(c, day, lo, hi, strategy);
    forall d | d != day && RangeName(d) in b && b[RangeName(d)].strategy == ByHash ensures exists m :: FullSet(b, d, m) {
      var m :| FullSet(c, d, m);
      RangeLeavesSets(c, day, lo, hi, strategy, d, m);
    }
    if buckets > 0 { FilledKeepsComplete(b, day, buckets); }
  }

  /** Nor does a call ever leave a hashed range partition with a bucket missing. */
  lemma CallKeepsComplete(c: Catalog, day: int, lo: int, hi: int, buckets: int)
    requires Consistent(c) && Complete(c)
    ensures Complete(Call(c, day, lo, hi, buckets).tables)
  {
    if RangeName(day) !in c {
      NewDateCall(c, day, lo, hi, buckets);
      if !RangeRefused(c, lo, hi) { NewDateKeepsComplete(c, day, lo, hi, buckets); }
    } else if c[RangeName(day)].strategy == ByHash {
      HashedDateCall(c, day, lo, hi, buckets);
      if Fits(c, day, buckets) { FilledKeepsComplete(c, day, buckets); }
    } else {
      OtherDateCall(c, day, lo, hi, buckets);
    }
  }

  /** One call's arguments. */
  datatype Request = Request(day: int, lo: int, hi: int, buckets: int)

  function Calls(c: Catalog, rs: seq<Request>): Catalog {
    if rs == [] then c else
      var r := rs[|rs| - 1];
      Call(Calls(c, rs[..|rs| - 1]), r.day, r.lo, r.hi, r.buckets).tables
  }

  /** Catalog safety over any sequence of calls: every range partition keeps one modulus, `_h{i}`
      holds remainder i, no two ranges overlap, and no bucket is ever missing. */
  lemma {:induction false} AnyCallsKeepTheCatalog(c: Catalog, rs: seq<Request>)
    requires Consistent(c)
    ensures Consistent(Calls(c, rs)) && Keeps(c, Calls(c, rs))
    ensures Complete(c) ==> Complete(Calls(c, rs))
  {
    if rs != [] {
      var r := rs[|rs| - 1];
      var b := Calls(c, rs[..|rs| - 1]);
      AnyCallsKeepTheCatalog(c, rs[..|rs| - 1]);
      CallKeepsConsistent(b, r.day, r.lo, r.hi, r.buckets);
      if Complete(c) { CallKeepsComplete(b, r.day, r.lo, r.hi, r.buckets); }
    }
  }

  /** How many of the first k buckets are missing. */
  function Gaps(c: Catalog, day: int, k: nat): nat {
    if k == 0 then 0 else Gaps(c, day, k - 1) + if ChildName(day, k - 1) in c then 0 else 1
  }

  lemma {:induction false} GapsMissing(c: Catalog, day: int, modulus: nat, k: nat)
    requires Consistent(c)
    ensures |Missing(Children(c, day), day, modulus, k)| == Gaps(c, day, k)
  {
    if k > 0 {
      GapsMissing(c, day, modulus, k - 1);
      OwnChildrenListed(c, day, k - 1);
    }
  }

  /** A call whose count fits fills exactly the gaps: one statement for each, a full set afterwards,
      and nothing but buckets of this date added. Any other count changes nothing. */
  lemma CallFillsExactlyTheGaps(c: Catalog, day: int, lo: int, hi: int, buckets: int)
    requires Consistent(c) && RangeName(day) in c && c[RangeName(day)].strategy == ByHash
    ensures var after := Call(c, day, lo, hi, buckets);
            if Fits(c, day, buckets) then
              && after.executed == Some(Gaps(c, day, buckets)) && FullSet(after.tables, day, buckets)
              && Keeps(c, after.tables) && forall n :: n in after.tables && n !in c ==> n.ChildName? && n.day == day
            else after == Outcome(c, Some(0))
  {
    HashedDateCall(c, day, lo, hi, buckets);
    if Fits(c, day, buckets) {
      GapsMissing(c, day, buckets, buckets);
      FilledKeeps(c, day, buckets);
      forall n | n in Filled(c, day, buckets, buckets) && n !in c ensures n.ChildName? && n.day == day {
        FilledAdds(c, day, buckets, buckets, n);
      }
    }
  }

  lemma {:induction false} NoGaps(c: Catalog, day: int, modulus: nat, k: nat)
    requires FullSet(c, day, modulus) && k <= modulus
    ensures Gaps(c, day, k) == 0
  {
    if k > 0 { NoGaps(c, day, modulus, k - 1); }
  }

  lemma FullSetRepeat(c: Catalog, day: int, lo: int, hi: int, buckets: int)
    requires Consistent(c) && RangeName(day) in c && c[RangeName(day)].strategy == ByHash && buckets > 0 && FullSet(c, day, buckets)
    ensures Call(c, day, lo, hi, buckets) == Outcome(c, Some(0))
  {
    HashedDateCall(c, day, lo, hi, buckets);
    if Fits(c, day, buckets) {
      GapsMissing(c, day, buckets, buckets);
      NoGaps(c, day, buckets, buckets);
      assert Missing(Children(c, day), day, buckets, buckets) == [];
      assert Plan(c, day, lo, hi, buckets) == [];
    }
  }

  /** A call that did not raise, repeated at once, executes nothing. */
  lemma RepeatExecutesNothing(c: Catalog, day: int, lo: int, hi: int, buckets: int)
    requires Consistent(c) && Call(c, day, lo, hi, buckets).executed.Some?
    ensures var b := Call(c, day, lo, hi, buckets).tables;
            Call(b, day, lo, hi, buckets) == Outcome(b, Some(0))
  {
    CallKeepsConsistent(c, day, lo, hi, buckets);
    var b := Call(c, day, lo, hi, buckets).tables;
    if RangeName(day) !in c {
      NewDateCall(c, day, lo, hi, buckets);
      if buckets > 0 {
        FilledKeeps(WithRange(c, day, lo, hi, ByHash), day, buckets);
        FullSetRepeat(b, day, lo, hi, buckets);
      }
    } else if c[RangeName(day)].strategy == ByHash {
      CallFillsExactlyTheGaps(c, day, lo, hi, buckets);
      if Fits(c, day, buckets) { FullSetRepeat(b, day, lo, hi, buckets); } else { HashedDateCall(b, day, lo, hi, buckets); }
    } else {
      OtherDateCall(c, day, lo, hi, buckets);
    }
  }

  /** Exactly when a call raises, and that it then changes nothing: a new range that is empty or
      overlaps, or buckets asked of an existing table that has no children and is not hashed. */
  lemma CallRaisesExactly(c: Catalog, day: int, lo: int, hi: int, buckets: int)
    requires Consistent(c)
    ensures Call(c, day, lo, hi, buckets).executed == None <==>
            if RangeName(day) !in c then RangeRefused(c, lo, hi)
            else buckets > 0 && c[RangeName(day)].strategy != ByHash && Children(c, day) == {}
    ensures Call(c, day, lo, hi, buckets).executed == None ==> Call(c, day, lo, hi, buckets).tables == c
  {
    if RangeName(day) !in c {
      NewDateCall(c, day, lo, hi, buckets);
    } else if c[RangeName(day)].strategy == ByHash {
      HashedDateCall(c, day, lo, hi, buckets);
    } else {
      OtherDateCall(c, day, lo, hi, buckets);
    }
  }

  lemma {:induction false} ChildrenOnly(day: int, modulus: nat, names: set<Name>, k: nat)
    ensures forall d :: d in Missing(names, day, modulus, k) ==> d.CreateChild? && d.day == day
    ensures forall d :: d in AllChildren(day, modulus, k) ==> d.CreateChild? && d.day == day
  {
    if k > 0 { ChildrenOnly(day, modulus, names, k - 1); }
  }

  /** Statements for one date create no other date's table, in any catalog. */
  lemma {:induction false} ExecStaysOnDate(c: Catalog, ds: seq<Ddl>, day: int, n: Name)
    requires forall d :: d in ds ==> d.day == day
    requires ExecAll(c, ds).Some? && (n in c || n.OtherName? || n.day != day)
    ensures n in ExecAll(c, ds).value <==> n in c
    ensures n in c ==> ExecAll(c, ds).value[n] == c[n]
  {
    if ds != [] {
      ExecStaysOnDate(c, ds[..|ds| - 1], day, n);
      assert ds[|ds| - 1] in ds;
    }
  }

  /** And the tables they do create are that date's own. */
  lemma {:induction false} ExecAddsUnderDate(c: Catalog, ds: seq<Ddl>, day: int, n: Name)
    requires forall d :: d in ds ==> d.day == day
    requires ExecAll(c, ds).Some? && n !in c && n in ExecAll(c, ds).value
    ensures ExecAll(c, ds).value[n].parent == Root || ExecAll(c, ds).value[n].parent == Under(day)
  {
    if ds != [] {
      if n in ExecAll(c, ds[..|ds| - 1]).value { ExecAddsUnderDate(c, ds[..|ds| - 1], day, n); }
      assert ds[|ds| - 1] in ds;
    }
  }

  lemma PlanStaysOnDate(c: Catalog, day: int, lo: int, hi: int, buckets: int)
    ensures forall d :: d in Plan(c, day, lo, hi, buckets) ==> d.day == day
  {
    if buckets > 0 { ChildrenOnly(day, buckets, Children(c, day), buckets); }
  }

  /** The date's children, none of which fits the count, are all still there and no other. */
  ghost predicate SameChildren(b: Catalog, c: Catalog, day: int) {
    && RangeName(day) in b && RangeName(day) in c && b[RangeName(day)] == c[RangeName(day)]
    && Children(b, day) == Children(c, day) && forall n :: n in Children(c, day) ==> b[n] == c[n]
  }

  lemma OtherDateKeepsChildren(c: Catalog, day: int, other: int, lo: int, hi: int, buckets: int)
    requires RangeName(day) in c && other != day
    ensures SameChildren(Call(c, other, lo, hi, buckets).tables, c, day)
  {
    var ds := Plan(c, other, lo, hi, buckets);
    PlanStaysOnDate(c, other, lo, hi, buckets);
    if ExecAll(c, ds).Some? {
      var b := ExecAll(c, ds).value;
      ExecStaysOnDate(c, ds, other, RangeName(day));
      forall n ensures n in Children(b, day) <==> n in Children(c, day)
               ensures n in Children(c, day) ==> b[n] == c[n] {
        if n in c {
          ExecStaysOnDate(c, ds, other, n);
        } else if n in b {
          ExecAddsUnderDate(c, ds, other, n);
        }
      }
    }
  }

  lemma SameModuli(b: Catalog, c: Catalog, day: int)
    requires SameChildren(b, c, day)
    ensures Moduli(b, Children(b, day)) == Moduli(c, Children(c, day))
  {
    forall m ensures m in Moduli(b, Children(b, day)) <==> m in Moduli(c, Children(c, day)) {
      if m in Moduli(b, Children(b, day)) {
        var n :| n in Children(b, day) && n in b && b[n].bounds.HashBounds? && b[n].bounds.modulus == m;
        assert n in Children(c, day) && c[n] == b[n];
      }
      if m in Moduli(c, Children(c, day)) {
        var n :| n in Children(c, day) && n in c && c[n].bounds.HashBounds? && c[n].bounds.modulus == m;
        assert n in Children(b, day) && b[n] == c[n];
      }
    }
  }

  /** In any catalog whatever, a date whose children expose another modulus, several or none keeps
      exactly those children over any sequence of calls, for any dates, in which it is never
      asked for the one modulus they all have. */
  lemma {:induction false} UnexpectedChildrenSurvive(c: Catalog, day: int, rs: seq<Request>)
    requires RangeName(day) in c && Children(c, day) != {}
    requires forall r :: r in rs && r.day == day ==> Moduli(c, Children(c, day)) != {r.buckets}
    ensures SameChildren(Calls(c, rs), c, day)
  {
    if rs != [] {
      var init, r := rs[..|rs| - 1], rs[|rs| - 1];
      var b := Calls(c, init);
      UnexpectedChildrenSurvive(c, day, init);
      if r.day != day {
        OtherDateKeepsChildren(b, day, r.day, r.lo, r.hi, r.buckets);
      } else {
        SameModuli(b, c, day);
        assert r in rs;
        assert ExecAll(b, []) == Some(b);
      }
    }
  }

  // ----- covering a date range -----

  const DAY_US: int := 86_400_000_000

  /** The UTC date a partition is named for. */
  function DayOf(us: int): int {
    us / DAY_US
  }

  datatype KeyType = ByUuid7 | ByDatetime

  /** A date bound in the partition key's own order. */
  function KeyAt(us: Instant, key: KeyType): int {
    if key == ByUuid7 then Bound(us, true) else us
  }

  datatype Interval = Days(n: int) | Week | Day | Unknown

  /** The interval in days; any other string is a ValueError. */
  function IntervalDays(i: Interval): Option<int> {
    match i
    case Days(n) => Some(n)
    case Week => Some(7)
    case Day => Some(1)
    case Unknown => None
  }

  function Next(current: Instant, end: Instant, step: int): Instant
    requires current < end && step > 0
  {
    if current + step > end then end else current + step
  }

  /** The loop: one call a date, counting the dates for which anything was executed. */
  function CreateRanges(c: Catalog, current: Instant, end: Instant, step: int, buckets: int, key: KeyType, count: nat): Outcome
    requires step > 0
    decreases end - current
  {
    if current >= end then Outcome(c, Some(count))
    else
      var next := Next(current, end, step);
      var o := Call(c, DayOf(current), KeyAt(current, key), KeyAt(next, key), buckets);
      if o.executed.None? then Outcome(o.tables, None)
      else CreateRanges(o.tables, next, end, step, buckets, key, count + if o.executed.value > 0 then 1 else 0)
  }

  /** The days up to this one that have a range partition. */
  function RangeDays(c: Catalog, day: int): set<int> {
    set n | n in c && n.RangeName? && n.day <= day :: n.day
  }

  lemma CallAddsOwnRange(c: Catalog, day: int, lo: int, hi: int, buckets: int)
    requires Call(c, day, lo, hi, buckets).executed.Some? && lo >= hi
    ensures forall d :: RangeName(d) in Call(c, day, lo, hi, buckets).tables <==> RangeName(d) in c
    ensures RangeName(day) in c
  {
    var ds := Plan(c, day, lo, hi, buckets);
    PlanStaysOnDate(c, day, lo, hi, buckets);
    if RangeName(day) !in c { NewRangeRefused(c, day, lo, hi, buckets); }
    forall d ensures RangeName(d) in ExecAll(c, ds).value <==> RangeName(d) in c {
      ExecStaysOnDate(c, ds, day, RangeName(d));
    }
  }

  lemma GoingBack(c: Catalog, b: Catalog, day: int, earlier: int)
    requires RangeName(day) in c && earlier < day && forall d :: RangeName(d) in b <==> RangeName(d) in c
    ensures |RangeDays(b, earlier)| < |RangeDays(c, day)|
  {
    assert day in RangeDays(c, day) by { assert RangeName(day).day == day; }
    forall d | d in RangeDays(b, earlier) ensures d in RangeDays(c, day) - {day} {
      assert RangeName(d) in b;
      assert RangeName(d) in c && RangeName(d).day == d;
    }
    SubsetSize(RangeDays(b, earlier), RangeDays(c, day) - {day});
  }

  lemma KeysDoNotAdvance(current: Instant, next: Instant, key: KeyType)
    requires next <= current
    ensures KeyAt(current, key) >= KeyAt(next, key)
  {
    if key == ByUuid7 { BoundsAscend(next, current); }
  }

  lemma DayRecedes(current: int, step: int)
    requires step <= -DAY_US
    ensures DayOf(current + step) < DayOf(current)
  {
  }

  lemma BackStep(c: Catalog, current: Instant, next: Instant, buckets: int, key: KeyType)
    requires current - next >= DAY_US
    requires Call(c, DayOf(current), KeyAt(current, key), KeyAt(next, key), buckets).executed.Some?
    ensures |RangeDays(Call(c, DayOf(current), KeyAt(current, key), KeyAt(next, key), buckets).tables, DayOf(next))|
            < |RangeDays(c, DayOf(current))|
  {
    KeysDoNotAdvance(current, next, key);
    CallAddsOwnRange(c, DayOf(current), KeyAt(current, key), KeyAt(next, key), buckets);
    DayRecedes(current, next - current);
    GoingBack(c, Call(c, DayOf(current), KeyAt(current, key), KeyAt(next, key), buckets).tables, DayOf(current), DayOf(next));
  }

  /** The loop with an interval that goes back: every turn asks for a range that ends before it
      starts, so it ends with an exception at the first date that has no partition yet, at the
      first refused bucket, or where the calendar ends. */
  function GoBack(c: Catalog, current: Instant, step: int, buckets: int, key: KeyType): Outcome
    requires step <= -DAY_US
    decreases |RangeDays(c, DayOf(current))|
  {
    if current + step < FIRST_INSTANT then Outcome(c, None)
    else
      var next: Instant := current + step;
      var o := Call(c, DayOf(current), KeyAt(current, key), KeyAt(next, key), buckets);
      if o.executed.None? then o
      else
        BackStep(c, current, next, buckets, key);
        GoBack(o.tables, next, step, buckets, key)
  }

  /** An interval of zero asks for the same empty range again and again. The source ends only if the
      first call raises. */
  predicate LoopEnds(c: Catalog, start: Instant, end: Instant, days: int, buckets: int, key: KeyType) {
    days == 0 && start < end ==> Call(c, DayOf(start), KeyAt(start, key), KeyAt(start, key), buckets).executed.None?
  }

  /** What the loop comes to, for any interval. */
  function AllRanges(c: Catalog, start: Instant, end: Instant, days: int, buckets: int, key: KeyType): Outcome {
    if start >= end then Outcome(c, Some(0))
    else if days > 0 then CreateRanges(c, start, end, days * DAY_US, buckets, key, 0)
    else if days < 0 then GoBack(c, start, days * DAY_US, buckets, key)
    else Outcome(c, None)
  }

  /** create_partitions_for_date_range; None stands for an exception. The one case left out is the
      one in which the source never returns. */
  method CreatePartitionsForDateRange(m: Manager, start: Instant, end: Instant, interval: Interval, hashBuckets: Option<int>,
                                      setting: int, key: KeyType) returns (created: Option<nat>)
    requires IntervalDays(interval).Some? ==>
               LoopEnds(m.tables, start, end, IntervalDays(interval).value, Buckets(hashBuckets, setting), key)
    modifies m
    ensures Outcome(m.tables, created) ==
            if IntervalDays(interval).None? then Outcome(old(m.tables), None)
            else AllRanges(old(m.tables), start, end, IntervalDays(interval).value, Buckets(hashBuckets, setting), key)
  {
    if interval == Unknown { return None; }
    var days := IntervalDays(interval).value;
    if start >= end {
      created := Some(0);
    } else if days > 0 {
      created := CreateEach(m, start, end, days * DAY_US, hashBuckets, setting, key);
    } else if days < 0 {
      created := CreateBackwards(m, start, end, days * DAY_US, hashBuckets, setting, key);
    } else {
      // the first turn raises
      created := m.ExecutePartitionCreation(DayOf(start), KeyAt(start, key), KeyAt(start, key), hashBuckets, setting);
    }
  }

  /** The loop when the interval goes back. */
  method CreateBackwards(m: Manager, start: Instant, end: Instant, step: int, hashBuckets: Option<int>, setting: int, key: KeyType)
    returns (created: Option<nat>)
    requires step <= -DAY_US && start < end
    modifies m
    ensures Outcome(m.tables, created) == GoBack(old(m.tables), start, step, Buckets(hashBuckets, setting), key)
  {
    ghost var buckets := Buckets(hashBuckets, setting);
    ghost var whole := GoBack(m.tables, start, step, buckets, key);
    var current: Instant := start;
    while current < end
      invariant current < end && GoBack(m.tables, current, step, buckets, key) == whole
      decreases |RangeDays(m.tables, DayOf(current))|
    {
      if current + step < FIRST_INSTANT { return None; }
      var next, executed := BackOne(m, current, step, hashBuckets, setting, key);
      if executed.None? { return None; }
      current := next;
    }
  }

  method BackOne(m: Manager, current: Instant, step: int, hashBuckets: Option<int>, setting: int, key: KeyType)
    returns (next: Instant, executed: Option<nat>)
    requires step <= -DAY_US && current + step >= FIRST_INSTANT
    modifies m
    ensures next == current + step
    ensures GoBack(old(m.tables), current, step, Buckets(hashBuckets, setting), key) ==
            if executed.None? then Outcome(m.tables, None) else GoBack(m.tables, next, step, Buckets(hashBuckets, setting), key)
    ensures executed.Some? ==> |RangeDays(m.tables, DayOf(next))| < |RangeDays(old(m.tables), DayOf(current))|
  {
    next := current + step;
    executed := m.ExecutePartitionCreation(DayOf(current), KeyAt(current, key), KeyAt(next, key), hashBuckets, setting);
    OneBackMore(old(m.tables), current, next, step, Buckets(hashBuckets, setting), key, Outcome(m.tables, executed));
  }

  lemma OneBackMore(c: Catalog, current: Instant, next: Instant, step: int, buckets: int, key: KeyType, o: Outcome)
    requires step <= -DAY_US && next == current + step
    requires o == Call(c, DayOf(current), KeyAt(current, key), KeyAt(next, key), buckets)
    ensures GoBack(c, current, step, buckets, key) == if o.executed.None? then o else GoBack(o.tables, next, step, buckets, key)
    ensures o.executed.Some? ==> |RangeDays(o.tables, DayOf(next))| < |RangeDays(c, DayOf(current))|
  {
    if o.executed.Some? { BackStep(c, current, next, buckets, key); }
  }

  /** With an interval of zero, a first call that returns is followed by the same call for ever,
      none of which changes anything. */
  lemma ZeroIntervalNeverEnds(c: Catalog, start: Instant, buckets: int, key: KeyType)
    requires Consistent(c)
    requires Call(c, DayOf(start), KeyAt(start, key), KeyAt(start, key), buckets).executed.Some?
    ensures var b := Call(c, DayOf(start), KeyAt(start, key), KeyAt(start, key), buckets).tables;
            Call(b, DayOf(start), KeyAt(start, key), KeyAt(start, key), buckets) == Outcome(b, Some(0))
  {
    RepeatExecutesNothing(c, DayOf(start), KeyAt(start, key), KeyAt(start, key), buckets);
  }

  /** An interval that goes back always ends in an exception. */
  lemma {:induction false} GoingBackRaises(c: Catalog, current: Instant, step: int, buckets: int, key: KeyType)
    requires step <= -DAY_US
    ensures GoBack(c, current, step, buckets, key).executed == None
    decreases |RangeDays(c, DayOf(current))|
  {
    if current + step >= FIRST_INSTANT {
      var next: Instant := current + step;
      var o := Call(c, DayOf(current), KeyAt(current, key), KeyAt(next, key), buckets);
      OneBackMore(c, current, next, step, buckets, key, o);
      if o.executed.Some? {
        GoingBackRaises(o.tables, next, step, buckets, key);
      }
    }
  }

  /** Its loop. */
  method CreateEach(m: Manager, start: Instant, end: Instant, step: int, hashBuckets: Option<int>, setting: int, key: KeyType)
    returns (created: Option<nat>)
    requires step > 0
    modifies m
    ensures Outcome(m.tables, created) == CreateRanges(old(m.tables), start, end, step, Buckets(hashBuckets, setting), key, 0)
  {
    ghost var buckets := Buckets(hashBuckets, setting);
    ghost var whole := CreateRanges(m.tables, start, end, step, buckets, key, 0);
    var count := 0;
    var current: Instant := start;
    while current < end
      invariant CreateRanges(m.tables, current, end, step, buckets, key, count) == whole
      decreases end - current
    {
      var next, executed := CreateOne(m, current, end, step, hashBuckets, setting, key, count);
      if executed.None? { return None; }
      if executed.value > 0 { count := count + 1; }
      current := next;
    }
    created := Some(count);
  }

  /** One turn of the loop. */
  method CreateOne(m: Manager, current: Instant, end: Instant, step: int, hashBuckets: Option<int>, setting: int, key: KeyType, ghost count: nat)
    returns (next: Instant, executed: Option<nat>)
    requires step > 0 && current < end
    modifies m
    ensures current < next
    ensures CreateRanges(old(m.tables), current, end, step, Buckets(hashBuckets, setting), key, count) ==
            if executed.None? then Outcome(m.tables, None)
            else CreateRanges(m.tables, next, end, step, Buckets(hashBuckets, setting), key, count + if executed.value > 0 then 1 else 0)
  {
    next := end;
    if current + step <= end { next := current + step; }
    executed := m.ExecutePartitionCreation(DayOf(current), KeyAt(current, key), KeyAt(next, key), hashBuckets, setting);
    OneRangeMore(old(m.tables), current, end, step, Buckets(hashBuckets, setting), key, count, Outcome(m.tables, executed));
  }

  lemma OneRangeMore(c: Catalog, current: Instant, end: Instant, step: int, buckets: int, key: KeyType, count: nat, o: Outcome)
    requires step > 0 && current < end
    requires o == Call(c, DayOf(current), KeyAt(current, key), KeyAt(Next(current, end, step), key), buckets)
    ensures CreateRanges(c, current, end, step, buckets, key, count) ==
            if o.executed.None? then o
            else CreateRanges(o.tables, Next(current, end, step), end, step, buckets, key, count + if o.executed.value > 0 then 1 else 0)
  {
  }

  /** The ranges the loop names, in order. */
  function Tiles(current: Instant, end: Instant, step: int): seq<(Instant, Instant)>
    requires step > 0
    decreases end - current
  {
    if current >= end then [] else [(current, Next(current, end, step))] + Tiles(Next(current, end, step), end, step)
  }

  /** The tiles run from start to end without gap or overlap and are named for different days. */
  lemma {:induction false} TilesTile(start: Instant, end: Instant, step: int)
    requires step >= DAY_US && start < end
    ensures var ts := Tiles(start, end, step);
            && ts != [] && ts[0].0 == start && ts[|ts| - 1].1 == end
            && (forall i :: 0 <= i < |ts| ==> ts[i].0 < ts[i].1)
            && (forall i :: 0 <= i < |ts| - 1 ==> ts[i].1 == ts[i + 1].0)
    decreases end - start
  {
    var next := Next(start, end, step);
    if next < end { TilesTile(next, end, step); }
  }

  lemma {:induction false} TilesFrom(start: Instant, end: Instant, step: int, i: nat)
    requires step >= DAY_US && i < |Tiles(start, end, step)|
    ensures start <= Tiles(start, end, step)[i].0 && DayOf(start) <= DayOf(Tiles(start, end, step)[i].0)
    decreases end - start
  {
    if i > 0 { TilesFrom(Next(start, end, step), end, step, i - 1); }
  }

  lemma {:induction false} TileNamesDistinct(start: Instant, end: Instant, step: int, i: nat, j: nat)
    requires step >= DAY_US && i < j < |Tiles(start, end, step)|
    ensures DayOf(Tiles(start, end, step)[i].0) < DayOf(Tiles(start, end, step)[j].0)
    ensures Tiles(start, end, step)[i].1 <= Tiles(start, end, step)[j].0
    decreases end - start
  {
    var next := Next(start, end, step);
    if i > 0 {
      TileNamesDistinct(next, end, step, i - 1, j - 1);
    } else {
      TilesFrom(next, end, step, j - 1);
      assert next == start + step;
    }
  }

  /** Every moment of the range lies in exactly one tile. */
  lemma {:induction false} ExactlyOneTile(start: Instant, end: Instant, step: int, t: int) returns (k: nat)
    requires step >= DAY_US && start <= t < end
    ensures k < |Tiles(start, end, step)| && Tiles(start, end, step)[k].0 <= t < Tiles(start, end, step)[k].1
    ensures forall i :: 0 <= i < |Tiles(start, end, step)| && Tiles(start, end, step)[i].0 <= t < Tiles(start, end, step)[i].1 ==> i == k
    decreases end - start
  {
    var next := Next(start, end, step);
    if t < next {
      k := 0;
    } else {
      k := ExactlyOneTile(next, end, step, t);
      k := k + 1;
    }
    forall i | 0 <= i < |Tiles(start, end, step)| && i != k
      ensures !(Tiles(start, end, step)[i].0 <= t < Tiles(start, end, step)[i].1)
    {
      if i < k { TileNamesDistinct(start, end, step, i, k); } else { TileNamesDistinct(start, end, step, k, i); }
    }
  }

  // ----- routing -----

  predicate Contains(b: Bounds, key: int) {
    b.RangeBounds? && b.lo <= key < b.hi
  }

  /** The table holds rows of its own and accepts this one. */
  predicate Leaf(c: Catalog, n: Name, key: int, hash: nat) {
    && n in c && c[n].strategy == Plain
    && match n
       case ChildName(day, _) =>
         && RangeName(day) in c && c[n].parent == Under(day) && Contains(c[RangeName(day)].bounds, key)
         && c[n].bounds.HashBounds? && c[n].bounds.modulus > 0 && hash % c[n].bounds.modulus == c[n].bounds.remainder
       case _ => c[n].parent == Root && Contains(c[n].bounds, key)
  }

  ghost predicate ExactlyOneLeaf(c: Catalog, key: int, hash: nat) {
    exists n :: Leaf(c, n, key, hash) && forall m :: Leaf(c, m, key, hash) ==> m == n
  }

  /** Two tables under the root that contain one key are the same. */
  lemma OneRange(c: Catalog, m: Name, n: Name, key: int)
    requires Consistent(c) && m in c && n in c && c[m].parent == Root && c[n].parent == Root
    requires Contains(c[m].bounds, key) && Contains(c[n].bounds, key)
    ensures m == n
  {
    assert RangesOverlap(c[m].bounds, c[n].bounds);
  }

  lemma PlainRangeIsTheLeaf(c: Catalog, day: int, key: int, hash: nat)
    requires Consistent(c) && RangeName(day) in c && Contains(c[RangeName(day)].bounds, key) && c[RangeName(day)].strategy == Plain
    ensures ExactlyOneLeaf(c, key, hash)
  {
    var n := RangeName(day);
    assert WellPlaced(c, n);
    forall m | Leaf(c, m, key, hash) ensures m == n {
      assert WellPlaced(c, m);
      if m.ChildName? {
        assert WellPlaced(c, RangeName(m.day));
        OneRange(c, RangeName(m.day), n, key);
      } else {
        OneRange(c, m, n, key);
      }
    }
    assert Leaf(c, n, key, hash);
  }

  lemma BucketIsTheLeaf(c: Catalog, day: int, key: int, hash: nat, modulus: nat)
    requires Consistent(c) && RangeName(day) in c && Contains(c[RangeName(day)].bounds, key) && c[RangeName(day)].strategy == ByHash
    requires FullSet(c, day, modulus)
    ensures ExactlyOneLeaf(c, key, hash)
  {
    var n := ChildName(day, hash % modulus);
    assert WellPlaced(c, n) && WellPlaced(c, RangeName(day));
    forall m | Leaf(c, m, key, hash) ensures m == n {
      assert WellPlaced(c, m);
      if m.ChildName? {
        assert WellPlaced(c, RangeName(m.day));
        OneRange(c, RangeName(m.day), RangeName(day), key);
      } else {
        OneRange(c, m, RangeName(day), key);
      }
    }
    assert Leaf(c, n, key, hash);
  }

  /** In a consistent catalog with no bucket missing, a row whose key lies in a range partition,
      whatever its hash, has exactly one table to go to. */
  lemma RoutesToOneLeaf(c: Catalog, day: int, key: int, hash: nat)
    requires Consistent(c) && Complete(c) && RangeName(day) in c && c[RangeName(day)].strategy != ByOther
    requires Contains(c[RangeName(day)].bounds, key)
    ensures ExactlyOneLeaf(c, key, hash)
  {
    if c[RangeName(day)].strategy == Plain {
      PlainRangeIsTheLeaf(c, day, key, hash);
    } else {
      var modulus :| FullSet(c, day, modulus);
      BucketIsTheLeaf(c, day, key, hash, modulus);
    }
  }

  /** Partitions already there under the tiles' names have the tiles' bounds. */
  predicate Agrees(c: Catalog, current: Instant, end: Instant, step: int, key: KeyType)
    requires step > 0
    decreases end - current
  {
    current < end ==>
      && (RangeName(DayOf(current)) in c ==>
            && c[RangeName(DayOf(current))].bounds == RangeBounds(KeyAt(current, key), KeyAt(Next(current, end, step), key))
            && c[RangeName(DayOf(current))].strategy != ByOther)
      && Agrees(c, Next(current, end, step), end, step, key)
  }

  lemma CallTouchesItsDate(c: Catalog, day: int, lo: int, hi: int, buckets: int, n: Name)
    requires Consistent(c) && n in Call(c, day, lo, hi, buckets).tables && n !in c
    ensures n == RangeName(day) || (n.ChildName? && n.day == day)
  {
    if RangeName(day) !in c {
      NewDateCall(c, day, lo, hi, buckets);
      if !RangeRefused(c, lo, hi) && buckets > 0 { FilledAdds(WithRange(c, day, lo, hi, ByHash), day, buckets, buckets, n); }
    } else if c[RangeName(day)].strategy == ByHash {
      CallFillsExactlyTheGaps(c, day, lo, hi, buckets);
    } else {
      OtherDateCall(c, day, lo, hi, buckets);
    }
  }

  lemma {:induction false} AgreesStays(c: Catalog, day: int, lo: int, hi: int, buckets: int, current: Instant, end: Instant, step: int, key: KeyType)
    requires Consistent(c) && step >= DAY_US && DayOf(current) > day && Agrees(c, current, end, step, key)
    ensures Agrees(Call(c, day, lo, hi, buckets).tables, current, end, step, key)
    decreases end - current
  {
    if current < end {
      var b := Call(c, day, lo, hi, buckets).tables;
      CallKeepsConsistent(c, day, lo, hi, buckets);
      if RangeName(DayOf(current)) in b && RangeName(DayOf(current)) !in c {
        CallTouchesItsDate(c, day, lo, hi, buckets, RangeName(DayOf(current)));
      }
      if current + step <= end {
        AgreesStays(c, day, lo, hi, buckets, current + step, end, step, key);
      }
    }
  }

  /** A call that returned left its date's range in place with its bounds. */
  lemma CallPlacesRange(c: Catalog, day: int, lo: int, hi: int, buckets: int)
    requires Consistent(c) && Call(c, day, lo, hi, buckets).executed.Some?
    requires RangeName(day) in c ==> c[RangeName(day)].bounds == RangeBounds(lo, hi) && c[RangeName(day)].strategy != ByOther
    ensures var b := Call(c, day, lo, hi, buckets).tables;
            RangeName(day) in b && b[RangeName(day)].bounds == RangeBounds(lo, hi) && b[RangeName(day)].strategy != ByOther
  {
    CallKeepsConsistent(c, day, lo, hi, buckets);
    if RangeName(day) !in c {
      NewDateCall(c, day, lo, hi, buckets);
      if buckets > 0 { FilledAdds(WithRange(c, day, lo, hi, ByHash), day, buckets, buckets, RangeName(day)); }
    }
  }

  lemma {:induction false} RangesKeep(c: Catalog, current: Instant, end: Instant, step: int, buckets: int, key: KeyType, count: nat)
    requires step > 0 && Consistent(c)
    ensures var b := CreateRanges(c, current, end, step, buckets, key, count).tables;
            Consistent(b) && Keeps(c, b) && (Complete(c) ==> Complete(b))
    decreases end - current
  {
    if current < end {
      var next := Next(current, end, step);
      var o := Call(c, DayOf(current), KeyAt(current, key), KeyAt(next, key), buckets);
      CallKeepsConsistent(c, DayOf(current), KeyAt(current, key), KeyAt(next, key), buckets);
      if Complete(c) { CallKeepsComplete(c, DayOf(current), KeyAt(current, key), KeyAt(next, key), buckets); }
      if o.executed.Some? {
        RangesKeep(o.tables, next, end, step, buckets, key, count + if o.executed.value > 0 then 1 else 0);
      }
    }
  }

  /** The first date's range is still there when the loop has gone on to the end. */
  lemma FirstRangeStays(c: Catalog, current: Instant, end: Instant, step: int, buckets: int, key: KeyType, count: nat)
    requires step > 0 && Consistent(c) && current < end && Agrees(c, current, end, step, key)
    requires CreateRanges(c, current, end, step, buckets, key, count).executed.Some?
    ensures var b, n := CreateRanges(c, current, end, step, buckets, key, count).tables, RangeName(DayOf(current));
            n in b && b[n].bounds == RangeBounds(KeyAt(current, key), KeyAt(Next(current, end, step), key)) && b[n].strategy != ByOther
  {
    var next := Next(current, end, step);
    var o := Call(c, DayOf(current), KeyAt(current, key), KeyAt(next, key), buckets);
    CallKeepsConsistent(c, DayOf(current), KeyAt(current, key), KeyAt(next, key), buckets);
    CallPlacesRange(c, DayOf(current), KeyAt(current, key), KeyAt(next, key), buckets);
    RangesKeep(o.tables, next, end, step, buckets, key, count + if o.executed.value > 0 then 1 else 0);
  }

  /** Every key between the ends is in a range partition afterwards. */
  lemma {:induction false} RangesCover(c: Catalog, current: Instant, end: Instant, step: int, buckets: int, key: KeyType, count: nat, k: int)
    returns (day: int)
    requires step >= DAY_US && Consistent(c) && Agrees(c, current, end, step, key)
    requires CreateRanges(c, current, end, step, buckets, key, count).executed.Some?
    requires current < end && KeyAt(current, key) <= k < KeyAt(end, key)
    ensures var b := CreateRanges(c, current, end, step, buckets, key, count).tables;
            RangeName(day) in b && Contains(b[RangeName(day)].bounds, k) && b[RangeName(day)].strategy != ByOther
    decreases end - current
  {
    var next := Next(current, end, step);
    if k < KeyAt(next, key) {
      day := DayOf(current);
      FirstRangeStays(c, current, end, step, buckets, key, count);
    } else {
      var o := Call(c, DayOf(current), KeyAt(current, key), KeyAt(next, key), buckets);
      CallKeepsConsistent(c, DayOf(current), KeyAt(current, key), KeyAt(next, key), buckets);
      AgreesStays(c, DayOf(current), KeyAt(current, key), KeyAt(next, key), buckets, next, end, step, key);
      day := RangesCover(o.tables, next, end, step, buckets, key, count + if o.executed.value > 0 then 1 else 0, k);
    }
  }

  // ----- exactly when the loop returns -----

  /** A call would return: a new range is neither empty nor overlapping, and buckets are asked of an
      existing table only if it is hashed or has children. */
  predicate CallReturns(c: Catalog, day: int, lo: int, hi: int, buckets: int) {
    if RangeName(day) !in c then !RangeRefused(c, lo, hi)
    else buckets > 0 ==> c[RangeName(day)].strategy == ByHash || Children(c, day) != {}
  }

  /** Every tile's call would return on the catalog as it is before the loop. */
  predicate EveryCallReturns(c: Catalog, current: Instant, end: Instant, step: int, buckets: int, key: KeyType)
    requires step > 0
    decreases end - current
  {
    current < end ==>
      && CallReturns(c, DayOf(current), KeyAt(current, key), KeyAt(Next(current, end, step), key), buckets)
      && EveryCallReturns(c, Next(current, end, step), end, step, buckets, key)
  }

  /** A call adds no table under the root but its own date's range, and none to another date. */
  lemma CallAddsToRoot(c: Catalog, day: int, lo: int, hi: int, buckets: int, n: Name)
    requires Consistent(c) && Call(c, day, lo, hi, buckets).executed.Some?
    requires var b := Call(c, day, lo, hi, buckets).tables; n in b && n !in c && b[n].parent == Root
    ensures n == RangeName(day) && Call(c, day, lo, hi, buckets).tables[n].bounds == RangeBounds(lo, hi)
  {
    CallKeepsConsistent(c, day, lo, hi, buckets);
    CallTouchesItsDate(c, day, lo, hi, buckets, n);
    assert WellPlaced(Call(c, day, lo, hi, buckets).tables, n);
    CallPlacesRange(c, day, lo, hi, buckets);
  }

  lemma LaterRefusalSame(c: Catalog, day: int, lo: int, hi: int, buckets: int, later: int, last: int)
    requires Consistent(c) && Call(c, day, lo, hi, buckets).executed.Some? && hi <= later
    ensures RangeRefused(Call(c, day, lo, hi, buckets).tables, later, last) <==> RangeRefused(c, later, last)
  {
    var b := Call(c, day, lo, hi, buckets).tables;
    CallKeepsConsistent(c, day, lo, hi, buckets);
    if n :| n in c && c[n].parent == Root && RangesOverlap(c[n].bounds, RangeBounds(later, last)) {
      assert n in b && b[n] == c[n];
    } else if n :| n in b && b[n].parent == Root && RangesOverlap(b[n].bounds, RangeBounds(later, last)) {
      assert n !in c;
      CallAddsToRoot(c, day, lo, hi, buckets, n);
    }
  }

  lemma LaterCallSame(c: Catalog, day: int, lo: int, hi: int, buckets: int, other: int, later: int, last: int)
    requires Consistent(c) && Call(c, day, lo, hi, buckets).executed.Some? && hi <= later && other != day
    ensures CallReturns(Call(c, day, lo, hi, buckets).tables, other, later, last, buckets) <==> CallReturns(c, other, later, last, buckets)
  {
    CallKeepsConsistent(c, day, lo, hi, buckets);
    if RangeName(other) in c {
      OtherDateKeepsChildren(c, other, day, lo, hi, buckets);
    } else {
      if RangeName(other) in Call(c, day, lo, hi, buckets).tables { CallTouchesItsDate(c, day, lo, hi, buckets, RangeName(other)); }
      LaterRefusalSame(c, day, lo, hi, buckets, later, last);
    }
  }

  lemma {:induction false} LaterCallsSame(c: Catalog, day: int, lo: int, hi: int, buckets: int, current: Instant, end: Instant, step: int, key: KeyType)
    requires Consistent(c) && Call(c, day, lo, hi, buckets).executed.Some? && step >= DAY_US
    requires current < end ==> day < DayOf(current) && hi <= KeyAt(current, key)
    ensures EveryCallReturns(Call(c, day, lo, hi, buckets).tables, current, end, step, buckets, key)
            <==> EveryCallReturns(c, current, end, step, buckets, key)
    decreases end - current
  {
    if current < end {
      var next := Next(current, end, step);
      LaterCallSame(c, day, lo, hi, buckets, DayOf(current), KeyAt(current, key), KeyAt(next, key));
      KeysDoNotAdvance(next, current, key);
      LaterCallsSame(c, day, lo, hi, buckets, next, end, step, key);
    }
  }

  /** Over any consistent catalog the loop returns if and only if every tile's call would return on
      the catalog it starts from. */
  lemma {:induction false} LoopReturnsExactly(c: Catalog, current: Instant, end: Instant, step: int, buckets: int, key: KeyType, count: nat)
    requires step >= DAY_US && Consistent(c)
    ensures CreateRanges(c, current, end, step, buckets, key, count).executed.Some? <==> EveryCallReturns(c, current, end, step, buckets, key)
    decreases end - current
  {
    if current < end {
      var next := Next(current, end, step);
      var o := Call(c, DayOf(current), KeyAt(current, key), KeyAt(next, key), buckets);
      OneRangeMore(c, current, end, step, buckets, key, count, o);
      CallRaisesExactly(c, DayOf(current), KeyAt(current, key), KeyAt(next, key), buckets);
      if o.executed.Some? {
        CallKeepsConsistent(c, DayOf(current), KeyAt(current, key), KeyAt(next, key), buckets);
        if next < end { DayAdvances(current, next); }
        LaterCallsSame(c, DayOf(current), KeyAt(current, key), KeyAt(next, key), buckets, next, end, step, key);
        LoopReturnsExactly(o.tables, next, end, step, buckets, key, count + if o.executed.value > 0 then 1 else 0);
      }
    }
  }

  /** Exactly-one-leaf routing, where existing partitions under the tiles' names have the tiles'
      bounds: create_partitions_for_date_range returns if and only if every tile's call would, and
      then every key of the range, with any hash, has exactly one table to go to. */
  lemma EveryKeyHasOneLeaf(c: Catalog, start: Instant, end: Instant, step: int, buckets: int, key: KeyType, k: int, hash: nat)
    requires step >= DAY_US && Consistent(c) && Complete(c) && Agrees(c, start, end, step, key)
    requires start < end && KeyAt(start, key) <= k < KeyAt(end, key)
    ensures CreateRanges(c, start, end, step, buckets, key, 0).executed.Some? <==> EveryCallReturns(c, start, end, step, buckets, key)
    ensures EveryCallReturns(c, start, end, step, buckets, key) ==>
              ExactlyOneLeaf(CreateRanges(c, start, end, step, buckets, key, 0).tables, k, hash)
  {
    LoopReturnsExactly(c, start, end, step, buckets, key, 0);
    if EveryCallReturns(c, start, end, step, buckets, key) {
      var day := RangesCover(c, start, end, step, buckets, key, 0, k);
      RangesKeep(c, start, end, step, buckets, key, 0);
      RoutesToOneLeaf(CreateRanges(c, start, end, step, buckets, key, 0).tables, day, k, hash);
    }
  }

  /** In particular every version 7 key whose millisecond lies in [floor(start), floor(end)). */
  lemma EveryUuidHasOneLeaf(c: Catalog, start: Instant, end: Instant, step: int, buckets: int, id: Uuid, hash: nat)
    requires step >= DAY_US && Consistent(c) && Complete(c) && Agrees(c, start, end, step, ByUuid7)
    requires start < end && IsVersion7(id) && Floor(start) <= id / P80 < Floor(end)
    ensures CreateRanges(c, start, end, step, buckets, ByUuid7, 0).executed.Some? <==> EveryCallReturns(c, start, end, step, buckets, ByUuid7)
    ensures EveryCallReturns(c, start, end, step, buckets, ByUuid7) ==>
              ExactlyOneLeaf(CreateRanges(c, start, end, step, buckets, ByUuid7, 0).tables, id, hash)
  {
    FilterIsExact(id, Some(start), Some(end));
    EveryKeyHasOneLeaf(c, start, end, step, buckets, ByUuid7, id, hash);
  }

  /** All earlier ranges end by this key. */
  predicate EndsBy(c: Catalog, k: int) {
    forall n :: n in c && c[n].parent == Root && c[n].bounds.RangeBounds? ==> c[n].bounds.hi <= k
  }

  predicate DaysBefore(c: Catalog, day: int) {
    forall n :: n in c && n.RangeName? ==> n.day < day
  }

  lemma AppendOne(c: Catalog, day: int, lo: int, hi: int, buckets: int)
    requires Consistent(c) && EndsBy(c, lo) && DaysBefore(c, day) && lo < hi
    ensures var o := Call(c, day, lo, hi, buckets);
            o.executed.Some? && o.executed.value > 0 && Consistent(o.tables) && EndsBy(o.tables, hi) && DaysBefore(o.tables, day + 1)
  {
    var b := Call(c, day, lo, hi, buckets).tables;
    assert !RangeRefused(c, lo, hi);
    NewDateCall(c, day, lo, hi, buckets);
    CallKeepsConsistent(c, day, lo, hi, buckets);
    CallPlacesRange(c, day, lo, hi, buckets);
    forall n | n in b && n !in c ensures n == RangeName(day) || n.ChildName? {
      CallTouchesItsDate(c, day, lo, hi, buckets, n);
    }
    forall n | n in b && b[n].parent == Root && b[n].bounds.RangeBounds? ensures b[n].bounds.hi <= hi {
      assert WellPlaced(b, n);
    }
  }

  lemma DayAdvances(a: int, b: int)
    requires a + DAY_US <= b
    ensures DayOf(a) + 1 <= DayOf(b)
  {
  }

  lemma AppendStep(c: Catalog, current: Instant, end: Instant, step: int, buckets: int, key: KeyType, count: nat)
    returns (b: Catalog, next: Instant)
    requires step >= DAY_US && Consistent(c) && EndsBy(c, KeyAt(current, key)) && current < end && DaysBefore(c, DayOf(current))
    requires KeyAt(current, key) < KeyAt(Next(current, end, step), key)
    ensures next == Next(current, end, step) && Consistent(b) && EndsBy(b, KeyAt(next, key)) && (next < end ==> DaysBefore(b, DayOf(next)))
    ensures CreateRanges(c, current, end, step, buckets, key, count) == CreateRanges(b, next, end, step, buckets, key, count + 1)
  {
    next := Next(current, end, step);
    AppendOne(c, DayOf(current), KeyAt(current, key), KeyAt(next, key), buckets);
    var o := Call(c, DayOf(current), KeyAt(current, key), KeyAt(next, key), buckets);
    b := o.tables;
    OneRangeMore(c, current, end, step, buckets, key, count, o);
    if next < end { DayAdvances(current, next); }
  }

  /** No tile is empty in the key's order. */
  predicate TilesHold(current: Instant, end: Instant, step: int, key: KeyType)
    requires step > 0
    decreases end - current
  {
    current < end ==> KeyAt(current, key) < KeyAt(Next(current, end, step), key) && TilesHold(Next(current, end, step), end, step, key)
  }

  lemma FreshCallReturns(c: Catalog, day: int, lo: int, hi: int, buckets: int)
    requires EndsBy(c, lo) && DaysBefore(c, day)
    ensures CallReturns(c, day, lo, hi, buckets) <==> lo < hi
  {
  }

  lemma {:induction false} FreshReturns(c: Catalog, from: int, current: Instant, end: Instant, step: int, buckets: int, key: KeyType)
    requires step >= DAY_US && EndsBy(c, from) && (current < end ==> from <= KeyAt(current, key) && DaysBefore(c, DayOf(current)))
    ensures EveryCallReturns(c, current, end, step, buckets, key) <==> TilesHold(current, end, step, key)
    decreases end - current
  {
    if current < end {
      var next := Next(current, end, step);
      FreshCallReturns(c, DayOf(current), KeyAt(current, key), KeyAt(next, key), buckets);
      KeysDoNotAdvance(next, current, key);
      if next < end { DayAdvances(current, next); }
      FreshReturns(c, from, next, end, step, buckets, key);
    }
  }

  /** Ready to append the tiles from here on. */
  ghost predicate Appendable(c: Catalog, current: Instant, end: Instant, step: int, key: KeyType)
    requires step > 0
  {
    Consistent(c) && EndsBy(c, KeyAt(current, key)) && TilesHold(current, end, step, key) && (current < end ==> DaysBefore(c, DayOf(current)))
  }

  lemma AppendFirst(c: Catalog, current: Instant, end: Instant, step: int, buckets: int, key: KeyType, count: nat)
    returns (b: Catalog, next: Instant)
    requires step >= DAY_US && current < end && Appendable(c, current, end, step, key)
    ensures next == Next(current, end, step) && Appendable(b, next, end, step, key)
    ensures CreateRanges(c, current, end, step, buckets, key, count) == CreateRanges(b, next, end, step, buckets, key, count + 1)
  {
    FirstTile(current, end, step, key);
    b, next := AppendStep(c, current, end, step, buckets, key, count);
  }

  lemma {:induction false} AppendingCounts(c: Catalog, current: Instant, end: Instant, step: int, buckets: int, key: KeyType, count: nat)
    requires step >= DAY_US && Appendable(c, current, end, step, key)
    ensures CreateRanges(c, current, end, step, buckets, key, count).executed == Some(count + |Tiles(current, end, step)|)
    decreases end - current
  {
    if current < end {
      var b, next := AppendFirst(c, current, end, step, buckets, key, count);
      AppendingCounts(b, next, end, step, buckets, key, count + 1);
      TileCount(current, end, step);
    } else {
      NothingToAppend(c, current, end, step, buckets, key, count);
    }
  }

  lemma TileCount(current: Instant, end: Instant, step: int)
    requires step > 0 && current < end
    ensures |Tiles(current, end, step)| == 1 + |Tiles(Next(current, end, step), end, step)|
  {
  }

  lemma NothingToAppend(c: Catalog, current: Instant, end: Instant, step: int, buckets: int, key: KeyType, count: nat)
    requires step > 0 && current >= end
    ensures CreateRanges(c, current, end, step, buckets, key, count).executed == Some(count) && Tiles(current, end, step) == []
  {
  }

  lemma FirstTile(current: Instant, end: Instant, step: int, key: KeyType)
    requires step > 0 && current < end && TilesHold(current, end, step, key)
    ensures KeyAt(current, key) < KeyAt(Next(current, end, step), key) && TilesHold(Next(current, end, step), end, step, key)
  {
  }

  /** Appending dates behind all that exist, for either key type: the loop returns, having created
      every tile, if and only if no tile is empty. */
  lemma AppendingSucceedsExactly(c: Catalog, current: Instant, end: Instant, step: int, buckets: int, key: KeyType, count: nat)
    requires step >= DAY_US && Consistent(c) && EndsBy(c, KeyAt(current, key))
    requires current < end ==> DaysBefore(c, DayOf(current))
    ensures CreateRanges(c, current, end, step, buckets, key, count).executed
            == if TilesHold(current, end, step, key) then Some(count + |Tiles(current, end, step)|) else None
  {
    FreshReturns(c, KeyAt(current, key), current, end, step, buckets, key);
    LoopReturnsExactly(c, current, end, step, buckets, key, count);
    if TilesHold(current, end, step, key) { AppendingCounts(c, current, end, step, buckets, key, count); }
  }

  lemma {:induction false} DatetimeTilesHold(current: Instant, end: Instant, step: int)
    requires step >= DAY_US
    ensures TilesHold(current, end, step, ByDatetime)
    decreases end - current
  {
    if current < end { DatetimeTilesHold(Next(current, end, step), end, step); }
  }

  /** Two moments have the same lower bound exactly if both clamp to the first millisecond of the
      epoch or both lie in one millisecond. */
  lemma SameUuidBound(a: Instant, b: Instant)
    requires a < b
    ensures KeyAt(a, ByUuid7) >= KeyAt(b, ByUuid7) <==> b < 1000 || (a >= 0 && a / 1000 == b / 1000)
  {
    assert Clamped(Millis(a)) >= Clamped(Millis(b)) <==> b < 1000 || (a >= 0 && a / 1000 == b / 1000);
    assert KeyAt(a, ByUuid7) == Clamped(Millis(a)) * P80 + KeyAt(0, ByUuid7);
    assert KeyAt(b, ByUuid7) == Clamped(Millis(b)) * P80 + KeyAt(0, ByUuid7);
  }

  /** Where the last tile starts. */
  function LastStart(start: Instant, end: Instant, step: int): int
    requires step > 0 && start < end
  {
    end - ((end - start - 1) % step + 1)
  }

  lemma LastStartOf(start: Instant, end: Instant, step: int)
    requires step > 0 && start < end
    ensures if start + step >= end then LastStart(start, end, step) == start
            else LastStart(start, end, step) == LastStart(start + step, end, step)
  {
    var x := end - start - 1;
    if x >= step {
      SubtractOnce(x, step);
    } else {
      SameRemainder(x, step, 0, x);
    }
  }

  lemma SubtractOnce(x: int, step: int)
    requires step > 0
    ensures (x - step) % step == x % step
  {
    var q, r := x / step, x % step;
    assert x == step * q + r;
    assert x - step == step * (q - 1) + r;
    SameRemainder(x - step, step, q - 1, r);
  }

  /** In UUID order no tile is empty if and only if the first one reaches past the first millisecond
      of the epoch and the last one does not end in the millisecond it starts in. */
  lemma {:induction false} UuidTilesHold(start: Instant, end: Instant, step: int)
    requires step >= DAY_US && start < end
    ensures TilesHold(start, end, step, ByUuid7) <==>
            && (start + step >= 1000 && end >= 1000)
            && (LastStart(start, end, step) < 0 || LastStart(start, end, step) / 1000 != end / 1000)
    decreases end - start
  {
    var next := Next(start, end, step);
    SameUuidBound(start, next);
    LastStartOf(start, end, step);
    if start + step < end {
      assert next / 1000 >= start / 1000 + 1;
      if next >= 1000 { UuidTilesHold(next, end, step); }
    }
  }

  // ----- fresh ranges -----

  lemma {:induction false} FreshAgrees(c: Catalog, current: Instant, end: Instant, step: int, key: KeyType)
    requires step >= DAY_US && (current < end ==> DaysBefore(c, DayOf(current)))
    ensures Agrees(c, current, end, step, key)
    decreases end - current
  {
    if current < end {
      var next := Next(current, end, step);
      if next < end { DayAdvances(current, next); }
      FreshAgrees(c, next, end, step, key);
    }
  }

  /** For a range behind all that exist the loop needs no hypothesis about itself: unless a tile is
      empty, it returns and every key of the range, with any hash, has exactly one leaf. */
  lemma FreshKeyHasOneLeaf(c: Catalog, start: Instant, end: Instant, step: int, buckets: int, key: KeyType, k: int, hash: nat)
    requires step >= DAY_US && Consistent(c) && Complete(c) && start < end
    requires EndsBy(c, KeyAt(start, key)) && DaysBefore(c, DayOf(start)) && TilesHold(start, end, step, key)
    requires KeyAt(start, key) <= k < KeyAt(end, key)
    ensures CreateRanges(c, start, end, step, buckets, key, 0).executed == Some(|Tiles(start, end, step)|)
    ensures ExactlyOneLeaf(CreateRanges(c, start, end, step, buckets, key, 0).tables, k, hash)
  {
    AppendingSucceedsExactly(c, start, end, step, buckets, key, 0);
    FreshAgrees(c, start, end, step, key);
    EveryKeyHasOneLeaf(c, start, end, step, buckets, key, k, hash);
  }

  /** Dates are never empty tiles for a datetime key, so there the range only has to be fresh. */
  lemma FreshDatetimeHasOneLeaf(c: Catalog, start: Instant, end: Instant, step: int, buckets: int, t: int, hash: nat)
    requires step >= DAY_US && Consistent(c) && Complete(c) && start <= t < end
    requires EndsBy(c, start) && DaysBefore(c, DayOf(start))
    ensures CreateRanges(c, start, end, step, buckets, ByDatetime, 0).executed == Some(|Tiles(start, end, step)|)
    ensures ExactlyOneLeaf(CreateRanges(c, start, end, step, buckets, ByDatetime, 0).tables, t, hash)
  {
    DatetimeTilesHold(start, end, step);
    FreshKeyHasOneLeaf(c, start, end, step, buckets, ByDatetime, t, hash);
  }

  /** And for a UUID key every version 7 key whose millisecond lies in [floor(start), floor(end)), from
      the epoch on and unless the last tile is shorter than a millisecond. */
  lemma FreshUuidHasOneLeaf(c: Catalog, start: Instant, end: Instant, step: int, buckets: int, id: Uuid, hash: nat)
    requires step >= DAY_US && Consistent(c) && Complete(c) && start < end
    requires EndsBy(c, KeyAt(start, ByUuid7)) && DaysBefore(c, DayOf(start))
    requires start + step >= 1000 && end >= 1000
    requires LastStart(start, end, step) < 0 || LastStart(start, end, step) / 1000 != end / 1000
    requires IsVersion7(id) && Floor(start) <= id / P80 < Floor(end)
    ensures CreateRanges(c, start, end, step, buckets, ByUuid7, 0).executed == Some(|Tiles(start, end, step)|)
    ensures ExactlyOneLeaf(CreateRanges(c, start, end, step, buckets, ByUuid7, 0).tables, id, hash)
  {
    UuidTilesHold(start, end, step);
    FilterIsExact(id, Some(start), Some(end));
    FreshKeyHasOneLeaf(c, start, end, step, buckets, ByUuid7, id, hash);
  }

  // ----- rolling windows -----

  /** The tiles from `start` to `split` are there with their own bounds, hashed or, if no buckets are
      asked for, plain. */
  predicate Standing(c: Catalog, start: Instant, split: Instant, step: int, buckets: int, key: KeyType)
    requires step > 0
    decreases split - start
  {
    start < split ==>
      && start + step <= split && RangeName(DayOf(start)) in c
      && c[RangeName(DayOf(start))].bounds == RangeBounds(KeyAt(start, key), KeyAt(start + step, key))
      && (c[RangeName(DayOf(start))].strategy == ByHash || (buckets <= 0 && c[RangeName(DayOf(start))].strategy == Plain))
      && Standing(c, start + step, split, step, buckets, key)
  }

  /** And all tables lie before it. */
  predicate FreshFrom(c: Catalog, split: Instant, key: KeyType) {
    EndsBy(c, KeyAt(split, key)) && DaysBefore(c, DayOf(split))
  }

  lemma {:induction false} StandingReturns(c: Catalog, start: Instant, split: Instant, end: Instant, step: int, buckets: int, key: KeyType)
    requires step >= DAY_US && Consistent(c) && start <= split <= end
    requires Standing(c, start, split, step, buckets, key) && (split < end ==> FreshFrom(c, split, key))
    ensures EveryCallReturns(c, start, end, step, buckets, key) <==> TilesHold(split, end, step, key)
    ensures Agrees(c, start, end, step, key)
    decreases split - start
  {
    if start < split {
      assert Next(start, end, step) == start + step;
      StandingReturns(c, start + step, split, end, step, buckets, key);
    } else if split < end {
      AppendingSucceedsExactly(c, split, end, step, buckets, key, 0);
      LoopReturnsExactly(c, split, end, step, buckets, key, 0);
      FreshAgrees(c, split, end, step, key);
    }
  }

  /** The daily use, a window whose first tiles stand already and whose others lie behind all tables:
      the call returns if and only if none of the others is empty, and then every key of the whole
      window, with any hash, has exactly one leaf. */
  lemma RollingWindowHasOneLeaf(c: Catalog, start: Instant, split: Instant, end: Instant, step: int, buckets: int, key: KeyType, k: int, hash: nat)
    requires step >= DAY_US && Consistent(c) && Complete(c) && start <= split <= end
    requires Standing(c, start, split, step, buckets, key) && (split < end ==> FreshFrom(c, split, key))
    requires start < end && KeyAt(start, key) <= k < KeyAt(end, key)
    ensures CreateRanges(c, start, end, step, buckets, key, 0).executed.Some? <==> TilesHold(split, end, step, key)
    ensures TilesHold(split, end, step, key) ==> ExactlyOneLeaf(CreateRanges(c, start, end, step, buckets, key, 0).tables, k, hash)
  {
    StandingReturns(c, start, split, end, step, buckets, key);
    EveryKeyHasOneLeaf(c, start, end, step, buckets, key, k, hash);
  }

  // ----- dropping old partitions -----

  predicate Expired(n: Name, interval: int, threshold: int) {
    n.RangeName? && n.day + interval < threshold
  }

  /** DROP TABLE ... CASCADE takes the sub-partitions along. */
  function Dropped(c: Catalog, days: set<int>): Catalog {
    map n | n in c && !(n.RangeName? && n.day in days) && !(c[n].parent.Under? && c[n].parent.day in days) :: c[n]
  }

  /** The days of the listed partitions whose whole nominal range is older than the threshold. */
  function ExpiredDays(c: Catalog, names: set<Name>, interval: int, threshold: int): set<int> {
    set n | n in names && Expired(n, interval, threshold) :: n.day
  }

  function RootPartitions(c: Catalog): set<Name> {
    set n | n in c && c[n].parent == Root
  }

  /** drop_old_partitions; `today` is the current UTC date. */
  method DropOldPartitions(m: Manager, maxDays: int, interval: int, today: int) returns (dropped: nat)
    modifies m
    ensures var days := ExpiredDays(old(m.tables), RootPartitions(old(m.tables)), interval, today - maxDays);
            m.tables == Dropped(old(m.tables), days) && dropped == |days|
  {
    var names := RootPartitions(m.tables);
    var threshold := today - maxDays;
    dropped := 0;
    ghost var gone: set<Name> := {};
    assert Dropped(m.tables, ExpiredDays(m.tables, gone, interval, threshold)) == m.tables;
    while names != {}
      invariant gone !! names && gone + names == RootPartitions(old(m.tables))
      invariant m.tables == Dropped(old(m.tables), ExpiredDays(old(m.tables), gone, interval, threshold))
      invariant dropped == |ExpiredDays(old(m.tables), gone, interval, threshold)|
      decreases names
    {
      var name :| name in names;
      ExpiredOneMore(old(m.tables), gone, name, interval, threshold);
      if Expired(name, interval, threshold) {
        DroppedOneMore(old(m.tables), ExpiredDays(old(m.tables), gone, interval, threshold), name.day);
        m.tables := Dropped(m.tables, {name.day});
        dropped := dropped + 1;
      }
      names := names - {name};
      gone := gone + {name};
    }
    assert gone == RootPartitions(old(m.tables));
  }

  lemma ExpiredOneMore(c: Catalog, names: set<Name>, n: Name, interval: int, threshold: int)
    requires n !in names
    ensures ExpiredDays(c, names + {n}, interval, threshold) ==
            ExpiredDays(c, names, interval, threshold) + if Expired(n, interval, threshold) then {n.day} else {}
    ensures Expired(n, interval, threshold) ==> n.day !in ExpiredDays(c, names, interval, threshold)
  {
  }

  lemma DroppedOneMore(c: Catalog, days: set<int>, day: int)
    ensures Dropped(Dropped(c, days), {day}) == Dropped(c, days + {day})
  {
  }

  /** Dropping keeps the catalog consistent and its sets full, and keeps every partition, with all
      its buckets, whose range reaches the threshold. */
  lemma DroppingKeepsTheRest(c: Catalog, interval: int, threshold: int)
    requires Consistent(c)
    ensures var b := Dropped(c, ExpiredDays(c, RootPartitions(c), interval, threshold));
            && Consistent(b) && (Complete(c) ==> Complete(b)) && Keeps(b, c)
            && forall day :: RangeName(day) in c && day + interval >= threshold ==>
                 RangeName(day) in b && forall i :: ChildName(day, i) in c ==> ChildName(day, i) in b
  {
    var days := ExpiredDays(c, RootPartitions(c), interval, threshold);
    var b := Dropped(c, days);
    forall n | n in b ensures WellPlaced(b, n) {
      assert WellPlaced(c, n);
    }
    forall day | RangeName(day) in c && day + interval >= threshold
      ensures RangeName(day) in b && forall i :: ChildName(day, i) in c ==> ChildName(day, i) in b
    {
      assert WellPlaced(c, RangeName(day));
      forall i | ChildName(day, i) in c ensures ChildName(day, i) in b {
        assert WellPlaced(c, ChildName(day, i));
      }
    }
    if Complete(c) {
      forall day | RangeName(day) in b && b[RangeName(day)].strategy == ByHash ensures exists modulus :: FullSet(b, day, modulus) {
        var modulus :| FullSet(c, day, modulus);
        forall i: nat | i < modulus ensures ChildName(day, i) in b {
          assert WellPlaced(c, ChildName(day, i));
        }
        assert FullSet(b, day, modulus);
      }
    }
  }

  /** Which tables are left, in days: a date's partition and each of its buckets stay exactly if the
      date plus the interval is not before today minus the retention; any other table stays unless it
      hangs below a partition that goes; and the count is the number of partitions before that line. */
  lemma DroppingDropsExactly(c: Catalog, maxDays: int, interval: int, today: int)
    ensures ExpiredDays(c, RootPartitions(c), interval, today - maxDays) ==
            set n | n in c && c[n].parent == Root && n.RangeName? && n.day + interval < today - maxDays :: n.day
    ensures Consistent(c) ==>
              var b := Dropped(c, ExpiredDays(c, RootPartitions(c), interval, today - maxDays));
              && (forall day :: RangeName(day) in b <==> RangeName(day) in c && day + interval >= today - maxDays)
              && (forall day, i :: ChildName(day, i) in b <==> ChildName(day, i) in c && day + interval >= today - maxDays)
              && (forall n :: OtherName(n) in b <==>
                    OtherName(n) in c && (c[OtherName(n)].parent.Under? ==> c[OtherName(n)].parent.day + interval >= today - maxDays))
              && forall n :: n in b ==> b[n] == c[n]
  {
    if Consistent(c) {
      var days := ExpiredDays(c, RootPartitions(c), interval, today - maxDays);
      forall day ensures day in days <==> RangeName(day) in c && day + interval < today - maxDays {
        if RangeName(day) in c {
          assert WellPlaced(c, RangeName(day));
          assert RangeName(day) in RootPartitions(c);
        }
      }
      forall day, i | ChildName(day, i) in c ensures c[ChildName(day, i)].parent == Under(day) && RangeName(day) in c {
        assert WellPlaced(c, ChildName(day, i));
      }
      forall n | OtherName(n) in c && c[OtherName(n)].parent.Under? ensures RangeName(c[OtherName(n)].parent.day) in c {
        assert WellPlaced(c, OtherName(n));
      }
    }
  }

  // ----- the named intervals -----

  lemma {:induction false} TileStarts(start: Instant, end: Instant, step: int, i: nat)
    requires step > 0 && i < |Tiles(start, end, step)|
    ensures Tiles(start, end, step)[i].0 == start + i * step
    decreases end - start
  {
    if i > 0 {
      TileStarts(Next(start, end, step), end, step, i - 1);
      assert |Tiles(start, end, step)| > 1;
      assert Next(start, end, step) == start + step;
      assert start + step + (i - 1) * step == start + i * step;
    }
  }

  /** Daily tiles start 86,400 seconds apart, weekly ones 604,800, and n-day ones n times as far as
      daily ones; no other interval is known. */
  lemma IntervalTiles(start: Instant, end: Instant, interval: Interval, i: nat)
    requires IntervalDays(interval).Some? && IntervalDays(interval).value > 0
    requires i < |Tiles(start, end, IntervalDays(interval).value * DAY_US)|
    ensures var from := Tiles(start, end, IntervalDays(interval).value * DAY_US)[i].0;
            && (interval == Day ==> from == start + i * 86_400_000_000)
            && (interval == Week ==> from == start + i * 604_800_000_000)
            && (interval.Days? ==> from == start + i * (interval.n * 86_400_000_000))
            && interval != Unknown
  {
    TileStarts(start, end, IntervalDays(interval).value * DAY_US, i);
  }

  // ----- what clashing hash bounds mean -----

  /** Both buckets take rows of this hash. */
  predicate TakenByBoth(a: Bounds, b: Bounds, hash: nat)
    requires a.HashBounds? && b.HashBounds? && a.modulus > 0 && b.modulus > 0
  {
    hash % a.modulus == a.remainder && hash % b.modulus == b.remainder
  }

  lemma RemainderOfRemainder(x: nat, m: nat, k: nat)
    requires m > 0 && k > 0
    ensures x % (m * k) % m == x % m
  {
    assert m * k > 0;
    var q, r := x / (m * k), x % (m * k);
    assert x == (m * k) * q + r;
    var p, s := r / m, r % m;
    assert r == m * p + s;
    assert (m * k) * q == m * (k * q);
    assert m * (k * q) + m * p == m * (k * q + p);
    SameRemainder(x, m, k * q + p, s);
  }

  /** Of two buckets whose moduli divide one another, some hash goes to both exactly if they clash; if
      neither modulus divides the other they clash as well. */
  lemma ClashMeans(a: Bounds, b: Bounds, k: nat)
    requires a.HashBounds? && b.HashBounds? && 0 < a.modulus <= b.modulus && a.remainder < a.modulus && b.remainder < b.modulus
    requires b.modulus == a.modulus * k
    ensures HashesClash(a, b) <==> exists hash: nat :: TakenByBoth(a, b, hash)
  {
    assert k > 0;
    SameRemainder(b.modulus, a.modulus, k, 0);
    if a.modulus == b.modulus { SameRemainder(a.remainder, a.modulus, 0, a.remainder); }
    SameRemainder(a.remainder, a.modulus, 0, a.remainder);
    SameRemainder(b.remainder, b.modulus, 0, b.remainder);
    if b.remainder % a.modulus == a.remainder {
      assert TakenByBoth(a, b, b.remainder);
    }
    forall hash: nat | TakenByBoth(a, b, hash) ensures b.remainder % a.modulus == a.remainder {
      RemainderOfRemainder(hash, a.modulus, k);
    }
  }

  lemma UnrelatedClash(a: Bounds, b: Bounds)
    requires a.HashBounds? && b.HashBounds? && 0 < a.modulus <= b.modulus && b.modulus % a.modulus != 0
    ensures HashesClash(a, b) && HashesClash(b, a)
  {
  }
}
