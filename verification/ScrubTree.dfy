/** The scrubber's walk over an event's JSON. Values are trees; `clean` stands for the value
    patterns and may be any function on strings. */
module ScrubTree {
  import opened KeyMatcher
  import opened Numbers

  const MAX_DEPTH: nat := 48

  datatype Key = Name(s: string) | OtherKey(n: int)

  datatype Entry = Entry(key: Key, value: Json)

  /** `Atom` is a number, a boolean or None; `Tup` is a Python tuple. */
  datatype Json = Null | Atom(n: int) | Str(s: string) | List(items: seq<Json>) | Tup(parts: seq<Json>) | Dict(entries: seq<Entry>)

  datatype Scrubber = Scrubber(enabled: bool, matcher: Matcher, placeholder: string, clean: string -> string)

  predicate SensitiveName(s: Scrubber, k: Key) {
    k.Name? && Sensitive(s.matcher, k.s)
  }

  /** The elements of a list or tuple. */
  function Elements(v: Json): seq<Json> {
    if v.List? then v.items else if v.Tup? then v.parts else []
  }

  /** The `[key, value, ...]` shape headers and query strings are stored in. */
  predicate Pair(v: Json) {
    |Elements(v)| >= 2 && Elements(v)[0].Str?
  }

  // ----- the walk -----

  function ScrubNode(s: Scrubber, v: Json, depth: nat): Json
    decreases v, 0
  {
    if depth > MAX_DEPTH then v
    else match v
      case Dict(es) => Dict(seq(|es|, i requires 0 <= i < |es| => ScrubEntry(s, es[i], depth)))
      case List(xs) => List(seq(|xs|, i requires 0 <= i < |xs| => ScrubItem(s, xs[i], depth)))
      case Str(t) => Str(s.clean(t))
      case _ => v
  }

  function ScrubEntry(s: Scrubber, e: Entry, depth: nat): Entry
    decreases e, 1
  {
    if SensitiveName(s, e.key) then Entry(e.key, Str(s.placeholder)) else Entry(e.key, ScrubNode(s, e.value, depth + 1))
  }

  /** A pair is redacted by its first element, and a tuple pair becomes a list; anything else is a node. */
  function ScrubItem(s: Scrubber, v: Json, depth: nat): Json
    decreases v, 1
  {
    if Pair(v) then
      var xs := Elements(v);
      List(xs[1 := if Sensitive(s.matcher, xs[0].s) then Str(s.placeholder) else ScrubNode(s, xs[1], depth + 1)])
    else ScrubNode(s, v, depth + 1)
  }

  // ----- the loops that do it in place -----

  /** `_scrub_dict`, overwriting the dictionary's values. */
  method ScrubDictInPlace(s: Scrubber, d: array<Entry>, depth: nat)
    requires depth <= MAX_DEPTH
    modifies d
    ensures Dict(d[..]) == ScrubNode(s, Dict(old(d[..])), depth)
  {
    var i := 0;
    while i < d.Length
      invariant 0 <= i <= d.Length
      invariant forall k :: 0 <= k < i ==> d[k] == ScrubEntry(s, old(d[..])[k], depth)
      invariant forall k :: i <= k < d.Length ==> d[k] == old(d[..])[k]
    {
      var e := d[i];
      if SensitiveName(s, e.key) {
        d[i] := e.(value := Str(s.placeholder));
      } else {
        d[i] := e.(value := ScrubNode(s, e.value, depth + 1));
      }
      i := i + 1;
    }
    assert d[..] == ScrubNode(s, Dict(old(d[..])), depth).entries;
  }

  /** `_scrub_list`. */
  method ScrubListInPlace(s: Scrubber, lst: array<Json>, depth: nat)
    requires depth <= MAX_DEPTH
    modifies lst
    ensures List(lst[..]) == ScrubNode(s, List(old(lst[..])), depth)
  {
    var i := 0;
    while i < lst.Length
      invariant 0 <= i <= lst.Length
      invariant forall k :: 0 <= k < i ==> lst[k] == ScrubItem(s, old(lst[..])[k], depth)
      invariant forall k :: i <= k < lst.Length ==> lst[k] == old(lst[..])[k]
    {
      var item := lst[i];
      if Pair(item) {
        var xs := Elements(item);
        var value := Str(s.placeholder);
        if !Sensitive(s.matcher, xs[0].s) { value := ScrubNode(s, xs[1], depth + 1); }
        lst[i] := if item.List? then item.(items := xs[1 := value]) else List([xs[0], value] + xs[2..]);
        assert [xs[0], value] + xs[2..] == xs[1 := value];
      } else {
        lst[i] := ScrubNode(s, item, depth + 1);
      }
      i := i + 1;
    }
    assert lst[..] == ScrubNode(s, List(old(lst[..])), depth).items;
  }

  // ----- scrubbing twice -----

  ghost predicate Idempotent(f: string -> string) {
    forall t :: f(f(t)) == f(t)
  }

  /** Scrubbing a scrubbed node changes nothing, at any depth. */
  lemma {:induction false} ScrubTwice(s: Scrubber, v: Json, depth: nat)
    requires Idempotent(s.clean)
    ensures ScrubNode(s, ScrubNode(s, v, depth), depth) == ScrubNode(s, v, depth)
    decreases v, 0
  {
    if depth <= MAX_DEPTH {
      var r := ScrubNode(s, v, depth);
      match v
      case Dict(es) =>
        forall i | 0 <= i < |es| ensures ScrubEntry(s, r.entries[i], depth) == r.entries[i] {
          ScrubEntryTwice(s, es[i], depth);
        }
        assert ScrubNode(s, r, depth).entries == r.entries;
      case List(xs) =>
        forall i | 0 <= i < |xs| ensures ScrubItem(s, r.items[i], depth) == r.items[i] {
          ScrubItemTwice(s, xs[i], depth);
        }
        assert ScrubNode(s, r, depth).items == r.items;
      case _ =>
    }
  }

  lemma {:induction false} ScrubEntryTwice(s: Scrubber, e: Entry, depth: nat)
    requires Idempotent(s.clean)
    ensures ScrubEntry(s, ScrubEntry(s, e, depth), depth) == ScrubEntry(s, e, depth)
    decreases e, 1
  {
    if !SensitiveName(s, e.key) {
      ScrubTwice(s, e.value, depth + 1);
    }
  }

  lemma {:induction false} ScrubItemTwice(s: Scrubber, v: Json, depth: nat)
    requires Idempotent(s.clean)
    ensures ScrubItem(s, ScrubItem(s, v, depth), depth) == ScrubItem(s, v, depth)
    decreases v, 1
  {
    var r := ScrubItem(s, v, depth);
    if Pair(v) {
      if !Sensitive(s.matcher, Elements(v)[0].s) {
        ScrubTwice(s, Elements(v)[1], depth + 1);
      }
      assert ScrubItem(s, r, depth) == r by { assert ScrubItem(s, r, depth).items == r.items; }
    } else {
      ScrubTwice(s, v, depth + 1);
      NotPairStays(s, v, depth + 1);
    }
  }

  lemma ItemKeepsKind(s: Scrubber, v: Json, depth: nat)
    requires !v.Str?
    ensures !ScrubItem(s, v, depth).Str?
  {
  }

  /** Scrubbing never turns another shape into a pair. */
  lemma NotPairStays(s: Scrubber, v: Json, depth: nat)
    requires !Pair(v)
    ensures !Pair(ScrubNode(s, v, depth))
  {
    if depth <= MAX_DEPTH && v.List? && |v.items| >= 2 {
      assert ScrubNode(s, v, depth).items[0] == ScrubItem(s, v.items[0], depth);
      ItemKeepsKind(s, v.items[0], depth);
    } else if depth <= MAX_DEPTH && v.List? {
      assert |ScrubNode(s, v, depth).items| == |v.items|;
    }
  }

  // ----- what stays -----

  /** The same dictionary keys, list lengths and kinds, except below a redacted value. */
  ghost predicate SameShape(s: Scrubber, v: Json, r: Json)
    decreases v, 0
  {
    match v
    case Dict(es) => r.Dict? && |r.entries| == |es| && forall i :: 0 <= i < |es| ==> SameEntry(s, es[i], r.entries[i])
    case List(xs) => r.List? && |r.items| == |xs| && forall i :: 0 <= i < |xs| ==> SameItem(s, xs[i], r.items[i])
    case Str(_) => r.Str?
    case _ => r == v
  }

  ghost predicate SameEntry(s: Scrubber, e: Entry, r: Entry)
    decreases e, 1
  {
    r.key == e.key && if SensitiveName(s, e.key) then true else SameShape(s, e.value, r.value)
  }

  /** A pair keeps its first element and everything past the second. */
  ghost predicate SameItem(s: Scrubber, v: Json, r: Json)
    decreases v, 1
  {
    if Pair(v) then
      var xs, ys := Elements(v), Elements(r);
      |ys| == |xs| && ys[0] == xs[0] && ys[2..] == xs[2..] && (Sensitive(s.matcher, xs[0].s) || SameShape(s, xs[1], ys[1]))
    else SameShape(s, v, r)
  }

  lemma {:induction false} ShapeReflexive(s: Scrubber, v: Json)
    ensures SameShape(s, v, v)
    decreases v, 0
  {
    match v
    case Dict(es) =>
      forall i | 0 <= i < |es| ensures SameEntry(s, es[i], es[i]) {
        ShapeReflexive(s, es[i].value);
      }
    case List(xs) =>
      forall i | 0 <= i < |xs| ensures SameItem(s, xs[i], xs[i]) {
        ItemReflexive(s, xs[i]);
      }
    case _ =>
  }

  lemma {:induction false} ItemReflexive(s: Scrubber, v: Json)
    ensures SameItem(s, v, v)
    decreases v, 1
  {
    if Pair(v) {
      ShapeReflexive(s, Elements(v)[1]);
    } else {
      ShapeReflexive(s, v);
    }
  }

  /** The walk keeps every key and every length outside redacted values. */
  lemma {:induction false} ScrubKeepsShape(s: Scrubber, v: Json, depth: nat)
    ensures SameShape(s, v, ScrubNode(s, v, depth))
    decreases v, 0
  {
    if depth > MAX_DEPTH {
      ShapeReflexive(s, v);
    } else {
      match v
      case Dict(es) =>
        forall i | 0 <= i < |es| ensures SameEntry(s, es[i], ScrubEntry(s, es[i], depth)) {
          if !SensitiveName(s, es[i].key) { ScrubKeepsShape(s, es[i].value, depth + 1); }
        }
      case List(xs) =>
        forall i | 0 <= i < |xs| ensures SameItem(s, xs[i], ScrubItem(s, xs[i], depth)) {
          ItemKeepsShape(s, xs[i], depth);
        }
      case _ =>
    }
  }

  lemma {:induction false} ItemKeepsShape(s: Scrubber, v: Json, depth: nat)
    ensures SameItem(s, v, ScrubItem(s, v, depth))
    decreases v, 1
  {
    if Pair(v) {
      if !Sensitive(s.matcher, Elements(v)[0].s) { ScrubKeepsShape(s, Elements(v)[1], depth + 1); }
    } else {
      ScrubKeepsShape(s, v, depth + 1);
    }
  }

  // ----- what is hidden -----

  /** The node the walk goes on to at a child position: none below a redacted value, past the
      second element of a pair, or inside a tuple that is no pair. */
  function Child(s: Scrubber, v: Json, k: nat): seq<Json> {
    if v.Dict? && k < |v.entries| && !SensitiveName(s, v.entries[k].key) then [v.entries[k].value]
    else if v.List? && k < |v.items| && !Pair(v.items[k]) then [v.items[k]]
    else if v.List? && k < |v.items| && !Sensitive(s.matcher, Elements(v.items[k])[0].s) then [Elements(v.items[k])[1]]
    else []
  }

  /** The node reached along a path of child positions. */
  function Reached(s: Scrubber, v: Json, path: seq<nat>): seq<Json>
    decreases |path|
  {
    if path == [] then [v]
    else if Child(s, v, path[0]) == [] then []
    else Reached(s, Child(s, v, path[0])[0], path[1..])
  }

  /** The node, if it is within the depth bound. */
  function Visited(s: Scrubber, v: Json, depth: nat, path: seq<nat>): seq<Json> {
    if depth + |path| > MAX_DEPTH then [] else Reached(s, v, path)
  }

  /** A walked node: each sensitive key of a dictionary and each sensitive pair of a list holds the
      placeholder, and a string is clean. */
  predicate Hidden(s: Scrubber, v: Json) {
    match v
    case Dict(es) => forall i :: 0 <= i < |es| && SensitiveName(s, es[i].key) ==> es[i].value == Str(s.placeholder)
    case List(xs) => forall i :: 0 <= i < |xs| && Pair(xs[i]) && Sensitive(s.matcher, Elements(xs[i])[0].s) ==> Elements(xs[i])[1] == Str(s.placeholder)
    case Str(t) => s.clean(t) == t
    case _ => true
  }

  lemma ScrubbedIsHidden(s: Scrubber, v: Json, depth: nat)
    requires Idempotent(s.clean) && depth <= MAX_DEPTH
    ensures Hidden(s, ScrubNode(s, v, depth))
  {
    if v.List? {
      forall i | 0 <= i < |v.items| && Pair(ScrubItem(s, v.items[i], depth))
        && Sensitive(s.matcher, Elements(ScrubItem(s, v.items[i], depth))[0].s)
        ensures Elements(ScrubItem(s, v.items[i], depth))[1] == Str(s.placeholder)
      {
        if !Pair(v.items[i]) { NotPairStays(s, v.items[i], depth + 1); }
      }
    }
  }

  lemma ChildScrubbed(s: Scrubber, v: Json, depth: nat, k: nat)
    requires depth <= MAX_DEPTH
    ensures var c, r := Child(s, v, k), Child(s, ScrubNode(s, v, depth), k);
            |r| == |c| <= 1 && (c != [] ==> r[0] == ScrubNode(s, c[0], depth + 1))
  {
    if v.List? && k < |v.items| {
      assert ScrubNode(s, v, depth).items[k] == ScrubItem(s, v.items[k], depth);
      if !Pair(v.items[k]) { NotPairStays(s, v.items[k], depth + 1); }
    } else if v.Dict? && k < |v.entries| {
      assert ScrubNode(s, v, depth).entries[k] == ScrubEntry(s, v.entries[k], depth);
    }
  }

  lemma {:induction false} ReachScrubbed(s: Scrubber, v: Json, depth: nat, path: seq<nat>)
    ensures var w, r := Reached(s, v, path), Reached(s, ScrubNode(s, v, depth), path);
            |r| == |w| <= 1 && (w != [] ==> r[0] == ScrubNode(s, w[0], depth + |path|))
    decreases |path|
  {
    if depth > MAX_DEPTH {
      ReachedOne(s, v, path);
    } else if path != [] {
      ChildScrubbed(s, v, depth, path[0]);
      if Child(s, v, path[0]) != [] {
        ReachScrubbed(s, Child(s, v, path[0])[0], depth + 1, path[1..]);
      }
    }
  }

  lemma {:induction false} ReachedOne(s: Scrubber, v: Json, path: seq<nat>)
    ensures |Reached(s, v, path)| <= 1
    decreases |path|
  {
    if path != [] && Child(s, v, path[0]) != [] {
      ReachedOne(s, Child(s, v, path[0])[0], path[1..]);
    }
  }

  /** Walking and then following a path is following it and then walking. */
  lemma VisitScrubbed(s: Scrubber, v: Json, depth: nat, path: seq<nat>)
    ensures var w, r := Visited(s, v, depth, path), Visited(s, ScrubNode(s, v, depth), depth, path);
            |r| == |w| <= 1 && (w != [] ==> depth + |path| <= MAX_DEPTH && r[0] == ScrubNode(s, w[0], depth + |path|))
  {
    ReachScrubbed(s, v, depth, path);
  }

  /** Nothing sensitive survives where the walk goes: whichever path is followed into the scrubbed
      tree, down to the depth bound, each sensitive key there holds the placeholder. */
  lemma EveryVisitedKeyIsHidden(s: Scrubber, v: Json, path: seq<nat>)
    requires Idempotent(s.clean) && Visited(s, ScrubNode(s, v, 0), 0, path) != []
    ensures Hidden(s, Visited(s, ScrubNode(s, v, 0), 0, path)[0])
    ensures |path| <= 48 && |Visited(s, v, 0, path)| == 1
  {
    var node := ScrubNode(s, v, 0);
    VisitedBefore(s, v, node, path);
    VisitedIsHidden(s, node, path, Visited(s, v, 0, path));
  }

  lemma VisitedBefore(s: Scrubber, v: Json, node: Json, path: seq<nat>)
    requires node == ScrubNode(s, v, 0) && Visited(s, node, 0, path) != []
    ensures |path| <= 48 && |Visited(s, v, 0, path)| == 1
    ensures Visited(s, node, 0, path)[0] == ScrubNode(s, Visited(s, v, 0, path)[0], |path|)
  {
    VisitScrubbed(s, v, 0, path);
  }

  lemma VisitedIsHidden(s: Scrubber, node: Json, path: seq<nat>, w: seq<Json>)
    requires Idempotent(s.clean) && Visited(s, node, 0, path) != [] && w != [] && |path| <= MAX_DEPTH
    requires Visited(s, node, 0, path)[0] == ScrubNode(s, w[0], |path|)
    ensures Hidden(s, Visited(s, node, 0, path)[0])
  {
    ScrubbedAtIsHidden(s, w[0], Visited(s, node, 0, path)[0], |path|);
  }

  lemma ScrubbedAtIsHidden(s: Scrubber, w: Json, r: Json, depth: nat)
    requires Idempotent(s.clean) && depth <= MAX_DEPTH && r == ScrubNode(s, w, depth)
    ensures Hidden(s, r)
  {
    ScrubbedIsHidden(s, w, depth);
  }

  // ----- what becomes of each value the walk reaches -----

  /** A reached string is cleaned down to depth 48, and left alone below. */
  lemma StringsAreCleaned(s: Scrubber, v: Json, path: seq<nat>, text: string)
    requires Reached(s, v, path) == [Str(text)]
    ensures Reached(s, ScrubNode(s, v, 0), path) == [Str(if |path| <= 48 then s.clean(text) else text)]
  {
    ReachScrubbed(s, v, 0, path);
  }

  /** Everything below depth 48, and any number, boolean, None or tuple standing alone, is as it was. */
  lemma RestIsUntouched(s: Scrubber, v: Json, path: seq<nat>)
    requires Reached(s, v, path) != []
    requires var n := Reached(s, v, path)[0]; |path| > 48 || n.Null? || n.Atom? || n.Tup?
    ensures Reached(s, ScrubNode(s, v, 0), path) == Reached(s, v, path)
  {
    ReachScrubbed(s, v, 0, path);
  }

  /** In a reached dictionary a sensitive string key's value is the placeholder; a string under any
      other key is cleaned, and a number, a boolean or None stays. */
  lemma EntriesAreScrubbed(s: Scrubber, v: Json, path: seq<nat>, es: seq<Entry>, i: nat)
    requires Reached(s, v, path) == [Dict(es)] && i < |es| && |path| < 48
    ensures |Reached(s, ScrubNode(s, v, 0), path)| == 1
    ensures var r := Reached(s, ScrubNode(s, v, 0), path)[0];
            && r.Dict? && |r.entries| == |es| && r.entries[i].key == es[i].key
            && match es[i].key
               case Name(k) => if Sensitive(s.matcher, k) then r.entries[i].value == Str(s.placeholder) else Cleaned(s, es[i].value, r.entries[i].value)
               case OtherKey(_) => Cleaned(s, es[i].value, r.entries[i].value)
  {
    ReachScrubbed(s, v, 0, path);
    assert ScrubNode(s, Dict(es), |path|).entries[i] == ScrubEntry(s, es[i], |path|);
    LeafCleaned(s, es[i].value, |path| + 1);
  }

  lemma LeafCleaned(s: Scrubber, v: Json, depth: nat)
    requires depth <= 48
    ensures Cleaned(s, v, ScrubNode(s, v, depth))
  {
  }

  predicate Cleaned(s: Scrubber, v: Json, r: Json) {
    match v
    case Str(text) => r == Str(s.clean(text))
    case Null => r == v
    case Atom(_) => r == v
    case _ => true
  }

  /** In a reached list a pair, itself a list or a tuple of a string and at least one more, becomes a
      list that differs at most in its second element: the placeholder after a sensitive string,
      otherwise scrubbed like an entry's value. */
  lemma PairsAreScrubbed(s: Scrubber, v: Json, path: seq<nat>, xs: seq<Json>, i: nat, k: string, rest: seq<Json>)
    requires Reached(s, v, path) == [List(xs)] && i < |xs| && |path| < 48
    requires rest != [] && (xs[i] == List([Str(k)] + rest) || xs[i] == Tup([Str(k)] + rest))
    ensures |Reached(s, ScrubNode(s, v, 0), path)| == 1
    ensures var r := Reached(s, ScrubNode(s, v, 0), path)[0];
            && r.List? && |r.items| == |xs| && r.items[i].List? && |r.items[i].items| == 1 + |rest|
            && r.items[i].items[0] == Str(k) && r.items[i].items[2..] == rest[1..]
            && if Sensitive(s.matcher, k) then r.items[i].items[1] == Str(s.placeholder) else Cleaned(s, rest[0], r.items[i].items[1])
  {
    ReachScrubbed(s, v, 0, path);
    assert ScrubNode(s, List(xs), |path|).items[i] == ScrubItem(s, xs[i], |path|);
    PairScrubbed(s, xs[i], |path|, k, rest);
  }

  lemma PairScrubbed(s: Scrubber, v: Json, depth: nat, k: string, rest: seq<Json>)
    requires depth < 48 && rest != [] && (v == List([Str(k)] + rest) || v == Tup([Str(k)] + rest))
    ensures var r := ScrubItem(s, v, depth);
            && r.List? && |r.items| == 1 + |rest| && r.items[0] == Str(k) && r.items[2..] == rest[1..]
            && if Sensitive(s.matcher, k) then r.items[1] == Str(s.placeholder) else Cleaned(s, rest[0], r.items[1])
  {
    assert Elements(v) == [Str(k)] + rest;
    LeafCleaned(s, rest[0], depth + 1);
  }

  /** A string, a number, a boolean or None in a reached list is scrubbed likewise. */
  lemma ItemsAreScrubbed(s: Scrubber, v: Json, path: seq<nat>, xs: seq<Json>, i: nat)
    requires Reached(s, v, path) == [List(xs)] && i < |xs| && |path| < 48
    ensures |Reached(s, ScrubNode(s, v, 0), path)| == 1
    ensures var r := Reached(s, ScrubNode(s, v, 0), path)[0]; r.List? && |r.items| == |xs| && Cleaned(s, xs[i], r.items[i])
  {
    ReachScrubbed(s, v, 0, path);
    assert ScrubNode(s, List(xs), |path|).items[i] == ScrubItem(s, xs[i], |path|);
    LeafCleaned(s, xs[i], |path| + 1);
  }

  // ----- recursion depth -----

  /** How many node calls are on the stack at once while a node is walked. */
  function Nesting(s: Scrubber, v: Json, depth: nat): nat
    decreases v, 0
  {
    1 + if depth > MAX_DEPTH then 0
        else match v
          case Dict(es) => EntriesNesting(s, es, depth)
          case List(xs) => ItemsNesting(s, xs, depth)
          case _ => 0
  }

  function EntriesNesting(s: Scrubber, es: seq<Entry>, depth: nat): nat
    decreases es, 0
  {
    if es == [] then 0 else Max(EntryNesting(s, es[0], depth), EntriesNesting(s, es[1..], depth))
  }

  function EntryNesting(s: Scrubber, e: Entry, depth: nat): nat
    decreases e, 1
  {
    if SensitiveName(s, e.key) then 0 else Nesting(s, e.value, depth + 1)
  }

  function ItemsNesting(s: Scrubber, xs: seq<Json>, depth: nat): nat
    decreases xs, 0
  {
    if xs == [] then 0
    else
      var here := if !Pair(xs[0]) then Nesting(s, xs[0], depth + 1)
                  else if Sensitive(s.matcher, Elements(xs[0])[0].s) then 0
                  else Nesting(s, Elements(xs[0])[1], depth + 1);
      Max(here, ItemsNesting(s, xs[1..], depth))
  }

  /** However deep the payload, the walk never nests more than 50 calls. */
  lemma {:induction false} NestingBounded(s: Scrubber, v: Json, depth: nat)
    requires depth <= 49
    ensures Nesting(s, v, depth) <= 50 - depth
    decreases v, 0
  {
    if depth <= MAX_DEPTH {
      match v
      case Dict(es) => EntriesBounded(s, es, depth);
      case List(xs) => ItemsBounded(s, xs, depth);
      case _ =>
    }
  }

  lemma {:induction false} EntriesBounded(s: Scrubber, es: seq<Entry>, depth: nat)
    requires depth <= MAX_DEPTH
    ensures EntriesNesting(s, es, depth) <= MAX_DEPTH + 1 - depth
    decreases es, 0
  {
    if es != [] {
      EntryBounded(s, es[0], depth);
      EntriesBounded(s, es[1..], depth);
    }
  }

  lemma {:induction false} EntryBounded(s: Scrubber, e: Entry, depth: nat)
    requires depth <= MAX_DEPTH
    ensures EntryNesting(s, e, depth) <= MAX_DEPTH + 1 - depth
    decreases e, 1
  {
    NestingBounded(s, e.value, depth + 1);
  }

  lemma {:induction false} ItemsBounded(s: Scrubber, xs: seq<Json>, depth: nat)
    requires depth <= MAX_DEPTH
    ensures ItemsNesting(s, xs, depth) <= MAX_DEPTH + 1 - depth
    decreases xs, 0
  {
    if xs != [] {
      NestingBounded(s, if Pair(xs[0]) then Elements(xs[0])[1] else xs[0], depth + 1);
      ItemsBounded(s, xs[1..], depth);
    }
  }

  // ----- the event -----

  const SECTIONS: seq<string> :=
    ["request", "extra", "user", "contexts", "breadcrumbs", "exception", "threads", "tags", "logentry", "message", "csp", "spans"]

  /** One section: walked unless it is missing or None. */
  function ScrubSection(s: Scrubber, payload: map<string, Json>, section: string): map<string, Json> {
    if section in payload && payload[section] != Null then payload[section := ScrubNode(s, payload[section], 0)] else payload
  }

  function ScrubSections(s: Scrubber, payload: map<string, Json>, n: nat): map<string, Json>
    requires n <= |SECTIONS|
  {
    if n == 0 then payload else ScrubSection(s, ScrubSections(s, payload, n - 1), SECTIONS[n - 1])
  }

  function Scrubbed(s: Scrubber, payload: map<string, Json>): map<string, Json> {
    if s.enabled then ScrubSections(s, payload, |SECTIONS|) else payload
  }

  /** `scrub_event`. */
  method ScrubEvent(s: Scrubber, payload: map<string, Json>) returns (event: map<string, Json>)
    ensures event == Scrubbed(s, payload)
  {
    event := payload;
    if !s.enabled { return; }
    var i := 0;
    while i < |SECTIONS|
      invariant 0 <= i <= |SECTIONS|
      invariant event == ScrubSections(s, payload, i)
    {
      var section := SECTIONS[i];
      if section in event && event[section] != Null {
        event := event[section := ScrubNode(s, event[section], 0)];
      }
      i := i + 1;
    }
  }

  lemma {:induction false} SectionAt(s: Scrubber, payload: map<string, Json>, n: nat, key: string)
    requires n <= |SECTIONS|
    ensures ScrubSections(s, payload, n).Keys == payload.Keys
    ensures key in payload ==>
              ScrubSections(s, payload, n)[key] ==
              if key in SECTIONS[..n] then ScrubNode(s, payload[key], 0) else payload[key]
  {
    if n > 0 {
      SectionAt(s, payload, n - 1, key);
      assert SECTIONS[..n] == SECTIONS[..n - 1] + [SECTIONS[n - 1]];
      SectionsDiffer(n);
    }
  }

  lemma SectionsDiffer(n: nat)
    requires 0 < n <= |SECTIONS|
    ensures SECTIONS[n - 1] !in SECTIONS[..n - 1]
  {
    var before := SECTIONS[..n - 1];
    forall i | 0 <= i < |before| ensures before[i] != SECTIONS[n - 1] {}
  }

  /** Keys outside the listed sections, and everything when disabled, are left as they were; every
      listed section is walked once. */
  lemma EventSectionsScrubbed(s: Scrubber, payload: map<string, Json>, key: string)
    ensures Scrubbed(s, payload).Keys == payload.Keys
    ensures key in payload ==>
              Scrubbed(s, payload)[key] == if s.enabled && key in SECTIONS then ScrubNode(s, payload[key], 0) else payload[key]
  {
    SectionAt(s, payload, |SECTIONS|, key);
    assert SECTIONS[..|SECTIONS|] == SECTIONS;
  }

  /** The sections are these. */
  lemma SectionsAreWalked(s: Scrubber, payload: map<string, Json>, key: string)
    requires s.enabled && key in payload
    ensures key in Scrubbed(s, payload)
    ensures Scrubbed(s, payload)[key] ==
              if key in {"request", "extra", "user", "contexts", "breadcrumbs", "exception", "threads", "tags", "logentry", "message", "csp", "spans"}
              then ScrubNode(s, payload[key], 0) else payload[key]
  {
    EventSectionsScrubbed(s, payload, key);
  }

  /** Scrubbing an event twice is scrubbing it once. */
  lemma ScrubEventTwice(s: Scrubber, payload: map<string, Json>)
    requires Idempotent(s.clean)
    ensures Scrubbed(s, Scrubbed(s, payload)) == Scrubbed(s, payload)
  {
    var once := Scrubbed(s, payload);
    var twice := Scrubbed(s, once);
    forall key | key in payload ensures key in once && key in twice && twice[key] == once[key] {
      EventSectionsScrubbed(s, payload, key);
      EventSectionsScrubbed(s, once, key);
      if s.enabled && key in SECTIONS { ScrubTwice(s, payload[key], 0); }
    }
    EventSectionsScrubbed(s, payload, "");
    EventSectionsScrubbed(s, once, "");
  }
}
