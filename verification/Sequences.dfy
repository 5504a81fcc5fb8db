/** Flattening a list of names into paths or rows, and the laws the other modules share. */
module Sequences {

  ghost predicate Distinct<T>(xs: seq<T>) {
    forall i, j :: 0 <= i < j < |xs| ==> xs[i] != xs[j]
  }

  /** The groups' elements in order. */
  function Flatten<T>(groups: seq<seq<T>>): seq<T> {
    if groups == [] then [] else Flatten(groups[..|groups| - 1]) + groups[|groups| - 1]
  }

  lemma FlattenLast<T>(groups: seq<seq<T>>, g: seq<T>)
    ensures Flatten(groups + [g]) == Flatten(groups) + g
  {
    assert (groups + [g])[..|groups|] == groups;
  }

  lemma {:induction false} FlattenCons<T>(g: seq<T>, groups: seq<seq<T>>)
    ensures Flatten([g] + groups) == g + Flatten(groups)
  {
    if groups == [] {
      assert [g] + groups == [g] && [g][..0] == [];
    } else {
      var init := groups[..|groups| - 1];
      assert ([g] + groups)[..|groups|] == [g] + init;
      FlattenCons(g, init);
    }
  }

  lemma FlattenOne<T>(g: seq<T>)
    ensures Flatten([g]) == g
  {
    assert [g][..0] == [];
  }

  lemma {:induction false} FlattenHas<T>(groups: seq<seq<T>>, g: seq<T>, x: T)
    requires g in groups && x in g
    ensures x in Flatten(groups)
  {
    if g in groups[..|groups| - 1] { FlattenHas(groups[..|groups| - 1], g, x); }
  }

  /** `[y for x in xs for y in f(x)]`. */
  function Gather<A, B>(xs: seq<A>, f: A -> seq<B>): seq<B> {
    if xs == [] then [] else Gather(xs[..|xs| - 1], f) + f(xs[|xs| - 1])
  }

  lemma GatherOne<A, B>(x: A, f: A -> seq<B>)
    ensures Gather([x], f) == f(x)
  {
    assert [x][..0] == [];
  }

  lemma GatherStep<A, B>(xs: seq<A>, f: A -> seq<B>, i: nat)
    requires i < |xs|
    ensures Gather(xs[..i + 1], f) == Gather(xs[..i], f) + f(xs[i])
  {
    assert xs[..i + 1][..i] == xs[..i];
  }

  lemma {:induction false} GatherAppend<A, B>(xs: seq<A>, ys: seq<A>, f: A -> seq<B>)
    ensures Gather(xs + ys, f) == Gather(xs, f) + Gather(ys, f)
  {
    if ys == [] {
      assert xs + ys == xs;
    } else {
      var init := ys[..|ys| - 1];
      assert (xs + ys)[..|xs + ys| - 1] == xs + init;
      GatherAppend(xs, init, f);
    }
  }

  lemma {:induction false} GatherMember<A, B>(xs: seq<A>, f: A -> seq<B>, y: B)
    ensures y in Gather(xs, f) <==> exists x :: x in xs && y in f(x)
  {
    if xs != [] {
      var init, last := xs[..|xs| - 1], xs[|xs| - 1];
      GatherMember(init, f, y);
      assert forall x :: x in xs <==> x in init || x == last;
    }
  }

  /** A member and what stands before and behind it. */
  lemma Without<A>(xs: seq<A>, x: A) returns (a: seq<A>, b: seq<A>)
    requires x in xs
    ensures xs == a + [x] + b && multiset(xs) == multiset(a + b) + multiset{x}
  {
    var i :| 0 <= i < |xs| && xs[i] == x;
    a, b := xs[..i], xs[i + 1..];
    assert xs == a + [x] + b;
  }

  /** The last of one list, found in a permutation of it. */
  lemma LastElsewhere<A>(xs: seq<A>, ys: seq<A>) returns (a: seq<A>, b: seq<A>)
    requires xs != [] && multiset(xs) == multiset(ys)
    ensures ys == a + [xs[|xs| - 1]] + b && multiset(xs[..|xs| - 1]) == multiset(a + b)
  {
    var init, last := xs[..|xs| - 1], xs[|xs| - 1];
    assert xs == init + [last];
    assert multiset(xs) == multiset(init) + multiset{last};
    assert last in multiset(ys);
    a, b := Without(ys, last);
    assert multiset(init) == multiset(xs) - multiset{last};
    assert multiset(a + b) == multiset(ys) - multiset{last};
  }

  lemma GatherMiddle<A, B>(a: seq<A>, x: A, b: seq<A>, f: A -> seq<B>)
    ensures multiset(Gather(a + [x] + b, f)) == multiset(Gather(a + b, f)) + multiset(f(x))
  {
    GatherAppend(a + [x], b, f);
    GatherAppend(a, [x], f);
    GatherAppend(a, b, f);
    GatherOne(x, f);
  }

  /** The gathered rows depend, as a multiset, only on which names are listed, not on their order. */
  lemma {:induction false} GatherPermuted<A, B>(xs: seq<A>, ys: seq<A>, f: A -> seq<B>)
    requires multiset(xs) == multiset(ys)
    ensures multiset(Gather(xs, f)) == multiset(Gather(ys, f))
  {
    if xs == [] {
      assert |multiset(ys)| == 0;
      assert ys == [];
    } else {
      var a, b := LastElsewhere(xs, ys);
      GatherPermuted(xs[..|xs| - 1], a + b, f);
      GatherMiddle(a, xs[|xs| - 1], b, f);
    }
  }

  function Keep<A>(xs: seq<A>, p: A -> bool): (r: seq<A>) {
    if xs == [] then [] else Keep(xs[..|xs| - 1], p) + if p(xs[|xs| - 1]) then [xs[|xs| - 1]] else []
  }

  lemma {:induction false} KeepAppend<A>(xs: seq<A>, ys: seq<A>, p: A -> bool)
    ensures Keep(xs + ys, p) == Keep(xs, p) + Keep(ys, p)
  {
    if ys == [] {
      assert xs + ys == xs;
    } else {
      var init := ys[..|ys| - 1];
      assert (xs + ys)[..|xs + ys| - 1] == xs + init;
      KeepAppend(xs, init, p);
    }
  }

  lemma {:induction false} KeepMember<A>(xs: seq<A>, p: A -> bool, y: A)
    ensures y in Keep(xs, p) <==> y in xs && p(y)
    ensures |Keep(xs, p)| <= |xs|
  {
    if xs != [] {
      KeepMember(xs[..|xs| - 1], p, y);
      assert xs == xs[..|xs| - 1] + [xs[|xs| - 1]];
    }
  }

  /** Nothing is filtered out exactly when the length stays. */
  lemma {:induction false} KeepAll<A>(xs: seq<A>, p: A -> bool)
    ensures |Keep(xs, p)| == |xs| <==> Keep(xs, p) == xs
    ensures |Keep(xs, p)| == |xs| <==> forall x :: x in xs ==> p(x)
    ensures |Keep(xs, p)| <= |xs|
  {
    if xs != [] {
      var init, last := xs[..|xs| - 1], xs[|xs| - 1];
      KeepAll(init, p);
      assert xs == init + [last];
    }
  }

  lemma KeepOne<A>(x: A, p: A -> bool)
    ensures Keep([x], p) == if p(x) then [x] else []
  {
    assert [x][..0] == [];
  }

  /** Filtering the gathered rows is gathering the filtered ones. */
  lemma {:induction false} KeepGather<A, B>(xs: seq<A>, f: A -> seq<B>, p: B -> bool, g: A -> seq<B>)
    requires forall x :: x in xs ==> g(x) == Keep(f(x), p)
    ensures Keep(Gather(xs, f), p) == Gather(xs, g)
  {
    if xs != [] {
      var init := xs[..|xs| - 1];
      assert forall x :: x in init ==> x in xs;
      KeepGather(init, f, p, g);
      KeepAppend(Gather(init, f), f(xs[|xs| - 1]), p);
    }
  }

  lemma {:induction false} GatherGather<A, B, C>(xs: seq<A>, f: A -> seq<B>, g: B -> seq<C>, h: A -> seq<C>)
    requires forall x :: x in xs ==> h(x) == Gather(f(x), g)
    ensures Gather(Gather(xs, f), g) == Gather(xs, h)
  {
    if xs != [] {
      var init := xs[..|xs| - 1];
      assert forall x :: x in init ==> x in xs;
      GatherGather(init, f, g, h);
      GatherAppend(Gather(init, f), f(xs[|xs| - 1]), g);
    }
  }

  /** Two gatherings that agree except where `more` holds, and grow there. */
  lemma {:induction false} GatherCompare<A, B>(xs: seq<A>, f: A -> seq<B>, g: A -> seq<B>, more: A -> bool)
    requires forall x :: x in xs ==> if more(x) then |f(x)| < |g(x)| else f(x) == g(x)
    ensures |Gather(xs, f)| <= |Gather(xs, g)|
    ensures if exists x :: x in xs && more(x) then |Gather(xs, f)| < |Gather(xs, g)| else Gather(xs, f) == Gather(xs, g)
  {
    if xs != [] {
      var init, last := xs[..|xs| - 1], xs[|xs| - 1];
      assert forall x :: x in xs <==> x in init || x == last;
      GatherCompare(init, f, g, more);
    }
  }

  /** One name accounts for everything gathered. */
  lemma {:induction false} GatherSingle<A, B>(xs: seq<A>, f: A -> seq<B>, only: A)
    requires Distinct(xs)
    requires forall x :: x in xs && x != only ==> f(x) == []
    ensures Gather(xs, f) == if only in xs then f(only) else []
  {
    if xs != [] {
      var init, last := xs[..|xs| - 1], xs[|xs| - 1];
      assert xs == init + [last];
      assert forall x :: x in init ==> x in xs;
      GatherSingle(init, f, only);
      if last == only {
        assert only !in init;
        assert f(only) + [] == f(only);
      }
    }
  }

  /** Distinct sequences with the same members are permutations of one another. */
  lemma {:induction false} SameMembers<A>(xs: seq<A>, ys: seq<A>)
    requires Distinct(xs)
    requires Distinct(ys)
    requires forall x :: x in xs <==> x in ys
    ensures multiset(xs) == multiset(ys)
  {
    forall x ensures multiset(xs)[x] == multiset(ys)[x] {
      CountOne(xs, x);
      CountOne(ys, x);
    }
  }

  lemma {:induction false} CountOne<A>(xs: seq<A>, x: A)
    requires Distinct(xs)
    ensures multiset(xs)[x] == if x in xs then 1 else 0
  {
    if xs != [] {
      var init, last := xs[..|xs| - 1], xs[|xs| - 1];
      assert xs == init + [last];
      CountOne(init, x);
      assert last !in init;
    }
  }

  /** Each element leads to the next. */
  ghost predicate Chain<T>(xs: seq<T>, next: (T, T) -> bool) {
    xs != [] && forall i :: 0 <= i < |xs| - 1 ==> next(xs[i], xs[i + 1])
  }

  /** A chain that goes on where another ends. */
  function Joined<T>(xs: seq<T>, ys: seq<T>): seq<T>
    requires ys != []
  {
    xs + ys[1..]
  }

  lemma ChainJoins<T>(xs: seq<T>, ys: seq<T>, next: (T, T) -> bool)
    requires Chain(xs, next) && Chain(ys, next) && xs[|xs| - 1] == ys[0]
    ensures Chain(Joined(xs, ys), next)
    ensures Joined(xs, ys)[0] == xs[0] && Joined(xs, ys)[|Joined(xs, ys)| - 1] == ys[|ys| - 1]
  {
    var zs, n := Joined(xs, ys), |xs| - 1;
    forall i | 0 <= i < |zs| - 1 ensures next(zs[i], zs[i + 1]) {
      if i >= n { assert zs[i] == ys[i - n] && zs[i + 1] == ys[i - n + 1]; }
    }
  }
}
