/** Division with remainder, the larger and the smaller of two numbers, unused ids, sizes of sets. */
module Numbers {

  function Max(a: nat, b: nat): nat {
    if a < b then b else a
  }

  function Min(a: nat, b: nat): nat {
    if a < b then a else b
  }

  lemma Scaled(d: nat, a: int, b: int)
    ensures a <= b ==> d * a <= d * b
  {
    assert a <= b ==> d * (b - a) >= 0;
    assert d * b == d * a + d * (b - a);
  }

  /** Division with remainder has one answer. */
  lemma OneQuotient(d: nat, p: int, s: int, q: int, r: int)
    requires d > 0 && 0 <= s < d && 0 <= r < d && d * p + s == d * q + r
    ensures p == q && s == r
  {
    assert d * (q + 1) == d * q + d && d * (p + 1) == d * p + d;
    Scaled(d, q + 1, p);
    Scaled(d, p + 1, q);
  }

  lemma SameRemainder(x: int, d: nat, q: int, r: int)
    requires d > 0 && x == d * q + r && 0 <= r < d
    ensures x % d == r
  {
    OneQuotient(d, x / d, x % d, q, r);
  }

  /** A number above all that are in use. */
  lemma {:induction false} FreshId(used: set<nat>) returns (id: nat)
    ensures forall u :: u in used ==> u < id
    decreases |used|
  {
    if u :| u in used {
      var rest := FreshId(used - {u});
      id := if u < rest then rest else u + 1;
      forall v | v in used ensures v < id {
        assert v == u || v in used - {u};
      }
    } else {
      id := 0;
    }
  }

  lemma {:induction false} SubsetSize<T>(a: set<T>, b: set<T>)
    requires a <= b
    ensures |a| <= |b| && (|a| == |b| ==> a == b)
    decreases |b|
  {
    if x :| x in b - a {
      SubsetSize(a, b - {x});
    } else {
      assert b == a + (b - a);
    }
  }
}
