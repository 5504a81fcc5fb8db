/** Names as the storage backend and Python see them: lexicographic order, `sorted()` over a
    directory listing, and zero-padded decimal fields such as `chunk_007` and `20260115`. */
module Names {

  datatype Option<+T> = None | Some(value: T)

  /** Python's `<=` on strings: the first differing character decides, a prefix comes first. */
  predicate Le(a: string, b: string) {
    a == [] || (b != [] && (a[0] < b[0] || (a[0] == b[0] && Le(a[1..], b[1..]))))
  }

  predicate Lt(a: string, b: string) {
    a != b && Le(a, b)
  }

  lemma {:induction false} LeRefl(a: string)
    ensures Le(a, a)
  {
    if a != [] { LeRefl(a[1..]); }
  }

  lemma {:induction false} LeTotal(a: string, b: string)
    ensures Le(a, b) || Le(b, a)
  {
    if a != [] && b != [] { LeTotal(a[1..], b[1..]); }
  }

  lemma {:induction false} LeAntisym(a: string, b: string)
    requires Le(a, b) && Le(b, a)
    ensures a == b
  {
    if a != [] && b != [] {
      LeAntisym(a[1..], b[1..]);
      assert a == [a[0]] + a[1..] && b == [b[0]] + b[1..];
    }
  }

  lemma {:induction false} LeTrans(a: string, b: string, c: string)
    requires Le(a, b) && Le(b, c)
    ensures Le(a, c)
  {
    if a != [] && a[0] == b[0] && b[0] == c[0] { LeTrans(a[1..], b[1..], c[1..]); }
  }

  /** Strings that share a prefix compare by what follows it. */
  lemma {:induction false} LtAfterPrefix(p: string, a: string, b: string)
    ensures Lt(p + a, p + b) <==> Lt(a, b)
  {
    if p == [] {
      assert p + a == a && p + b == b;
    } else {
      assert (p + a)[1..] == p[1..] + a && (p + b)[1..] == p[1..] + b;
      LtAfterPrefix(p[1..], a, b);
      assert p + a == p + b ==> a == (p + a)[|p|..] == (p + b)[|p|..] == b;
    }
  }

  /** Strings of one length compare the same with equal or unequal tails appended. */
  lemma {:induction false} LtSameLength(a: string, b: string, s: string, t: string)
    requires |a| == |b| && Lt(a, b)
    ensures Lt(a + s, b + t)
  {
    assert (a + s)[1..] == a[1..] + s && (b + t)[1..] == b[1..] + t;
    if a[0] == b[0] {
      assert a == [a[0]] + a[1..] && b == [b[0]] + b[1..];
      LtSameLength(a[1..], b[1..], s, t);
    }
  }

  // ----- sorted() -----

  ghost predicate Ascending(names: seq<string>) {
    forall i, j :: 0 <= i < j < |names| ==> Lt(names[i], names[j])
  }

  lemma {:induction false} LeastExists(names: set<string>)
    requires names != {}
    ensures exists m :: m in names && forall x :: x in names ==> Le(m, x)
    decreases |names|
  {
    var n :| n in names;
    LeRefl(n);
    var rest := names - {n};
    if rest == {} {
      assert names == {n};
    } else {
      LeastExists(rest);
      var m :| m in rest && forall x :: x in rest ==> Le(m, x);
      LeTotal(m, n);
      if Le(m, n) {
        assert m in names;
      } else {
        forall x | x in names ensures Le(n, x) {
          if x != n { LeTrans(n, m, x); }
        }
      }
    }
  }

  /** The least name; any two least names are equal, so the choice is a function. */
  function Least(names: set<string>): (m: string)
    requires names != {}
    ensures m in names && forall x :: x in names ==> Le(m, x)
  {
    LeastExists(names);
    assert forall m, n | m in names && n in names && Le(m, n) && Le(n, m) :: m == n by {
      forall m, n | m in names && n in names && Le(m, n) && Le(n, m) ensures m == n {
        LeAntisym(m, n);
      }
    }
    var m :| m in names && forall x :: x in names ==> Le(m, x);
    m
  }

  /** `sorted(names)` for a directory's entries, which are distinct. */
  function Sorted(names: set<string>): (r: seq<string>)
    ensures forall x :: x in r <==> x in names
    ensures |r| == |names|
    decreases |names|
  {
    if names == {} then []
    else
      var m := Least(names);
      var rest := Sorted(names - {m});
      [m] + rest
  }

  lemma {:induction false} SortedAscends(names: set<string>)
    ensures Ascending(Sorted(names))
    decreases |names|
  {
    if names != {} {
      SortedAscends(names - {Least(names)});
    }
  }

  lemma AscendingDistinct(names: seq<string>)
    requires Ascending(names)
    ensures forall i, j :: 0 <= i < j < |names| ==> names[i] != names[j]
  {
  }

  /** There is one ascending arrangement of a set of names. */
  lemma {:induction false} AscendingUnique(a: seq<string>, b: seq<string>)
    requires Ascending(a) && Ascending(b)
    requires |a| == |b| && forall x :: x in a <==> x in b
    ensures a == b
  {
    if a != [] {
      assert a[0] in b;
      var j :| 0 <= j < |b| && b[j] == a[0];
      assert b[0] in a;
      var i :| 0 <= i < |a| && a[i] == b[0];
      if i != 0 && j != 0 {
        LeAntisym(a[0], b[0]);
        assert false;
      }
      assert a[0] == b[0];
      forall x ensures x in a[1..] <==> x in b[1..] {
        if x in a[1..] {
          var k :| 0 <= k < |a[1..]| && a[1..][k] == x;
          assert a[k + 1] == x && x in a && x != a[0];
          var l :| 0 <= l < |b| && b[l] == x;
          assert b[1..][l - 1] == x;
        }
        if x in b[1..] {
          var k :| 0 <= k < |b[1..]| && b[1..][k] == x;
          assert b[k + 1] == x && x in b && x != b[0];
          var l :| 0 <= l < |a| && a[l] == x;
          assert a[1..][l - 1] == x;
        }
      }
      AscendingUnique(a[1..], b[1..]);
      assert a == [a[0]] + a[1..] && b == [b[0]] + b[1..];
    }
  }

  // ----- decimal fields -----

  predicate IsDigit(c: char) {
    '0' <= c <= '9'
  }

  function Digit(d: nat): (c: char)
    requires d < 10
    ensures IsDigit(c)
  {
    '0' + d as char
  }

  function DigitValue(c: char): (d: nat) {
    if IsDigit(c) then (c - '0') as nat else 0
  }

  /** Reads a run of decimal digits; the inverse of both printers below. */
  function Value(s: string): nat {
    if s == [] then 0 else 10 * Value(s[..|s| - 1]) + DigitValue(s[|s| - 1])
  }

  /** `str(n)`. */
  function Decimal(n: nat): (s: string)
    ensures s != []
  {
    if n < 10 then [Digit(n)] else Decimal(n / 10) + [Digit(n % 10)]
  }

  /** `f"{n:0wd}"` for a number that fits its field: exactly w digits. */
  function Fixed(n: nat, w: nat): (s: string)
    ensures |s| == w
  {
    if w == 0 then "" else Fixed(n / 10, w - 1) + [Digit(n % 10)]
  }

  function Pow10(w: nat): (p: nat)
    ensures p > 0
  {
    if w == 0 then 1 else 10 * Pow10(w - 1)
  }

  /** `f"{n:03d}"`: three digits, more when the number needs them. */
  function Pad3(n: nat): string {
    if n < 1000 then Fixed(n, 3) else Decimal(n)
  }

  lemma {:induction false} FixedValue(n: nat, w: nat)
    requires n < Pow10(w)
    ensures Value(Fixed(n, w)) == n
  {
    if w > 0 {
      FixedValue(n / 10, w - 1);
      assert Fixed(n, w)[..w - 1] == Fixed(n / 10, w - 1);
    }
  }

  lemma {:induction false} DecimalValue(n: nat)
    ensures Value(Decimal(n)) == n
  {
    if n < 10 {
      assert Value([Digit(n)]) == 10 * Value([Digit(n)][..0]) + n;
    } else {
      DecimalValue(n / 10);
      assert Decimal(n)[..|Decimal(n)| - 1] == Decimal(n / 10);
    }
  }

  /** Zero padding to a fixed width makes string order numeric order. */
  lemma {:induction false} FixedOrder(m: nat, n: nat, w: nat)
    requires m < n < Pow10(w)
    ensures Lt(Fixed(m, w), Fixed(n, w))
  {
    var a, b := Fixed(m / 10, w - 1), Fixed(n / 10, w - 1);
    if m / 10 < n / 10 {
      FixedOrder(m / 10, n / 10, w - 1);
      LtSameLength(a, b, [Digit(m % 10)], [Digit(n % 10)]);
    } else {
      LtAfterPrefix(a, [Digit(m % 10)], [Digit(n % 10)]);
    }
  }

  lemma Pad3Value(n: nat)
    ensures Value(Pad3(n)) == n
  {
    if n < 1000 {
      assert Pow10(3) == 10 * (10 * (10 * Pow10(0)));
      FixedValue(n, 3);
    } else {
      DecimalValue(n);
    }
  }
}
