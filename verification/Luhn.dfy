/** The Luhn check digit (ISO/IEC 7812-1, Annex B) that keeps long digit runs from passing for card numbers. */
module Luhn {

  type Digit = d: int | 0 <= d <= 9

  // ----- the standard's rule -----

  /** A doubled digit counts by the sum of its product's digits. */
  function Doubled(d: Digit): Digit {
    2 * d / 10 + 2 * d % 10
  }

  /** From the right, every second digit is doubled, starting beside the check digit. */
  function FromRight(ds: seq<Digit>, double: bool): nat {
    if ds == [] then 0
    else FromRight(ds[..|ds| - 1], !double) + if double then Doubled(ds[|ds| - 1]) else ds[|ds| - 1]
  }

  predicate Valid(ds: seq<Digit>) {
    FromRight(ds, false) % 10 == 0
  }

  // ----- the code's loop -----

  function Value(d: Digit, double: bool): Digit {
    if double then Doubled(d) else d
  }

  /** The first n digits' contribution, doubling the positions of the length's parity. */
  function FromLeft(ds: seq<Digit>, n: nat): nat
    requires n <= |ds|
  {
    if n == 0 then 0 else FromLeft(ds, n - 1) + Value(ds[n - 1], (n - 1) % 2 == |ds| % 2)
  }

  lemma {:induction false} LeftIsRight(ds: seq<Digit>, n: nat)
    requires n <= |ds|
    ensures FromLeft(ds, n) == FromRight(ds[..n], n % 2 != |ds| % 2)
  {
    if n > 0 {
      LeftIsRight(ds, n - 1);
      assert ds[..n][..n - 1] == ds[..n - 1];
    }
  }

  method LuhnValid(digits: seq<Digit>) returns (valid: bool)
    ensures valid <==> Valid(digits)
  {
    var total := 0;
    var parity := |digits| % 2;
    var i := 0;
    while i < |digits|
      invariant 0 <= i <= |digits|
      invariant total == FromLeft(digits, i)
    {
      var d: int := digits[i];
      if i % 2 == parity {
        d := d * 2;
        if d > 9 { d := d - 9; }
      }
      total := total + d;
      i := i + 1;
    }
    LeftIsRight(digits, |digits|);
    assert digits[..|digits|] == digits;
    valid := total % 10 == 0;
  }

  // ----- what it catches -----

  lemma {:induction false} Update(ds: seq<Digit>, i: nat, x: Digit, n: nat)
    requires i < |ds| && n <= |ds|
    ensures FromLeft(ds[i := x], n) == FromLeft(ds, n) +
              if i < n then Value(x, i % 2 == |ds| % 2) - Value(ds[i], i % 2 == |ds| % 2) else 0
  {
    if n > 0 { Update(ds, i, x, n - 1); }
  }

  lemma ValidFromLeft(ds: seq<Digit>)
    ensures Valid(ds) <==> FromLeft(ds, |ds|) % 10 == 0
  {
    LeftIsRight(ds, |ds|);
    assert ds[..|ds|] == ds;
  }

  /** Doubling permutes the digits. */
  lemma DoubledPermutes(a: Digit, b: Digit)
    ensures Doubled(a) == (if a > 4 then 2 * a - 9 else 2 * a) && Doubled(b) == (if b > 4 then 2 * b - 9 else 2 * b)
    ensures Doubled(a) == Doubled(b) <==> a == b
  {
  }

  lemma TenDivides(total: int, difference: int)
    requires total % 10 == 0
    ensures (total + difference) % 10 == 0 <==> difference % 10 == 0
  {
  }

  /** Any single changed digit is caught, in a number of any length. */
  lemma SingleChangeCaught(ds: seq<Digit>, i: nat, x: Digit)
    requires i < |ds| && Valid(ds) && x != ds[i]
    ensures !Valid(ds[i := x])
  {
    ValidFromLeft(ds);
    ValidFromLeft(ds[i := x]);
    Update(ds, i, x, |ds|);
    var double := i % 2 == |ds| % 2;
    var difference := Value(x, double) - Value(ds[i], double);
    DoubledPermutes(x, ds[i]);
    assert difference != 0 && -9 <= difference <= 9;
    TenDivides(FromLeft(ds, |ds|), difference);
    SmallMultiple(difference);
  }

  lemma SmallMultiple(n: int)
    requires -9 <= n <= 9
    ensures n % 10 == 0 <==> n == 0
  {
  }

  function Swapped(ds: seq<Digit>, i: nat): seq<Digit>
    requires i + 1 < |ds|
  {
    ds[i := ds[i + 1]][i + 1 := ds[i]]
  }

  lemma SwappedTotal(ds: seq<Digit>, i: nat)
    requires i + 1 < |ds|
    ensures var a, b, sign := ds[i], ds[i + 1], if i % 2 == |ds| % 2 then 1 else -1;
            FromLeft(Swapped(ds, i), |ds|) == FromLeft(ds, |ds|) + sign * ((Doubled(b) - b) - (Doubled(a) - a))
  {
    Update(ds, i, ds[i + 1], |ds|);
    Update(ds[i := ds[i + 1]], i + 1, ds[i], |ds|);
  }

  /** What a digit gains by doubling tells all digits apart, modulo ten, but 0 and 9. */
  lemma GainDifference(a: Digit, b: Digit)
    ensures ((Doubled(b) - b) - (Doubled(a) - a)) % 10 == 0 <==> a == b || (a == 0 && b == 9) || (a == 9 && b == 0)
    ensures (-((Doubled(b) - b) - (Doubled(a) - a))) % 10 == 0 <==> a == b || (a == 0 && b == 9) || (a == 9 && b == 0)
  {
    DoubledPermutes(a, b);
  }

  /** Swapping two neighbours is caught exactly if they differ and are not 0 and 9. */
  lemma AdjacentSwapCaught(ds: seq<Digit>, i: nat)
    requires i + 1 < |ds| && Valid(ds)
    ensures Valid(Swapped(ds, i)) <==> ds[i] == ds[i + 1] || (ds[i] == 0 && ds[i + 1] == 9) || (ds[i] == 9 && ds[i + 1] == 0)
  {
    ValidFromLeft(ds);
    ValidFromLeft(Swapped(ds, i));
    SwappedTotal(ds, i);
    GainDifference(ds[i], ds[i + 1]);
    TenDivides(FromLeft(ds, |ds|), FromLeft(Swapped(ds, i), |ds|) - FromLeft(ds, |ds|));
  }

  /** Exactly one check digit completes a prefix. */
  lemma OneCheckDigit(prefix: seq<Digit>) returns (check: Digit)
    ensures Valid(prefix + [check]) && forall d: Digit :: Valid(prefix + [d]) ==> d == check
  {
    var rest := FromRight(prefix, true);
    check := (10 - rest % 10) % 10;
    forall d: Digit ensures Valid(prefix + [d]) <==> d == check {
      assert (prefix + [d])[..|prefix|] == prefix;
      CompletesTen(rest, d);
    }
  }

  lemma CompletesTen(rest: nat, d: Digit)
    ensures (rest + d) % 10 == 0 <==> d == (10 - rest % 10) % 10
  {
  }
}
