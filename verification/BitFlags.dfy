/** Bit-flag fields: the handler that owns the value, the three decoders, the form that encodes,
    and the repair of negative values. Integers are Python's, unbounded and two's complement. */
module BitFlags {
  import opened Names
  import opened Numbers
  import opened Sequences

  /** `len(bin(MAX_BIGINT)) - 2`. */
  const MAX_FLAG_COUNT: nat := 63

  function Pow2(n: nat): (p: nat)
    ensures p > 0
  {
    if n == 0 then 1 else 2 * Pow2(n - 1)
  }

  /** `v & 2**i != 0`, for negative v too. */
  predicate Bit(v: int, i: nat)
    decreases i
  {
    if i == 0 then v % 2 == 1 else Bit(v / 2, i - 1)
  }

  /** `v | 2**i`. */
  function WithBit(v: int, i: nat): int {
    if Bit(v, i) then v else v + Pow2(i)
  }

  /** `v & ~2**i`. */
  function WithoutBit(v: int, i: nat): int {
    if Bit(v, i) then v - Pow2(i) else v
  }

  // ----- names -----

  predicate Underscored(k: string) {
    k != "" && k[0] == '_'
  }

  /** Names the handler's class defines, which attribute lookup finds before any flag. */
  const ATTRIBUTES: set<string> := {"mask", "evaluate", "get_bit", "set_bit", "keys", "iterkeys", "items", "iteritems", "get_label"}

  /** Underscored names whose assignment the object does not simply keep: the value, the list of
      flags, and the three attributes Python itself guards. */
  const GUARDED: set<string> := {"__class__", "__dict__"}
  const READ_ONLY: string := "__weakref__"

  predicate Plain(k: string) {
    !Underscored(k) && k !in ATTRIBUTES
  }

  /** `keys.index(k)`. */
  function Index(ks: seq<string>, k: string): (i: nat)
    requires k in ks
    ensures i < |ks| && ks[i] == k
  {
    if ks[0] == k then 0 else 1 + Index(ks[1..], k)
  }

  // ----- bits -----

  lemma {:induction false} WithBitSets(v: int, i: nat, j: nat)
    ensures Bit(WithBit(v, i), j) <==> j == i || Bit(v, j)
    decreases i
  {
    if !Bit(v, i) {
      if i == 0 {
        assert (v + 1) / 2 == v / 2;
      } else {
        assert (v + Pow2(i)) / 2 == v / 2 + Pow2(i - 1) && (v + Pow2(i)) % 2 == v % 2;
        if j > 0 { WithBitSets(v / 2, i - 1, j - 1); }
      }
    }
  }

  lemma {:induction false} WithoutBitClears(v: int, i: nat, j: nat)
    ensures Bit(WithoutBit(v, i), j) <==> j != i && Bit(v, j)
    decreases i
  {
    if Bit(v, i) {
      if i == 0 {
        assert (v - 1) / 2 == v / 2 && (v - 1) % 2 == 0;
      } else {
        assert (v - Pow2(i)) / 2 == v / 2 - Pow2(i - 1) && (v - Pow2(i)) % 2 == v % 2;
        if j > 0 { WithoutBitClears(v / 2, i - 1, j - 1); }
      }
    }
  }

  lemma AddDoubled(v: int, p: int)
    ensures (v + 2 * p) / 2 == v / 2 + p && (v + 2 * p) % 2 == v % 2
  {
  }

  lemma {:induction false} WithBitFits(v: int, i: nat, n: nat)
    requires i < n && 0 <= v < Pow2(n)
    ensures 0 <= WithBit(v, i) < Pow2(n)
  {
    assert Pow2(n) == 2 * Pow2(n - 1);
    if !Bit(v, i) && i > 0 {
      WithBitFits(v / 2, i - 1, n - 1);
      AddDoubled(v, Pow2(i - 1));
      assert Pow2(i) == 2 * Pow2(i - 1);
    }
  }

  /** Values below 2^n with the same n bits are equal. */
  lemma {:induction false} BitsDetermine(a: int, b: int, n: nat)
    requires 0 <= a < Pow2(n) && 0 <= b < Pow2(n)
    requires forall j :: 0 <= j < n ==> (Bit(a, j) <==> Bit(b, j))
    ensures a == b
  {
    if n > 0 {
      forall j | 0 <= j < n - 1 ensures Bit(a / 2, j) <==> Bit(b / 2, j) {
        assert Bit(a, j + 1) <==> Bit(b, j + 1);
      }
      BitsDetermine(a / 2, b / 2, n - 1);
      assert Bit(a, 0) <==> Bit(b, 0);
    }
  }

  lemma Halve(a: int, b: int, m: nat)
    requires m > 0 && 0 <= b < 2
    ensures (2 * a + b) % (2 * m) == 2 * (a % m) + b
  {
    var q, r := a / m, a % m;
    assert a == m * q + r;
    assert (2 * m) * q == 2 * (m * q);
    SameRemainder(2 * a + b, 2 * m, q, 2 * r + b);
  }

  /** The value of the low n bits. */
  function Low(v: int, n: nat): nat
    decreases n
  {
    if n == 0 then 0 else 2 * Low(v / 2, n - 1) + v % 2
  }

  lemma {:induction false} LowIsRemainder(v: int, n: nat)
    ensures Low(v, n) == v % Pow2(n)
    decreases n
  {
    if n > 0 {
      LowIsRemainder(v / 2, n - 1);
      Halve(v / 2, v % 2, Pow2(n - 1));
    }
  }

  /** The remainder modulo the next power of two adds the next bit. */
  lemma {:induction false} LowNext(v: int, i: nat)
    ensures Low(v, i + 1) == Low(v, i) + if Bit(v, i) then Pow2(i) else 0
    decreases i
  {
    if i > 0 { LowNext(v / 2, i - 1); }
  }

  /** The low n bits are the value's own. */
  lemma {:induction false} LowBits(v: int, n: nat, j: nat)
    ensures 0 <= Low(v, n) < Pow2(n)
    ensures j < n ==> (Bit(Low(v, n), j) <==> Bit(v, j))
    decreases n
  {
    if n > 0 {
      assert Low(v, n) / 2 == Low(v / 2, n - 1) && Low(v, n) % 2 == v % 2;
      LowBits(v / 2, n - 1, if j > 0 then j - 1 else 0);
    }
  }

  // ----- the handler -----

  /** A handler's state: its value, and whether its list of flags is still a list. */
  datatype Handler = Handler(value: int, keysKept: bool)

  /** What `setattr` comes to; AttributeError is `NotAFlag`, TypeError `Failed`. */
  datatype Answer = Kept(h: Handler) | NotAFlag | Failed

  /** `__setattr__`: an underscored name goes to the object itself, where `_value` and `_keys` are the
      handler's own fields; any other name must be a flag. */
  function Assign(flags: seq<string>, h: Handler, k: string, on: bool): Answer {
    if k == "_value" then Kept(h.(value := if on then 1 else 0))
    else if k == "_keys" then Kept(h.(keysKept := false))
    else if k in GUARDED then Failed
    else if k == READ_ONLY then NotAFlag
    else if Underscored(k) then Kept(h)
    else if !h.keysKept then Failed
    else if k !in flags then NotAFlag
    else Kept(h.(value := if on then WithBit(h.value, Index(flags, k)) else WithoutBit(h.value, Index(flags, k))))
  }

  class BitHandler {
    var value: int
    var keys: seq<string>
    var keysKept: bool

    constructor (v: int, ks: seq<string>)
      ensures value == v && keys == ks && keysKept
    {
      value := v;
      keys := ks;
      keysKept := true;
    }

    function State(): Handler
      reads this
    {
      Handler(value, keysKept)
    }

    function GetBit(i: nat): bool
      reads this
    {
      Bit(value, i)
    }

    method SetBit(i: nat, on: bool) returns (bit: bool)
      modifies this`value
      ensures forall j: nat :: Bit(value, j) <==> if j == i then on else Bit(old(value), j)
      ensures value == if on then WithBit(old(value), i) else WithoutBit(old(value), i)
      ensures bit == on
    {
      forall j: nat
        ensures Bit(WithBit(value, i), j) <==> j == i || Bit(value, j)
        ensures Bit(WithoutBit(value, i), j) <==> j != i && Bit(value, j)
      {
        WithBitSets(value, i, j);
        WithoutBitClears(value, i, j);
      }
      value := if on then WithBit(value, i) else WithoutBit(value, i);
      bit := GetBit(i);
    }

    /** `__setattr__`, branch by branch. */
    method SetAttr(k: string, on: bool) returns (answer: Answer)
      modifies this`value, this`keysKept
      ensures answer == Assign(keys, old(State()), k, on)
      ensures State() == if answer.Kept? then answer.h else old(State())
    {
      if Underscored(k) {
        if k == "_value" {
          value := if on then 1 else 0;
        } else if k == "_keys" {
          keysKept := false;
        } else if k in GUARDED {
          return Failed;
        } else if k == READ_ONLY {
          return NotAFlag;
        }
        return Kept(State());
      }
      if !keysKept { return Failed; }
      if k !in keys { return NotAFlag; }
      var _ := SetBit(Index(keys, k), on);
      answer := Kept(State());
    }

    /** `list(handler)`: getattr on each key, which finds no flag under an underscored name or one of
        the class's own attributes, or over a list that was overwritten; None is the exception. */
    method Items() returns (items: Option<seq<(string, bool)>>)
      ensures items.Some? <==> keysKept && forall k :: k in keys ==> (k == "" || k[0] != '_') && k !in ATTRIBUTES
      ensures items.Some? ==> |items.value| == |keys|
      ensures items.Some? && Distinct(keys) ==> forall i :: 0 <= i < |keys| ==> items.value[i] == (keys[i], Bit(value, i))
    {
      if !keysKept { return None; }
      var found := [];
      var i := 0;
      while i < |keys|
        invariant 0 <= i <= |keys| && |found| == i
        invariant forall j :: 0 <= j < i ==> Plain(keys[j])
        invariant forall j :: 0 <= j < i ==> found[j] == (keys[j], Bit(value, Index(keys, keys[j])))
      {
        if !Plain(keys[i]) { return None; }
        found := found + [(keys[i], GetBit(Index(keys, keys[i])))];
        i := i + 1;
      }
      if Distinct(keys) {
        forall j | 0 <= j < |keys| ensures Index(keys, keys[j]) == j { IndexIs(keys, j); }
      }
      items := Some(found);
    }
  }

  lemma {:induction false} IndexIs(ks: seq<string>, i: nat)
    requires Distinct(ks) && i < |ks|
    ensures Index(ks, ks[i]) == i
  {
    if i > 0 { IndexIs(ks[1..], i - 1); }
  }

  // ----- the three decoders -----

  /** The flags among the first n whose bit is set. */
  function Selected(flags: seq<string>, v: int, n: nat): seq<string>
    requires n <= |flags|
  {
    if n == 0 then [] else Selected(flags, v, n - 1) + if Bit(v, n - 1) then [flags[n - 1]] else []
  }

  /** render, for a handler: `[k for k, v in value if v]`. */
  method DecodeHandler(h: BitHandler) returns (on: Option<seq<string>>)
    requires Distinct(h.keys)
    ensures on == if h.keysKept && forall k :: k in h.keys ==> Plain(k) then Some(Selected(h.keys, h.value, |h.keys|)) else None
  {
    var items := h.Items();
    if items.None? { return None; }
    var found := [];
    var i := 0;
    while i < |h.keys|
      invariant 0 <= i <= |h.keys|
      invariant found == Selected(h.keys, h.value, i)
    {
      if items.value[i].1 { found := found + [items.value[i].0]; }
      i := i + 1;
    }
    on := Some(found);
  }

  /** BitFormField.__init__: `(1 << i) & iv > 0`, for the first 63 choices. */
  method DecodeByShift(flags: seq<string>, v: int) returns (on: seq<string>)
    ensures on == Selected(flags, v, Min(|flags|, MAX_FLAG_COUNT))
  {
    on := [];
    var i := 0;
    while i < Min(|flags|, 63)
      invariant 0 <= i <= Min(|flags|, 63)
      invariant on == Selected(flags, v, i)
    {
      if Bit(v, i) { on := on + [flags[i]]; }
      i := i + 1;
    }
  }

  /** render, for an integer: peel the value off by growing powers of two. */
  method DecodeByDivision(flags: seq<string>, v: int) returns (on: seq<string>)
    ensures on == Selected(flags, v, |flags|)
  {
    on := [];
    var value, div := v, 2;
    var i := 0;
    while i < |flags|
      invariant 0 <= i <= |flags|
      invariant on == Selected(flags, v, i)
      invariant div == Pow2(i + 1) && value == v - Low(v, i)
    {
      Peel(v, i);
      if value % div != 0 {
        on := on + [flags[i]];
        value := value - value % div;
      }
      div := div * 2;
      i := i + 1;
    }
  }

  /** With its lower bits peeled off, a value's remainder is its next bit. */
  lemma Peel(v: int, i: nat)
    ensures (v - Low(v, i)) % Pow2(i + 1) == if Bit(v, i) then Pow2(i) else 0
    ensures Low(v, i + 1) == Low(v, i) + if Bit(v, i) then Pow2(i) else 0
  {
    LowNext(v, i);
    LowIsRemainder(v, i + 1);
    var d := Pow2(i + 1);
    assert v == d * (v / d) + Low(v, i + 1);
    SameRemainder(v - Low(v, i), d, v / d, if Bit(v, i) then Pow2(i) else 0);
  }

  // ----- the encoder -----

  /** The bits of the selected flags. */
  function Mask(flags: seq<string>, on: set<string>): nat {
    if flags == [] then 0 else 2 * Mask(flags[1..], on) + if flags[0] in on then 1 else 0
  }

  function NamesIn(s: seq<string>): set<string> {
    set k | k in s
  }

  /** The selected names that `__setattr__` treats as flags. */
  function Honoured(s: seq<string>): set<string> {
    set k | k in s && !Underscored(k)
  }

  lemma {:induction false} MaskBits(flags: seq<string>, on: set<string>, j: nat)
    ensures 0 <= Mask(flags, on) < Pow2(|flags|)
    ensures j < |flags| ==> (Bit(Mask(flags, on), j) <==> flags[j] in on)
    decreases |flags|
  {
    if flags != [] {
      assert Mask(flags, on) / 2 == Mask(flags[1..], on);
      MaskBits(flags[1..], on, if j > 0 then j - 1 else 0);
    }
  }

  /** A value with a flag's bit for each name and no other is the mask. */
  lemma MaskUnique(flags: seq<string>, on: set<string>, v: int)
    requires 0 <= v < Pow2(|flags|) && forall j: nat :: j < |flags| ==> (Bit(v, j) <==> flags[j] in on)
    ensures v == Mask(flags, on)
  {
    forall j: nat | j < |flags| ensures Bit(Mask(flags, on), j) <==> flags[j] in on {
      MaskBits(flags, on, j);
    }
    MaskBits(flags, on, 0);
    BitsDetermine(v, Mask(flags, on), |flags|);
  }

  /** Setting one more flag of the mask. */
  lemma MaskAdds(flags: seq<string>, on: set<string>, k: string)
    requires Distinct(flags) && k in flags
    ensures WithBit(Mask(flags, on), Index(flags, k)) == Mask(flags, on + {k})
  {
    var i := Index(flags, k);
    MaskBits(flags, on, 0);
    WithBitFits(Mask(flags, on), i, |flags|);
    forall j: nat | j < |flags| ensures Bit(WithBit(Mask(flags, on), i), j) <==> flags[j] in on + {k} {
      MaskBits(flags, on, j);
      WithBitSets(Mask(flags, on), i, j);
    }
    MaskUnique(flags, on + {k}, WithBit(Mask(flags, on), i));
  }

  /** The assignments of `clean`, one after another, to a handler of zero. */
  function Submit(flags: seq<string>, selection: seq<string>): Answer {
    if selection == [] then Kept(Handler(0, true))
    else
      match Submit(flags, selection[..|selection| - 1])
      case Kept(h) => Assign(flags, h, selection[|selection| - 1], true)
      case other => other
  }

  /** BitFormField.clean: the value, a ValidationError, or a TypeError that nobody catches. */
  datatype Cleaned = Value(v: int) | ValidationError | TypeError

  function CleanOf(flags: seq<string>, selection: seq<string>): Cleaned {
    match Submit(flags, selection)
    case Kept(h) => Value(h.value)
    case NotAFlag => ValidationError
    case Failed => TypeError
  }

  method Clean(flags: seq<string>, selection: seq<string>) returns (cleaned: Cleaned)
    ensures cleaned == CleanOf(flags, selection)
  {
    if selection == [] { return Value(0); }
    var result := new BitHandler(0, flags);
    var i := 0;
    while i < |selection|
      invariant 0 <= i <= |selection| && result.keys == flags
      invariant Submit(flags, selection[..i]) == Kept(result.State())
    {
      assert selection[..i + 1][..i] == selection[..i];
      var answer := result.SetAttr(selection[i], true);
      if !answer.Kept? {
        Refused(flags, selection, i + 1);
        return if answer == NotAFlag then ValidationError else TypeError;
      }
      i := i + 1;
    }
    assert selection[..i] == selection;
    cleaned := Value(result.value);
  }

  /** Nothing after a refused name matters. */
  lemma {:induction false} Refused(flags: seq<string>, selection: seq<string>, i: nat)
    requires i <= |selection| && !Submit(flags, selection[..i]).Kept?
    ensures Submit(flags, selection) == Submit(flags, selection[..i])
    decreases |selection|
  {
    if i < |selection| {
      assert selection[..|selection| - 1][..i] == selection[..i];
      Refused(flags, selection[..|selection| - 1], i);
    } else {
      assert selection[..i] == selection;
    }
  }

  lemma {:induction false} NoMask(flags: seq<string>)
    ensures Mask(flags, {}) == 0
  {
    if flags != [] { NoMask(flags[1..]); }
  }

  /** As long as nobody names `_value`, the value is the mask of the honoured names. */
  lemma {:induction false} SubmitMask(flags: seq<string>, s: seq<string>)
    requires Distinct(flags) && "_value" !in s && Submit(flags, s).Kept?
    ensures Submit(flags, s).h.value == Mask(flags, Honoured(s))
  {
    if s == [] {
      NoMask(flags);
      assert Honoured(s) == {};
    } else {
      var init, k := s[..|s| - 1], s[|s| - 1];
      assert s == init + [k];
      SubmitMask(flags, init);
      if Underscored(k) {
        assert Honoured(s) == Honoured(init);
      } else {
        assert Honoured(s) == Honoured(init) + {k};
        MaskAdds(flags, Honoured(init), k);
      }
    }
  }

  // ----- which selections are encoded rightly -----

  /** A name that `clean` never accepts: a guarded attribute, or neither underscored nor a flag. */
  predicate Unwelcome(flags: seq<string>, k: string) {
    k in GUARDED || k == READ_ONLY || (!Underscored(k) && k !in flags)
  }

  /** The submitted names that `clean` encodes rightly in any order and with any repeats. Naming
      `_value` sets the value to one, which is right only if the first flag alone is selected;
      naming `_keys` spoils every flag named after it; and an underscored flag's bit is lost. */
  predicate Encodable(flags: seq<string>, names: set<string>) {
    && (forall k :: k in names ==> !Unwelcome(flags, k))
    && ("_keys" in names ==> forall k :: k in names ==> Underscored(k))
    && if "_value" in names then flags != [] && flags[0] in names && forall k :: k in names && k in flags ==> k == flags[0]
       else forall k :: k in names && k in flags ==> !Underscored(k)
  }

  lemma {:induction false} UnwelcomeRefused(flags: seq<string>, s: seq<string>, k: string)
    requires k in s && Unwelcome(flags, k)
    ensures !Submit(flags, s).Kept?
  {
    if k in s[..|s| - 1] {
      UnwelcomeRefused(flags, s[..|s| - 1], k);
    }
  }

  lemma {:induction false} WithoutKeys(flags: seq<string>, s: seq<string>)
    requires s != [] && s[0] == "_keys" && Submit(flags, s).Kept?
    ensures !Submit(flags, s).h.keysKept && forall k :: k in s ==> Underscored(k)
  {
    if |s| > 1 {
      var init := s[..|s| - 1];
      WithoutKeys(flags, init);
      assert s == init + [s[|s| - 1]];
    } else {
      assert s == ["_keys"] && s[..0] == [];
    }
  }

  lemma {:induction false} SomeOrder(names: set<string>) returns (s: seq<string>)
    ensures NamesIn(s) == names
    decreases |names|
  {
    if k :| k in names {
      var rest := SomeOrder(names - {k});
      s := rest + [k];
      assert NamesIn(s) == NamesIn(rest) + {k};
    } else {
      s := [];
      assert names == {};
    }
  }

  /** All orders of the names agree on the mask. */
  ghost predicate EncodesNames(flags: seq<string>, names: set<string>) {
    forall s :: NamesIn(s) == names ==> CleanOf(flags, s) == Value(Mask(flags, names))
  }

  lemma EncodedNamesAreWelcome(flags: seq<string>, names: set<string>, k: string)
    requires EncodesNames(flags, names) && k in names
    ensures !Unwelcome(flags, k) && ("_keys" in names ==> Underscored(k))
  {
    var s := SomeOrder(names);
    assert k in NamesIn(s);
    if Unwelcome(flags, k) { UnwelcomeRefused(flags, s, k); }
    var t := ["_keys"] + s;
    if "_keys" in names {
      assert NamesIn(t) == names + {"_keys"} == names;
      assert CleanOf(flags, t) == Value(Mask(flags, names));
      WithoutKeys(flags, t);
      assert k in t;
    }
  }

  lemma MaskIsOne(flags: seq<string>, names: set<string>)
    requires Distinct(flags)
    ensures Mask(flags, names) == 1 <==> flags != [] && flags[0] in names && forall k :: k in names && k in flags ==> k == flags[0]
  {
    if flags != [] {
      if Mask(flags, names) == 1 {
        forall k | k in names && k in flags ensures k == flags[0] {
          var j := Index(flags, k);
          MaskBits(flags, names, j);
          OnlyBitZero(j);
        }
      }
      if flags[0] in names && forall k :: k in names && k in flags ==> k == flags[0] {
        forall j: nat | j < |flags| ensures Bit(1, j) <==> flags[j] in names {
          OnlyBitZero(j);
        }
        MaskUnique(flags, names, 1);
      }
    }
  }

  lemma {:induction false} OnlyBitZero(j: nat)
    ensures Bit(1, j) <==> j == 0
    ensures !Bit(0, j)
  {
    if j > 0 { OnlyBitZero(j - 1); }
  }

  lemma EncodedValueIsOne(flags: seq<string>, names: set<string>)
    requires EncodesNames(flags, names) && "_value" in names
    ensures Mask(flags, names) == 1
  {
    var s := SomeOrder(names);
    var t := s + ["_value"];
    assert NamesIn(t) == names + {"_value"} == names;
    assert t[..|s|] == s;
    assert CleanOf(flags, t) == Value(Mask(flags, names));
  }

  lemma EncodedFlagsArePlain(flags: seq<string>, names: set<string>, k: string)
    requires Distinct(flags) && EncodesNames(flags, names) && "_value" !in names && k in names && k in flags
    ensures !Underscored(k)
  {
    var s := SomeOrder(names);
    assert "_value" !in NamesIn(s) && k in NamesIn(s);
    assert CleanOf(flags, s) == Value(Mask(flags, names));
    SubmitMask(flags, s);
    MaskBits(flags, names, Index(flags, k));
    MaskBits(flags, Honoured(s), Index(flags, k));
  }

  lemma {:induction false} PlainKept(flags: seq<string>, s: seq<string>)
    requires forall k :: k in s ==> !Unwelcome(flags, k)
    requires "_keys" in s ==> forall k :: k in s ==> Underscored(k)
    ensures Submit(flags, s).Kept? && ("_keys" !in s ==> Submit(flags, s).h.keysKept)
  {
    if s != [] {
      var init, k := s[..|s| - 1], s[|s| - 1];
      assert s == init + [k];
      PlainKept(flags, init);
      assert !Unwelcome(flags, k);
    }
  }

  /** With only the first flag selected beside `_value`, the value is zero or one throughout. */
  lemma {:induction false} ZeroOrOne(flags: seq<string>, s: seq<string>)
    requires Distinct(flags) && flags != [] && Submit(flags, s).Kept? && forall k :: k in s && k in flags ==> k == flags[0]
    ensures Submit(flags, s).h.value == 0 || Submit(flags, s).h.value == 1
    ensures "_value" in s ==> Submit(flags, s).h.value == 1
  {
    if s != [] {
      var init, k := s[..|s| - 1], s[|s| - 1];
      assert s == init + [k];
      ZeroOrOne(flags, init);
      AssignZeroOrOne(flags, Submit(flags, init).h, k);
    }
  }

  lemma AssignZeroOrOne(flags: seq<string>, h: Handler, k: string)
    requires flags != [] && (k in flags ==> k == flags[0]) && Assign(flags, h, k, true).Kept?
    requires h.value == 0 || h.value == 1
    ensures var v := Assign(flags, h, k, true).h.value; (v == 0 || v == 1) && (h.value == 1 || k == "_value" ==> v == 1)
  {
    if k in flags { assert Index(flags, k) == 0; }
    assert WithBit(0, 0) == 1 && WithBit(1, 0) == 1;
  }

  lemma EncodableIsEncoded(flags: seq<string>, s: seq<string>)
    requires Distinct(flags) && Encodable(flags, NamesIn(s))
    ensures CleanOf(flags, s) == Value(Mask(flags, NamesIn(s)))
  {
    forall k ensures k in s <==> k in NamesIn(s) { }
    PlainKept(flags, s);
    if "_value" in s {
      ZeroOrOne(flags, s);
      MaskIsOne(flags, NamesIn(s));
    } else {
      SubmitMask(flags, s);
      forall j: nat | j < |flags| ensures Bit(Mask(flags, Honoured(s)), j) <==> flags[j] in NamesIn(s) {
        MaskBits(flags, Honoured(s), j);
      }
      MaskBits(flags, Honoured(s), 0);
      MaskUnique(flags, NamesIn(s), Mask(flags, Honoured(s)));
    }
  }

  /** `clean` returns the mask of the submitted names, in every order and with any repeats, if and
      only if the names are encodable. */
  lemma CleanEncodesExactly(flags: seq<string>, names: set<string>)
    requires Distinct(flags)
    ensures EncodesNames(flags, names) <==> Encodable(flags, names)
  {
    if Encodable(flags, names) {
      forall s | NamesIn(s) == names ensures CleanOf(flags, s) == Value(Mask(flags, names)) { EncodableIsEncoded(flags, s); }
    }
    if EncodesNames(flags, names) {
      forall k | k in names ensures !Unwelcome(flags, k) && ("_keys" in names ==> Underscored(k)) {
        EncodedNamesAreWelcome(flags, names, k);
      }
      if "_value" in names {
        EncodedValueIsOne(flags, names);
        MaskIsOne(flags, names);
      } else {
        forall k | k in names && k in flags ensures !Underscored(k) { EncodedFlagsArePlain(flags, names, k); }
      }
    }
  }

  // ----- round trips -----

  lemma {:induction false} SelectedHas(flags: seq<string>, v: int, n: nat, j: nat)
    requires Distinct(flags) && n <= |flags| && j < |flags|
    ensures flags[j] in Selected(flags, v, n) <==> j < n && Bit(v, j)
    ensures forall k :: k in Selected(flags, v, n) ==> k in flags
  {
    if n > 0 { SelectedHas(flags, v, n - 1, j); }
  }

  /** Decoding a value and encoding the result gives the value modulo 2^n, so the value itself if
      it fits. */
  lemma DecodeEncode(flags: seq<string>, v: int)
    requires Distinct(flags)
    ensures Mask(flags, NamesIn(Selected(flags, v, |flags|))) == v % Pow2(|flags|)
  {
    var n := |flags|;
    forall j: nat | j < n ensures Bit(Low(v, n), j) <==> flags[j] in NamesIn(Selected(flags, v, n)) {
      LowBits(v, n, j);
      SelectedHas(flags, v, n, j);
    }
    LowBits(v, n, 0);
    MaskUnique(flags, NamesIn(Selected(flags, v, n)), Low(v, n));
    LowIsRemainder(v, n);
  }

  /** Decoding a value and submitting the decoded names, in any order and with any repeats, returns
      the value modulo 2^n if and only if the decoded names are encodable. */
  lemma DecodeThenCleanExactly(flags: seq<string>, v: int)
    requires Distinct(flags)
    ensures (forall s :: NamesIn(s) == NamesIn(Selected(flags, v, |flags|)) ==> CleanOf(flags, s) == Value(v % Pow2(|flags|)))
            <==> Encodable(flags, NamesIn(Selected(flags, v, |flags|)))
  {
    DecodeEncode(flags, v);
    CleanEncodesExactly(flags, NamesIn(Selected(flags, v, |flags|)));
  }

  /** For flags of which none begins with an underscore that is always so. */
  lemma DecodeThenClean(flags: seq<string>, v: int, s: seq<string>)
    requires Distinct(flags) && (forall k :: k in flags ==> k == "" || k[0] != '_')
    requires NamesIn(s) == NamesIn(Selected(flags, v, |flags|))
    ensures CleanOf(flags, s) == Value(v % Pow2(|flags|))
  {
    var names := NamesIn(s);
    if flags != [] { SelectedHas(flags, v, |flags|, 0); }
    forall k | k in names ensures k in flags && !Underscored(k) {
      assert k in NamesIn(Selected(flags, v, |flags|));
    }
    assert Underscored("_keys") && Underscored("_value") && Underscored("__class__") && Underscored("__dict__") && Underscored(READ_ONLY);
    assert Encodable(flags, names);
    DecodeThenCleanExactly(flags, v);
  }

  /** Encoding a selection and decoding the mask gives the same flags back. */
  lemma EncodeDecode(flags: seq<string>, on: set<string>)
    requires Distinct(flags) && forall k :: k in on ==> k in flags
    ensures NamesIn(Selected(flags, Mask(flags, on), |flags|)) == on
  {
    var n := |flags|;
    forall k ensures k in Selected(flags, Mask(flags, on), n) <==> k in on {
      if k in flags {
        var j := Index(flags, k);
        SelectedHas(flags, Mask(flags, on), n, j);
        MaskBits(flags, on, j);
      } else if n > 0 {
        SelectedHas(flags, Mask(flags, on), n, 0);
      }
    }
  }

  // ----- negative values -----

  /** BitField.to_python for an integer: a negative value keeps only the bits the flags can show. */
  method ToPython(flags: seq<string>, v: int) returns (h: BitHandler)
    ensures fresh(h) && h.keys == flags
    ensures h.value == if v < 0 then v % Pow2(|flags|) else v
  {
    var value := v;
    if v < 0 {
      var repaired := 0;
      var bit := 0;
      while bit < |flags|
        invariant 0 <= bit <= |flags|
        invariant repaired == Low(v, bit)
      {
        LowNext(v, bit);
        repaired := repaired + if Bit(v, bit) then Pow2(bit) else 0;
        bit := bit + 1;
      }
      LowIsRemainder(v, |flags|);
      value := repaired;
    }
    h := new BitHandler(value, flags);
  }

  /** The repair shows the same flags as the value it replaces. */
  lemma {:induction false} RepairShowsTheSame(flags: seq<string>, v: int, n: nat)
    requires n <= |flags|
    ensures Selected(flags, v % Pow2(|flags|), n) == Selected(flags, v, n)
  {
    if n > 0 {
      RepairShowsTheSame(flags, v, n - 1);
      LowBits(v, |flags|, n - 1);
      LowIsRemainder(v, |flags|);
    }
  }
}
