/** UUID version 7 keys as 128-bit integers: the fields of RFC 9562 section 5.7, the bounds that
    stand for a point in time, and the range filter built from them. */
module Uuid7 {
  import opened Names
  import opened Numbers

  const P48: int := 0x1_0000_0000_0000
  const P62: int := 0x4000_0000_0000_0000
  const P64: int := 0x1_0000_0000_0000_0000
  const P76: int := 0x1000_0000_0000_0000_0000
  const P80: int := 0x1_0000_0000_0000_0000_0000
  const P128: int := 0x1_0000_0000_0000_0000_0000_0000_0000_0000

  /** Microseconds since the epoch, over the years 1 to 9999 a datetime can hold. */
  const FIRST_INSTANT: int := -62_135_596_800_000_000
  const LAST_INSTANT: int := 253_402_300_799_999_999
  type Instant = us: int | FIRST_INSTANT <= us <= LAST_INSTANT

  type Uuid = v: int | 0 <= v < P128

  // ----- fields -----

  /** The five fields of section 5.7, most significant first. */
  datatype Fields = Fields(millis: int, version: int, randA: int, variant: int, randB: int)

  function FieldsOf(v: Uuid): Fields {
    Fields(v / P80, v / P76 % 16, v / P64 % 4096, v / P62 % 4, v % P62)
  }

  predicate FitsFields(f: Fields) {
    0 <= f.millis < P48 && 0 <= f.version < 16 && 0 <= f.randA < 4096 && 0 <= f.variant < 4 && 0 <= f.randB < P62
  }

  /** `(ms << 80) | (ver << 76) | (a << 64) | (var << 62) | b`; the fields share no bits. */
  function Packed(f: Fields): int {
    f.millis * P80 + f.version * P76 + f.randA * P64 + f.variant * P62 + f.randB
  }

  /** Packing and reading the fields are inverse on every 128-bit integer. */
  lemma PackedReads(f: Fields)
    requires FitsFields(f)
    ensures 0 <= Packed(f) < P128 && FieldsOf(Packed(f)) == f
  {
    var v := Packed(f);
    var top76 := f.millis * 16 + f.version;
    var top64 := top76 * 4096 + f.randA;
    var top62 := top64 * 4 + f.variant;
    DividesAs(v, P80, f.millis, f.version * P76 + f.randA * P64 + f.variant * P62 + f.randB);
    DividesAs(v, P76, top76, f.randA * P64 + f.variant * P62 + f.randB);
    DividesAs(v, P64, top64, f.variant * P62 + f.randB);
    DividesAs(v, P62, top62, f.randB);
    DividesAs(top76, 16, f.millis, f.version);
    DividesAs(top64, 4096, top76, f.randA);
    DividesAs(top62, 4, top64, f.variant);
  }

  lemma DividesAs(v: int, d: nat, q: int, r: int)
    requires d > 0 && v == d * q + r && 0 <= r < d
    ensures v / d == q && v % d == r
  {
    OneQuotient(d, v / d, v % d, q, r);
  }

  lemma ReadPacks(v: Uuid)
    ensures FitsFields(FieldsOf(v)) && Packed(FieldsOf(v)) == v
  {
    assert v / P62 / 4 == v / P64 && v / P64 / 4096 == v / P76 && v / P76 / 16 == v / P80;
  }

  /** What `UUID.version` reports as 7: the version field under the RFC's variant `10`. */
  predicate IsVersion7(v: Uuid) {
    FieldsOf(v).version == 7 && FieldsOf(v).variant == 2
  }

  function Stamped(ms: int, a: int, b: int): int {
    Packed(Fields(ms, 7, a, 2, b))
  }

  // ----- the helper's functions -----

  /** `int(dt.timestamp() * 1000)`: truncation toward zero. */
  function Millis(us: Instant): int {
    if us >= 0 then us / 1000 else -(-us / 1000)
  }

  /** from_datetime does not clamp; UUID() refuses an integer outside 128 bits. */
  function FromDatetime(us: Instant, a: int, b: int): Option<Uuid> {
    var v := Stamped(Millis(us), a, b);
    if 0 <= v < P128 then Some(v) else None
  }

  /** extract_datetime, in milliseconds: an error for another version, or past the last datetime. */
  function ExtractMillis(v: Uuid): Option<int> {
    if !IsVersion7(v) || v / P80 > LAST_INSTANT / 1000 then None else Some(v / P80)
  }

  function Clamped(ms: int): int {
    if ms < 0 then 0 else if ms > P48 - 1 then P48 - 1 else ms
  }

  /** _uuid7_for_timestamp. */
  function Bound(us: Instant, minRandom: bool): int {
    if minRandom then Stamped(Clamped(Millis(us)), 0, 0) else Stamped(Clamped(Millis(us)), 0xFFF, P62 - 1)
  }

  /** filter_by_time_range: each end applies only if given. */
  predicate InRange(id: Uuid, start: Option<Instant>, end: Option<Instant>) {
    && (start.Some? ==> id >= Bound(start.value, true))
    && (end.Some? ==> id < Bound(end.value, true))
  }

  // ----- laws -----

  /** Extraction succeeds exactly on version 7 under the RFC's variant up to the last millisecond of
      the year 9999, and returns the first 48 bits. */
  lemma ExtractsExactly(v: Uuid)
    ensures ExtractMillis(v).Some? <==> FieldsOf(v).version == 7 && FieldsOf(v).variant == 2 && FieldsOf(v).millis <= 253_402_300_799_999
    ensures ExtractMillis(v).Some? ==> ExtractMillis(v).value == FieldsOf(v).millis
  {
  }

  /** Mathematical floor, whatever the sign. */
  function Floor(us: int): int {
    us / 1000
  }

  /** Keys of an earlier millisecond are below keys of a later one, whatever their random bits. */
  lemma LaterIsGreater(v: Uuid, w: Uuid)
    requires v / P80 < w / P80
    ensures v < w
  {
  }

  /** So keys made at later milliseconds sort later. */
  lemma KeysFollowTime(us: Instant, a: int, b: int, later: Instant, c: int, d: int)
    requires 0 <= a < 4096 && 0 <= b < P62 && 0 <= c < 4096 && 0 <= d < P62
    requires FromDatetime(us, a, b).Some? && FromDatetime(later, c, d).Some? && Millis(us) < Millis(later)
    ensures FromDatetime(us, a, b).value < FromDatetime(later, c, d).value
  {
    GeneratedKeys(us, a, b);
    GeneratedKeys(later, c, d);
    LaterIsGreater(FromDatetime(us, a, b).value, FromDatetime(later, c, d).value);
  }

  /** Generation succeeds exactly from the epoch on (a sub-millisecond before it still truncates
      to zero), the result carries version 7 and the RFC's variant, and extraction returns the
      millisecond it was made in. */
  lemma GeneratedKeys(us: Instant, a: int, b: int)
    requires 0 <= a < 4096 && 0 <= b < P62
    ensures FromDatetime(us, a, b).Some? <==> us > -1000
    ensures us > -1000 ==>
              var v := FromDatetime(us, a, b).value;
              FieldsOf(v) == Fields(Millis(us), 7, a, 2, b) && ExtractMillis(v) == Some(Millis(us))
  {
    if us > -1000 {
      PackedReads(Fields(Millis(us), 7, a, 2, b));
    } else {
      assert Millis(us) <= -1;
    }
  }

  /** A bound's own millisecond is the clamped one, and among the version 7 keys of that
      millisecond the all-zero bound is the least and the all-one bound the greatest. */
  lemma BoundsEncloseMillisecond(us: Instant, v: Uuid)
    ensures 0 <= Bound(us, true) <= Bound(us, false) < P128
    ensures ExtractMillis(Bound(us, true)) == Some(Clamped(Millis(us))) == ExtractMillis(Bound(us, false))
    ensures IsVersion7(v) && v / P80 == Clamped(Millis(us)) ==> Bound(us, true) <= v <= Bound(us, false)
  {
    PackedReads(Fields(Clamped(Millis(us)), 7, 0, 2, 0));
    PackedReads(Fields(Clamped(Millis(us)), 7, 0xFFF, 2, P62 - 1));
    ReadPacks(v);
  }

  /** A version 7 key is at or above a lower bound exactly if its millisecond is. */
  lemma BoundCutsAtMillisecond(us: Instant, v: Uuid)
    requires IsVersion7(v)
    ensures v >= Bound(us, true) <==> v / P80 >= Clamped(Millis(us))
  {
    PackedReads(Fields(Clamped(Millis(us)), 7, 0, 2, 0));
    BoundsEncloseMillisecond(us, v);
    if v / P80 < Clamped(Millis(us)) {
      LaterIsGreater(v, Bound(us, true));
    } else if v / P80 > Clamped(Millis(us)) {
      LaterIsGreater(Bound(us, true), v);
    }
  }

  /** The range filter keeps exactly the keys whose millisecond lies in [floor(start), floor(end)):
      neither truncation toward zero nor the clamp ever shows, since no datetime reaches 2^48. */
  lemma FilterIsExact(id: Uuid, start: Option<Instant>, end: Option<Instant>)
    requires IsVersion7(id)
    ensures InRange(id, start, end) <==>
            (start.Some? ==> id / P80 >= Floor(start.value)) && (end.Some? ==> id / P80 < Floor(end.value))
  {
    if start.Some? {
      BoundCutsAtMillisecond(start.value, id);
      ClampKeepsOrder(start.value, id / P80);
    }
    if end.Some? {
      BoundCutsAtMillisecond(end.value, id);
      ClampKeepsOrder(end.value, id / P80);
    }
  }

  lemma ClampKeepsOrder(us: Instant, ms: int)
    requires ms >= 0
    ensures ms >= Clamped(Millis(us)) <==> ms >= Floor(us)
  {
    assert Floor(us) <= Millis(us) <= Floor(us) + 1;
    assert us >= 0 ==> Millis(us) == Floor(us);
    assert us < 0 ==> Millis(us) <= 0;
  }

  /** The half-open ranges of two adjacent dates meet: every version 7 key below the first's end
      is not in the second and the other way round. */
  lemma AdjacentRangesMeet(a: Instant, b: Instant, c: Instant, id: Uuid)
    requires a <= b <= c
    ensures InRange(id, Some(a), Some(c)) <==> InRange(id, Some(a), Some(b)) || InRange(id, Some(b), Some(c))
    ensures !(InRange(id, Some(a), Some(b)) && InRange(id, Some(b), Some(c)))
  {
    BoundsAscend(a, b);
    BoundsAscend(b, c);
  }

  lemma BoundsAscend(a: Instant, b: Instant)
    requires a <= b
    ensures Bound(a, true) <= Bound(b, true)
  {
    assert Millis(a) <= Millis(b);
  }
}
