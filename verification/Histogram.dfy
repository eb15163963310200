/** The sixteen-bucket summary of an arithmetic column, and how far its estimates can be off. */
module Histograms {
  import opened Sequences
  import opened Values

  const BUCKETS: nat := 16

  datatype Histogram = Histogram(
    buckets: seq<nat>, sampled: nat, minimum: real, maximum: real, available: bool)

  const NO_SAMPLES: seq<nat> := [0, 0, 0, 0, 0, 0, 0, 0, 0, 0, 0, 0, 0, 0, 0, 0]
  const EMPTY: Histogram := Histogram(NO_SAMPLES, 0, 0.0, 0.0, false)

  predicate IsFinite(v: Value) {
    v.Finite?
  }

  function BucketOf(lo: real, hi: real, x: real): nat
    requires lo <= x
  {
    var scaled := if hi <= lo then 0.0 else (x - lo) / (hi - lo);
    var bucket := (scaled * BUCKETS as real).Floor;
    if bucket < 0 then 0 else if bucket < BUCKETS then bucket else BUCKETS - 1
  }

  predicate Falls(lo: real, hi: real, v: Value, bucket: nat) {
    v.Finite? && lo <= v.number <= hi && BucketOf(lo, hi, v.number) == bucket
  }

  function InBucket(lo: real, hi: real, bucket: nat): Value -> bool {
    (v: Value) => Falls(lo, hi, v, bucket)
  }

  /** The least and the greatest finite value of a column that has one. */
  ghost predicate Bounds(lo: real, hi: real, values: seq<Value>) {
    && Finite(lo) in values && Finite(hi) in values
    && forall v :: v in values && v.Finite? ==> lo <= v.number <= hi
  }

  ghost predicate Describes(h: Histogram, values: seq<Value>) {
    && |h.buckets| == BUCKETS
    && h.sampled == Count(values, IsFinite)
    && (h.available <==> h.sampled > 0)
    && (!h.available ==> h == EMPTY)
    && (h.available ==>
      && Bounds(h.minimum, h.maximum, values)
      && forall b :: 0 <= b < BUCKETS ==> h.buckets[b] == Count(values, InBucket(h.minimum, h.maximum, b)))
  }

  /** First pass: the range and the number of finite samples. */
  method Range(values: seq<Value>) returns (sampled: nat, lo: real, hi: real)
    ensures sampled == Count(values, IsFinite)
    ensures sampled > 0 ==> Bounds(lo, hi, values)
    ensures sampled == 0 ==> lo == hi == 0.0 && forall v :: v in values ==> !v.Finite?
  {
    sampled, lo, hi := 0, 0.0, 0.0;
    for i := 0 to |values|
      invariant sampled == Count(values[..i], IsFinite)
      invariant sampled > 0 ==> Bounds(lo, hi, values[..i])
      invariant sampled == 0 ==> lo == hi == 0.0 && forall v :: v in values[..i] ==> !v.Finite?
    {
      assert values[..i + 1] == values[..i] + [values[i]];
      if values[i].Finite? {
        var sample := values[i].number;
        assert values[i] == Finite(sample);
        if sampled == 0 {
          lo, hi := sample, sample;
        } else {
          lo := if sample < lo then sample else lo;
          hi := if hi < sample then sample else hi;
        }
        sampled := sampled + 1;
      }
    }
    assert values[..|values|] == values;
  }

  method Build(values: seq<Value>) returns (h: Histogram)
    ensures Describes(h, values)
  {
    var sampled, lo, hi := Range(values);
    if sampled == 0 {
      return EMPTY;
    }
    var buckets := NO_SAMPLES;
    for i := 0 to |values|
      invariant |buckets| == BUCKETS
      invariant forall b :: 0 <= b < BUCKETS ==> buckets[b] == Count(values[..i], InBucket(lo, hi, b))
    {
      assert values[..i + 1] == values[..i] + [values[i]];
      assert values[i] in values;
      if values[i].Finite? {
        var bucket := BucketOf(lo, hi, values[i].number);
        buckets := buckets[bucket := buckets[bucket] + 1];
      }
    }
    assert values[..|values|] == values;
    h := Histogram(buckets, sampled, lo, hi, true);
  }

  /** `static_cast` to the column's type: an integral column truncates toward zero. */
  function Cast(kind: Kind, x: real): real {
    if kind != Integral then x else if x >= 0.0 then x.Floor as real else -((-x).Floor as real)
  }

  function Midpoint(lo: real, hi: real, bucket: nat): real {
    lo + (bucket as real + 0.5) * ((hi - lo) / BUCKETS as real)
  }

  /** Whether bucket `bucket` is counted: its truncated midpoint satisfies the predicate. */
  predicate Counted(h: Histogram, kind: Kind, op: Operator, value: Value, bucket: nat) {
    Compare(op, Finite(Cast(kind, Midpoint(h.minimum, h.maximum, bucket))), value)
  }

  function Marks(h: Histogram, kind: Kind, op: Operator, value: Value): seq<bool> {
    seq(|h.buckets|, b requires 0 <= b < |h.buckets| => Counted(h, kind, op, value, b))
  }

  /** The samples in the marked buckets among the first `n`. */
  function CountedBelow(buckets: seq<nat>, marks: seq<bool>, n: nat): nat
    requires n <= |buckets| == |marks|
  {
    if n == 0 then 0 else CountedBelow(buckets, marks, n - 1) + if marks[n - 1] then buckets[n - 1] else 0
  }

  function Estimate(h: Histogram, size: nat, kind: Kind, op: Operator, value: Value): (estimate: int)
    requires |h.buckets| == BUCKETS
  {
    if !(kind.Integral? || kind.Floating?) || !h.available then size
    else if h.minimum == h.maximum then
      if Compare(op, Finite(Cast(kind, h.minimum)), value) then h.sampled else 0
    else CountedBelow(h.buckets, Marks(h, kind, op, value), BUCKETS) + size - h.sampled
  }

  /** The estimate as the store computes it, bucket by bucket. */
  method ComputeEstimate(h: Histogram, size: nat, kind: Kind, op: Operator, value: Value)
    returns (estimate: int)
    requires |h.buckets| == BUCKETS && h.sampled <= size
    ensures estimate == Estimate(h, size, kind, op, value) && estimate >= 0
  {
    if !(kind.Integral? || kind.Floating?) || !h.available {
      return size;
    }
    if h.minimum == h.maximum {
      return if Compare(op, Finite(Cast(kind, h.minimum)), value) then h.sampled else 0;
    }
    hide Compare, Midpoint;
    ghost var marks := Marks(h, kind, op, value);
    estimate := 0;
    for bucket := 0 to BUCKETS
      invariant estimate == CountedBelow(h.buckets, marks, bucket)
    {
      assert marks[bucket] == Counted(h, kind, op, value, bucket);
      if Counted(h, kind, op, value, bucket) {
        estimate := estimate + h.buckets[bucket];
      }
    }
    estimate := estimate + (size - h.sampled);
  }

  // ---- How good the estimate is ----

  function Matches(op: Operator, value: Value): Value -> bool {
    (v: Value) => v.Finite? && Compare(op, v, value)
  }

  /** The finite values that satisfy the predicate: what the estimate is meant to count. */
  function TrueMatches(values: seq<Value>, op: Operator, value: Value): nat {
    Count(values, Matches(op, value))
  }

  function MatchesBelow(lo: real, hi: real, op: Operator, value: Value, n: nat): Value -> bool {
    (v: Value) => v.Finite? && lo <= v.number <= hi && BucketOf(lo, hi, v.number) < n && Compare(op, v, value)
  }

  function MatchesIn(lo: real, hi: real, op: Operator, value: Value, n: nat): Value -> bool {
    (v: Value) => Falls(lo, hi, v, n) && Compare(op, v, value)
  }

  lemma DivideMonotone(x: real, y: real, d: real)
    requires d > 0.0 && x <= y
    ensures x / d <= y / d
  {
    assert (x / d) * d == x && (y / d) * d == y;
  }

  lemma BucketMonotone(lo: real, hi: real, x: real, y: real)
    requires lo <= x <= y
    ensures BucketOf(lo, hi, x) <= BucketOf(lo, hi, y) < BUCKETS
  {
    if lo < hi {
      DivideMonotone(x - lo, y - lo, hi - lo);
    }
  }

  /** Away from the threshold's own bucket, a bucket lies wholly on one side of the threshold. */
  lemma SameSide(lo: real, hi: real, x: real, y: real, t: real, op: Operator)
    requires lo <= x && lo <= y && lo <= t
    requires BucketOf(lo, hi, x) == BucketOf(lo, hi, y) != BucketOf(lo, hi, t)
    ensures Compare(op, Finite(x), Finite(t)) == Compare(op, Finite(y), Finite(t))
  {
    if x <= t { BucketMonotone(lo, hi, x, t); } else { BucketMonotone(lo, hi, t, x); }
    if y <= t { BucketMonotone(lo, hi, y, t); } else { BucketMonotone(lo, hi, t, y); }
  }

  lemma MidpointInBucket(lo: real, hi: real, bucket: nat)
    requires lo < hi && bucket < BUCKETS
    ensures lo < Midpoint(lo, hi, bucket) < hi
    ensures BucketOf(lo, hi, Midpoint(lo, hi, bucket)) == bucket
  {
    var d, c := hi - lo, bucket as real + 0.5;
    var offset := FractionOf(c / 16.0, d);
    assert c * (d / 16.0) == offset;
    assert Midpoint(lo, hi, bucket) == lo + offset;
  }

  lemma PositiveProduct(x: real, y: real) returns (product: real)
    requires x > 0.0 && y > 0.0
    ensures product == x * y && product > 0.0
  {
    product := x * y;
  }

  lemma FractionOf(r: real, d: real) returns (part: real)
    requires d > 0.0 && 0.0 < r < 1.0
    ensures part == r * d && 0.0 < part < d && part / d == r
  {
    part := r * d;
    var rest := PositiveProduct(1.0 - r, d);
    assert rest == d - part;
  }

  /** The midpoint a bucket is judged by, once cast to the column's type, still falls into that bucket. */
  predicate Representative(lo: real, hi: real, kind: Kind, bucket: nat) {
    var c := Cast(kind, Midpoint(lo, hi, bucket));
    lo <= c && BucketOf(lo, hi, c) == bucket
  }

  /** Every bucket with samples is judged by a value of its own. */
  ghost predicate Faithful(h: Histogram, kind: Kind) {
    forall b :: 0 <= b < |h.buckets| && h.buckets[b] > 0 ==> Representative(h.minimum, h.maximum, kind, b)
  }

  lemma FloatingFaithful(h: Histogram)
    requires |h.buckets| == BUCKETS && h.minimum < h.maximum
    ensures Faithful(h, Floating)
  {
    forall b | 0 <= b < BUCKETS { MidpointInBucket(h.minimum, h.maximum, b); }
  }

  lemma BucketAgrees(h: Histogram, values: seq<Value>, kind: Kind, op: Operator, t: real, b: nat)
    requires Describes(h, values) && h.available && h.minimum <= t && b < BUCKETS && Faithful(h, kind)
    requires BucketOf(h.minimum, h.maximum, t) != b
    ensures Count(values, MatchesIn(h.minimum, h.maximum, op, Finite(t), b))
         == if Counted(h, kind, op, Finite(t), b) then h.buckets[b] else 0
  {
    var lo, hi := h.minimum, h.maximum;
    var p, q := MatchesIn(lo, hi, op, Finite(t), b), InBucket(lo, hi, b);
    CountMonotone(values, p, q);
    if h.buckets[b] > 0 {
      var c := Cast(kind, Midpoint(h.minimum, h.maximum, b));
      assert Representative(lo, hi, kind, b);
      forall v | v in values && q(v) ensures Compare(op, v, Finite(t)) == Counted(h, kind, op, Finite(t), b) {
        SameSide(lo, hi, v.number, c, t, op);
      }
      if Counted(h, kind, op, Finite(t), b) {
        CountMonotone(values, q, p);
      } else {
        CountNone(values, p);
      }
    }
  }

  lemma MatchesStep(values: seq<Value>, lo: real, hi: real, op: Operator, value: Value, b: nat)
    ensures Count(values, MatchesBelow(lo, hi, op, value, b + 1))
         == Count(values, MatchesBelow(lo, hi, op, value, b)) + Count(values, MatchesIn(lo, hi, op, value, b))
    ensures Count(values, MatchesIn(lo, hi, op, value, b)) <= Count(values, InBucket(lo, hi, b))
  {
    CountSplit(values, MatchesBelow(lo, hi, op, value, b + 1), MatchesBelow(lo, hi, op, value, b),
               MatchesIn(lo, hi, op, value, b));
    CountMonotone(values, MatchesIn(lo, hi, op, value, b), InBucket(lo, hi, b));
  }

  lemma {:induction false} ErrorBelow(
    h: Histogram, values: seq<Value>, kind: Kind, op: Operator, t: real, own: nat, n: nat)
    requires Describes(h, values) && h.available && h.minimum <= t && Faithful(h, kind)
    requires own == BucketOf(h.minimum, h.maximum, t) && n <= |h.buckets|
    ensures
      var truth := Count(values, MatchesBelow(h.minimum, h.maximum, op, Finite(t), n));
      var error := CountedBelow(h.buckets, Marks(h, kind, op, Finite(t)), n) - truth;
      if n <= own then error == 0 else -h.buckets[own] <= error <= h.buckets[own]
  {
    var lo, hi, value, marks := h.minimum, h.maximum, Finite(t), Marks(h, kind, op, Finite(t));
    if n == 0 {
      CountNone(values, MatchesBelow(lo, hi, op, value, 0));
    } else {
      ErrorBelow(h, values, kind, op, t, own, n - 1);
      MatchesStep(values, lo, hi, op, value, n - 1);
      assert marks[n - 1] == Counted(h, kind, op, value, n - 1);
      if own != n - 1 {
        BucketAgrees(h, values, kind, op, t, n - 1);
      }
    }
  }

  lemma AllBelowSixteen(h: Histogram, values: seq<Value>, op: Operator, value: Value)
    requires Describes(h, values) && h.available
    ensures TrueMatches(values, op, value)
         == Count(values, MatchesBelow(h.minimum, h.maximum, op, value, |h.buckets|))
  {
    hide Compare, BucketOf;
    var p, q := Matches(op, value), MatchesBelow(h.minimum, h.maximum, op, value, |h.buckets|);
    forall v | v in values && p(v)
      ensures q(v)
    {
      BucketMonotone(h.minimum, h.maximum, v.number, v.number);
    }
    CountMonotone(values, p, q);
    CountMonotone(values, q, p);
  }

  /** How far the estimate is from the finite matches plus the values the histogram skipped. */
  function Error(h: Histogram, values: seq<Value>, kind: Kind, op: Operator, value: Value): int
    requires |h.buckets| == BUCKETS
  {
    Estimate(h, |values|, kind, op, value) - (TrueMatches(values, op, value) + |values| - h.sampled)
  }

  /** The error is at most the population of the bucket the threshold falls into. */
  predicate WithinOwnBucket(h: Histogram, values: seq<Value>, kind: Kind, op: Operator, t: real)
    requires |h.buckets| == BUCKETS && h.minimum <= t
  {
    var own := BucketOf(h.minimum, h.maximum, t);
    own < BUCKETS && -h.buckets[own] <= Error(h, values, kind, op, Finite(t)) <= h.buckets[own]
  }

  lemma FaithfulErrorBound(h: Histogram, values: seq<Value>, kind: Kind, op: Operator, t: real)
    requires Describes(h, values) && h.available && h.minimum < h.maximum && h.minimum <= t
    requires (kind.Integral? || kind.Floating?) && Faithful(h, kind)
    ensures WithinOwnBucket(h, values, kind, op, t)
  {
    BucketMonotone(h.minimum, h.maximum, t, t);
    ErrorBelow(h, values, kind, op, t, BucketOf(h.minimum, h.maximum, t), |h.buckets|);
    AllBelowSixteen(h, values, op, Finite(t));
  }

  /** Floating-point columns: the bound holds for every column, threshold and operator. */
  lemma FloatingErrorBound(h: Histogram, values: seq<Value>, op: Operator, t: real)
    requires Describes(h, values) && h.available && h.minimum < h.maximum && h.minimum <= t <= h.maximum
    ensures WithinOwnBucket(h, values, Floating, op, t)
    ensures (forall v :: v in values ==> v.Finite?) ==>
      Error(h, values, Floating, op, Finite(t))
      == Estimate(h, |values|, Floating, op, Finite(t)) - TrueMatches(values, op, Finite(t))
  {
    FloatingFaithful(h);
    FaithfulErrorBound(h, values, Floating, op, t);
    if forall v :: v in values ==> v.Finite? {
      CountAll(values, IsFinite);
    }
  }

  // ---- Where the estimate is exact ----

  lemma {:induction false} UniformBelow(
    h: Histogram, values: seq<Value>, op: Operator, value: Value, marks: seq<bool>, holds: bool, n: nat)
    requires Describes(h, values) && h.available && |marks| == BUCKETS && n <= |h.buckets|
    requires forall b :: 0 <= b < BUCKETS ==> marks[b] == holds
    requires forall v :: v in values && v.Finite? ==> Compare(op, v, value) == holds
    ensures CountedBelow(h.buckets, marks, n)
         == Count(values, MatchesBelow(h.minimum, h.maximum, op, value, n))
  {
    var lo, hi := h.minimum, h.maximum;
    if n == 0 {
      CountNone(values, MatchesBelow(lo, hi, op, value, 0));
    } else {
      UniformBelow(h, values, op, value, marks, holds, n - 1);
      MatchesStep(values, lo, hi, op, value, n - 1);
      if holds {
        CountMonotone(values, InBucket(lo, hi, n - 1), MatchesIn(lo, hi, op, value, n - 1));
      } else {
        CountNone(values, MatchesIn(lo, hi, op, value, n - 1));
      }
    }
  }

  /** The buckets add up to the number of samples. */
  lemma BucketsSum(h: Histogram, values: seq<Value>)
    requires Describes(h, values) && h.available
    ensures CountedBelow(h.buckets, seq(BUCKETS, b => true), |h.buckets|) == h.sampled
  {
    UniformBelow(h, values, LessThan, PosInf, seq(BUCKETS, b => true), true, |h.buckets|);
    AllBelowSixteen(h, values, LessThan, PosInf);
    CountMonotone(values, IsFinite, Matches(LessThan, PosInf));
    CountMonotone(values, Matches(LessThan, PosInf), IsFinite);
  }

  /** The cast drops the fraction: the nearest integer toward zero. A floating-point column keeps the number. */
  lemma CastTruncates(x: real)
    ensures var c := Cast(Integral, x);
      && c == c.Floor as real
      && (x >= 0.0 ==> 0.0 <= c <= x < c + 1.0)
      && (x <= 0.0 ==> c - 1.0 < x <= c <= 0.0)
    ensures Cast(Floating, x) == x
  {
    var down, up := x.Floor, -((-x).Floor);
    assert (down as real).Floor == down && (up as real).Floor == up;
    assert Cast(Integral, x) == if x >= 0.0 then down as real else up as real;
  }

  /** Midpoints lie evenly, and symmetrically in the range. */
  lemma MidpointsEven(lo: real, hi: real, bucket: nat)
    requires bucket < BUCKETS
    ensures Midpoint(lo, hi, bucket) + Midpoint(lo, hi, BUCKETS - 1 - bucket) == lo + hi
    ensures Midpoint(lo, hi, bucket + 1) - Midpoint(lo, hi, bucket) == (hi - lo) / 16.0
  {
    var w, b := (hi - lo) / 16.0, bucket as real;
    assert Midpoint(lo, hi, bucket) == lo + (b + 0.5) * w;
    assert Midpoint(lo, hi, BUCKETS - 1 - bucket) == lo + (15.0 - b + 0.5) * w;
    assert (b + 0.5) * w + (15.0 - b + 0.5) * w == 16.0 * w;
    assert Midpoint(lo, hi, bucket + 1) == lo + (b + 1.0 + 0.5) * w;
    assert (b + 1.0 + 0.5) * w == (b + 0.5) * w + w;
  }

  lemma CastWithin(kind: Kind, lo: real, hi: real, x: real)
    requires lo <= x <= hi && Finite(lo).HasKind(kind) && Finite(hi).HasKind(kind)
    ensures lo <= Cast(kind, x) <= hi
    ensures lo == hi ==> Cast(kind, x) == lo
  {
    if kind.Integral? {
      TruncateWithin(lo.Floor, hi.Floor, x);
    }
  }

  lemma TruncateWithin(lo: int, hi: int, x: real)
    requires lo as real <= x <= hi as real
    ensures lo as real <= Cast(Integral, x) <= hi as real
  {
    if x >= 0.0 {
      var f := x.Floor;
      assert lo < f + 1;
    } else {
      var g := (-x).Floor;
      assert -hi < g + 1;
    }
  }

  /** The threshold lies outside the sampled range. */
  predicate Outside(h: Histogram, value: Value) {
    match value.Promoted()
    case Finite(t) => t < h.minimum || h.maximum < t
    case _ => value.IsNumber()
  }

  lemma OutsideAgrees(h: Histogram, op: Operator, value: Value, x: real)
    requires Outside(h, value) && h.minimum <= x <= h.maximum
    ensures Compare(op, Finite(x), value) == Compare(op, Finite(h.minimum), value)
  {
  }

  /** A threshold outside the sampled range is estimated exactly, for both arithmetic kinds. */
  lemma ExactOutside(h: Histogram, values: seq<Value>, kind: Kind, op: Operator, value: Value)
    requires Describes(h, values) && h.available && h.minimum < h.maximum && Outside(h, value)
    requires (kind.Integral? || kind.Floating?) && forall v :: v in values ==> v.HasKind(kind)
    ensures Error(h, values, kind, op, value) == 0
  {
    hide Compare, Outside, BucketOf;
    var lo, hi := h.minimum, h.maximum;
    var holds := Compare(op, Finite(lo), value);
    forall x | lo <= x <= hi
      ensures Compare(op, Finite(x), value) == holds
    {
      OutsideAgrees(h, op, value, x);
    }
    var marks := Marks(h, kind, op, value);
    forall b | 0 <= b < BUCKETS ensures marks[b] == holds {
      MidpointInBucket(lo, hi, b);
      CastWithin(kind, lo, hi, Midpoint(lo, hi, b));
    }
    UniformBelow(h, values, op, value, marks, holds, |h.buckets|);
    AllBelowSixteen(h, values, op, value);
  }

  /** A column whose finite values are all equal is estimated exactly, for every operator and value. */
  lemma ExactWhenConstant(h: Histogram, values: seq<Value>, kind: Kind, op: Operator, value: Value)
    requires Describes(h, values) && h.available && h.minimum == h.maximum
    requires (kind.Integral? || kind.Floating?) && forall v :: v in values ==> v.HasKind(kind)
    ensures Estimate(h, |values|, kind, op, value) == TrueMatches(values, op, value)
  {
    hide Less, Same;
    CastWithin(kind, h.minimum, h.maximum, h.minimum);
    if Compare(op, Finite(h.minimum), value) {
      CountMonotone(values, IsFinite, Matches(op, value));
      CountMonotone(values, Matches(op, value), IsFinite);
    } else {
      CountNone(values, Matches(op, value));
    }
  }

  // ---- Integral columns, whose midpoints are truncated ----

  /** Each integer of the range shares its bucket with that bucket's truncated midpoint. */
  ghost predicate TruncationSafe(lo: int, hi: int) {
    forall x: int :: lo <= x <= hi ==> SafeAt(lo, hi, x)
  }

  predicate SafeAt(lo: int, hi: int, x: int)
    requires lo <= x
  {
    Representative(lo as real, hi as real, Integral, BucketOf(lo as real, hi as real, x as real))
  }

  /** On a safe range the bound holds for every integral column with that range. */
  lemma SafeTruncationBound(h: Histogram, values: seq<Value>, op: Operator, t: real, lo: int, hi: int)
    requires Describes(h, values) && h.available && h.minimum == lo as real && h.maximum == hi as real && lo < hi
    requires forall v :: v in values ==> v.HasKind(Integral)
    requires TruncationSafe(lo, hi) && h.minimum <= t <= h.maximum
    ensures WithinOwnBucket(h, values, Integral, op, t)
  {
    forall b | 0 <= b < BUCKETS && h.buckets[b] > 0 ensures Representative(h.minimum, h.maximum, Integral, b) {
      CountNone(values, InBucket(h.minimum, h.maximum, b));
      var v :| v in values && InBucket(h.minimum, h.maximum, b)(v);
      assert SafeAt(lo, hi, v.number.Floor);
    }
    FaithfulErrorBound(h, values, Integral, op, t);
  }

  lemma {:induction false} UnmarkedMissing(buckets: seq<nat>, marks: seq<bool>, all: seq<bool>, b: nat, n: nat)
    requires n <= |buckets| == |marks| == |all| && b < |marks| && !marks[b]
    requires forall i :: 0 <= i < |all| ==> all[i]
    ensures CountedBelow(buckets, marks, n) + (if b < n then buckets[b] else 0) <= CountedBelow(buckets, all, n)
  {
    if n == 0 {
    } else {
      UnmarkedMissing(buckets, marks, all, b, n - 1);
    }
  }

  /** On every other range some integral column, threshold and operator break the bound. */
  lemma UnsafeTruncationFails(lo: int, hi: int)
    returns (h: Histogram, values: seq<Value>, op: Operator, t: real)
    requires lo < hi && !TruncationSafe(lo, hi)
    ensures Describes(h, values) && h.available && h.minimum == lo as real && h.maximum == hi as real
    ensures forall v :: v in values ==> v.HasKind(Integral)
    ensures h.minimum <= t <= h.maximum && op in {Greater, LessThan} && !WithinOwnBucket(h, values, Integral, op, t)
  {
    var l, u := lo as real, hi as real;
    var x: int :| lo <= x <= hi && !SafeAt(lo, hi, x);
    var b := BucketOf(l, u, x as real);
    BucketMonotone(l, u, x as real, x as real);
    MidpointInBucket(l, u, b);
    t := Cast(Integral, Midpoint(l, u, b));
    CastWithin(Integral, l, u, Midpoint(l, u, b));
    op := if t < x as real then Greater else LessThan;
    var ends, xs := [Finite(l), Finite(u)], seq(5, i => Finite(x as real));
    values := ends + xs;
    assert values[0] == Finite(l) && values[1] == Finite(u);
    CountAll(values, IsFinite);
    h := Summary(values, l, u);
    CrowdedBucket(h, ends, xs, op, x as real, t);
  }

  /** Five copies of a value whose bucket is judged the wrong way outweigh the threshold's bucket. */
  lemma CrowdedBucket(h: Histogram, ends: seq<Value>, xs: seq<Value>, op: Operator, x: real, t: real)
    requires Describes(h, ends + xs) && h.available && h.minimum < h.maximum && h.sampled == 7
    requires |ends| == 2 && xs == seq(5, i => Finite(x))
    requires h.minimum <= x <= h.maximum && h.minimum <= t
    requires t == Cast(Integral, Midpoint(h.minimum, h.maximum, BucketOf(h.minimum, h.maximum, x)))
    requires BucketOf(h.minimum, h.maximum, x) != BucketOf(h.minimum, h.maximum, t)
    requires op == if t < x then Greater else LessThan
    ensures !WithinOwnBucket(h, ends + xs, Integral, op, t)
  {
    var l, u, b, own := h.minimum, h.maximum, BucketOf(h.minimum, h.maximum, x), BucketOf(h.minimum, h.maximum, t);
    BucketMonotone(l, u, x, x);
    BucketMonotone(l, u, t, t);
    TwoAndFive(ends, xs, InBucket(l, u, b));
    TwoAndFive(ends, xs, InBucket(l, u, own));
    TwoAndFive(ends, xs, Matches(op, Finite(t)));
    BucketsSum(h, ends + xs);
    UnmarkedMissing(h.buckets, Marks(h, Integral, op, Finite(t)), seq(BUCKETS, i => true), b, |h.buckets|);
  }

  lemma Summary(values: seq<Value>, lo: real, hi: real) returns (h: Histogram)
    requires Bounds(lo, hi, values)
    ensures Describes(h, values) && h.available && h.minimum == lo && h.maximum == hi
  {
    CountNone(values, IsFinite);
    h := Histogram(seq(BUCKETS, i requires 0 <= i => Count(values, InBucket(lo, hi, i))),
                   Count(values, IsFinite), lo, hi, true);
  }

  lemma TwoAndFive(ends: seq<Value>, xs: seq<Value>, p: Value -> bool)
    requires |ends| == 2 && |xs| == 5 && forall i :: 0 <= i < 5 ==> xs[i] == xs[0]
    ensures if p(xs[0]) then Count(ends + xs, p) >= 5 else Count(ends + xs, p) <= 2
  {
    CountAppend(ends, xs, p);
    CountMonotone(ends, p, p);
    if p(xs[0]) { CountAll(xs, p); } else { CountNone(xs, p); }
  }

  /** Ranges of at least two integers per bucket are safe. */
  lemma WideRangeSafe(lo: int, hi: int)
    requires hi - lo >= 32
    ensures TruncationSafe(lo, hi)
  {
    var l, u := lo as real, hi as real;
    forall x: int | lo <= x <= hi ensures SafeAt(lo, hi, x) {
      var b := BucketOf(l, u, x as real);
      BucketMonotone(l, u, x as real, x as real);
      var m := Midpoint(l, u, b);
      MidpointInBucket(l, u, b);
      CastWithin(Integral, l, u, m);
      WithinHalfWidth(l, u, b, Cast(Integral, m));
    }
  }

  lemma WithinHalfWidth(lo: real, hi: real, bucket: nat, x: real)
    requires hi - lo >= 32.0 && bucket < BUCKETS && lo <= x <= hi
    requires Midpoint(lo, hi, bucket) - 1.0 < x < Midpoint(lo, hi, bucket) + 1.0
    ensures BucketOf(lo, hi, x) == bucket
  {
    var d, c := hi - lo, bucket as real + 0.5;
    var q := (x - lo) / d;
    assert q * d == x - lo;
    var offset := c * (d / 16.0);
    assert Midpoint(lo, hi, bucket) == lo + offset;
    assert 16.0 * offset == c * d;
    var gap := 16.0 * q - c;
    assert gap * d == 16.0 * (q * d) - c * d;
    assert gap * d == 16.0 * (x - lo - offset);
    assert -16.0 < gap * d < 16.0;
    assert -0.5 < gap < 0.5;
  }

  /** The smallest such case: on the integers 0 and 1 every midpoint truncates to 0. */
  lemma TruncationCounterexample()
    ensures !TruncationSafe(0, 1)
    ensures forall b :: 0 <= b < BUCKETS ==> Cast(Integral, Midpoint(0.0, 1.0, b)) == 0.0
  {
    assert BucketOf(0.0, 1.0, 1 as real) == 15;
    assert !SafeAt(0, 1, 1);
  }
}
