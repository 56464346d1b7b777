/** `ImageDetails`: what the duplicate detector keeps about one stored image, and the
    near-duplicate test `Equals(other, percentageForSimilarity)`.

    The aspect ratios are single-precision quotients in the source. They are modelled
    with exact reals, extended by the two infinities and NaN that a zero height
    produces, so that no precondition has to exclude such images. */
module ImageComparers {
  import opened Wrappers

  /** A floating-point value seen through exact arithmetic. */
  datatype Float = Num(r: real) | PosInf | NegInf | NaN

  /** `a / (float)b`. */
  function Divide(a: int, b: int): Float {
    if b != 0 then Num(a as real / b as real)
    else if a > 0 then PosInf
    else if a < 0 then NegInf
    else NaN
  }

  /** `x * k` for a finite factor `k`. */
  function Scale(x: Float, k: real): Float {
    match x
    case Num(r) => Num(r * k)
    case PosInf => if k > 0.0 then PosInf else if k < 0.0 then NegInf else NaN
    case NegInf => if k > 0.0 then NegInf else if k < 0.0 then PosInf else NaN
    case NaN => NaN
  }

  /** `a > b`; every comparison with NaN is false. */
  predicate Greater(a: Float, b: Float) {
    match (a, b)
    case (NaN, _) => false
    case (_, NaN) => false
    case (Num(x), Num(y)) => x > y
    case (PosInf, PosInf) => false
    case (PosInf, _) => true
    case (NegInf, _) => false
    case (Num(_), NegInf) => true
    case (Num(_), PosInf) => false
  }

  /** Information about one stored image; `hash` is the thumbnail's light/dark bits. */
  datatype ImageDetails = ImageDetails(uri: string, file: string, width: int, height: int, hash: seq<bool>)

  /** The smallest `s` with `s * s >= n`, searching upwards from `s`. */
  function CeilSqrtFrom(n: nat, s: nat): (r: nat)
    requires s == 0 || (s - 1) * (s - 1) < n
    ensures r * r >= n
    ensures r == 0 || (r - 1) * (r - 1) < n
    decreases n - s
  {
    if s * s >= n then s
    else
      assert s < n by {
        if s > 0 {
          assert s * s >= s * 1;
        }
      }
      CeilSqrtFrom(n, s + 1)
  }

  /** `Math.Ceiling(Math.Sqrt(n))` for a natural `n`. */
  function CeilSqrt(n: nat): (r: nat)
    ensures r * r >= n
    ensures r == 0 || (r - 1) * (r - 1) < n
  {
    CeilSqrtFrom(n, 0)
  }

  /** The side of the square thumbnail, derived from the number of hash bits. */
  function ThumbnailSize(d: ImageDetails): nat {
    CeilSqrt(|d.hash|)
  }

  lemma SquareLess(a: nat, b: nat)
    requires a < b
    ensures a * a < b * b
  {
    assert a * a <= a * b;
    assert a * b < b * b;
  }

  lemma {:induction false} CeilSqrtFromSquare(k: nat, s: nat)
    requires s <= k
    requires s == 0 || (s - 1) * (s - 1) < k * k
    ensures CeilSqrtFrom(k * k, s) == k
    decreases k - s
  {
    if s < k {
      SquareLess(s, k);
      CeilSqrtFromSquare(k, s + 1);
    }
  }

  /** A hash of `k * k` bits belongs to a `k` by `k` thumbnail. */
  lemma ThumbnailSizeOfSquare(d: ImageDetails, k: nat)
    requires |d.hash| == k * k
    ensures ThumbnailSize(d) == k
  {
    CeilSqrtFromSquare(k, 0);
  }

  /** The number of positions below `n` where the two hashes agree. */
  function Agreements(a: seq<bool>, b: seq<bool>, n: nat): nat
    requires n <= |a| && n <= |b|
  {
    if n == 0 then 0 else Agreements(a, b, n - 1) + (if a[n - 1] == b[n - 1] then 1 else 0)
  }

  lemma {:induction false} AgreementsBounded(a: seq<bool>, b: seq<bool>, n: nat)
    requires n <= |a| && n <= |b|
    ensures Agreements(a, b, n) <= n
  {
    if n > 0 {
      AgreementsBounded(a, b, n - 1);
    }
  }

  lemma {:induction false} AgreementsSymmetric(a: seq<bool>, b: seq<bool>, n: nat)
    requires n <= |a| && n <= |b|
    ensures Agreements(a, b, n) == Agreements(b, a, n)
  {
    if n > 0 {
      AgreementsSymmetric(a, b, n - 1);
    }
  }

  lemma {:induction false} AgreementsWithItself(a: seq<bool>, n: nat)
    requires n <= |a|
    ensures Agreements(a, a, n) == n
  {
    if n > 0 {
      AgreementsWithItself(a, n - 1);
    }
  }

  function AspectRatio(d: ImageDetails): Float {
    Divide(d.width, d.height)
  }

  /** The aspect-ratio gate: `other`'s ratio lies outside the band around `self`'s ratio,
      whose half-width is `margin = 1 - percentage`. The band is anchored at `self`. */
  predicate OutsideGate(self: ImageDetails, other: ImageDetails, percentage: real) {
    var margin := 1.0 - percentage;
    || Greater(AspectRatio(other), Scale(AspectRatio(self), 1.0 + margin))
    || Greater(Scale(AspectRatio(self), 1.0 - margin), AspectRatio(other))
  }

  /** `self.Equals(other, percentage)`: whether `other` is a near-duplicate of `self`. */
  function Equals(self: ImageDetails, other: ImageDetails, percentage: real): (r: Result<bool>)
    ensures r.Err? && r.error.InvalidOperation? <==> ThumbnailSize(self) != ThumbnailSize(other)
    ensures r == Err(IndexOutOfRange) <==>
      && ThumbnailSize(self) == ThumbnailSize(other)
      && !OutsideGate(self, other, percentage)
      && (|self.hash| < ThumbnailSize(self) * ThumbnailSize(self)
          || |other.hash| < ThumbnailSize(self) * ThumbnailSize(self))
    ensures r == Ok(true) ==> !OutsideGate(self, other, percentage) && ThumbnailSize(self) > 0
  {
    var size := ThumbnailSize(self);
    if size != ThumbnailSize(other) then
      Err(InvalidOperation("The thumbnails must be the same size when checking equality."))
    else if OutsideGate(self, other, percentage) then
      Ok(false)
    else if |self.hash| < size * size || |other.hash| < size * size then
      Err(IndexOutOfRange)
    else if size == 0 then
      // 0 / (float)0 is NaN, and NaN >= percentage is false
      Ok(false)
    else
      var n := size * size;
      Ok((Agreements(self.hash, other.hash, n) as real) / (n as real) >= percentage)
  }

  /** For two images of positive height with equal thumbnail sizes, the answer is false
      whenever `other`'s ratio exceeds `self`'s by more than the margin, or falls short of
      it by more than the margin, whatever the bits. */
  lemma GateRejects(self: ImageDetails, other: ImageDetails, percentage: real)
    requires ThumbnailSize(self) == ThumbnailSize(other)
    requires self.height > 0 && other.height > 0
    requires
      var t := self.width as real / self.height as real;
      var o := other.width as real / other.height as real;
      o > t * (2.0 - percentage) || o < t * percentage
    ensures Equals(self, other, percentage) == Ok(false)
  {
    assert OutsideGate(self, other, percentage);
  }

  /** A percentage above one is never reached. */
  lemma PercentageAboveOneNeverMatches(self: ImageDetails, other: ImageDetails, percentage: real)
    requires percentage > 1.0
    ensures Equals(self, other, percentage) != Ok(true)
  {
    var size := ThumbnailSize(self);
    if && size == ThumbnailSize(other) && !OutsideGate(self, other, percentage)
       && |self.hash| >= size * size && |other.hash| >= size * size && size > 0
    {
      var n := size * size;
      AgreementsBounded(self.hash, other.hash, n);
      ShareAtMostOne(Agreements(self.hash, other.hash, n), n);
    }
  }

  lemma ShareAtMostOne(a: nat, n: nat)
    requires 0 < n && a <= n
    ensures (a as real) / (n as real) <= 1.0
  {
    var q := (a as real) / (n as real);
    assert q * (n as real) == a as real;
    assert q * (n as real) <= 1.0 * (n as real);
  }

  /** At percentage one, only an identical aspect ratio passes the gate, or a ratio that
      is NaN because the image is 0 by 0. */
  lemma FullPercentageNeedsEqualRatio(self: ImageDetails, other: ImageDetails)
    requires Equals(self, other, 1.0) == Ok(true)
    ensures AspectRatio(self) == AspectRatio(other) || AspectRatio(self).NaN? || AspectRatio(other).NaN?
  {
    assert !OutsideGate(self, other, 1.0);
  }

  /** Past the gate, the answer is whether the share of agreeing bits reaches the
      percentage, and that share does not depend on the order of the two hashes. */
  lemma MatchIsAgreementShare(a: ImageDetails, b: ImageDetails, percentage: real, k: nat)
    requires k > 0 && |a.hash| == k * k && |b.hash| == k * k
    requires !OutsideGate(a, b, percentage)
    ensures Equals(a, b, percentage) == Ok((Agreements(a.hash, b.hash, k * k) as real) / ((k * k) as real) >= percentage)
    ensures Agreements(a.hash, b.hash, k * k) == Agreements(b.hash, a.hash, k * k)
  {
    ThumbnailSizeOfSquare(a, k);
    ThumbnailSizeOfSquare(b, k);
    AgreementsSymmetric(a.hash, b.hash, k * k);
  }

  /** An image of positive size is a near-duplicate of itself at every percentage in [0, 1]. */
  lemma SelfMatch(d: ImageDetails, k: nat, percentage: real)
    requires d.width > 0 && d.height > 0
    requires k > 0 && |d.hash| == k * k
    requires 0.0 <= percentage <= 1.0
    ensures Equals(d, d, percentage) == Ok(true)
  {
    ThumbnailSizeOfSquare(d, k);
    var t := d.width as real / d.height as real;
    assert t > 0.0;
    assert !(t > t * (1.0 + (1.0 - percentage)));
    assert !(t * (1.0 - (1.0 - percentage)) > t);
    AgreementsWithItself(d.hash, k * k);
  }

  /** The gate is anchored at the receiver: for aspect ratios 1 and 0.9 at percentage 0.9
      and identical hashes, the square image accepts the narrow one but not conversely. */
  lemma GateIsAsymmetric()
    ensures
      var square := ImageDetails("a", "a.png", 10, 10, [true]);
      var narrow := ImageDetails("b", "b.png", 9, 10, [true]);
      && Equals(square, narrow, 0.9) == Ok(true)
      && Equals(narrow, square, 0.9) == Ok(false)
  {
    var square := ImageDetails("a", "a.png", 10, 10, [true]);
    var narrow := ImageDetails("b", "b.png", 9, 10, [true]);
    ThumbnailSizeOfSquare(square, 1);
    ThumbnailSizeOfSquare(narrow, 1);
  }

  /** Images of aspect ratios 1 and 2 never match at percentage 0.95, in either order and
      whatever their hashes. */
  lemma RatiosOneAndTwoNeverMatch(a: ImageDetails, b: ImageDetails)
    requires a.height > 0 && a.width == a.height
    requires b.height > 0 && b.width == 2 * b.height
    ensures Equals(a, b, 0.95) != Ok(true)
    ensures Equals(b, a, 0.95) != Ok(true)
  {
    assert a.width as real / a.height as real == 1.0;
    assert b.width as real / b.height as real == 2.0;
  }
}
