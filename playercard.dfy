/**
 * The star rating on a player card (src/components/PlayerCard.jsx): the
 * success rate scaled to five and rounded, then five star slots of which the
 * first `rating` are filled.
 */
module PlayerCard {

  /** The length of `[...Array(5)]`. */
  const StarCount: nat := 5

  /**
   * `Math.round((successRate / 100) * 5)` for an integer rate: rate/20
   * rounded half up, so that the result is within half a star of rate/20.
   */
  function Rating(successRate: int): (r: int)
    ensures 20 * r - 10 <= successRate < 20 * r + 10
  {
    (successRate + 10) / 20
  }

  /** The star slots: slot `i` is filled when `i < rating`. */
  function Stars(rating: int): (r: seq<bool>)
    ensures |r| == StarCount
  {
    seq(StarCount, i => i < rating)
  }

  /** The number of filled slots. */
  function Filled(stars: seq<bool>): nat
  {
    if stars == [] then 0
    else Filled(stars[..|stars| - 1]) + if stars[|stars| - 1] then 1 else 0
  }

  /** A rating of a percentage lies between zero and five stars. */
  lemma RatingBounds(successRate: int)
    requires 0 <= successRate <= 100
    ensures 0 <= Rating(successRate) <= StarCount
  {
  }

  /** A higher success rate never earns fewer stars. */
  lemma RatingMonotone(a: int, b: int)
    requires a <= b
    ensures Rating(a) <= Rating(b)
  {
  }

  /** The end points, and the two highest rates in the directory. */
  lemma RatingSamples()
    ensures Rating(0) == 0 && Rating(100) == 5
    ensures Rating(92) == 5 && Rating(90) == 5 && Rating(89) == 4 && Rating(85) == 4
    ensures Rating(82) == 4
  {
  }

  /** The first `n` slots of a rating hold `rating` filled ones, clipped to 0..n. */
  lemma {:induction false} FilledPrefix(rating: int, n: nat)
    requires n <= StarCount
    ensures Filled(Stars(rating)[..n]) == if rating < 0 then 0 else if rating < n then rating else n
  {
    if n > 0 {
      FilledPrefix(rating, n - 1);
      assert Stars(rating)[..n][..n - 1] == Stars(rating)[..n - 1];
    }
  }

  /** Exactly `rating` stars are filled, and they are the leading ones. */
  lemma StarsFilled(rating: int)
    requires 0 <= rating <= StarCount
    ensures Filled(Stars(rating)) == rating
    ensures forall i, j :: 0 <= i < j < StarCount && Stars(rating)[j] ==> Stars(rating)[i]
  {
    FilledPrefix(rating, StarCount);
    assert Stars(rating)[..StarCount] == Stars(rating);
  }

  /** A card for a percentage fills as many stars as its rating. */
  lemma CardStars(successRate: int)
    requires 0 <= successRate <= 100
    ensures Filled(Stars(Rating(successRate))) == Rating(successRate) <= StarCount
  {
    RatingBounds(successRate);
    StarsFilled(Rating(successRate));
  }
}
