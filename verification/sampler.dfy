/**
 `select_random_pictures`: a weighted draw with replacement that favours
 pictures taken on days with few other pictures.

 Each picture weighs `0.8 + 0.2 / c`, where `c` is the number of candidates
 taken on the same calendar date; `random.choices` then draws
 `min(sample_size, len(pictures))` of them. The draw follows the standard
 library's algorithm: running totals of the weights, and for each draw a
 `bisect_right` of `random() * total` into them, capped at the last index.
 The successive `random()` values are the parameter `variate`.
 */
module Sampler {
  import opened DateTimes
  import opened Pictures

  /** Weight for uniform sampling: fair representation of busy days. */
  const UniformWeight: real := 0.8

  /** Weight for daily sampling: promotes days with few pictures. */
  const DailyWeight: real := 0.2

  // ---------------------------------------------------------------------------
  // Counting pictures per calendar date

  /** The calendar date of every picture, in order. */
  function Days(ps: seq<Picture>): (ds: seq<Date>)
    ensures |ds| == |ps|
    ensures forall i :: 0 <= i < |ps| ==> ds[i] == DateOf(ps[i].date)
  {
    if |ps| == 0 then [] else Days(ps[..|ps| - 1]) + [DateOf(ps[|ps| - 1].date)]
  }

  /** `Counter(days)`: how often each date occurs, built one date at a time. */
  function Tally(days: seq<Date>): map<Date, nat> {
    if |days| == 0 then map[]
    else
      var counts := Tally(days[..|days| - 1]);
      var d := days[|days| - 1];
      counts[d := (if d in counts then counts[d] else 0) + 1]
  }

  /** The counter holds exactly the dates that occur, each with its number of occurrences. */
  lemma {:induction false} TallyCounts(days: seq<Date>)
    ensures forall d :: d in Tally(days) <==> d in days
    ensures forall d :: d in Tally(days) ==> Tally(days)[d] == multiset(days)[d]
  {
    if |days| > 0 {
      var init, last := days[..|days| - 1], days[|days| - 1];
      TallyCounts(init);
      assert days == init + [last];
      assert multiset(days) == multiset(init) + multiset{last};
    }
  }

  /** `date_counts`: the number of pictures taken on each calendar date. */
  function DateCounts(ps: seq<Picture>): map<Date, nat> {
    Tally(Days(ps))
  }

  /** How many of `ps` were taken on `day`. */
  function SameDay(ps: seq<Picture>, day: Date): nat {
    multiset(Days(ps))[day]
  }

  /** The count of every picture's date is the number of pictures sharing that date, so it is at least 1. */
  lemma DateCountsOfPictures(ps: seq<Picture>)
    ensures forall d :: d in DateCounts(ps) <==> d in Days(ps)
    ensures forall i :: 0 <= i < |ps| ==>
      var d := DateOf(ps[i].date);
      d in DateCounts(ps) && DateCounts(ps)[d] == SameDay(ps, d) >= 1
  {
    TallyCounts(Days(ps));
    forall i | 0 <= i < |ps|
      ensures DateOf(ps[i].date) in Days(ps)
    {
      assert Days(ps)[i] == DateOf(ps[i].date);
    }
  }

  /** A date's count is 1 exactly when no other picture shares it. */
  lemma SameDayAlone(ps: seq<Picture>, i: nat)
    requires i < |ps|
    ensures SameDay(ps, DateOf(ps[i].date)) == 1 <==>
      forall j :: 0 <= j < |ps| && j != i ==> DateOf(ps[j].date) != DateOf(ps[i].date)
  {
    var ds, d := Days(ps), DateOf(ps[i].date);
    assert ds == ds[..i] + [d] + ds[i + 1..];
    assert multiset(ds)[d] == multiset(ds[..i])[d] + 1 + multiset(ds[i + 1..])[d];
    if exists j :: 0 <= j < |ps| && j != i && DateOf(ps[j].date) == d {
      var j :| 0 <= j < |ps| && j != i && DateOf(ps[j].date) == d;
      if j < i {
        assert ds[..i][j] == d;
        assert d in multiset(ds[..i]);
      } else {
        assert ds[i + 1..][j - i - 1] == d;
        assert d in multiset(ds[i + 1..]);
      }
    } else {
      assert d !in ds[..i];
      assert d !in ds[i + 1..];
    }
  }

  // ---------------------------------------------------------------------------
  // Weights

  /** The weight of a picture whose date is shared by `count` candidates. */
  function Weight(count: nat): real
    requires count >= 1
  {
    UniformWeight + DailyWeight / (count as real)
  }

  /** Every weight lies in (0.8, 1.0]. */
  lemma WeightBounds(count: nat)
    requires count >= 1
    ensures 0.8 < Weight(count) <= 1.0
  {
    assert DailyWeight / (count as real) <= DailyWeight;
  }

  /** A weight is exactly 1.0 when the picture is alone on its day. */
  lemma WeightIsOneIffAlone(count: nat)
    requires count >= 1
    ensures Weight(count) == 1.0 <==> count == 1
  {
    if count > 1 {
      assert DailyWeight / (count as real) < DailyWeight;
    }
  }

  /** The more pictures share a day, the less each of them weighs. */
  lemma WeightDecreases(fewer: nat, more: nat)
    requires 1 <= fewer < more
    ensures Weight(more) < Weight(fewer)
  {
    assert DailyWeight / (more as real) < DailyWeight / (fewer as real);
  }

  /** The list comprehension of weights, one per picture in order. */
  function Weights(ps: seq<Picture>): (ws: seq<real>)
    ensures |ws| == |ps|
  {
    var counts := DateCounts(ps);
    seq(|ps|, i requires 0 <= i < |ps| =>
      var d := DateOf(ps[i].date);
      if d in counts && counts[d] >= 1 then Weight(counts[d]) else 0.0)
  }

  /** Each picture weighs `0.8 + 0.2 / c` for `c` the pictures sharing its date: a value in (0.8, 1.0]. */
  lemma WeightsOfPictures(ps: seq<Picture>)
    ensures forall i :: 0 <= i < |ps| ==>
      var c := SameDay(ps, DateOf(ps[i].date));
      c >= 1 && Weights(ps)[i] == Weight(c) && 0.8 < Weights(ps)[i] <= 1.0
  {
    DateCountsOfPictures(ps);
    forall i | 0 <= i < |ps|
      ensures 0.8 < Weights(ps)[i] <= 1.0
    {
      WeightBounds(SameDay(ps, DateOf(ps[i].date)));
    }
  }

  predicate AllPositive(ws: seq<real>) {
    forall i :: 0 <= i < |ws| ==> ws[i] > 0.0
  }

  lemma WeightsPositive(ps: seq<Picture>)
    ensures AllPositive(Weights(ps))
  {
    WeightsOfPictures(ps);
  }

  /** A picture weighs exactly 1.0 when no other candidate was taken on its date. */
  lemma WeightIsOneIffAloneOnItsDay(ps: seq<Picture>, i: nat)
    requires i < |ps|
    ensures Weights(ps)[i] == 1.0 <==>
      forall j :: 0 <= j < |ps| && j != i ==> DateOf(ps[j].date) != DateOf(ps[i].date)
  {
    WeightsOfPictures(ps);
    WeightIsOneIffAlone(SameDay(ps, DateOf(ps[i].date)));
    SameDayAlone(ps, i);
  }

  // ---------------------------------------------------------------------------
  // The draw

  function Sum(ws: seq<real>): real {
    if |ws| == 0 then 0.0 else ws[0] + Sum(ws[1..])
  }

  /** Positive weights have a positive total, so `random.choices` never rejects them. */
  lemma {:induction false} SumPositive(ws: seq<real>)
    requires |ws| > 0 && AllPositive(ws)
    ensures Sum(ws) > 0.0
  {
    if |ws| > 1 {
      SumPositive(ws[1..]);
    }
  }

  /**
   `bisect_right(cum_weights, x, 0, n - 1)`: the first index whose running total
   exceeds `x`, or the last index when none below it does.
   */
  function Pick(ws: seq<real>, x: real): (i: nat)
    requires |ws| > 0
    ensures i < |ws|
  {
    if |ws| == 1 || x < ws[0] then 0 else 1 + Pick(ws[1..], x - ws[0])
  }

  /** Running totals of the weights after dropping the first one. */
  lemma SumOfPrefix(ws: seq<real>, i: nat)
    requires 0 < i <= |ws|
    ensures Sum(ws[..i]) == ws[0] + Sum(ws[1..][..i - 1])
  {
    assert ws[..i][1..] == ws[1..][..i - 1];
  }

  /**
   For positive weights and `0 <= x < total`, the drawn index is the one
   whose band `[running total before it, running total through it)` holds `x`.
   */
  lemma {:induction false} PickBand(ws: seq<real>, x: real)
    requires |ws| > 0 && AllPositive(ws)
    requires 0.0 <= x < Sum(ws)
    ensures Sum(ws[..Pick(ws, x)]) <= x < Sum(ws[..Pick(ws, x) + 1])
  {
    var i := Pick(ws, x);
    assert ws[..0] == [];
    if |ws| == 1 || x < ws[0] {
      assert Sum(ws[..1]) == ws[0] + Sum(ws[1..][..0]);
      if |ws| == 1 {
        assert ws[..1] == ws;
      }
    } else {
      PickBand(ws[1..], x - ws[0]);
      SumOfPrefix(ws, i);
      SumOfPrefix(ws, i + 1);
    }
  }

  /** Running totals of positive weights strictly grow. */
  lemma {:induction false} PrefixSumsGrow(ws: seq<real>, i: nat, j: nat)
    requires AllPositive(ws) && i < j <= |ws|
    ensures Sum(ws[..i]) < Sum(ws[..j])
  {
    if i == 0 {
      assert ws[..0] == [];
      SumPositive(ws[..j]);
    } else {
      SumOfPrefix(ws, i);
      SumOfPrefix(ws, j);
      PrefixSumsGrow(ws[1..], i - 1, j - 1);
    }
  }

  /** The bands of distinct indices do not overlap, so `x` lies in the band of the drawn index only. */
  lemma PickIsTheOnlyBand(ws: seq<real>, x: real, i: nat)
    requires |ws| > 0 && AllPositive(ws)
    requires 0.0 <= x < Sum(ws)
    requires i < |ws|
    ensures Pick(ws, x) == i <==> Sum(ws[..i]) <= x < Sum(ws[..i + 1])
  {
    var p := Pick(ws, x);
    PickBand(ws, x);
    if p + 1 < i {
      PrefixSumsGrow(ws, p + 1, i);
    } else if i < p {
      if i + 1 < p {
        PrefixSumsGrow(ws, i + 1, p);
      }
    }
  }

  /** The size `random.choices` is asked for: none for an empty or non-positive request. */
  function SampleSize(sampleSize: int, n: nat): nat {
    if sampleSize <= 0 then 0 else if sampleSize < n then sampleSize else n
  }

  /** `total = cum_weights[-1]`: the sum of all weights. */
  function Total(ws: seq<real>): real {
    Sum(ws)
  }

  /** `random() * total`: the point the running totals are bisected at. */
  function Point(u: real, total: real): real {
    u * total
  }

  /** A value in [0, 1) scales a positive total into [0, total). */
  lemma ScaledBelow(u: real, total: real)
    requires 0.0 <= u < 1.0 && total > 0.0
    ensures 0.0 <= Point(u, total) < total
  {
    assert (1.0 - u) * total > 0.0;
  }

  /** With positive weights, a value in [0, 1) scales their total into [0, total). */
  lemma ScaledBelowTotal(ws: seq<real>, u: real)
    requires |ws| > 0 && AllPositive(ws) && 0.0 <= u < 1.0
    ensures 0.0 <= Point(u, Total(ws)) < Total(ws)
  {
    SumPositive(ws);
    ScaledBelow(u, Total(ws));
  }

  /** One draw for the `random()` value `u`: bisect the running totals at `u * total`. */
  function Draw(pictures: seq<Picture>, ws: seq<real>, u: real): (p: Picture)
    requires 0 < |pictures| == |ws|
    ensures p in pictures
  {
    pictures[Pick(ws, Point(u, Total(ws)))]
  }

  /** With positive weights and `u` in [0, 1), the draw lands in the band that holds `x = u * total`. */
  lemma ScaledPickBand(ws: seq<real>, u: real, x: real)
    requires |ws| > 0 && AllPositive(ws) && 0.0 <= u < 1.0
    requires x == Point(u, Total(ws))
    ensures Sum(ws[..Pick(ws, x)]) <= x < Sum(ws[..Pick(ws, x) + 1])
  {
    ScaledBelowTotal(ws, u);
    PickBand(ws, x);
  }

  /** With positive weights and `u` in [0, 1), a draw is the picture whose band holds `u * total`. */
  lemma DrawLands(pictures: seq<Picture>, ws: seq<real>, u: real)
    requires 0 < |pictures| == |ws| && AllPositive(ws) && 0.0 <= u < 1.0
    ensures Total(ws) > 0.0
    ensures exists i :: (0 <= i < |pictures| && Draw(pictures, ws, u) == pictures[i] &&
      Sum(ws[..i]) <= Point(u, Total(ws)) < Sum(ws[..i + 1]))
  {
    SumPositive(ws);
    var x := Point(u, Total(ws));
    ScaledPickBand(ws, u, x);
    var i := Pick(ws, x);
    assert Draw(pictures, ws, u) == pictures[i];
  }

  /** The first `k` draws, the j-th for the `random()` value `variate(j)`. */
  function Draws(pictures: seq<Picture>, ws: seq<real>, variate: nat -> real, k: nat): (r: seq<Picture>)
    requires 0 < |pictures| == |ws|
    ensures |r| == k
    ensures forall j :: 0 <= j < k ==> r[j] == Draw(pictures, ws, variate(j))
  {
    if k == 0 then []
    else Draws(pictures, ws, variate, k - 1) + [Draw(pictures, ws, variate(k - 1))]
  }

  /** The j-th of the draws is the picture whose band holds `variate(j) * total`. */
  lemma DrawsLand(pictures: seq<Picture>, ws: seq<real>, variate: nat -> real, k: nat, j: nat)
    requires 0 < |pictures| == |ws| && AllPositive(ws)
    requires j < k && 0.0 <= variate(j) < 1.0
    ensures Total(ws) > 0.0
    ensures exists i :: (0 <= i < |pictures| && Draws(pictures, ws, variate, k)[j] == pictures[i] &&
      Sum(ws[..i]) <= Point(variate(j), Total(ws)) < Sum(ws[..i + 1]))
  {
    DrawLands(pictures, ws, variate(j));
  }

  /**
   `select_random_pictures(pictures, sample_size)`: no draw from an empty
   list; otherwise `min(sample_size, len(pictures))` draws with replacement.
   */
  function SelectRandomPictures(pictures: seq<Picture>, sampleSize: int, variate: nat -> real): (r: seq<Picture>)
    ensures |pictures| == 0 || sampleSize <= 0 ==> r == []
    ensures 0 < sampleSize <= |pictures| ==> |r| == sampleSize
    ensures 0 < |pictures| <= sampleSize ==> |r| == |pictures|
    ensures forall p :: p in r ==> p in pictures
  {
    if |pictures| == 0 then []
    else Draws(pictures, Weights(pictures), variate, SampleSize(sampleSize, |pictures|))
  }

  /**
   With `random()` values in [0, 1), each selected picture is the one whose
   weight band holds its variate scaled by the total weight, and the total is
   positive, so `random.choices` never rejects the weights.
   */
  lemma DrawsFollowTheWeights(pictures: seq<Picture>, sampleSize: int, variate: nat -> real, j: nat)
    requires |pictures| > 0
    requires j < |SelectRandomPictures(pictures, sampleSize, variate)|
    requires 0.0 <= variate(j) < 1.0
    ensures var ws, r := Weights(pictures), SelectRandomPictures(pictures, sampleSize, variate);
      && Total(ws) > 0.0
      && exists i :: (0 <= i < |pictures| && r[j] == pictures[i] &&
           Sum(ws[..i]) <= Point(variate(j), Total(ws)) < Sum(ws[..i + 1]))
  {
    var ws := Weights(pictures);
    var k := SampleSize(sampleSize, |pictures|);
    WeightsPositive(pictures);
    DrawsLand(pictures, ws, variate, k, j);
    assert SelectRandomPictures(pictures, sampleSize, variate) == Draws(pictures, ws, variate, k);
  }
}
