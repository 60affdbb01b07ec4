/** The progress percentage of a job and its bounds. */
module Ratio {

  /**
    The progress percentage both back ends report: `processed / total * 100` when
    `total > 0`, else 0. Go computes it in float64 and Python rounds it to one decimal;
    here it is the exact ratio.
  */
  function Progress(processed: int, total: int): real {
    if total > 0 then processed as real / total as real * 100.0 else 0.0
  }

  /** The percentage is 0 before the total is known, within 0..100 while counts are in range, 100 when done. */
  lemma ProgressBounds(processed: int, total: int)
    ensures total <= 0 ==> Progress(processed, total) == 0.0
    ensures 0 <= processed <= total && total > 0 ==> 0.0 <= Progress(processed, total) <= 100.0
    ensures processed == total > 0 ==> Progress(processed, total) == 100.0
  {
    if 0 <= processed <= total && total > 0 {
      RatioAtMostOne(processed as real, total as real);
      if processed == total {
        assert processed as real / total as real == 1.0;
      }
    }
  }

  lemma RatioAtMostOne(p: real, t: real)
    requires 0.0 <= p <= t && t > 0.0
    ensures 0.0 <= p / t <= 1.0
  {
    var q := p / t;
    assert q * t == p;
    assert q > 1.0 ==> (q - 1.0) * t > 0.0;
    assert q < 0.0 ==> (0.0 - q) * t > 0.0;
  }
}
