/**
 * Scalar values shared by the pipeline stages: calendar dates written as
 * ISO `YYYY-MM-DD` strings, and the percentage rates that the scripts write
 * with two decimals.
 */
module Values {

  /** A calendar date. ISO strings order lexicographically exactly as these triples do. */
  datatype Date = Date(year: int, month: int, day: int)

  predicate DateLt(a: Date, b: Date)
  {
    a.year < b.year
    || (a.year == b.year && a.month < b.month)
    || (a.year == b.year && a.month == b.month && a.day < b.day)
  }

  predicate DateLe(a: Date, b: Date)
  {
    DateLt(a, b) || a == b
  }

  /** The order on dates is total, transitive and antisymmetric. */
  lemma DateLeTotal(a: Date, b: Date)
    ensures DateLe(a, b) || DateLe(b, a)
    ensures DateLe(a, b) && DateLe(b, a) ==> a == b
  {
  }

  lemma DateLeTrans(a: Date, b: Date, c: Date)
    requires DateLe(a, b) && DateLe(b, c)
    ensures DateLe(a, c)
  {
  }

  /**
   * A rate `count / total * 100`, kept exactly as the fraction num/den. The scripts
   * write "0.00" when the denominator is zero, which is the rate Rate(_, 0).
   */
  datatype Rate = Rate(num: nat, den: nat)
  {
    /** The percentage the rate stands for; 0 for the "0.00" case. */
    function Percent(): real
    {
      if den == 0 then 0.0 else 100.0 * (num as real) / (den as real)
    }

    /** float(rate) > pct */
    predicate Above(pct: nat)
    {
      den > 0 && 100 * num > pct * den
    }

    /** float(rate) >= pct */
    predicate AtLeast(pct: nat)
    {
      if den == 0 then pct == 0 else 100 * num >= pct * den
    }
  }

  /** The rate a counter pair is written as, "0.00" when the total is zero. */
  function RateOf(count: nat, total: nat): (r: Rate)
    ensures total == 0 ==> r.Percent() == 0.0
    ensures r.Above(0) <==> total > 0 && count > 0
    ensures total > 0 ==> (r.AtLeast(25) <==> 4 * count >= total)
  {
    if total > 0 then Rate(count, total) else Rate(0, 0)
  }

  /** A count that is part of its total gives a percentage between 0 and 100. */
  lemma RateOfBounds(count: nat, total: nat)
    requires count <= total
    ensures 0.0 <= RateOf(count, total).Percent() <= 100.0
    ensures !RateOf(count, total).Above(100)
  {
    if total > 0 {
      var c, t := count as real, total as real;
      assert c / t <= 1.0 by {
        assert c <= t;
      }
      assert 100.0 * c / t == 100.0 * (c / t);
    }
  }
}
