/** The group statistics both engines compare. A group's statistic is a
    ratio `num / den`: for a plain sample the sum over the sample's length
    (its mean), for a numerator/denominator pair the sum of numerators over
    the sum of denominators. Division by zero, which the library lets turn
    into NaN or infinity, is excluded by the `Divisible` and `Defined`
    predicates that the engines require. */
module Statistics {
  import opened Sums
  import opened Tools

  /** The accumulated sums of a comparison: group 1 (the baseline) and group 2. */
  datatype Groups = Groups(num1: real, den1: real, num2: real, den2: real) {

    /** Both group statistics can be computed. */
    predicate Divisible() {
      den1 != 0.0 && den2 != 0.0
    }

    /** The uplift can be computed too: the baseline statistic is not zero. */
    predicate Defined() {
      Divisible() && num1 != 0.0
    }

    function Stat1(): real
      requires Divisible()
    {
      num1 / den1
    }

    function Stat2(): real
      requires Divisible()
    {
      num2 / den2
    }

    /** How far group 2's statistic lies above the baseline's. */
    function Difference(): real
      requires Divisible()
    {
      Stat2() - Stat1()
    }

    /** The change from the baseline statistic to the other, relative to the baseline. */
    function Uplift(): (u: real)
      requires Defined()
      ensures GrowsBy(u)
    {
      assert Stat1() != 0.0;
      CalculateUplift(Stat1(), Stat2())
    }

    /** Growing the baseline statistic by the relative change `u` gives the other statistic. */
    predicate GrowsBy(u: real) {
      Defined() && Stat1() * (1.0 + u) == Stat2()
    }
  }

  /** Exactly two plain samples, or two numerator/denominator pairs. */
  predicate Arity(args: seq<seq<real>>) {
    |args| == 2 || |args| == 4
  }

  /** The observed sums from the full inputs: `sum / len` per sample for two
      arrays, `sum(num) / sum(den)` per pair for four. */
  function Observed(args: seq<seq<real>>): (g: Groups)
    requires Arity(args)
    ensures |args| == 2 ==> (g.Divisible() <==> |args[0]| > 0 && |args[1]| > 0)
    ensures |args| == 2 && g.Divisible() ==>
              g.Stat1() == Sum(args[0]) / |args[0]| as real && g.Stat2() == Sum(args[1]) / |args[1]| as real
    ensures |args| == 4 ==> (g.Divisible() <==> Sum(args[1]) != 0.0 && Sum(args[3]) != 0.0)
    ensures |args| == 4 && g.Divisible() ==>
              g.Stat1() == Sum(args[0]) / Sum(args[1]) && g.Stat2() == Sum(args[2]) / Sum(args[3])
  {
    if |args| == 2 then
      Groups(Sum(args[0]), |args[0]| as real, Sum(args[1]), |args[1]| as real)
    else
      Groups(Sum(args[0]), Sum(args[1]), Sum(args[2]), Sum(args[3]))
  }
}
