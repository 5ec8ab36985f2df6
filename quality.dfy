/**
 * The quality verdict shown beside the metrics: one of four labels, chosen
 * from the number of bits used when the caller supplies it, and otherwise from
 * the PSNR.
 */
module Quality {

  datatype Label = Excellent | Good | Fair | Poor

  datatype Option<T> = None | Some(value: T)

  /**
   * A PSNR value as the metrics produce it: finite, +infinity when the two
   * images are identical (MSE 0), or NaN when the mean is over no samples.
   */
  datatype Psnr = Finite(db: real) | Infinity | NotANumber

  /** The floating-point comparison `psnr > t`; every comparison with NaN is false. */
  predicate Above(psnr: Psnr, t: real): (b: bool)
    ensures psnr.NotANumber? ==> !b
    ensures psnr.Infinity? ==> b
    ensures psnr.Finite? ==> (b <==> psnr.db > t)
  {
    match psnr
    case Finite(x) => x > t
    case Infinity => true
    case NotANumber => false
  }

  /** `a <= b` over the extended reals (NaN is ordered with nothing). */
  predicate AtMost(a: Psnr, b: Psnr)
  {
    match (a, b)
    case (Finite(x), Finite(y)) => x <= y
    case (Finite(_), Infinity) => true
    case (Infinity, Infinity) => true
    case _ => false
  }

  /** The position of a label on the scale, Poor lowest. */
  function Rank(l: Label): nat
  {
    match l
    case Poor => 0
    case Fair => 1
    case Good => 2
    case Excellent => 3
  }

  /**
   * The label of `mostrar_metricas`.  With a bit count: 6 or more is
   * Excellent, 4-5 Good, 2-3 Fair, anything below Poor.  Without one: PSNR
   * strictly above 40 is Excellent, above 30 Good, above 20 Fair, else Poor.
   */
  function Classify(bitsUsed: Option<int>, psnr: Psnr): (l: Label)
    ensures bitsUsed.Some? ==>
              && (l == Excellent <==> bitsUsed.value >= 6)
              && (l == Good <==> 4 <= bitsUsed.value <= 5)
              && (l == Fair <==> 2 <= bitsUsed.value <= 3)
              && (l == Poor <==> bitsUsed.value <= 1)
    ensures bitsUsed.None? ==>
              && (l == Excellent <==> Above(psnr, 40.0))
              && (l == Good <==> Above(psnr, 30.0) && !Above(psnr, 40.0))
              && (l == Fair <==> Above(psnr, 20.0) && !Above(psnr, 30.0))
              && (l == Poor <==> !Above(psnr, 20.0))
  {
    if bitsUsed.Some? then
      var bits := bitsUsed.value;
      if bits >= 6 then Excellent
      else if bits >= 4 then Good
      else if bits >= 2 then Fair
      else Poor
    else
      if Above(psnr, 40.0) then Excellent
      else if Above(psnr, 30.0) then Good
      else if Above(psnr, 20.0) then Fair
      else Poor
  }

  /** When a bit count is supplied the PSNR plays no part. */
  lemma BitsTakePriority(bits: int, x: Psnr, y: Psnr)
    ensures Classify(Some(bits), x) == Classify(Some(bits), y)
  {
  }

  /** More bits never give a lower label. */
  lemma MonotoneInBits(j: int, k: int, x: Psnr)
    requires j <= k
    ensures Rank(Classify(Some(j), x)) <= Rank(Classify(Some(k), x))
  {
  }

  /** A higher PSNR never gives a lower label. */
  lemma MonotoneInPsnr(a: Psnr, b: Psnr)
    requires AtMost(a, b)
    ensures Rank(Classify(None, a)) <= Rank(Classify(None, b))
  {
  }

  /** The label is the number of PSNR thresholds (20, 30, 40) strictly exceeded. */
  lemma RankCountsPsnrThresholds(psnr: Psnr)
    ensures Rank(Classify(None, psnr))
         == (if Above(psnr, 20.0) then 1 else 0) + (if Above(psnr, 30.0) then 1 else 0) + (if Above(psnr, 40.0) then 1 else 0)
  {
  }

  /** Boundary ownership: each threshold value falls in the lower tier. */
  lemma Boundaries()
    ensures Classify(Some(6), NotANumber) == Excellent && Classify(Some(5), NotANumber) == Good
    ensures Classify(Some(3), NotANumber) == Fair && Classify(Some(1), NotANumber) == Poor
    ensures Classify(None, Finite(41.0)) == Excellent && Classify(None, Finite(40.0)) == Good
    ensures Classify(None, Finite(30.0001)) == Good && Classify(None, Finite(30.0)) == Fair
    ensures Classify(None, Finite(20.0)) == Poor && Classify(None, Infinity) == Excellent
    ensures Classify(None, NotANumber) == Poor
  {
  }
}
