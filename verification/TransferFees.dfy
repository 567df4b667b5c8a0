/** The Token-2022 transfer fee and its inverse. */
module TransferFees {
  import opened Base
  import opened Division

  const ONE_IN_BASIS_POINTS: int := 10_000

  datatype TransferFee = TransferFee(maximumFee: u64, basisPoints: u16) {
    /** What Token-2022 itself enforces whenever a fee is configured. */
    predicate Valid() {
      basisPoints <= ONE_IN_BASIS_POINTS
    }
  }

  /** The fee Token-2022 withholds from a transfer of `amount`: rounded up, then capped. */
  function WithheldFee(fee: TransferFee, amount: u64): nat {
    Min((amount * fee.basisPoints + ONE_IN_BASIS_POINTS - 1) / ONE_IN_BASIS_POINTS, fee.maximumFee)
  }

  /** Token-2022's `calculate_post_fee_amount`: what arrives of a transfer of `amount`. */
  function PostFeeAmount(fee: TransferFee, amount: u64): Option<u64> {
    if WithheldFee(fee, amount) <= amount then Some(amount - WithheldFee(fee, amount)) else None
  }

  function CeilDiv(numerator: u128, denominator: u128): Option<u128> {
    if numerator + denominator >= U128_LIMIT || numerator + denominator < 1 || denominator == 0 then
      None
    else
      QuotientBelow(numerator + denominator - 1, denominator);
      Some((numerator + denominator - 1) / denominator)
  }

  /** `calculate_pre_fee_amount`: what to transfer so that `postFeeAmount` arrives. */
  function PreFeeAmount(fee: TransferFee, postFeeAmount: u64): Option<u64> {
    var checkedSum: Option<u64> :=
      if postFeeAmount + fee.maximumFee < U64_LIMIT then Some(postFeeAmount + fee.maximumFee) else None;
    if fee.basisPoints == 0 then
      Some(postFeeAmount)
    else if postFeeAmount == 0 then
      Some(0)
    else if fee.basisPoints == ONE_IN_BASIS_POINTS then
      checkedSum
    else if postFeeAmount * ONE_IN_BASIS_POINTS >= U128_LIMIT || fee.basisPoints > ONE_IN_BASIS_POINTS then
      None
    else
      match CeilDiv(postFeeAmount * ONE_IN_BASIS_POINTS, ONE_IN_BASIS_POINTS - fee.basisPoints)
      case None => None
      case Some(rawPreFeeAmount) =>
        if rawPreFeeAmount < postFeeAmount then
          None
        else if rawPreFeeAmount - postFeeAmount >= fee.maximumFee then
          checkedSum
        else if rawPreFeeAmount < U64_LIMIT then
          Some(rawPreFeeAmount)
        else
          None
  }

  /** The transfer fee never exceeds the transfer, and without its cap it leaves the rounded-down rest. */
  lemma PostFeeIs(fee: TransferFee, amount: u64)
    requires fee.Valid()
    ensures PostFeeAmount(fee, amount).Some?
    ensures PostFeeAmount(fee, amount).value
         == Max(amount * (ONE_IN_BASIS_POINTS - fee.basisPoints) / ONE_IN_BASIS_POINTS, amount - fee.maximumFee)
  {
    DistributeDifference(ONE_IN_BASIS_POINTS, fee.basisPoints, amount);
    MonotoneProduct(0, fee.basisPoints, amount);
    MonotoneProduct(fee.basisPoints, ONE_IN_BASIS_POINTS, amount);
  }

  /** Without the u64 bound, the inverse is the smaller of the two ways to cover the fee. */
  lemma PreFeeIs(fee: TransferFee, postFeeAmount: u64)
    requires fee.Valid() && 0 < fee.basisPoints < ONE_IN_BASIS_POINTS && 0 < postFeeAmount
    ensures var d := ONE_IN_BASIS_POINTS - fee.basisPoints;
            var least := Min((postFeeAmount * ONE_IN_BASIS_POINTS + d - 1) / d, postFeeAmount + fee.maximumFee);
            PreFeeAmount(fee, postFeeAmount) == if least < U64_LIMIT then Some(least) else None
  {
    var d := ONE_IN_BASIS_POINTS - fee.basisPoints;
    GrossCoversNet(postFeeAmount, d);
  }

  lemma GrossCoversNet(net: u64, kept: int)
    requires 0 < net && 0 < kept <= ONE_IN_BASIS_POINTS
    ensures net <= (net * ONE_IN_BASIS_POINTS + kept - 1) / kept < U128_LIMIT
  {
    FloorAdjoint(net * ONE_IN_BASIS_POINTS + kept - 1, kept, net);
    MonotoneProduct(kept, ONE_IN_BASIS_POINTS, net);
    QuotientBelow(net * ONE_IN_BASIS_POINTS + kept - 1, kept);
  }

  /** The two are a Galois connection: at least `x` arrives of `y` exactly when `y` covers the
      inverse of `x`. Every branch counts: no fee, nothing asked, 100 percent, capped, rounded. */
  lemma PreFeeIsLowerAdjoint(fee: TransferFee, x: u64, y: u64)
    requires fee.Valid()
    ensures PostFeeAmount(fee, y).Some?
    ensures PostFeeAmount(fee, y).value >= x
       <==> PreFeeAmount(fee, x).Some? && PreFeeAmount(fee, x).value <= y
  {
    PostFeeIs(fee, y);
    if 0 < fee.basisPoints < ONE_IN_BASIS_POINTS && 0 < x {
      PreFeeIs(fee, x);
      var d := ONE_IN_BASIS_POINTS - fee.basisPoints;
      CeilAdjoint(x * ONE_IN_BASIS_POINTS, d, y);
      FloorAdjoint(y * d, ONE_IN_BASIS_POINTS, x);
    }
  }

  /** The inverse is exact: transferring it delivers `x`, not a unit more. */
  lemma PreFeeIsExact(fee: TransferFee, x: u64)
    requires fee.Valid() && PreFeeAmount(fee, x).Some?
    ensures PostFeeAmount(fee, PreFeeAmount(fee, x).value) == Some(x)
  {
    if 0 < fee.basisPoints < ONE_IN_BASIS_POINTS && 0 < x {
      RoundedPreFeeIsExact(fee, x);
    }
  }

  lemma RoundedPreFeeIsExact(fee: TransferFee, x: u64)
    requires PreFeeAmount(fee, x).Some? && 0 < fee.basisPoints < ONE_IN_BASIS_POINTS && 0 < x
    ensures PostFeeAmount(fee, PreFeeAmount(fee, x).value) == Some(x)
  {
    hide PreFeeAmount, PostFeeAmount;
    var y := PreFeeAmount(fee, x).value;
    PreFeeIsLowerAdjoint(fee, x, y);
    PostFeeIs(fee, y);
    PreFeeIs(fee, x);
    NotAUnitMore(x, ONE_IN_BASIS_POINTS - fee.basisPoints, y);
  }

  lemma NotAUnitMore(x: int, kept: int, y: int)
    requires 0 < kept <= ONE_IN_BASIS_POINTS && y <= (x * ONE_IN_BASIS_POINTS + kept - 1) / kept
    ensures y * kept / ONE_IN_BASIS_POINTS <= x
  {
    CeilAdjoint(x * ONE_IN_BASIS_POINTS, kept, y - 1);
    DistributeDifference(y, 1, kept);
  }

  /** `None` means exactly that no u64 transfer delivers `x`. */
  lemma PreFeeNoneIffUnreachable(fee: TransferFee, x: u64)
    requires fee.Valid()
    ensures PreFeeAmount(fee, x).None?
       <==> forall y: u64 {:trigger PostFeeAmount(fee, y)} ::
              PostFeeAmount(fee, y).Some? ==> PostFeeAmount(fee, y).value < x
  {
    forall y: u64
      ensures PreFeeAmount(fee, x).None? && PostFeeAmount(fee, y).Some? ==> PostFeeAmount(fee, y).value < x
    {
      PreFeeIsLowerAdjoint(fee, x, y);
    }
    if PreFeeAmount(fee, x).Some? {
      PreFeeIsExact(fee, x);
      var y := PreFeeAmount(fee, x).value;
      assert PostFeeAmount(fee, y) == Some(x);
    }
  }
}
