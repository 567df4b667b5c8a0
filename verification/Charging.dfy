/** What a send charges: dust removal, the token's transfer fee and the bridge's own fee. */
module Charging {
  import opened Base
  import opened Division
  import opened Totals
  import opened TransferFees

  datatype OftType = Native | Adapter

  /** Local units per shared unit. Set once by `init_oft` to a power of ten, so never zero. */
  type Rate = x: int | 1 <= x < U64_LIMIT witness 1

  function Ld2Sd(rate: Rate, amountLd: u64): (amountSd: u64)
  {
    QuotientBelow(amountLd, rate);
    amountLd / rate
  }

  function Sd2Ld(rate: Rate, amountSd: u64): Result<u64> {
    if amountSd * rate < U64_LIMIT then
      assert 0 <= amountSd * rate;
      Ok(amountSd * rate)
    else
      Err(Abort)
  }

  function RemoveDust(rate: Rate, amountLd: u64): (cleanLd: u64)
    ensures cleanLd <= amountLd < cleanLd + rate
  {
    RemoveDustIs(rate, amountLd);
    amountLd - amountLd % rate
  }

  lemma RemoveDustIs(rate: Rate, amountLd: u64)
    ensures amountLd - amountLd % rate == rate * Ld2Sd(rate, amountLd)
    ensures 0 <= amountLd % rate <= amountLd
  {
    RemainderIs(amountLd, rate);
  }

  function EffectiveBps(defaultFeeBps: u16, feeBps: Option<u16>): u16 {
    match feeBps
    case Some(bps) => bps
    case None => defaultFeeBps
  }

  function CalculateFee(preFeeAmount: u64, defaultFeeBps: u16, feeBps: Option<u16>): u64 {
    var bps := EffectiveBps(defaultFeeBps, feeBps);
    if bps == 0 || preFeeAmount == 0 then
      0
    else
      assert 0 <= preFeeAmount * bps;
      Truncate64(preFeeAmount * bps / ONE_IN_BASIS_POINTS)
  }

  function GetPostFeeAmountLd(mintFee: Option<TransferFee>, amountLd: u64): Result<u64> {
    match mintFee
    case None => Ok(amountLd)
    case Some(fee) =>
      match PostFeeAmount(fee, amountLd)
      case None => Err(InvalidArgument)
      case Some(postLd) => Ok(postLd)
  }

  function GetPreFeeAmountLd(mintFee: Option<TransferFee>, amountLd: u64): Result<u64> {
    match mintFee
    case None => Ok(amountLd)
    case Some(fee) =>
      match PreFeeAmount(fee, amountLd)
      case None => Err(InvalidArgument)
      case Some(preLd) => Ok(preLd)
  }

  datatype Charge = Charge(sentLd: u64, receivedLd: u64, oftFeeLd: u64)

  /** `compute_fee_and_adjust_amount` */
  function ComputeFeeAndAdjustAmount(amountLd: u64, oftType: OftType, rate: Rate, defaultFeeBps: u16,
          mintFee: Option<TransferFee>, feeBps: Option<u16>): Result<Charge>
  {
    match oftType
    case Adapter =>
      var arrivingLd :- GetPostFeeAmountLd(mintFee, amountLd);
      var cleanLd := RemoveDust(rate, arrivingLd);
      var sentLd :- GetPreFeeAmountLd(mintFee, cleanLd);
      var oftFeeLd := RemoveDust(rate, CalculateFee(cleanLd, defaultFeeBps, feeBps));
      var receivedLd :- Sub64(cleanLd, oftFeeLd);
      Ok(Charge(sentLd, receivedLd, oftFeeLd))
    case Native =>
      var sentLd := RemoveDust(rate, amountLd);
      var oftFeeLd := RemoveDust(rate, CalculateFee(sentLd, defaultFeeBps, feeBps));
      var receivedLd :- Sub64(sentLd, oftFeeLd);
      Ok(Charge(sentLd, receivedLd, oftFeeLd))
  }

  /** A transfer fee Token-2022 would accept, or none. */
  predicate Honest(mintFee: Option<TransferFee>) {
    mintFee.Some? ==> mintFee.value.Valid()
  }

  /** What arrives of a transfer of `amountLd`. */
  function Arriving(mintFee: Option<TransferFee>, amountLd: u64): (arrivingLd: u64)
    requires Honest(mintFee)
    ensures GetPostFeeAmountLd(mintFee, amountLd) == Ok(arrivingLd) && arrivingLd <= amountLd
  {
    match mintFee
    case None => amountLd
    case Some(fee) =>
      PostFeeIs(fee, amountLd);
      PostFeeAmount(fee, amountLd).value
  }

  /** The offered amount in whole shared units, before the bridge's fee. */
  function WholeUnits(amountLd: u64, oftType: OftType, rate: Rate, mintFee: Option<TransferFee>): u64
    requires Honest(mintFee)
  {
    Ld2Sd(rate, if oftType.Adapter? then Arriving(mintFee, amountLd) else amountLd)
  }

  /** With `k` whole units offered and a fee of `bps`, the bridge keeps floor(k * bps / 10000) units
      and delivers the rest, on both kinds of token; the charge never fails. */
  lemma ChargeInWholeUnits(amountLd: u64, oftType: OftType, rate: Rate, defaultFeeBps: u16,
          mintFee: Option<TransferFee>, feeBps: Option<u16>)
    requires Honest(mintFee) && (if feeBps.Some? then feeBps.value else defaultFeeBps) < ONE_IN_BASIS_POINTS
    ensures var r := ComputeFeeAndAdjustAmount(amountLd, oftType, rate, defaultFeeBps, mintFee, feeBps);
            var k := WholeUnits(amountLd, oftType, rate, mintFee);
            var feeUnits := k * (if feeBps.Some? then feeBps.value else defaultFeeBps) / ONE_IN_BASIS_POINTS;
            && r.Ok? && 0 <= feeUnits <= k
            && r.value.oftFeeLd == rate * feeUnits
            && r.value.receivedLd == rate * (k - feeUnits)
  {
    hide Ld2Sd, RemoveDust, GetPreFeeAmountLd, GetPostFeeAmountLd, CalculateFee;
    var k := WholeUnits(amountLd, oftType, rate, mintFee);
    var offeredLd := if oftType.Adapter? then Arriving(mintFee, amountLd) else amountLd;
    var cleanLd := RemoveDust(rate, offeredLd);
    RemoveDustIsWhole(rate, offeredLd);
    CalculateFeeInWholeUnits(rate, k, cleanLd, defaultFeeBps, feeBps);
    if oftType.Adapter? {
      CleanAmountIsAffordable(mintFee, amountLd, cleanLd);
    }
  }

  lemma RemoveDustIsWhole(rate: Rate, amountLd: u64)
    ensures RemoveDust(rate, amountLd) == rate * Ld2Sd(rate, amountLd)
  {
    RemoveDustIs(rate, amountLd);
  }

  lemma CalculateFeeInWholeUnits(rate: Rate, k: nat, cleanLd: u64, defaultFeeBps: u16, feeBps: Option<u16>)
    requires cleanLd == rate * k && EffectiveBps(defaultFeeBps, feeBps) < ONE_IN_BASIS_POINTS
    ensures var feeUnits := k * EffectiveBps(defaultFeeBps, feeBps) / ONE_IN_BASIS_POINTS;
            && 0 <= feeUnits <= k
            && RemoveDust(rate, CalculateFee(cleanLd, defaultFeeBps, feeBps)) == rate * feeUnits <= cleanLd
            && cleanLd - rate * feeUnits == rate * (k - feeUnits)
  {
    hide CalculateFee, RemoveDust;
    FeeInWholeUnits(rate, k, cleanLd, EffectiveBps(defaultFeeBps, feeBps));
    CalculateFeeIsFloor(cleanLd, defaultFeeBps, feeBps);
    assert rate * (k - k * EffectiveBps(defaultFeeBps, feeBps) / ONE_IN_BASIS_POINTS) >= 0;
  }

  lemma CalculateFeeIsFloor(amount: u64, defaultFeeBps: u16, feeBps: Option<u16>)
    requires EffectiveBps(defaultFeeBps, feeBps) < ONE_IN_BASIS_POINTS
    ensures CalculateFee(amount, defaultFeeBps, feeBps)
         == amount * EffectiveBps(defaultFeeBps, feeBps) / ONE_IN_BASIS_POINTS
  {
    var bps := EffectiveBps(defaultFeeBps, feeBps);
    MonotoneProduct(0, bps, amount);
    MonotoneProduct(bps, ONE_IN_BASIS_POINTS, amount);
  }

  /** The fee on `rate * k` local units, cleaned of dust, is the fee on `k` shared units. */
  lemma FeeInWholeUnits(rate: Rate, k: nat, cleanLd: u64, bps: u16)
    requires cleanLd == rate * k && bps < ONE_IN_BASIS_POINTS
    ensures 0 <= cleanLd * bps / ONE_IN_BASIS_POINTS <= cleanLd
    ensures 0 <= k * bps / ONE_IN_BASIS_POINTS <= k
    ensures RemoveDust(rate, cleanLd * bps / ONE_IN_BASIS_POINTS) == rate * (k * bps / ONE_IN_BASIS_POINTS)
    ensures rate * (k - k * bps / ONE_IN_BASIS_POINTS) == cleanLd - rate * (k * bps / ONE_IN_BASIS_POINTS)
  {
    MonotoneProduct(0, bps, cleanLd);
    MonotoneProduct(bps, ONE_IN_BASIS_POINTS, cleanLd);
    MonotoneProduct(0, bps, k);
    MonotoneProduct(bps, ONE_IN_BASIS_POINTS, k);
    assert cleanLd * bps == rate * (k * bps);
    NestedFloor(rate, k * bps, ONE_IN_BASIS_POINTS);
  }

  /** Whose rate counts: a peer's own fee goes before the default, which stands in where a peer has
      none. Either way `bps` out of 10000 of the whole units offered are kept, rounded down. */
  lemma OwnFeeGoesBeforeDefault(amountLd: u64, oftType: OftType, rate: Rate, bps: u16, otherBps: u16,
          mintFee: Option<TransferFee>)
    requires Honest(mintFee) && bps < 10_000
    ensures var k := (if oftType.Adapter? then Arriving(mintFee, amountLd) else amountLd) / rate;
            var own := ComputeFeeAndAdjustAmount(amountLd, oftType, rate, otherBps, mintFee, Some(bps));
            var default := ComputeFeeAndAdjustAmount(amountLd, oftType, rate, bps, mintFee, None);
            && own.Ok? && own == default
            && own.value.oftFeeLd == rate * (k * bps / 10_000)
            && own.value.receivedLd == rate * (k - k * bps / 10_000)
  {
    hide RemoveDust, GetPreFeeAmountLd, GetPostFeeAmountLd, CalculateFee;
    assert EffectiveBps(otherBps, Some(bps)) == bps && EffectiveBps(bps, None) == bps;
    ChargeInWholeUnits(amountLd, oftType, rate, otherBps, mintFee, Some(bps));
    ChargeInWholeUnits(amountLd, oftType, rate, bps, mintFee, None);
  }

  /** A dust-free part of what would arrive can be delivered by sending no more than was offered. */
  lemma CleanAmountIsAffordable(mintFee: Option<TransferFee>, amountLd: u64, cleanLd: u64)
    requires Honest(mintFee) && cleanLd <= Arriving(mintFee, amountLd)
    ensures var sent := GetPreFeeAmountLd(mintFee, cleanLd);
            && sent.Ok? && cleanLd <= sent.value <= amountLd
            && Arriving(mintFee, sent.value) == cleanLd
            && forall y: u64 :: Arriving(mintFee, y) >= cleanLd ==> sent.value <= y
  {
    if mintFee.Some? {
      var fee := mintFee.value;
      PreFeeIsLowerAdjoint(fee, cleanLd, amountLd);
      PreFeeIsExact(fee, cleanLd);
      forall y: u64 | Arriving(mintFee, y) >= cleanLd
        ensures PreFeeAmount(fee, cleanLd).value <= y
      {
        PreFeeIsLowerAdjoint(fee, cleanLd, y);
      }
    }
  }

  /** Adapter charging: the user pays no more than offered, the escrow gains exactly what is
      delivered plus the bridge's fee, no smaller payment would do, and only dust stays behind. */
  lemma AdapterChargeIsExact(amountLd: u64, rate: Rate, defaultFeeBps: u16, mintFee: Option<TransferFee>,
          feeBps: Option<u16>)
    requires Honest(mintFee) && EffectiveBps(defaultFeeBps, feeBps) < ONE_IN_BASIS_POINTS
    ensures var r := ComputeFeeAndAdjustAmount(amountLd, Adapter, rate, defaultFeeBps, mintFee, feeBps);
            && r.Ok? && r.value.sentLd <= amountLd
            && Arriving(mintFee, r.value.sentLd) == r.value.receivedLd + r.value.oftFeeLd
            && (forall y: u64 :: Arriving(mintFee, y) >= r.value.receivedLd + r.value.oftFeeLd ==> r.value.sentLd <= y)
            && r.value.receivedLd + r.value.oftFeeLd <= Arriving(mintFee, amountLd)
            && Arriving(mintFee, amountLd) < r.value.receivedLd + r.value.oftFeeLd + rate
  {
    ChargeInWholeUnits(amountLd, Adapter, rate, defaultFeeBps, mintFee, feeBps);
    CleanAmountIsAffordable(mintFee, amountLd, RemoveDust(rate, Arriving(mintFee, amountLd)));
  }

  /** What is delivered rounds in the user's favour, so it is zero only if nothing whole was offered. */
  lemma ReceivedRoundsUp(amountLd: u64, oftType: OftType, rate: Rate, defaultFeeBps: u16,
          mintFee: Option<TransferFee>, feeBps: Option<u16>)
    requires Honest(mintFee) && (if feeBps.Some? then feeBps.value else defaultFeeBps) < ONE_IN_BASIS_POINTS
    ensures var r := ComputeFeeAndAdjustAmount(amountLd, oftType, rate, defaultFeeBps, mintFee, feeBps);
            var k := WholeUnits(amountLd, oftType, rate, mintFee);
            var kept := ONE_IN_BASIS_POINTS - (if feeBps.Some? then feeBps.value else defaultFeeBps);
            && r.Ok?
            && r.value.receivedLd == rate * ((k * kept + ONE_IN_BASIS_POINTS - 1) / ONE_IN_BASIS_POINTS)
            && (r.value.receivedLd > 0 <==> k > 0)
  {
    hide ComputeFeeAndAdjustAmount, WholeUnits;
    ChargeInWholeUnits(amountLd, oftType, rate, defaultFeeBps, mintFee, feeBps);
    KeptRoundsUp(rate, WholeUnits(amountLd, oftType, rate, mintFee), EffectiveBps(defaultFeeBps, feeBps));
  }

  lemma KeptRoundsUp(rate: Rate, k: nat, bps: u16)
    requires bps < ONE_IN_BASIS_POINTS
    ensures var units := k - k * bps / ONE_IN_BASIS_POINTS;
            && units == (k * (ONE_IN_BASIS_POINTS - bps) + ONE_IN_BASIS_POINTS - 1) / ONE_IN_BASIS_POINTS
            && (rate * units > 0 <==> k > 0)
  {
    DistributeDifference(ONE_IN_BASIS_POINTS, bps, k);
    MonotoneProduct(1, ONE_IN_BASIS_POINTS - bps, k);
    PositiveProduct(rate, k - k * bps / ONE_IN_BASIS_POINTS);
  }

  lemma PositiveProduct(rate: Rate, units: int)
    ensures units > 0 ==> rate * units > 0
    ensures units == 0 ==> rate * units == 0
  {
  }

  /** Offering more never delivers less. */
  lemma ReceivedIsMonotone(lessLd: u64, moreLd: u64, oftType: OftType, rate: Rate, defaultFeeBps: u16,
          mintFee: Option<TransferFee>, feeBps: Option<u16>)
    requires Honest(mintFee) && EffectiveBps(defaultFeeBps, feeBps) < ONE_IN_BASIS_POINTS
    requires lessLd <= moreLd
    ensures var less := ComputeFeeAndAdjustAmount(lessLd, oftType, rate, defaultFeeBps, mintFee, feeBps);
            var more := ComputeFeeAndAdjustAmount(moreLd, oftType, rate, defaultFeeBps, mintFee, feeBps);
            less.Ok? && more.Ok? && less.value.receivedLd <= more.value.receivedLd
  {
    hide ComputeFeeAndAdjustAmount, Arriving;
    ReceivedRoundsUp(lessLd, oftType, rate, defaultFeeBps, mintFee, feeBps);
    ReceivedRoundsUp(moreLd, oftType, rate, defaultFeeBps, mintFee, feeBps);
    ArrivingIsMonotone(mintFee, lessLd, moreLd);
    var offered := if oftType.Adapter? then Arriving(mintFee, lessLd) else lessLd;
    var offered' := if oftType.Adapter? then Arriving(mintFee, moreLd) else moreLd;
    KeptIsMonotone(rate, offered, offered', ONE_IN_BASIS_POINTS - EffectiveBps(defaultFeeBps, feeBps));
  }

  lemma KeptIsMonotone(rate: Rate, offered: u64, offered': u64, kept: nat)
    requires offered <= offered'
    ensures rate * ((Ld2Sd(rate, offered) * kept + ONE_IN_BASIS_POINTS - 1) / ONE_IN_BASIS_POINTS)
         <= rate * ((Ld2Sd(rate, offered') * kept + ONE_IN_BASIS_POINTS - 1) / ONE_IN_BASIS_POINTS)
  {
    var k, k' := Ld2Sd(rate, offered), Ld2Sd(rate, offered');
    FloorAdjoint(offered, rate, k);
    FloorAdjoint(offered', rate, k);
    MonotoneProduct(k, k', kept);
    MonotoneProduct((k * kept + ONE_IN_BASIS_POINTS - 1) / ONE_IN_BASIS_POINTS,
                    (k' * kept + ONE_IN_BASIS_POINTS - 1) / ONE_IN_BASIS_POINTS, rate);
  }

  lemma ArrivingIsMonotone(mintFee: Option<TransferFee>, lessLd: u64, moreLd: u64)
    requires Honest(mintFee) && lessLd <= moreLd
    ensures Arriving(mintFee, lessLd) <= Arriving(mintFee, moreLd)
  {
    hide PostFeeAmount, PreFeeAmount;
    if mintFee.Some? {
      PreFeeIsLowerAdjoint(mintFee.value, Arriving(mintFee, lessLd), lessLd);
      PreFeeIsLowerAdjoint(mintFee.value, Arriving(mintFee, lessLd), moreLd);
    }
  }

  /** For every configuration, reachable or not: a charge that succeeds splits what is sent into
      delivery, bridge fee and a non-negative transfer fee. */
  lemma ChargeSplits(amountLd: u64, oftType: OftType, rate: Rate, defaultFeeBps: u16,
          mintFee: Option<TransferFee>, feeBps: Option<u16>)
    ensures var r := ComputeFeeAndAdjustAmount(amountLd, oftType, rate, defaultFeeBps, mintFee, feeBps);
            r.Ok? ==> r.value.receivedLd + r.value.oftFeeLd <= r.value.sentLd
  {
    if oftType.Adapter? && mintFee.Some? && GetPostFeeAmountLd(mintFee, amountLd).Ok? {
      var cleanLd := RemoveDust(rate, GetPostFeeAmountLd(mintFee, amountLd).value);
      if mintFee.value.Valid() && PreFeeAmount(mintFee.value, cleanLd).Some? {
        PreFeeIsExact(mintFee.value, cleanLd);
      }
    }
  }

  lemma NativeChargeSplits(amountLd: u64, rate: Rate, defaultFeeBps: u16, mintFee: Option<TransferFee>,
          feeBps: Option<u16>)
    ensures var r := ComputeFeeAndAdjustAmount(amountLd, Native, rate, defaultFeeBps, mintFee, feeBps);
            r.Ok? ==> r.value.receivedLd + r.value.oftFeeLd == r.value.sentLd <= amountLd
  {
    hide RemoveDust, CalculateFee;
  }

  /** The two descriptions a fee entry can carry. */
  datatype FeeDescription = Token2022TransferFee | CrossChainFee

  datatype FeeDetail = FeeDetail(feeAmountLd: u64, description: FeeDescription)

  datatype OftQuote = OftQuote(minAmountLd: u64, maxAmountLd: u64, feeDetails: seq<FeeDetail>,
                               amountSentLd: u64, amountReceivedLd: u64)

  function FeeOf(d: FeeDetail): nat {
    d.feeAmountLd
  }

  function TotalFees(details: seq<FeeDetail>): nat {
    Total(FeeOf, details)
  }

  /** The bridge's fee is listed as such, and the rest of what does not arrive as the token's. */
  ghost predicate Lists(details: seq<FeeDetail>, charge: Charge) {
    && (forall d :: d in details ==>
          d.feeAmountLd == match d.description
                           case Token2022TransferFee => charge.sentLd - charge.receivedLd - charge.oftFeeLd
                           case CrossChainFee => charge.oftFeeLd)
    && (charge.oftFeeLd > 0 <==> exists d :: d in details && d.description.CrossChainFee?)
    && (charge.receivedLd + charge.oftFeeLd < charge.sentLd
        <==> exists d :: d in details && d.description.Token2022TransferFee?)
    && |details| <= 2 && (|details| == 2 ==> details[0].description.Token2022TransferFee?)
  }

  /** The two fee entries that `QuoteOFT::apply` lists, each only when positive. */
  method ListFees(charge: Charge) returns (details: seq<FeeDetail>)
    requires charge.receivedLd + charge.oftFeeLd <= charge.sentLd
    ensures TotalFees(details) + charge.receivedLd == charge.sentLd
    ensures forall d :: d in details ==> d.feeAmountLd > 0
    ensures Lists(details, charge)
  {
    hide Total;
    details := [];
    TotalOfNone(FeeOf);
    if charge.receivedLd + charge.oftFeeLd < charge.sentLd {
      var transferFee := FeeDetail(charge.sentLd - charge.oftFeeLd - charge.receivedLd, Token2022TransferFee);
      TotalWith(FeeOf, details, transferFee);
      details := details + [transferFee];
    }
    if charge.oftFeeLd > 0 {
      var crossChainFee := FeeDetail(charge.oftFeeLd, CrossChainFee);
      TotalWith(FeeOf, details, crossChainFee);
      details := details + [crossChainFee];
    }
  }

  /** `QuoteOFT::apply`: the listed fees and the delivery add up to exactly what is sent. */
  method QuoteOft(paused: bool, amountLd: u64, minAmountLd: u64, oftType: OftType, rate: Rate, defaultFeeBps: u16,
          mintFee: Option<TransferFee>, feeBps: Option<u16>) returns (r: Result<OftQuote>)
    ensures var charge := ComputeFeeAndAdjustAmount(amountLd, oftType, rate, defaultFeeBps, mintFee, feeBps);
            && (paused ==> r == Err(Paused))
            && (!paused && charge.Err? ==> r == Err(charge.error))
            && (!paused && charge.Ok? && charge.value.receivedLd < minAmountLd ==> r == Err(SlippageExceeded))
            && (!paused && charge.Ok? && charge.value.receivedLd >= minAmountLd ==>
                  && r.Ok? && r.value.amountReceivedLd == charge.value.receivedLd
                  && r.value.amountSentLd == charge.value.sentLd
                  && Lists(r.value.feeDetails, charge.value))
    ensures r.Ok? ==> TotalFees(r.value.feeDetails) + r.value.amountReceivedLd == r.value.amountSentLd
    ensures r.Ok? ==> r.value.minAmountLd == 0 && r.value.maxAmountLd == U64_LIMIT - 1
    ensures r.Ok? ==> forall d :: d in r.value.feeDetails ==> d.feeAmountLd > 0
  {
    hide Ld2Sd, RemoveDust, GetPreFeeAmountLd, GetPostFeeAmountLd, CalculateFee, ComputeFeeAndAdjustAmount;
    if paused {
      return Err(Paused);
    }
    var charge :- ComputeFeeAndAdjustAmount(amountLd, oftType, rate, defaultFeeBps, mintFee, feeBps);
    if charge.receivedLd < minAmountLd {
      return Err(SlippageExceeded);
    }
    ChargeSplits(amountLd, oftType, rate, defaultFeeBps, mintFee, feeBps);
    var details := ListFees(charge);
    return Ok(OftQuote(0, U64_LIMIT - 1, details, charge.sentLd, charge.receivedLd));
  }
}
