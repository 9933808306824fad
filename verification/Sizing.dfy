/** Exit levels, position sizing from the stop distance, and the bracket order that is typed
    into the broker: what the printed order can lose. */
module Sizing {
  import opened Lists
  import opened Rounding
  import opened Reals

  datatype Method = AtrAdjusted | FixedPct

  datatype ExitLevels = ExitLevels(
    stopLoss: real, stopDistancePct: real, takeProfit: real, targetDistancePct: real, rrRatio: real, how: Method)

  const ATR_MULTIPLIER := 1.5
  const RR_FLOOR := 2.0

  /** Stop and target percentages when no ATR is known. */
  function FixedPcts(strategyType: string): (real, real) {
    if strategyType == "mean_reversion" then (0.010, 0.020)
    else if strategyType == "event_driven" then (0.020, 0.040)
    else if strategyType == "liquidity_hunt" then (0.025, 0.050)
    else (0.015, 0.030)
  }

  function ComputeExitLevels(entry: real, atr: Option<real>, strategyType: string): Option<ExitLevels> {
    if entry <= 0.0 then None
    else if atr.Some? && atr.value > 0.0 then
      var stop := atr.value * ATR_MULTIPLIER;
      var target := stop * RR_FLOOR;
      Some(ExitLevels(Round(entry - stop, 10000.0), stop / entry, Round(entry + target, 10000.0), target / entry,
                      RR_FLOOR, AtrAdjusted))
    else
      var (stopPct, targetPct) := FixedPcts(strategyType);
      Some(ExitLevels(Round(entry * (1.0 - stopPct), 10000.0), stopPct, Round(entry * (1.0 + targetPct), 10000.0), targetPct,
                      if stopPct > 0.0 then targetPct / stopPct else 0.0, FixedPct))
  }

  datatype Position = Position(shares: nat, notionalUsd: real, notionalGbp: real, maxLossGbp: real, stopGbp: real)

  /** Shares from the risk budget and the stop distance; None when an input is not positive or
      the budget does not cover one share. */
  function ComputeSizing(entry: real, stopUsd: real, account: real, risk: real, fx: real): Option<Position> {
    if entry <= 0.0 || stopUsd <= 0.0 || account <= 0.0 || risk <= 0.0 || fx <= 0.0 then None
    else
      QuotientPositive(stopUsd, fx);
      var budget, stopGbp := account * risk, stopUsd / fx;
      var shares := (budget / stopGbp).Floor;
      if shares <= 0 then None
      else Some(Position(shares, shares as real * entry, shares as real * entry / fx, budget, stopGbp))
  }

  datatype Bracket = Bracket(quantity: nat, limit: real, target: real, stop: real)

  function BuildOrder(entry: real, levels: ExitLevels, quantity: nat): Bracket {
    Bracket(quantity, Round(entry, 100.0), Round(levels.takeProfit, 100.0), Round(levels.stopLoss, 100.0))
  }

  function StopDistance(entry: real, levels: ExitLevels): real {
    if entry - levels.stopLoss > 0.0 then entry - levels.stopLoss else 0.0
  }

  datatype Card = Card(position: Position, order: Bracket)

  /** A BUY row's card: levels, then the distance to the rounded stop, then the size, then the
      order. */
  function SizeRow(entry: real, atr: Option<real>, strategyType: string, account: real, risk: real, fx: real): Option<Card> {
    match ComputeExitLevels(entry, atr, strategyType)
    case None => None
    case Some(levels) =>
      match ComputeSizing(entry, StopDistance(entry, levels), account, risk, fx)
      case None => None
      case Some(position) => Some(Card(position, BuildOrder(entry, levels, position.shares)))
  }

  // ---------------------------------------------------------------- the size

  function Loss(shares: int, perShare: real): real {
    shares as real * perShare
  }

  /** A quotient's floor is the largest whole multiplier within the dividend. */
  lemma FloorIsLargest(budget: real, unit: real, shares: int)
    requires unit > 0.0
    ensures Loss(shares, unit) <= budget <==> shares <= (budget / unit).Floor
  {
    var q := budget / unit;
    assert q * unit == budget;
    CancelFactor(shares as real, q, unit);
  }

  lemma SharesTimes(shares: nat, x: real)
    ensures Loss(shares, x) == shares as real * x
  {
  }

  lemma QuotientPositive(x: real, y: real)
    requires x > 0.0 && y > 0.0
    ensures x / y > 0.0
  {
    CancelFactor(0.0, x / y, y);
  }

  /** The suggested size is the largest whole number of shares whose loss at the stop stays
      within the budget; there is no size exactly when an input is not positive or even one
      share would exceed the budget. */
  lemma SizeIsLargestWithinBudget(entry: real, stopUsd: real, account: real, risk: real, fx: real, shares: int)
    ensures var r := ComputeSizing(entry, stopUsd, account, risk, fx);
            && (r.Some? ==> (Loss(shares, stopUsd / fx) <= account * risk <==> shares <= r.value.shares)
                            && r.value.maxLossGbp == account * risk && r.value.stopGbp == stopUsd / fx
                            && r.value.notionalUsd == Loss(r.value.shares, entry)
                            && Times(r.value.notionalGbp, fx) == r.value.notionalUsd)
            && (r.Some? <==> entry > 0.0 && stopUsd > 0.0 && account > 0.0 && risk > 0.0 && fx > 0.0
                             && Loss(1, stopUsd / fx) <= account * risk)
  {
    hide Loss;
    var r := ComputeSizing(entry, stopUsd, account, risk, fx);
    if r.Some? {
      SharesTimes(r.value.shares, entry);
      TimesQuotient(r.value.shares as real * entry, fx);
    }
    if stopUsd > 0.0 && fx > 0.0 {
      QuotientPositive(stopUsd, fx);
      FloorIsLargest(account * risk, stopUsd / fx, shares);
      FloorIsLargest(account * risk, stopUsd / fx, 1);
    }
  }

  // ---------------------------------------------------------------- reward against risk

  /** The pre-trade gate: levels exist and their reward/risk ratio reaches the floor. */
  predicate GateCheckRr(levels: Option<ExitLevels>) {
    levels.Some? && levels.value.rrRatio >= RR_FLOOR
  }

  lemma RoundedToTicks(x: real)
    ensures x - 0.00005 <= Round(x, 10000.0) <= x + 0.00005
  {
    hide Round;
    RoundedWithin(x, 10000.0);
  }

  lemma TwiceTheRisk(entry: real, stop: real)
    ensures var sl, tp := Round(entry - stop, 10000.0), Round(entry + stop * RR_FLOOR, 10000.0);
            -0.00015 <= (tp - entry) - RR_FLOOR * (entry - sl) <= 0.00015
  {
    RoundedToTicks(entry - stop);
    RoundedToTicks(entry + stop * RR_FLOOR);
  }

  /** Levels exist exactly for a positive entry price, always pass the gate, and put the target
      twice as far away as the stop, to within the rounding of the two prices. */
  lemma LevelsRewardTwiceTheRisk(entry: real, atr: Option<real>, strategyType: string)
    ensures var levels := ComputeExitLevels(entry, atr, strategyType);
            && (levels.Some? <==> entry > 0.0)
            && (GateCheckRr(levels) <==> entry > 0.0)
            && (entry > 0.0 ==>
                  -0.00015 <= (levels.value.takeProfit - entry) - RR_FLOOR * (entry - levels.value.stopLoss) <= 0.00015)
  {
    hide Round;
    if entry > 0.0 {
      if atr.Some? && atr.value > 0.0 {
        TwiceTheRisk(entry, atr.value * ATR_MULTIPLIER);
      } else {
        var stopPct := FixedPcts(strategyType).0;
        TwiceTheRisk(entry, entry * stopPct);
        assert entry * (1.0 - stopPct) == entry - entry * stopPct;
        assert entry * (1.0 + FixedPcts(strategyType).1) == entry + entry * stopPct * RR_FLOOR;
      }
    }
  }

  /** Stop and target are so far from the entry, to within half a tick, and the recorded
      percentages are those distances as shares of the entry. */
  predicate AreLevels(levels: ExitLevels, entry: real, stop: real) {
    && -0.00005 <= levels.stopLoss - (entry - stop) <= 0.00005
    && -0.00005 <= levels.takeProfit - (entry + 2.0 * stop) <= 0.00005
    && Times(levels.stopDistancePct, entry) == stop
    && Times(levels.targetDistancePct, entry) == 2.0 * stop
    && levels.rrRatio == 2.0
  }

  /** The levels are 1.5 and 3 ATR away where an ATR is known; otherwise 1% and 2% for mean
      reversion, 2% and 4% for event driven, 2.5% and 5% for liquidity hunts, and 1.5% and 3% for
      anything else. */
  lemma LevelsMean(entry: real, atr: Option<real>, strategyType: string)
    requires entry > 0.0
    ensures var levels := ComputeExitLevels(entry, atr, strategyType);
            && levels.Some?
            && if atr.Some? && atr.value > 0.0 then
                 levels.value.how == AtrAdjusted && AreLevels(levels.value, entry, 1.5 * atr.value)
               else
                 && levels.value.how == FixedPct
                 && AreLevels(levels.value, entry, Times(entry, match strategyType
                                                                case "mean_reversion" => 0.01
                                                                case "event_driven" => 0.02
                                                                case "liquidity_hunt" => 0.025
                                                                case _ => 0.015))
  {
    hide Round, Times, AreLevels;
    if atr.Some? && atr.value > 0.0 {
      AtrLevels(entry, atr.value, strategyType);
    } else {
      FixedLevels(entry, atr, strategyType);
    }
  }

  lemma AtrLevels(entry: real, atr: real, strategyType: string)
    requires entry > 0.0 && atr > 0.0
    ensures var levels := ComputeExitLevels(entry, Some(atr), strategyType);
            levels.Some? && AreLevels(levels.value, entry, 1.5 * atr)
  {
    hide Round, Times;
    var stop := 1.5 * atr;
    RoundedWithin(entry - stop, 10000.0);
    RoundedWithin(entry + stop * RR_FLOOR, 10000.0);
    TimesQuotient(stop, entry);
    TimesQuotient(stop * RR_FLOOR, entry);
  }

  lemma FixedLevels(entry: real, atr: Option<real>, strategyType: string)
    requires entry > 0.0 && (atr.None? || atr.value <= 0.0)
    ensures var levels := ComputeExitLevels(entry, atr, strategyType);
            levels.Some? && AreLevels(levels.value, entry, Times(entry, FixedPcts(strategyType).0))
  {
    hide Round;
    var (stopPct, targetPct) := FixedPcts(strategyType);
    RoundedWithin(entry * (1.0 - stopPct), 10000.0);
    RoundedWithin(entry * (1.0 + targetPct), 10000.0);
    FixedDistances(entry, stopPct, targetPct);
  }

  lemma FixedDistances(entry: real, stopPct: real, targetPct: real)
    requires targetPct == 2.0 * stopPct && stopPct > 0.0
    ensures entry * (1.0 - stopPct) == entry - Times(entry, stopPct)
    ensures entry * (1.0 + targetPct) == entry + 2.0 * Times(entry, stopPct)
    ensures Times(stopPct, entry) == Times(entry, stopPct) && Times(targetPct, entry) == 2.0 * Times(entry, stopPct)
    ensures targetPct / stopPct == 2.0
  {
  }

  // ---------------------------------------------------------------- the printed order

  lemma RoundedToCents(x: real)
    ensures x - 0.005 <= Round(x, 100.0) <= x + 0.005
  {
    hide Round;
    RoundedWithin(x, 100.0);
  }

  /** The printed order: the share count, and limit, target and stop within half a cent of the
      entry, the take-profit and the stop-loss. */
  lemma OrderMeans(entry: real, levels: ExitLevels, quantity: nat)
    ensures var order := BuildOrder(entry, levels, quantity);
            && order.quantity == quantity
            && -0.005 <= order.limit - entry <= 0.005
            && -0.005 <= order.target - levels.takeProfit <= 0.005
            && -0.005 <= order.stop - levels.stopLoss <= 0.005
  {
    hide Round;
    RoundedWithin(entry, 100.0);
    RoundedWithin(levels.takeProfit, 100.0);
    RoundedWithin(levels.stopLoss, 100.0);
  }

  /** Rounding entry and stop to cents widens the printed stop distance by at most a cent. */
  lemma PrintedDistance(entry: real, levels: ExitLevels, quantity: nat)
    ensures var order := BuildOrder(entry, levels, quantity);
            order.limit - order.stop <= StopDistance(entry, levels) + 0.01
  {
    RoundedToCents(entry);
    RoundedToCents(levels.stopLoss);
  }

  /** What the printed order loses between its limit and its stop, in the home currency. */
  function PrintedLossGbp(order: Bracket, fx: real): real
    requires fx > 0.0
  {
    Loss(order.quantity, (order.limit - order.stop) / fx)
  }

  lemma LossIsMonotone(shares: nat, x: real, y: real)
    requires x <= y
    ensures Loss(shares, x) <= Loss(shares, y)
  {
    if shares > 0 {
      CancelFactor(x, y, shares as real);
    }
  }

  lemma LossAdds(shares: nat, x: real, y: real)
    ensures Loss(shares, x + y) == Loss(shares, x) + Loss(shares, y)
  {
    Distribute(shares as real, x, y);
  }

  lemma QuotientMonotone(x: real, y: real, z: real, fx: real)
    requires fx > 0.0 && x <= y + z
    ensures x / fx <= y / fx + z / fx
  {
    CancelFactor(y / fx + z / fx, x / fx, fx);
    Distribute(fx, y / fx, z / fx);
  }

  /** End to end: the order a card prints can lose at most the risk budget plus one cent a
      share, and one more share would have put the unrounded loss over the budget. */
  lemma CardRespectsBudget(entry: real, atr: Option<real>, strategyType: string, account: real, risk: real, fx: real)
    requires SizeRow(entry, atr, strategyType, account, risk, fx).Some?
    ensures fx > 0.0
    ensures var card := SizeRow(entry, atr, strategyType, account, risk, fx).value;
            && card.order.quantity == card.position.shares > 0
            && PrintedLossGbp(card.order, fx) <= account * risk + Loss(card.order.quantity, 0.01 / fx)
            && Loss(card.order.quantity + 1, card.position.stopGbp) > account * risk
  {
    hide Loss, ComputeSizing, ComputeExitLevels, Round;
    var levels := ComputeExitLevels(entry, atr, strategyType).value;
    var distance := StopDistance(entry, levels);
    var card := SizeRow(entry, atr, strategyType, account, risk, fx).value;
    var shares := card.position.shares;
    SizeIsLargestWithinBudget(entry, distance, account, risk, fx, shares);
    SizeIsLargestWithinBudget(entry, distance, account, risk, fx, shares + 1);
    SizeIsLargestWithinBudget(entry, distance, account, risk, fx, 1);
    PrintedDistance(entry, levels, shares);
    QuotientMonotone(card.order.limit - card.order.stop, distance, 0.01, fx);
    LossIsMonotone(shares, (card.order.limit - card.order.stop) / fx, distance / fx + 0.01 / fx);
    LossAdds(shares, distance / fx, 0.01 / fx);
  }

  /** A card exists exactly when the rounded stop lies below the entry, account, risk and rate are
      positive and one share's loss down to that stop fits the budget; its order is for the
      suggested shares, at the levels. */
  lemma CardExistsIff(entry: real, atr: Option<real>, strategyType: string, account: real, risk: real, fx: real)
    ensures var levels, card := ComputeExitLevels(entry, atr, strategyType), SizeRow(entry, atr, strategyType, account, risk, fx);
            && (card.Some?
                <==> entry > 0.0 && levels.Some? && levels.value.stopLoss < entry && account > 0.0 && risk > 0.0 && fx > 0.0
                     && Loss(1, (entry - levels.value.stopLoss) / fx) <= account * risk)
            && (card.Some? ==> card.value.order == BuildOrder(entry, levels.value, card.value.position.shares))
  {
    hide Loss, ComputeSizing, ComputeExitLevels, Round;
    var levels := ComputeExitLevels(entry, atr, strategyType);
    if levels.Some? {
      SizeIsLargestWithinBudget(entry, StopDistance(entry, levels.value), account, risk, fx, 1);
    }
  }

  /** The bound is reached: an entry of 0.875 with its stop 1.5 ATR of 0.5 below prints as 0.88
      and 0.12, both ties going to the even cent, and loses a cent a share over the budget. */
  lemma ExtraCentIsReached()
    ensures var card := SizeRow(0.875, Some(0.5), "momentum", 7500.0, 0.01, 1.0);
            && card.Some? && card.value.order.quantity == 100
            && card.value.order.limit == 0.88 && card.value.order.stop == 0.12
            && PrintedLossGbp(card.value.order, 1.0) == 7500.0 * 0.01 + Loss(100, 0.01 / 1.0)
  {
    NearestIs(1250.0, 1250);
    NearestIs(87.5, 88);
    NearestIs(12.5, 12);
    assert (75.0 / 0.75).Floor == 100;
  }

  lemma NearestIs(y: real, n: int)
    requires -0.5 <= y - n as real <= 0.5 && (y - n as real == 0.5 || y - n as real == -0.5 ==> n % 2 == 0)
    ensures Nearest(y) == n
  {
  }
}
