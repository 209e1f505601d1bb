/**
 * The decision engine of the lending liquidator: valuing positions in the
 * reference currency, picking a borrower's most valuable collateral, and
 * choosing the single liquidation (repay amount, collateral currency,
 * borrower) to submit for one block.
 */
module Liquidate {
  import opened Wrappers
  import opened Monetary

  type AccountId = string

  /** One collateral currency a borrower has deposited. */
  datatype CollateralPosition = CollateralPosition(amount: MonetaryAmount)

  /** A loan: principal and the interest accrued on it, in one currency. */
  datatype BorrowPosition = BorrowPosition(currency: Currency, amount: Magnitude, accumulatedDebt: Magnitude)

  /** A borrower the lending market reports as undercollateralized. */
  datatype UndercollateralizedPosition = UndercollateralizedPosition(
    accountId: AccountId,
    collateralPositions: seq<CollateralPosition>,
    borrowPositions: seq<BorrowPosition>)

  /** The liquidator's balance in one currency; only `free` can be spent. */
  datatype ChainBalance = ChainBalance(free: Magnitude)

  /**
   * Market parameters of one currency: the close factor in permill and the
   * liquidation incentive (which the strategy does not read).
   */
  datatype LoansMarket = LoansMarket(closeFactor: nat, liquidationIncentive: real)

  datatype CollateralAndValue = CollateralAndValue(collateral: MonetaryAmount, referenceValue: MonetaryAmount)

  /** The triple handed to the liquidation call. */
  datatype Liquidation = Liquidation(repayAmount: MonetaryAmount, collateralCurrency: Currency, borrower: AccountId)

  /** A possible liquidation and the reference value it is ranked by. */
  datatype Scored = Scored(score: real, liquidation: Liquidation)

  type Rates = map<Currency, ExchangeRate>

  /** `rates.get(currency)`: absent when the oracle has no price. */
  function RateOf(rates: Rates, currency: Currency): (r: Option<ExchangeRate>)
    ensures r.Some? <==> currency in rates
  {
    if currency in rates then Some(rates[currency]) else None
  }

  // ---------------------------------------------------------------------
  // Position valuation

  /**
   * The value of `balance` in the reference currency. Without a rate the
   * value is zero, still tagged with the balance's own currency.
   */
  function ReferenceValue(balance: MonetaryAmount, rate: Option<ExchangeRate>): (r: MonetaryAmount)
    ensures rate.None? ==> r == MonetaryAmount(balance.currency, 0.0)
    ensures rate.Some? ==> r.currency == rate.value.base
  {
    match rate
    case None => MonetaryAmount(balance.currency, 0.0)
    case Some(x) => x.ToBase(balance)
  }

  /** With a rate, valuation is linear and monotone in the balance. */
  lemma ReferenceValueIsLinear(a: MonetaryAmount, b: MonetaryAmount, k: Magnitude, rate: ExchangeRate)
    requires a.currency == b.currency
    ensures ReferenceValue(MonetaryAmount(a.currency, a.value + b.value), Some(rate)).value
            == ReferenceValue(a, Some(rate)).value + ReferenceValue(b, Some(rate)).value
    ensures ReferenceValue(MonetaryAmount(a.currency, k * a.value), Some(rate)).value
            == k * ReferenceValue(a, Some(rate)).value
    ensures a.value <= b.value ==> ReferenceValue(a, Some(rate)).value <= ReferenceValue(b, Some(rate)).value
    ensures ReferenceValue(a, Some(rate)).value == 0.0 <==> a.value == 0.0
  {
    var q := rate.basePerCounter;
    assert (a.value + b.value) * q == a.value * q + b.value * q;
    assert (k * a.value) * q == k * (a.value * q);
    if a.value <= b.value {
      var d := b.value - a.value;
      assert 0.0 <= d * q;
      assert b.value * q == a.value * q + d * q;
    }
    if a.value > 0.0 {
      assert a.value * q > 0.0;
    }
  }

  // ---------------------------------------------------------------------
  // Collateral selection

  /** The reference value of one collateral position. */
  function PositionValue(position: CollateralPosition, rates: Rates): real {
    ReferenceValue(position.amount, RateOf(rates, position.amount.currency)).value
  }

  function Valuation(position: CollateralPosition, rates: Rates): CollateralAndValue {
    CollateralAndValue(position.amount, ReferenceValue(position.amount, RateOf(rates, position.amount.currency)))
  }

  /** One step of the fold: `previous` survives only when strictly more valuable. */
  function Keep(previous: CollateralAndValue, current: CollateralPosition, rates: Rates): (r: CollateralAndValue)
    ensures r == previous || r == Valuation(current, rates)
    ensures r.referenceValue.value >= previous.referenceValue.value
    ensures r.referenceValue.value >= PositionValue(current, rates)
  {
    var liquidatableValue := ReferenceValue(current.amount, RateOf(rates, current.amount.currency));
    if previous.referenceValue.value > liquidatableValue.value then previous
    else CollateralAndValue(current.amount, liquidatableValue)
  }

  /** `positions.reduce(Keep, acc)`, left to right. */
  function Fold(positions: seq<CollateralPosition>, rates: Rates, acc: CollateralAndValue): (r: CollateralAndValue)
    ensures r.referenceValue.value >= acc.referenceValue.value
    ensures forall m :: 0 <= m < |positions| ==> PositionValue(positions[m], rates) <= r.referenceValue.value
    decreases |positions|
  {
    if positions == [] then acc else Fold(positions[1..], rates, Keep(acc, positions[0], rates))
  }

  /**
   * The borrower's collateral with the highest reference value, absent
   * exactly when the borrower has no collateral position.
   */
  function FindHighestValueCollateral(positions: seq<CollateralPosition>, rates: Rates): (r: Option<CollateralAndValue>)
    ensures r.None? <==> positions == []
  {
    if |positions| == 0 then None
    else
      var first := positions[0].amount.currency;
      var defaultValue := CollateralAndValue(
        positions[0].amount,
        ReferenceValue(MonetaryAmount(first, 0.0), RateOf(rates, first)));
      Some(Fold(positions, rates, defaultValue))
  }

  /**
   * What a fold returns: either the accumulator, when every position is
   * worth strictly less, or the LAST position among those of maximal value,
   * which is worth at least the accumulator.
   */
  lemma {:induction false} FoldWinner(positions: seq<CollateralPosition>, rates: Rates, acc: CollateralAndValue)
    returns (k: int)
    ensures -1 <= k < |positions|
    ensures k == -1 ==>
      Fold(positions, rates, acc) == acc &&
      forall m :: 0 <= m < |positions| ==> PositionValue(positions[m], rates) < acc.referenceValue.value
    ensures 0 <= k ==>
      Fold(positions, rates, acc) == Valuation(positions[k], rates) &&
      acc.referenceValue.value <= PositionValue(positions[k], rates) &&
      (forall m :: 0 <= m < |positions| ==> PositionValue(positions[m], rates) <= PositionValue(positions[k], rates)) &&
      (forall m :: k < m < |positions| ==> PositionValue(positions[m], rates) < PositionValue(positions[k], rates))
    decreases |positions|
  {
    if positions == [] {
      k := -1;
    } else {
      var next := Keep(acc, positions[0], rates);
      var rest := positions[1..];
      var k' := FoldWinner(rest, rates, next);
      assert forall m :: 1 <= m < |positions| ==> positions[m] == rest[m - 1];
      if k' == -1 {
        k := if acc.referenceValue.value > PositionValue(positions[0], rates) then -1 else 0;
      } else {
        k := k' + 1;
      }
    }
  }

  /**
   * For a non-empty list the chosen collateral is a listed position, is
   * worth at least every position, and is the last one of maximal value.
   */
  lemma HighestValueCollateralIsLastMaximum(positions: seq<CollateralPosition>, rates: Rates) returns (k: nat)
    requires positions != []
    ensures k < |positions|
    ensures FindHighestValueCollateral(positions, rates) == Some(Valuation(positions[k], rates))
    ensures forall m :: 0 <= m < |positions| ==> PositionValue(positions[m], rates) <= PositionValue(positions[k], rates)
    ensures forall m :: k < m < |positions| ==> PositionValue(positions[m], rates) < PositionValue(positions[k], rates)
  {
    var first := positions[0].amount.currency;
    var defaultValue := CollateralAndValue(
      positions[0].amount,
      ReferenceValue(MonetaryAmount(first, 0.0), RateOf(rates, first)));
    assert defaultValue.referenceValue.value == 0.0;
    var w := FoldWinner(positions, rates, defaultValue);
    assert 0.0 <= PositionValue(positions[0], rates);
    k := w;
  }

  // ---------------------------------------------------------------------
  // Liquidation strategy

  /** The inputs of one strategy evaluation, as fetched for one block. */
  datatype Snapshot = Snapshot(
    liquidatorBalance: map<Currency, ChainBalance>,
    oracleRates: Rates,
    borrowers: seq<UndercollateralizedPosition>,
    markets: map<Currency, LoansMarket>)

  /** Principal plus accrued interest, in the loan's currency. */
  function TotalDebt(loan: BorrowPosition): (r: MonetaryAmount)
    ensures r.currency == loan.currency
    ensures r.value >= loan.amount && r.value >= loan.accumulatedDebt
  {
    MonetaryAmount(loan.currency, loan.amount + loan.accumulatedDebt)
  }

  /** Every loan the liquidator could repay has a market entry. */
  ghost predicate MarketsCover(s: Snapshot) {
    forall i, j ::
      (0 <= i < |s.borrowers| && 0 <= j < |s.borrowers[i].borrowPositions| &&
       s.borrowers[i].borrowPositions[j].currency in s.liquidatorBalance) ==>
      s.borrowers[i].borrowPositions[j].currency in s.markets
  }

  /**
   * The liquidation that repaying `loan` of `position` would be and its
   * score, or none when the borrower has no collateral or the liquidator
   * holds no balance in the loan's currency.
   */
  function LoanCandidate(s: Snapshot, position: UndercollateralizedPosition, loan: BorrowPosition): (r: Option<Scored>)
    requires loan.currency in s.liquidatorBalance ==> loan.currency in s.markets
    ensures r.Some? <==> position.collateralPositions != [] && loan.currency in s.liquidatorBalance
    ensures r.Some? ==> (
      var highest := FindHighestValueCollateral(position.collateralPositions, s.oracleRates).value;
      var repay := r.value.liquidation.repayAmount;
      var debtCap := TotalDebt(loan).Mul(DecodePermill(s.markets[loan.currency].closeFactor)).value;
      var free := s.liquidatorBalance[loan.currency].free;
      && r.value.liquidation.borrower == position.accountId
      && r.value.liquidation.collateralCurrency == highest.collateral.currency
      && repay.currency == loan.currency
      && repay.value <= free && repay.value <= debtCap
      && (repay.value == free || repay.value == debtCap)
      && r.value.score <= highest.referenceValue.value
      && r.value.score <= ReferenceValue(repay, RateOf(s.oracleRates, loan.currency)).value
      && (r.value.score == highest.referenceValue.value ||
          r.value.score == ReferenceValue(repay, RateOf(s.oracleRates, loan.currency)).value))
  {
    match FindHighestValueCollateral(position.collateralPositions, s.oracleRates)
    case None => None
    case Some(highest) =>
      var totalDebt := TotalDebt(loan);
      if totalDebt.currency !in s.liquidatorBalance then None
      else
        var closeFactor := DecodePermill(s.markets[totalDebt.currency].closeFactor);
        var free := s.liquidatorBalance[totalDebt.currency].free;
        var repayable := MonetaryAmount(totalDebt.currency, Min(totalDebt.Mul(closeFactor).value, free));
        var referenceRepayable := Min(
          ReferenceValue(repayable, RateOf(s.oracleRates, totalDebt.currency)).value,
          highest.referenceValue.value);
        Some(Scored(referenceRepayable, Liquidation(repayable, highest.collateral.currency, position.accountId)))
  }

  ghost predicate InScope(s: Snapshot, i: int, j: int) {
    0 <= i < |s.borrowers| && 0 <= j < |s.borrowers[i].borrowPositions|
  }

  /** Candidate of borrower `i`'s loan `j`. */
  function CandidateAt(s: Snapshot, i: int, j: int): Option<Scored>
    requires MarketsCover(s) && InScope(s, i, j)
  {
    LoanCandidate(s, s.borrowers[i], s.borrowers[i].borrowPositions[j])
  }

  /** Scan order: borrower by borrower, and loan by loan within a borrower. */
  predicate Before(i': int, j': int, i: int, j: int) {
    i' < i || (i' == i && j' < j)
  }

  /** No candidate scores above zero. */
  ghost predicate NoPositiveCandidate(s: Snapshot)
    requires MarketsCover(s)
  {
    forall i, j :: InScope(s, i, j) && CandidateAt(s, i, j).Some? ==> CandidateAt(s, i, j).value.score <= 0.0
  }

  /**
   * Candidate (i, j) scores above zero, at least as high as every candidate,
   * and strictly higher than every candidate scanned before it.
   */
  ghost predicate IsFirstBest(s: Snapshot, i: int, j: int)
    requires MarketsCover(s)
  {
    && InScope(s, i, j)
    && CandidateAt(s, i, j).Some?
    && CandidateAt(s, i, j).value.score > 0.0
    && (forall i', j' :: InScope(s, i', j') && CandidateAt(s, i', j').Some? ==>
          CandidateAt(s, i', j').value.score <= CandidateAt(s, i, j).value.score)
    && (forall i', j' :: InScope(s, i', j') && Before(i', j', i, j) && CandidateAt(s, i', j').Some? ==>
          CandidateAt(s, i', j').value.score < CandidateAt(s, i, j).value.score)
  }

  /**
   * The state of the scan once every candidate before (i, j) is seen:
   * `best` bounds their scores and `result` is the first of them to reach
   * it, found at (bi, bj); no result while `best` is still zero.
   */
  ghost predicate BestBefore(s: Snapshot, i: int, j: int, best: real, result: Option<Liquidation>, bi: int, bj: int)
    requires MarketsCover(s)
  {
    && 0.0 <= best
    && (forall i', j' :: InScope(s, i', j') && Before(i', j', i, j) && CandidateAt(s, i', j').Some? ==>
          CandidateAt(s, i', j').value.score <= best)
    && (result.None? ==> best == 0.0)
    && (result.Some? ==>
          && InScope(s, bi, bj) && Before(bi, bj, i, j)
          && CandidateAt(s, bi, bj) == Some(Scored(best, result.value))
          && 0.0 < best
          && forall i', j' :: InScope(s, i', j') && Before(i', j', bi, bj) && CandidateAt(s, i', j').Some? ==>
               CandidateAt(s, i', j').value.score < best)
  }

  /** Passing over a candidate that does not beat `best`. */
  lemma ScanKeeps(s: Snapshot, i: int, j: int, best: real, result: Option<Liquidation>, bi: int, bj: int)
    requires MarketsCover(s) && InScope(s, i, j) && BestBefore(s, i, j, best, result, bi, bj)
    requires CandidateAt(s, i, j).None? || CandidateAt(s, i, j).value.score <= best
    ensures BestBefore(s, i, j + 1, best, result, bi, bj)
  {
  }

  /** Taking a candidate that strictly beats `best`. */
  lemma ScanTakes(s: Snapshot, i: int, j: int, best: real, result: Option<Liquidation>, bi: int, bj: int)
    requires MarketsCover(s) && InScope(s, i, j) && BestBefore(s, i, j, best, result, bi, bj)
    requires CandidateAt(s, i, j).Some? && CandidateAt(s, i, j).value.score > best
    ensures BestBefore(s, i, j + 1, CandidateAt(s, i, j).value.score, Some(CandidateAt(s, i, j).value.liquidation), i, j)
  {
  }

  /** After a borrower's last loan the scan moves to the next borrower. */
  lemma ScanNextBorrower(s: Snapshot, i: int, best: real, result: Option<Liquidation>, bi: int, bj: int)
    requires MarketsCover(s) && 0 <= i < |s.borrowers|
    requires BestBefore(s, i, |s.borrowers[i].borrowPositions|, best, result, bi, bj)
    ensures BestBefore(s, i + 1, 0, best, result, bi, bj)
  {
  }

  /** A borrower without candidates is skipped as a whole. */
  lemma ScanSkipsBorrower(s: Snapshot, i: int, best: real, result: Option<Liquidation>, bi: int, bj: int)
    requires MarketsCover(s) && 0 <= i < |s.borrowers|
    requires BestBefore(s, i, 0, best, result, bi, bj)
    requires forall j :: 0 <= j < |s.borrowers[i].borrowPositions| ==> CandidateAt(s, i, j).None?
    ensures BestBefore(s, i + 1, 0, best, result, bi, bj)
  {
  }

  /**
   * Scans every borrower and each of its loans and returns the first
   * candidate of highest positive score; none when no candidate scores
   * above zero.
   */
  method LiquidationStrategy(
    liquidatorBalance: map<Currency, ChainBalance>,
    oracleRates: Rates,
    undercollateralizedBorrowers: seq<UndercollateralizedPosition>,
    markets: map<Currency, LoansMarket>)
    returns (result: Option<Liquidation>)
    requires MarketsCover(Snapshot(liquidatorBalance, oracleRates, undercollateralizedBorrowers, markets))
    ensures var s := Snapshot(liquidatorBalance, oracleRates, undercollateralizedBorrowers, markets);
      result.None? <==> NoPositiveCandidate(s)
    ensures var s := Snapshot(liquidatorBalance, oracleRates, undercollateralizedBorrowers, markets);
      result.Some? ==> exists i, j :: IsFirstBest(s, i, j) && CandidateAt(s, i, j).value.liquidation == result.value
    ensures result.Some? ==>
      && result.value.repayAmount.currency in liquidatorBalance
      && result.value.repayAmount.value <= liquidatorBalance[result.value.repayAmount.currency].free
  {
    ghost var s := Snapshot(liquidatorBalance, oracleRates, undercollateralizedBorrowers, markets);
    var maxRepayableLoan: real := 0.0;
    result := None;
    ghost var bi, bj := 0, 0;
    var i := 0;
    while i < |undercollateralizedBorrowers|
      invariant 0 <= i <= |undercollateralizedBorrowers|
      invariant BestBefore(s, i, 0, maxRepayableLoan, result, bi, bj)
    {
      var position := undercollateralizedBorrowers[i];
      var highestValueCollateral := FindHighestValueCollateral(position.collateralPositions, oracleRates);
      if highestValueCollateral.Some? {
        var j := 0;
        while j < |position.borrowPositions|
          invariant 0 <= j <= |position.borrowPositions|
          invariant BestBefore(s, i, j, maxRepayableLoan, result, bi, bj)
        {
          var loan := position.borrowPositions[j];
          var totalDebt := TotalDebt(loan);
          if totalDebt.currency in liquidatorBalance {
            var loansMarket := markets[totalDebt.currency];
            var closeFactor := DecodePermill(loansMarket.closeFactor);
            var balance := liquidatorBalance[totalDebt.currency];
            var rate := RateOf(oracleRates, totalDebt.currency);
            var repayableAmount := MonetaryAmount(totalDebt.currency, Min(totalDebt.Mul(closeFactor).value, balance.free));
            var referenceRepayable := Min(ReferenceValue(repayableAmount, rate).value, highestValueCollateral.value.referenceValue.value);
            var liquidation := Liquidation(repayableAmount, highestValueCollateral.value.collateral.currency, position.accountId);
            assert CandidateAt(s, i, j) == LoanCandidate(s, position, loan);
            assert CandidateAt(s, i, j) == Some(Scored(referenceRepayable, liquidation));
            if referenceRepayable > maxRepayableLoan {
              ScanTakes(s, i, j, maxRepayableLoan, result, bi, bj);
              maxRepayableLoan := referenceRepayable;
              result := Some(liquidation);
              bi, bj := i, j;
            } else {
              ScanKeeps(s, i, j, maxRepayableLoan, result, bi, bj);
            }
          } else {
            assert CandidateAt(s, i, j).None?;
            ScanKeeps(s, i, j, maxRepayableLoan, result, bi, bj);
          }
          j := j + 1;
        }
        ScanNextBorrower(s, i, maxRepayableLoan, result, bi, bj);
      } else {
        assert forall j :: 0 <= j < |position.borrowPositions| ==> CandidateAt(s, i, j).None?;
        ScanSkipsBorrower(s, i, maxRepayableLoan, result, bi, bj);
      }
      i := i + 1;
    }
    if result.Some? {
      assert IsFirstBest(s, bi, bj);
    }
  }

  // ---------------------------------------------------------------------
  // Properties of the selection

  /** At most one candidate is the first best, so the choice is determined. */
  lemma FirstBestIsUnique(s: Snapshot, i1: int, j1: int, i2: int, j2: int)
    requires MarketsCover(s)
    requires IsFirstBest(s, i1, j1) && IsFirstBest(s, i2, j2)
    ensures i1 == i2 && j1 == j2
  {
  }

  /** A positive score needs a priced debt and valuable collateral. */
  lemma PositiveScoreNeedsPricedDebt(s: Snapshot, i: int, j: int)
    requires MarketsCover(s) && InScope(s, i, j)
    requires CandidateAt(s, i, j).Some? && CandidateAt(s, i, j).value.score > 0.0
    ensures s.borrowers[i].borrowPositions[j].currency in s.oracleRates
    ensures FindHighestValueCollateral(s.borrowers[i].collateralPositions, s.oracleRates).value.referenceValue.value > 0.0
    ensures CandidateAt(s, i, j).value.liquidation.repayAmount.value > 0.0
  {
    var loan := s.borrowers[i].borrowPositions[j];
    var c := CandidateAt(s, i, j).value;
    var rate := RateOf(s.oracleRates, loan.currency);
    assert c.score <= ReferenceValue(c.liquidation.repayAmount, rate).value;
    if rate.Some? {
      assert rate.value.ToBase(c.liquidation.repayAmount).value > 0.0;
    }
  }

  /** Without an oracle price for any debt currency nothing is chosen. */
  lemma UnpricedDebtsScoreNothing(s: Snapshot)
    requires MarketsCover(s)
    requires forall i, j :: InScope(s, i, j) ==> s.borrowers[i].borrowPositions[j].currency !in s.oracleRates
    ensures NoPositiveCandidate(s)
  {
    forall i, j | InScope(s, i, j) && CandidateAt(s, i, j).Some?
      ensures CandidateAt(s, i, j).value.score <= 0.0
    {
      if CandidateAt(s, i, j).value.score > 0.0 {
        PositiveScoreNeedsPricedDebt(s, i, j);
      }
    }
  }

  /** Only close factors are read from the markets: incentives change nothing. */
  lemma IncentiveIsNotRead(s: Snapshot, markets': map<Currency, LoansMarket>, i: int, j: int)
    requires MarketsCover(s) && InScope(s, i, j)
    requires markets'.Keys == s.markets.Keys
    requires forall c :: c in markets' ==> markets'[c].closeFactor == s.markets[c].closeFactor
    ensures MarketsCover(s.(markets := markets'))
    ensures CandidateAt(s.(markets := markets'), i, j) == CandidateAt(s, i, j)
  {
  }

  // ---------------------------------------------------------------------
  // Worked scenarios: a 50% close factor (500 000 permill) and a debt of 40

  const Collateral := Currency(1)
  const Debt := Currency(2)
  const Reference := Currency(0)

  function Market(): map<Currency, LoansMarket> {
    map[Debt := LoansMarket(500_000, 1.1)]
  }

  function Prices(collateralPrice: PositiveReal): Rates {
    map[Collateral := ExchangeRate(Reference, Collateral, collateralPrice),
        Debt := ExchangeRate(Reference, Debt, 1.0)]
  }

  function OneBorrower(): seq<UndercollateralizedPosition> {
    [UndercollateralizedPosition(
       "borrower",
       [CollateralPosition(MonetaryAmount(Collateral, 100.0))],
       [BorrowPosition(Debt, 40.0, 0.0)])]
  }

  /** Collateral worth 100: half the debt (20) is repaid, seizing the collateral currency. */
  method ScenarioHalfOfDebt() returns (r: Option<Liquidation>)
    ensures r == Some(Liquidation(MonetaryAmount(Debt, 20.0), Collateral, "borrower"))
  {
    r := LiquidationStrategy(map[Debt := ChainBalance(1000.0)], Prices(1.0), OneBorrower(), Market());
    ghost var s := Snapshot(map[Debt := ChainBalance(1000.0)], Prices(1.0), OneBorrower(), Market());
    ghost var k := HighestValueCollateralIsLastMaximum(OneBorrower()[0].collateralPositions, Prices(1.0));
    assert CandidateAt(s, 0, 0) == Some(Scored(20.0, Liquidation(MonetaryAmount(Debt, 20.0), Collateral, "borrower")));
  }

  /** No free balance in the debt currency: the repay amount is 0 and nothing is chosen. */
  method ScenarioNoBalance() returns (r: Option<Liquidation>)
    ensures r == None
  {
    r := LiquidationStrategy(map[Debt := ChainBalance(0.0)], Prices(1.0), OneBorrower(), Market());
    ghost var s := Snapshot(map[Debt := ChainBalance(0.0)], Prices(1.0), OneBorrower(), Market());
    ghost var k := HighestValueCollateralIsLastMaximum(OneBorrower()[0].collateralPositions, Prices(1.0));
    assert CandidateAt(s, 0, 0).value.score == 0.0;
  }

  /**
   * Collateral worth only 10 against a repayment worth 20: with no
   * incentive check the liquidation is still chosen, its score capped at 10.
   */
  method ScenarioCollateralBelowRepayment() returns (r: Option<Liquidation>)
    ensures r == Some(Liquidation(MonetaryAmount(Debt, 20.0), Collateral, "borrower"))
  {
    r := LiquidationStrategy(map[Debt := ChainBalance(1000.0)], Prices(0.1), OneBorrower(), Market());
    ghost var s := Snapshot(map[Debt := ChainBalance(1000.0)], Prices(0.1), OneBorrower(), Market());
    ghost var k := HighestValueCollateralIsLastMaximum(OneBorrower()[0].collateralPositions, Prices(0.1));
    assert CandidateAt(s, 0, 0) == Some(Scored(10.0, Liquidation(MonetaryAmount(Debt, 20.0), Collateral, "borrower")));
  }
}
