/** What the bar simulator does with a bar and reports of a run, without the
    functions it is computed with. */
module SimLaws {
  import opened Reals
  import opened BarSim

  // ---------------------------------------------------------------- the target weight

  /** The exponent behind a target: signal and inventory, kept within 50 of zero. */
  ghost predicate IsExponent(p: Params, w: real, signal: real, e: real) {
    var held := if w < 0.0 then 0.0 else if w > 1.0 then 1.0 else w;
    var x := Mul(p.beta, signal) + Mul(p.gamma, held - 0.5);
    e == if x < -50.0 then -50.0 else if x > 50.0 then 50.0 else x
  }

  /** The odds against the target weight are exp of the exponent. */
  lemma TargetMeans(p: Params, w: real, signal: real, e: real)
    requires p.Defined() && IsExponent(p, w, signal, e)
    ensures Target(p, w, signal) * (1.0 + p.exp(e)) == 1.0 && 0.0 < Target(p, w, signal) < 1.0
  {
    Inverse(1.0 + p.exp(e));
  }

  lemma Inverse(x: real)
    requires x != 0.0
    ensures 1.0 / x * x == 1.0
  {
  }

  lemma ExponentRises(p: Params, w: real, s1: real, s2: real, e1: real, e2: real)
    requires IsExponent(p, w, s1, e1) && IsExponent(p, w, s2, e2) && p.beta >= 0.0 && s1 <= s2
    ensures e1 <= e2
  {
    Ordered(p.beta, s1, s2);
    hide Mul;
  }

  lemma Ordered(b: real, x: real, y: real)
    requires b >= 0.0 && x <= y
    ensures Mul(b, x) <= Mul(b, y)
  {
    MulMonotone(x, y, b);
  }

  lemma FactorNonneg(d: real, x: real)
    requires x > 0.0 && d * x >= 0.0
    ensures d >= 0.0
  {
    if d < 0.0 {
      MulPositive(-d, x);
    }
  }

  lemma InverseFalls(x: real, y: real, a: real, b: real)
    requires 0.0 < x <= y && a * x == 1.0 && b * y == 1.0
    ensures b <= a
  {
    DivIs(1.0, y, b);
    DivPositive(1.0, y);
    MulNonneg(y - x, b);
    assert (a - b) * x == a * x - b * x == b * y - b * x == (y - x) * b;
    FactorNonneg(a - b, x);
  }

  /** A higher signal never raises the target when beta is not negative and exp
      grows. */
  lemma TargetFalls(p: Params, w: real, s1: real, s2: real, e1: real, e2: real)
    requires p.Defined() && p.beta >= 0.0 && s1 <= s2 && IsExponent(p, w, s1, e1) && IsExponent(p, w, s2, e2)
    requires e1 <= e2 ==> p.exp(e1) <= p.exp(e2)
    ensures Target(p, w, s2) <= Target(p, w, s1)
  {
    ExponentRises(p, w, s1, s2, e1, e2);
    TargetMeans(p, w, s1, e1);
    TargetMeans(p, w, s2, e2);
    hide Target, IsExponent;
    InverseFalls(1.0 + p.exp(e1), 1.0 + p.exp(e2), Target(p, w, s1), Target(p, w, s2));
  }

  // ---------------------------------------------------------------- one bar

  /** The bar is too close to its target, or its trade too small, to act on. */
  predicate LeavesAlone(p: Params, bar: BarInput, delta: real, trade: real) {
    || bar.gap || delta == 0.0
    || (-p.wedge < delta < p.wedge) || (-p.minOrder < trade < p.minOrder)
  }

  /** Cash spent becomes coins at the slipped price, less the fee; coins sold become
      cash at the slipped price, less the fee. */
  ghost predicate Trades(p: Params, h: Holdings, h': Holdings, px: real, trade: real) {
    if trade > 0.0 then
      h'.usdt == h.usdt - trade && (h'.btc - h.btc) * (px * (1.0 + p.slip)) == trade * (1.0 - p.fee)
    else
      (h.btc - h'.btc) * px == -trade && h'.usdt - h.usdt == -trade * (1.0 - p.slip) * (1.0 - p.fee)
  }

  lemma BoughtMeans(p: Params, h: Holdings, spend: real, px: real)
    requires p.Defined() && px != 0.0 && spend > 0.0
    ensures Trades(p, h, Bought(p, h, spend, px), px, spend)
  {
    MulNonZero(px, 1.0 + p.slip);
    Quotient(spend * (1.0 - p.fee), px * (1.0 + p.slip));
  }

  lemma Quotient(a: real, b: real)
    requires b != 0.0
    ensures a / b * b == a
  {
  }

  lemma SoldMeans(p: Params, h: Holdings, trade: real, px: real)
    requires px != 0.0 && trade <= 0.0
    ensures Trades(p, h, Sold(p, h, -trade / px, px), px, trade)
  {
    Quotient(-trade, px);
    Proceeds(-trade / px, px, -trade, 1.0 - p.slip, 1.0 - p.fee);
  }

  lemma Proceeds(q: real, px: real, v: real, a: real, b: real)
    requires q * px == v
    ensures q * px * a * b == v * a * b
  {
  }

  /** The weight is the coins' share of the equity. */
  lemma WeightIs(h: Holdings, px: real)
    requires Equity(h, px) > 0.0
    ensures Equity(h, px) == Mul(h.btc, px) + h.usdt && Weight(h, px) * Equity(h, px) == Mul(h.btc, px)
  {
  }

  lemma TradeSign(delta: real, e: real)
    requires e > 0.0
    ensures (Mul(delta, e) > 0.0 <==> delta > 0.0) && (Mul(delta, e) == 0.0 <==> delta == 0.0)
  {
    MulOrder(delta, 0.0, e);
    MulOrder(-delta, 0.0, e);
    MulAdd(delta, -delta, e);
    MulZero(e);
  }

  /** A bar moves a sound portfolio exactly when it is not left alone, and then
      trades the whole difference between target and weight. */
  lemma BarMeans(p: Params, h: Holdings, bar: BarInput)
    requires p.Valid() && bar.px > 0.0 && Sound(h, p.capital) && Equity(h, bar.px) > 0.0
    ensures var e := Equity(h, bar.px);
            var delta := Target(p, Weight(h, bar.px), bar.signal) - Weight(h, bar.px);
            var trade := Mul(delta, e);
            if LeavesAlone(p, bar, delta, trade) then Rebalanced(p, h, bar) == h
            else Trades(p, h, Rebalanced(p, h, bar), bar.px, trade)
  {
    var e, w := Equity(h, bar.px), Weight(h, bar.px);
    var delta := Target(p, w, bar.signal) - w;
    var trade := Mul(delta, e);
    ClampsNeverBind(p, h, bar);
    hide Target, Weight, Equity, Mul, Bought, Sold, Trades, Rebalanced, Min, Sound;
    TradeSign(delta, e);
    RebalancedIs(p, h, bar, delta, trade);
    ChosenTrade(p, h, bar, delta, trade, -trade / bar.px, Rebalanced(p, h, bar));
  }

  lemma ChosenTrade(p: Params, h: Holdings, bar: BarInput, delta: real, trade: real, qty: real, h': Holdings)
    requires p.Defined() && bar.px > 0.0 && (trade > 0.0 <==> delta > 0.0) && (trade == 0.0 <==> delta == 0.0)
    requires qty == -trade / bar.px
    requires h' == if bar.gap || (-p.wedge < delta < p.wedge) || (-p.minOrder < trade < p.minOrder) then h
                   else if trade > 0.0 then Bought(p, h, trade, bar.px)
                   else if qty > 0.0 then Sold(p, h, qty, bar.px) else h
    ensures if LeavesAlone(p, bar, delta, trade) then h' == h else Trades(p, h, h', bar.px, trade)
  {
    hide Bought, Sold, Trades;
    if trade > 0.0 {
      BoughtMeans(p, h, trade, bar.px);
    } else if trade < 0.0 {
      SoldMeans(p, h, trade, bar.px);
      NegativeQuotient(trade, bar.px);
    } else {
      ZeroQuotient(bar.px);
    }
  }

  lemma RebalancedIs(p: Params, h: Holdings, bar: BarInput, delta: real, trade: real)
    requires p.Defined() && bar.px != 0.0
    requires delta == Target(p, Weight(h, bar.px), bar.signal) - Weight(h, bar.px)
             && trade == Mul(delta, Equity(h, bar.px))
    requires Min(trade, h.usdt) == trade && Min(-trade / bar.px, h.btc) == -trade / bar.px
    ensures Rebalanced(p, h, bar) ==
            if bar.gap || (-p.wedge < delta < p.wedge) || (-p.minOrder < trade < p.minOrder) then h
            else if trade > 0.0 then Bought(p, h, trade, bar.px)
            else if -trade / bar.px > 0.0 then Sold(p, h, -trade / bar.px, bar.px) else h
  {
    hide Target, Weight, Equity, Mul, Bought, Sold, Min;
  }

  lemma NegativeQuotient(trade: real, px: real)
    requires trade < 0.0 && px > 0.0
    ensures -trade / px > 0.0
  {
    DivPositive(-trade, px);
  }

  lemma ZeroQuotient(px: real)
    requires px > 0.0
    ensures -0.0 / px == 0.0
  {
  }

  // ---------------------------------------------------------------- a run

  /** The run starts in cash, and every reported value is coins at the bar's price
      and cash. */
  lemma RunMeans(p: Params, bars: seq<BarInput>, i: nat)
    requires p.Defined() && Priced(bars) && i < |bars|
    ensures HoldingsAfter(p, bars, 0) == Holdings(0.0, p.capital)
    ensures var h := HoldingsAfter(p, bars, i + 1);
            && h == Rebalanced(p, HoldingsAfter(p, bars, i), bars[i])
            && NavAt(p, bars, i) == h.btc * bars[i].px + h.usdt
  {
    hide Rebalanced;
  }

  /** value is the fall of the equity below the peak, relative to it. */
  ghost predicate IsFall(value: real, equity: real, peak: real) {
    if peak > 0.0 then value * peak == peak - equity else value == 0.0
  }

  lemma FallMeans(equity: real, peak: real)
    ensures IsFall(Fall(equity, peak), equity, peak)
  {
    if peak > 0.0 {
      var q := equity / peak;
      assert q * peak == equity;
      assert (1.0 - q) * peak == peak - q * peak;
    }
  }

  /** The peak is the highest value so far. */
  lemma {:induction false} PeakMeans(p: Params, bars: seq<BarInput>, n: nat)
    requires p.Valid() && Positive(bars) && 0 < n <= |bars|
    ensures forall i | 0 <= i < n :: NavAt(p, bars, i) <= PeakAfter(p, bars, n)
    ensures exists i :: 0 <= i < n && NavAt(p, bars, i) == PeakAfter(p, bars, n)
  {
    PeakIsHighest(p, bars, n);
    NavPositive(p, bars, n - 1);
    hide NavAt;
    if n > 1 && PeakAfter(p, bars, n) == PeakAfter(p, bars, n - 1) {
      PeakMeans(p, bars, n - 1);
      var i :| 0 <= i < n - 1 && NavAt(p, bars, i) == PeakAfter(p, bars, n - 1);
    } else {
      assert PeakAfter(p, bars, 0) == -1.0;
      assert NavAt(p, bars, n - 1) == PeakAfter(p, bars, n);
    }
  }

  /** The reported drawdown is the deepest fall of any bar below the peak of its
      time, 0 when there is none. */
  lemma {:induction false} DrawdownMeans(p: Params, bars: seq<BarInput>, n: nat)
    requires p.Valid() && Positive(bars) && n <= |bars|
    ensures forall i | 0 <= i < n ::
              Fall(NavAt(p, bars, i), PeakAfter(p, bars, i + 1)) <= DrawdownAfter(p, bars, n)
    ensures || DrawdownAfter(p, bars, n) == 0.0
            || exists i :: 0 <= i < n && Fall(NavAt(p, bars, i), PeakAfter(p, bars, i + 1)) == DrawdownAfter(p, bars, n)
  {
    hide NavAt, PeakAfter, Fall;
    if n > 0 {
      DrawdownMeans(p, bars, n - 1);
      var before := DrawdownAfter(p, bars, n - 1);
      if DrawdownAfter(p, bars, n) == before && before != 0.0 {
        var i :| 0 <= i < n - 1 && Fall(NavAt(p, bars, i), PeakAfter(p, bars, i + 1)) == before;
        assert Fall(NavAt(p, bars, i), PeakAfter(p, bars, i + 1)) == DrawdownAfter(p, bars, n);
      } else {
        assert n - 1 + 1 == n;
      }
    }
  }

  // ---------------------------------------------------------------- the weekly baseline

  /** The reciprocals of the closes at which the first n purchases are made. */
  ghost function Reciprocals(close: seq<real>, every: nat, n: nat): real
    requires every > 0 && forall i | 0 <= i < |close| :: close[i] != 0.0
    requires n > 0 ==> (n - 1) * every < |close|
    decreases n
  {
    if n == 0 then 0.0
    else
      EarlierPurchase(n, every);
      Reciprocals(close, every, n - 1) + 1.0 / close[(n - 1) * every]
  }

  lemma EarlierPurchase(n: nat, every: nat)
    requires n > 0
    ensures n > 1 ==> 0 <= (n - 2) * every <= (n - 1) * every
  {
    assert (n - 1) * every == (n - 2) * every + every;
  }

  lemma OnePurchase(p: Params, spend: real, px: real)
    requires p.slip != -1.0 && px != 0.0
    ensures Mul(CoinsFor(p, spend, px), 1.0 + p.slip) == Mul(1.0 / px, spend * (1.0 - p.fee))
  {
    MulNonZero(px, 1.0 + p.slip);
    var s, a := 1.0 + p.slip, spend * (1.0 - p.fee);
    var c, r := CoinsFor(p, spend, px), 1.0 / px;
    Quotient(a, px * s);
    Quotient(1.0, px);
    Scaled(c, s, px, a, r);
  }

  lemma Scaled(c: real, s: real, px: real, a: real, r: real)
    requires px != 0.0 && c * (px * s) == a && r * px == 1.0
    ensures c * s == r * a
  {
    assert r * a == r * px * (c * s);
  }

  /** The baseline's coins: each of n equal tranches, less the fee, at its own close
      and the slipped price. */
  lemma {:induction false} CoinsMean(p: Params, close: seq<real>, per: real, every: nat, n: nat)
    requires p.slip != -1.0 && every > 0 && forall i | 0 <= i < |close| :: close[i] != 0.0
    requires n > 0 ==> (n - 1) * every < |close|
    ensures n > 0 ==> At(n - 1, every) < |close|
    ensures Mul(Coins(p, close, per, every, n), 1.0 + p.slip) == Mul(Reciprocals(close, every, n), per * (1.0 - p.fee))
    decreases n
  {
    if n == 0 {
      MulZero(1.0 + p.slip);
      MulZero(per * (1.0 - p.fee));
    } else {
      EarlierPurchase(n, every);
      CoinsMean(p, close, per, every, n - 1);
      var px := close[(n - 1) * every];
      OnePurchase(p, per, px);
      hide Mul, CoinsFor;
      CoinsStep(p, close, per, every, n);
      MulAdd(Coins(p, close, per, every, n - 1), CoinsFor(p, per, px), 1.0 + p.slip);
      MulAdd(Reciprocals(close, every, n - 1), 1.0 / px, per * (1.0 - p.fee));
    }
  }

  lemma CoinsStep(p: Params, close: seq<real>, per: real, every: nat, n: nat)
    requires p.slip != -1.0 && every > 0 && forall i | 0 <= i < |close| :: close[i] != 0.0
    requires n > 0 && (n - 1) * every < |close|
    ensures n > 1 ==> At(n - 2, every) < |close|
    ensures At(n - 1, every) == (n - 1) * every
    ensures Coins(p, close, per, every, n) ==
            Coins(p, close, per, every, n - 1) + CoinsFor(p, per, close[(n - 1) * every])
  {
    EarlierPurchase(n, every);
    hide CoinsFor;
  }
}
