/** The research bar simulator: a portfolio rebalanced toward a sigmoid target
    weight, bar by bar, and the weekly baseline beside it. Amounts are reals and
    exp is any function with positive values. */
module BarSim {
  import opened Reals

  datatype Params = Params(
    fee: real,
    slip: real,
    capital: real,
    beta: real,
    gamma: real,
    wedge: real,
    minOrder: real,
    exp: real -> real)
  {
    /** The formulas have a value: exp is positive and the execution price not zero. */
    ghost predicate Defined() {
      slip != -1.0 && forall x :: exp(x) > 0.0
    }

    /** Rates are shares, and there is no debt to start with. */
    ghost predicate Valid() {
      Defined() && 0.0 <= fee <= 1.0 && 0.0 <= slip <= 1.0 && capital >= 0.0
    }
  }

  datatype Holdings = Holdings(btc: real, usdt: real)

  datatype BarInput = BarInput(px: real, gap: bool, signal: real)

  function Equity(h: Holdings, px: real): real {
    Mul(h.btc, px) + h.usdt
  }

  function Weight(h: Holdings, px: real): real {
    if Equity(h, px) > 0.0 then Mul(h.btc, px) / Equity(h, px) else 0.0
  }

  function Clamp(x: real, lo: real, hi: real): (r: real)
    requires lo <= hi
    ensures lo <= r <= hi && (lo <= x <= hi ==> r == x)
  {
    if x < lo then lo else if x > hi then hi else x
  }

  /** The sigmoid of the clamped exponent: strictly between 0 and 1. */
  function Target(p: Params, w: real, signal: real): (t: real)
    requires p.Defined()
    ensures 0.0 < t < 1.0
  {
    var expo := Clamp(Mul(p.beta, signal) + Mul(p.gamma, Clamp(w, 0.0, 1.0) - 0.5), -50.0, 50.0);
    SigmoidRange(p.exp(expo));
    1.0 / (1.0 + p.exp(expo))
  }

  lemma SigmoidRange(e: real)
    requires e > 0.0
    ensures 0.0 < 1.0 / (1.0 + e) < 1.0
  {
  }

  function Bought(p: Params, h: Holdings, spend: real, px: real): Holdings
    requires p.Defined() && px != 0.0
  {
    MulNonZero(px, 1.0 + p.slip);
    Holdings(h.btc + spend * (1.0 - p.fee) / (px * (1.0 + p.slip)), h.usdt - spend)
  }

  function Sold(p: Params, h: Holdings, qty: real, px: real): Holdings {
    Holdings(h.btc - qty, h.usdt + qty * px * (1.0 - p.slip) * (1.0 - p.fee))
  }

  function Abs(x: real): real {
    if x < 0.0 then -x else x
  }

  function Min(a: real, b: real): real {
    if a <= b then a else b
  }

  /** The holdings after one bar. */
  function Rebalanced(p: Params, h: Holdings, bar: BarInput): Holdings
    requires p.Defined() && bar.px != 0.0
  {
    var equity, w := Equity(h, bar.px), Weight(h, bar.px);
    if bar.gap then h
    else
      var delta := Target(p, w, bar.signal) - w;
      var trade := Mul(delta, equity);
      if !(Abs(delta) >= p.wedge && Abs(trade) >= p.minOrder) then h
      else if trade > 0.0 then
        var spend := Min(trade, h.usdt);
        if spend > 0.0 then Bought(p, h, spend, bar.px) else h
      else
        var qty := Min(-trade / bar.px, h.btc);
        if qty > 0.0 then Sold(p, h, qty, bar.px) else h
  }

  ghost predicate Priced(bars: seq<BarInput>) {
    forall i | 0 <= i < |bars| :: bars[i].px != 0.0
  }

  ghost predicate Positive(bars: seq<BarInput>) {
    forall i | 0 <= i < |bars| :: bars[i].px > 0.0
  }

  /** The holdings after the first n bars. */
  function HoldingsAfter(p: Params, bars: seq<BarInput>, n: nat): Holdings
    requires p.Defined() && Priced(bars) && n <= |bars|
  {
    if n == 0 then Holdings(0.0, p.capital) else Rebalanced(p, HoldingsAfter(p, bars, n - 1), bars[n - 1])
  }

  function NavAt(p: Params, bars: seq<BarInput>, i: nat): real
    requires p.Defined() && Priced(bars) && i < |bars|
  {
    Equity(HoldingsAfter(p, bars, i + 1), bars[i].px)
  }

  function PeakAfter(p: Params, bars: seq<BarInput>, n: nat): real
    requires p.Defined() && Priced(bars) && n <= |bars|
  {
    if n == 0 then -1.0
    else
      var before, equity := PeakAfter(p, bars, n - 1), NavAt(p, bars, n - 1);
      if equity > before then equity else before
  }

  function Fall(equity: real, peak: real): real {
    if peak > 0.0 then 1.0 - equity / peak else 0.0
  }

  function DrawdownAfter(p: Params, bars: seq<BarInput>, n: nat): (d: real)
    requires p.Defined() && Priced(bars) && n <= |bars|
    ensures d >= 0.0
  {
    if n == 0 then 0.0
    else
      var before, dd := DrawdownAfter(p, bars, n - 1), Fall(NavAt(p, bars, n - 1), PeakAfter(p, bars, n));
      if dd > before then dd else before
  }

  method SimCore(p: Params, bars: seq<BarInput>) returns (nav: array<real>, mdd: real)
    requires p.Defined() && Priced(bars)
    ensures nav.Length == |bars| && forall i | 0 <= i < |bars| :: nav[i] == NavAt(p, bars, i)
    ensures mdd == DrawdownAfter(p, bars, |bars|)
  {
    hide Target, Mul, Bought, Sold, Weight, Equity;
    var btc, usdt := 0.0, p.capital;
    nav := new real[|bars|];
    var peak := -1.0;
    mdd := 0.0;
    for i := 0 to |bars|
      invariant Holdings(btc, usdt) == HoldingsAfter(p, bars, i)
      invariant peak == PeakAfter(p, bars, i) && mdd == DrawdownAfter(p, bars, i)
      invariant forall j | 0 <= j < i :: nav[j] == NavAt(p, bars, j)
    {
      var px := bars[i].px;
      var equity := Equity(Holdings(btc, usdt), px);
      var curW := Weight(Holdings(btc, usdt), px);
      if !bars[i].gap {
        var deltaW := Target(p, curW, bars[i].signal) - curW;
        var tradeUsd := Mul(deltaW, equity);
        if Abs(deltaW) >= p.wedge && Abs(tradeUsd) >= p.minOrder {
          if tradeUsd > 0.0 {
            var spend := Min(tradeUsd, usdt);
            if spend > 0.0 {
              var h := Bought(p, Holdings(btc, usdt), spend, px);
              btc, usdt := h.btc, h.usdt;
            }
          } else {
            var sellBtc := Min(-tradeUsd / px, btc);
            if sellBtc > 0.0 {
              var h := Sold(p, Holdings(btc, usdt), sellBtc, px);
              btc, usdt := h.btc, h.usdt;
            }
          }
        }
      }
      equity := Equity(Holdings(btc, usdt), px);
      nav[i] := equity;
      if equity > peak {
        peak := equity;
      }
      var dd := Fall(equity, peak);
      if dd > mdd {
        mdd := dd;
      }
    }
  }

  // ---------------------------------------------------------------- one trade

  /** Holdings a run can reach: nothing negative, and something if there was
      anything to begin with. */
  predicate Sound(h: Holdings, capital: real) {
    h.btc >= 0.0 && h.usdt >= 0.0 && (capital > 0.0 ==> h.btc > 0.0 || h.usdt > 0.0)
  }

  lemma EquityPositive(h: Holdings, px: real)
    requires h.btc >= 0.0 && h.usdt >= 0.0 && px > 0.0
    ensures Equity(h, px) >= 0.0
    ensures Equity(h, px) > 0.0 <==> h.btc > 0.0 || h.usdt > 0.0
  {
    hide Mul;
    MulOrder(h.btc, 0.0, px);
    MulZero(px);
  }

  /** A trade toward target t moves exactly the difference t*equity - btc*px. */
  lemma TradeIs(h: Holdings, px: real, t: real)
    requires Equity(h, px) > 0.0
    ensures Mul(t - Weight(h, px), Equity(h, px)) == Mul(t, Equity(h, px)) - Mul(h.btc, px)
  {
  }

  lemma Share(t: real, e: real)
    requires 0.0 < t < 1.0 && e > 0.0
    ensures 0.0 < Mul(t, e) < e
  {
    MulOrder(t, 0.0, e);
    MulOrder(1.0 - t, 0.0, e);
    MulAdd(t, 1.0 - t, e);
    assert t + (1.0 - t) == 1.0 && Mul(1.0, e) == e;
  }

  lemma QuotientOfDifference(a: real, b: real, px: real)
    requires px > 0.0 && b > 0.0
    ensures (Mul(a, px) - b) / px < a && (Mul(a, px) - b) / px == a - b / px
  {
  }

  /** The min clamps never bind: a buy leaves cash and a sell leaves coins,
      because the target is strictly between 0 and 1. */
  lemma ClampsNeverBind(p: Params, h: Holdings, bar: BarInput)
    requires p.Valid() && bar.px > 0.0 && Sound(h, p.capital) && Equity(h, bar.px) > 0.0
    ensures var t := Target(p, Weight(h, bar.px), bar.signal);
            var trade := Mul(t - Weight(h, bar.px), Equity(h, bar.px));
            && trade < h.usdt && -trade / bar.px < h.btc
            && Min(trade, h.usdt) == trade && Min(-trade / bar.px, h.btc) == -trade / bar.px
  {
    var t, e := Target(p, Weight(h, bar.px), bar.signal), Equity(h, bar.px);
    TradeIs(h, bar.px, t);
    Share(t, e);
    QuotientOfDifference(h.btc, Mul(t, e), bar.px);
  }

  lemma CoinsBought(p: Params, spend: real, px: real)
    requires p.Valid() && px > 0.0 && spend > 0.0
    ensures px * (1.0 + p.slip) > 0.0
    ensures var q := spend * (1.0 - p.fee) / (px * (1.0 + p.slip)); q >= 0.0 && Mul(q, px) <= spend
  {
  }

  lemma CashFromSale(p: Params, qty: real, px: real)
    requires p.Valid() && px > 0.0 && qty > 0.0
    ensures 0.0 <= qty * px * (1.0 - p.slip) * (1.0 - p.fee) <= Mul(qty, px)
  {
    MulPositive(qty, px);
    var a := qty * px;
    MulNonneg(a, 1.0 - p.slip);
    MulNonneg(a, p.slip);
    assert a * (1.0 - p.slip) == a - a * p.slip;
    var b := a * (1.0 - p.slip);
    MulNonneg(b, 1.0 - p.fee);
    MulNonneg(b, p.fee);
    assert b * (1.0 - p.fee) == b - b * p.fee;
  }

  lemma BuyIsSound(p: Params, h: Holdings, spend: real, px: real)
    requires p.Valid() && px > 0.0 && Sound(h, p.capital) && 0.0 < spend < h.usdt
    ensures var h' := Bought(p, h, spend, px);
            Sound(h', p.capital) && h'.btc >= h.btc && 0.0 < Equity(h', px) <= Equity(h, px)
  {
    CoinsBought(p, spend, px);
    var q := spend * (1.0 - p.fee) / (px * (1.0 + p.slip));
    MulAdd(h.btc, q, px);
    EquityPositive(Bought(p, h, spend, px), px);
  }

  lemma SaleIsSound(p: Params, h: Holdings, qty: real, px: real)
    requires p.Valid() && px > 0.0 && Sound(h, p.capital) && 0.0 < qty < h.btc
    ensures var h' := Sold(p, h, qty, px);
            Sound(h', p.capital) && h'.usdt >= h.usdt && 0.0 < Equity(h', px) <= Equity(h, px)
  {
    CashFromSale(p, qty, px);
    var cash := qty * px * (1.0 - p.slip) * (1.0 - p.fee);
    assert Sold(p, h, qty, px) == Holdings(h.btc - qty, h.usdt + cash);
    MulAdd(h.btc - qty, qty, px);
    EquityPositive(Sold(p, h, qty, px), px);
  }

  /** A bar keeps the holdings sound and never raises the equity at its price. */
  lemma BarIsSound(p: Params, h: Holdings, bar: BarInput)
    requires p.Valid() && bar.px > 0.0 && Sound(h, p.capital)
    ensures var h' := Rebalanced(p, h, bar);
            Sound(h', p.capital) && 0.0 <= Equity(h', bar.px) <= Equity(h, bar.px)
            && (Equity(h, bar.px) > 0.0 ==> Equity(h', bar.px) > 0.0)
  {
    EquityPositive(h, bar.px);
    if Equity(h, bar.px) > 0.0 {
      ClampsNeverBind(p, h, bar);
      var t := Target(p, Weight(h, bar.px), bar.signal);
      var trade := Mul(t - Weight(h, bar.px), Equity(h, bar.px));
      hide Target, Weight, Equity, Mul, Bought, Sold;
      if trade > 0.0 {
        BuyIsSound(p, h, trade, bar.px);
      } else if -trade / bar.px > 0.0 {
        SaleIsSound(p, h, -trade / bar.px, bar.px);
      }
    } else {
      NothingToTrade(p, h, bar);
    }
  }

  lemma NothingToTrade(p: Params, h: Holdings, bar: BarInput)
    requires p.Valid() && bar.px > 0.0 && h.btc == 0.0 && h.usdt == 0.0
    ensures Rebalanced(p, h, bar) == h
  {
  }

  // ---------------------------------------------------------------- whole runs

  /** Over every price path, signal and gap mask the holdings stay non-negative. */
  lemma {:induction false} RunIsSound(p: Params, bars: seq<BarInput>, n: nat)
    requires p.Valid() && Positive(bars) && n <= |bars|
    ensures Sound(HoldingsAfter(p, bars, n), p.capital)
  {
    hide Rebalanced;
    if n > 0 {
      RunIsSound(p, bars, n - 1);
      BarIsSound(p, HoldingsAfter(p, bars, n - 1), bars[n - 1]);
    }
  }

  /** No trade of a run raises the equity at the price it trades at. */
  lemma TradesNeverGain(p: Params, bars: seq<BarInput>, i: nat)
    requires p.Valid() && Positive(bars) && i < |bars|
    ensures NavAt(p, bars, i) <= Equity(HoldingsAfter(p, bars, i), bars[i].px)
  {
    hide Rebalanced, Equity;
    RunIsSound(p, bars, i);
    BarIsSound(p, HoldingsAfter(p, bars, i), bars[i]);
  }

  lemma NavPositive(p: Params, bars: seq<BarInput>, i: nat)
    requires p.Valid() && Positive(bars) && i < |bars|
    ensures NavAt(p, bars, i) >= 0.0 && (p.capital > 0.0 ==> NavAt(p, bars, i) > 0.0)
  {
    hide Rebalanced, Equity, HoldingsAfter;
    RunIsSound(p, bars, i + 1);
    EquityPositive(HoldingsAfter(p, bars, i + 1), bars[i].px);
  }

  lemma {:induction false} PeakIsHighest(p: Params, bars: seq<BarInput>, n: nat)
    requires p.Valid() && Positive(bars) && n <= |bars|
    ensures forall i | 0 <= i < n :: NavAt(p, bars, i) <= PeakAfter(p, bars, n)
    ensures n > 0 ==> PeakAfter(p, bars, n) >= 0.0 && (p.capital > 0.0 ==> PeakAfter(p, bars, n) > 0.0)
  {
    hide NavAt;
    if n > 0 {
      PeakIsHighest(p, bars, n - 1);
      NavPositive(p, bars, n - 1);
    }
  }

  lemma FallBelowOne(equity: real, peak: real)
    requires equity > 0.0 && equity <= peak
    ensures 0.0 <= Fall(equity, peak) < 1.0
  {
    var q := equity / peak;
    assert q * peak == equity;
    DivPositive(equity, peak);
    if q > 1.0 {
      MulPositive(q - 1.0, peak);
    }
  }

  /** Without capital nothing is ever held. */
  lemma {:induction false} NothingHeld(p: Params, bars: seq<BarInput>, n: nat)
    requires p.Valid() && Positive(bars) && n <= |bars| && p.capital == 0.0
    ensures HoldingsAfter(p, bars, n) == Holdings(0.0, 0.0)
    ensures n > 0 ==> NavAt(p, bars, n - 1) == 0.0
  {
    hide Rebalanced, Target;
    if n > 0 {
      NothingHeld(p, bars, n - 1);
      NothingToTrade(p, HoldingsAfter(p, bars, n - 1), bars[n - 1]);
      MulZero(bars[n - 1].px);
    }
  }

  lemma NoFall(peak: real)
    ensures 0.0 <= Fall(0.0, peak) <= 1.0 && (peak <= 0.0 ==> Fall(0.0, peak) == 0.0)
  {
  }

  lemma {:induction false} PeakOfNothing(p: Params, bars: seq<BarInput>, n: nat)
    requires p.Valid() && Positive(bars) && n <= |bars| && p.capital == 0.0
    ensures PeakAfter(p, bars, n) <= 0.0
  {
    hide NavAt;
    if n > 0 {
      PeakOfNothing(p, bars, n - 1);
      NothingHeld(p, bars, n);
    }
  }

  /** The fall of any bar is at least 0 and below 1. */
  lemma FallInRange(p: Params, bars: seq<BarInput>, i: nat)
    requires p.Valid() && Positive(bars) && i < |bars|
    ensures 0.0 <= Fall(NavAt(p, bars, i), PeakAfter(p, bars, i + 1)) < 1.0
  {
    hide NavAt, PeakAfter, Fall;
    if p.capital > 0.0 {
      NavPositive(p, bars, i);
      PeakIsHighest(p, bars, i + 1);
      FallBelowOne(NavAt(p, bars, i), PeakAfter(p, bars, i + 1));
    } else {
      NothingHeld(p, bars, i + 1);
      PeakOfNothing(p, bars, i + 1);
      NoFall(PeakAfter(p, bars, i + 1));
    }
  }

  /** The reported drawdown lies in [0, 1), and no later bar can undo it. */
  lemma {:induction false} DrawdownInRange(p: Params, bars: seq<BarInput>, n: nat)
    requires p.Valid() && Positive(bars) && n <= |bars|
    ensures 0.0 <= DrawdownAfter(p, bars, n) < 1.0
    ensures forall i | 0 <= i < n :: Fall(NavAt(p, bars, i), PeakAfter(p, bars, i + 1)) <= DrawdownAfter(p, bars, n)
  {
    hide NavAt, PeakAfter, Fall;
    if n > 0 {
      DrawdownInRange(p, bars, n - 1);
      FallInRange(p, bars, n - 1);
    }
  }

  lemma TradedFully(p: Params, h: Holdings, bar: BarInput)
    requires p.Valid() && bar.px > 0.0 && Sound(h, p.capital) && Equity(h, bar.px) > 0.0
    requires Rebalanced(p, h, bar) != h
    ensures var trade := Mul(Target(p, Weight(h, bar.px), bar.signal) - Weight(h, bar.px), Equity(h, bar.px));
            Rebalanced(p, h, bar) == Bought(p, h, trade, bar.px)
              || Rebalanced(p, h, bar) == Sold(p, h, -trade / bar.px, bar.px)
  {
    ClampsNeverBind(p, h, bar);
    hide Target, Weight, Equity, Mul, Bought, Sold;
  }

  lemma Lands(h: Holdings, trade: real, px: real, t: real, e: real)
    requires px > 0.0 && 0.0 < t && e > 0.0 && e == Equity(h, px) && trade == Mul(t, e) - Mul(h.btc, px)
    ensures Weight(Holdings(h.btc + trade / px, h.usdt - trade), px) == t
  {
  }

  /** Without friction a trade lands exactly on its target weight. */
  lemma FrictionlessHitsTarget(p: Params, h: Holdings, bar: BarInput)
    requires p.Valid() && p.fee == 0.0 && p.slip == 0.0
    requires bar.px > 0.0 && Sound(h, p.capital) && Equity(h, bar.px) > 0.0
    requires Rebalanced(p, h, bar) != h
    ensures Weight(Rebalanced(p, h, bar), bar.px) == Target(p, Weight(h, bar.px), bar.signal)
  {
    var t, e, px := Target(p, Weight(h, bar.px), bar.signal), Equity(h, bar.px), bar.px;
    hide Target, Weight, Equity, Mul, Bought, Sold, Rebalanced;
    var trade := Mul(t - Weight(h, px), e);
    TradedFully(p, h, bar);
    TradeIs(h, px, t);
    Frictionless(p, h, trade, px);
    Lands(h, trade, px, t, e);
  }

  lemma Frictionless(p: Params, h: Holdings, trade: real, px: real)
    requires p.Valid() && p.fee == 0.0 && p.slip == 0.0 && px > 0.0
    ensures Bought(p, h, trade, px) == Holdings(h.btc + trade / px, h.usdt - trade)
    ensures Sold(p, h, -trade / px, px) == Holdings(h.btc + trade / px, h.usdt - trade)
  {
  }

  // ---------------------------------------------------------------- the weekly baseline

  /** How many purchases the capital is split into: one per started period. */
  function PurchaseCount(bars: nat, every: nat): (n: nat)
    requires every > 0
    ensures n >= 1
  {
    var n := (bars + every - 1) / every;
    if n > 1 then n else 1
  }

  /** The coins bought with n tranches, the k-th at bar k*every. */
  function Coins(p: Params, close: seq<real>, per: real, every: nat, n: nat): real
    requires p.slip != -1.0 && every > 0 && (forall i | 0 <= i < |close| :: close[i] != 0.0)
    requires n > 0 ==> At(n - 1, every) < |close|
    decreases n
  {
    if n == 0 then 0.0
    else
      AtOrder(if n > 1 then n - 2 else 0, n - 1, every);
      Coins(p, close, per, every, n - 1) + CoinsFor(p, per, close[At(n - 1, every)])
  }

  function CoinsFor(p: Params, spend: real, px: real): real
    requires p.slip != -1.0 && px != 0.0
  {
    MulNonZero(px, 1.0 + p.slip);
    spend * (1.0 - p.fee) / (px * (1.0 + p.slip))
  }

  function At(k: nat, every: nat): nat {
    k * every
  }

  lemma AtFacts(k: nat, every: nat)
    ensures At(0, every) == 0 && At(k + 1, every) == At(k, every) + every
  {
  }

  lemma AtOrder(a: nat, b: nat, every: nat)
    ensures a <= b ==> At(a, every) <= At(b, every)
    ensures At(a, every) < At(b, every) ==> a < b
  {
  }

  /** Within one period only its last moment is a multiple. */
  lemma Multiples(j: nat, k: nat, every: nat)
    requires every > 0 && k > 0 && At(k - 1, every) < j <= At(k, every)
    ensures j % every == 0 <==> j == At(k, every)
  {
    var q, r := j / every, j % every;
    assert j == At(q, every) + r;
    hide At;
    AtOrder(k - 1, q, every);
    AtOrder(q, k, every);
    AtFacts(q, every);
    AtOrder(k, q + 1, every);
    AtOrder(q + 1, k, every);
    AtOrder(q, k - 1, every);
    AtOrder(k, q, every);
  }

  lemma CountIsEnough(bars: nat, every: nat)
    requires every > 0 && bars > 0
    ensures var n := PurchaseCount(bars, every); At(n - 1, every) < bars <= At(n, every)
  {
  }

  /** The purchase being made at bar j is the only one that can be. */
  lemma PurchaseAt(bars: nat, every: nat, buys: nat, j: nat)
    requires every > 0 && j < bars && buys <= PurchaseCount(bars, every)
    requires if buys == 0 then j == 0 else At(buys - 1, every) < j <= At(buys, every)
    ensures j % every == 0 <==> j == At(buys, every)
    ensures j == At(buys, every) ==> buys < PurchaseCount(bars, every)
    ensures At(buys + 1, every) == At(buys, every) + every
  {
    hide At;
    CountIsEnough(bars, every);
    AtFacts(buys, every);
    if buys > 0 {
      Multiples(j, buys, every);
    } else {
      assert 0 % every == 0;
    }
    AtOrder(buys, PurchaseCount(bars, every), every);
  }

  lemma AllPurchased(bars: nat, every: nat, buys: nat)
    requires every > 0 && bars > 0 && 0 < buys && At(buys - 1, every) < bars <= At(buys, every)
    ensures buys == PurchaseCount(bars, every)
  {
    hide At, PurchaseCount;
    var n := PurchaseCount(bars, every);
    CountIsEnough(bars, every);
    AtOrder(buys - 1, n, every);
    AtOrder(n - 1, buys, every);
  }

  /** What is left after k of n equal tranches. */
  lemma TranchesLeft(capital: real, per: real, n: nat, k: nat)
    requires capital > 0.0 && n > 0 && per == capital / n as real && k <= n
    ensures per > 0.0 && per * n as real == capital
    ensures k < n ==> capital - Mul(per, k as real) >= per
    ensures capital - Mul(per, n as real) == 0.0
    ensures capital - Mul(per, k as real) - per == capital - Mul(per, (k + 1) as real)
  {
    DivPositive(capital, n as real);
    assert per * n as real == capital;
    assert (k + 1) as real == k as real + 1.0;
    assert per * (k as real + 1.0) == per * k as real + per;
    if k < n {
      MulNonneg(per, (n - k - 1) as real);
      assert (n - k - 1) as real == n as real - k as real - 1.0;
      assert per * (n as real - k as real - 1.0) == per * n as real - per * k as real - per;
    }
  }

  /** Spends the whole capital in exactly PurchaseCount equal purchases, one at
      the start of each period; without capital there is nothing to buy. */
  method DcaNav(p: Params, close: seq<real>, every: nat) returns (nav: real)
    requires p.slip != -1.0 && every > 0 && close != []
    requires forall i | 0 <= i < |close| :: close[i] != 0.0
    ensures p.capital <= 0.0 ==> nav == p.capital
    ensures p.capital > 0.0 ==>
              var n := PurchaseCount(|close|, every);
              At(n - 1, every) < |close|
              && nav == Mul(Coins(p, close, p.capital / n as real, every, n), close[|close| - 1])
  {
    hide Mul, CoinsFor, At, PurchaseCount;
    var nBuys := PurchaseCount(|close|, every);
    var per := p.capital / nBuys as real;
    var btc, usdt := 0.0, p.capital;
    ghost var buys := 0;
    NothingSpent(per);
    for j := 0 to |close|
      invariant buys <= nBuys && (buys > 0 ==> At(buys - 1, every) < |close|)
      invariant p.capital > 0.0 ==> if buys == 0 then j == 0 else At(buys - 1, every) < j <= At(buys, every)
      invariant p.capital > 0.0 ==>
                usdt == p.capital - Mul(per, buys as real) && btc == Coins(p, close, per, every, buys)
      invariant p.capital <= 0.0 ==> usdt == p.capital && btc == 0.0 && buys == 0
    {
      if p.capital > 0.0 {
        PurchaseAt(|close|, every, buys, j);
        TranchesLeft(p.capital, per, nBuys, buys);
      }
      if j % every == 0 && usdt > 0.0 {
        var spend := Min(per, usdt);
        usdt := usdt - spend;
        btc := btc + CoinsFor(p, spend, close[j]);
        buys := buys + 1;
      }
    }
    if p.capital > 0.0 {
      AllPurchased(|close|, every, buys);
      TranchesLeft(p.capital, per, nBuys, nBuys);
    } else {
      MulZero(close[|close| - 1]);
    }
    nav := Mul(btc, close[|close| - 1]) + usdt;
  }

  lemma NothingSpent(per: real)
    ensures Mul(per, 0 as real) == 0.0
  {
  }
}
