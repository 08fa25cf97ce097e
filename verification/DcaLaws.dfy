/** What the passive baselines report, without the functions they are computed with. */
module DcaLaws {
  import opened Common
  import opened Reals
  import opened GhostDca

  // ---------------------------------------------------------------- friction

  /** A buy pays the slipped price for what is left after the fee, in the asset; the
      costs are the fee's share and the slipped part of the notional. */
  lemma BuyMeans(notionalUSD: real, price: real, fp: Friction)
    requires fp.Priced()
    ensures var b, slip, fee :=
                ApplyBuyFriction(notionalUSD, price, fp), fp.SlippageBPS / 10000.0, fp.TakerFeeBPS / 10000.0;
            if notionalUSD > 0.0 && price > 0.0 then
              && b.filledQty * (price * (1.0 + slip)) == notionalUSD * (1.0 - fee)
              && b.feeUSD == notionalUSD * fee && b.slippageCost * (1.0 + slip) == notionalUSD * slip
            else b == BuyFill(0.0, 0.0, 0.0)
  {
    if notionalUSD > 0.0 && price > 0.0 {
      BuyParts(notionalUSD, price, fp.SlipRate(), fp.FeeRate(), ExecPrice(price, fp.SlipRate()));
    }
  }

  lemma BuyParts(n: real, p: real, slip: real, fee: real, exec: real)
    requires exec == p * (1.0 + slip) && exec != 0.0 && p > 0.0 && slip != -1.0
    ensures n / exec * (1.0 - fee) * exec == n * (1.0 - fee)
    ensures (n - n / exec * p) * (1.0 + slip) == n * slip
  {
    var q := n / exec;
    assert q * exec == n;
    assert q * (1.0 - fee) * exec == q * exec * (1.0 - fee);
    assert (n - q * p) * (1.0 + slip) == n * (1.0 + slip) - q * (p * (1.0 + slip));
  }

  /** A sale's proceeds, fee and slippage are together the value sold. */
  lemma SellMeans(qty: real, price: real, fp: Friction)
    ensures var r, slip, fee := ApplySellFriction(qty, price, fp), fp.SlippageBPS / 10000.0, fp.TakerFeeBPS / 10000.0;
            if qty > 0.0 && price > 0.0 then
              && r.filledQuoteUSD + r.feeUSD + r.slippageCost == qty * price
              && r.slippageCost == qty * price * slip && r.feeUSD == (qty * price - r.slippageCost) * fee
            else r == SellFill(0.0, 0.0, 0.0)
  {
    if qty > 0.0 && price > 0.0 {
      SellParts(qty, price, fp.SlipRate(), fp.FeeRate());
    }
  }

  lemma SellParts(q: real, p: real, slip: real, fee: real)
    ensures var pre := q * (p * (1.0 - slip));
            pre * (1.0 - fee) + pre * fee == pre && q * p - pre == q * p * slip
  {
    assert q * (p * (1.0 - slip)) == q * p - q * p * slip;
    var pre := q * (p * (1.0 - slip));
    assert pre * (1.0 - fee) == pre - pre * fee;
  }

  // ---------------------------------------------------------------- holdings and totals

  /** What a bar injects: the seed at the first, then what the trigger says, never
      into a price that is not positive. */
  lemma AmountMeans(d: Dca, i: nat)
    requires i < |d.bars|
    ensures var asked := if i == 0 then Some(d.initialCapital)
                else d.trigger(d.bars[i - 1].OpenTime, d.bars[i].OpenTime);
            d.AmountAt(i) == if asked.Some? && asked.value > 0.0 && d.bars[i].Close > 0.0 then asked.value else 0.0
  {
  }

  /** What the injections of the first n bars would buy without friction, and how much they are. */
  ghost function Units(d: Dca, n: nat): real
    requires n <= |d.bars|
  {
    if n == 0 then 0.0
    else Units(d, n - 1) + if d.AmountAt(n - 1) > 0.0 then d.AmountAt(n - 1) / d.bars[n - 1].Close else 0.0
  }

  ghost function Injected(d: Dca, n: nat): real
    requires n <= |d.bars|
  {
    if n == 0 then 0.0 else Injected(d, n - 1) + d.AmountAt(n - 1)
  }

  lemma BuyUnits(a: real, price: real, fp: Friction)
    requires fp.Priced() && a >= 0.0 && (a > 0.0 ==> price > 0.0)
    ensures ApplyBuyFriction(a, price, fp).filledQty == Mul(if a > 0.0 then a / price else 0.0, fp.Kept())
  {
    if a > 0.0 {
      BuyScales(a, price, fp);
    } else {
      MulZero(fp.Kept());
    }
  }

  lemma {:induction false} HeldMeans(d: Dca, n: nat)
    requires d.fp.Priced() && n <= |d.bars|
    ensures d.QtyBefore(n) == Mul(Units(d, n), d.fp.Kept())
  {
    hide ApplyBuyFriction, Friction.Kept, Friction.Priced, Mul, Dca.AmountAt;
    QtyStep(d, n);
    if n == 0 {
      MulZero(d.fp.Kept());
    } else {
      HeldMeans(d, n - 1);
      var a, price := d.AmountAt(n - 1), d.bars[n - 1].Close;
      BuyUnits(a, price, d.fp);
      MulAdd(Units(d, n - 1), if a > 0.0 then a / price else 0.0, d.fp.Kept());
    }
  }

  lemma SumSnoc(injs: seq<Injection>, inj: Injection)
    ensures SumAmounts(injs + [inj]) == SumAmounts(injs) + inj.amount
  {
    assert (injs + [inj])[..|injs|] == injs;
  }

  lemma {:induction false} InjectedIs(d: Dca, n: nat)
    requires d.fp.Priced() && n <= |d.bars|
    ensures SumAmounts(d.Injections(n)) == Injected(d, n)
  {
    hide Dca.AmountAt, Dca.QtyBefore, Dca.NavAt, Friction.Priced, SumAmounts;
    NoAmounts();
    if n > 0 {
      InjectedIs(d, n - 1);
      assert d.Injections(n - 1) + [] == d.Injections(n - 1);
      SumSnoc(d.Injections(n - 1), d.InjectionAt(n - 1));
    }
  }

  lemma NoAmounts()
    ensures SumAmounts([]) == 0.0
  {
  }

  /** The final value is every injection at its own close, times the share friction
      keeps, at the last close; the total is the sum of the injections. */
  lemma TotalsMean(d: Dca)
    requires d.fp.Priced() && |d.bars| > 0
    ensures var n, r := |d.bars|, ResultOf(d);
            && r.FinalEquity == Mul(Mul(Units(d, n), d.fp.Kept()), d.bars[n - 1].Close)
            && r.TotalInjected == Injected(d, n)
    ensures d.fp.Kept() * (1.0 + d.fp.SlippageBPS / 10000.0) == 1.0 - d.fp.TakerFeeBPS / 10000.0
  {
    KeptIs(d.fp);
    LastBar(d);
    InjectedIs(d, |d.bars|);
    HeldMeans(d, |d.bars|);
    ValueIs(d);
    hide *;
  }

  lemma ValueIs(d: Dca)
    requires d.fp.Priced() && |d.bars| > 0
    ensures d.NavAt(|d.bars| - 1) == Mul(d.QtyBefore(|d.bars|), d.bars[|d.bars| - 1].Close)
  {
  }

  lemma KeptIs(fp: Friction)
    requires fp.Priced()
    ensures fp.Kept() * (1.0 + fp.SlippageBPS / 10000.0) == 1.0 - fp.TakerFeeBPS / 10000.0
  {
    var a, p := 1.0 - fp.FeeRate(), 1.0 + fp.SlipRate();
    assert a / p * p == a;
  }

  /** The weekly baseline puts in its capital and, for every seven days passed, the
      monthly amount over 4.33. */
  lemma WeeklyTotal(bars: seq<Bar>, capital: real, monthlyInject: real, fp: Friction)
    requires fp.Priced() && Regular(bars) && bars != [] && capital > 0.0 && monthlyInject > 0.0
    ensures var d := Dca(capital, bars, fp, Weekly(bars[0].OpenTime, monthlyInject / 4.33));
            var weeks := (bars[|bars| - 1].OpenTime - bars[0].OpenTime) / (7 * 24 * 60 * 60 * 1000);
            ResultOf(d).TotalInjected == capital + Mul(weeks as real, monthlyInject / 4.33)
  {
    var d := Dca(capital, bars, fp, Weekly(bars[0].OpenTime, monthlyInject / 4.33));
    WeeksPassed(bars);
    hide *;
    WeeklyInjectsOncePerWeek(d, monthlyInject / 4.33, |bars|);
    TotalIs(d);
  }

  lemma WeeksPassed(bars: seq<Bar>)
    requires bars != []
    ensures WeekOf(bars, |bars| - 1) == (bars[|bars| - 1].OpenTime - bars[0].OpenTime) / (7 * 24 * 60 * 60 * 1000)
  {
  }

  lemma TotalIs(d: Dca)
    requires d.fp.Priced() && |d.bars| > 0
    ensures ResultOf(d).TotalInjected == SumAmounts(d.Injections(|d.bars|))
  {
    hide SumAmounts;
  }

  /** The monthly cadence injects once at every change of month. */
  lemma {:induction false} MonthlyInjectsPerMonth(d: Dca, month: int -> (int, int), inject: real, n: nat)
    requires d.trigger == Monthly(month, inject) && inject > 0.0 && 1 <= n <= |d.bars|
    requires forall i | 0 <= i < |d.bars| :: d.bars[i].Close > 0.0
    ensures var seed := if d.initialCapital > 0.0 then d.initialCapital else 0.0;
            Injected(d, n) == seed + Mul(MonthChanges(d, month, n) as real, inject)
  {
    hide *;
    MonthlyStep(d, month, inject, n);
    if n == 1 {
      MulZero(inject);
    } else {
      MonthlyInjectsPerMonth(d, month, inject, n - 1);
      var before := MonthChanges(d, month, n - 1) as real;
      MulAdd(before, 1.0, inject);
      MulOne(inject);
      assert (MonthChanges(d, month, n - 1) + 1) as real == before + 1.0;
    }
  }

  lemma MonthlyStep(d: Dca, month: int -> (int, int), inject: real, n: nat)
    requires d.trigger == Monthly(month, inject) && inject > 0.0 && 1 <= n <= |d.bars| && d.bars[n - 1].Close > 0.0
    ensures n == 1 ==>
            Injected(d, 1) == (if d.initialCapital > 0.0 then d.initialCapital else 0.0)
              && MonthChanges(d, month, 1) == 0
    ensures n > 1 ==>
              var changed := month(d.bars[n - 2].OpenTime) != month(d.bars[n - 1].OpenTime);
              && Injected(d, n) == Injected(d, n - 1) + (if changed then inject else 0.0)
              && MonthChanges(d, month, n) == MonthChanges(d, month, n - 1) + if changed then 1 else 0
  {
    hide Dca.AmountAt, Monthly;
    MonthlyAmount(d, month, inject, n - 1);
    assert Injected(d, 0) == 0.0;
  }

  lemma MonthlyAmount(d: Dca, month: int -> (int, int), inject: real, i: nat)
    requires d.trigger == Monthly(month, inject) && inject > 0.0 && i < |d.bars| && d.bars[i].Close > 0.0
    ensures d.AmountAt(i) ==
            if i == 0 then (if d.initialCapital > 0.0 then d.initialCapital else 0.0)
            else if month(d.bars[i - 1].OpenTime) != month(d.bars[i].OpenTime) then inject else 0.0
  {
  }

  ghost function MonthChanges(d: Dca, month: int -> (int, int), n: nat): nat
    requires 1 <= n <= |d.bars|
  {
    if n == 1 then 0
    else MonthChanges(d, month, n - 1) + if month(d.bars[n - 2].OpenTime) != month(d.bars[n - 1].OpenTime) then 1 else 0
  }

  // ---------------------------------------------------------------- the return

  /** Every contribution times how long it was invested, to the end. */
  ghost function InvestedTime(injs: seq<Injection>, endMs: int): real {
    if injs == [] then 0.0
    else
      var last := injs[|injs| - 1];
      InvestedTime(injs[..|injs| - 1], endMs) + Mul((endMs - last.timeMs) as real, last.amount)
  }

  lemma {:induction false} WeightedIs(injs: seq<Injection>, startMs: int, endMs: int, span: real)
    requires span > 0.0 && span == (endMs - startMs) as real
    ensures Mul(Weighted(injs, startMs, span), span) == InvestedTime(injs, endMs)
  {
    if injs == [] {
      MulZero(span);
    } else {
      var n := |injs| - 1;
      WeightedIs(injs[..n], startMs, endMs, span);
      var last := injs[n];
      Share(last.timeMs, startMs, endMs, span, last.amount);
      hide Mul;
      MulAdd(Weighted(injs[..n], startMs, span), (span - (last.timeMs - startMs) as real) / span * last.amount, span);
    }
  }

  lemma Share(t: int, startMs: int, endMs: int, span: real, amount: real)
    requires span > 0.0 && span == (endMs - startMs) as real
    ensures Mul((span - (t - startMs) as real) / span * amount, span) == Mul((endMs - t) as real, amount)
  {
    var x := span - (t - startMs) as real;
    assert x == (endMs - t) as real;
    var w := x / span;
    assert w * span == x;
    assert w * amount * span == w * span * amount;
  }

  /** The Dietz return makes the gain over the contributions their invested time's
      share of the span; a series without a span, or contributions without invested
      time, have a plain return or none. */
  lemma DietzMeans(injs: seq<Injection>, bars: seq<Bar>, final: real)
    requires injs != [] && |bars| >= 2
    ensures var r, endMs := DietzOf(injs, bars, final), bars[|bars| - 1].OpenTime;
            var span, gain, w :=
              (endMs - bars[0].OpenTime) as real, final - SumAmounts(injs), InvestedTime(injs, endMs);
            if span > 0.0 then (if w == 0.0 then r == 0.0 else Mul(r, w) == Mul(gain, span))
            else if SumAmounts(injs) == 0.0 then r == 0.0 else Mul(r, SumAmounts(injs)) == gain
  {
    var r, endMs := DietzOf(injs, bars, final), bars[|bars| - 1].OpenTime;
    var span, gain := (endMs - bars[0].OpenTime) as real, final - SumAmounts(injs);
    assert span == (endMs - bars[0].OpenTime) as real;
    if span > 0.0 {
      WeightedIs(injs, bars[0].OpenTime, endMs, span);
      var w := Weighted(injs, bars[0].OpenTime, span);
      hide Weighted, InvestedTime, SumAmounts;
      if w == 0.0 {
        MulZero(span);
      } else {
        NotZero(w, span);
        Solved(gain, w, span);
      }
    } else if SumAmounts(injs) != 0.0 {
      hide Weighted, InvestedTime;
      Back(gain, SumAmounts(injs));
    }
  }

  lemma NotZero(w: real, span: real)
    requires w != 0.0 && span > 0.0
    ensures Mul(w, span) != 0.0
  {
    MulNonZero(w, span);
  }

  lemma Solved(gain: real, w: real, span: real)
    requires w != 0.0
    ensures Mul(gain / w, Mul(w, span)) == Mul(gain, span)
  {
    var r := gain / w;
    assert r * w == gain;
    assert r * (w * span) == r * w * span;
  }

  lemma Back(gain: real, c: real)
    requires c != 0.0
    ensures Mul(gain / c, c) == gain
  {
  }

  /** The reported return is the chain-linked one when an injection after the first
      is more than a tenth of the value it meets, and the Dietz return otherwise. */
  lemma RoiMeans(injs: seq<Injection>, bars: seq<Bar>, final: real)
    ensures var large := exists k ::
                1 <= k < |injs| && injs[k].navBefore > 0.0 && injs[k].amount * 10.0 > injs[k].navBefore;
            RoiOf(injs, bars, final) == if large then TwrOf(injs, final) else DietzOf(injs, bars, final)
  {
    forall k | 1 <= k < |injs| && injs[k].navBefore > 0.0
      ensures Oversized(injs[k]) <==> injs[k].amount * 10.0 > injs[k].navBefore
    {
      Tenth(injs[k].amount, injs[k].navBefore);
    }
    hide TwrOf, DietzOf;
    if UsesTwr(injs) {
      var k :| 1 <= k < |injs| && Oversized(injs[k]);
      assert injs[k].amount * 10.0 > injs[k].navBefore;
    }
  }

  lemma Tenth(a: real, v: real)
    requires v > 0.0
    ensures a / v > 0.10 <==> a * 10.0 > v
  {
    var q := a / v;
    assert q * v == a;
    if q > 0.1 {
      MulPositive(q - 0.1, v);
    } else {
      MulNonneg(0.1 - q, v);
    }
  }
}
