/** The passive dollar-cost-averaging baselines and the friction every simulator
    buys and sells through. Amounts are reals. */
module GhostDca {
  import opened Common
  import opened Reals

  datatype Friction = Friction(SlippageBPS: real, TakerFeeBPS: real) {
    function SlipRate(): real { SlippageBPS / 10000.0 }

    function FeeRate(): real { TakerFeeBPS / 10000.0 }

    /** The execution price is not zero. */
    predicate Priced() { SlipRate() != -1.0 }

    /** The share of a notional that arrives as asset value. */
    function Kept(): real
      requires Priced()
    {
      (1.0 - FeeRate()) / (1.0 + SlipRate())
    }

    /** A buy leaves the buyer with some of the asset: with slippage above -100%,
        exactly when the fee is below 100%. */
    predicate Delivers() { Priced() && Kept() > 0.0 }

    /** What buying and selling back leaves of a notional where buys deliver. */
    function RoundTrip(): real
      requires Priced()
    {
      Mul(Kept(), Mul(1.0 - SlipRate(), 1.0 - FeeRate()))
    }
  }

  datatype BuyFill = BuyFill(filledQty: real, feeUSD: real, slippageCost: real)

  datatype SellFill = SellFill(filledQuoteUSD: real, feeUSD: real, slippageCost: real)

  function ExecPrice(price: real, rate: real): (e: real)
    requires price > 0.0 && rate != -1.0
    ensures e != 0.0
    ensures rate > -1.0 ==> e > 0.0
  {
    price * (1.0 + rate)
  }

  function ApplyBuyFriction(notionalUSD: real, price: real, fp: Friction): BuyFill
    requires fp.Priced()
  {
    if notionalUSD <= 0.0 || price <= 0.0 then BuyFill(0.0, 0.0, 0.0)
    else
      var preFeeQty := notionalUSD / ExecPrice(price, fp.SlipRate());
      BuyFill(preFeeQty * (1.0 - fp.FeeRate()), notionalUSD * fp.FeeRate(), notionalUSD - preFeeQty * price)
  }

  function ApplySellFriction(qty: real, price: real, fp: Friction): SellFill {
    if qty <= 0.0 || price <= 0.0 then SellFill(0.0, 0.0, 0.0)
    else
      var preFeeQuote := qty * (price * (1.0 - fp.SlipRate()));
      SellFill(preFeeQuote * (1.0 - fp.FeeRate()), preFeeQuote * fp.FeeRate(), qty * price - preFeeQuote)
  }

  const FRICTIONLESS := Friction(0.0, 0.0)

  /** Friction scales what a notional buys by one factor, whatever the price. */
  lemma BuyScales(notionalUSD: real, price: real, fp: Friction)
    requires fp.Priced() && notionalUSD > 0.0 && price > 0.0
    ensures ApplyBuyFriction(notionalUSD, price, fp).filledQty == Mul(notionalUSD / price, fp.Kept())
  {
  }

  /** Without friction a buy is the plain quotient and costs nothing. */
  lemma FrictionlessBuy(notionalUSD: real, price: real)
    requires notionalUSD > 0.0 && price > 0.0
    ensures ApplyBuyFriction(notionalUSD, price, FRICTIONLESS) == BuyFill(notionalUSD / price, 0.0, 0.0)
  {
    var s, f := FRICTIONLESS.SlipRate(), FRICTIONLESS.FeeRate();
    assert s == 0.0 && f == 0.0 && FRICTIONLESS.Priced();
    var exec := ExecPrice(price, s);
    assert exec == price by { TimesOne(price); }
    var pre := notionalUSD / exec;
    assert ApplyBuyFriction(notionalUSD, price, FRICTIONLESS) ==
      BuyFill(pre * (1.0 - f), notionalUSD * f, notionalUSD - pre * price);
    hide *;
    TimesOne(pre);
    assert pre * price == notionalUSD;
  }

  lemma TimesOne(x: real)
    ensures x * (1.0 - 0.0) == x && x * (1.0 + 0.0) == x && x * 0.0 == 0.0
  {
  }

  lemma ScaleDown(x: real, k: real)
    requires x >= 0.0 && 0.0 <= k <= 1.0
    ensures 0.0 <= x * k <= x
  {
  }

  lemma KeptInRange(fp: Friction)
    requires fp.SlipRate() >= 0.0 && 0.0 <= fp.FeeRate() <= 1.0
    ensures 0.0 <= fp.Kept() <= 1.0
  {
  }

  /** Buying and selling back at one price returns one share of the notional,
      whatever the price, or nothing where buys do not deliver. */
  lemma RoundTripIs(notionalUSD: real, price: real, fp: Friction)
    requires notionalUSD > 0.0 && price > 0.0 && fp.Priced()
    ensures ApplySellFriction(ApplyBuyFriction(notionalUSD, price, fp).filledQty, price, fp).filledQuoteUSD ==
            if fp.Delivers() then Mul(notionalUSD, fp.RoundTrip()) else 0.0
  {
    hide ApplyBuyFriction, ApplySellFriction, Mul, Friction.Kept, Friction.SlipRate, Friction.FeeRate, Friction.Priced;
    var q, k, a, b := notionalUSD / price, fp.Kept(), 1.0 - fp.SlipRate(), 1.0 - fp.FeeRate();
    BuyScales(notionalUSD, price, fp);
    SellIs(Mul(q, k), price, fp, fp.SlipRate(), fp.FeeRate());
    DivPositive(notionalUSD, price);
    MulCommutes(q, k);
    MulOrder(k, 0.0, q);
    MulZero(q);
    Rearranged(q, price, k, a, b);
    QuotientTimes(notionalUSD, price);
  }

  lemma Rearranged(q: real, p: real, k: real, a: real, b: real)
    ensures Mul(Mul(Mul(q, k), Mul(p, a)), b) == Mul(Mul(q, p), Mul(k, Mul(a, b)))
  {
    assert q * k * (p * a) * b == q * p * (k * (a * b));
  }

  lemma QuotientTimes(a: real, p: real)
    requires p != 0.0
    ensures Mul(a / p, p) == a
  {
  }

  /** So a round trip never gains exactly when buys do not deliver or that share is
      at most 1, as it is for all rates between 0 and 100%. */
  lemma RoundTripNeverGains(notionalUSD: real, price: real, fp: Friction)
    requires notionalUSD > 0.0 && price > 0.0 && fp.Priced()
    ensures var bought := ApplyBuyFriction(notionalUSD, price, fp).filledQty;
            ApplySellFriction(bought, price, fp).filledQuoteUSD <= notionalUSD
            <==> !fp.Delivers() || fp.RoundTrip() <= 1.0
    ensures 0.0 <= fp.SlipRate() <= 1.0 && 0.0 <= fp.FeeRate() <= 1.0 ==> fp.RoundTrip() <= 1.0
  {
    hide *;
    RoundTripIs(notionalUSD, price, fp);
    MulCommutes(notionalUSD, fp.RoundTrip());
    MulOrder(fp.RoundTrip(), 1.0, notionalUSD);
    MulOne(notionalUSD);
    if 0.0 <= fp.SlipRate() <= 1.0 && 0.0 <= fp.FeeRate() <= 1.0 {
      RoundTripShrinks(fp);
    }
  }

  lemma RoundTripShrinks(fp: Friction)
    requires fp.Priced() && 0.0 <= fp.SlipRate() <= 1.0 && 0.0 <= fp.FeeRate() <= 1.0
    ensures fp.RoundTrip() <= 1.0
  {
    hide Mul, Friction.Kept, Friction.SlipRate, Friction.FeeRate, Friction.Priced;
    KeptInRange(fp);
    var a, b := 1.0 - fp.SlipRate(), 1.0 - fp.FeeRate();
    Shrinks(a, b);
    Shrinks(fp.Kept(), Mul(a, b));
  }

  lemma Shrinks(x: real, k: real)
    requires x >= 0.0 && 0.0 <= k <= 1.0
    ensures 0.0 <= Mul(x, k) <= x
  {
    ScaleDown(x, k);
  }

  lemma SellIs(qty: real, price: real, fp: Friction, slip: real, fee: real)
    requires slip == fp.SlipRate() && fee == fp.FeeRate() && price > 0.0
    ensures ApplySellFriction(qty, price, fp).filledQuoteUSD ==
            if qty <= 0.0 then 0.0 else Mul(Mul(qty, Mul(price, 1.0 - slip)), 1.0 - fee)
  {
    hide Friction.SlipRate, Friction.FeeRate;
  }

  // ---------------------------------------------------------------- the simulation

  datatype Bar = Bar(OpenTime: int, Close: real)

  datatype Injection = Injection(idx: nat, timeMs: int, amount: real, navBefore: real, navAfter: real)

  /** Whether, and with how much, to inject between two bars. */
  type Trigger = (int, int) -> Option<real>

  datatype Dca = Dca(initialCapital: real, bars: seq<Bar>, fp: Friction, trigger: Trigger) {
    /** The amount bought at bar i, 0 for none. */
    function AmountAt(i: nat): (a: real)
      requires i < |bars|
      ensures a >= 0.0
      ensures a > 0.0 ==> bars[i].Close > 0.0
    {
      if i == 0 then (if initialCapital > 0.0 && bars[0].Close > 0.0 then initialCapital else 0.0)
      else
        match trigger(bars[i - 1].OpenTime, bars[i].OpenTime)
        case None => 0.0
        case Some(amount) => if amount > 0.0 && bars[i].Close > 0.0 then amount else 0.0
    }

    /** Holdings before any buy at bar i. */
    function QtyBefore(i: nat): real
      requires fp.Priced() && i <= |bars|
    {
      if i == 0 then 0.0 else QtyBefore(i - 1) + ApplyBuyFriction(AmountAt(i - 1), bars[i - 1].Close, fp).filledQty
    }

    function NavAt(i: nat): real
      requires fp.Priced() && i < |bars|
    {
      Mul(QtyBefore(i + 1), bars[i].Close)
    }

    function Navs(n: nat): (s: seq<real>)
      requires fp.Priced() && n <= |bars|
      ensures |s| == n
    {
      seq(n, i requires 0 <= i < n => NavAt(i))
    }

    function InjectionAt(i: nat): Injection
      requires fp.Priced() && i < |bars|
    {
      Injection(i, bars[i].OpenTime, AmountAt(i), if i == 0 then 0.0 else Mul(QtyBefore(i), bars[i].Close), NavAt(i))
    }

    /** The cash flows of the first n bars. */
    function Injections(n: nat): seq<Injection>
      requires fp.Priced() && n <= |bars|
    {
      if n == 0 then []
      else Injections(n - 1) + if AmountAt(n - 1) > 0.0 then [InjectionAt(n - 1)] else []
    }
  }

  function SumAmounts(injs: seq<Injection>): real {
    if injs == [] then 0.0 else SumAmounts(injs[..|injs| - 1]) + injs[|injs| - 1].amount
  }

  function PeakOf(nav: seq<real>): real
    requires nav != []
  {
    if |nav| == 1 then nav[0]
    else
      var p, v := PeakOf(nav[..|nav| - 1]), nav[|nav| - 1];
      if v > p then v else p
  }

  function Deepened(mdd: real, peak: real, v: real): (r: real)
    ensures r >= mdd
  {
    if peak > 0.0 && (peak - v) / peak > mdd then (peak - v) / peak else mdd
  }

  function DrawdownOf(nav: seq<real>): (d: real)
    ensures d >= 0.0
  {
    if nav == [] then 0.0 else Deepened(DrawdownOf(nav[..|nav| - 1]), PeakOf(nav), nav[|nav| - 1])
  }

  /** The growth over the first k sub-periods; one that starts from nothing is skipped. */
  function Growth(injs: seq<Injection>, final: real, k: nat): real
    requires k <= |injs|
  {
    if k == 0 then 1.0
    else
      var start := injs[k - 1].navAfter;
      var end := if k < |injs| then injs[k].navBefore else final;
      if start <= 0.0 then Growth(injs, final, k - 1) else Growth(injs, final, k - 1) * (end / start)
  }

  function TwrOf(injs: seq<Injection>, final: real): real {
    if injs == [] then 0.0 else Growth(injs, final, |injs|) - 1.0
  }

  /** Contributions weighted by the share of the span they were invested for. */
  function Weighted(injs: seq<Injection>, startMs: int, span: real): real
    requires span > 0.0
  {
    if injs == [] then 0.0
    else
      var last := injs[|injs| - 1];
      Weighted(injs[..|injs| - 1], startMs, span) + (span - (last.timeMs - startMs) as real) / span * last.amount
  }

  function DietzOf(injs: seq<Injection>, bars: seq<Bar>, final: real): real {
    if injs == [] || |bars| < 2 then 0.0
    else
      var span, sumC := (bars[|bars| - 1].OpenTime - bars[0].OpenTime) as real, SumAmounts(injs);
      if span <= 0.0 then (if sumC == 0.0 then 0.0 else (final - sumC) / sumC)
      else
        var w := Weighted(injs, bars[0].OpenTime, span);
        if w == 0.0 then 0.0 else (final - sumC) / w
  }

  /** An injection after the first that exceeds a tenth of the value before it. */
  predicate Oversized(inj: Injection) {
    inj.navBefore > 0.0 && inj.amount / inj.navBefore > 0.10
  }

  predicate UsesTwr(injs: seq<Injection>) {
    exists k :: 1 <= k < |injs| && Oversized(injs[k])
  }

  function RoiOf(injs: seq<Injection>, bars: seq<Bar>, final: real): real {
    if UsesTwr(injs) then TwrOf(injs, final) else DietzOf(injs, bars, final)
  }

  datatype DcaResult = DcaResult(FinalEquity: real, TotalInjected: real, MaxDrawdown: real, ROI: real)

  function ResultOf(d: Dca): DcaResult
    requires d.fp.Priced()
  {
    var n := |d.bars|;
    if n == 0 then DcaResult(0.0, 0.0, 0.0, 0.0)
    else
      var injs := d.Injections(n);
      DcaResult(d.NavAt(n - 1), SumAmounts(injs), DrawdownOf(d.Navs(n)), RoiOf(injs, d.bars, d.NavAt(n - 1)))
  }

  method MaxDrawdown(nav: array<real>) returns (mdd: real)
    ensures mdd == DrawdownOf(nav[..])
  {
    if nav.Length == 0 {
      return 0.0;
    }
    var peak := nav[0];
    mdd := 0.0;
    for i := 0 to nav.Length
      invariant mdd == DrawdownOf(nav[..i])
      invariant peak == if i == 0 then nav[0] else PeakOf(nav[..i])
    {
      assert nav[..i + 1][..i] == nav[..i];
      var v := nav[i];
      if v > peak {
        peak := v;
      }
      if peak > 0.0 {
        var dd := (peak - v) / peak;
        if dd > mdd {
          mdd := dd;
        }
      }
    }
    assert nav[..nav.Length] == nav[..];
  }

  method Twr(injs: seq<Injection>, final: real) returns (r: real)
    ensures r == TwrOf(injs, final)
  {
    if injs == [] {
      return 0.0;
    }
    var growth := 1.0;
    for k := 0 to |injs|
      invariant growth == Growth(injs, final, k)
    {
      var start := injs[k].navAfter;
      var end := if k + 1 < |injs| then injs[k + 1].navBefore else final;
      if start > 0.0 {
        growth := growth * (end / start);
      }
    }
    r := growth - 1.0;
  }

  method ModifiedDietz(injs: seq<Injection>, bars: seq<Bar>, final: real) returns (r: real)
    ensures r == DietzOf(injs, bars, final)
  {
    if injs == [] || |bars| < 2 {
      return 0.0;
    }
    var startMs := bars[0].OpenTime;
    var span := (bars[|bars| - 1].OpenTime - startMs) as real;
    var sumC, wSumC := 0.0, 0.0;
    for k := 0 to |injs|
      invariant sumC == SumAmounts(injs[..k])
      invariant span > 0.0 ==> wSumC == Weighted(injs[..k], startMs, span)
    {
      assert injs[..k + 1][..k] == injs[..k];
      if span > 0.0 {
        wSumC := wSumC + (span - (injs[k].timeMs - startMs) as real) / span * injs[k].amount;
      }
      sumC := sumC + injs[k].amount;
    }
    assert injs[..|injs|] == injs;
    if span <= 0.0 {
      return if sumC == 0.0 then 0.0 else (final - sumC) / sumC;
    }
    r := if wSumC == 0.0 then 0.0 else (final - sumC) / wSumC;
  }

  method ComputeRoi(injs: seq<Injection>, bars: seq<Bar>, final: real) returns (r: real)
    ensures r == RoiOf(injs, bars, final)
  {
    if injs == [] {
      return 0.0;
    }
    var useTwr, k := false, 1;
    while k < |injs| && !useTwr
      invariant 1 <= k <= |injs|
      invariant useTwr <==> exists j :: 1 <= j < k && Oversized(injs[j])
    {
      useTwr := injs[k].navBefore > 0.0 && injs[k].amount / injs[k].navBefore > 0.10;
      assert useTwr == Oversized(injs[k]);
      k := k + 1;
    }
    if useTwr {
      r := Twr(injs, final);
    } else {
      r := ModifiedDietz(injs, bars, final);
    }
  }

  /** One pass over the bars, holding no cash after any buy. */
  method SimulateDca(d: Dca) returns (res: DcaResult)
    requires d.fp.Priced()
    ensures res == ResultOf(d)
  {
    hide *;
    var n := |d.bars|;
    if n == 0 {
      EmptyResult(d);
      return DcaResult(0.0, 0.0, 0.0, 0.0);
    }
    var qty, totalInjected := 0.0, 0.0;
    var nav := new real[n];
    var injs: seq<Injection> := [];
    if d.initialCapital > 0.0 && d.bars[0].Close > 0.0 {
      qty := qty + ApplyBuyFriction(d.initialCapital, d.bars[0].Close, d.fp).filledQty;
      totalInjected := totalInjected + d.initialCapital;
      injs := [Injection(0, d.bars[0].OpenTime, d.initialCapital, 0.0, Mul(qty, d.bars[0].Close))];
    }
    nav[0] := Mul(qty, d.bars[0].Close);
    FirstBar(d);
    assert nav[..1] == [nav[0]];
    for i := 1 to n
      invariant d.fp.Priced() && qty == d.QtyBefore(i) && nav[..i] == d.Navs(i)
      invariant injs == d.Injections(i) && totalInjected == SumAmounts(injs)
    {
      NextBar(d, i);
      var close := d.bars[i].Close;
      var navBefore := Mul(qty, close);
      var fire := d.trigger(d.bars[i - 1].OpenTime, d.bars[i].OpenTime);
      if fire.Some? && fire.value > 0.0 && close > 0.0 {
        qty := qty + ApplyBuyFriction(fire.value, close, d.fp).filledQty;
        totalInjected := totalInjected + fire.value;
        injs := injs + [Injection(i, d.bars[i].OpenTime, fire.value, navBefore, Mul(qty, close))];
        nav[i] := Mul(qty, close);
      } else {
        nav[i] := navBefore;
      }
      assert nav[..i + 1] == nav[..i] + [nav[i]];
    }
    assert nav[..] == nav[..n];
    LastBar(d);
    var mdd := MaxDrawdown(nav);
    var roi := ComputeRoi(injs, d.bars, nav[n - 1]);
    res := DcaResult(nav[n - 1], totalInjected, mdd, roi);
  }

  lemma EmptyResult(d: Dca)
    requires d.fp.Priced() && |d.bars| == 0
    ensures ResultOf(d) == DcaResult(0.0, 0.0, 0.0, 0.0)
  {
  }

  lemma LastBar(d: Dca)
    requires d.fp.Priced() && |d.bars| > 0
    ensures var n := |d.bars|;
            && d.Navs(n)[n - 1] == d.NavAt(n - 1)
            && ResultOf(d) == DcaResult(d.NavAt(n - 1), SumAmounts(d.Injections(n)), DrawdownOf(d.Navs(n)),
                                        RoiOf(d.Injections(n), d.bars, d.NavAt(n - 1)))
  {
  }

  lemma FirstBar(d: Dca)
    requires d.fp.Priced() && |d.bars| > 0
    ensures var bar := d.bars[0];
            var buys := d.initialCapital > 0.0 && bar.Close > 0.0;
            var qty := if buys then 0.0 + ApplyBuyFriction(d.initialCapital, bar.Close, d.fp).filledQty else 0.0;
            && d.QtyBefore(1) == qty && d.Navs(1) == [Mul(qty, bar.Close)]
            && d.Injections(1) ==
               (if buys then [Injection(0, bar.OpenTime, d.initialCapital, 0.0, Mul(qty, bar.Close))] else [])
            && SumAmounts(d.Injections(1)) == if buys then 0.0 + d.initialCapital else 0.0
  {
  }

  lemma NextBar(d: Dca, i: nat)
    requires d.fp.Priced() && 1 <= i < |d.bars|
    ensures var bar := d.bars[i];
            var fire := d.trigger(d.bars[i - 1].OpenTime, bar.OpenTime);
            var buys := fire.Some? && fire.value > 0.0 && bar.Close > 0.0;
            var qty := d.QtyBefore(i) + if buys then ApplyBuyFriction(fire.value, bar.Close, d.fp).filledQty else 0.0;
            && d.QtyBefore(i + 1) == qty && d.Navs(i + 1) == d.Navs(i) + [Mul(qty, bar.Close)]
            && d.Injections(i + 1) == d.Injections(i)
                 + (if buys
                    then [Injection(i, bar.OpenTime, fire.value, Mul(d.QtyBefore(i), bar.Close), Mul(qty, bar.Close))]
                    else [])
            && SumAmounts(d.Injections(i + 1)) == SumAmounts(d.Injections(i)) + if buys then fire.value else 0.0
  {
    hide ApplyBuyFriction, Mul, Dca.QtyBefore, Friction.Priced;
    BuyNothing(d.fp);
    QtyStep(d, i + 1);
    assert d.Navs(i + 1) == d.Navs(i) + [d.NavAt(i)];
    var inj := d.InjectionAt(i);
    assert (d.Injections(i) + [inj])[..|d.Injections(i)|] == d.Injections(i) && inj.amount == d.AmountAt(i);
    assert d.Injections(i) + [] == d.Injections(i);
  }

  lemma BuyNothing(fp: Friction)
    requires fp.Priced()
    ensures forall price :: ApplyBuyFriction(0.0, price, fp).filledQty == 0.0
  {
  }

  // ---------------------------------------------------------------- friction cancels out

  lemma BuyRatio(a: real, price: real, fp: Friction)
    requires fp.Priced() && (a > 0.0 ==> price > 0.0)
    ensures ApplyBuyFriction(a, price, fp).filledQty ==
            Mul(ApplyBuyFriction(a, price, FRICTIONLESS).filledQty, fp.Kept())
  {
    assert FRICTIONLESS.Priced();
    if a > 0.0 {
      hide *;
      BuyScales(a, price, fp);
      FrictionlessBuy(a, price);
    } else {
      MulZero(fp.Kept());
    }
  }

  lemma SameAmount(d: Dca, fp: Friction, i: nat)
    requires i < |d.bars|
    ensures d.(fp := fp).AmountAt(i) == d.AmountAt(i)
  {
  }

  /** Friction scales every holding by the same factor. */
  lemma {:induction false} QtyScales(d: Dca, i: nat)
    requires d.fp.Priced() && i <= |d.bars|
    ensures d.QtyBefore(i) == Mul(d.(fp := FRICTIONLESS).QtyBefore(i), d.fp.Kept())
  {
    hide *;
    FrictionlessPriced();
    QtyStep(d, i);
    QtyStep(d.(fp := FRICTIONLESS), i);
    if i == 0 {
      MulZero(d.fp.Kept());
    } else {
      QtyScales(d, i - 1);
      SameAmount(d, FRICTIONLESS, i - 1);
      BuyRatio(d.AmountAt(i - 1), d.bars[i - 1].Close, d.fp);
      MulAdd(d.(fp := FRICTIONLESS).QtyBefore(i - 1),
             ApplyBuyFriction(d.AmountAt(i - 1), d.bars[i - 1].Close, FRICTIONLESS).filledQty, d.fp.Kept());
    }
  }

  lemma FrictionlessPriced()
    ensures FRICTIONLESS.Priced()
  {
  }

  lemma QtyStep(d: Dca, i: nat)
    requires d.fp.Priced() && i <= |d.bars|
    ensures d.QtyBefore(i) == if i == 0 then 0.0
                              else d.QtyBefore(i - 1)
                                   + ApplyBuyFriction(d.AmountAt(i - 1), d.bars[i - 1].Close, d.fp).filledQty
  {
    hide ApplyBuyFriction, Dca.AmountAt, Friction.Priced;
  }

  /** Two paths that differ by a factor. */
  ghost predicate Scaled(xs: seq<real>, ys: seq<real>, c: real) {
    |xs| == |ys| && forall i | 0 <= i < |xs| :: xs[i] == Mul(ys[i], c)
  }

  lemma {:induction false} PeakScales(xs: seq<real>, ys: seq<real>, c: real)
    requires c > 0.0 && Scaled(xs, ys, c) && xs != []
    ensures PeakOf(xs) == Mul(PeakOf(ys), c)
  {
    hide Mul;
    if |xs| > 1 {
      var n := |xs| - 1;
      PeakScales(xs[..n], ys[..n], c);
      MulOrder(ys[n], PeakOf(ys[..n]), c);
    }
  }

  lemma DeepenedScales(mdd: real, p: real, v: real, c: real)
    requires c > 0.0
    ensures Deepened(mdd, Mul(p, c), Mul(v, c)) == Deepened(mdd, p, v)
  {
  }

  lemma {:induction false} DrawdownScales(xs: seq<real>, ys: seq<real>, c: real)
    requires c > 0.0 && Scaled(xs, ys, c)
    ensures DrawdownOf(xs) == DrawdownOf(ys)
  {
    hide Mul, Deepened;
    if xs != [] {
      var n := |xs| - 1;
      DrawdownScales(xs[..n], ys[..n], c);
      PeakScales(xs, ys, c);
      DeepenedScales(DrawdownOf(ys[..n]), PeakOf(ys), ys[n], c);
    }
  }

  lemma DeliversIff(fp: Friction)
    requires fp.SlipRate() > -1.0
    ensures fp.Delivers() <==> fp.FeeRate() < 1.0
  {
    var a, p := 1.0 - fp.FeeRate(), 1.0 + fp.SlipRate();
    if a > 0.0 {
      DivPositive(a, p);
    } else {
      DivNotPositive(a, p);
    }
  }

  lemma NavsScale(d: Dca, n: nat)
    requires d.fp.Priced() && n <= |d.bars|
    ensures Scaled(d.Navs(n), d.(fp := FRICTIONLESS).Navs(n), d.fp.Kept())
  {
    hide Mul, Friction.Kept, Dca.QtyBefore;
    var free := d.(fp := FRICTIONLESS);
    forall i | 0 <= i < n ensures d.Navs(n)[i] == Mul(free.Navs(n)[i], d.fp.Kept()) {
      QtyScales(d, i + 1);
      MulSwap(free.QtyBefore(i + 1), d.fp.Kept(), d.bars[i].Close);
    }
  }

  /** Any two frictions under which buys deliver give the same drawdown. */
  lemma DrawdownIgnoresFriction(d: Dca, fp: Friction)
    requires d.fp.Delivers() && fp.Delivers()
    ensures ResultOf(d).MaxDrawdown == ResultOf(d.(fp := fp)).MaxDrawdown
  {
    var n := |d.bars|;
    NavsScale(d, n);
    NavsScale(d.(fp := fp), n);
    assert d.(fp := fp).(fp := FRICTIONLESS) == d.(fp := FRICTIONLESS);
    DrawdownScales(d.Navs(n), d.(fp := FRICTIONLESS).Navs(n), d.fp.Kept());
    DrawdownScales(d.(fp := fp).Navs(n), d.(fp := FRICTIONLESS).Navs(n), fp.Kept());
  }

  lemma {:induction false} PeakIsHighest(nav: seq<real>)
    requires nav != []
    ensures forall i | 0 <= i < |nav| :: nav[i] <= PeakOf(nav)
    ensures exists i :: 0 <= i < |nav| && nav[i] == PeakOf(nav)
  {
    var n := |nav| - 1;
    if n == 0 || nav[n] > PeakOf(nav[..n]) {
      assert nav[n] == PeakOf(nav);
    }
    if n > 0 {
      PeakIsHighest(nav[..n]);
      var i :| 0 <= i < n && nav[..n][i] == PeakOf(nav[..n]);
      assert nav[i] == PeakOf(nav[..n]);
    }
  }

  /** A path that is never negative after it was above zero. */
  ghost predicate StaysAbove(nav: seq<real>) {
    forall i, j | 0 <= i < j < |nav| && nav[i] > 0.0 :: nav[j] >= 0.0
  }

  lemma DeepenedWithin(mdd: real, peak: real, v: real)
    ensures Deepened(mdd, peak, v) <= 1.0 <==> mdd <= 1.0 && (peak > 0.0 ==> v >= 0.0)
  {
    if peak > 0.0 {
      var q := (peak - v) / peak;
      assert q * peak == peak - v;
      if v >= 0.0 && q > 1.0 {
        MulPositive(q - 1.0, peak);
      } else if v < 0.0 && q <= 1.0 {
        MulNonneg(1.0 - q, peak);
      }
    }
  }

  /** The drawdown is never negative, and it exceeds 1 exactly when the path falls
      below zero after it was above. */
  lemma {:induction false} DrawdownInRange(nav: seq<real>)
    ensures 0.0 <= DrawdownOf(nav)
    ensures DrawdownOf(nav) <= 1.0 <==> StaysAbove(nav)
  {
    hide Deepened, PeakOf;
    if nav != [] {
      var n := |nav| - 1;
      var init, p, v := nav[..n], PeakOf(nav), nav[n];
      DrawdownInRange(init);
      DeepenedWithin(DrawdownOf(init), p, v);
      PeakIsHighest(nav);
      if p > 0.0 && v < 0.0 {
        var i :| 0 <= i < |nav| && nav[i] == p;
        assert i < n && nav[i] > 0.0;
      } else {
        forall i, j | 0 <= i < j < |nav| && nav[i] > 0.0 && StaysAbove(init) ensures nav[j] >= 0.0 {
          assert j < n ==> init[i] == nav[i] && init[j] == nav[j];
        }
      }
      if StaysAbove(nav) {
        forall i, j | 0 <= i < j < n && init[i] > 0.0 ensures init[j] >= 0.0 {
          assert nav[i] == init[i] && nav[j] == init[j];
        }
      }
    }
  }

  /** Something was bought at bar i or before. */
  ghost predicate BoughtBy(d: Dca, i: nat)
    requires i < |d.bars|
  {
    exists k :: 0 <= k <= i && d.AmountAt(k) > 0.0
  }

  /** No bar after the first injection has a negative close. */
  ghost predicate ClosesStayAbove(d: Dca) {
    forall k, j | 0 <= k < j < |d.bars| && d.AmountAt(k) > 0.0 :: d.bars[j].Close >= 0.0
  }

  /** Where buys deliver, holdings are positive from the first one on, and nothing before. */
  lemma {:induction false} HeldOnceBought(d: Dca, i: nat)
    requires d.fp.Delivers() && i < |d.bars|
    ensures if BoughtBy(d, i) then d.QtyBefore(i + 1) > 0.0 else d.QtyBefore(i + 1) == 0.0
  {
    hide ApplyBuyFriction, Friction.Kept, Dca.AmountAt;
    QtyStep(d, i + 1);
    QtyPositive(d, i + 1);
    BuyNothing(d.fp);
    if i == 0 {
      QtyStep(d, 0);
    } else {
      HeldOnceBought(d, i - 1);
      if BoughtBy(d, i) && !BoughtBy(d, i - 1) {
        var k :| 0 <= k <= i && d.AmountAt(k) > 0.0;
        assert k == i;
      }
      if BoughtBy(d, i - 1) {
        BuyAtLeastNothing(d, i);
      }
    }
  }

  lemma BuyAtLeastNothing(d: Dca, i: nat)
    requires d.fp.Delivers() && i < |d.bars|
    ensures ApplyBuyFriction(d.AmountAt(i), d.bars[i].Close, d.fp).filledQty >= 0.0
  {
    hide ApplyBuyFriction, Friction.Kept, Dca.AmountAt;
    var a, price := d.AmountAt(i), d.bars[i].Close;
    if a > 0.0 {
      BuyPositive(a, price, d.fp);
    } else {
      BuyNothing(d.fp);
    }
  }

  lemma BuyPositive(a: real, price: real, fp: Friction)
    requires fp.Delivers() && a > 0.0 && price > 0.0
    ensures ApplyBuyFriction(a, price, fp).filledQty > 0.0
  {
    hide ApplyBuyFriction, Friction.Kept, Mul;
    BuyScales(a, price, fp);
    DivPositive(a, price);
    MulOrder(a / price, 0.0, fp.Kept());
  }

  /** The value of a bar has the sign of its close once something was bought. */
  lemma NavSign(d: Dca, i: nat)
    requires d.fp.Delivers() && i < |d.bars|
    ensures d.NavAt(i) > 0.0 <==> BoughtBy(d, i) && d.bars[i].Close > 0.0
    ensures d.NavAt(i) < 0.0 <==> BoughtBy(d, i) && d.bars[i].Close < 0.0
  {
    var q, c := d.QtyBefore(i + 1), d.bars[i].Close;
    HeldOnceBought(d, i);
    hide ApplyBuyFriction, Dca.QtyBefore, BoughtBy;
    MulZero(c);
    if q > 0.0 {
      MulCommutes(q, c);
      MulOrder(c, 0.0, q);
      MulOrder(-c, 0.0, q);
      MulAdd(c, -c, q);
      MulZero(q);
    }
  }

  lemma BoughtLater(d: Dca, k: nat, i: nat)
    requires k <= i < |d.bars| && d.AmountAt(k) > 0.0
    ensures BoughtBy(d, i)
  {
  }

  /** Where buys deliver, the drawdown stays within 1 exactly when no bar after the
      first injection has a negative close. */
  lemma DrawdownWithinOne(d: Dca)
    requires d.fp.Delivers()
    ensures ResultOf(d).MaxDrawdown <= 1.0 <==> ClosesStayAbove(d)
  {
    var n := |d.bars|;
    DrawdownInRange(d.Navs(n));
    hide Dca.NavAt, Dca.AmountAt, Friction.Kept, DrawdownOf, BoughtBy;
    if !StaysAbove(d.Navs(n)) {
      var i, j :| 0 <= i < j < n && d.Navs(n)[i] > 0.0 && d.Navs(n)[j] < 0.0;
      NavSign(d, i);
      NavSign(d, j);
      BoughtWhen(d, i);
    }
    if !ClosesStayAbove(d) {
      var k, j :| 0 <= k < j < n && d.AmountAt(k) > 0.0 && d.bars[j].Close < 0.0;
      BoughtLater(d, k, k);
      BoughtLater(d, k, j);
      NavSign(d, k);
      NavSign(d, j);
      assert d.Navs(n)[k] > 0.0 && d.Navs(n)[j] < 0.0;
    }
  }

  lemma BoughtWhen(d: Dca, i: nat)
    requires i < |d.bars| && BoughtBy(d, i)
    ensures exists k :: 0 <= k <= i && d.AmountAt(k) > 0.0
  {
  }

  /** Closes of 1 and then -1, bought at the first without friction. */
  function FallingThrough(): Dca {
    Dca(1.0, [Bar(0, 1.0), Bar(1, -1.0)], FRICTIONLESS, (prev, cur) => None)
  }

  lemma FallingAmounts()
    ensures var d := FallingThrough();
            && d.AmountAt(0) == 1.0 && d.AmountAt(1) == 0.0 && d.fp == FRICTIONLESS
            && |d.bars| == 2 && d.bars[0].Close == 1.0 && d.bars[1].Close == -1.0
  {
  }

  lemma FrictionlessDelivers()
    ensures FRICTIONLESS.Delivers()
  {
    assert FRICTIONLESS.SlipRate() == 0.0 && FRICTIONLESS.FeeRate() == 0.0;
    DeliversIff(FRICTIONLESS);
  }

  lemma FallingNavs()
    ensures FRICTIONLESS.Priced() && FallingThrough().Navs(2) == [1.0, -1.0]
  {
    var d := FallingThrough();
    FallingAmounts();
    FrictionlessPriced();
    hide FallingThrough, ApplyBuyFriction, Dca.QtyBefore, Dca.AmountAt, Friction.Priced;
    FrictionlessBuy(1.0, 1.0);
    BuyNothing(FRICTIONLESS);
    QtyStep(d, 0);
    QtyStep(d, 1);
    QtyStep(d, 2);
    assert d.QtyBefore(1) == 1.0 && d.QtyBefore(2) == 1.0;
  }

  lemma DrawdownOfFall()
    ensures DrawdownOf([1.0, -1.0]) == 2.0
  {
    var nav := [1.0, -1.0];
    assert nav[..1] == [1.0] && [1.0][..0] == [];
    assert DrawdownOf([1.0]) == 0.0 && PeakOf(nav) == 1.0;
  }

  lemma ReportedDrawdown(d: Dca)
    requires d.fp.Priced() && |d.bars| > 0
    ensures ResultOf(d).MaxDrawdown == DrawdownOf(d.Navs(|d.bars|))
  {
    hide DrawdownOf, Dca.Navs, Dca.NavAt, Friction.Priced, Dca.Injections;
  }

  /** A plain input whose reported drawdown is 2. */
  lemma DrawdownLeavesRange()
    ensures FRICTIONLESS.Delivers() && FallingThrough().fp == FRICTIONLESS
    ensures ResultOf(FallingThrough()).MaxDrawdown == 2.0
  {
    hide *;
    FallingAmounts();
    FrictionlessDelivers();
    FallingNavs();
    DrawdownOfFall();
    ReportedDrawdown(FallingThrough());
  }

  // ---------------------------------------------------------------- time-weighted return telescopes

  /** The k-th injection is recorded at the holdings of its bar, and nothing was
      bought since the one before it. */
  ghost predicate Link(d: Dca, injs: seq<Injection>, k: nat, n: nat)
    requires d.fp.Priced() && n <= |d.bars| && k < |injs|
  {
    && injs[k].idx < n && injs[k] == d.InjectionAt(injs[k].idx) && d.AmountAt(injs[k].idx) > 0.0
    && (k > 0 ==> 0 < injs[k].idx && injs[k - 1].idx < n
                  && d.QtyBefore(injs[k].idx) == d.QtyBefore(injs[k - 1].idx + 1))
  }

  ghost predicate Chained(d: Dca, injs: seq<Injection>, n: nat)
    requires d.fp.Priced() && n <= |d.bars|
  {
    && (forall k | 0 <= k < |injs| :: Link(d, injs, k, n))
    && (injs == [] ==> d.QtyBefore(n) == 0.0)
    && (injs != [] ==> injs[|injs| - 1].idx < n && d.QtyBefore(n) == d.QtyBefore(injs[|injs| - 1].idx + 1))
  }

  lemma LinkGrows(d: Dca, injs: seq<Injection>, more: seq<Injection>, k: nat, n: nat)
    requires d.fp.Priced() && n < |d.bars| && k < |injs| && Link(d, injs, k, n)
    ensures Link(d, injs + more, k, n + 1)
  {
  }

  lemma {:induction false} InjectionsChained(d: Dca, n: nat)
    requires d.fp.Priced() && n <= |d.bars|
    ensures Chained(d, d.Injections(n), n)
  {
    hide ApplyBuyFriction, Mul, Dca.InjectionAt, Dca.AmountAt, Link;
    if n > 0 {
      InjectionsChained(d, n - 1);
      BuyNothing(d.fp);
      var injs := d.Injections(n - 1);
      var more := if d.AmountAt(n - 1) > 0.0 then [d.InjectionAt(n - 1)] else [];
      forall k | 0 <= k < |injs| ensures Link(d, injs + more, k, n) {
        LinkGrows(d, injs, more, k, n - 1);
      }
      if d.AmountAt(n - 1) > 0.0 {
        assert d.InjectionAt(n - 1).idx == n - 1 by { InjectionIdx(d, n - 1); }
        LastLink(d, injs, n);
      } else {
        NoBuy(d, n - 1);
      }
    }
  }

  lemma InjectionIdx(d: Dca, i: nat)
    requires d.fp.Priced() && i < |d.bars|
    ensures d.InjectionAt(i).idx == i
  {
  }

  lemma NoBuy(d: Dca, i: nat)
    requires d.fp.Priced() && i < |d.bars| && !(d.AmountAt(i) > 0.0)
    ensures d.QtyBefore(i + 1) == d.QtyBefore(i)
  {
  }

  lemma LastLink(d: Dca, injs: seq<Injection>, n: nat)
    requires d.fp.Priced() && 0 < n <= |d.bars| && d.AmountAt(n - 1) > 0.0 && Chained(d, injs, n - 1)
    ensures Link(d, injs + [d.InjectionAt(n - 1)], |injs|, n)
  {
  }

  lemma {:induction false} QtyPositive(d: Dca, i: nat)
    requires d.fp.Delivers() && i <= |d.bars|
    ensures d.QtyBefore(i) >= 0.0
    ensures i > 0 && d.AmountAt(i - 1) > 0.0 ==> d.QtyBefore(i) > 0.0
  {
    hide ApplyBuyFriction, Mul, Friction.Kept;
    if i > 0 {
      QtyPositive(d, i - 1);
      BuyNothing(d.fp);
      var a := d.AmountAt(i - 1);
      if a > 0.0 {
        BuyScales(a, d.bars[i - 1].Close, d.fp);
        DivPositive(a, d.bars[i - 1].Close);
        MulOrder(a / d.bars[i - 1].Close, 0.0, d.fp.Kept());
      }
    }
  }

  lemma OnePeriod(q: real, p0: real, p1: real, p2: real)
    requires q > 0.0 && p0 > 0.0 && p1 > 0.0
    ensures Mul(q, p1) > 0.0 && p1 / p0 * (Mul(q, p2) / Mul(q, p1)) == p2 / p0
  {
  }

  /** The close the k-th sub-period ends at. */
  function EndClose(d: Dca, injs: seq<Injection>, k: nat): real
    requires |d.bars| > 0 && forall j | 0 <= j < |injs| :: injs[j].idx < |d.bars|
  {
    d.bars[if k < |injs| then injs[k].idx else |d.bars| - 1].Close
  }

  lemma SubPeriod(d: Dca, injs: seq<Injection>, k: nat)
    requires d.fp.Delivers() && |d.bars| > 0 && Chained(d, injs, |d.bars|)
    requires k < |injs|
    ensures forall j | 0 <= j < |injs| :: injs[j].idx < |d.bars|
    ensures EndClose(d, injs, k) > 0.0
    ensures var q := d.QtyBefore(injs[k].idx + 1);
            && q > 0.0
            && injs[k].navAfter == Mul(q, EndClose(d, injs, k))
            && (if k + 1 < |injs| then injs[k + 1].navBefore else d.NavAt(|d.bars| - 1)) ==
               Mul(q, EndClose(d, injs, k + 1))
  {
    hide Mul, ApplyBuyFriction, Dca.QtyBefore;
    forall j | 0 <= j < |injs| ensures injs[j].idx < |d.bars| {
      assert Link(d, injs, j, |d.bars|);
    }
    assert Link(d, injs, k, |d.bars|);
    QtyPositive(d, injs[k].idx + 1);
    if k + 1 < |injs| {
      assert Link(d, injs, k + 1, |d.bars|);
    }
  }

  /** Up to the k-th sub-period the growth is the price ratio since the first
      injection's bar. */
  lemma {:induction false} GrowthTelescopes(d: Dca, injs: seq<Injection>, k: nat)
    requires d.fp.Delivers() && |d.bars| > 0 && Chained(d, injs, |d.bars|)
    requires k <= |injs| && injs != []
    ensures forall j | 0 <= j < |injs| :: injs[j].idx < |d.bars|
    ensures EndClose(d, injs, 0) > 0.0
    ensures Growth(injs, d.NavAt(|d.bars| - 1), k) == EndClose(d, injs, k) / EndClose(d, injs, 0)
  {
    hide Mul, ApplyBuyFriction, Dca.QtyBefore, Chained, EndClose, Dca.NavAt;
    SubPeriod(d, injs, 0);
    if k == 0 {
      DivIs(EndClose(d, injs, 0), EndClose(d, injs, 0), 1.0);
    } else {
      GrowthTelescopes(d, injs, k - 1);
      SubPeriod(d, injs, k - 1);
      OnePeriod(d.QtyBefore(injs[k - 1].idx + 1), EndClose(d, injs, 0), EndClose(d, injs, k - 1), EndClose(d, injs, k));
    }
  }

  /** Where buys deliver, the chain-linked return is the price return from the
      first injection to the last bar: amounts, cadence and friction drop out. */
  lemma TwrTelescopes(d: Dca)
    requires d.fp.Delivers() && |d.bars| > 0
    requires d.Injections(|d.bars|) != []
    ensures var n, injs := |d.bars|, d.Injections(|d.bars|);
            && injs[0].idx < n && d.bars[injs[0].idx].Close > 0.0
            && TwrOf(injs, d.NavAt(n - 1)) == d.bars[n - 1].Close / d.bars[injs[0].idx].Close - 1.0
  {
    hide ApplyBuyFriction, Dca.QtyBefore, Dca.NavAt, Growth, Dca.Injections;
    var injs := d.Injections(|d.bars|);
    InjectionsChained(d, |d.bars|);
    GrowthTelescopes(d, injs, |injs|);
    assert EndClose(d, injs, |injs|) == d.bars[|d.bars| - 1].Close;
    assert EndClose(d, injs, 0) == d.bars[injs[0].idx].Close;
  }

  lemma {:induction false} QtyNeverPositive(d: Dca, i: nat)
    requires d.fp.Priced() && !d.fp.Delivers() && i <= |d.bars|
    ensures d.QtyBefore(i) <= 0.0
  {
    hide ApplyBuyFriction, Mul, Friction.Kept;
    if i > 0 {
      QtyNeverPositive(d, i - 1);
      var a := d.AmountAt(i - 1);
      BuyNothing(d.fp);
      if a > 0.0 {
        BuyScales(a, d.bars[i - 1].Close, d.fp);
        DivPositive(a, d.bars[i - 1].Close);
        NotAboveZero(d.fp.Kept(), a / d.bars[i - 1].Close);
        MulCommutes(a / d.bars[i - 1].Close, d.fp.Kept());
      }
    }
  }

  lemma {:induction false} GrowthOfNothing(injs: seq<Injection>, final: real, k: nat)
    requires k <= |injs| && forall j | 0 <= j < |injs| :: injs[j].navAfter <= 0.0
    ensures Growth(injs, final, k) == 1.0
  {
    if k > 0 {
      GrowthOfNothing(injs, final, k - 1);
    }
  }

  /** Otherwise, as with a fee of 100% or more, nothing is left to grow: the chain
      is empty and the return reads 0, whatever the prices did. */
  lemma TwrAtFullFee(d: Dca)
    requires d.fp.Priced() && !d.fp.Delivers() && |d.bars| > 0
    ensures TwrOf(d.Injections(|d.bars|), d.NavAt(|d.bars| - 1)) == 0.0
  {
    hide ApplyBuyFriction, Dca.QtyBefore, Mul;
    var n, injs := |d.bars|, d.Injections(|d.bars|);
    InjectionsChained(d, n);
    forall j | 0 <= j < |injs| ensures injs[j].navAfter <= 0.0 {
      assert Link(d, injs, j, n);
      var i := injs[j].idx;
      QtyNeverPositive(d, i + 1);
      NotAboveZero(d.QtyBefore(i + 1), d.bars[i].Close);
    }
    GrowthOfNothing(injs, d.NavAt(n - 1), |injs|);
  }

  /** Friction changes neither when nor how much is injected. */
  lemma {:induction false} InjectionsMatch(d: Dca, fp: Friction, n: nat)
    requires d.fp.Priced() && fp.Priced() && n <= |d.bars|
    ensures var xs, ys := d.Injections(n), d.(fp := fp).Injections(n);
            |xs| == |ys| && forall k | 0 <= k < |xs| :: xs[k].idx == ys[k].idx && xs[k].amount == ys[k].amount
  {
    hide ApplyBuyFriction, Dca.QtyBefore, Dca.AmountAt, Mul;
    if n > 0 {
      InjectionsMatch(d, fp, n - 1);
      SameAmount(d, fp, n - 1);
    }
  }

  /** Any two frictions under which buys deliver give the same chain-linked return. */
  lemma TwrIgnoresFriction(d: Dca, fp: Friction)
    requires d.fp.Delivers() && fp.Delivers() && |d.bars| > 0
    ensures var n, other := |d.bars|, d.(fp := fp);
            TwrOf(d.Injections(n), d.NavAt(n - 1)) == TwrOf(other.Injections(n), other.NavAt(n - 1))
  {
    hide Dca.Injections, Dca.NavAt, Friction.Kept, Growth;
    var n := |d.bars|;
    InjectionsMatch(d, fp, n);
    if d.Injections(n) != [] {
      TwrTelescopes(d);
      TwrTelescopes(d.(fp := fp));
    }
  }

  lemma MulCommutes(a: real, b: real)
    ensures Mul(a, b) == Mul(b, a)
  {
  }

  lemma NotAboveZero(q: real, p: real)
    requires q <= 0.0 && p > 0.0
    ensures Mul(q, p) <= 0.0
  {
  }

  // ---------------------------------------------------------------- cadence

  const WEEK_MS := 604_800_000

  /** Division that rounds toward zero. */
  function TruncDiv(a: int, b: int): int
    requires b > 0
  {
    if a >= 0 then a / b else -((-a) / b)
  }

  function Weekly(startMs: int, dust: real): Trigger {
    (prev, cur) => if TruncDiv(prev - startMs, WEEK_MS) != TruncDiv(cur - startMs, WEEK_MS) then Some(dust) else None
  }

  /** month gives the UTC calendar year and month of a millisecond. */
  function Monthly(month: int -> (int, int), inject: real): Trigger {
    (prev, cur) => if month(prev) != month(cur) then Some(inject) else None
  }

  method SimulateGhostDcaWeekly(initialCapital: real, monthlyInject: real, bars: seq<Bar>, fp: Friction)
    returns (res: DcaResult)
    requires fp.Priced()
    ensures bars == [] ==> res == DcaResult(0.0, 0.0, 0.0, 0.0)
    ensures bars != [] ==>
            res == ResultOf(Dca(initialCapital, bars, fp, Weekly(bars[0].OpenTime, monthlyInject / 4.33)))
  {
    if bars == [] {
      return DcaResult(0.0, 0.0, 0.0, 0.0);
    }
    res := SimulateDca(Dca(initialCapital, bars, fp, Weekly(bars[0].OpenTime, monthlyInject / 4.33)));
  }

  method SimulateGhostDcaMonthly(initialCapital: real, monthlyInject: real, bars: seq<Bar>, fp: Friction,
                                 month: int -> (int, int))
    returns (res: DcaResult)
    requires fp.Priced()
    ensures res == ResultOf(Dca(initialCapital, bars, fp, Monthly(month, monthlyInject)))
  {
    res := SimulateDca(Dca(initialCapital, bars, fp, Monthly(month, monthlyInject)));
  }

  /** Ascending times, each within a week of the one before, and real prices. */
  ghost predicate Regular(bars: seq<Bar>) {
    && (forall i | 0 <= i < |bars| :: bars[i].Close > 0.0)
    && (forall i | 1 <= i < |bars| :: bars[i - 1].OpenTime <= bars[i].OpenTime <= bars[i - 1].OpenTime + WEEK_MS)
  }

  function WeekOf(bars: seq<Bar>, i: nat): int
    requires i < |bars|
  {
    (bars[i].OpenTime - bars[0].OpenTime) / WEEK_MS
  }

  lemma {:induction false} TimesAscend(bars: seq<Bar>, i: nat)
    requires Regular(bars) && i < |bars|
    ensures bars[0].OpenTime <= bars[i].OpenTime
  {
    if i > 0 {
      TimesAscend(bars, i - 1);
    }
  }

  /** Over regular bars the weekly baseline injects the seed and then exactly one
      tranche per whole week since the first bar. */
  lemma {:induction false} WeeklyInjectsOncePerWeek(d: Dca, dust: real, n: nat)
    requires d.fp.Priced() && 0 < n <= |d.bars| && Regular(d.bars) && dust > 0.0 && d.initialCapital > 0.0
    requires d.trigger == Weekly(d.bars[0].OpenTime, dust)
    ensures SumAmounts(d.Injections(n)) == d.initialCapital + Mul(WeekOf(d.bars, n - 1) as real, dust)
  {
    hide ApplyBuyFriction, Dca.QtyBefore, Dca.NavAt, Mul, Weekly, WeekOf;
    if n == 1 {
      FirstBar(d);
      assert WeekOf(d.bars, 0) == 0 by { FirstWeek(d.bars); }
      MulZero(dust);
    } else {
      WeeklyInjectsOncePerWeek(d, dust, n - 1);
      NextBar(d, n - 1);
      NextWeek(d.bars, dust, n - 1);
      var w := WeekOf(d.bars, n - 2);
      MulAdd(w as real, 1.0, dust);
      MulOne(dust);
      assert (w + 1) as real == w as real + 1.0;
    }
  }

  lemma MulOne(x: real)
    ensures Mul(1.0, x) == x
  {
  }

  lemma FirstWeek(bars: seq<Bar>)
    requires bars != []
    ensures WeekOf(bars, 0) == 0
  {
  }

  /** The trigger fires exactly when a week boundary lies between the bars. */
  lemma NextWeek(bars: seq<Bar>, dust: real, i: nat)
    requires Regular(bars) && 1 <= i < |bars|
    ensures var fire := Weekly(bars[0].OpenTime, dust)(bars[i - 1].OpenTime, bars[i].OpenTime);
            && (fire.None? ==> WeekOf(bars, i) == WeekOf(bars, i - 1))
            && (fire.Some? ==> fire.value == dust && WeekOf(bars, i) == WeekOf(bars, i - 1) + 1)
  {
    TimesAscend(bars, i - 1);
    TimesAscend(bars, i);
    var a, b := bars[i - 1].OpenTime - bars[0].OpenTime, bars[i].OpenTime - bars[0].OpenTime;
    WeekStep(a, b);
    assert TruncDiv(a, WEEK_MS) == WeekOf(bars, i - 1) && TruncDiv(b, WEEK_MS) == WeekOf(bars, i);
  }

  lemma WeekStep(a: int, b: int)
    requires 0 <= a <= b <= a + WEEK_MS
    ensures b / WEEK_MS == a / WEEK_MS || b / WEEK_MS == a / WEEK_MS + 1
  {
  }
}
