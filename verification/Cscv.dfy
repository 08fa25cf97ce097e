/** Combinatorially symmetric cross-validation: the probability of backtest
    overfitting from block statistics. A combination of blocks is its mask. */
module Cscv {
  import opened Common
  import opened Reals

  const EPS_VAR: real := 0.000000000000000000000000000001

  datatype Numerics = Numerics(sqrt: real -> real, log: real -> real) {
    ghost predicate Lawful() {
      && (forall x | x > 0.0 :: sqrt(x) > 0.0)
      && (forall x | x > 0.0 :: log(x) <= 0.0 <==> x <= 1.0)
    }
  }

  // ---------------------------------------------------------------- blocks

  function Min(a: nat, b: nat): nat {
    if a <= b then a else b
  }

  /** Where block k begins when t rows are split into s nearly equal blocks: the
      first t mod s blocks are one row longer. */
  function Start(t: nat, s: nat, k: nat): nat
    requires s > 0
  {
    Times(k, t / s) + Min(k, t % s)
  }

  function Times(k: nat, n: nat): nat {
    k * n
  }

  /** The blocks partition the rows in order, and none is empty. */
  lemma Blocks(t: nat, s: nat, k: nat)
    requires 0 < s <= t && k < s
    ensures Start(t, s, 0) == 0 && Start(t, s, s) == t
    ensures Start(t, s, k) < Start(t, s, k + 1)
    ensures Start(t, s, k + 1) - Start(t, s, k) == t / s + if k < t % s then 1 else 0
  {
  }

  lemma {:induction false} StartsMonotone(t: nat, s: nat, j: nat, k: nat)
    requires 0 < s <= t && j <= k <= s
    ensures Start(t, s, j) <= Start(t, s, k)
  {
    hide Start;
    if j < k {
      Blocks(t, s, k - 1);
      StartsMonotone(t, s, j, k - 1);
    }
  }

  lemma StartsAscend(t: nat, s: nat, j: nat, k: nat)
    requires 0 < s <= t && j <= k <= s
    ensures Start(t, s, j) <= Start(t, s, k) <= t
  {
    hide Start;
    StartsMonotone(t, s, j, k);
    StartsMonotone(t, s, k, s);
    Blocks(t, s, 0);
  }

  function Sq(x: real): real {
    x * x
  }

  function Sum(xs: seq<real>): real {
    if xs == [] then 0.0 else Sum(xs[..|xs| - 1]) + xs[|xs| - 1]
  }

  function SumSq(xs: seq<real>): real {
    if xs == [] then 0.0 else SumSq(xs[..|xs| - 1]) + Sq(xs[|xs| - 1])
  }

  lemma {:induction false} SumsAppend(xs: seq<real>, ys: seq<real>)
    ensures Sum(xs + ys) == Sum(xs) + Sum(ys) && SumSq(xs + ys) == SumSq(xs) + SumSq(ys)
  {
    if ys == [] {
      assert xs + ys == xs;
    } else {
      SumsAppend(xs, ys[..|ys| - 1]);
      assert (xs + ys)[..|xs + ys| - 1] == xs + ys[..|ys| - 1];
    }
  }

  /** One candidate's returns in block k. */
  function Block(xs: seq<real>, s: nat, k: nat): seq<real>
    requires 0 < s <= |xs| && k < s
  {
    Blocks(|xs|, s, k);
    StartsAscend(|xs|, s, k + 1, s);
    xs[Start(|xs|, s, k)..Start(|xs|, s, k + 1)]
  }

  type Mask = seq<bool>

  /** The masked sums of the block statistics over the first k blocks. */
  function MaskCount(xs: seq<real>, s: nat, m: Mask, k: nat): nat
    requires 0 < s <= |xs| && |m| == s && k <= s
  {
    if k == 0 then 0 else MaskCount(xs, s, m, k - 1) + if m[k - 1] then |Block(xs, s, k - 1)| else 0
  }

  function MaskSum(xs: seq<real>, s: nat, m: Mask, k: nat): real
    requires 0 < s <= |xs| && |m| == s && k <= s
  {
    if k == 0 then 0.0 else MaskSum(xs, s, m, k - 1) + if m[k - 1] then Sum(Block(xs, s, k - 1)) else 0.0
  }

  function MaskSumSq(xs: seq<real>, s: nat, m: Mask, k: nat): real
    requires 0 < s <= |xs| && |m| == s && k <= s
  {
    if k == 0 then 0.0 else MaskSumSq(xs, s, m, k - 1) + if m[k - 1] then SumSq(Block(xs, s, k - 1)) else 0.0
  }

  function Floored(v: real): (r: real)
    ensures r > 0.0
  {
    if v > EPS_VAR then v else EPS_VAR
  }

  function Ratio(num: Numerics, mu: real, v: real): real
    requires num.Lawful()
  {
    mu / num.sqrt(Floored(v))
  }

  /** The Sharpe ratio from block statistics alone. */
  function BlockSharpe(num: Numerics, xs: seq<real>, s: nat, m: Mask): real
    requires num.Lawful() && 0 < s <= |xs| && |m| == s && MaskCount(xs, s, m, s) > 0
  {
    var n := MaskCount(xs, s, m, s) as real;
    var mu := MaskSum(xs, s, m, s) / n;
    Ratio(num, mu, MaskSumSq(xs, s, m, s) / n - Sq(mu))
  }

  /** The rows of the selected blocks, one after the other. */
  function Selected(xs: seq<real>, s: nat, m: Mask, k: nat): seq<real>
    requires 0 < s <= |xs| && |m| == s && k <= s
  {
    if k == 0 then [] else Selected(xs, s, m, k - 1) + if m[k - 1] then Block(xs, s, k - 1) else []
  }

  function Mean(xs: seq<real>): real
    requires xs != []
  {
    Sum(xs) / |xs| as real
  }

  function SquaredDeviations(xs: seq<real>, mu: real): real {
    if xs == [] then 0.0
    else SquaredDeviations(xs[..|xs| - 1], mu) + Sq(xs[|xs| - 1] - mu)
  }

  /** The Sharpe ratio of a series: mean over population deviation. */
  function Sharpe(num: Numerics, xs: seq<real>): real
    requires num.Lawful() && xs != []
  {
    Ratio(num, Mean(xs), SquaredDeviations(xs, Mean(xs)) / |xs| as real)
  }

  lemma {:induction false} BlockStatsAdd(xs: seq<real>, s: nat, m: Mask, k: nat)
    requires 0 < s <= |xs| && |m| == s && k <= s
    ensures var rows := Selected(xs, s, m, k);
            |rows| == MaskCount(xs, s, m, k) && Sum(rows) == MaskSum(xs, s, m, k)
              && SumSq(rows) == MaskSumSq(xs, s, m, k)
  {
    hide Block;
    if k > 0 {
      BlockStatsAdd(xs, s, m, k - 1);
      var before := Selected(xs, s, m, k - 1);
      if m[k - 1] {
        SumsAppend(before, Block(xs, s, k - 1));
      } else {
        assert before + [] == before;
      }
    }
  }

  function Quad(n: nat, s1: real, s2: real, mu: real): real {
    s2 - 2.0 * mu * s1 + n as real * mu * mu
  }

  lemma QuadStep(n: nat, s1: real, s2: real, mu: real, x: real)
    ensures Quad(n + 1, s1 + x, s2 + Sq(x), mu) == Quad(n, s1, s2, mu) + Sq(x - mu)
    ensures Quad(0, 0.0, 0.0, mu) == 0.0
  {
  }

  lemma {:induction false} DeviationsExpand(xs: seq<real>, mu: real)
    ensures SquaredDeviations(xs, mu) == Quad(|xs|, Sum(xs), SumSq(xs), mu)
  {
    hide Quad, Sq;
    if xs == [] {
      QuadStep(0, 0.0, 0.0, mu, 0.0);
    } else {
      var init := xs[..|xs| - 1];
      DeviationsExpand(init, mu);
      QuadStep(|init|, Sum(init), SumSq(init), mu, xs[|xs| - 1]);
    }
  }

  /** Mean square minus squared mean is the population variance. */
  lemma VarianceIdentity(xs: seq<real>)
    requires xs != []
    ensures SumSq(xs) / |xs| as real - Sq(Mean(xs)) == SquaredDeviations(xs, Mean(xs)) / |xs| as real
  {
    DeviationsExpand(xs, Mean(xs));
    var n, s1, s2, mu, d := |xs|, Sum(xs), SumSq(xs), Mean(xs), SquaredDeviations(xs, Mean(xs));
    hide Sum, SumSq, SquaredDeviations;
    VarianceAlgebra(n, s1, s2, mu, d);
  }

  lemma VarianceAlgebra(n: nat, s1: real, s2: real, mu: real, d: real)
    requires n > 0 && mu == s1 / n as real && d == Quad(n, s1, s2, mu)
    ensures s2 / n as real - Sq(mu) == d / n as real
  {
  }

  /** For every mask the Sharpe ratio built from block sums is the Sharpe ratio
      of the concatenated rows. */
  lemma BlockSharpeIsDirect(num: Numerics, xs: seq<real>, s: nat, m: Mask)
    requires num.Lawful() && 0 < s <= |xs| && |m| == s && MaskCount(xs, s, m, s) > 0
    ensures var rows := Selected(xs, s, m, s); rows != [] && BlockSharpe(num, xs, s, m) == Sharpe(num, rows)
  {
    BlockStatsAdd(xs, s, m, s);
    var rows := Selected(xs, s, m, s);
    VarianceIdentity(rows);
    hide Ratio, Selected, SumSq, Sum, SquaredDeviations, MaskSum, MaskSumSq, MaskCount, Sq;
    assert Mean(rows) == MaskSum(xs, s, m, s) / MaskCount(xs, s, m, s) as real;
  }

  // ---------------------------------------------------------------- combinations

  function Trues(m: Mask): (n: nat)
    ensures n <= |m|
  {
    if m == [] then 0 else (if m[0] then 1 else 0) + Trues(m[1..])
  }

  function Complement(m: Mask): (c: Mask)
    ensures |c| == |m|
  {
    seq(|m|, i requires 0 <= i < |m| => !m[i])
  }

  function Prefixed(b: bool, ms: seq<Mask>): (r: seq<Mask>)
    ensures |r| == |ms|
  {
    seq(|ms|, i requires 0 <= i < |ms| => [b] + ms[i])
  }

  /** The masks that select k of n blocks, in lexicographic order of the
      selected indices: those that take the first block come first. */
  function Combos(n: nat, k: nat): seq<Mask> {
    if k > n then []
    else if n == 0 then [[]]
    else (if k == 0 then [] else Prefixed(true, Combos(n - 1, k - 1))) + Prefixed(false, Combos(n - 1, k))
  }

  function Choose(n: nat, k: nat): nat {
    if k > n then 0 else if k == 0 || k == n then 1 else Choose(n - 1, k - 1) + Choose(n - 1, k)
  }

  lemma {:induction false} ChooseSymmetric(n: nat, k: nat)
    requires k <= n
    ensures Choose(n, k) == Choose(n, n - k) && Choose(n, k) >= 1
  {
    if 0 < k < n {
      ChooseSymmetric(n - 1, k - 1);
      ChooseSymmetric(n - 1, k);
    }
  }

  /** There are as many combinations as the program asserts. */
  lemma {:induction false} CombosCount(n: nat, k: nat)
    ensures |Combos(n, k)| == Choose(n, k)
  {
    if 0 < n && k <= n {
      CombosCount(n - 1, k);
      if k > 0 {
        CombosCount(n - 1, k - 1);
      }
    }
  }

  /** The combinations that take the first block, without it. */
  function Taking(n: nat, k: nat): seq<Mask>
    requires n > 0
  {
    if k == 0 then [] else Combos(n - 1, k - 1)
  }

  lemma CombosAt(n: nat, k: nat, i: nat)
    requires 0 < n && k <= n
    ensures |Combos(n, k)| == |Taking(n, k)| + |Combos(n - 1, k)|
    ensures i < |Taking(n, k)| ==> Combos(n, k)[i] == [true] + Taking(n, k)[i]
    ensures |Taking(n, k)| <= i < |Combos(n, k)| ==> Combos(n, k)[i] == [false] + Combos(n - 1, k)[i - |Taking(n, k)|]
  {
    hide *;
    CombosUnfold(n, k);
    PrefixedAt(true, Taking(n, k));
    PrefixedAt(false, Combos(n - 1, k));
  }

  lemma CombosUnfold(n: nat, k: nat)
    requires 0 < n && k <= n
    ensures Combos(n, k) == Prefixed(true, Taking(n, k)) + Prefixed(false, Combos(n - 1, k))
  {
  }

  lemma PrefixedAt(b: bool, ms: seq<Mask>)
    ensures forall i | 0 <= i < |ms| :: Prefixed(b, ms)[i] == [b] + ms[i]
  {
  }

  lemma CombosEdges(n: nat, k: nat)
    ensures k > n ==> Combos(n, k) == []
    ensures n == 0 && k == 0 ==> Combos(n, k) == [[]]
  {
  }

  lemma TakingIs(n: nat, k: nat)
    requires n > 0
    ensures Taking(n, k) == if k == 0 then [] else Combos(n - 1, k - 1)
  {
  }

  lemma CombosMembers(n: nat, k: nat, m: Mask)
    requires 0 < n && k <= n
    ensures m in Combos(n, k) <==> m != [] && (if m[0] then m[1..] in Taking(n, k) else m[1..] in Combos(n - 1, k))
  {
    PrefixedMembers(true, Taking(n, k), m);
    PrefixedMembers(false, Combos(n - 1, k), m);
    CombosUnfold(n, k);
  }

  lemma PrefixedMembers(b: bool, ms: seq<Mask>, m: Mask)
    ensures m in Prefixed(b, ms) <==> m != [] && m[0] == b && m[1..] in ms
  {
    var r := Prefixed(b, ms);
    if m in r {
      var i :| 0 <= i < |r| && r[i] == m;
      assert m[1..] == ms[i];
    }
    if m != [] && m[0] == b && m[1..] in ms {
      var i :| 0 <= i < |ms| && ms[i] == m[1..];
      assert r[i] == m;
    }
  }

  lemma TruesCons(m: Mask)
    ensures m == [] ==> Trues(m) == 0
    ensures m != [] ==> Trues(m) == (if m[0] then 1 else 0) + Trues(m[1..]) && |m[1..]| == |m| - 1
  {
  }

  /** Exactly the masks of length n with k blocks. */
  lemma {:induction false} CombosExact(n: nat, k: nat, m: Mask)
    ensures m in Combos(n, k) <==> |m| == n && Trues(m) == k
  {
    hide *;
    CombosEdges(n, k);
    TruesCons(m);
    if 0 < n && k <= n {
      CombosMembers(n, k, m);
      TakingIs(n, k);
      if m != [] {
        CombosExact(n - 1, k, m[1..]);
        if k > 0 {
          CombosExact(n - 1, k - 1, m[1..]);
        }
      }
    }
  }

  /** No combination is listed twice. */
  lemma {:induction false} CombosDistinct(n: nat, k: nat, i: nat, j: nat)
    requires i < j < |Combos(n, k)|
    ensures Combos(n, k)[i] != Combos(n, k)[j]
  {
    hide *;
    CombosEdges(n, k);
    if 0 < n && k <= n {
      CombosAt(n, k, i);
      CombosAt(n, k, j);
      TakingIs(n, k);
      var t := |Taking(n, k)|;
      var x, y := Combos(n, k)[i], Combos(n, k)[j];
      if j < t {
        CombosDistinct(n - 1, k - 1, i, j);
        assert x[1..] == Taking(n, k)[i] && y[1..] == Taking(n, k)[j];
      } else if t <= i {
        CombosDistinct(n - 1, k, i - t, j - t);
        assert x[1..] == Combos(n - 1, k)[i - t] && y[1..] == Combos(n - 1, k)[j - t];
      } else {
        assert x[0] && !y[0];
      }
    }
  }

  lemma ComplementSizes(n: nat, k: nat)
    requires k <= n
    ensures |Combos(n, n - k)| == |Combos(n, k)|
  {
    CombosCount(n, k);
    CombosCount(n, n - k);
    ChooseSymmetric(n, k);
  }

  /** The combinations that leave the first block out, complemented, are those
      that take it. */
  lemma TakingSizes(n: nat, k: nat)
    requires 0 < n && k <= n
    ensures |Taking(n, n - k)| == |Combos(n - 1, k)|
    ensures |Combos(n - 1, n - k)| == |Taking(n, k)|
  {
    if k < n {
      ComplementSizes(n - 1, k);
    }
    if k > 0 {
      ComplementSizes(n - 1, k - 1);
    }
  }

  lemma ComplementCons(b: bool, m: Mask)
    ensures Complement([b] + m) == [!b] + Complement(m)
  {
  }

  /** The complement of the i-th way to take k blocks is the i-th from the end of
      the ways to take the others. */
  lemma {:induction false} ComplementReverses(n: nat, k: nat, i: nat)
    requires k <= n && i < |Combos(n, k)|
    ensures |Combos(n, n - k)| == |Combos(n, k)|
    ensures Complement(Combos(n, k)[i]) == Combos(n, n - k)[|Combos(n, k)| - 1 - i]
    decreases n
  {
    hide *;
    ComplementSizes(n, k);
    CombosEdges(n, k);
    EmptyComplement();
    if n > 0 {
      TakingSizes(n, k);
      TakingIs(n, k);
      TakingIs(n, n - k);
      var total, t := |Combos(n, k)|, |Taking(n, k)|;
      CombosAt(n, k, i);
      CombosAt(n, n - k, total - 1 - i);
      if i < t {
        ComplementReverses(n - 1, k - 1, i);
        ComplementCons(true, Taking(n, k)[i]);
      } else {
        ComplementReverses(n - 1, k, i - t);
        ComplementCons(false, Combos(n - 1, k)[i - t]);
      }
    }
  }

  lemma EmptyComplement()
    ensures Complement([]) == []
  {
  }

  // ---------------------------------------------------------------- the two matrices

  /** A return matrix: t rows of n candidates each, cut into s blocks. */
  datatype Trial = Trial(rets: seq<seq<real>>, candidates: nat, blocks: nat) {
    ghost predicate Valid() {
      && candidates > 0 && blocks > 0 && blocks % 2 == 0 && 2 * blocks <= |rets|
      && forall t | 0 <= t < |rets| :: |rets[t]| == candidates
    }

    function Column(c: nat): (xs: seq<real>)
      requires c < candidates && forall t | 0 <= t < |rets| :: |rets[t]| == candidates
      ensures |xs| == |rets|
    {
      seq(|rets|, t requires 0 <= t < |rets| => rets[t][c])
    }
  }

  lemma {:induction false} SelectedRows(xs: seq<real>, s: nat, m: Mask, k: nat)
    requires 0 < s <= |xs| && |m| == s && k <= s
    ensures MaskCount(xs, s, m, k) > 0 <==> exists i :: 0 <= i < k && m[i]
  {
    hide Block;
    if k > 0 {
      SelectedRows(xs, s, m, k - 1);
      if m[k - 1] {
        Blocks(|xs|, s, k - 1);
        BlockLength(xs, s, k - 1);
      }
    }
  }

  lemma BlockLength(xs: seq<real>, s: nat, k: nat)
    requires 0 < s <= |xs| && k < s
    ensures |Block(xs, s, k)| > 0
  {
    hide Start;
    Blocks(|xs|, s, k);
    StartsAscend(|xs|, s, k + 1, s);
  }

  lemma {:induction false} SomeTrue(m: Mask)
    ensures Trues(m) > 0 <==> exists i :: 0 <= i < |m| && m[i]
  {
    if m != [] {
      SomeTrue(m[1..]);
      if exists i :: 0 <= i < |m[1..]| && m[1..][i] {
        var i :| 0 <= i < |m[1..]| && m[1..][i];
        assert m[i + 1];
      }
      if exists i :: 0 <= i < |m| && m[i] {
        var i :| 0 <= i < |m| && m[i];
        assert i == 0 || m[1..][i - 1];
      }
    }
  }

  predicate Usable(d: Trial, m: Mask) {
    |m| == d.blocks && Trues(m) > 0
  }

  /** Every candidate's Sharpe ratio on the blocks of one mask. */
  function Row(num: Numerics, d: Trial, m: Mask): (r: seq<real>)
    requires num.Lawful() && d.Valid() && Usable(d, m)
    ensures |r| == d.candidates
  {
    SomeTrue(m);
    assert forall c | 0 <= c < d.candidates :: MaskCount(d.Column(c), d.blocks, m, d.blocks) > 0 by {
      forall c | 0 <= c < d.candidates ensures MaskCount(d.Column(c), d.blocks, m, d.blocks) > 0 {
        SelectedRows(d.Column(c), d.blocks, m, d.blocks);
      }
    }
    seq(d.candidates, c requires 0 <= c < d.candidates => BlockSharpe(num, d.Column(c), d.blocks, m))
  }

  function Halves(d: Trial): seq<Mask> {
    Combos(d.blocks, d.blocks / 2)
  }

  lemma {:induction false} ComplementTrues(m: Mask)
    ensures Trues(Complement(m)) == |m| - Trues(m)
  {
    if m != [] {
      ComplementTrues(m[1..]);
      assert Complement(m)[1..] == Complement(m[1..]);
    }
  }

  lemma HalvesUsable(d: Trial, i: nat)
    requires d.Valid() && i < |Halves(d)|
    ensures Usable(d, Halves(d)[i]) && Usable(d, Complement(Halves(d)[i]))
    ensures Trues(Halves(d)[i]) == d.blocks / 2 == Trues(Complement(Halves(d)[i]))
  {
    var m := Halves(d)[i];
    assert m in Halves(d);
    CombosExact(d.blocks, d.blocks / 2, m);
    ComplementTrues(m);
  }

  /** One path per combination: the in-sample row and its complement's. */
  function IsRow(num: Numerics, d: Trial, i: nat): (r: seq<real>)
    requires num.Lawful() && d.Valid() && i < |Halves(d)|
    ensures |r| == d.candidates
  {
    HalvesUsable(d, i);
    Row(num, d, Halves(d)[i])
  }

  function OosRow(num: Numerics, d: Trial, i: nat): (r: seq<real>)
    requires num.Lawful() && d.Valid() && i < |Halves(d)|
    ensures |r| == d.candidates
  {
    HalvesUsable(d, i);
    Row(num, d, Complement(Halves(d)[i]))
  }

  /** The out-of-sample matrix is the in-sample matrix upside down. */
  lemma OosIsReversedIs(num: Numerics, d: Trial, i: nat)
    requires num.Lawful() && d.Valid() && i < |Halves(d)|
    ensures OosRow(num, d, i) == IsRow(num, d, |Halves(d)| - 1 - i)
  {
    hide Combos, Complement, Row, Usable, Trues;
    assert d.blocks - d.blocks / 2 == d.blocks / 2;
    ComplementReverses(d.blocks, d.blocks / 2, i);
    HalvesUsable(d, i);
    HalvesUsable(d, |Halves(d)| - 1 - i);
  }

  // ---------------------------------------------------------------- the champion's rank

  /** The first index of the largest entry. */
  function ArgMax(r: seq<real>): (b: nat)
    requires r != []
    ensures b < |r| && (forall c | 0 <= c < |r| :: r[c] <= r[b]) && (forall c | 0 <= c < b :: r[c] < r[b])
  {
    if |r| == 1 then 0
    else
      var b := ArgMax(r[..|r| - 1]);
      if r[|r| - 1] > r[b] then |r| - 1 else b
  }

  /** How many entries are at most x. */
  function CountUpTo(r: seq<real>, x: real): (n: nat)
    ensures n <= |r|
  {
    if r == [] then 0 else CountUpTo(r[..|r| - 1], x) + if r[|r| - 1] <= x then 1 else 0
  }

  lemma {:induction false} CountsItself(r: seq<real>, b: nat)
    requires b < |r|
    ensures CountUpTo(r, r[b]) >= 1
  {
    if b < |r| - 1 {
      CountsItself(r[..|r| - 1], b);
    }
  }

  /** The out-of-sample rank of path i's in-sample champion. */
  function RankOf(num: Numerics, d: Trial, i: nat): nat
    requires num.Lawful() && d.Valid() && i < |Halves(d)|
  {
    CountUpTo(OosRow(num, d, i), OosRow(num, d, i)[ArgMax(IsRow(num, d, i))])
  }

  function Omega(num: Numerics, d: Trial, i: nat): real
    requires num.Lawful() && d.Valid() && i < |Halves(d)|
  {
    RankOf(num, d, i) as real / (d.candidates + 1) as real
  }

  function Odds(w: real): real {
    if w == 1.0 then 0.0 else w / (1.0 - w)
  }

  function Lambda(num: Numerics, d: Trial, i: nat): real
    requires num.Lawful() && d.Valid() && i < |Halves(d)|
  {
    num.log(Odds(Omega(num, d, i)))
  }

  lemma HalfIff(rank: nat, m: nat, w: real)
    requires m > 0 && w * m as real == rank as real
    ensures w <= 0.5 <==> 2 * rank <= m
  {
  }

  lemma OddsFacts(w: real)
    requires 0.0 < w < 1.0
    ensures Odds(w) > 0.0 && (Odds(w) <= 1.0 <==> w <= 0.5)
  {
    var o := w / (1.0 - w);
    assert o * (1.0 - w) == w;
    DivPositive(w, 1.0 - w);
    if o <= 1.0 {
      MulNonneg(1.0 - o, 1.0 - w);
    } else {
      MulPositive(o - 1.0, 1.0 - w);
    }
  }

  lemma RankFraction(rank: nat, n: nat)
    requires 1 <= rank <= n
    ensures var w := rank as real / (n + 1) as real;
            0.0 < w < 1.0 && Odds(w) > 0.0 && (Odds(w) <= 1.0 <==> 2 * rank <= n + 1)
  {
    var r, m := rank as real, (n + 1) as real;
    var w := r / m;
    assert w * m == r;
    DivPositive(r, m);
    assert w < 1.0 by {
      if w >= 1.0 {
        MulNonneg(w - 1.0, m);
      }
    }
    HalfIff(rank, n + 1, w);
    OddsFacts(w);
  }

  /** Every relative rank lies strictly between 0 and 1, so its logit is defined,
      and the logit is at most 0 exactly when the champion ends up in the lower
      half of the candidates out of sample. */
  lemma LogitDefined(num: Numerics, d: Trial, i: nat)
    requires num.Lawful() && d.Valid() && i < |Halves(d)|
    ensures 0.0 < Omega(num, d, i) < 1.0 && Odds(Omega(num, d, i)) > 0.0
    ensures Lambda(num, d, i) <= 0.0 <==> 2 * RankOf(num, d, i) <= d.candidates + 1
  {
    CountsItself(OosRow(num, d, i), ArgMax(IsRow(num, d, i)));
    RankFraction(RankOf(num, d, i), d.candidates);
  }

  // ---------------------------------------------------------------- pooled regression

  /** The first m rows one after the other. */
  function PooledIs(num: Numerics, d: Trial, m: nat): seq<real>
    requires num.Lawful() && d.Valid() && m <= |Halves(d)|
  {
    if m == 0 then [] else PooledIs(num, d, m - 1) + IsRow(num, d, m - 1)
  }

  function PooledOos(num: Numerics, d: Trial, m: nat): seq<real>
    requires num.Lawful() && d.Valid() && m <= |Halves(d)|
  {
    if m == 0 then [] else PooledOos(num, d, m - 1) + OosRow(num, d, m - 1)
  }

  /** The last m in-sample rows, last first. */
  function PooledBack(num: Numerics, d: Trial, from: nat): seq<real>
    requires num.Lawful() && d.Valid() && from <= |Halves(d)|
    decreases |Halves(d)| - from
  {
    if from == |Halves(d)| then [] else IsRow(num, d, from) + PooledBack(num, d, from + 1)
  }

  lemma {:induction false} PoolsMeet(num: Numerics, d: Trial, m: nat)
    requires num.Lawful() && d.Valid() && m <= |Halves(d)|
    ensures PooledIs(num, d, |Halves(d)|) == PooledIs(num, d, m) + PooledBack(num, d, m)
    decreases |Halves(d)| - m
  {
    hide IsRow, Halves;
    var front, back := PooledIs(num, d, m), PooledBack(num, d, m);
    if m == |Halves(d)| {
      assert front + [] == front;
    } else {
      PoolsMeet(num, d, m + 1);
      assert (front + IsRow(num, d, m)) + PooledBack(num, d, m + 1) ==
        front + (IsRow(num, d, m) + PooledBack(num, d, m + 1));
    }
  }

  lemma {:induction false} OosIsBackwards(num: Numerics, d: Trial, m: nat)
    requires num.Lawful() && d.Valid() && m <= |Halves(d)|
    ensures multiset(PooledOos(num, d, m)) == multiset(PooledBack(num, d, |Halves(d)| - m))
    ensures |PooledOos(num, d, m)| == |PooledBack(num, d, |Halves(d)| - m)|
  {
    hide IsRow, OosRow, Halves;
    if m > 0 {
      OosIsBackwards(num, d, m - 1);
      OosIsReversedIs(num, d, m - 1);
      var row := IsRow(num, d, |Halves(d)| - m);
      assert PooledBack(num, d, |Halves(d)| - m) == row + PooledBack(num, d, |Halves(d)| - m + 1);
    }
  }

  /** All in-sample and all out-of-sample values of all paths. */
  function Xs(num: Numerics, d: Trial): seq<real>
    requires num.Lawful() && d.Valid()
  {
    PooledIs(num, d, |Halves(d)|)
  }

  function Ys(num: Numerics, d: Trial): seq<real>
    requires num.Lawful() && d.Valid()
  {
    PooledOos(num, d, |Halves(d)|)
  }

  /** The pooled out-of-sample values are a permutation of the in-sample ones. */
  lemma PoolsArePermutations(num: Numerics, d: Trial)
    requires num.Lawful() && d.Valid()
    ensures multiset(Xs(num, d)) == multiset(Ys(num, d)) && |Xs(num, d)| == |Ys(num, d)|
  {
    PoolsMeet(num, d, 0);
    OosIsBackwards(num, d, |Halves(d)|);
    assert [] + PooledBack(num, d, 0) == PooledBack(num, d, 0);
  }

  lemma {:induction false} DeviationsAppend(xs: seq<real>, ys: seq<real>, mu: real)
    ensures SquaredDeviations(xs + ys, mu) == SquaredDeviations(xs, mu) + SquaredDeviations(ys, mu)
  {
    hide Sq;
    if ys == [] {
      assert xs + ys == xs;
    } else {
      DeviationsAppend(xs, ys[..|ys| - 1], mu);
      assert (xs + ys)[..|xs + ys| - 1] == xs + ys[..|ys| - 1];
    }
  }

  lemma SingleSums(x: real, mu: real)
    ensures Sum([x]) == x && SquaredDeviations([x], mu) == Sq(x - mu)
  {
  }

  lemma RemoveAt(a: seq<real>, x: real, b: seq<real>, mu: real)
    ensures Sum(a + [x] + b) == Sum(a + b) + x
    ensures SquaredDeviations(a + [x] + b, mu) == SquaredDeviations(a + b, mu) + Sq(x - mu)
  {
    hide *;
    SingleSums(x, mu);
    SumsAppend(a + [x], b);
    SumsAppend(a, [x]);
    SumsAppend(a, b);
    DeviationsAppend(a + [x], b, mu);
    DeviationsAppend(a, [x], mu);
    DeviationsAppend(a, b, mu);
  }

  lemma SameRest(xs: seq<real>, ys: seq<real>, k: nat)
    requires multiset(xs) == multiset(ys) && xs != [] && k < |ys| && ys[k] == xs[|xs| - 1]
    ensures ys == ys[..k] + [ys[k]] + ys[k + 1..]
    ensures multiset(xs[..|xs| - 1]) == multiset(ys[..k] + ys[k + 1..])
  {
    var x, init, a, b := ys[k], xs[..|xs| - 1], ys[..k], ys[k + 1..];
    assert xs == init + [x];
    assert ys == a + [x] + b;
    assert multiset(xs) == multiset(init) + multiset{x};
    assert multiset(ys) == multiset(a) + multiset{x} + multiset(b);
    assert multiset(a + b) == multiset(a) + multiset(b);
    assert multiset(init) == multiset(xs) - multiset{x};
    assert multiset(a + b) == multiset(ys) - multiset{x};
  }

  lemma FindIn(xs: seq<real>, ys: seq<real>) returns (k: nat)
    requires multiset(xs) == multiset(ys) && xs != []
    ensures k < |ys| && ys[k] == xs[|xs| - 1]
  {
    assert xs[|xs| - 1] in multiset(ys);
    k :| 0 <= k < |ys| && ys[k] == xs[|xs| - 1];
  }

  lemma EmptyPermutation(xs: seq<real>, ys: seq<real>)
    requires multiset(xs) == multiset(ys)
    ensures |xs| == |ys|
  {
    assert |multiset(xs)| == |xs| && |multiset(ys)| == |ys|;
  }

  /** Sums over a permutation agree. */
  lemma {:induction false} PermutedSums(xs: seq<real>, ys: seq<real>, mu: real)
    requires multiset(xs) == multiset(ys)
    ensures |xs| == |ys| && Sum(xs) == Sum(ys) && SquaredDeviations(xs, mu) == SquaredDeviations(ys, mu)
  {
    EmptyPermutation(xs, ys);
    if xs != [] {
      var n := |xs| - 1;
      var k := FindIn(xs, ys);
      SameRest(xs, ys, k);
      PermutedSums(xs[..n], ys[..k] + ys[k + 1..], mu);
      RemoveAt(ys[..k], ys[k], ys[k + 1..], mu);
      LastSums(xs, mu);
      hide *;
    }
  }

  lemma LastSums(xs: seq<real>, mu: real)
    requires xs != []
    ensures var n := |xs| - 1;
            Sum(xs) == Sum(xs[..n]) + xs[n]
              && SquaredDeviations(xs, mu) == SquaredDeviations(xs[..n], mu) + Sq(xs[n] - mu)
  {
  }

  /** The sum of products of deviations. */
  function Codeviations(xs: seq<real>, ys: seq<real>, mx: real, my: real): real
    requires |xs| == |ys|
  {
    if xs == [] then 0.0
    else
      var n := |xs| - 1;
      Codeviations(xs[..n], ys[..n], mx, my) + Mul(xs[n] - mx, ys[n] - my)
  }

  lemma TermBound(a: real, b: real)
    ensures 2.0 * Mul(a, b) <= Sq(a) + Sq(b) && -2.0 * Mul(a, b) <= Sq(a) + Sq(b)
  {
    Square(a - b);
    Square(a + b);
    assert (a - b) * (a - b) == a * a - 2.0 * (a * b) + b * b;
    assert (a + b) * (a + b) == a * a + 2.0 * (a * b) + b * b;
  }

  lemma Square(x: real)
    ensures x * x >= 0.0
  {
  }

  lemma {:induction false} CodeviationBound(xs: seq<real>, ys: seq<real>, mx: real, my: real)
    requires |xs| == |ys|
    ensures var c, v := Codeviations(xs, ys, mx, my), SquaredDeviations(xs, mx) + SquaredDeviations(ys, my);
            2.0 * c <= v && -2.0 * c <= v
    ensures SquaredDeviations(xs, mx) >= 0.0
  {
    hide Sq, Mul;
    if xs != [] {
      var n := |xs| - 1;
      CodeviationBound(xs[..n], ys[..n], mx, my);
      TermBound(xs[n] - mx, ys[n] - my);
      assert Sq(xs[n] - mx) >= 0.0 by { SqNonneg(xs[n] - mx); }
    }
  }

  lemma SqNonneg(x: real)
    ensures Sq(x) >= 0.0
  {
  }

  /** The least-squares slope of ys over xs. */
  function Slope(xs: seq<real>, ys: seq<real>): real
    requires |xs| == |ys| > 0 && SquaredDeviations(xs, Mean(xs)) > 0.0
  {
    Codeviations(xs, ys, Mean(xs), Mean(ys)) / SquaredDeviations(xs, Mean(xs))
  }

  function Intercept(xs: seq<real>, ys: seq<real>): real
    requires |xs| == |ys| > 0 && SquaredDeviations(xs, Mean(xs)) > 0.0
  {
    Mean(ys) - Mul(Slope(xs, ys), Mean(xs))
  }

  /** The squared error of the line a*x + b. */
  function Residual(xs: seq<real>, ys: seq<real>, a: real, b: real): real
    requires |xs| == |ys|
  {
    if xs == [] then 0.0
    else
      var n := |xs| - 1;
      Residual(xs[..n], ys[..n], a, b) + Sq(ys[n] - Mul(a, xs[n]) - b)
  }

  function Centered(xs: seq<real>, m: real): real {
    if xs == [] then 0.0 else Centered(xs[..|xs| - 1], m) + (xs[|xs| - 1] - m)
  }

  /** The squared error in terms of deviations; e is the line's offset at the centre. */
  function Expanded(n: nat, dxx: real, dxy: real, dyy: real, u: real, v: real, a: real, e: real): real {
    dyy - 2.0 * a * dxy + a * a * dxx + n as real * (e * e) - 2.0 * e * v + 2.0 * (a * e) * u
  }

  lemma ExpandedStep(n: nat, dxx: real, dxy: real, dyy: real, u: real, v: real, a: real, e: real, q: real, p: real)
    ensures Expanded(n + 1, dxx + Sq(q), dxy + Mul(q, p), dyy + Sq(p), u + q, v + p, a, e) ==
            Expanded(n, dxx, dxy, dyy, u, v, a, e) + Sq(p - Mul(a, q) - e)
    ensures Expanded(0, 0.0, 0.0, 0.0, 0.0, 0.0, a, e) == 0.0
  {
  }

  lemma Offset(x: real, y: real, mx: real, my: real, a: real, b: real)
    ensures y - Mul(a, x) - b == (y - my) - Mul(a, x - mx) - (b - my + Mul(a, mx))
  {
  }

  lemma {:induction false} ResidualExpands(xs: seq<real>, ys: seq<real>, mx: real, my: real, a: real, b: real)
    requires |xs| == |ys|
    ensures Residual(xs, ys, a, b) ==
            Expanded(|xs|, SquaredDeviations(xs, mx), Codeviations(xs, ys, mx, my), SquaredDeviations(ys, my),
                     Centered(xs, mx), Centered(ys, my), a, b - my + Mul(a, mx))
  {
    hide Expanded, Sq, Mul;
    var e := b - my + Mul(a, mx);
    if xs == [] {
      ExpandedStep(0, 0.0, 0.0, 0.0, 0.0, 0.0, a, e, 0.0, 0.0);
    } else {
      var n := |xs| - 1;
      ResidualExpands(xs[..n], ys[..n], mx, my, a, b);
      Offset(xs[n], ys[n], mx, my, a, b);
      ExpandedStep(n, SquaredDeviations(xs[..n], mx), Codeviations(xs[..n], ys[..n], mx, my),
                   SquaredDeviations(ys[..n], my),
                   Centered(xs[..n], mx), Centered(ys[..n], my), a, e, xs[n] - mx, ys[n] - my);
    }
  }

  lemma {:induction false} CenteredIs(xs: seq<real>, m: real)
    ensures Centered(xs, m) == Sum(xs) - Mul(m, |xs| as real)
  {
    if xs != [] {
      var n := |xs| - 1;
      CenteredIs(xs[..n], m);
      assert |xs| as real == n as real + 1.0;
      assert m * (n as real + 1.0) == m * n as real + m;
    }
  }

  lemma CenteredAtMean(xs: seq<real>)
    requires xs != []
    ensures Centered(xs, Mean(xs)) == 0.0
  {
    CenteredIs(xs, Mean(xs));
    assert Mean(xs) * |xs| as real == Sum(xs);
  }

  lemma ExpandedLeast(n: nat, dxx: real, dxy: real, dyy: real, a: real, e: real)
    requires dxx > 0.0
    ensures Expanded(n, dxx, dxy, dyy, 0.0, 0.0, dxy / dxx, 0.0) <= Expanded(n, dxx, dxy, dyy, 0.0, 0.0, a, e)
  {
    var s := dxy / dxx;
    assert s * dxx == dxy;
    Square(a - s);
    Square(e);
    MulNonneg((a - s) * (a - s), dxx);
    MulNonneg(e * e, n as real);
    assert (a - s) * (a - s) == a * a - 2.0 * (a * s) + s * s;
    assert (a * a - 2.0 * (a * s) + s * s) * dxx == a * a * dxx - 2.0 * a * (s * dxx) + s * (s * dxx);
    assert 2.0 * s * dxy == 2.0 * (s * (s * dxx)) && s * s * dxx == s * (s * dxx);
    assert 2.0 * 0.0 * 0.0 == 0.0 && n as real * (0.0 * 0.0) == 0.0;
  }

  /** No line fits better than the slope and intercept. */
  lemma SlopeIsBestFit(xs: seq<real>, ys: seq<real>, a: real, b: real)
    requires |xs| == |ys| > 0 && SquaredDeviations(xs, Mean(xs)) > 0.0
    ensures Residual(xs, ys, Slope(xs, ys), Intercept(xs, ys)) <= Residual(xs, ys, a, b)
  {
    var mx, my, s := Mean(xs), Mean(ys), Slope(xs, ys);
    var dxx, dxy, dyy := SquaredDeviations(xs, mx), Codeviations(xs, ys, mx, my), SquaredDeviations(ys, my);
    assert s == dxy / dxx && Intercept(xs, ys) - my + Mul(s, mx) == 0.0;
    hide *;
    CenteredAtMean(xs);
    CenteredAtMean(ys);
    ResidualExpands(xs, ys, mx, my, a, b);
    ResidualExpands(xs, ys, mx, my, s, Intercept(xs, ys));
    ExpandedLeast(|xs|, dxx, dxy, dyy, a, b - my + Mul(a, mx));
  }

  lemma RatioBound(c: real, v: real)
    requires v > 0.0 && -v <= c <= v
    ensures -1.0 <= c / v <= 1.0
  {
  }

  /** The degradation slope of every trial lies in [-1, 1] when the pooled
      in-sample values are not all equal. */
  lemma SlopeInRange(num: Numerics, d: Trial)
    requires num.Lawful() && d.Valid() && Xs(num, d) != []
    requires SquaredDeviations(Xs(num, d), Mean(Xs(num, d))) > 0.0
    ensures |Xs(num, d)| == |Ys(num, d)| && -1.0 <= Slope(Xs(num, d), Ys(num, d)) <= 1.0
  {
    var xs, ys := Xs(num, d), Ys(num, d);
    PoolsArePermutations(num, d);
    hide Xs, Ys, Sum, SquaredDeviations, Codeviations;
    PermutedSums(xs, ys, Mean(xs));
    assert Mean(ys) == Mean(xs);
    CodeviationBound(xs, ys, Mean(xs), Mean(ys));
    RatioBound(Codeviations(xs, ys, Mean(xs), Mean(ys)), SquaredDeviations(xs, Mean(xs)));
  }

  // ---------------------------------------------------------------- the report

  /** degradation is the slope and intercept; None where the pooled values are
      all equal and no line is determined. */
  datatype Report = Report(
    pbo: real,
    lambdas: seq<real>,
    srIsBest: seq<real>,
    srOosBest: seq<real>,
    pOosNeg: real,
    degradation: Option<(real, real)>,
    nCombos: nat)

  function Degradation(xs: seq<real>, ys: seq<real>): Option<(real, real)> {
    if |xs| == |ys| > 0 && SquaredDeviations(xs, Mean(xs)) > 0.0 then Some((Slope(xs, ys), Intercept(xs, ys))) else None
  }

  datatype CscvError = OddBlocks | TooShort | EmptyInput

  datatype CscvResult = CscvOk(report: Report) | CscvFailed(error: CscvError)

  function CountAtMostZero(s: seq<real>): (n: nat)
    ensures n <= |s|
  {
    if s == [] then 0 else CountAtMostZero(s[..|s| - 1]) + if s[|s| - 1] <= 0.0 then 1 else 0
  }

  function CountNegative(s: seq<real>): (n: nat)
    ensures n <= |s|
  {
    if s == [] then 0 else CountNegative(s[..|s| - 1]) + if s[|s| - 1] < 0.0 then 1 else 0
  }

  function CscvPbo(num: Numerics, rets: seq<seq<real>>, candidates: nat, blocks: nat): CscvResult
    requires num.Lawful() && forall t | 0 <= t < |rets| :: |rets[t]| == candidates
  {
    if blocks % 2 != 0 then CscvFailed(OddBlocks)
    else if |rets| < blocks * 2 then CscvFailed(TooShort)
    else if candidates == 0 || blocks == 0 then CscvFailed(EmptyInput)
    else
      var d := Trial(rets, candidates, blocks);
      var m := |Halves(d)|;
      CombosCount(blocks, blocks / 2);
      ChooseSymmetric(blocks, blocks / 2);
      var lambdas := seq(m, i requires 0 <= i < m => Lambda(num, d, i));
      var best := seq(m, i requires 0 <= i < m => IsRow(num, d, i)[ArgMax(IsRow(num, d, i))]);
      var oos := seq(m, i requires 0 <= i < m => OosRow(num, d, i)[ArgMax(IsRow(num, d, i))]);
      CscvOk(Report(CountAtMostZero(lambdas) as real / m as real, lambdas, best, oos,
                    CountNegative(oos) as real / m as real, Degradation(Xs(num, d), Ys(num, d)), m))
  }

  /** How many of the first m paths send their champion to the lower half. */
  function Overfits(num: Numerics, d: Trial, m: nat): (n: nat)
    requires num.Lawful() && d.Valid() && m <= |Halves(d)|
  {
    if m == 0 then 0
    else Overfits(num, d, m - 1) + if 2 * RankOf(num, d, m - 1) <= d.candidates + 1 then 1 else 0
  }

  lemma {:induction false} OverfitsAreCounted(num: Numerics, d: Trial, m: nat)
    requires num.Lawful() && d.Valid() && m <= |Halves(d)|
    ensures CountAtMostZero(seq(m, i requires 0 <= i < m => Lambda(num, d, i))) == Overfits(num, d, m) <= m
  {
    hide Lambda, RankOf, Halves;
    if m > 0 {
      OverfitsAreCounted(num, d, m - 1);
      LogitDefined(num, d, m - 1);
      var s := seq(m, i requires 0 <= i < m => Lambda(num, d, i));
      assert s[..m - 1] == seq(m - 1, i requires 0 <= i < m - 1 => Lambda(num, d, i));
    }
  }

  /** A report covers every combination, its PBO is the share of paths whose
      champion falls to the lower half, and both probabilities lie in [0, 1]. */
  lemma ReportMeaning(num: Numerics, rets: seq<seq<real>>, candidates: nat, blocks: nat)
    requires num.Lawful() && forall t | 0 <= t < |rets| :: |rets[t]| == candidates
    requires CscvPbo(num, rets, candidates, blocks).CscvOk?
    ensures var r, d := CscvPbo(num, rets, candidates, blocks).report, Trial(rets, candidates, blocks);
            && d.Valid() && r.nCombos == Choose(blocks, blocks / 2) == |Halves(d)| > 0
            && r.pbo == Overfits(num, d, |Halves(d)|) as real / |Halves(d)| as real
            && 0.0 <= r.pbo <= 1.0 && 0.0 <= r.pOosNeg <= 1.0
            && (r.degradation.Some? ==> -1.0 <= r.degradation.value.0 <= 1.0)
  {
    var d := Trial(rets, candidates, blocks);
    CombosCount(blocks, blocks / 2);
    ChooseSymmetric(blocks, blocks / 2);
    OverfitsAreCounted(num, d, |Halves(d)|);
    var r := CscvPbo(num, rets, candidates, blocks).report;
    Share(CountAtMostZero(r.lambdas), r.nCombos);
    Share(CountNegative(r.srOosBest), r.nCombos);
    if r.degradation.Some? {
      SlopeInRange(num, d);
    }
  }

  // ---------------------------------------------------------------- what a report says, path by path

  /** b is the first index of the largest entry. */
  ghost predicate IsFirstMax(r: seq<real>, b: nat) {
    && b < |r| && (forall c | 0 <= c < |r| :: r[c] <= r[b]) && (forall c | 0 <= c < b :: r[c] < r[b])
  }

  lemma FirstMaxIs(r: seq<real>, b: nat)
    requires r != []
    ensures IsFirstMax(r, b) <==> b == ArgMax(r)
  {
    var a := ArgMax(r);
    if IsFirstMax(r, b) {
      assert r[a] <= r[b] && r[b] <= r[a];
    }
  }

  /** The entries that are at most the b-th. */
  ghost function NoBetter(r: seq<real>, b: nat): set<nat>
    requires b < |r|
  {
    set c: nat | c < |r| && r[c] <= r[b]
  }

  lemma {:induction false} CountIsSet(r: seq<real>, x: real)
    ensures CountUpTo(r, x) == |set c: nat | c < |r| && r[c] <= x|
  {
    if r != [] {
      var n := |r| - 1;
      CountIsSet(r[..n], x);
      var before := set c: nat | c < |r[..n]| && r[..n][c] <= x;
      assert (set c: nat | c < |r| && r[c] <= x) == before + if r[n] <= x then {n} else {};
    }
  }

  /** The champion of path i, and how many candidates do no better than it out of
      sample. */
  ghost predicate ChampionRank(num: Numerics, d: Trial, i: nat, b: nat, k: nat)
    requires num.Lawful() && d.Valid() && i < |Halves(d)|
  {
    IsFirstMax(IsRow(num, d, i), b) && k == |NoBetter(OosRow(num, d, i), b)|
  }

  lemma RankMeans(num: Numerics, d: Trial, i: nat, b: nat, k: nat)
    requires num.Lawful() && d.Valid() && i < |Halves(d)|
    ensures ChampionRank(num, d, i, b, k) <==> b == ArgMax(IsRow(num, d, i)) && k == RankOf(num, d, i)
  {
    hide IsRow, OosRow, ArgMax, CountUpTo;
    FirstMaxIs(IsRow(num, d, i), b);
    var best := ArgMax(IsRow(num, d, i));
    CountIsSet(OosRow(num, d, i), OosRow(num, d, i)[best]);
  }

  /** Path by path: the champion's two Sharpe ratios, and a logit that is the log of
      its rank against what is above it. */
  lemma PathMeans(num: Numerics, rets: seq<seq<real>>, candidates: nat, blocks: nat, i: nat, b: nat, k: nat)
    requires num.Lawful() && forall t | 0 <= t < |rets| :: |rets[t]| == candidates
    requires CscvPbo(num, rets, candidates, blocks).CscvOk?
    requires var d := Trial(rets, candidates, blocks); d.Valid() && i < |Halves(d)| && ChampionRank(num, d, i, b, k)
    ensures var r, d := CscvPbo(num, rets, candidates, blocks).report, Trial(rets, candidates, blocks);
            && |r.lambdas| == |r.srIsBest| == |r.srOosBest| == |Halves(d)|
            && r.srIsBest[i] == IsRow(num, d, i)[b] && r.srOosBest[i] == OosRow(num, d, i)[b]
            && 1 <= k <= candidates
            && (r.lambdas[i] <= 0.0 <==> 2 * k <= candidates + 1)
            && r.lambdas[i] == num.log(k as real / (candidates + 1 - k) as real)
  {
    var d := Trial(rets, candidates, blocks);
    hide IsRow, OosRow, ArgMax, CountUpTo, Combos, Choose, Degradation;
    RankMeans(num, d, i, b, k);
    LogitDefined(num, d, i);
    CountsItself(OosRow(num, d, i), b);
    RankIs(num, d, i, b);
    OddsOfRank(k, candidates);
  }

  lemma RankIs(num: Numerics, d: Trial, i: nat, b: nat)
    requires num.Lawful() && d.Valid() && i < |Halves(d)| && b == ArgMax(IsRow(num, d, i))
    ensures RankOf(num, d, i) == CountUpTo(OosRow(num, d, i), OosRow(num, d, i)[b])
    ensures Omega(num, d, i) == RankOf(num, d, i) as real / (d.candidates + 1) as real
  {
  }

  lemma OddsOfRank(k: nat, n: nat)
    requires 1 <= k <= n
    ensures Odds(k as real / (n + 1) as real) == k as real / (n + 1 - k) as real
  {
    var r, m := k as real, (n + 1) as real;
    var w := r / m;
    RankFraction(k, n);
    assert w * m == r && (n + 1 - k) as real == m - r;
    var o := w / (1.0 - w);
    assert o * (1.0 - w) == w;
    assert o * (m - r) == r by {
      assert (o * (1.0 - w)) * m == w * m;
      assert (o * (1.0 - w)) * m == o * (m - w * m);
    }
    DivIs(r, m - r, o);
  }

  /** Path i sends its champion to the lower half of the candidates. */
  ghost predicate Overfit(num: Numerics, d: Trial, i: nat)
    requires num.Lawful() && d.Valid() && i < |Halves(d)|
  {
    exists b: nat, k: nat :: ChampionRank(num, d, i, b, k) && 2 * k <= d.candidates + 1
  }

  /** Path i's champion loses out of sample. */
  ghost predicate Loses(num: Numerics, d: Trial, i: nat)
    requires num.Lawful() && d.Valid() && i < |Halves(d)|
  {
    exists b: nat :: IsFirstMax(IsRow(num, d, i), b) && OosRow(num, d, i)[b] < 0.0
  }

  lemma {:induction false} NonPositiveIsSet(s: seq<real>)
    ensures CountAtMostZero(s) == |set i: nat | i < |s| && s[i] <= 0.0|
  {
    if s != [] {
      var n := |s| - 1;
      NonPositiveIsSet(s[..n]);
      var low := set i: nat | i < |s[..n]| && s[..n][i] <= 0.0;
      assert (set i: nat | i < |s| && s[i] <= 0.0) == low + if s[n] <= 0.0 then {n} else {};
    }
  }

  lemma {:induction false} NegativeIsSet(s: seq<real>)
    ensures CountNegative(s) == |set i: nat | i < |s| && s[i] < 0.0|
  {
    if s != [] {
      var n := |s| - 1;
      NegativeIsSet(s[..n]);
      var low := set i: nat | i < |s[..n]| && s[..n][i] < 0.0;
      assert (set i: nat | i < |s| && s[i] < 0.0) == low + if s[n] < 0.0 then {n} else {};
    }
  }

  lemma OverfitIs(num: Numerics, d: Trial, i: nat)
    requires num.Lawful() && d.Valid() && i < |Halves(d)|
    ensures Overfit(num, d, i) <==> 2 * RankOf(num, d, i) <= d.candidates + 1
  {
    hide IsRow, OosRow, ArgMax, CountUpTo, ChampionRank, RankOf, Halves;
    var b, k := ArgMax(IsRow(num, d, i)), RankOf(num, d, i);
    RankMeans(num, d, i, b, k);
    if Overfit(num, d, i) {
      var b': nat, k': nat :| ChampionRank(num, d, i, b', k') && 2 * k' <= d.candidates + 1;
      RankMeans(num, d, i, b', k');
    }
  }

  lemma LosesIs(num: Numerics, d: Trial, i: nat)
    requires num.Lawful() && d.Valid() && i < |Halves(d)|
    ensures Loses(num, d, i) <==> OosRow(num, d, i)[ArgMax(IsRow(num, d, i))] < 0.0
  {
    hide IsRow, OosRow, ArgMax, Halves;
    var b := ArgMax(IsRow(num, d, i));
    FirstMaxIs(IsRow(num, d, i), b);
    if Loses(num, d, i) {
      var b': nat :| IsFirstMax(IsRow(num, d, i), b') && OosRow(num, d, i)[b'] < 0.0;
      FirstMaxIs(IsRow(num, d, i), b');
    }
  }

  lemma PathCases(num: Numerics, rets: seq<seq<real>>, candidates: nat, blocks: nat, i: nat)
    requires num.Lawful() && forall t | 0 <= t < |rets| :: |rets[t]| == candidates
    requires CscvPbo(num, rets, candidates, blocks).CscvOk?
    requires var d := Trial(rets, candidates, blocks); d.Valid() && i < |Halves(d)|
    ensures var r, d := CscvPbo(num, rets, candidates, blocks).report, Trial(rets, candidates, blocks);
            && |r.lambdas| == |r.srOosBest| == |Halves(d)|
            && (Overfit(num, d, i) <==> r.lambdas[i] <= 0.0) && (Loses(num, d, i) <==> r.srOosBest[i] < 0.0)
  {
    var d := Trial(rets, candidates, blocks);
    hide IsRow, OosRow, ArgMax, CountUpTo, CscvPbo, ChampionRank, RankOf, Halves, Overfit, Loses;
    var b, k := ArgMax(IsRow(num, d, i)), RankOf(num, d, i);
    RankMeans(num, d, i, b, k);
    PathMeans(num, rets, candidates, blocks, i, b, k);
    OverfitIs(num, d, i);
    LosesIs(num, d, i);
  }

  lemma CasesAsSets(num: Numerics, rets: seq<seq<real>>, candidates: nat, blocks: nat)
    requires num.Lawful() && forall t | 0 <= t < |rets| :: |rets[t]| == candidates
    requires CscvPbo(num, rets, candidates, blocks).CscvOk? && Trial(rets, candidates, blocks).Valid()
    ensures var r, d := CscvPbo(num, rets, candidates, blocks).report, Trial(rets, candidates, blocks);
            && (set i: nat | i < |Halves(d)| && Overfit(num, d, i)) ==
               (set i: nat | i < |r.lambdas| && r.lambdas[i] <= 0.0)
            && (set i: nat | i < |Halves(d)| && Loses(num, d, i)) ==
               (set i: nat | i < |r.srOosBest| && r.srOosBest[i] < 0.0)
  {
    var r, d := CscvPbo(num, rets, candidates, blocks).report, Trial(rets, candidates, blocks);
    ReportShares(num, rets, candidates, blocks);
    hide *;
    forall i: nat | i < |Halves(d)|
      ensures (Overfit(num, d, i) <==> r.lambdas[i] <= 0.0) && (Loses(num, d, i) <==> r.srOosBest[i] < 0.0)
    {
      PathCases(num, rets, candidates, blocks, i);
    }
  }

  /** PBO is the share of paths whose champion does no better than half of the
      candidates out of sample, and pOosNeg the share whose champion loses there. */
  lemma SharesMean(num: Numerics, rets: seq<seq<real>>, candidates: nat, blocks: nat)
    requires num.Lawful() && forall t | 0 <= t < |rets| :: |rets[t]| == candidates
    requires CscvPbo(num, rets, candidates, blocks).CscvOk?
    ensures var r, d := CscvPbo(num, rets, candidates, blocks).report, Trial(rets, candidates, blocks);
            && d.Valid() && |Halves(d)| > 0
            && r.pbo == |set i: nat | i < |Halves(d)| && Overfit(num, d, i)| as real / |Halves(d)| as real
            && r.pOosNeg == |set i: nat | i < |Halves(d)| && Loses(num, d, i)| as real / |Halves(d)| as real
  {
    var r, d := CscvPbo(num, rets, candidates, blocks).report, Trial(rets, candidates, blocks);
    ReportShares(num, rets, candidates, blocks);
    hide *;
    CasesAsSets(num, rets, candidates, blocks);
    NonPositiveIsSet(r.lambdas);
    NegativeIsSet(r.srOosBest);
  }

  lemma ReportShares(num: Numerics, rets: seq<seq<real>>, candidates: nat, blocks: nat)
    requires num.Lawful() && forall t | 0 <= t < |rets| :: |rets[t]| == candidates
    requires CscvPbo(num, rets, candidates, blocks).CscvOk?
    ensures var r, d := CscvPbo(num, rets, candidates, blocks).report, Trial(rets, candidates, blocks);
            && d.Valid() && |Halves(d)| > 0 && |r.lambdas| == |r.srOosBest| == |Halves(d)|
            && r.pbo == CountAtMostZero(r.lambdas) as real / |Halves(d)| as real
            && r.pOosNeg == CountNegative(r.srOosBest) as real / |Halves(d)| as real
  {
    CombosCount(blocks, blocks / 2);
    ChooseSymmetric(blocks, blocks / 2);
    hide Lambda, IsRow, OosRow, ArgMax, Degradation, CountAtMostZero, CountNegative, Choose, Combos;
  }

  /** A candidate's in-sample ratio is the Sharpe ratio of its rows in the blocks the
      combination takes, its out-of-sample ratio that of its rows in the others. */
  lemma RowsMean(num: Numerics, d: Trial, i: nat, c: nat)
    requires num.Lawful() && d.Valid() && i < |Halves(d)| && c < d.candidates
    ensures var xs, taken := d.Column(c), Halves(d)[i];
            var left: Mask := seq(|taken|, j requires 0 <= j < |taken| => !taken[j]);
            && |taken| == d.blocks
            && var ins, outs := Selected(xs, d.blocks, taken, d.blocks), Selected(xs, d.blocks, left, d.blocks);
            && ins != [] && outs != []
            && IsRow(num, d, i)[c] == Sharpe(num, ins) && OosRow(num, d, i)[c] == Sharpe(num, outs)
  {
    hide Sharpe, BlockSharpe, Selected, Trues, MaskCount, Combos;
    HalvesUsable(d, i);
    var taken := Halves(d)[i];
    assert Complement(taken) == seq(|taken|, j requires 0 <= j < |taken| => !taken[j]);
    EntryMeans(num, d, taken, c);
    EntryMeans(num, d, Complement(taken), c);
  }

  lemma EntryMeans(num: Numerics, d: Trial, m: Mask, c: nat)
    requires num.Lawful() && d.Valid() && Usable(d, m) && c < d.candidates
    ensures var rows := Selected(d.Column(c), d.blocks, m, d.blocks);
            rows != [] && Row(num, d, m)[c] == Sharpe(num, rows)
  {
    SomeTrue(m);
    SelectedRows(d.Column(c), d.blocks, m, d.blocks);
    BlockSharpeIsDirect(num, d.Column(c), d.blocks, m);
    hide Sharpe, BlockSharpe, Selected, Trues, MaskCount;
  }

  /** The Sharpe ratio times the deviation is the mean: the deviation is the root of
      the population variance, or of 1e-30 where the variance is below it. */
  lemma SharpeMeans(num: Numerics, xs: seq<real>, mu: real, v: real)
    requires num.Lawful() && xs != []
    requires mu * |xs| as real == Sum(xs) && v * |xs| as real == SquaredDeviations(xs, mu)
    ensures var tiny := 1.0 / 1_000_000_000_000_000_000_000_000_000_000.0;
            Sharpe(num, xs) * num.sqrt(if v < tiny then tiny else v) == mu
  {
    hide Sum, SquaredDeviations;
    DivIs(Sum(xs), |xs| as real, mu);
    DivIs(SquaredDeviations(xs, mu), |xs| as real, v);
  }

  /** A trial is rejected exactly when its blocks are odd in number, when it is too
      short for them, or when it is empty. */
  lemma RejectsExactly(num: Numerics, rets: seq<seq<real>>, candidates: nat, blocks: nat)
    requires num.Lawful() && forall t | 0 <= t < |rets| :: |rets[t]| == candidates
    ensures CscvPbo(num, rets, candidates, blocks).CscvOk? <==> Trial(rets, candidates, blocks).Valid()
    ensures CscvPbo(num, rets, candidates, blocks) == CscvFailed(OddBlocks) <==> blocks % 2 == 1
    ensures CscvPbo(num, rets, candidates, blocks) == CscvFailed(TooShort) <==> blocks % 2 == 0 && |rets| < 2 * blocks
  {
    hide Lambda, IsRow, OosRow, ArgMax, Degradation, CountAtMostZero, CountNegative;
  }

  lemma Share(k: nat, n: nat)
    requires k <= n && n > 0
    ensures 0.0 <= k as real / n as real <= 1.0
  {
  }
}
