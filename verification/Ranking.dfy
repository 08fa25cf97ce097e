/** Population ranking: CompareFitness extended by the fingerprint tie-break for
    two Fatal scores, and the stable sort the engine ranks a generation with. */
module Ranking {
  import opened Common
  import opened ResultPkg

  /** What one individual is ranked by. */
  datatype Key = Key(score: ScoreTotal, fp: string)

  predicate RankableKey(k: Key) {
    Comparable(k.score)
  }

  /** Go's string order. */
  predicate StrLess(a: string, b: string) {
    b != "" && (a == "" || a[0] < b[0] || (a[0] == b[0] && StrLess(a[1..], b[1..])))
  }

  lemma StrTotal(a: string, b: string)
    ensures a == b || StrLess(a, b) || StrLess(b, a)
    ensures !(StrLess(a, b) && StrLess(b, a))
    ensures !StrLess(a, a)
  {
  }

  lemma StrTransitive(a: string, b: string, c: string)
    requires StrLess(a, b) && StrLess(b, c)
    ensures StrLess(a, c)
  {
  }

  function CompareWithFp(a: Key, b: Key): int
    requires RankableKey(a) && RankableKey(b)
  {
    if a.score.Fatal && b.score.Fatal then
      if StrLess(a.fp, b.fp) then -1 else if StrLess(b.fp, a.fp) then 1 else 0
    else CompareFitness(a.score, b.score)
  }

  predicate NoWorse(a: Key, b: Key)
    requires RankableKey(a) && RankableKey(b)
  {
    CompareWithFp(a, b) <= 0
  }

  /** compareWithFp is a total preorder: antisymmetric in sign, hence total, and
      transitive. Only ties of equal value, or of equal Fatal fingerprint, compare 0. */
  lemma TotalPreorder(a: Key, b: Key, c: Key)
    requires RankableKey(a) && RankableKey(b) && RankableKey(c)
    ensures (CompareWithFp(a, b) < 0) <==> (CompareWithFp(b, a) > 0)
    ensures (CompareWithFp(a, b) == 0) <==> (CompareWithFp(b, a) == 0)
    ensures CompareWithFp(a, a) == 0
    ensures NoWorse(a, b) && NoWorse(b, c) ==> NoWorse(a, c)
    ensures CompareWithFp(a, b) == 0 <==> a.score.Fatal == b.score.Fatal && a.score.Value == b.score.Value
                                          && (a.score.Fatal ==> a.fp == b.fp)
  {
    StrTotal(a.fp, b.fp);
    StrTotal(b.fp, c.fp);
    StrTotal(a.fp, c.fp);
    if StrLess(a.fp, b.fp) && StrLess(b.fp, c.fp) {
      StrTransitive(a.fp, b.fp, c.fp);
    }
  }

  /** CompareFitness alone is already a total preorder, without tie-break. */
  lemma FitnessPreorder(a: ScoreTotal, b: ScoreTotal, c: ScoreTotal)
    requires Comparable(a) && Comparable(b) && Comparable(c)
    ensures CompareFitness(a, b) == -CompareFitness(b, a)
    ensures CompareFitness(a, b) <= 0 && CompareFitness(b, c) <= 0 ==> CompareFitness(a, c) <= 0
    ensures CompareFitness(a, b) < 0 <==>
            !a.Fatal && (b.Fatal || a.Value.value > b.Value.value)
  {
  }

  // ---------------------------------------------------------------- stable order

  predicate Rankable(ks: seq<Key>) {
    forall k | k in ks :: RankableKey(k)
  }

  /** Index a is ranked before index b: better, or tied and earlier. */
  predicate Before(ks: seq<Key>, a: nat, b: nat)
    requires Rankable(ks) && a < |ks| && b < |ks|
  {
    CompareWithFp(ks[a], ks[b]) < 0 || (CompareWithFp(ks[a], ks[b]) == 0 && a < b)
  }

  lemma BeforeTransitive(ks: seq<Key>, a: nat, b: nat, c: nat)
    requires Rankable(ks) && a < |ks| && b < |ks| && c < |ks|
    requires Before(ks, a, b) && Before(ks, b, c)
    ensures Before(ks, a, c)
  {
    TotalPreorder(ks[a], ks[b], ks[c]);
    TotalPreorder(ks[a], ks[c], ks[b]);
    TotalPreorder(ks[b], ks[c], ks[a]);
    TotalPreorder(ks[c], ks[a], ks[b]);
  }

  /** ord lists exactly the indices below n, best first, ties in index order. */
  ghost predicate StablySorted(ks: seq<Key>, ord: seq<nat>, n: nat)
    requires Rankable(ks) && n <= |ks|
  {
    && |ord| == n
    && Below(ord, n)
    && (forall k: nat | k < n :: k in ord)
    && (forall i, j | 0 <= i < j < n :: Before(ks, ord[i], ord[j]))
  }

  predicate Below(ord: seq<nat>, n: nat) {
    forall i | 0 <= i < |ord| :: ord[i] < n
  }

  /** Inserts the index |ord| behind every earlier index it does not beat. */
  function Insert(ks: seq<Key>, ord: seq<nat>, k: nat): (r: seq<nat>)
    requires Rankable(ks) && k < |ks| && Below(ord, |ks|)
    ensures Below(r, |ks|)
  {
    if ord == [] then [k]
    else
      var last := ord[|ord| - 1];
      if CompareWithFp(ks[k], ks[last]) < 0 then Insert(ks, ord[..|ord| - 1], k) + [last] else ord + [k]
  }

  /** sort.SliceStable over the identity order, as its documentation specifies it. */
  function StableOrder(ks: seq<Key>, n: nat): (ord: seq<nat>)
    requires Rankable(ks) && n <= |ks|
    ensures Below(ord, |ks|)
  {
    if n == 0 then [] else Insert(ks, StableOrder(ks, n - 1), n - 1)
  }

  lemma {:induction false} InsertElements(ks: seq<Key>, ord: seq<nat>, k: nat)
    requires Rankable(ks) && k < |ks| && Below(ord, |ks|)
    ensures |Insert(ks, ord, k)| == |ord| + 1
    ensures forall x :: x in Insert(ks, ord, k) <==> x in ord || x == k
  {
    if ord != [] {
      InsertElements(ks, ord[..|ord| - 1], k);
      assert ord == ord[..|ord| - 1] + [ord[|ord| - 1]];
    }
  }

  lemma {:induction false} InsertSorted(ks: seq<Key>, ord: seq<nat>, k: nat)
    requires Rankable(ks) && k < |ks| && Below(ord, k)
    requires forall i, j | 0 <= i < j < |ord| :: Before(ks, ord[i], ord[j])
    ensures var r := Insert(ks, ord, k);
            forall i, j | 0 <= i < j < |r| :: Before(ks, r[i], r[j])
  {
    if ord != [] {
      var front, last := ord[..|ord| - 1], ord[|ord| - 1];
      if CompareWithFp(ks[k], ks[last]) < 0 {
        InsertSorted(ks, front, k);
        InsertElements(ks, front, k);
        var r := Insert(ks, front, k);
        forall i | 0 <= i < |r| ensures Before(ks, r[i], last) {
          assert r[i] in front || r[i] == k;
        }
      } else {
        TotalPreorder(ks[k], ks[last], ks[k]);
        forall i | 0 <= i < |ord| ensures Before(ks, ord[i], k) {
          assert Before(ks, last, k);
          if i < |ord| - 1 {
            BeforeTransitive(ks, ord[i], last, k);
          }
        }
      }
    }
  }

  /** The order is a permutation of the indices, sorted, and stable. */
  lemma {:induction false} StableOrderSorts(ks: seq<Key>, n: nat)
    requires Rankable(ks) && n <= |ks|
    ensures StablySorted(ks, StableOrder(ks, n), n)
  {
    if n > 0 {
      StableOrderSorts(ks, n - 1);
      var ord := StableOrder(ks, n - 1);
      InsertElements(ks, ord, n - 1);
      InsertSorted(ks, ord, n - 1);
      var r := StableOrder(ks, n);
      forall i | 0 <= i < n ensures r[i] < n {
        assert r[i] in r;
      }
      forall k: nat | k < n ensures k in r {
        assert k == n - 1 || k in ord;
      }
    }
  }

  /** The first index of the order is no worse than any other. */
  lemma FirstIsBest(ks: seq<Key>, ord: seq<nat>, i: nat)
    requires Rankable(ks) && StablySorted(ks, ord, |ks|) && i < |ks|
    ensures |ord| > 0 && ord[0] < |ks| && NoWorse(ks[ord[0]], ks[i])
  {
    assert i in ord;
    var j :| 0 <= j < |ord| && ord[j] == i;
    TotalPreorder(ks[i], ks[i], ks[i]);
    assert j > 0 ==> Before(ks, ord[0], ord[j]);
  }
}
