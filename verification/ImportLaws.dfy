/** What a completed import leaves in the two tables, row by row and moment by
    moment. */
module ImportLaws {
  import opened Common
  import opened Ingest

  // ---------------------------------------------------------------- the interval

  const INTERVALS := ["1s", "1m", "3m", "5m", "15m", "30m", "1h", "2h", "4h", "6h", "8h", "12h", "1d", "3d", "1w"]

  function Number(digits: string): int {
    if digits == "" then 0
    else 10 * Number(digits[..|digits| - 1]) + (digits[|digits| - 1] as int - '0' as int)
  }

  function UnitMs(unit: char): int {
    match unit
    case 's' => 1000
    case 'm' => 60 * 1000
    case 'h' => 60 * 60 * 1000
    case 'd' => 24 * 60 * 60 * 1000
    case _ => 7 * 24 * 60 * 60 * 1000
  }

  lemma OneDigit(s: string)
    requires |s| == 2
    ensures Number(s[..1]) == s[0] as int - '0' as int
  {
    assert s[..1][..0] == "";
  }

  lemma TwoDigits(s: string)
    requires |s| == 3
    ensures Number(s[..2]) == 10 * (s[0] as int - '0' as int) + (s[1] as int - '0' as int)
  {
    assert s[..2][..1] == s[..1] && s[..1][..0] == "";
    assert Number(s[..1]) == s[0] as int - '0' as int;
  }

  /** The fifteen names are known, and each is its number of its unit. */
  lemma IntervalMeans(interval: string)
    ensures IntervalMs(interval).Some? <==> interval in INTERVALS
    ensures interval in INTERVALS ==>
              && |interval| > 1
              && IntervalMs(interval).value == Number(interval[..|interval| - 1]) * UnitMs(interval[|interval| - 1])
  {
    if interval in INTERVALS {
      if |interval| == 2 {
        OneDigit(interval);
      } else {
        TwoDigits(interval);
      }
      hide Number;
    }
  }

  // ---------------------------------------------------------------- the bars

  lemma {:induction false} RangeMeans(rows: seq<KlineRow>, a: int, b: int, row: KlineRow)
    ensures row in InRange(rows, a, b) <==> row in rows && a <= row.OpenTime <= b
  {
    if rows != [] {
      RangeMeans(rows[1..], a, b, row);
      assert row in rows <==> row == rows[0] || row in rows[1..];
    }
  }

  /** The bars are those stored before and the market's of the range: a bar that
      was there keeps its values, and a new one has the market's. */
  ghost predicate IsMerge(before: Table, market: seq<KlineRow>, startMs: int, endMs: int, after: Table) {
    && (forall k | k in before :: k in after && after[k] == before[k])
    && (forall i | 0 <= i < |market| && startMs <= market[i].OpenTime <= endMs ::
          market[i].OpenTime in after && (market[i].OpenTime !in before ==> after[market[i].OpenTime] == market[i]))
    && (forall k | k in after && k !in before :: after[k] in market && after[k].OpenTime == k && startMs <= k <= endMs)
  }

  lemma MergeMeans(t: Table, market: seq<KlineRow>, startMs: int, endMs: int)
    requires Ascending(market)
    ensures IsMerge(t, market, startMs, endMs, Upsert(t, InRange(market, startMs, endMs)))
  {
    var rows := InRange(market, startMs, endMs);
    var after := Upsert(t, rows);
    UpsertKeeps(t, rows);
    hide Upsert, InRange;
    forall k | k in after && k !in t ensures after[k] in market && startMs <= k <= endMs {
      RangeMeans(market, startMs, endMs, after[k]);
    }
    forall i | 0 <= i < |market| && startMs <= market[i].OpenTime <= endMs
      ensures market[i].OpenTime in after && (market[i].OpenTime !in t ==> after[market[i].OpenTime] == market[i])
    {
      RangeMeans(market, startMs, endMs, market[i]);
      var j :| 0 <= j < |rows| && rows[j] == market[i];
      if market[i].OpenTime !in t {
        var k :| 0 <= k < |market| && market[k] == after[market[i].OpenTime];
      }
    }
  }

  // ---------------------------------------------------------------- the gaps

  ghost predicate StoredIn(t: Table, startMs: int, endMs: int, k: int) {
    k in t && startMs <= k <= endMs
  }

  /** A moment between two stored bars of the range that no stored bar of the
      range reaches. */
  ghost predicate IsMissing(t: Table, startMs: int, endMs: int, intervalMs: int, x: int) {
    && (exists k :: StoredIn(t, startMs, endMs, k) && k <= x)
    && (exists k :: StoredIn(t, startMs, endMs, k) && x <= k)
    && (forall k | StoredIn(t, startMs, endMs, k) :: !(k <= x < k + intervalMs))
  }

  lemma ShownMeans(t: Table, startMs: int, endMs: int, intervalMs: int, x: int)
    requires intervalMs > 0
    ensures InGap(ShownGaps(t, startMs, endMs, intervalMs), x) <==> IsMissing(t, startMs, endMs, intervalMs, x)
  {
    var s := set k | k in t.Keys && startMs <= k <= endMs;
    ListedLists(s);
    GapsMean(Listed(s), s, intervalMs, x);
    hide InGap, GapsOf;
    assert forall k :: StoredIn(t, startMs, endMs, k) <==> k in s;
  }

  lemma GapsMean(ts: seq<int>, s: set<int>, intervalMs: int, x: int)
    requires Increasing(ts) && intervalMs > 0 && forall k :: k in ts <==> k in s
    ensures InGap(GapsOf(ts, intervalMs), x) <==>
              && (exists k :: k in s && k <= x) && (exists k :: k in s && x <= k)
              && forall k | k in s :: !(k <= x < k + intervalMs)
  {
    var gaps := GapsOf(ts, intervalMs);
    GapsLieBetween(ts, intervalMs);
    MissingInList(ts, s, intervalMs, x);
    hide GapsOf, Increasing, InSlot;
    if InGap(gaps, x) {
      var g :| 0 <= g < |gaps| && gaps[g].GapStartMs <= x <= gaps[g].GapEndMs;
      assert Bounded(gaps[g], ts, intervalMs);
    }
    hide InGap, Bounded, AllBounded;
    if ts != [] && ts[0] <= x <= ts[|ts| - 1] {
      GapsAreTheUncovered(ts, intervalMs, x);
    }
  }

  lemma MissingInList(ts: seq<int>, s: set<int>, intervalMs: int, x: int)
    requires Increasing(ts) && forall k :: k in ts <==> k in s
    ensures (exists k :: k in s && k <= x) <==> (ts != [] && ts[0] <= x)
    ensures (exists k :: k in s && x <= k) <==> (ts != [] && x <= ts[|ts| - 1])
    ensures InSlot(ts, intervalMs, x) <==> exists k :: k in s && k <= x < k + intervalMs
  {
    if ts != [] {
      assert ts[0] in s && ts[|ts| - 1] in s;
    }
    forall k | k in s ensures exists i :: 0 <= i < |ts| && ts[i] == k {
      assert k in ts;
    }
    forall i | 0 <= i < |ts| ensures ts[i] in s && ts[0] <= ts[i] <= ts[|ts| - 1] {
      assert ts[i] in ts;
    }
  }

  /** After a completed import the bars are the merge with the market's, a moment
      lies in a gap row of the range exactly when it is missing, and gap rows
      reaching outside the range are those of before. */
  lemma ImportMeans(market: seq<KlineRow>, interval: string, months: seq<Month>, startMs: int, endMs: int,
                    s: Tables, s': Tables)
    requires Ascending(market) && Calendar(months, startMs, endMs)
    requires ImportsTo(market, interval, months, startMs, endMs, s, s', |months|, Completed)
    ensures IsMerge(s.klines, market, startMs, endMs, s'.klines)
    ensures IntervalMs(interval).Some?
    ensures forall x :: InGap(Inside(s'.gaps, startMs, endMs), x) <==>
                          IsMissing(s'.klines, startMs, endMs, IntervalMs(interval).value, x)
    ensures forall g :: g in s'.gaps && !Within(g, startMs, endMs) <==> g in s.gaps && !Within(g, startMs, endMs)
  {
    hide IsMissing, InGap, IsMerge, ImportsTo, IntervalMs;
    CompletedTables(market, interval, months, startMs, endMs, s, s');
    MergeMeans(s.klines, market, startMs, endMs);
    var ms := IntervalMs(interval).value;
    forall x ensures InGap(Inside(s'.gaps, startMs, endMs), x) <==> IsMissing(s'.klines, startMs, endMs, ms, x) {
      ShownMeans(s'.klines, startMs, endMs, ms, x);
    }
    forall g ensures g in s'.gaps && !Within(g, startMs, endMs) <==> g in s.gaps && !Within(g, startMs, endMs) {
      OutsideMembers(s'.gaps, startMs, endMs, g);
      OutsideMembers(s.gaps, startMs, endMs, g);
    }
  }
}
