/** Importing bars: API pagination, idempotent and resumable month imports, and
    gap detection. Everything is for one symbol and interval; market is what the
    exchange has, in ascending order of open time. */
module Ingest {
  import opened Common

  datatype KlineRow = KlineRow(OpenTime: int, Open: real, High: real, Low: real, Close: real, Volume: real)

  ghost predicate Ascending(rows: seq<KlineRow>) {
    forall i, j | 0 <= i < j < |rows| :: rows[i].OpenTime < rows[j].OpenTime
  }

  /** The rows that open within [a, b]. */
  function InRange(rows: seq<KlineRow>, a: int, b: int): seq<KlineRow> {
    if rows == [] then []
    else (if a <= rows[0].OpenTime <= b then [rows[0]] else []) + InRange(rows[1..], a, b)
  }

  lemma InRangeAt(rows: seq<KlineRow>, i: nat, a: int, b: int)
    requires i < |rows|
    ensures InRange(rows[i..], a, b) ==
            (if a <= rows[i].OpenTime <= b then [rows[i]] else []) + InRange(rows[i + 1..], a, b)
  {
  }

  method FilterByOpenTime(rows: seq<KlineRow>, startMs: int, endMs: int) returns (kept: seq<KlineRow>)
    ensures kept == InRange(rows, startMs, endMs)
  {
    kept := [];
    assert rows[0..] == rows && InRange(rows[|rows|..], startMs, endMs) == [];
    hide InRange;
    for i := 0 to |rows|
      invariant kept + InRange(rows[i..], startMs, endMs) == InRange(rows, startMs, endMs)
    {
      InRangeAt(rows, i, startMs, endMs);
      ghost var rest := InRange(rows[i + 1..], startMs, endMs);
      if rows[i].OpenTime >= startMs && rows[i].OpenTime <= endMs {
        assert kept + ([rows[i]] + rest) == (kept + [rows[i]]) + rest;
        kept := kept + [rows[i]];
      } else {
        assert [] + rest == rest;
      }
    }
  }

  lemma {:induction false} InRangeFacts(rows: seq<KlineRow>, a: int, b: int)
    requires Ascending(rows)
    ensures var r := InRange(rows, a, b);
            && Ascending(r)
            && (forall i | 0 <= i < |r| ::
                a <= r[i].OpenTime <= b && (rows != [] ==> rows[0].OpenTime <= r[i].OpenTime))
  {
    if rows != [] {
      InRangeFacts(rows[1..], a, b);
    }
  }

  /** Two adjacent ranges, one after the other, are the whole range. */
  lemma {:induction false} RangesJoin(rows: seq<KlineRow>, a: int, m: int, b: int)
    requires Ascending(rows) && m <= b && a - 1 <= m
    ensures InRange(rows, a, m) + InRange(rows, m + 1, b) == InRange(rows, a, b)
  {
    if rows != [] {
      RangesJoin(rows[1..], a, m, b);
      if rows[0].OpenTime > m {
        NothingBefore(rows, a, m);
      }
    }
  }

  lemma {:induction false} NothingBefore(rows: seq<KlineRow>, a: int, m: int)
    requires Ascending(rows) && (rows != [] ==> rows[0].OpenTime > m)
    ensures InRange(rows, a, m) == []
  {
    if rows != [] {
      NothingBefore(rows[1..], a, m);
    }
  }

  lemma {:induction false} RangeOfRange(rows: seq<KlineRow>, a: int, b: int, c: int, d: int)
    ensures InRange(InRange(rows, a, b), c, d) == InRange(rows, if a > c then a else c, if b < d then b else d)
  {
    if rows != [] {
      RangeOfRange(rows[1..], a, b, c, d);
      var rest := InRange(rows[1..], a, b);
      if a <= rows[0].OpenTime <= b {
        assert ([rows[0]] + rest)[1..] == rest;
      } else {
        assert [] + rest == rest;
      }
    }
  }

  // ---------------------------------------------------------------- pagination

  const KLINE_MAX_LIMIT: nat := 1000

  /** A REST client: (startMs, endMs) to a page, or a failure. */
  type Api = (int, int) -> Option<seq<KlineRow>>

  /** Each page it returns is the first rows of the range, at most the limit. */
  ghost predicate Honest(api: Api, market: seq<KlineRow>) {
    forall from: int, to: int :: api(from, to).Some? ==> api(from, to).value == Page(market, from, to)
  }

  function Page(market: seq<KlineRow>, from: int, to: int): seq<KlineRow> {
    var all := InRange(market, from, to);
    if |all| <= KLINE_MAX_LIMIT then all else all[..KLINE_MAX_LIMIT]
  }

  /** What a page leaves is the range after its last row. */
  lemma Remainder(rows: seq<KlineRow>, a: int, b: int, n: nat)
    requires Ascending(rows) && 0 < n <= |InRange(rows, a, b)|
    ensures InRange(rows, a, b)[n..] == InRange(rows, InRange(rows, a, b)[n - 1].OpenTime + 1, b)
  {
    hide InRange;
    var all := InRange(rows, a, b);
    InRangeFacts(rows, a, b);
    var m := all[n - 1].OpenTime;
    RangesJoin(rows, a, m, b);
    InRangeFacts(rows, a, m);
    InRangeFacts(rows, m + 1, b);
    SplitPoint(all, InRange(rows, a, m), InRange(rows, m + 1, b), n);
  }

  lemma SplitPoint(all: seq<KlineRow>, head: seq<KlineRow>, tail: seq<KlineRow>, n: nat)
    requires Ascending(all) && all == head + tail && 0 < n <= |all|
    requires forall i | 0 <= i < |head| :: head[i].OpenTime <= all[n - 1].OpenTime
    requires forall i | 0 <= i < |tail| :: tail[i].OpenTime > all[n - 1].OpenTime
    ensures all[n..] == tail
  {
    SameSide(all, head, tail, n, n - 1);
    if n < |all| {
      SameSide(all, head, tail, n, n);
    }
  }

  lemma SameSide(all: seq<KlineRow>, head: seq<KlineRow>, tail: seq<KlineRow>, n: nat, i: nat)
    requires Ascending(all) && all == head + tail && 0 < n <= |all| && i < |all|
    requires forall j | 0 <= j < |head| :: head[j].OpenTime <= all[n - 1].OpenTime
    requires forall j | 0 <= j < |tail| :: tail[j].OpenTime > all[n - 1].OpenTime
    ensures i < |head| <==> i < n
  {
    assert all[i] == if i < |head| then head[i] else tail[i - |head|];
  }

  /** Pages forward until one comes back empty. Whatever the client returns, it
      stops; with an honest client the result is exactly the month's rows. */
  method FetchMonthViaApi(api: Api, startMs: int, endMs: int, ghost market: seq<KlineRow>)
    returns (rows: Option<seq<KlineRow>>)
    requires Ascending(market)
    ensures rows.Some? && Honest(api, market) && startMs <= endMs ==> rows.value == InRange(market, startMs, endMs)
    ensures rows.None? ==> exists cursor :: startMs <= cursor <= endMs && api(cursor, endMs).None?
  {
    hide InRange, Ascending;
    var all: seq<KlineRow> := [];
    var cursor := startMs;
    while cursor <= endMs
      invariant startMs <= cursor
      invariant cursor <= endMs + 1 || !Honest(api, market) || startMs > endMs
      invariant Honest(api, market) && startMs <= endMs ==>
                all + InRange(market, cursor, endMs) == InRange(market, startMs, endMs)
      decreases endMs - cursor
    {
      var page := api(cursor, endMs);
      if page.None? {
        return None;
      }
      if page.value == [] {
        assert Honest(api, market) ==> InRange(market, cursor, endMs) == [];
        return Some(all);
      }
      var next := page.value[|page.value| - 1].OpenTime + 1;
      if Honest(api, market) {
        PageFacts(market, cursor, endMs);
        assert all + InRange(market, cursor, endMs) == (all + page.value) + InRange(market, next, endMs);
      }
      all := all + page.value;
      if next <= cursor {
        return Some(all);
      }
      cursor := next;
    }
    if Honest(api, market) && startMs <= endMs {
      EmptyRange(market, cursor, endMs);
    }
    rows := Some(all);
  }

  lemma PageFacts(market: seq<KlineRow>, from: int, to: int)
    requires Ascending(market) && Page(market, from, to) != []
    ensures var page := Page(market, from, to);
            var next := page[|page| - 1].OpenTime + 1;
            && from < next <= to + 1
            && InRange(market, from, to) == page + InRange(market, next, to)
  {
    hide InRange;
    InRangeFacts(market, from, to);
    var page, all := Page(market, from, to), InRange(market, from, to);
    Remainder(market, from, to, |page|);
    assert all == all[..|page|] + all[|page|..];
  }

  lemma {:induction false} EmptyRange(rows: seq<KlineRow>, a: int, b: int)
    requires a > b
    ensures InRange(rows, a, b) == []
  {
    if rows != [] {
      EmptyRange(rows[1..], a, b);
    }
  }

  // ---------------------------------------------------------------- the bar table

  /** Bars by open time, the primary key. */
  type Table = map<int, KlineRow>

  /** Inserting with conflicts ignored. */
  function Upsert(t: Table, rows: seq<KlineRow>): Table {
    if rows == [] then t
    else
      var t', last := Upsert(t, rows[..|rows| - 1]), rows[|rows| - 1];
      if last.OpenTime in t' then t' else t'[last.OpenTime := last]
  }

  lemma {:induction false} UpsertAppend(t: Table, xs: seq<KlineRow>, ys: seq<KlineRow>)
    ensures Upsert(t, xs + ys) == Upsert(Upsert(t, xs), ys)
  {
    if ys == [] {
      assert xs + ys == xs;
    } else {
      UpsertAppend(t, xs, ys[..|ys| - 1]);
      assert (xs + ys)[..|xs + ys| - 1] == xs + ys[..|ys| - 1];
    }
  }

  /** What is stored stays, and everything inserted is there. */
  lemma {:induction false} UpsertKeeps(t: Table, rows: seq<KlineRow>)
    ensures forall k | k in t :: k in Upsert(t, rows) && Upsert(t, rows)[k] == t[k]
    ensures forall i | 0 <= i < |rows| :: rows[i].OpenTime in Upsert(t, rows)
    ensures forall k | k in Upsert(t, rows) && k !in t :: Upsert(t, rows)[k] in rows && Upsert(t, rows)[k].OpenTime == k
  {
    if rows != [] {
      UpsertKeeps(t, rows[..|rows| - 1]);
    }
  }

  /** Rows that are already there change nothing. */
  lemma {:induction false} UpsertKnown(t: Table, rows: seq<KlineRow>)
    requires forall i | 0 <= i < |rows| :: rows[i].OpenTime in t
    ensures Upsert(t, rows) == t
  {
    if rows != [] {
      UpsertKnown(t, rows[..|rows| - 1]);
    }
  }

  /** Importing a prefix first, and then everything, is importing everything. */
  lemma UpsertResumes(t: Table, xs: seq<KlineRow>, ys: seq<KlineRow>)
    requires xs <= ys
    ensures Upsert(Upsert(t, xs), ys) == Upsert(t, ys)
  {
    var rest := ys[|xs|..];
    assert ys == xs + rest;
    UpsertAppend(Upsert(t, xs), xs, rest);
    UpsertKeeps(t, xs);
    UpsertKnown(Upsert(t, xs), xs);
    UpsertAppend(t, xs, rest);
  }

  // ---------------------------------------------------------------- gaps

  datatype Gap = Gap(GapStartMs: int, GapEndMs: int)

  ghost predicate Increasing(ts: seq<int>) {
    forall i, j | 0 <= i < j < |ts| :: ts[i] < ts[j]
  }

  function GapsOf(ts: seq<int>, intervalMs: int): seq<Gap> {
    if |ts| < 2 then []
    else
      var n := |ts| - 1;
      GapsOf(ts[..n], intervalMs)
      + if ts[n] - ts[n - 1] > intervalMs then [Gap(ts[n - 1] + intervalMs, ts[n] - 1)] else []
  }

  method ComputeGaps(ts: seq<int>, intervalMs: int) returns (gaps: seq<Gap>)
    ensures gaps == GapsOf(ts, intervalMs)
  {
    gaps := [];
    if |ts| == 0 {
      return;
    }
    for i := 1 to |ts|
      invariant gaps == GapsOf(ts[..i], intervalMs)
    {
      assert ts[..i + 1][..i] == ts[..i];
      var delta := ts[i] - ts[i - 1];
      if delta > intervalMs {
        gaps := gaps + [Gap(ts[i - 1] + intervalMs, ts[i] - 1)];
      }
    }
    assert ts[..|ts|] == ts;
  }

  predicate InSlot(ts: seq<int>, intervalMs: int, x: int) {
    exists i :: 0 <= i < |ts| && ts[i] <= x < ts[i] + intervalMs
  }

  predicate InGap(gaps: seq<Gap>, x: int) {
    exists g :: 0 <= g < |gaps| && gaps[g].GapStartMs <= x <= gaps[g].GapEndMs
  }

  /** Every moment from the first bar to the end of the last lies in a bar's slot
      or in a gap, and never in both: gaps are exactly what no bar covers, so
      they are maximal. */
  lemma {:induction false} GapsAreTheUncovered(ts: seq<int>, intervalMs: int, x: int)
    requires Increasing(ts) && intervalMs > 0 && ts != []
    requires ts[0] <= x < ts[|ts| - 1] + intervalMs
    ensures InGap(GapsOf(ts, intervalMs), x) <==> !InSlot(ts, intervalMs, x)
  {
    var n := |ts| - 1;
    if n == 0 {
      assert ts[0] <= x < ts[0] + intervalMs;
    } else {
      var init := ts[..n];
      GapsLieBetween(init, intervalMs);
      var before := GapsOf(init, intervalMs);
      assert forall g | 0 <= g < |before| :: before[g].GapEndMs < init[n - 1] by {
        AllBoundedEnd(before, init, intervalMs);
      }
      assert InSlot(ts, intervalMs, x) <==> InSlot(init, intervalMs, x) || ts[n] <= x < ts[n] + intervalMs by {
        SlotSnoc(ts, intervalMs, x);
      }
      GapSnoc(ts, intervalMs, x);
      if x < ts[n - 1] + intervalMs {
        GapsAreTheUncovered(init, intervalMs, x);
        if ts[n] <= x {
          assert init[n - 1] <= x < init[n - 1] + intervalMs;
        }
      }
    }
  }

  lemma SlotSnoc(ts: seq<int>, intervalMs: int, x: int)
    requires ts != []
    ensures var n := |ts| - 1;
            InSlot(ts, intervalMs, x) <==> InSlot(ts[..n], intervalMs, x) || ts[n] <= x < ts[n] + intervalMs
  {
  }

  lemma GapSnoc(ts: seq<int>, intervalMs: int, x: int)
    requires |ts| >= 2
    ensures var n := |ts| - 1;
            InGap(GapsOf(ts, intervalMs), x) <==>
            InGap(GapsOf(ts[..n], intervalMs), x) || ts[n - 1] + intervalMs <= x < ts[n]
  {
    var n := |ts| - 1;
    var before, after := GapsOf(ts[..n], intervalMs), GapsOf(ts, intervalMs);
    if InGap(before, x) {
      var g :| 0 <= g < |before| && before[g].GapStartMs <= x <= before[g].GapEndMs;
      assert after[g] == before[g];
    }
    if ts[n - 1] + intervalMs <= x < ts[n] {
      assert after[|before|] == Gap(ts[n - 1] + intervalMs, ts[n] - 1);
    }
  }

  ghost predicate Bounded(g: Gap, ts: seq<int>, intervalMs: int) {
    && ts != [] && g.GapStartMs <= g.GapEndMs
    && ts[0] + intervalMs <= g.GapStartMs && g.GapEndMs < ts[|ts| - 1]
    && g.GapStartMs - intervalMs in ts && g.GapEndMs + 1 in ts
  }

  ghost predicate AllBounded(gaps: seq<Gap>, ts: seq<int>, intervalMs: int) {
    forall g | 0 <= g < |gaps| :: Bounded(gaps[g], ts, intervalMs)
  }

  lemma AllBoundedEnd(gaps: seq<Gap>, ts: seq<int>, intervalMs: int)
    requires AllBounded(gaps, ts, intervalMs) && ts != []
    ensures forall g | 0 <= g < |gaps| :: gaps[g].GapEndMs < ts[|ts| - 1]
  {
  }

  ghost predicate Disjoint(gaps: seq<Gap>) {
    forall g, h | 0 <= g < h < |gaps| :: gaps[g].GapEndMs < gaps[h].GapStartMs
  }

  lemma AllBoundedGrow(gaps: seq<Gap>, ts: seq<int>, n: nat, intervalMs: int)
    requires Increasing(ts) && 0 < n < |ts| && AllBounded(gaps, ts[..n], intervalMs)
    ensures AllBounded(gaps, ts, intervalMs) && forall g | 0 <= g < |gaps| :: gaps[g].GapEndMs < ts[n - 1]
  {
  }

  lemma IncreasingPrefix(ts: seq<int>, n: nat)
    requires Increasing(ts) && n <= |ts|
    ensures Increasing(ts[..n])
  {
  }

  lemma OneMoreGap(gaps: seq<Gap>, last: Gap, ts: seq<int>, intervalMs: int)
    requires AllBounded(gaps, ts, intervalMs) && Disjoint(gaps) && Bounded(last, ts, intervalMs)
    requires forall g | 0 <= g < |gaps| :: gaps[g].GapEndMs < last.GapStartMs
    ensures AllBounded(gaps + [last], ts, intervalMs) && Disjoint(gaps + [last])
  {
  }

  /** Gaps are ordered, disjoint, never empty, and each is bounded by a bar's slot
      on its left and a bar on its right. */
  lemma {:induction false} GapsLieBetween(ts: seq<int>, intervalMs: int)
    requires Increasing(ts) && intervalMs > 0
    ensures AllBounded(GapsOf(ts, intervalMs), ts, intervalMs) && Disjoint(GapsOf(ts, intervalMs))
  {
    hide Bounded, Increasing;
    if |ts| >= 2 {
      var n := |ts| - 1;
      var before := GapsOf(ts[..n], intervalMs);
      assert Increasing(ts[..n]) by { IncreasingPrefix(ts, n); }
      GapsLieBetween(ts[..n], intervalMs);
      AllBoundedGrow(before, ts, n, intervalMs);
      if ts[n] - ts[n - 1] > intervalMs {
        LastBounded(ts, intervalMs);
        OneMoreGap(before, Gap(ts[n - 1] + intervalMs, ts[n] - 1), ts, intervalMs);
      } else {
        assert before + [] == before;
      }
    }
  }

  lemma LastBounded(ts: seq<int>, intervalMs: int)
    requires Increasing(ts) && intervalMs > 0 && |ts| >= 2 && ts[|ts| - 1] - ts[|ts| - 2] > intervalMs
    ensures Bounded(Gap(ts[|ts| - 2] + intervalMs, ts[|ts| - 1] - 1), ts, intervalMs)
  {
  }

  predicate Covers(t: int, intervalMs: int, x: int) {
    t <= x < t + intervalMs
  }

  ghost predicate SlotsDisjoint(ts: seq<int>, intervalMs: int) {
    forall i, j, x | 0 <= i < j < |ts| && Covers(ts[i], intervalMs, x) :: !Covers(ts[j], intervalMs, x)
  }

  ghost predicate Spaced(ts: seq<int>, intervalMs: int) {
    forall i, j | 0 <= i < j < |ts| :: ts[i] + intervalMs <= ts[j]
  }

  /** Slots and gaps tile the span, each moment once, exactly when the bars are at
      least one interval apart. */
  lemma TilesIffSpaced(ts: seq<int>, intervalMs: int)
    requires Increasing(ts) && intervalMs > 0
    ensures SlotsDisjoint(ts, intervalMs) <==> Spaced(ts, intervalMs)
  {
    if !Spaced(ts, intervalMs) {
      var i, j :| 0 <= i < j < |ts| && ts[i] + intervalMs > ts[j];
      assert Covers(ts[i], intervalMs, ts[j]) && Covers(ts[j], intervalMs, ts[j]);
    }
  }

  predicate Within(g: Gap, startMs: int, endMs: int) {
    startMs <= g.GapStartMs && g.GapEndMs <= endMs
  }

  function Outside(gaps: seq<Gap>, startMs: int, endMs: int): seq<Gap> {
    if gaps == [] then []
    else (if Within(gaps[0], startMs, endMs) then [] else [gaps[0]]) + Outside(gaps[1..], startMs, endMs)
  }

  function Inside(gaps: seq<Gap>, startMs: int, endMs: int): seq<Gap> {
    if gaps == [] then []
    else (if Within(gaps[0], startMs, endMs) then [gaps[0]] else []) + Inside(gaps[1..], startMs, endMs)
  }

  lemma {:induction false} InsideAppend(xs: seq<Gap>, ys: seq<Gap>, a: int, b: int)
    ensures Inside(xs + ys, a, b) == Inside(xs, a, b) + Inside(ys, a, b)
  {
    hide Within;
    if xs == [] {
      assert xs + ys == ys;
    } else {
      InsideAppend(xs[1..], ys, a, b);
      assert (xs + ys)[1..] == xs[1..] + ys;
      var head := if Within(xs[0], a, b) then [xs[0]] else [];
      assert head + (Inside(xs[1..], a, b) + Inside(ys, a, b)) == (head + Inside(xs[1..], a, b)) + Inside(ys, a, b);
    }
  }

  lemma {:induction false} OutsideAppend(xs: seq<Gap>, ys: seq<Gap>, a: int, b: int)
    ensures Outside(xs + ys, a, b) == Outside(xs, a, b) + Outside(ys, a, b)
  {
    hide Within;
    if xs == [] {
      assert xs + ys == ys;
    } else {
      OutsideAppend(xs[1..], ys, a, b);
      assert (xs + ys)[1..] == xs[1..] + ys;
      var head := if Within(xs[0], a, b) then [] else [xs[0]];
      assert head + (Outside(xs[1..], a, b) + Outside(ys, a, b)) == (head + Outside(xs[1..], a, b)) + Outside(ys, a, b);
    }
  }

  lemma {:induction false} SplitTwice(gaps: seq<Gap>, a: int, b: int)
    ensures Inside(Outside(gaps, a, b), a, b) == [] && Outside(Outside(gaps, a, b), a, b) == Outside(gaps, a, b)
  {
    if gaps != [] {
      SplitTwice(gaps[1..], a, b);
      var rest := Outside(gaps[1..], a, b);
      if Within(gaps[0], a, b) {
        assert [] + rest == rest;
      } else {
        assert ([gaps[0]] + rest)[1..] == rest;
      }
    }
  }

  lemma {:induction false} AllInside(gaps: seq<Gap>, a: int, b: int)
    requires forall g | 0 <= g < |gaps| :: Within(gaps[g], a, b)
    ensures Inside(gaps, a, b) == gaps && Outside(gaps, a, b) == []
  {
    if gaps != [] {
      AllInside(gaps[1..], a, b);
    }
  }

  // ---------------------------------------------------------------- reading the table in order

  lemma HasMember(s: set<int>)
    requires s != {}
    ensures exists y :: y in s
  {
    if forall y :: y !in s {
      assert false;
    }
  }

  ghost predicate IsLeast(s: set<int>, m: int) {
    m in s && forall x | x in s :: m <= x
  }

  lemma OneMoreLeast(s: set<int>, m: int, y: int)
    requires s == {} || IsLeast(s, m)
    ensures IsLeast(s + {y}, if s != {} && m < y then m else y)
  {
  }

  lemma {:induction false} HasLeast(s: set<int>)
    requires s != {}
    ensures exists m :: IsLeast(s, m)
  {
    hide IsLeast;
    HasMember(s);
    var y :| y in s;
    var rest, m := s - {y}, y;
    if rest != {} {
      HasLeast(rest);
      m :| IsLeast(rest, m);
    }
    OneMoreLeast(rest, m, y);
    assert rest + {y} == s;
  }

  /** The members in ascending order. */
  function Listed(s: set<int>): (ts: seq<int>)
    decreases |s|
  {
    if s == {} then []
    else
      HasLeast(s);
      var m :| m in s && forall x | x in s :: m <= x;
      [m] + Listed(s - {m})
  }

  lemma {:induction false} ListedLists(s: set<int>)
    ensures Increasing(Listed(s)) && forall x :: x in Listed(s) <==> x in s
    decreases |s|
  {
    if s != {} {
      HasLeast(s);
      var m :| m in s && forall x | x in s :: m <= x;
      assert IsLeast(s, m);
      ListedLists(s - {m});
      var rest := Listed(s - {m});
      forall i | 0 <= i < |rest| ensures m < rest[i] {
        assert rest[i] in rest;
      }
    }
  }

  function TimesIn(t: Table, startMs: int, endMs: int): seq<int> {
    Listed(set k | k in t.Keys && startMs <= k <= endMs)
  }

  /** The gaps the stored bars of a range show. */
  function ShownGaps(t: Table, startMs: int, endMs: int, intervalMs: int): seq<Gap> {
    GapsOf(TimesIn(t, startMs, endMs), intervalMs)
  }

  lemma BoundedInside(gaps: seq<Gap>, ts: seq<int>, s: set<int>, startMs: int, endMs: int, intervalMs: int)
    requires intervalMs > 0 && AllBounded(gaps, ts, intervalMs)
    requires (forall x :: x in ts <==> x in s) && forall x | x in s :: startMs <= x <= endMs
    ensures forall g | 0 <= g < |gaps| :: Within(gaps[g], startMs, endMs)
  {
  }

  lemma ShownInside(t: Table, startMs: int, endMs: int, intervalMs: int)
    requires intervalMs > 0
    ensures var shown := ShownGaps(t, startMs, endMs, intervalMs);
            Inside(shown, startMs, endMs) == shown && Outside(shown, startMs, endMs) == []
  {
    var s := set k | k in t.Keys && startMs <= k <= endMs;
    ListedLists(s);
    var ts := Listed(s);
    GapsLieBetween(ts, intervalMs);
    BoundedInside(GapsOf(ts, intervalMs), ts, s, startMs, endMs, intervalMs);
    AllInside(GapsOf(ts, intervalMs), startMs, endMs);
  }

  /** The gap rows after a rescan. */
  function Rescanned(gaps: seq<Gap>, t: Table, startMs: int, endMs: int, intervalMs: int): seq<Gap> {
    Outside(gaps, startMs, endMs) + ShownGaps(t, startMs, endMs, intervalMs)
  }

  /** After a rescan the gap rows within the range are exactly those the bars
      show, rows reaching outside it are untouched, and a second rescan changes
      nothing. */
  lemma RescanIsExact(gaps: seq<Gap>, t: Table, startMs: int, endMs: int, intervalMs: int)
    requires intervalMs > 0
    ensures var after := Rescanned(gaps, t, startMs, endMs, intervalMs);
            && Inside(after, startMs, endMs) == ShownGaps(t, startMs, endMs, intervalMs)
            && Outside(after, startMs, endMs) == Outside(gaps, startMs, endMs)
            && Rescanned(after, t, startMs, endMs, intervalMs) == after
  {
    var out, shown := Outside(gaps, startMs, endMs), ShownGaps(t, startMs, endMs, intervalMs);
    ShownInside(t, startMs, endMs, intervalMs);
    InsideAppend(out, shown, startMs, endMs);
    OutsideAppend(out, shown, startMs, endMs);
    SplitTwice(gaps, startMs, endMs);
    assert [] + shown == shown && out + [] == out;
  }

  /** A gap row is gone after a rescan exactly when it lies within the range and
      the stored bars no longer show it; one reaching outside always stays. */
  lemma GapRowSurvives(gaps: seq<Gap>, t: Table, startMs: int, endMs: int, intervalMs: int, g: Gap)
    requires g in gaps
    ensures g in Rescanned(gaps, t, startMs, endMs, intervalMs) <==>
            !Within(g, startMs, endMs) || g in ShownGaps(t, startMs, endMs, intervalMs)
  {
    OutsideMembers(gaps, startMs, endMs, g);
  }

  lemma {:induction false} OutsideMembers(gaps: seq<Gap>, a: int, b: int, g: Gap)
    ensures g in Outside(gaps, a, b) <==> g in gaps && !Within(g, a, b)
  {
    hide Within;
    if gaps != [] {
      OutsideMembers(gaps[1..], a, b, g);
      assert g in gaps <==> g == gaps[0] || g in gaps[1..];
    }
  }

  function IntervalMs(interval: string): (ms: Option<int>)
    ensures ms.Some? ==> ms.value >= 1000
  {
    match interval
    case "1s" => Some(1_000)
    case "1m" => Some(60_000)
    case "3m" => Some(180_000)
    case "5m" => Some(300_000)
    case "15m" => Some(900_000)
    case "30m" => Some(1_800_000)
    case "1h" => Some(3_600_000)
    case "2h" => Some(7_200_000)
    case "4h" => Some(14_400_000)
    case "6h" => Some(21_600_000)
    case "8h" => Some(28_800_000)
    case "12h" => Some(43_200_000)
    case "1d" => Some(86_400_000)
    case "3d" => Some(259_200_000)
    case "1w" => Some(604_800_000)
    case _ => None
  }

  // ---------------------------------------------------------------- the import

  datatype Month = Month(startMs: int, endMs: int)

  /** One month's archive: its rows, not published yet, or a failure. */
  datatype ArchiveReply = Published(rows: seq<KlineRow>) | NotPublished | ArchiveBroken

  datatype Feed = Feed(archive: Month -> ArchiveReply, api: Option<Api>)

  /** What an archive publishes is the month's part of the market, and the
      client is honest about it. Which calls fail is left open. */
  ghost predicate Faithful(feed: Feed, market: seq<KlineRow>) {
    && (forall m: Month :: feed.archive(m).Published? ==> feed.archive(m).rows == InRange(market, m.startMs, m.endMs))
    && (feed.api.Some? ==> Honest(feed.api.value, market))
  }

  /** Consecutive months that cover [startMs, endMs]. */
  ghost predicate Calendar(months: seq<Month>, startMs: int, endMs: int) {
    && months != [] && months[0].startMs <= startMs <= endMs <= months[|months| - 1].endMs
    && (forall i | 0 <= i < |months| :: months[i].startMs <= months[i].endMs)
    && (forall i | 1 <= i < |months| :: months[i].startMs == months[i - 1].endMs + 1)
  }

  /** The rows of the first k months that fall into the requested range. */
  function Wanted(market: seq<KlineRow>, months: seq<Month>, startMs: int, endMs: int, k: nat): seq<KlineRow>
    requires k <= |months|
  {
    if k == 0 then []
    else
      Wanted(market, months, startMs, endMs, k - 1)
      + InRange(InRange(market, months[k - 1].startMs, months[k - 1].endMs), startMs, endMs)
  }

  datatype Ending = Completed | Cancelled | Failed

  datatype Summary = Summary(MonthsFetched: nat, RowsInserted: nat, GapsDetected: nat)

  /** Why a month's rows cannot be had. */
  ghost predicate Unfetchable(feed: Feed, m: Month) {
    match feed.archive(m)
    case Published(_) => false
    case ArchiveBroken => true
    case NotPublished =>
      feed.api.None? || exists cursor :: m.startMs <= cursor <= m.endMs && feed.api.value(cursor, m.endMs).None?
  }

  /** The two tables of an import. */
  datatype Tables = Tables(klines: Table, gaps: seq<Gap>)

  /** What one import, however it ends, makes of the tables when it stored the
      first k months. */
  ghost predicate ImportsTo(market: seq<KlineRow>, interval: string, months: seq<Month>, startMs: int, endMs: int,
                            s: Tables, s': Tables, k: nat, ending: Ending)
  {
    && k <= |months| && s'.klines == Upsert(s.klines, Wanted(market, months, startMs, endMs, k))
    && if ending.Completed? then
         && k == |months| && IntervalMs(interval).Some?
         && s'.gaps == Rescanned(s.gaps, s'.klines, startMs, endMs, IntervalMs(interval).value)
       else s'.gaps == s.gaps || s'.gaps == Outside(s.gaps, startMs, endMs)
  }

  /** fails says which of the statements issued fail; such a statement writes nothing. */
  class Store {
    const fails: Faults
    var issued: nat
    var klines: Table
    var gaps: seq<Gap>

    ghost function View(): Tables
      reads this
    {
      Tables(klines, gaps)
    }

    constructor (fails: Faults)
      ensures this.fails == fails && issued == 0 && View() == Tables(map[], [])
    {
      this.fails, issued, klines, gaps := fails, 0, map[], [];
    }

    method Issue() returns (ok: bool)
      modifies this`issued
      ensures ok == !fails(old(issued)) && issued == old(issued) + 1
    {
      ok := !fails(issued);
      issued := issued + 1;
    }

    /** All rows in one transaction, conflicts ignored; the count is of new rows. */
    method BulkInsert(rows: seq<KlineRow>) returns (inserted: nat, ok: bool)
      modifies this`klines, this`issued
      ensures ok == !fails(old(issued)) && issued == old(issued) + 1
      ensures klines == if ok then Upsert(old(klines), rows) else old(klines)
      ensures |klines| == |old(klines)| + inserted
    {
      inserted := 0;
      ok := Issue();
      if !ok {
        return;
      }
      for i := 0 to |rows|
        invariant klines == Upsert(old(klines), rows[..i]) && |klines| == |old(klines)| + inserted
        invariant issued == old(issued) + 1
      {
        assert rows[..i + 1][..i] == rows[..i];
        if rows[i].OpenTime !in klines {
          klines := klines[rows[i].OpenTime := rows[i]];
          inserted := inserted + 1;
        }
      }
      assert rows[..|rows|] == rows;
    }

    /** Read the open times, delete the range's gap rows, then write the computed
        ones if there are any. The writes are separate, so a failure may leave the
        range without gap rows. */
    method DetectAndPersistGaps(interval: string, startMs: int, endMs: int) returns (count: nat, ok: bool)
      modifies this`gaps, this`issued
      ensures var n := old(issued);
              var ms := IntervalMs(interval);
              var shown := if ms.Some? then ShownGaps(klines, startMs, endMs, ms.value) else [];
              && ok == (IntervalMs(interval).Some? && !fails(n) && !fails(n + 1) && (shown == [] || !fails(n + 2)))
              && count == (if ok then |shown| else 0)
              && gaps == (if ok then Rescanned(old(gaps), klines, startMs, endMs, IntervalMs(interval).value)
                          else if ms.Some? && !fails(n) && !fails(n + 1) then Outside(old(gaps), startMs, endMs)
                          else old(gaps))
      ensures ok ==> NoneFailed(fails, old(issued), issued)
      ensures !ok && IntervalMs(interval).Some? ==> StoppedAt(fails, old(issued), issued)
    {
      hide GapsOf, Outside, TimesIn, IntervalMs;
      count, ok := 0, false;
      var ms := IntervalMs(interval);
      if ms.None? {
        return;
      }
      ok := Issue();
      if !ok {
        return;
      }
      var openTimes := TimesIn(klines, startMs, endMs);
      var computed := ComputeGaps(openTimes, ms.value);
      ok := Issue();
      if !ok {
        return;
      }
      gaps := Outside(gaps, startMs, endMs);
      if computed != [] {
        ok := Issue();
      }
      if ok {
        gaps := gaps + computed;
        count := |computed|;
      }
    }

    /** The archive, or the API for a month that is not published yet. */
    method FetchMonth(feed: Feed, m: Month, ghost market: seq<KlineRow>) returns (rows: Option<seq<KlineRow>>)
      requires Ascending(market) && m.startMs <= m.endMs
      ensures rows.Some? && Faithful(feed, market) ==> rows.value == InRange(market, m.startMs, m.endMs)
      ensures rows.None? ==> Unfetchable(feed, m)
    {
      var reply := feed.archive(m);
      if reply.Published? {
        return Some(reply.rows);
      }
      if reply.NotPublished? && feed.api.Some? {
        rows := FetchMonthViaApi(feed.api.value, m.startMs, m.endMs, market);
      } else {
        rows := None;
      }
    }

    /** Month by month, stopping at a failure or, between months, when cancelled
        says so. The months before the stop are stored, RowsInserted is the table's
        growth, and only a completed import rescans the gaps. */
    method ImportSymbol(feed: Feed, cancelled: nat -> bool, interval: string, months: seq<Month>, startMs: int,
                        endMs: int, ghost market: seq<KlineRow>)
      returns (summary: Summary, ending: Ending, ghost k: nat)
      requires Ascending(market) && forall i | 0 <= i < |months| :: months[i].startMs <= months[i].endMs
      modifies this
      ensures Faithful(feed, market) ==>
              ImportsTo(market, interval, months, startMs, endMs, old(View()), View(), k, ending)
      ensures |klines| == |old(klines)| + summary.RowsInserted
      ensures k <= summary.MonthsFetched <= |months| && summary.MonthsFetched <= k + 1
      ensures ending.Completed? ==>
                && k == |months| && IntervalMs(interval).Some? && NoneFailed(fails, old(issued), issued)
                && gaps == Rescanned(old(gaps), klines, startMs, endMs, IntervalMs(interval).value)
                && summary.GapsDetected == |ShownGaps(klines, startMs, endMs, IntervalMs(interval).value)|
      ensures ending.Cancelled? ==> k > 0 && cancelled(k) && gaps == old(gaps) && NoneFailed(fails, old(issued), issued)
      ensures forall i | 1 <= i <= k && cancelled(i) :: i == k && ending.Cancelled?
      ensures ending.Failed? ==>
                || interval == "" || startMs > endMs || StoppedAt(fails, old(issued), issued)
                || (k < |months| && Unfetchable(feed, months[k]))
                || (k == |months| && IntervalMs(interval).None?)
    {
      hide InRange, Faithful, Rescanned, ShownGaps, Upsert, Outside, StoppedAt, NoneFailed, Unfetchable, IntervalMs;
      summary, k := Summary(0, 0, 0), 0;
      UpsertKnown(klines, []);
      NothingIssued(fails, issued);
      if interval == "" || startMs > endMs {
        assert Wanted(market, months, startMs, endMs, 0) == [];
        return summary, Failed, 0;
      }
      for i := 0 to |months|
        invariant k == i == summary.MonthsFetched && gaps == old(gaps)
                  && |klines| == |old(klines)| + summary.RowsInserted
        invariant Faithful(feed, market) ==> klines == Upsert(old(klines), Wanted(market, months, startMs, endMs, i))
        invariant NoneFailed(fails, old(issued), issued) && forall j | 1 <= j <= i :: !cancelled(j)
      {
        var rows := FetchMonth(feed, months[i], market);
        if rows.None? {
          return summary, Failed, i;
        }
        summary := summary.(MonthsFetched := summary.MonthsFetched + 1);
        var filtered := FilterByOpenTime(rows.value, startMs, endMs);
        UpsertAppend(old(klines), Wanted(market, months, startMs, endMs, i), filtered);
        UpsertKnown(klines, []);
        if filtered != [] {
          ghost var before := issued;
          var inserted, ok := BulkInsert(filtered);
          OneIssued(fails, before);
          FailedAfter(fails, old(issued), before, issued);
          if !ok {
            return summary, Failed, i;
          }
          summary := summary.(RowsInserted := summary.RowsInserted + inserted);
        }
        k := i + 1;
        if cancelled(i + 1) {
          return summary, Cancelled, i + 1;
        }
      }
      ghost var before := issued;
      var count, ok := DetectAndPersistGaps(interval, startMs, endMs);
      FailedAfter(fails, old(issued), before, issued);
      if !ok {
        return summary, Failed, k;
      }
      summary := summary.(GapsDetected := count);
      ending := Completed;
    }
  }

  // ---------------------------------------------------------------- resumability

  lemma {:induction false} WantedPrefix(market: seq<KlineRow>, months: seq<Month>, startMs: int, endMs: int, j: nat,
                                        k: nat)
    requires j <= k <= |months|
    ensures Wanted(market, months, startMs, endMs, j) <= Wanted(market, months, startMs, endMs, k)
  {
    hide InRange;
    if j < k {
      WantedPrefix(market, months, startMs, endMs, j, k - 1);
    }
  }

  function Later(a: int, b: int): int {
    if a > b then a else b
  }

  function Earlier(a: int, b: int): int {
    if a < b then a else b
  }

  lemma OneMonth(market: seq<KlineRow>, m: Month, startMs: int, endMs: int)
    ensures InRange(InRange(market, m.startMs, m.endMs), startMs, endMs) ==
            InRange(market, Later(m.startMs, startMs), Earlier(m.endMs, endMs))
  {
    RangeOfRange(market, m.startMs, m.endMs, startMs, endMs);
  }

  lemma {:induction false} MonthsAfterFirst(months: seq<Month>, startMs: int, endMs: int, k: nat)
    requires Calendar(months, startMs, endMs) && 1 <= k <= |months|
    ensures months[0].startMs <= months[k - 1].startMs && (k > 1 ==> months[k - 2].endMs == months[k - 1].startMs - 1)
  {
    if k > 1 {
      MonthsAfterFirst(months, startMs, endMs, k - 1);
    }
  }

  /** The first k months hold exactly the requested rows up to the k-th's end. */
  lemma {:induction false} MonthsTile(market: seq<KlineRow>, months: seq<Month>, startMs: int, endMs: int, k: nat)
    requires Ascending(market) && Calendar(months, startMs, endMs) && 1 <= k <= |months|
    ensures Wanted(market, months, startMs, endMs, k) == InRange(market, startMs, Earlier(months[k - 1].endMs, endMs))
  {
    hide InRange;
    var m := months[k - 1];
    OneMonth(market, m, startMs, endMs);
    MonthsAfterFirst(months, startMs, endMs, k);
    if k == 1 {
      assert Wanted(market, months, startMs, endMs, 0) == [];
    } else {
      MonthsTile(market, months, startMs, endMs, k - 1);
      JoinMonth(market, startMs, endMs, m);
    }
  }

  lemma JoinMonth(market: seq<KlineRow>, startMs: int, endMs: int, m: Month)
    requires Ascending(market) && m.startMs <= m.endMs && startMs <= endMs
    ensures InRange(market, startMs, Earlier(m.startMs - 1, endMs))
            + InRange(market, Later(m.startMs, startMs), Earlier(m.endMs, endMs)) ==
            InRange(market, startMs, Earlier(m.endMs, endMs))
  {
    hide InRange;
    var stop := Earlier(m.endMs, endMs);
    if m.startMs <= startMs {
      EmptyRange(market, startMs, Earlier(m.startMs - 1, endMs));
      assert [] + InRange(market, startMs, stop) == InRange(market, startMs, stop);
    } else if m.startMs > endMs {
      EmptyRange(market, m.startMs, stop);
      assert InRange(market, startMs, stop) + [] == InRange(market, startMs, stop);
    } else {
      RangesJoin(market, startMs, m.startMs - 1, stop);
    }
  }

  /** A complete import wants exactly the market's rows of the range. */
  lemma CompleteImport(market: seq<KlineRow>, months: seq<Month>, startMs: int, endMs: int)
    requires Ascending(market) && Calendar(months, startMs, endMs)
    ensures Wanted(market, months, startMs, endMs, |months|) == InRange(market, startMs, endMs)
  {
    MonthsTile(market, months, startMs, endMs, |months|);
  }

  /** A sequence of imports of one range, each starting from what the one before
      it left. */
  ghost predicate Attempts(market: seq<KlineRow>, interval: string, months: seq<Month>, startMs: int, endMs: int,
                           states: seq<Tables>, ks: seq<nat>, endings: seq<Ending>)
  {
    && |states| == |ks| + 1 == |endings| + 1
    && forall i | 0 <= i < |ks| ::
       ImportsTo(market, interval, months, startMs, endMs, states[i], states[i + 1], ks[i], endings[i])
  }

  /** Whatever attempts came before, what a complete import would make of the bars
      is unchanged, and gap rows reaching outside the range were not touched. */
  lemma {:induction false} AttemptsLead(market: seq<KlineRow>, interval: string, months: seq<Month>, startMs: int,
                                        endMs: int, states: seq<Tables>, ks: seq<nat>, endings: seq<Ending>, n: nat)
    requires Attempts(market, interval, months, startMs, endMs, states, ks, endings) && n < |states|
    ensures var all := Wanted(market, months, startMs, endMs, |months|);
            && Upsert(states[n].klines, all) == Upsert(states[0].klines, all)
            && Outside(states[n].gaps, startMs, endMs) == Outside(states[0].gaps, startMs, endMs)
  {
    hide InRange, Upsert, Wanted, Outside, Rescanned, IntervalMs;
    if n > 0 {
      AttemptsLead(market, interval, months, startMs, endMs, states, ks, endings, n - 1);
      var s, k := states[n - 1], ks[n - 1];
      assert ImportsTo(market, interval, months, startMs, endMs, s, states[n], k, endings[n - 1]);
      WantedPrefix(market, months, startMs, endMs, k, |months|);
      UpsertResumes(s.klines, Wanted(market, months, startMs, endMs, k),
                    Wanted(market, months, startMs, endMs, |months|));
      SplitTwice(s.gaps, startMs, endMs);
      if endings[n - 1].Completed? {
        RescanIsExact(s.gaps, states[n].klines, startMs, endMs, IntervalMs(interval).value);
      }
    }
  }

  lemma CompletedTables(market: seq<KlineRow>, interval: string, months: seq<Month>, startMs: int, endMs: int,
                        s: Tables, s': Tables)
    requires Ascending(market) && Calendar(months, startMs, endMs)
    requires ImportsTo(market, interval, months, startMs, endMs, s, s', |months|, Completed)
    ensures s'.klines == Upsert(s.klines, InRange(market, startMs, endMs))
    ensures IntervalMs(interval).Some?
    ensures Inside(s'.gaps, startMs, endMs) == ShownGaps(s'.klines, startMs, endMs, IntervalMs(interval).value)
    ensures Outside(s'.gaps, startMs, endMs) == Outside(s.gaps, startMs, endMs)
  {
    hide InRange, Upsert, Wanted, Outside, Inside, ShownGaps, Rescanned, IntervalMs;
    CompleteImport(market, months, startMs, endMs);
    RescanIsExact(s.gaps, s'.klines, startMs, endMs, IntervalMs(interval).value);
  }

  /** Any number of cancelled, failed or completed imports followed by a completed
      one leaves the bars and the gap rows that one uninterrupted import leaves. */
  lemma InterruptionsLeaveNoTrace(market: seq<KlineRow>, interval: string, months: seq<Month>, startMs: int, endMs: int,
                                  states: seq<Tables>, ks: seq<nat>, endings: seq<Ending>, direct: Tables)
    requires Ascending(market) && Calendar(months, startMs, endMs)
    requires Attempts(market, interval, months, startMs, endMs, states, ks, endings) && ks != []
             && endings[|ks| - 1].Completed?
    requires ImportsTo(market, interval, months, startMs, endMs, states[0], direct, |months|, Completed)
    ensures var last := states[|ks|];
            && last.klines == direct.klines == Upsert(states[0].klines, InRange(market, startMs, endMs))
            && IntervalMs(interval).Some?
            && Inside(last.gaps, startMs, endMs) == Inside(direct.gaps, startMs, endMs)
               == ShownGaps(last.klines, startMs, endMs, IntervalMs(interval).value)
            && Outside(last.gaps, startMs, endMs) == Outside(direct.gaps, startMs, endMs) ==
               Outside(states[0].gaps, startMs, endMs)
  {
    hide InRange, Upsert, Wanted, Outside, Inside, ShownGaps, Rescanned, IntervalMs;
    var n := |ks| - 1;
    AttemptsLead(market, interval, months, startMs, endMs, states, ks, endings, n);
    assert ImportsTo(market, interval, months, startMs, endMs, states[n], states[n + 1], ks[n], endings[n]);
    CompletedTables(market, interval, months, startMs, endMs, states[n], states[n + 1]);
    CompletedTables(market, interval, months, startMs, endMs, states[0], direct);
    CompleteImport(market, months, startMs, endMs);
  }

  /** With the same bars stored, a rescan ends with the same gap rows in the
      range whatever rows it started from. */
  lemma GapsForgetHistory(gaps: seq<Gap>, others: seq<Gap>, t: Table, startMs: int, endMs: int, intervalMs: int)
    requires intervalMs > 0
    ensures Inside(Rescanned(gaps, t, startMs, endMs, intervalMs), startMs, endMs) ==
            Inside(Rescanned(others, t, startMs, endMs, intervalMs), startMs, endMs)
  {
    RescanIsExact(gaps, t, startMs, endMs, intervalMs);
    RescanIsExact(others, t, startMs, endMs, intervalMs);
  }

  /** Importing again adds no row. */
  lemma ImportAgainAddsNothing(t: Table, rows: seq<KlineRow>)
    ensures Upsert(Upsert(t, rows), rows) == Upsert(t, rows)
  {
    UpsertResumes(t, rows, rows);
  }
}
