/**
 The per-day K-line cache in front of the sources.  Times are integers in nanoseconds in one
 fixed-offset location, so a calendar day is a multiple of 24 hours.
 */
module KLine {
  import opened Wrappers
  import Ordering

  // --- days and bars ------------------------------------------------------------------------

  function DayOf(t: int): int
  {
    t / 86_400_000_000_000
  }

  function DayStart(d: int): int
  {
    d * 86_400_000_000_000
  }

  predicate Aligned(t: int)
  {
    t % 86_400_000_000_000 == 0
  }

  datatype Bar = Bar(ts: int, data: string)

  /** What a source returns for a half-open range. */
  function InWindow(bars: seq<Bar>, lo: int, hi: int): seq<Bar>
  {
    if bars == [] then []
    else
      var b := bars[|bars| - 1];
      InWindow(bars[..|bars| - 1], lo, hi) + if lo <= b.ts < hi then [b] else []
  }

  function DayBars(bars: seq<Bar>, d: int): seq<Bar>
  {
    InWindow(bars, DayStart(d), DayStart(d + 1))
  }

  lemma {:induction false} InWindowCount(bars: seq<Bar>, lo: int, hi: int, z: Bar)
    ensures multiset(InWindow(bars, lo, hi))[z] == if lo <= z.ts < hi then multiset(bars)[z] else 0
  {
    if bars != [] {
      var q, b := bars[..|bars| - 1], bars[|bars| - 1];
      assert bars == q + [b];
      InWindowCount(q, lo, hi, z);
    }
  }

  lemma InWindowAppend(bars: seq<Bar>, b: Bar, lo: int, hi: int)
    ensures InWindow(bars + [b], lo, hi) == InWindow(bars, lo, hi) + if lo <= b.ts < hi then [b] else []
  {
    assert (bars + [b])[..|bars|] == bars;
  }

  /** Looking at a day of a fetched range shows the source's bars where day and range meet. */
  lemma {:induction false} InWindowTwice(bars: seq<Bar>, lo: int, hi: int, a: int, b: int)
    ensures InWindow(InWindow(bars, lo, hi), a, b) ==
            InWindow(bars, if a < lo then lo else a, if hi < b then hi else b)
  {
    if bars != [] {
      var q, x := bars[..|bars| - 1], bars[|bars| - 1];
      InWindowTwice(q, lo, hi, a, b);
      if lo <= x.ts < hi {
        InWindowAppend(InWindow(q, lo, hi), x, a, b);
      } else {
        assert InWindow(bars, lo, hi) == InWindow(q, lo, hi);
      }
    }
  }

  // --- splitByDay ---------------------------------------------------------------------------

  datatype TimeRange = TimeRange(start: int, end: int)

  /** The windows cover the range from `start`, one per calendar day, the first and last cut to it. */
  ghost predicate Covers(w: seq<TimeRange>, start: int, end: int)
  {
    forall i :: 0 <= i < |w| ==>
      && DayOf(w[i].start) == DayOf(start) + i
      && w[i].start == (if i == 0 then start else DayStart(DayOf(start) + i))
      && w[i].end == (if DayStart(DayOf(start) + i + 1) < end then DayStart(DayOf(start) + i + 1) else end)
      && w[i].start < w[i].end
  }

  /** Where the loop stands: at the start of the next calendar day, or at the end. */
  ghost predicate NextStart(w: seq<TimeRange>, start: int, end: int, cur: int)
  {
    && start <= cur <= end
    && (|w| == 0 ==> cur == start)
    && (|w| > 0 ==> w[|w| - 1].end == cur)
    && (|w| > 0 && cur < end ==> cur == DayStart(DayOf(start) + |w|))
    && (|w| > 0 && cur == end ==> DayOf(end - 1) == DayOf(start) + |w| - 1)
  }

  lemma CoversMore(w: seq<TimeRange>, start: int, end: int, cur: int)
    requires Covers(w, start, end) && NextStart(w, start, end, cur) && cur < end
    ensures
      var next := if DayStart(DayOf(cur) + 1) > end then end else DayStart(DayOf(cur) + 1);
      Covers(w + [TimeRange(cur, next)], start, end) && NextStart(w + [TimeRange(cur, next)], start, end, next)
  {
    assert DayOf(cur) == DayOf(start) + |w|;
  }

  method SplitByDay(start: int, end: int) returns (out: seq<TimeRange>)
    ensures Covers(out, start, end)
    ensures end <= start ==> out == []
    ensures start < end ==> out != [] && out[|out| - 1].end == end && |out| == DayOf(end - 1) - DayOf(start) + 1
  {
    out := [];
    if end <= start {
      return;
    }
    var cur := start;
    while cur < end
      invariant Covers(out, start, end) && NextStart(out, start, end, cur)
      decreases end - cur
    {
      CoversMore(out, start, end, cur);
      var next := DayStart(DayOf(cur) + 1);
      if next > end {
        next := end;
      }
      out := out + [TimeRange(cur, next)];
      cur := next;
    }
  }

  predicate WholeDay(w: TimeRange)
  {
    w.start == DayStart(DayOf(w.start)) && w.end == DayStart(DayOf(w.start) + 1)
  }

  // --- the cache ----------------------------------------------------------------------------

  /** The (stock, period, trade date) key. */
  datatype Key = Key(stock: string, period: string, day: int)

  datatype Entry = Entry(value: seq<Bar>, expiresAt: int)

  function Lifetime(ttl: int): int
  {
    if ttl <= 0 then 1000 else ttl
  }

  /** The in-memory cache with lazy expiry; its clock may advance at every reading. */
  class MemoryCache {
    var data: map<Key, Entry>
    var clock: int

    constructor (now: int)
      ensures data == map[] && clock == now
    {
      data, clock := map[], now;
    }

    method Now() returns (t: int)
      modifies this`clock
      ensures old(clock) <= clock && t == clock
    {
      t := *;
      if t < clock {
        t := clock;
      }
      clock := t;
    }

    method Get(key: Key) returns (v: Option<seq<Bar>>)
      modifies this
      ensures old(clock) <= clock
      ensures if key in old(data) && clock < old(data)[key].expiresAt
              then v == Some(old(data)[key].value) && data == old(data)
              else v == None && data == old(data) - {key}
    {
      if key !in data {
        return None;
      }
      var now := Now();
      if now >= data[key].expiresAt {
        data := data - {key};
        return None;
      }
      v := Some(data[key].value);
    }

    method Set(key: Key, value: seq<Bar>, ttl: int)
      modifies this
      ensures old(clock) <= clock
      ensures data == old(data)[key := Entry(value, if ttl > 0 then clock + ttl else clock + 1000)]
    {
      var now := Now();
      data := data[key := Entry(value, now + Lifetime(ttl))];
    }
  }

  /** What each stock and period have at the source. */
  type Source = (string, string) -> seq<Bar>

  /** Every entry holds exactly the source's bars of its day. */
  ghost predicate Agrees(data: map<Key, Entry>, source: Source)
  {
    forall k :: k in data ==> data[k].value == DayBars(source(k.stock, k.period), k.day)
  }

  // --- GetKLine -----------------------------------------------------------------------------

  /** The days of some windows. */
  function Days(w: seq<TimeRange>): seq<int>
  {
    seq(|w|, i requires 0 <= i < |w| => DayOf(w[i].start))
  }

  ghost predicate Ascending(days: seq<int>)
  {
    forall i, j :: 0 <= i < j < |days| ==> days[i] < days[j]
  }

  /** The first windows sorted into hit days and missing windows, both in order. */
  ghost predicate Sorted(w: seq<TimeRange>, hits: seq<int>, missing: seq<TimeRange>)
  {
    && (forall d :: d in hits ==> d in Days(w) && d !in Days(missing))
    && (forall m :: m in missing ==> m in w)
    && (forall i :: 0 <= i < |w| ==> DayOf(w[i].start) in hits || w[i] in missing)
    && Ascending(hits) && Ascending(Days(missing))
  }

  /** The part of a day that lies in the range. */
  function DayWindow(start: int, end: int, d: int): TimeRange
  {
    TimeRange(if DayStart(d) < start then start else DayStart(d),
              if DayStart(d + 1) < end then DayStart(d + 1) else end)
  }

  /** Every day of the range is a hit or has its window among the missing ones, never both, in order. */
  ghost predicate Tiles(hits: seq<int>, missing: seq<TimeRange>, start: int, end: int)
  {
    && (forall d :: d in hits || d in Days(missing) <==> DayOf(start) <= d <= DayOf(end - 1))
    && (forall d :: !(d in hits && d in Days(missing)))
    && (forall m :: m in missing ==> m == DayWindow(start, end, DayOf(m.start)))
    && Ascending(hits) && Ascending(Days(missing))
  }

  /** The windows of the range, sorted into hits and misses, tile it. */
  lemma SortedTiles(w: seq<TimeRange>, start: int, end: int, hits: seq<int>, missing: seq<TimeRange>)
    requires Covers(w, start, end) && Sorted(w, hits, missing) && |w| == DayOf(end - 1) - DayOf(start) + 1
    ensures Tiles(hits, missing, start, end)
  {
    forall d ensures d in hits || d in Days(missing) <==> DayOf(start) <= d <= DayOf(end - 1)
      ensures !(d in hits && d in Days(missing))
    {
      HitOrMissing(w, hits, missing, d);
      assert DayOf(start) <= d <= DayOf(end - 1) ==> Days(w)[d - DayOf(start)] == d;
    }
    forall m | m in missing ensures m == DayWindow(start, end, DayOf(m.start)) {
      var i :| 0 <= i < |w| && w[i] == m;
    }
  }

  /** The collected bars are, bar by bar, those of the source on the hit days. */
  ghost predicate BarsOfDays(merged: seq<Bar>, bars: seq<Bar>, days: seq<int>)
  {
    forall z :: multiset(merged)[z] == if DayOf(z.ts) in days then multiset(bars)[z] else 0
  }

  lemma DayBounds(t: int, d: int)
    ensures DayStart(d) <= t < DayStart(d + 1) <==> DayOf(t) == d
  {
  }

  lemma BarsOfOneMore(merged: seq<Bar>, bars: seq<Bar>, days: seq<int>, d: int)
    requires BarsOfDays(merged, bars, days) && d !in days
    ensures BarsOfDays(merged + DayBars(bars, d), bars, days + [d])
  {
    forall z ensures multiset(merged + DayBars(bars, d))[z] ==
      if DayOf(z.ts) in days + [d] then multiset(bars)[z] else 0
    {
      InWindowCount(bars, DayStart(d), DayStart(d + 1), z);
      DayBounds(z.ts, d);
      assert multiset(merged)[z] == if DayOf(z.ts) in days then multiset(bars)[z] else 0;
    }
  }

  lemma DaysAppend(w: seq<TimeRange>, m: TimeRange)
    ensures Days(w + [m]) == Days(w) + [DayOf(m.start)]
  {
  }

  /** Sorting one more window, whose day is later than all before. */
  lemma SortedNext(w: seq<TimeRange>, hits: seq<int>, missing: seq<TimeRange>, m: TimeRange)
    requires Sorted(w, hits, missing) && forall d :: d in Days(w) ==> d < DayOf(m.start)
    ensures Sorted(w + [m], hits + [DayOf(m.start)], missing)
    ensures Sorted(w + [m], hits, missing + [m])
  {
    DaysAppend(w, m);
    DaysAppend(missing, m);
    forall x | x in missing ensures DayOf(x.start) in Days(w) {
      var i :| 0 <= i < |w| && w[i] == x;
      assert Days(w)[i] == DayOf(x.start);
    }
    assert forall i :: 0 <= i < |hits| ==> hits[i] in hits;
    forall d | d in Days(missing) ensures d < DayOf(m.start) {
      var i :| 0 <= i < |missing| && Days(missing)[i] == d;
      assert missing[i] in missing;
    }
  }

  lemma LaterDay(w: seq<TimeRange>, start: int, end: int, i: nat)
    requires Covers(w, start, end) && i < |w|
    ensures forall d :: d in Days(w[..i]) ==> d < DayOf(w[i].start)
  {
    forall d | d in Days(w[..i]) ensures d < DayOf(w[i].start) {
      var k :| 0 <= k < i && Days(w[..i])[k] == d;
      assert w[..i][k] == w[k];
    }
  }

  /** The entry is there and holds exactly the source's bars of its day. */
  ghost predicate EntryRight(data: map<Key, Entry>, k: Key, source: Source)
  {
    k in data && data[k].value == DayBars(source(k.stock, k.period), k.day)
  }

  /** What the look-ups leave: the entries of the days they missed are gone. */
  ghost function Kept(data: map<Key, Entry>, stock: string, period: string, missing: seq<TimeRange>): map<Key, Entry>
  {
    map k | k in data && !(k.stock == stock && k.period == period && k.day in Days(missing)) :: data[k]
  }

  lemma KeptNext(data: map<Key, Entry>, stock: string, period: string, missing: seq<TimeRange>, m: TimeRange)
    ensures Kept(data, stock, period, missing + [m]) ==
            Kept(data, stock, period, missing) - {Key(stock, period, DayOf(m.start))}
  {
    DaysAppend(missing, m);
  }

  /** One look into the cache per window. */
  method LookUp(cache: MemoryCache, stock: string, period: string, w: seq<TimeRange>,
                ghost start: int, ghost end: int, ghost source: Source)
    returns (merged: seq<Bar>, missing: seq<TimeRange>, ghost hits: seq<int>)
    requires Covers(w, start, end)
    modifies cache
    ensures Sorted(w, hits, missing)
    ensures old(cache.clock) <= cache.clock
    ensures cache.data == Kept(old(cache.data), stock, period, missing)
    ensures forall d :: d in hits ==> LiveAt(old(cache.data), Key(stock, period, d), old(cache.clock))
    ensures forall d :: d in Days(missing) ==> !LiveAt(old(cache.data), Key(stock, period, d), cache.clock)
    ensures (forall d :: d in hits ==> EntryRight(old(cache.data), Key(stock, period, d), source)) ==>
      BarsOfDays(merged, source(stock, period), hits)
    ensures merged == Joined(old(cache.data), stock, period, hits)
  {
    merged, missing, hits := [], [], [];
    ghost var was := cache.data;
    assert Kept(was, stock, period, []) == was;
    for i := 0 to |w|
      invariant old(cache.clock) <= cache.clock
      invariant cache.data == Kept(was, stock, period, missing)
      invariant LookedUp(was, stock, period, source, w[..i], hits, missing, merged, old(cache.clock), cache.clock)
    {
      var d := DayOf(w[i].start);
      Ordering.TakeOne(w, i);
      LaterDay(w, start, end, i);
      ghost var now := cache.clock;
      var raw := cache.Get(Key(stock, period, d));
      LaterMoment(was, stock, period, source, w[..i], hits, missing, merged, old(cache.clock), now, cache.clock);
      StillThere(was, stock, period, w[..i], hits, missing, d);
      if raw.Some? {
        HitNext(was, stock, period, source, w[..i], hits, missing, merged, old(cache.clock), cache.clock, w[i]);
        merged := merged + raw.value;
        hits := hits + [d];
      } else {
        MissNext(was, stock, period, source, w[..i], hits, missing, merged, old(cache.clock), cache.clock, w[i]);
        KeptNext(was, stock, period, missing, w[i]);
        missing := missing + [w[i]];
      }
    }
    assert w[..|w|] == w;
  }

  /** Where the look-ups stand after some windows. */
  ghost predicate LookedUp(was: map<Key, Entry>, stock: string, period: string, source: Source, w: seq<TimeRange>,
                           hits: seq<int>, missing: seq<TimeRange>, merged: seq<Bar>, first: int, now: int)
  {
    && Sorted(w, hits, missing)
    && Timely(was, stock, period, hits, missing, first, now)
    && Collected(was, stock, period, hits, merged, source)
    && merged == Joined(was, stock, period, hits)
  }

  lemma HitNext(was: map<Key, Entry>, stock: string, period: string, source: Source, w: seq<TimeRange>,
                hits: seq<int>, missing: seq<TimeRange>, merged: seq<Bar>, first: int, now: int, m: TimeRange)
    requires LookedUp(was, stock, period, source, w, hits, missing, merged, first, now)
    requires (forall d :: d in Days(w) ==> d < DayOf(m.start)) && LiveAt(was, Key(stock, period, DayOf(m.start)), first)
    ensures LookedUp(was, stock, period, source, w + [m], hits + [DayOf(m.start)], missing,
                     merged + was[Key(stock, period, DayOf(m.start))].value, first, now)
  {
    var d := DayOf(m.start);
    SortedNext(w, hits, missing, m);
    NotYetSorted(w, hits, missing, d);
    TimelyNext(was, stock, period, hits, missing, m, first, now);
    CollectedNext(was, stock, period, hits, merged, source, d);
    JoinedNext(was, stock, period, hits, d);
  }

  lemma MissNext(was: map<Key, Entry>, stock: string, period: string, source: Source, w: seq<TimeRange>,
                 hits: seq<int>, missing: seq<TimeRange>, merged: seq<Bar>, first: int, now: int, m: TimeRange)
    requires LookedUp(was, stock, period, source, w, hits, missing, merged, first, now)
    requires (forall d :: d in Days(w) ==> d < DayOf(m.start)) && !LiveAt(was, Key(stock, period, DayOf(m.start)), now)
    ensures LookedUp(was, stock, period, source, w + [m], hits, missing + [m], merged, first, now)
  {
    SortedNext(w, hits, missing, m);
    TimelyNext(was, stock, period, hits, missing, m, first, now);
  }

  /** A day not looked up yet has kept its entry. */
  lemma StillThere(was: map<Key, Entry>, stock: string, period: string, w: seq<TimeRange>, hits: seq<int>,
                   missing: seq<TimeRange>, d: int)
    requires Sorted(w, hits, missing) && forall x :: x in Days(w) ==> x < d
    ensures Key(stock, period, d) in Kept(was, stock, period, missing) <==> Key(stock, period, d) in was
  {
    NotYetSorted(w, hits, missing, d);
  }

  /** A later moment changes nothing: what was not live is not live then. */
  lemma LaterMoment(was: map<Key, Entry>, stock: string, period: string, source: Source, w: seq<TimeRange>,
                    hits: seq<int>, missing: seq<TimeRange>, merged: seq<Bar>, first: int, now: int, later: int)
    requires LookedUp(was, stock, period, source, w, hits, missing, merged, first, now) && now <= later
    ensures LookedUp(was, stock, period, source, w, hits, missing, merged, first, later)
  {
  }

  /** The cached bars of some days, one day after the other. */
  function Joined(data: map<Key, Entry>, stock: string, period: string, days: seq<int>): seq<Bar>
  {
    if days == [] then []
    else
      var k := Key(stock, period, days[|days| - 1]);
      Joined(data, stock, period, days[..|days| - 1]) + if k in data then data[k].value else []
  }

  lemma JoinedNext(data: map<Key, Entry>, stock: string, period: string, days: seq<int>, d: int)
    requires Key(stock, period, d) in data
    ensures Joined(data, stock, period, days + [d]) ==
            Joined(data, stock, period, days) + data[Key(stock, period, d)].value
  {
    assert (days + [d])[..|days|] == days;
  }

  /** Hits were live at the beginning, misses are not live now. */
  ghost predicate Timely(was: map<Key, Entry>, stock: string, period: string, hits: seq<int>, missing: seq<TimeRange>,
                         first: int, now: int)
  {
    && (forall d :: d in hits ==> LiveAt(was, Key(stock, period, d), first))
    && (forall d :: d in Days(missing) ==> !LiveAt(was, Key(stock, period, d), now))
  }

  lemma TimelyNext(was: map<Key, Entry>, stock: string, period: string, hits: seq<int>, missing: seq<TimeRange>,
                   m: TimeRange, first: int, now: int)
    requires Timely(was, stock, period, hits, missing, first, now)
    ensures LiveAt(was, Key(stock, period, DayOf(m.start)), first) ==>
      Timely(was, stock, period, hits + [DayOf(m.start)], missing, first, now)
    ensures !LiveAt(was, Key(stock, period, DayOf(m.start)), now) ==>
      Timely(was, stock, period, hits, missing + [m], first, now)
  {
    DaysAppend(missing, m);
  }

  /** The collected bars are the source's, where the entries of the hit days are right. */
  ghost predicate Collected(was: map<Key, Entry>, stock: string, period: string, hits: seq<int>, merged: seq<Bar>,
                            source: Source)
  {
    (forall d :: d in hits ==> EntryRight(was, Key(stock, period, d), source)) ==>
      BarsOfDays(merged, source(stock, period), hits)
  }

  lemma CollectedNext(was: map<Key, Entry>, stock: string, period: string, hits: seq<int>, merged: seq<Bar>,
                      source: Source, d: int)
    requires Collected(was, stock, period, hits, merged, source) && Key(stock, period, d) in was && d !in hits
    ensures Collected(was, stock, period, hits + [d], merged + was[Key(stock, period, d)].value, source)
  {
    if forall x :: x in hits + [d] ==> EntryRight(was, Key(stock, period, x), source) {
      assert forall x :: x in hits ==> x in hits + [d];
      assert d in hits + [d];
      assert EntryRight(was, Key(stock, period, d), source);
      BarsOfOneMore(merged, source(stock, period), hits, d);
    }
  }

  /** A day later than all windows so far is neither a hit nor missing yet. */
  lemma NotYetSorted(w: seq<TimeRange>, hits: seq<int>, missing: seq<TimeRange>, d: int)
    requires Sorted(w, hits, missing) && forall x :: x in Days(w) ==> x < d
    ensures d !in hits && d !in Days(missing)
  {
    HitOrMissing(w, hits, missing, d);
  }

  ghost predicate LiveAt(data: map<Key, Entry>, k: Key, t: int)
  {
    k in data && t < data[k].expiresAt
  }

  /** The one range that spans all missing windows. */
  method Span(missing: seq<TimeRange>, ghost w: seq<TimeRange>, ghost start: int, ghost end: int)
    returns (lo: int, hi: int)
    requires missing != [] && Covers(w, start, end) && Ascending(Days(missing)) && forall m :: m in missing ==> m in w
    ensures lo == missing[0].start && hi == missing[|missing| - 1].end
  {
    lo, hi := missing[0].start, missing[0].end;
    for i := 1 to |missing|
      invariant lo == missing[0].start && hi == missing[i - 1].end
    {
      LaterWindow(missing, w, start, end, 0, i);
      LaterWindow(missing, w, start, end, i - 1, i);
      var d := missing[i];
      if d.start < lo {
        lo := d.start;
      }
      if d.end > hi {
        hi := d.end;
      }
    }
  }

  lemma LaterWindow(missing: seq<TimeRange>, w: seq<TimeRange>, start: int, end: int, i: nat, j: nat)
    requires Covers(w, start, end) && Ascending(Days(missing)) && forall m :: m in missing ==> m in w
    requires i < j < |missing|
    ensures missing[i].start < missing[i].end <= missing[j].start < missing[j].end
  {
    assert Days(missing)[i] < Days(missing)[j];
    assert missing[i] in w && missing[j] in w;
    var a :| 0 <= a < |w| && w[a] == missing[i];
    var b :| 0 <= b < |w| && w[b] == missing[j];
  }

  function Bucket(byDay: map<int, seq<Bar>>, d: int): seq<Bar>
  {
    if d in byDay then byDay[d] else []
  }

  /** The fetched bars sorted into calendar days. */
  method BucketByDay(klines: seq<Bar>) returns (byDay: map<int, seq<Bar>>)
    ensures forall d :: Bucket(byDay, d) == DayBars(klines, d)
  {
    byDay := map[];
    for i := 0 to |klines|
      invariant forall d :: Bucket(byDay, d) == DayBars(klines[..i], d)
    {
      var k := klines[i];
      ghost var was := byDay;
      byDay := byDay[DayOf(k.ts) := Bucket(byDay, DayOf(k.ts)) + [k]];
      assert klines[..i + 1] == klines[..i] + [k];
      BucketNext(was, klines[..i], k);
    }
    assert klines[..|klines|] == klines;
  }

  lemma BucketNext(byDay: map<int, seq<Bar>>, done: seq<Bar>, k: Bar)
    requires forall d :: Bucket(byDay, d) == DayBars(done, d)
    ensures forall d :: Bucket(byDay[DayOf(k.ts) := Bucket(byDay, DayOf(k.ts)) + [k]], d) == DayBars(done + [k], d)
  {
    var next := byDay[DayOf(k.ts) := Bucket(byDay, DayOf(k.ts)) + [k]];
    forall d ensures Bucket(next, d) == DayBars(done + [k], d) {
      InWindowAppend(done, k, DayStart(d), DayStart(d + 1));
      DayBounds(k.ts, d);
      assert Bucket(byDay, d) == DayBars(done, d);
    }
  }

  /** After the write-back: every missing day holds its fetched bars, all else is as it was. */
  ghost predicate WrittenBack(was: map<Key, Entry>, data: map<Key, Entry>, stock: string, period: string,
                              missing: seq<TimeRange>, klines: seq<Bar>)
  {
    && (forall i :: 0 <= i < |missing| ==> HoldsDay(data, Key(stock, period, DayOf(missing[i].start)), klines))
    && (forall k :: k in data ==>
          (k in was && data[k] == was[k]) ||
          (k.stock == stock && k.period == period && k.day in Days(missing) && HoldsDay(data, k, klines)))
    && (forall k :: k in was ==> k in data)
  }

  /** The entries of the missing days expire between two moments. */
  ghost predicate ExpireWithin(data: map<Key, Entry>, stock: string, period: string, missing: seq<TimeRange>,
                               first: int, last: int)
  {
    forall i :: 0 <= i < |missing| ==> ExpiresWithin(data, Key(stock, period, DayOf(missing[i].start)), first, last)
  }

  ghost predicate ExpiresWithin(data: map<Key, Entry>, k: Key, first: int, last: int)
  {
    k in data && first <= data[k].expiresAt <= last
  }

  lemma ExpireNext(data: map<Key, Entry>, stock: string, period: string, done: seq<TimeRange>, m: TimeRange,
                   bars: seq<Bar>, first: int, last: int, now: int)
    requires ExpireWithin(data, stock, period, done, first, last) && first <= now && last <= now
    ensures
      ExpireWithin(data[Key(stock, period, DayOf(m.start)) := Entry(bars, now)], stock, period, done + [m], first, now)
  {
  }

  ghost predicate HoldsDay(data: map<Key, Entry>, k: Key, bars: seq<Bar>)
  {
    k in data && data[k].value == DayBars(bars, k.day)
  }

  lemma WriteOne(was: map<Key, Entry>, data: map<Key, Entry>, stock: string, period: string,
                 done: seq<TimeRange>, m: TimeRange, klines: seq<Bar>, expiry: int)
    requires WrittenBack(was, data, stock, period, done, klines)
    ensures
      var d := DayOf(m.start);
      WrittenBack(was, data[Key(stock, period, d) := Entry(DayBars(klines, d), expiry)],
                  stock, period, done + [m], klines)
  {
    DaysAppend(done, m);
  }

  /** Every missing day is written, barless ones too. */
  method Store(cache: MemoryCache, stock: string, period: string, missing: seq<TimeRange>, klines: seq<Bar>, ttl: int)
    modifies cache
    ensures old(cache.clock) <= cache.clock
    ensures WrittenBack(old(cache.data), cache.data, stock, period, missing, klines)
    ensures
      ExpireWithin(cache.data, stock, period, missing, old(cache.clock) + Lifetime(ttl), cache.clock + Lifetime(ttl))
  {
    var byDay := BucketByDay(klines);
    for i := 0 to |missing|
      invariant old(cache.clock) <= cache.clock
      invariant WrittenBack(old(cache.data), cache.data, stock, period, missing[..i], klines)
      invariant ExpireWithin(cache.data, stock, period, missing[..i],
                             old(cache.clock) + Lifetime(ttl), cache.clock + Lifetime(ttl))
    {
      var d := DayOf(missing[i].start);
      assert Bucket(byDay, d) == DayBars(klines, d);
      Ordering.TakeOne(missing, i);
      StoreDay(cache, stock, period, old(cache.data), missing[..i], missing[i], klines, Bucket(byDay, d), ttl,
               old(cache.clock) + Lifetime(ttl));
    }
    assert missing[..|missing|] == missing;
  }

  /** One day written. */
  method StoreDay(cache: MemoryCache, stock: string, period: string, ghost was: map<Key, Entry>,
                  ghost done: seq<TimeRange>, m: TimeRange, ghost klines: seq<Bar>, bars: seq<Bar>, ttl: int,
                  ghost first: int)
    requires WrittenBack(was, cache.data, stock, period, done, klines) && bars == DayBars(klines, DayOf(m.start))
    requires ExpireWithin(cache.data, stock, period, done, first, cache.clock + Lifetime(ttl))
    requires first <= cache.clock + Lifetime(ttl)
    modifies cache
    ensures old(cache.clock) <= cache.clock
    ensures WrittenBack(was, cache.data, stock, period, done + [m], klines)
    ensures ExpireWithin(cache.data, stock, period, done + [m], first, cache.clock + Lifetime(ttl))
  {
    cache.Set(Key(stock, period, DayOf(m.start)), bars, ttl);
    ExpireNext(old(cache.data), stock, period, done, m, bars, first, old(cache.clock) + Lifetime(ttl),
               cache.clock + Lifetime(ttl));
    WriteOne(was, old(cache.data), stock, period, done, m, klines, cache.clock + Lifetime(ttl));
  }

  /** What a fetch brings in for the missing windows is, day by day, all that the source has of the day. */
  ghost predicate WholeDaysFetched(missing: seq<TimeRange>, bars: seq<Bar>)
  {
    forall m :: m in missing ==> WindowIsDay(m, bars)
  }

  ghost predicate WindowIsDay(m: TimeRange, bars: seq<Bar>)
  {
    InWindow(bars, m.start, m.end) == DayBars(bars, DayOf(m.start))
  }

  /** After the write-back the cache agrees with the source exactly when the fetch brought in whole days. */
  lemma WriteBackAgreesIff(w: seq<TimeRange>, start: int, end: int, missing: seq<TimeRange>, source: Source,
                           was: map<Key, Entry>, data: map<Key, Entry>, stock: string, period: string)
    requires Covers(w, start, end) && Ascending(Days(missing)) && forall x :: x in missing ==> x in w
    requires Agrees(was, source)
    requires WrittenBack(was, data, stock, period, missing, Fetched(missing, source(stock, period)))
    ensures Agrees(data, source) <==> WholeDaysFetched(missing, source(stock, period))
  {
    var bars := source(stock, period);
    if Agrees(data, source) {
      forall m | m in missing ensures WindowIsDay(m, bars) {
        var i :| 0 <= i < |missing| && missing[i] == m;
        assert HoldsDay(data, Key(stock, period, DayOf(missing[i].start)), Fetched(missing, bars));
        WrittenValue(w, start, end, missing, bars, m);
      }
    }
    if WholeDaysFetched(missing, bars) {
      forall k | k in data ensures data[k].value == DayBars(source(k.stock, k.period), k.day) {
        if !(k in was && data[k] == was[k]) {
          assert HoldsDay(data, k, Fetched(missing, bars));
          var j :| 0 <= j < |missing| && Days(missing)[j] == k.day;
          assert WindowIsDay(missing[j], bars);
          WrittenValue(w, start, end, missing, bars, missing[j]);
        }
      }
    }
  }

  datatype Response =
    | EmptyStock
    | EmptyPeriod
    | EmptyRange
    | Served(bars: seq<Bar>)
    | Partial(bars: seq<Bar>)   // some days were cached, the fetch of the others failed
    | AllSourcesFailed

  /** A day served from the cache although it lies strictly inside the fetched span. */
  predicate Doubled(hits: seq<int>, missing: seq<TimeRange>, d: int)
  {
    missing != [] && d in hits && DayOf(missing[0].start) < d < DayOf(missing[|missing| - 1].start)
  }

  /** How often a bar of the source comes back. */
  function Copies(hits: seq<int>, missing: seq<TimeRange>, start: int, end: int, bars: seq<Bar>, z: Bar): nat
  {
    if !(start <= z.ts < end) then 0
    else if Doubled(hits, missing, DayOf(z.ts)) then multiset(bars)[z] + multiset(bars)[z]
    else multiset(bars)[z]
  }

  /** The fetched span holds the missing days and the doubled hits. */
  lemma SpanExact(hits: seq<int>, missing: seq<TimeRange>, start: int, end: int, t: int)
    requires start < end && Tiles(hits, missing, start, end) && missing != []
    requires Aligned(start) && Aligned(end)
    ensures missing[0].start <= t < missing[|missing| - 1].end <==>
            DayOf(t) in Days(missing) || Doubled(hits, missing, DayOf(t))
  {
    var d, l := DayOf(t), |missing| - 1;
    assert missing[0] in missing && missing[l] in missing;
    assert Days(missing)[0] in Days(missing) && Days(missing)[l] in Days(missing);
    assert missing[0] == DayWindow(start, end, DayOf(missing[0].start));
    assert missing[l] == DayWindow(start, end, DayOf(missing[l].start));
    MissingBetween(missing, d);
  }

  function Fetched(missing: seq<TimeRange>, bars: seq<Bar>): seq<Bar>
  {
    if missing == [] then [] else InWindow(bars, missing[0].start, missing[|missing| - 1].end)
  }

  /** Every window's day is a hit or missing, never both. */
  lemma HitOrMissing(w: seq<TimeRange>, hits: seq<int>, missing: seq<TimeRange>, d: int)
    requires Sorted(w, hits, missing)
    ensures d in Days(w) <==> d in hits || d in Days(missing)
    ensures !(d in hits && d in Days(missing))
  {
    if d in Days(w) {
      var k :| 0 <= k < |w| && Days(w)[k] == d;
      if w[k] in missing {
        var j :| 0 <= j < |missing| && missing[j] == w[k];
        assert Days(missing)[j] == d;
      }
    }
    if d in Days(missing) {
      var j :| 0 <= j < |missing| && Days(missing)[j] == d;
      assert missing[j] in w;
      var k :| 0 <= k < |w| && w[k] == missing[j];
      assert Days(w)[k] == d;
    }
  }

  lemma MissingBetween(missing: seq<TimeRange>, d: int)
    requires missing != [] && Ascending(Days(missing))
    ensures d in Days(missing) ==> DayOf(missing[0].start) <= d <= DayOf(missing[|missing| - 1].start)
  {
    if d in Days(missing) {
      var j :| 0 <= j < |missing| && Days(missing)[j] == d;
      var l := |missing| - 1;
      assert Days(missing)[0] <= Days(missing)[j] <= Days(missing)[l];
    }
  }

  /** What was written for a missing window: the source's bars where the day and the window meet. */
  lemma WrittenValue(w: seq<TimeRange>, start: int, end: int, missing: seq<TimeRange>, bars: seq<Bar>, m: TimeRange)
    requires Covers(w, start, end) && Ascending(Days(missing)) && (forall x :: x in missing ==> x in w) && m in missing
    ensures DayBars(InWindow(bars, missing[0].start, missing[|missing| - 1].end), DayOf(m.start)) ==
            InWindow(bars, m.start, m.end)
  {
    var j :| 0 <= j < |missing| && missing[j] == m;
    var a :| 0 <= a < |w| && w[a] == m;
    InWindowTwice(bars, missing[0].start, missing[|missing| - 1].end,
                  DayStart(DayOf(m.start)), DayStart(DayOf(m.start) + 1));
    Meet(w, start, end, missing, a, j);
  }

  lemma Meet(w: seq<TimeRange>, start: int, end: int, missing: seq<TimeRange>, a: nat, j: nat)
    requires Covers(w, start, end) && Ascending(Days(missing)) && (forall x :: x in missing ==> x in w)
    requires j < |missing| && a < |w| && w[a] == missing[j]
    ensures
      var d := DayOf(missing[j].start);
      var lo, hi := missing[0].start, missing[|missing| - 1].end;
      && (if DayStart(d) < lo then lo else DayStart(d)) == missing[j].start
      && (if hi < DayStart(d + 1) then hi else DayStart(d + 1)) == missing[j].end
  {
    var l := |missing| - 1;
    assert missing[0] in w && missing[l] in w;
    var x :| 0 <= x < |w| && w[x] == missing[0];
    var y :| 0 <= y < |w| && w[y] == missing[l];
    if 0 < j { LaterWindow(missing, w, start, end, 0, j); }
    if j < l { LaterWindow(missing, w, start, end, j, l); }
  }

  // --- the call -----------------------------------------------------------------------------

  /** A window agrees with the day in every source exactly when it is the whole day. */
  lemma WholeDayIffAgrees(m: TimeRange)
    requires m.start < m.end <= DayStart(DayOf(m.start) + 1)
    ensures (forall bars :: WindowIsDay(m, bars)) <==> WholeDay(m)
  {
    if !WholeDay(m) {
      var bars := OneMoreBar(m, []);
      assert !WindowIsDay(m, bars);
    }
  }

  /** A window cut short misses a bar that its day may have: `bars` or one bar more tell the two apart. */
  lemma OneMoreBar(m: TimeRange, bars: seq<Bar>) returns (more: seq<Bar>)
    requires m.start < m.end <= DayStart(DayOf(m.start) + 1) && !WholeDay(m)
    ensures !WindowIsDay(m, more)
    ensures forall d :: d != DayOf(m.start) ==> DayBars(more, d) == DayBars(bars, d)
  {
    var d := DayOf(m.start);
    if WindowIsDay(m, bars) {
      var b := Bar(if DayStart(d) < m.start then DayStart(d) else m.end, "");
      DayBounds(b.ts, d);
      InWindowAppend(bars, b, m.start, m.end);
      InWindowAppend(bars, b, DayStart(d), DayStart(d + 1));
      more := bars + [b];
      forall e | e != d ensures DayBars(more, e) == DayBars(bars, e) {
        DayBounds(b.ts, e);
        InWindowAppend(bars, b, DayStart(e), DayStart(e + 1));
      }
    } else {
      more := bars;
    }
  }

  /** No missing window is cut: each end of the range is a day boundary or lies in a day that was hit. */
  ghost predicate EndsWhole(missing: seq<TimeRange>, start: int, end: int)
  {
    && (Aligned(start) || DayOf(start) !in Days(missing))
    && (Aligned(end) || DayOf(end - 1) !in Days(missing))
  }

  lemma EndsWholeIff(hits: seq<int>, missing: seq<TimeRange>, start: int, end: int)
    requires start < end && Tiles(hits, missing, start, end)
    ensures (forall m :: m in missing ==> WholeDay(m)) <==> EndsWhole(missing, start, end)
  {
    if forall m :: m in missing ==> WholeDay(m) {
      forall d | d in Days(missing) ensures WholeDay(DayWindow(start, end, d)) {
        MissingWindow(hits, missing, start, end, d);
      }
      WindowWhole(start, end, DayOf(start));
      WindowWhole(start, end, DayOf(end - 1));
    }
    if EndsWhole(missing, start, end) {
      forall m | m in missing ensures WholeDay(m) {
        MissingDay(hits, missing, start, end, m);
        WindowWhole(start, end, DayOf(m.start));
      }
    }
  }

  /** A day's part of the range is the whole day exactly when no end of the range cuts the day. */
  lemma WindowWhole(start: int, end: int, d: int)
    requires start < end && DayOf(start) <= d <= DayOf(end - 1)
    ensures WholeDay(DayWindow(start, end, d)) <==>
            (d == DayOf(start) ==> Aligned(start)) && (d == DayOf(end - 1) ==> Aligned(end))
  {
  }

  /** The window of a missing day is the day's part of the range. */
  lemma MissingWindow(hits: seq<int>, missing: seq<TimeRange>, start: int, end: int, d: int)
    requires Tiles(hits, missing, start, end) && d in Days(missing)
    ensures DayWindow(start, end, d) in missing
  {
    var j :| 0 <= j < |missing| && Days(missing)[j] == d;
    assert missing[j] in missing;
  }

  lemma MissingDay(hits: seq<int>, missing: seq<TimeRange>, start: int, end: int, m: TimeRange)
    requires Tiles(hits, missing, start, end) && m in missing
    ensures DayOf(m.start) in Days(missing) && DayOf(start) <= DayOf(m.start) <= DayOf(end - 1)
  {
    var j :| 0 <= j < |missing| && missing[j] == m;
    assert Days(missing)[j] == DayOf(m.start);
  }

  /** The same stock and period with other bars. */
  function Replaced(source: Source, stock: string, period: string, bars: seq<Bar>): Source
  {
    (s: string, p: string) => if s == stock && p == period then bars else source(s, p)
  }

  /**
   The exact condition under which a call caches rightly: whatever source the entries that were kept
   agree with, what is written for the missing days agrees with it too, if and only if each end of the
   range is a day boundary or lies in a day that was served from the cache.
   */
  lemma WriteRightIffEndsWhole(kept: map<Key, Entry>, stock: string, period: string, hits: seq<int>,
                               missing: seq<TimeRange>, start: int, end: int, source: Source)
    requires start < end && Tiles(hits, missing, start, end) && Agrees(kept, source)
    requires forall d :: d in Days(missing) ==> Key(stock, period, d) !in kept
    ensures (forall other: Source :: Agrees(kept, other) ==> WholeDaysFetched(missing, other(stock, period)))
            <==> EndsWhole(missing, start, end)
  {
    EndsWholeIff(hits, missing, start, end);
    if !EndsWhole(missing, start, end) {
      var m :| m in missing && !WholeDay(m);
      MissingDay(hits, missing, start, end, m);
      assert m == DayWindow(start, end, DayOf(m.start));
      var more := OneMoreBar(m, source(stock, period));
      var other := Replaced(source, stock, period, more);
      assert Key(stock, period, DayOf(m.start)) !in kept;
      forall k | k in kept ensures kept[k].value == DayBars(other(k.stock, k.period), k.day) {
        assert kept[k].value == DayBars(source(k.stock, k.period), k.day);
      }
      assert Agrees(kept, other) && !WindowIsDay(m, other(stock, period));
    }
  }

  /** A fetch failed: what was merged from the cache, if anything, comes back with the error. */
  predicate FetchFailed(r: Response)
  {
    r.Partial? || r.AllSourcesFailed?
  }

  /** How often a bar of the source comes back: from its cached day, and from the fetched span. */
  function Returned(hits: seq<int>, missing: seq<TimeRange>, bars: seq<Bar>, z: Bar): nat
  {
    (if DayOf(z.ts) in hits then multiset(bars)[z] else 0) +
    (if missing != [] && missing[0].start <= z.ts < missing[|missing| - 1].end then multiset(bars)[z] else 0)
  }

  lemma ReturnedCount(merged: seq<Bar>, bars: seq<Bar>, hits: seq<int>, missing: seq<TimeRange>, z: Bar)
    requires BarsOfDays(merged, bars, hits)
    ensures multiset(merged + Fetched(missing, bars))[z] == Returned(hits, missing, bars, z)
  {
    assert multiset(merged)[z] == if DayOf(z.ts) in hits then multiset(bars)[z] else 0;
    if missing != [] {
      InWindowCount(bars, missing[0].start, missing[|missing| - 1].end, z);
    }
  }

  /** The call once its arguments are checked and the range is split. */
  method Serve(cache: MemoryCache, stock: string, period: string, w: seq<TimeRange>, ghost start: int, ghost end: int,
               source: Source, down: bool, ttl: int)
    returns (r: Response, ghost hits: seq<int>, missing: seq<TimeRange>)
    requires Covers(w, start, end)
    modifies cache
    ensures old(cache.clock) <= cache.clock && Sorted(w, hits, missing)
    ensures if down && missing != [] then FetchFailed(r) else r.Served?
    ensures forall d :: d in hits ==> LiveAt(old(cache.data), Key(stock, period, d), old(cache.clock))
    ensures forall d :: d in Days(missing) ==> !LiveAt(old(cache.data), Key(stock, period, d), cache.clock)
    ensures !r.Served? ==> cache.data == Kept(old(cache.data), stock, period, missing)
    ensures r.Served? ==>
      WrittenBack(Kept(old(cache.data), stock, period, missing), cache.data, stock, period, missing,
                  Fetched(missing, source(stock, period)))
    ensures r.Served? ==>
      r.bars == Joined(old(cache.data), stock, period, hits) + Fetched(missing, source(stock, period))
    ensures r.Partial? ==> r.bars == Joined(old(cache.data), stock, period, hits) != []
    ensures r.AllSourcesFailed? ==> Joined(old(cache.data), stock, period, hits) == []
    ensures r.Served? ==>
      ExpireWithin(cache.data, stock, period, missing, old(cache.clock) + Lifetime(ttl), cache.clock + Lifetime(ttl))
    ensures Agrees(Kept(old(cache.data), stock, period, missing), source) && r.Served? ==>
      forall z :: multiset(r.bars)[z] == Returned(hits, missing, source(stock, period), z)
    ensures Agrees(Kept(old(cache.data), stock, period, missing), source) && r.Partial? ==>
      r.bars != [] && BarsOfDays(r.bars, source(stock, period), hits)
    ensures Agrees(Kept(old(cache.data), stock, period, missing), source) && r.AllSourcesFailed? ==>
      BarsOfDays([], source(stock, period), hits)
  {
    var merged;
    merged, missing, hits := LookUp(cache, stock, period, w, start, end, source);
    ghost var bars := source(stock, period);
    HitsRight(old(cache.data), stock, period, w, hits, missing, source);
    if Agrees(Kept(old(cache.data), stock, period, missing), source) {
      forall z ensures multiset(merged + Fetched(missing, bars))[z] == Returned(hits, missing, bars, z) {
        ReturnedCount(merged, bars, hits, missing, z);
      }
    }
    if |missing| > 0 {
      var lo, hi := Span(missing, w, start, end);
      if down {
        return (if |merged| > 0 then Partial(merged) else AllSourcesFailed), hits, missing;
      }
      var klines := InWindow(source(stock, period), lo, hi);
      Store(cache, stock, period, missing, klines, ttl);
      r := Served(merged + klines);
    } else {
      assert merged + [] == merged;
      r := Served(merged);
    }
  }

  /** Where the kept entries agree with the source, the entries of the hit days do. */
  lemma HitsRight(was: map<Key, Entry>, stock: string, period: string, w: seq<TimeRange>, hits: seq<int>,
                  missing: seq<TimeRange>, source: Source)
    requires Sorted(w, hits, missing) && forall d :: d in hits ==> Key(stock, period, d) in was
    ensures Agrees(Kept(was, stock, period, missing), source) ==>
      forall d :: d in hits ==> EntryRight(was, Key(stock, period, d), source)
  {
    forall d | d in hits && Agrees(Kept(was, stock, period, missing), source)
      ensures EntryRight(was, Key(stock, period, d), source) {
      assert Key(stock, period, d) in Kept(was, stock, period, missing);
    }
  }

  /** The arguments pass the checks. */
  predicate Asks(stock: string, period: string, start: int, end: int)
  {
    stock != "" && period != "" && start < end
  }

  /**
   `GetKLine`.  Cached days are merged, one ranged fetch covers the missing ones, and every missing day
   is written back.  Hits and misses tile the range; hits were live at the beginning, misses are not
   live at the end.  The cache then agrees with the source if and only if the fetch brought in whole
   days.  Every bar comes back its exact number of times; for a day-aligned range that is twice on the
   hit days strictly inside the fetched span and once on the others.
   */
  method GetKLine(cache: MemoryCache, stock: string, period: string, start: int, end: int,
                  source: Source, down: bool, ttl: int)
    returns (r: Response, ghost hits: seq<int>, ghost missing: seq<TimeRange>)
    modifies cache
    ensures old(cache.clock) <= cache.clock
    ensures r.EmptyStock? <==> stock == ""
    ensures r.EmptyPeriod? <==> stock != "" && period == ""
    ensures r.EmptyRange? <==> stock != "" && period != "" && end <= start
    ensures FetchFailed(r) <==> Asks(stock, period, start, end) && down && missing != []
    ensures if Asks(stock, period, start, end) then Tiles(hits, missing, start, end) else hits == [] && missing == []
    ensures forall d :: d in hits ==> LiveAt(old(cache.data), Key(stock, period, d), old(cache.clock))
    ensures forall d :: d in Days(missing) ==> !LiveAt(old(cache.data), Key(stock, period, d), cache.clock)
    ensures !r.Served? ==> cache.data == Kept(old(cache.data), stock, period, missing)
    ensures r.Served? ==>
      WrittenBack(Kept(old(cache.data), stock, period, missing), cache.data, stock, period, missing,
                  Fetched(missing, source(stock, period)))
    ensures r.Served? ==>
      r.bars == Joined(old(cache.data), stock, period, hits) + Fetched(missing, source(stock, period))
    ensures r.Partial? ==> r.bars == Joined(old(cache.data), stock, period, hits) != []
    ensures r.AllSourcesFailed? ==> Joined(old(cache.data), stock, period, hits) == []
    ensures r.Served? ==>
      ExpireWithin(cache.data, stock, period, missing, old(cache.clock) + Lifetime(ttl), cache.clock + Lifetime(ttl))
    ensures r.Served? ==> forall d :: d in Days(missing) ==>
      var k := Key(stock, period, d);
      && k in cache.data
      && old(cache.clock) + (if ttl > 0 then ttl else 1000) <= cache.data[k].expiresAt
      && cache.data[k].expiresAt <= cache.clock + (if ttl > 0 then ttl else 1000)
    ensures r.Served? ==> forall m :: m in missing ==>
      WindowHeld(cache.data, Key(stock, period, DayOf(m.start)), source(stock, period), m)
    ensures Agrees(Kept(old(cache.data), stock, period, missing), source) && r.Served? ==>
      (Agrees(cache.data, source) <==> WholeDaysFetched(missing, source(stock, period)))
    ensures Aligned(start) && Aligned(end) && Agrees(old(cache.data), source) ==> Agrees(cache.data, source)
    ensures Agrees(Kept(old(cache.data), stock, period, missing), source) && r.Served? ==>
      forall z :: multiset(r.bars)[z] == Returned(hits, missing, source(stock, period), z)
    ensures Aligned(start) && Aligned(end) && Agrees(old(cache.data), source) && r.Served? ==>
      forall z :: multiset(r.bars)[z] == Copies(hits, missing, start, end, source(stock, period), z)
    ensures Agrees(Kept(old(cache.data), stock, period, missing), source) && r.Partial? ==>
      r.bars != [] && BarsOfDays(r.bars, source(stock, period), hits)
    ensures Agrees(Kept(old(cache.data), stock, period, missing), source) && r.AllSourcesFailed? ==>
      BarsOfDays([], source(stock, period), hits)
  {
    hits, missing := [], [];
    assert Kept(cache.data, stock, period, []) == cache.data;
    if stock == "" {
      return EmptyStock, hits, missing;
    }
    if period == "" {
      return EmptyPeriod, hits, missing;
    }
    if end <= start {
      return EmptyRange, hits, missing;
    }
    var days := SplitByDay(start, end);
    ghost var was := cache.data;
    r, hits, missing := Serve(cache, stock, period, days, start, end, source, down, ttl);
    ghost var bars := source(stock, period);
    SortedTiles(days, start, end, hits, missing);
    ghost var kept := Kept(was, stock, period, missing);
    if r.Served? {
      AllWindowsHeld(days, start, end, missing, bars, kept, cache.data, stock, period);
      WrittenExpire(cache.data, stock, period, missing, old(cache.clock) + Lifetime(ttl), cache.clock + Lifetime(ttl));
      if Agrees(kept, source) {
        WriteBackAgreesIff(days, start, end, missing, source, kept, cache.data, stock, period);
      }
    }
    if Aligned(start) && Aligned(end) && Agrees(was, source) {
      EndsWholeIff(hits, missing, start, end);
      AlignedCopies(hits, missing, start, end, bars);
    }
  }

  /** For a day-aligned range the returned copies are the doubled ones. */
  lemma AlignedCopies(hits: seq<int>, missing: seq<TimeRange>, start: int, end: int, bars: seq<Bar>)
    requires start < end && Tiles(hits, missing, start, end) && Aligned(start) && Aligned(end)
    ensures forall z :: Returned(hits, missing, bars, z) == Copies(hits, missing, start, end, bars, z)
  {
    forall z ensures Returned(hits, missing, bars, z) == Copies(hits, missing, start, end, bars, z) {
      var d := DayOf(z.ts);
      assert start <= z.ts < end <==> DayOf(start) <= d <= DayOf(end - 1);
      if missing != [] {
        SpanExact(hits, missing, start, end, z.ts);
      }
    }
  }

  lemma WrittenExpire(data: map<Key, Entry>, stock: string, period: string, missing: seq<TimeRange>, first: int,
                      last: int)
    requires ExpireWithin(data, stock, period, missing, first, last)
    ensures forall d :: d in Days(missing) ==>
      Key(stock, period, d) in data && first <= data[Key(stock, period, d)].expiresAt <= last
  {
    forall d | d in Days(missing) ensures ExpiresWithin(data, Key(stock, period, d), first, last) {
      var j :| 0 <= j < |missing| && Days(missing)[j] == d;
      assert ExpiresWithin(data, Key(stock, period, DayOf(missing[j].start)), first, last);
    }
  }

  ghost predicate WindowHeld(data: map<Key, Entry>, k: Key, bars: seq<Bar>, m: TimeRange)
  {
    k in data && data[k].value == InWindow(bars, m.start, m.end)
  }

  lemma AllWindowsHeld(w: seq<TimeRange>, start: int, end: int, missing: seq<TimeRange>, bars: seq<Bar>,
                       was: map<Key, Entry>, data: map<Key, Entry>, stock: string, period: string)
    requires Covers(w, start, end) && Ascending(Days(missing)) && forall x :: x in missing ==> x in w
    requires WrittenBack(was, data, stock, period, missing, Fetched(missing, bars))
    ensures forall m :: m in missing ==> WindowHeld(data, Key(stock, period, DayOf(m.start)), bars, m)
  {
    forall m | m in missing ensures WindowHeld(data, Key(stock, period, DayOf(m.start)), bars, m) {
      var i :| 0 <= i < |missing| && missing[i] == m;
      assert HoldsDay(data, Key(stock, period, DayOf(missing[i].start)), Fetched(missing, bars));
      WrittenValue(w, start, end, missing, bars, m);
    }
  }

  // --- exactly when a call is right -----------------------------------------------------------

  /** The bars returned are those of the range exactly when no hit day has a bar outside it. */
  lemma ServedRangeIff(hits: seq<int>, missing: seq<TimeRange>, start: int, end: int, bars: seq<Bar>, served: seq<Bar>)
    requires start < end && Tiles(hits, missing, start, end)
    requires forall z :: multiset(served)[z] == Returned(hits, missing, bars, z)
    ensures SameBars(served, InWindow(bars, start, end)) <==> HitsInside(hits, bars, start, end)
  {
    forall z ensures z in served <==> z in bars && (DayOf(z.ts) in hits || start <= z.ts < end) {
      assert z in served <==> z in multiset(served);
      assert multiset(served)[z] == Returned(hits, missing, bars, z);
      SpanInside(hits, missing, start, end, z.ts);
    }
    forall z ensures z in InWindow(bars, start, end) <==> z in bars && start <= z.ts < end {
      InWindowCount(bars, start, end, z);
      assert z in InWindow(bars, start, end) <==> z in multiset(InWindow(bars, start, end));
    }
    if SameBars(served, InWindow(bars, start, end)) {
      forall z | z in bars && DayOf(z.ts) in hits ensures start <= z.ts < end {
        assert z in served <==> z in InWindow(bars, start, end);
      }
    }
  }

  ghost predicate HitsInside(hits: seq<int>, bars: seq<Bar>, start: int, end: int)
  {
    forall z :: z in bars && DayOf(z.ts) in hits ==> start <= z.ts < end
  }

  /** The fetched span lies in the range and takes in everything of it outside the hit days. */
  lemma SpanInside(hits: seq<int>, missing: seq<TimeRange>, start: int, end: int, t: int)
    requires start < end && Tiles(hits, missing, start, end)
    ensures missing != [] && missing[0].start <= t < missing[|missing| - 1].end ==> start <= t < end
    ensures start <= t < end && DayOf(t) !in hits ==>
      missing != [] && missing[0].start <= t < missing[|missing| - 1].end
  {
    if missing != [] {
      var l := |missing| - 1;
      assert missing[0] in missing && missing[l] in missing;
      assert missing[0] == DayWindow(start, end, DayOf(missing[0].start));
      assert missing[l] == DayWindow(start, end, DayOf(missing[l].start));
    }
    if start <= t < end && DayOf(t) !in hits {
      var d := DayOf(t);
      assert DayOf(start) <= d <= DayOf(end - 1);
      assert d in Days(missing);
      MissingBetween(missing, d);
    }
  }

  function CachedBars(data: map<Key, Entry>, k: Key): seq<Bar>
  {
    if k in data then data[k].value else []
  }

  /** No bar cached for a hit day lies outside the range. */
  ghost predicate CachedInside(kept: map<Key, Entry>, stock: string, period: string, hits: seq<int>,
                               start: int, end: int)
  {
    forall d, z :: d in hits && z in CachedBars(kept, Key(stock, period, d)) ==> start <= z.ts < end
  }

  /** The kept entries are those of a call with these hits and misses. */
  ghost predicate Fits(kept: map<Key, Entry>, stock: string, period: string, hits: seq<int>, missing: seq<TimeRange>)
  {
    && (forall d :: d in hits ==> Key(stock, period, d) in kept)
    && (forall d :: d in Days(missing) ==> Key(stock, period, d) !in kept)
  }

  lemma InDayBars(bars: seq<Bar>, d: int, z: Bar)
    ensures z in DayBars(bars, d) <==> z in bars && DayOf(z.ts) == d
  {
    InWindowCount(bars, DayStart(d), DayStart(d + 1), z);
    DayBounds(z.ts, d);
    assert z in DayBars(bars, d) <==> z in multiset(DayBars(bars, d));
    assert z in bars <==> z in multiset(bars);
  }

  /**
   What a call returns is right for every source that the kept entries agree with, or for none: it is
   right if and only if no bar cached for a hit day lies outside the range.
   */
  lemma ServedRightIff(kept: map<Key, Entry>, stock: string, period: string, hits: seq<int>, start: int, end: int,
                       source: Source)
    requires Agrees(kept, source) && forall d :: d in hits ==> Key(stock, period, d) in kept
    ensures HitsInside(hits, source(stock, period), start, end) <==>
            CachedInside(kept, stock, period, hits, start, end)
  {
    var bars := source(stock, period);
    forall d, z | d in hits ensures z in CachedBars(kept, Key(stock, period, d)) <==> z in bars && DayOf(z.ts) == d {
      assert kept[Key(stock, period, d)].value == DayBars(bars, d);
      InDayBars(bars, d, z);
    }
  }

  /** The returned bars are those of the range, and what is cached agrees with the source. */
  ghost predicate RightFor(hits: seq<int>, missing: seq<TimeRange>, bars: seq<Bar>, start: int, end: int)
  {
    HitsInside(hits, bars, start, end) && WholeDaysFetched(missing, bars)
  }

  /**
   The exact condition for a call on a given cache: it is right in both respects for every source that
   the kept entries agree with, if and only if no cached bar of a hit day lies outside the range and no
   missing day is cut.
   */
  lemma CallRightIff(kept: map<Key, Entry>, stock: string, period: string, hits: seq<int>, missing: seq<TimeRange>,
                     start: int, end: int, source: Source)
    requires start < end && Tiles(hits, missing, start, end)
    requires Fits(kept, stock, period, hits, missing) && Agrees(kept, source)
    ensures (forall other: Source :: Agrees(kept, other) ==> RightFor(hits, missing, other(stock, period), start, end))
            <==> CachedInside(kept, stock, period, hits, start, end) && EndsWhole(missing, start, end)
  {
    WriteRightIffEndsWhole(kept, stock, period, hits, missing, start, end, source);
    forall other: Source | Agrees(kept, other)
      ensures HitsInside(hits, other(stock, period), start, end) <==>
              CachedInside(kept, stock, period, hits, start, end)
    {
      ServedRightIff(kept, stock, period, hits, start, end, other);
    }
    if forall other: Source :: Agrees(kept, other) ==> RightFor(hits, missing, other(stock, period), start, end) {
      assert RightFor(hits, missing, source(stock, period), start, end);
      forall other: Source | Agrees(kept, other) ensures WholeDaysFetched(missing, other(stock, period)) {
        assert RightFor(hits, missing, other(stock, period), start, end);
      }
    }
  }

  /** A call with these hits and misses is right, whatever the cache holds and whatever source it agrees with. */
  ghost predicate AlwaysRight(stock: string, period: string, hits: seq<int>, missing: seq<TimeRange>,
                              start: int, end: int)
  {
    forall kept: map<Key, Entry>, source: Source ::
      Fits(kept, stock, period, hits, missing) && Agrees(kept, source) ==>
        RightFor(hits, missing, source(stock, period), start, end)
  }

  /**
   Knowing only which days are hits, not what is cached for them: a call is right in both respects for
   every cache and every source it agrees with, if and only if its range is day-aligned.
   */
  lemma RightIffAligned(stock: string, period: string, hits: seq<int>, missing: seq<TimeRange>, start: int, end: int)
    requires start < end && Tiles(hits, missing, start, end)
    ensures AlwaysRight(stock, period, hits, missing, start, end) <==> Aligned(start) && Aligned(end)
  {
    if Aligned(start) && Aligned(end) {
      forall kept: map<Key, Entry>, source: Source
        | Fits(kept, stock, period, hits, missing) && Agrees(kept, source)
        ensures RightFor(hits, missing, source(stock, period), start, end)
      {
        AlignedRight(hits, missing, source(stock, period), start, end);
      }
    }
    if AlwaysRight(stock, period, hits, missing, start, end) {
      EndInside(stock, period, hits, missing, start, end, DayStart(DayOf(start)));
      EndInside(stock, period, hits, missing, start, end, DayStart(DayOf(end - 1) + 1) - 1);
      assert DayOf(start) in hits || DayOf(start) in Days(missing);
      assert DayOf(end - 1) in hits || DayOf(end - 1) in Days(missing);
    }
  }

  lemma AlignedRight(hits: seq<int>, missing: seq<TimeRange>, bars: seq<Bar>, start: int, end: int)
    requires start < end && Tiles(hits, missing, start, end) && Aligned(start) && Aligned(end)
    ensures RightFor(hits, missing, bars, start, end)
  {
    EndsWholeIff(hits, missing, start, end);
    forall z | z in bars && DayOf(z.ts) in hits ensures start <= z.ts < end {
      assert DayOf(start) <= DayOf(z.ts) <= DayOf(end - 1);
    }
  }

  /** The cache that holds for every hit day what a source with these bars has. */
  function Filled(stock: string, period: string, hits: seq<int>, bars: seq<Bar>): map<Key, Entry>
  {
    map d | d in hits :: Key(stock, period, d) := Entry(DayBars(bars, d), 0)
  }

  /** If calls with these hits are always right, no missing window is cut, and a hit day's times lie inside. */
  lemma EndInside(stock: string, period: string, hits: seq<int>, missing: seq<TimeRange>, start: int, end: int, t: int)
    requires start < end && Tiles(hits, missing, start, end)
    requires AlwaysRight(stock, period, hits, missing, start, end)
    ensures EndsWhole(missing, start, end) && (DayOf(t) in hits ==> start <= t < end)
  {
    var bars := [Bar(t, "")];
    var source: Source := (s: string, p: string) => bars;
    var kept := Filled(stock, period, hits, bars);
    assert Fits(kept, stock, period, hits, missing) && Agrees(kept, source);
    assert RightFor(hits, missing, source(stock, period), start, end);
    assert bars[0] in bars;
    forall other: Source | Agrees(kept, other) ensures WholeDaysFetched(missing, other(stock, period)) {
      assert RightFor(hits, missing, other(stock, period), start, end);
    }
    WriteRightIffEndsWhole(kept, stock, period, hits, missing, start, end, source);
  }

  /**
   A concrete failing call: the second half of day 0 is asked for while the source's only bar lies in
   the first half.  The empty half day is cached as the whole day, and the bar is lost to the next
   aligned call as long as the entry lives.
   */
  method HalfDayCall(now: int, ttl: int, bar: Bar) returns (cache: MemoryCache, r: Response)
    requires bar.ts == 0
    ensures fresh(cache) && r == Served([])
    ensures Key("s", "day", 0) in cache.data && cache.data[Key("s", "day", 0)].value == []
    ensures !Agrees(cache.data, (s: string, p: string) => [bar])
  {
    cache := new MemoryCache(now);
    var source: Source := (s: string, p: string) => [bar];
    ghost var hits, missing;
    r, hits, missing := GetKLine(cache, "s", "day", 43_200_000_000_000, 86_400_000_000_000, source, false, ttl);
    NoHits(hits);
    HalfDay(missing);
    BarBefore(missing, bar);
    assert WindowHeld(cache.data, Key("s", "day", 0), [bar], TimeRange(43_200_000_000_000, 86_400_000_000_000));
    assert forall z :: multiset(r.bars)[z] == Returned(hits, missing, [bar], z);
    assert r.bars == [];
  }

  /** Without hits the half day is the one missing window. */
  lemma HalfDay(missing: seq<TimeRange>)
    requires Tiles([], missing, 43_200_000_000_000, 86_400_000_000_000)
    ensures missing == [TimeRange(43_200_000_000_000, 86_400_000_000_000)]
  {
    MissingWindow([], missing, 43_200_000_000_000, 86_400_000_000_000, 0);
    forall j | 0 <= j < |missing| ensures Days(missing)[j] == 0 {
      assert Days(missing)[j] in Days(missing);
    }
    assert missing[0] in missing;
    if |missing| > 1 {
      DaysDiffer(missing);
    }
  }

  lemma DaysDiffer(missing: seq<TimeRange>)
    requires |missing| > 1 && Ascending(Days(missing))
    ensures Days(missing)[0] < Days(missing)[1]
  {
  }

  lemma BarBefore(missing: seq<TimeRange>, bar: Bar)
    requires missing == [TimeRange(43_200_000_000_000, 86_400_000_000_000)] && bar.ts == 0
    ensures InWindow([bar], 43_200_000_000_000, 86_400_000_000_000) == [] && DayBars([bar], 0) == [bar]
    ensures forall z :: Returned([], missing, [bar], z) == 0
  {
    BarOutside(bar);
  }

  /**
   A concrete call that returns too much: an aligned call has cached day 0 with its bar at time 0, and
   while the entry lives a call for the second half of the day returns that bar.
   */
  method HalfDayHit(now: int, ttl: int, bar: Bar) returns (cache: MemoryCache, r: Response)
    requires bar.ts == 0
    ensures fresh(cache)
    ensures cache.clock < now + (if ttl > 0 then ttl else 1000) ==> r == Served([bar])
    ensures InWindow([bar], 43_200_000_000_000, 86_400_000_000_000) == []
  {
    cache := new MemoryCache(now);
    var source: Source := (s: string, p: string) => [bar];
    ghost var hits, missing;
    r, hits, missing := GetKLine(cache, "s", "day", 0, 86_400_000_000_000, source, false, ttl);
    NoHits(hits);
    assert 0 in Days(missing);
    assert Agrees(cache.data, source);
    r, hits, missing := SecondHalf(cache, source, bar, ttl, now + if ttl > 0 then ttl else 1000);
    BarOutside(bar);
  }

  /** Day 0 is cached and lives until a moment. */
  ghost predicate LivesUntil(data: map<Key, Entry>, t: int)
  {
    Key("s", "day", 0) in data && t <= data[Key("s", "day", 0)].expiresAt
  }

  method SecondHalf(cache: MemoryCache, source: Source, ghost bar: Bar, ttl: int, ghost t: int)
    returns (r: Response, ghost hits: seq<int>, ghost missing: seq<TimeRange>)
    requires Agrees(cache.data, source) && source("s", "day") == [bar] && bar.ts == 0 && LivesUntil(cache.data, t)
    modifies cache
    ensures cache.clock < t ==> r == Served([bar])
  {
    r, hits, missing := GetKLine(cache, "s", "day", 43_200_000_000_000, 86_400_000_000_000, source, false, ttl);
    assert 0 in hits || 0 in Days(missing);
    if cache.clock < t {
      OnlyHit(hits, missing);
      assert forall z :: multiset(r.bars)[z] == Returned(hits, missing, [bar], z);
      OneBarOnly(r.bars, bar);
    }
  }

  lemma OnlyHit(hits: seq<int>, missing: seq<TimeRange>)
    requires Tiles(hits, missing, 43_200_000_000_000, 86_400_000_000_000) && 0 in hits
    ensures missing == []
  {
    if missing != [] {
      Ordering.HeadIn(missing);
      MissingDay(hits, missing, 43_200_000_000_000, 86_400_000_000_000, missing[0]);
    }
  }

  lemma OneBarOnly(s: seq<Bar>, bar: Bar)
    requires forall z :: multiset(s)[z] == multiset([bar])[z]
    ensures s == [bar]
  {
    assert multiset(s) == multiset([bar]);
    assert |s| == |multiset(s)| == |multiset([bar])| == 1;
    Ordering.HeadIn(s);
  }

  lemma NoHits(hits: seq<int>)
    requires forall d :: d !in hits
    ensures hits == []
  {
    if hits != [] {
      var d := hits[0];
      Ordering.HeadIn(hits);
      assert false;
    }
  }

  lemma BarOutside(bar: Bar)
    requires bar.ts == 0
    ensures InWindow([bar], 43_200_000_000_000, 86_400_000_000_000) == [] && DayBars([bar], 0) == [bar]
  {
    assert [bar] == [] + [bar];
    InWindowAppend([], bar, 43_200_000_000_000, 86_400_000_000_000);
    InWindowAppend([], bar, 0, 86_400_000_000_000);
  }

  // --- the same call again --------------------------------------------------------------------

  /** The entry was there before the calls and outlives a moment. */
  ghost predicate Outlives(data: map<Key, Entry>, k: Key, t: int)
  {
    k in data && t < data[k].expiresAt
  }

  ghost predicate AllOutlive(data: map<Key, Entry>, stock: string, period: string, days: seq<int>, t: int)
  {
    forall d :: d in days ==> Outlives(data, Key(stock, period, d), t)
  }

  /**
   The same call twice.  Unless its own entry runs out, no day is fetched twice within the lifetime: if
   the second call ends less than the lifetime after the first one began, the days that the first call
   fetched are hits of the second, and so are those it found cached, as far as their entries live.  When
   that is all of them, the second call is served even with all sources down.
   */
  method CallTwice(cache: MemoryCache, stock: string, period: string, start: int, end: int, source: Source,
                   downAgain: bool, ttl: int)
    returns (r1: Response, r2: Response, ghost fetched: seq<TimeRange>, ghost cached: seq<int>, ghost hits: seq<int>)
    requires Asks(stock, period, start, end) && ttl > 0
    modifies cache
    ensures r1.Served? && Tiles(cached, fetched, start, end)
    ensures cache.clock < old(cache.clock) + ttl ==> forall d :: d in Days(fetched) ==> d in hits
    ensures forall d :: d in cached && Outlives(old(cache.data), Key(stock, period, d), cache.clock) ==> d in hits
    ensures cache.clock < old(cache.clock) + ttl && AllOutlive(old(cache.data), stock, period, cached, cache.clock) ==>
      r2.Served? && forall d :: DayOf(start) <= d <= DayOf(end - 1) ==> d in hits
    ensures old(cache.data) == map[] && cache.clock < old(cache.clock) + ttl ==> r2.Served?
  {
    r1, cached, fetched := GetKLine(cache, stock, period, start, end, source, false, ttl);
    ghost var missing;
    ghost var was, between := old(cache.data), cache.data;
    forall d | d in cached
      ensures Key(stock, period, d) in between && between[Key(stock, period, d)] == was[Key(stock, period, d)]
    {
      CachedKept(was, between, stock, period, cached, fetched, source, start, end, d);
    }
    r2, hits, missing := GetKLine(cache, stock, period, start, end, source, downAgain, ttl);
    forall d | d in Days(fetched) && cache.clock < old(cache.clock) + ttl ensures d in hits {
      assert LiveAt(between, Key(stock, period, d), cache.clock);
      assert d in cached || d in Days(fetched);
    }
    forall d | d in cached && Outlives(was, Key(stock, period, d), cache.clock) ensures d in hits {
      assert LiveAt(between, Key(stock, period, d), cache.clock);
      assert d in cached || d in Days(fetched);
    }
    NothingMissing(hits, missing, start, end);
    if was == map[] {
      NoHits(cached);
    }
  }

  /** A call does not touch the entries of the days it finds cached. */
  lemma CachedKept(was: map<Key, Entry>, data: map<Key, Entry>, stock: string, period: string, cached: seq<int>,
                   fetched: seq<TimeRange>, source: Source, start: int, end: int, d: int)
    requires Tiles(cached, fetched, start, end) && d in cached && Key(stock, period, d) in was
    requires WrittenBack(Kept(was, stock, period, fetched), data, stock, period, fetched,
                         Fetched(fetched, source(stock, period)))
    ensures Key(stock, period, d) in data && data[Key(stock, period, d)] == was[Key(stock, period, d)]
  {
    assert Key(stock, period, d) in Kept(was, stock, period, fetched);
  }

  /** When every day of the range is a hit, nothing is missing. */
  lemma NothingMissing(hits: seq<int>, missing: seq<TimeRange>, start: int, end: int)
    requires start < end && Tiles(hits, missing, start, end)
    ensures (forall d :: DayOf(start) <= d <= DayOf(end - 1) ==> d in hits) ==> missing == []
  {
    if missing != [] {
      Ordering.HeadIn(missing);
      MissingDay(hits, missing, start, end, missing[0]);
    }
  }

  // --- any number of calls ------------------------------------------------------------------

  datatype Call = Call(stock: string, period: string, start: int, end: int, down: bool)

  /** From an empty cache on, any sequence of day-aligned calls, with entries expiring in between, keeps agreement. */
  method Session(now: int, calls: seq<Call>, source: Source, ttl: int) returns (cache: MemoryCache, rs: seq<Response>)
    requires forall i :: 0 <= i < |calls| ==> Aligned(calls[i].start) && Aligned(calls[i].end)
    ensures fresh(cache) && Agrees(cache.data, source)
    ensures |rs| == |calls|
    ensures forall i :: 0 <= i < |calls| ==> Answers(rs[i], calls[i], source(calls[i].stock, calls[i].period))
  {
    cache := new MemoryCache(now);
    rs := [];
    for i := 0 to |calls|
      invariant fresh(cache) && Agrees(cache.data, source)
      invariant |rs| == i
      invariant forall j :: 0 <= j < i ==> Answers(rs[j], calls[j], source(calls[j].stock, calls[j].period))
    {
      var r := AlignedCall(cache, calls[i], source, ttl);
      rs := rs + [r];
    }
  }

  /** One day-aligned call on a cache that agrees with the source. */
  method AlignedCall(cache: MemoryCache, c: Call, source: Source, ttl: int) returns (r: Response)
    requires Aligned(c.start) && Aligned(c.end) && Agrees(cache.data, source)
    modifies cache
    ensures Agrees(cache.data, source)
    ensures Answers(r, c, source(c.stock, c.period))
  {
    ghost var hits, missing;
    ghost var bars := source(c.stock, c.period);
    r, hits, missing := GetKLine(cache, c.stock, c.period, c.start, c.end, source, c.down, ttl);
    if r.Served? {
      CopiesSameBars(r.bars, hits, missing, c.start, c.end, bars);
      CopiesAtMostTwice(r.bars, hits, missing, c.start, c.end, bars);
    }
    if r.Partial? {
      PartialInside(r.bars, hits, missing, c.start, c.end, bars);
    }
  }

  /**
   What a day-aligned call answers.  Malformed arguments have their own errors; otherwise the answer is
   served unless all sources are down, with exactly the source's bars of the range as a set, each at
   least as often as the source has it and at most twice as often.  With the sources down, a partial
   answer holds bars of the range only.
   */
  ghost predicate Answers(r: Response, c: Call, bars: seq<Bar>)
  {
    && (r.EmptyStock? <==> c.stock == "")
    && (r.EmptyPeriod? <==> c.stock != "" && c.period == "")
    && (r.EmptyRange? <==> c.stock != "" && c.period != "" && c.end <= c.start)
    && (Asks(c.stock, c.period, c.start, c.end) && !c.down ==> r.Served?)
    && (r.Served? ==> SameBars(r.bars, InWindow(bars, c.start, c.end)))
    && (r.Served? ==> AtMostTwice(r.bars, InWindow(bars, c.start, c.end)))
    && (r.Partial? ==> c.down && r.bars != [] && WithinBars(r.bars, InWindow(bars, c.start, c.end)))
    && (r.AllSourcesFailed? ==> c.down)
  }

  ghost predicate AtMostTwice(a: seq<Bar>, b: seq<Bar>)
  {
    forall z :: multiset(b)[z] <= multiset(a)[z] <= multiset(b)[z] + multiset(b)[z]
  }

  /** No bar of `a` that `b` does not have as often. */
  ghost predicate WithinBars(a: seq<Bar>, b: seq<Bar>)
  {
    forall z :: multiset(a)[z] <= multiset(b)[z]
  }

  lemma CopiesAtMostTwice(bars: seq<Bar>, hits: seq<int>, missing: seq<TimeRange>, start: int, end: int, all: seq<Bar>)
    requires forall z :: multiset(bars)[z] == Copies(hits, missing, start, end, all, z)
    ensures AtMostTwice(bars, InWindow(all, start, end))
  {
    forall z ensures multiset(InWindow(all, start, end))[z] <= multiset(bars)[z] <=
                     multiset(InWindow(all, start, end))[z] + multiset(InWindow(all, start, end))[z]
    {
      InWindowCount(all, start, end, z);
      assert multiset(bars)[z] == Copies(hits, missing, start, end, all, z);
    }
  }

  lemma PartialInside(bars: seq<Bar>, hits: seq<int>, missing: seq<TimeRange>, start: int, end: int, all: seq<Bar>)
    requires start < end && Aligned(start) && Aligned(end) && Tiles(hits, missing, start, end)
    requires BarsOfDays(bars, all, hits)
    ensures WithinBars(bars, InWindow(all, start, end))
  {
    forall z ensures multiset(bars)[z] <= multiset(InWindow(all, start, end))[z] {
      InWindowCount(all, start, end, z);
      HitInside(hits, missing, start, end, z.ts);
      assert multiset(bars)[z] == if DayOf(z.ts) in hits then multiset(all)[z] else 0;
    }
  }

  lemma HitInside(hits: seq<int>, missing: seq<TimeRange>, start: int, end: int, t: int)
    requires start < end && Aligned(start) && Aligned(end) && Tiles(hits, missing, start, end)
    ensures DayOf(t) in hits ==> start <= t < end
  {
    assert DayOf(t) in hits ==> DayOf(start) <= DayOf(t) <= DayOf(end - 1);
  }

  /** The same bars, whatever their order and multiplicity. */
  ghost predicate SameBars(a: seq<Bar>, b: seq<Bar>)
  {
    forall z :: z in a <==> z in b
  }

  lemma CopiesSameBars(bars: seq<Bar>, hits: seq<int>, missing: seq<TimeRange>, start: int, end: int, all: seq<Bar>)
    requires forall z :: multiset(bars)[z] == Copies(hits, missing, start, end, all, z)
    ensures SameBars(bars, InWindow(all, start, end))
  {
    forall z ensures z in bars <==> z in InWindow(all, start, end) {
      InWindowCount(all, start, end, z);
      assert multiset(bars)[z] == Copies(hits, missing, start, end, all, z);
      assert z in bars <==> z in multiset(bars);
      assert z in InWindow(all, start, end) <==> z in multiset(InWindow(all, start, end));
    }
  }
}
