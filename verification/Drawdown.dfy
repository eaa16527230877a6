/** The maximum drawdown of a price path, over the reals; values that are not finite are skipped. */
module Drawdown {
  import opened Wrappers

  datatype Price = Finite(v: real) | NotFinite

  /** The finite values, in order. */
  function Values(path: seq<Price>): seq<real>
  {
    if path == [] then []
    else
      var p := path[|path| - 1];
      Values(path[..|path| - 1]) + if p.Finite? then [p.v] else []
  }

  /** The values of a path are those of its parts, one after the other; a point that is not finite has none. */
  lemma {:induction false} ValuesExact(a: seq<Price>, b: seq<Price>, v: real)
    ensures Values(a + b) == Values(a) + Values(b)
    ensures Values([Finite(v)]) == [v] && Values([NotFinite]) == []
  {
    assert [Finite(v)][..0] == [] && [NotFinite][..0] == [];
    if b == [] {
      assert a + b == a;
    } else {
      ValuesExact(a, b[..|b| - 1], v);
      assert (a + b)[..|a + b| - 1] == a + b[..|b| - 1];
    }
  }

  predicate Positive(xs: seq<real>)
  {
    forall i :: 0 <= i < |xs| ==> xs[i] > 0.0
  }

  /** The drop from one value to a later one, relative to the first. */
  function Drop(from: real, to: real): real
    requires from > 0.0
  {
    (from - to) / from
  }

  /** `m` is the largest drop over all pairs of an earlier and a later value. */
  ghost predicate LargestDrop(xs: seq<real>, m: real)
    requires Positive(xs)
  {
    && (forall i, j :: 0 <= i <= j < |xs| ==> Drop(xs[i], xs[j]) <= m)
    && exists i, j :: 0 <= i <= j < |xs| && Drop(xs[i], xs[j]) == m
  }

  lemma DropMonotone(a: real, b: real, v: real)
    requires 0.0 < a <= b && v > 0.0
    ensures Drop(a, v) <= Drop(b, v) < 1.0
  {
    DropAsRatio(a, v);
    DropAsRatio(b, v);
    RatioAntitone(a, b, v);
  }

  lemma DropAsRatio(a: real, v: real)
    requires a > 0.0
    ensures Drop(a, v) == 1.0 - v / a
  {
    var q, d := v / a, Drop(a, v);
    assert q * a == v && d * a == a - v;
    assert (1.0 - q) * a == a - v;
    SameFactor(d, 1.0 - q, a);
  }

  lemma SameFactor(x: real, y: real, a: real)
    requires a > 0.0 && x * a == y * a
    ensures x == y
  {
    assert (x - y) * a == 0.0;
  }

  lemma RatioAntitone(a: real, b: real, v: real)
    requires 0.0 < a <= b && v > 0.0
    ensures 0.0 < v / b <= v / a
  {
    var q, r := v / a, v / b;
    assert q * a == v && r * b == v;
    assert r > 0.0 by { PositiveFactor(r, b); }
    assert (b - a) * r >= 0.0;
    assert r * a <= r * b;
    SmallerFactor(r, q, a);
  }

  lemma PositiveFactor(x: real, a: real)
    requires a > 0.0 && x * a > 0.0
    ensures x > 0.0
  {
  }

  lemma SmallerFactor(x: real, y: real, a: real)
    requires a > 0.0 && x * a <= y * a
    ensures x <= y
  {
    assert (y - x) * a >= 0.0;
    if x > y {
      PositiveFactor(x - y, a);
    }
  }

  lemma NoDrop(a: real)
    requires a > 0.0
    ensures Drop(a, a) == 0.0
  {
  }

  // --- the running peak ---------------------------------------------------------------------

  /** The largest value up to position `j`. */
  ghost predicate IsPeak(xs: seq<real>, j: nat, p: real)
    requires j < |xs|
  {
    (exists i :: 0 <= i <= j && xs[i] == p) && forall i :: 0 <= i <= j ==> xs[i] <= p
  }

  /** A drop from a positive running peak. */
  ghost predicate DropsTo(xs: seq<real>, j: nat, p: real, dd: real)
    requires j < |xs|
  {
    IsPeak(xs, j, p) && p > 0.0 && Drop(p, xs[j]) == dd
  }

  /** `m` is the largest drop from a positive running peak; zero when there is none below it. */
  ghost predicate WorstFromPeak(xs: seq<real>, m: real)
  {
    && m >= 0.0
    && (forall j, p, dd :: 0 <= j < |xs| && DropsTo(xs, j, p, dd) ==> dd <= m)
    && (m == 0.0 || exists j, p :: 0 <= j < |xs| && DropsTo(xs, j, p, m))
  }

  /** The loop's variables after some of the values. */
  ghost predicate Scanned(xs: seq<real>, peak: Option<real>, mdd: real)
  {
    && (peak.None? <==> xs == [])
    && (peak.Some? ==> IsPeak(xs, |xs| - 1, peak.value))
    && WorstFromPeak(xs, mdd)
  }

  /** What lies before the last value is not touched by it. */
  lemma PeaksBefore(xs: seq<real>, v: real, j: nat, p: real, dd: real)
    requires j < |xs|
    ensures IsPeak(xs + [v], j, p) <==> IsPeak(xs, j, p)
    ensures DropsTo(xs + [v], j, p, dd) <==> DropsTo(xs, j, p, dd)
  {
    assert forall i :: 0 <= i <= j ==> (xs + [v])[i] == xs[i];
  }

  lemma PeakUnique(xs: seq<real>, j: nat, p: real, q: real)
    requires j < |xs| && IsPeak(xs, j, p) && IsPeak(xs, j, q)
    ensures p == q
  {
  }

  lemma PeakNext(xs: seq<real>, peak: Option<real>, v: real)
    requires peak.None? <==> xs == []
    requires peak.Some? ==> IsPeak(xs, |xs| - 1, peak.value)
    ensures IsPeak(xs + [v], |xs|, if peak.None? || v > peak.value then v else peak.value)
  {
    var ys := xs + [v];
    assert ys[|xs|] == v;
    assert forall i :: 0 <= i < |xs| ==> ys[i] == xs[i];
    if peak.Some? {
      var i :| 0 <= i <= |xs| - 1 && xs[i] == peak.value;
      assert ys[i] == peak.value;
    }
  }

  /** One more value, through the running peak only. */
  lemma ScanNext(xs: seq<real>, peak: Option<real>, mdd: real, v: real)
    requires Scanned(xs, peak, mdd)
    ensures
      var top := if peak.None? || v > peak.value then v else peak.value;
      Scanned(xs + [v], Some(top), if top > 0.0 && Drop(top, v) > mdd then Drop(top, v) else mdd)
  {
    var ys := xs + [v];
    var top := if peak.None? || v > peak.value then v else peak.value;
    var m := if top > 0.0 && Drop(top, v) > mdd then Drop(top, v) else mdd;
    PeakNext(xs, peak, v);
    forall j, p, dd | 0 <= j < |ys| && DropsTo(ys, j, p, dd) ensures dd <= m {
      if j < |xs| {
        PeaksBefore(xs, v, j, p, dd);
      } else {
        PeakUnique(ys, j, p, top);
      }
    }
    if m != mdd {
      assert DropsTo(ys, |xs|, top, m);
    } else if mdd != 0.0 {
      var j, p :| 0 <= j < |xs| && DropsTo(xs, j, p, mdd);
      PeaksBefore(xs, v, j, p, mdd);
    }
  }

  /** The loop body for a finite value. */
  method ScanOne(peak0: Option<real>, mdd0: real, v: real, ghost xs: seq<real>) returns (peak: Option<real>, mdd: real)
    requires Scanned(xs, peak0, mdd0)
    ensures Scanned(xs + [v], peak, mdd)
  {
    ScanNext(xs, peak0, mdd0, v);
    peak, mdd := peak0, mdd0;
    if peak.None? || v > peak.value {
      peak := Some(v);
    }
    if peak.value > 0.0 {
      var dd := (peak.value - v) / peak.value;
      if dd > mdd {
        mdd := dd;
      }
    }
  }

  /**
   `MaxDrawdown`: one pass with a running peak.  Of fewer than two points there is no drawdown, else it
   is the largest drop of a finite value from a positive running peak before or at it.
   */
  method MaxDrawdown(path: seq<Price>) returns (r: Option<real>)
    ensures r.None? <==> |path| < 2
    ensures r.Some? ==> WorstFromPeak(Values(path), r.value)
  {
    if |path| < 2 {
      return None;
    }
    var peak: Option<real> := None;
    var mdd := 0.0;
    for k := 0 to |path|
      invariant Scanned(Values(path[..k]), peak, mdd)
    {
      assert path[..k + 1][..k] == path[..k];
      ghost var xs := Values(path[..k]);
      if path[k].Finite? {
        assert Values(path[..k + 1]) == xs + [path[k].v];
        peak, mdd := ScanOne(peak, mdd, path[k].v, xs);
      } else {
        assert Values(path[..k + 1]) == xs;
      }
    }
    assert path[..|path|] == path;
    r := Some(mdd);
  }

  lemma {:induction false} PeakExists(xs: seq<real>, j: nat) returns (p: real)
    requires j < |xs|
    ensures IsPeak(xs, j, p)
  {
    if j == 0 {
      p := xs[0];
    } else {
      p := PeakExists(xs, j - 1);
      if xs[j] > p {
        p := xs[j];
      }
    }
  }

  /** A path without a finite value has the result zero, not none. */
  lemma NothingFinite(m: real)
    ensures Values([NotFinite, NotFinite]) == []
    ensures WorstFromPeak(Values([NotFinite, NotFinite]), m) <==> m == 0.0
  {
    assert [NotFinite, NotFinite][..1] == [NotFinite];
    assert [NotFinite][..0] == [];
  }

  /** For positive values the single running-peak pass finds the largest drop over all pairs. */
  lemma WorstIsLargestDrop(xs: seq<real>, m: real)
    requires Positive(xs) && xs != []
    ensures WorstFromPeak(xs, m) <==> LargestDrop(xs, m)
  {
    NoDrop(xs[0]);
    if WorstFromPeak(xs, m) {
      PairsBelow(xs, m);
      if m == 0.0 {
        assert Drop(xs[0], xs[0]) == m;
      } else {
        var j, p :| 0 <= j < |xs| && DropsTo(xs, j, p, m);
        var i :| 0 <= i <= j && xs[i] == p;
        assert Drop(xs[i], xs[j]) == m;
      }
    }
    if LargestDrop(xs, m) {
      assert Drop(xs[0], xs[0]) <= m;
      PeaksBelow(xs, m);
      var i, j :| 0 <= i <= j < |xs| && Drop(xs[i], xs[j]) == m;
      var p := PeakExists(xs, j);
      DropMonotone(xs[i], p, xs[j]);
      assert DropsTo(xs, j, p, Drop(p, xs[j]));
    }
  }

  lemma PairsBelow(xs: seq<real>, m: real)
    requires Positive(xs) && WorstFromPeak(xs, m)
    ensures forall i, j :: 0 <= i <= j < |xs| ==> Drop(xs[i], xs[j]) <= m
  {
    forall i, j | 0 <= i <= j < |xs| ensures Drop(xs[i], xs[j]) <= m {
      var p := PeakExists(xs, j);
      DropMonotone(xs[i], p, xs[j]);
      assert DropsTo(xs, j, p, Drop(p, xs[j]));
    }
  }

  lemma PeaksBelow(xs: seq<real>, m: real)
    requires Positive(xs) && LargestDrop(xs, m)
    ensures forall j, p, dd :: 0 <= j < |xs| && DropsTo(xs, j, p, dd) ==> dd <= m
  {
    forall j, p, dd | 0 <= j < |xs| && DropsTo(xs, j, p, dd) ensures dd <= m {
      var i :| 0 <= i <= j && xs[i] == p;
      assert Drop(xs[i], xs[j]) <= m;
    }
  }

  /** The largest drop is unique and lies in [0, 1). */
  lemma LargestDropRange(xs: seq<real>, m: real)
    requires Positive(xs) && LargestDrop(xs, m)
    ensures 0.0 <= m < 1.0
    ensures forall n :: LargestDrop(xs, n) ==> n == m
  {
    var i, j :| 0 <= i <= j < |xs| && Drop(xs[i], xs[j]) == m;
    DropMonotone(xs[i], xs[i], xs[j]);
    NoDrop(xs[0]);
    assert Drop(xs[0], xs[0]) <= m;
    forall n | LargestDrop(xs, n) ensures n == m {
      var a, b :| 0 <= a <= b < |xs| && Drop(xs[a], xs[b]) == n;
      assert Drop(xs[a], xs[b]) <= m && Drop(xs[i], xs[j]) <= n;
    }
  }

  function Scaled(xs: seq<real>, k: real): seq<real>
  {
    seq(|xs|, i requires 0 <= i < |xs| => k * xs[i])
  }

  lemma DropScaled(a: real, v: real, k: real)
    requires a > 0.0 && k > 0.0 && k * a > 0.0
    ensures Drop(k * a, k * v) == Drop(a, v)
  {
    var d := Drop(a, v);
    assert d * a == a - v;
    assert d * (k * a) == k * (d * a) == k * (a - v) == k * a - k * v;
  }

  lemma PositiveProduct(a: real, b: real)
    requires a > 0.0 && b > 0.0
    ensures a * b > 0.0
  {
  }

  lemma PairScaled(xs: seq<real>, k: real, i: nat, j: nat)
    requires i <= j < |xs| && xs[i] > 0.0 && k > 0.0
    ensures Scaled(xs, k)[i] > 0.0 && Drop(Scaled(xs, k)[i], Scaled(xs, k)[j]) == Drop(xs[i], xs[j])
  {
    PositiveProduct(k, xs[i]);
    DropScaled(xs[i], xs[j], k);
  }

  /** Changing the price unit does not change the drawdown. */
  lemma ScaleInvariant(xs: seq<real>, m: real, k: real)
    requires Positive(xs) && LargestDrop(xs, m) && k > 0.0
    ensures Positive(Scaled(xs, k)) && LargestDrop(Scaled(xs, k), m)
  {
    var ys := Scaled(xs, k);
    forall i | 0 <= i < |ys| ensures ys[i] > 0.0 {
      PositiveProduct(k, xs[i]);
    }
    forall i, j | 0 <= i <= j < |ys| ensures Drop(ys[i], ys[j]) == Drop(xs[i], xs[j]) {
      PairScaled(xs, k, i, j);
    }
    var i, j :| 0 <= i <= j < |xs| && Drop(xs[i], xs[j]) == m;
    assert Drop(ys[i], ys[j]) == m;
  }
}
