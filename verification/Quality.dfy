/** The sampling part of the connection quality monitor, in exact arithmetic. */
module Quality {
  import opened Basics

  const WINDOW_SIZE := 20

  /** The fields of the kernel's TCP_INFO that are used; times are in microseconds. */
  datatype TcpInfo = TcpInfo(rtt: u32, rttVar: u32, totalRetrans: u32, lost: u32, retransmits: int, cwnd: u32)

  datatype Rating = Excellent | Good | Fair | Poor

  datatype Snapshot = Snapshot(
    rttMs: real, rttVarMs: real, jitterMs: real, retransmits: int, totalRetrans: int, lost: int, cwnd: int,
    rating: Rating)

  function ComputeRating(rttMs: real, jitterMs: real, retransPerInterval: int): Rating {
    if rttMs < 20.0 && jitterMs < 5.0 && retransPerInterval == 0 then Excellent
    else if rttMs < 50.0 && jitterMs < 15.0 && retransPerInterval < 5 then Good
    else if rttMs < 150.0 && jitterMs < 40.0 then Fair
    else Poor
  }

  ghost function Rank(r: Rating): int {
    match r case Excellent => 3 case Good => 2 case Fair => 1 case Poor => 0
  }

  /** A connection that is no better in any measure never gets a better rating. */
  lemma RatingIsMonotone(rtt: real, jitter: real, retrans: nat, rtt': real, jitter': real, retrans': nat)
    requires rtt <= rtt' && jitter <= jitter' && retrans <= retrans'
    ensures Rank(ComputeRating(rtt', jitter', retrans')) <= Rank(ComputeRating(rtt, jitter, retrans))
  {
  }

  /** When each rating is given. */
  lemma RatingIff(rtt: real, jitter: real, retrans: nat)
    ensures var r := ComputeRating(rtt, jitter, retrans);
      && (r == Excellent <==> rtt < 20.0 && jitter < 5.0 && retrans == 0)
      && (r == Good <==> rtt < 50.0 && jitter < 15.0 && retrans < 5
                         && (20.0 <= rtt || 5.0 <= jitter || 0 < retrans))
      && (r == Fair <==> rtt < 150.0 && jitter < 40.0 && (50.0 <= rtt || 15.0 <= jitter || 5 <= retrans))
      && (r == Poor <==> 150.0 <= rtt || 40.0 <= jitter)
  {
  }

  // ---- the measures ----

  function Abs(x: real): (r: real)
    ensures r >= 0.0 && (r == x || r == -x)
  {
    if x < 0.0 then -x else x
  }

  function Sum(s: seq<real>): real {
    if s == [] then 0.0 else Sum(s[..|s| - 1]) + s[|s| - 1]
  }

  /** The sum of the distances from `m`. */
  function Spread(s: seq<real>, m: real): real {
    if s == [] then 0.0 else Spread(s[..|s| - 1], m) + Abs(s[|s| - 1] - m)
  }

  /** The sums from the other end: every sample counts once, with its distance from `m`. */
  lemma {:induction false} FirstCounts(v: real, s: seq<real>, m: real)
    ensures Sum([v] + s) == v + Sum(s) && Sum([]) == 0.0
    ensures Spread([v] + s, m) == Spread(s, m) + (if v < m then m - v else v - m) && Spread([], m) == 0.0
  {
    var all := [v] + s;
    if s == [] {
      assert all[..0] == [];
    } else {
      FirstCounts(v, s[..|s| - 1], m);
      assert all[..|s|] == [v] + s[..|s| - 1];
    }
  }

  function Least(s: seq<real>): (r: real)
    requires s != []
    ensures r in s && forall v :: v in s ==> r <= v
  {
    if |s| == 1 then s[0] else
      var rest := Least(s[1..]);
      assert s == [s[0]] + s[1..];
      if s[0] <= rest then s[0] else rest
  }

  function Greatest(s: seq<real>): (r: real)
    requires s != []
    ensures r in s && forall v :: v in s ==> v <= r
  {
    if |s| == 1 then s[0] else
      var rest := Greatest(s[1..]);
      assert s == [s[0]] + s[1..];
      if s[0] >= rest then s[0] else rest
  }

  predicate AllEqual(s: seq<real>) {
    forall i, j :: 0 <= i < j < |s| ==> s[i] == s[j]
  }

  // ---- bounds on the spread ----

  predicate Within(s: seq<real>, a: real, b: real) {
    forall i :: 0 <= i < |s| ==> a <= s[i] <= b
  }

  lemma ProductNonNegative(x: real, y: real)
    requires x >= 0.0 && y >= 0.0
    ensures x * y >= 0.0
  {
  }

  /** The distance from `m` lies below the chord between the ends of [a, b]. */
  lemma Chord(v: real, m: real, a: real, b: real)
    requires a <= v <= b && a <= m <= b
    ensures (b - a) * Abs(v - m) <= (b - v) * (m - a) + (v - a) * (b - m)
  {
    if v >= m {
      ProductNonNegative(b - v, m - a);
      assert (b - v) * (m - a) + (v - a) * (b - m) - (b - a) * (v - m) == 2.0 * ((b - v) * (m - a));
    } else {
      ProductNonNegative(v - a, b - m);
      assert (b - v) * (m - a) + (v - a) * (b - m) - (b - a) * (m - v) == 2.0 * ((v - a) * (b - m));
    }
  }

  /** The chords of `n` values with the given sum, added up. */
  predicate BelowChords(n: real, sum: real, spread: real, m: real, a: real, b: real) {
    (b - a) * spread <= (n * b - sum) * (m - a) + (sum - n * a) * (b - m)
  }

  lemma {:induction false} ChordOfAll(s: seq<real>, m: real, a: real, b: real)
    requires Within(s, a, b) && a <= m <= b
    ensures BelowChords(|s| as real, Sum(s), Spread(s, m), m, a, b)
  {
    if s != [] {
      var n := |s| - 1;
      var front, v := s[..n], s[n];
      ChordOfAll(front, m, a, b);
      Chord(v, m, a, b);
      var k := n as real;
      assert |s| as real == k + 1.0;
      OneMoreChord(k, Sum(front), Spread(front, m), v, m, a, b);
    }
  }

  lemma OneMoreChord(k: real, sum: real, spread: real, v: real, m: real, a: real, b: real)
    requires BelowChords(k, sum, spread, m, a, b)
    requires (b - a) * Abs(v - m) <= (b - v) * (m - a) + (v - a) * (b - m)
    ensures BelowChords(k + 1.0, sum + v, spread + Abs(v - m), m, a, b)
  {
    assert (b - a) * (spread + Abs(v - m)) == (b - a) * spread + (b - a) * Abs(v - m);
    assert ((k + 1.0) * b - (sum + v)) * (m - a) == (k * b - sum) * (m - a) + (b - v) * (m - a);
    assert ((sum + v) - (k + 1.0) * a) * (b - m) == (sum - k * a) * (b - m) + (v - a) * (b - m);
  }

  lemma OneMoreWithin(k: real, n: real, sum: real, v: real, a: real, b: real)
    requires n == k + 1.0 && k * a <= sum <= k * b && a <= v <= b
    ensures n * a <= sum + v <= n * b
  {
    assert (k + 1.0) * a == k * a + a && (k + 1.0) * b == k * b + b;
  }

  lemma {:induction false} SumWithin(s: seq<real>, a: real, b: real)
    requires Within(s, a, b)
    ensures |s| as real * a <= Sum(s) <= |s| as real * b
  {
    if s != [] {
      SumWithin(s[..|s| - 1], a, b);
      OneMoreWithin((|s| - 1) as real, |s| as real, Sum(s[..|s| - 1]), s[|s| - 1], a, b);
    }
  }

  function Mean(s: seq<real>): real
    requires s != []
  {
    Sum(s) / |s| as real
  }

  lemma MeanWithin(s: seq<real>, a: real, b: real)
    requires s != [] && Within(s, a, b)
    ensures a <= Mean(s) <= b && Sum(s) == |s| as real * Mean(s)
  {
    SumWithin(s, a, b);
    var n := |s| as real;
    DivideBetween(Sum(s), n, a, b);
  }

  lemma ProductPositive(x: real, y: real)
    requires x > 0.0 && y > 0.0
    ensures x * y > 0.0
  {
  }

  lemma CancelFactor(w: real, p: real, q: real)
    requires w > 0.0 && w * p <= w * q
    ensures p <= q
  {
    assert w * (p - q) == w * p - w * q;
    if p > q {
      ProductPositive(w, p - q);
    }
  }

  lemma DivideBetween(x: real, n: real, a: real, b: real)
    requires n > 0.0 && n * a <= x <= n * b
    ensures a <= x / n <= b && x == n * (x / n)
  {
    var q := x / n;
    assert x == n * q;
    CancelFactor(n, q, b);
    CancelFactor(n, a, q);
  }

  /** The mean distance from the mean is at most half the range. */
  lemma SpreadBound(s: seq<real>, n: real, d: real, m: real, a: real, b: real)
    requires Within(s, a, b) && a <= m <= b && a < b
    requires n == |s| as real > 0.0 && d == Spread(s, m) && Sum(s) == n * m
    ensures 2.0 * d <= n * (b - a)
  {
    assert BelowChords(n, n * m, d, m, a, b) by {
      ChordOfAll(s, m, a, b);
    }
    FromChords(n, n * m, m, d, a, b);
  }

  lemma FromChords(n: real, sum: real, m: real, d: real, a: real, b: real)
    requires n > 0.0 && sum == n * m && a <= m <= b && a < b
    requires BelowChords(n, sum, d, m, a, b)
    ensures 2.0 * d <= n * (b - a)
  {
    var x, y := b - m, m - a;
    SplitChords(n, m, a, b);
    assert (x + y) * d <= 2.0 * (n * (x * y));
    Halves(x, y);
    FromHalves(x, y, n, d);
    assert x + y == b - a;
  }

  lemma SplitChords(n: real, m: real, a: real, b: real)
    ensures (n * b - n * m) * (m - a) + (n * m - n * a) * (b - m) == 2.0 * (n * ((b - m) * (m - a)))
  {
    assert n * b - n * m == n * (b - m) && n * m - n * a == n * (m - a);
  }

  lemma Square(z: real)
    ensures z * z >= 0.0
  {
  }

  lemma Halves(x: real, y: real)
    ensures 4.0 * (x * y) <= (x + y) * (x + y)
  {
    Square(x - y);
    assert (x + y) * (x + y) - 4.0 * (x * y) == (x - y) * (x - y);
  }

  lemma FromHalves(x: real, y: real, n: real, d: real)
    requires x + y > 0.0 && n > 0.0 && (x + y) * d <= 2.0 * (n * (x * y)) && 4.0 * (x * y) <= (x + y) * (x + y)
    ensures 2.0 * d <= n * (x + y)
  {
    var w, z := x + y, x * y;
    ProductNonNegative(n, w * w - 4.0 * z);
    assert n * (w * w - 4.0 * z) == w * (n * w) - 4.0 * (n * z);
    assert w * (2.0 * d) == 2.0 * (w * d);
    CancelFactor(w, 2.0 * d, n * w);
  }

  lemma {:induction false} SpreadZero(s: seq<real>, m: real)
    ensures Spread(s, m) >= 0.0
    ensures Spread(s, m) == 0.0 <==> forall i :: 0 <= i < |s| ==> s[i] == m
  {
    if s != [] {
      var front := s[..|s| - 1];
      SpreadZero(front, m);
      if forall i :: 0 <= i < |s| ==> s[i] == m {
        assert forall i :: 0 <= i < |front| ==> front[i] == m;
      }
      if Spread(s, m) == 0.0 {
        forall i | 0 <= i < |s|
          ensures s[i] == m
        {
          if i < |front| {
            assert front[i] == m;
          }
        }
      }
    }
  }

  // ---- the code ----

  /** The mean absolute deviation of the window: between 0 and half its range, and 0 exactly when
      every sample is the same. */
  method Jitter(window: seq<real>) returns (jitter: real)
    requires window != []
    ensures jitter == MeanDeviation(window)
    ensures 0.0 <= 2.0 * jitter <= Greatest(window) - Least(window)
    ensures jitter == 0.0 <==> AllEqual(window)
  {
    var n := |window| as real;
    var sum := 0.0;
    for i := 0 to |window|
      invariant sum == Sum(window[..i])
    {
      assert window[..i + 1][..i] == window[..i];
      sum := sum + window[i];
    }
    assert window[..|window|] == window;
    var mean := sum / n;
    var spread := 0.0;
    for i := 0 to |window|
      invariant spread == Spread(window[..i], mean)
    {
      assert window[..i + 1][..i] == window[..i];
      spread := spread + Abs(window[i] - mean);
    }
    jitter := spread / n;
    JitterBounds(window);
  }

  /** What the code computes with exact arithmetic: the mean absolute deviation. */
  function MeanDeviation(s: seq<real>): real
    requires s != []
  {
    Spread(s, Mean(s)) / |s| as real
  }

  /** The mean times the number of samples is their sum, and the deviation times it the sum of distances. */
  lemma DeviationIs(s: seq<real>)
    requires s != []
    ensures |s| as real * Mean(s) == Sum(s) && |s| as real * MeanDeviation(s) == Spread(s, Mean(s))
  {
    Multiply(Sum(s), |s| as real);
    Multiply(Spread(s, Mean(s)), |s| as real);
  }

  lemma Multiply(x: real, n: real)
    requires n > 0.0
    ensures n * (x / n) == x
  {
  }

  lemma JitterBounds(s: seq<real>)
    requires s != []
    ensures 0.0 <= 2.0 * MeanDeviation(s) <= Greatest(s) - Least(s)
    ensures MeanDeviation(s) == 0.0 <==> AllEqual(s)
  {
    var a, b := Least(s), Greatest(s);
    forall i | 0 <= i < |s|
      ensures a <= s[i] <= b
    {
      assert s[i] in s;
    }
    DeviationBound(s, a, b, MeanDeviation(s));
    SpreadZero(s, Mean(s));
    EqualToMean(s);
  }

  lemma DeviationBound(s: seq<real>, a: real, b: real, q: real)
    requires s != [] && Within(s, a, b) && q == MeanDeviation(s)
    ensures 0.0 <= 2.0 * q <= b - a && (q == 0.0 <==> Spread(s, Mean(s)) == 0.0)
  {
    var n, d := |s| as real, Spread(s, Mean(s));
    assert d >= 0.0 && (d == 0.0 || 2.0 * d <= n * (b - a)) by {
      SpreadInRange(s, n, Mean(s), d, a, b);
    }
    Divide(n, d, b - a);
  }

  lemma SpreadInRange(s: seq<real>, n: real, m: real, d: real, a: real, b: real)
    requires n == |s| as real > 0.0 && m == Mean(s) && d == Spread(s, m) && Within(s, a, b)
    ensures d >= 0.0 && (d == 0.0 || 2.0 * d <= n * (b - a))
  {
    MeanIs(s, n, m, a, b);
    if a < b {
      SpreadBound(s, n, d, m, a, b);
    } else {
      SpreadZero(s, m);
    }
    assert d >= 0.0 by {
      SpreadZero(s, m);
    }
  }

  lemma MeanIs(s: seq<real>, n: real, m: real, a: real, b: real)
    requires n == |s| as real > 0.0 && m == Mean(s) && Within(s, a, b)
    ensures a <= m <= b && Sum(s) == n * m
  {
    MeanWithin(s, a, b);
  }

  lemma Divide(n: real, d: real, w: real)
    requires n > 0.0 && d >= 0.0 && w >= 0.0 && (d == 0.0 || 2.0 * d <= n * w)
    ensures 0.0 <= 2.0 * (d / n) <= w && (d / n == 0.0 <==> d == 0.0)
  {
    var q := d / n;
    assert d == n * q;
    ProductNonNegative(n, w);
    assert n * (2.0 * q) == 2.0 * (n * q);
    CancelFactor(n, 2.0 * q, w);
    CancelFactor(n, 0.0, q);
  }

  lemma EqualToMean(s: seq<real>)
    requires s != []
    ensures AllEqual(s) <==> forall i :: 0 <= i < |s| ==> s[i] == Mean(s)
  {
    if AllEqual(s) {
      assert forall i :: 0 <= i < |s| ==> s[i] == s[0];
      assert Within(s, s[0], s[0]);
      MeanWithin(s, s[0], s[0]);
    }
  }

  lemma SpreadOfOne(s: seq<real>)
    requires |s| == 1
    ensures MeanDeviation(s) == 0.0
  {
    JitterBounds(s);
  }

  /** The jitter of a sampled window is defined from two samples on. */
  method WindowJitter(window: seq<real>) returns (jitter: real)
    requires window != []
    ensures jitter == MeanDeviation(window)
  {
    jitter := 0.0;
    if |window| >= 2 {
      jitter := Jitter(window);
    } else {
      SpreadOfOne(window);
    }
  }

  function RttMs(client: TcpInfo, backend: TcpInfo): real {
    (client.rtt + backend.rtt) as real / 1000.0
  }

  function Grown(before: int, after: int): nat {
    if after < before then 0 else after - before
  }

  function Measured(c: TcpInfo, b: TcpInfo, jitterMs: real, delta: nat): Snapshot {
    Snapshot(RttMs(c, b), (c.rttVar + b.rttVar) as real / 1000.0, jitterMs, c.retransmits + b.retransmits,
             c.totalRetrans + b.totalRetrans, c.lost + b.lost, Min(c.cwnd, b.cwnd),
             ComputeRating(RttMs(c, b), jitterMs, delta))
  }

  class QualityMonitor {
    var rttHistory: seq<real>
    var prevTotalRetrans: int
    /** Every round-trip time sampled so far. */
    ghost var samples: seq<real>

    ghost predicate Valid()
      reads this
    {
      rttHistory == if |samples| <= 20 then samples else samples[|samples| - 20..]
    }

    constructor ()
      ensures Valid() && samples == [] && prevTotalRetrans == 0
    {
      rttHistory, prevTotalRetrans, samples := [], 0, [];
    }

    /** A deque of bounded length drops its oldest item on the append that would exceed the bound. */
    method Append(v: real)
      requires Valid()
      modifies `rttHistory, `samples
      ensures Valid() && samples == old(samples) + [v]
    {
      rttHistory := rttHistory + [v];
      if |rttHistory| > WINDOW_SIZE {
        rttHistory := rttHistory[1..];
      }
      samples := samples + [v];
    }

    /** A socket whose TCP_INFO cannot be read is None; then nothing changes. */
    method Sample(client: Option<TcpInfo>, backend: Option<TcpInfo>) returns (r: Option<Snapshot>)
      requires Valid()
      modifies this
      ensures Valid() && (r.Some? <==> client.Some? && backend.Some?)
      ensures r.None? ==> samples == old(samples) && prevTotalRetrans == old(prevTotalRetrans)
      ensures r.Some? ==>
        && samples == old(samples) + [r.value.rttMs] && rttHistory != []
        && prevTotalRetrans == client.value.totalRetrans as int + backend.value.totalRetrans as int
      ensures r.Some? ==> var c, b, s := client.value, backend.value, r.value;
        && s.rttMs == (c.rtt as int + b.rtt as int) as real / 1000.0
        && s.rttVarMs == (c.rttVar as int + b.rttVar as int) as real / 1000.0
        && s.jitterMs == MeanDeviation(rttHistory)
        && s.retransmits == c.retransmits + b.retransmits && s.totalRetrans == prevTotalRetrans
        && s.lost == c.lost as int + b.lost as int
        && s.cwnd <= c.cwnd && s.cwnd <= b.cwnd && (s.cwnd == c.cwnd || s.cwnd == b.cwnd)
      ensures r.Some? ==> var s, grown := r.value, prevTotalRetrans - old(prevTotalRetrans);
        && (s.rating == Excellent <==> s.rttMs < 20.0 && s.jitterMs < 5.0 && grown <= 0)
        && (s.rating == Poor <==> 150.0 <= s.rttMs || 40.0 <= s.jitterMs)
        && (s.rating == Excellent || s.rating == Good <==> s.rttMs < 50.0 && s.jitterMs < 15.0 && grown < 5)
    {
      if client.None? || backend.None? {
        return None;
      }
      var c, b := client.value, backend.value;
      var rttMs := RttMs(c, b);
      Append(rttMs);
      var jitterMs := WindowJitter(rttHistory);
      var totalRetrans := c.totalRetrans + b.totalRetrans;
      var delta := Grown(prevTotalRetrans, totalRetrans);
      RatingIff(rttMs, jitterMs, delta);
      prevTotalRetrans := totalRetrans;
      r := Some(Measured(c, b, jitterMs, delta));
    }
  }
}
