/**
 * The sampler behind the price chart of src/components/PriceChart.tsx: once
 * a second it samples the linear auction price, labels the sample with the
 * elapsed time as `m:ss`, and appends it to a history that keeps only the
 * last 60 points.
 */
module PriceChart {
  import opened Numbers
  import Auction

  /** `slice(-60)`: the buffer keeps this many points at most. */
  const MAX_POINTS: nat := 60

  /** One point in the chart history. */
  datatype ChartPoint = ChartPoint(time: string, price: real, timestamp: int)

  /** `startPrice - (startPrice - endPrice) * (elapsed / auctionDuration)`: linear, with no clamp. */
  function SamplePrice(startPrice: real, endPrice: real, auctionDuration: int, elapsed: int): real
    requires auctionDuration > 0
  {
    startPrice - (startPrice - endPrice) * (elapsed as real / auctionDuration as real)
  }

  /** The sample starts at the start price, ends at the end price, and (for a falling auction) never rises, without a floor. */
  lemma SamplePriceLinear(startPrice: real, endPrice: real, auctionDuration: int, e0: int, e1: int)
    requires auctionDuration > 0 && endPrice <= startPrice && e0 <= e1
    ensures SamplePrice(startPrice, endPrice, auctionDuration, 0) == startPrice
    ensures SamplePrice(startPrice, endPrice, auctionDuration, auctionDuration) == endPrice
    ensures SamplePrice(startPrice, endPrice, auctionDuration, e1) <= SamplePrice(startPrice, endPrice, auctionDuration, e0)
  {
    var d := auctionDuration as real;
    var f0, f1 := e0 as real / d, e1 as real / d;
    ProgressMonotone(e0, e1, d);
    FallingLine(startPrice, startPrice - endPrice, f0, f1);
  }

  /** The progress `elapsed / duration` grows with elapsed. */
  lemma ProgressMonotone(e0: int, e1: int, d: real)
    requires d > 0.0 && e0 <= e1
    ensures e0 as real / d <= e1 as real / d
  {
    assert e1 as real / d - e0 as real / d == (e1 - e0) as real / d;
  }

  /** A line falling by a non-negative gap is no higher at a larger progress. */
  lemma FallingLine(start: real, gap: real, f0: real, f1: real)
    requires gap >= 0.0 && f0 <= f1
    ensures start - gap * f1 <= start - gap * f0
  {
    assert gap * f1 - gap * f0 == gap * (f1 - f0);
  }

  /** With the App's constants, a sample inside the window is exactly the price the App's tick sets. */
  lemma SampleMatchesAuction(elapsed: int)
    requires 0 <= elapsed < Auction.AUCTION_DURATION
    ensures SamplePrice(Auction.START_PRICE, Auction.END_PRICE, Auction.AUCTION_DURATION, elapsed) == Auction.ActivePrice(elapsed)
  {
    Auction.ActivePriceInWindow(elapsed);
  }

  /** `${Math.floor(s / 60)}:${(s % 60).toString().padStart(2, '0')}` with `s = Math.floor(elapsed / 1000)`. */
  function TimeLabel(elapsed: int): (l: string)
    ensures elapsed >= 0 ==> |l| >= 4 && l[|l| - 3] == ':'
  {
    var secondsElapsed := FloorDiv(elapsed, 1000);
    var minutes := IntToString(FloorDiv(secondsElapsed, 60));
    var seconds := Pad2(TruncRem(secondsElapsed, 60));
    assert elapsed >= 0 ==> |seconds| == 2;
    minutes + ":" + seconds
  }

  /**
   * `l` is minutes without a leading zero, a colon and exactly two digits
   * of seconds in 00..59, and reads back as `secondsElapsed`.
   */
  predicate ReadsAsSeconds(l: string, secondsElapsed: int)
  {
    var k := |l| - 3;
    && 1 <= k && l[k] == ':'
    && IsDigits(l[..k]) && IsDigits(l[k + 1..])
    && (l[0] == '0' ==> k == 1)
    && ParseNat(l[k + 1..]) < 60
    && ParseNat(l[..k]) * 60 + ParseNat(l[k + 1..]) == secondsElapsed
  }

  /** For a non-negative elapsed time the label reads back as the whole seconds elapsed. */
  lemma TimeLabelReadsBack(elapsed: int)
    requires elapsed >= 0
    ensures ReadsAsSeconds(TimeLabel(elapsed), elapsed / 1000)
  {
    var s := FloorDiv(elapsed, 1000);
    var mins := FloorDiv(s, 60);
    var secs := TruncRem(s, 60);
    assert mins * 60 + secs == s;
    assert TimeLabel(elapsed) == IntToString(mins) + ":" + Pad2(secs);
    ClockLabelReadsBack(mins, secs);
  }

  /** Whole minutes, a colon and two-digit seconds below 60 read back as the seconds they spell. */
  lemma ClockLabelReadsBack(mins: int, secs: int)
    requires mins >= 0 && 0 <= secs < 60
    ensures ReadsAsSeconds(IntToString(mins) + ":" + Pad2(secs), mins * 60 + secs)
  {
    var m := IntToString(mins);
    var ss := Pad2(secs);
    TwoDigits(secs);
    assert |m| >= 1 && IsDigits(m) && ParseNat(m) == mins;
    assert m[0] == '0' ==> |m| == 1;
    assert |ss| == 2 && IsDigits(ss) && ParseNat(ss) == secs;
    ClockShape(m, ss);
  }

  /** Digits without a leading zero, ':' and two digits below 60 read back as minutes and seconds. */
  lemma ClockShape(m: string, ss: string)
    requires |m| >= 1 && IsDigits(m) && (m[0] == '0' ==> |m| == 1)
    requires |ss| == 2 && IsDigits(ss) && ParseNat(ss) < 60
    ensures ReadsAsSeconds(m + ":" + ss, ParseNat(m) * 60 + ParseNat(ss))
  {
    var l := m + ":" + ss;
    ColonSplit(m, ss);
    var k := |l| - 3;
    assert k == |m|;
    assert IsDigits(l[..k]) && IsDigits(l[k + 1..]);
    assert ParseNat(l[..k]) == ParseNat(m) && ParseNat(l[k + 1..]) == ParseNat(ss);
  }

  /** Cutting `m + ":" + ss` at the colon gives back its two parts. */
  lemma ColonSplit(m: string, ss: string)
    requires |m| >= 1 && |ss| == 2
    ensures |m + ":" + ss| == |m| + 3
    ensures (m + ":" + ss)[|m|] == ':' && (m + ":" + ss)[0] == m[0]
    ensures (m + ":" + ss)[..|m|] == m && (m + ":" + ss)[|m| + 1..] == ss
  {
    var l := m + ":" + ss;
    assert l == m + ([':'] + ss);
  }

  /** Before the start instant the label shows two negative parts: one second early reads "-1:-1". */
  lemma TimeLabelBeforeStart()
    ensures TimeLabel(-1000) == "-1:-1"
  {
    assert FloorDiv(-1000, 1000) == -1;
    assert FloorDiv(-1, 60) == -1;
    assert TruncRem(-1, 60) == -1;
    assert NatToString(1) == [DigitChar(1)] == "1";
    assert IntToString(-1) == "-1";
    assert Pad2(-1) == "-1";
    assert TimeLabel(-1000) == IntToString(-1) + ":" + Pad2(-1);
  }

  /** `buffer.slice(-n)` for `n > 0`: the last `n` elements, or all of them when there are fewer. */
  function KeepLast<T>(s: seq<T>, n: nat): (r: seq<T>)
    requires n > 0
    ensures |r| == if |s| <= n then |s| else n
    ensures r == s[|s| - |r|..]
  {
    if |s| <= n then s else s[|s| - n..]
  }

  /**
   * Appending to a history of at most `n` points keeps `min(old + 1, n)`
   * of them: the new point last, before it the newest of the old points in
   * their original order.
   */
  lemma AppendKeepLast<T>(s: seq<T>, p: T, n: nat)
    requires 0 < n && |s| <= n
    ensures var r := KeepLast(s + [p], n);
      && |r| == (if |s| + 1 <= n then |s| + 1 else n)
      && r[|r| - 1] == p
      && r[..|r| - 1] == s[|s| - (|r| - 1)..]
      && r == (s + [p])[|s| + 1 - |r|..]
  {
    var r := KeepLast(s + [p], n);
    if |s| + 1 > n {
      assert r == (s + [p])[1..] == s[1..] + [p];
    }
  }

  predicate Chronological(points: seq<ChartPoint>)
  {
    forall i, j | 0 <= i < j < |points| :: points[i].timestamp <= points[j].timestamp
  }

  /** A sample taken no earlier than every point in the history keeps the history in time order. */
  lemma AppendKeepsChronological(s: seq<ChartPoint>, p: ChartPoint, n: nat)
    requires 0 < n && |s| <= n && Chronological(s)
    requires forall i | 0 <= i < |s| :: s[i].timestamp <= p.timestamp
    ensures Chronological(KeepLast(s + [p], n))
  {
    var u := s + [p];
    var r := KeepLast(u, n);
    var d := |u| - |r|;
    assert r == u[d..];
    forall i, j | 0 <= i < j < |r| ensures r[i].timestamp <= r[j].timestamp {
      assert r[i] == u[i + d] && r[j] == u[j + d];
      assert u[i + d] == s[i + d];
      if j + d < |s| {
        assert u[j + d] == s[j + d];
      } else {
        assert u[j + d] == p;
      }
    }
  }

  class ChartSampler {
    const startPrice: real
    const endPrice: real
    const auctionStartTime: int
    const auctionDuration: int

    var chartData: seq<ChartPoint>

    ghost predicate Valid()
      reads this
    {
      auctionDuration > 0 && |chartData| <= MAX_POINTS
    }

    /** A freshly mounted chart: its props and an empty history. */
    constructor (startPrice: real, endPrice: real, auctionStartTime: int, auctionDuration: int)
      requires auctionDuration > 0
      ensures Valid() && chartData == []
      ensures this.startPrice == startPrice && this.endPrice == endPrice
      ensures this.auctionStartTime == auctionStartTime && this.auctionDuration == auctionDuration
    {
      this.startPrice := startPrice;
      this.endPrice := endPrice;
      this.auctionStartTime := auctionStartTime;
      this.auctionDuration := auctionDuration;
      chartData := [];
    }

    /** The point sampled at `now`; its price is rounded to hundredths. */
    function SampleAt(now: int): (p: ChartPoint)
      requires auctionDuration > 0
      ensures p.timestamp == now
      ensures p.time == TimeLabel(now - auctionStartTime)
      ensures -0.005 <= p.price - SamplePrice(startPrice, endPrice, auctionDuration, now - auctionStartTime) <= 0.005
      ensures p.price == ToFixed2(SamplePrice(startPrice, endPrice, auctionDuration, now - auctionStartTime))
      ensures ToFixed2(p.price) == p.price
    {
      ToFixed2Idempotent(SamplePrice(startPrice, endPrice, auctionDuration, now - auctionStartTime));
      ChartPoint(TimeLabel(now - auctionStartTime), ToFixed2(SamplePrice(startPrice, endPrice, auctionDuration, now - auctionStartTime)), now)
    }

    /** One interval tick at wall-clock time `now`. */
    method Tick(now: int)
      requires Valid()
      modifies this`chartData
      ensures Valid()
      ensures now - auctionStartTime >= auctionDuration ==> chartData == old(chartData)
      ensures now - auctionStartTime < auctionDuration ==> chartData == KeepLast(old(chartData) + [SampleAt(now)], MAX_POINTS)
      ensures now - auctionStartTime < auctionDuration ==> |chartData| == (if |old(chartData)| < MAX_POINTS then |old(chartData)| + 1 else MAX_POINTS)
      ensures now - auctionStartTime < auctionDuration ==> chartData[|chartData| - 1] == SampleAt(now)
    {
      var elapsed := now - auctionStartTime;
      if elapsed >= auctionDuration {
        return;
      }

      var point := SampleAt(now);
      AppendKeepLast(chartData, point, MAX_POINTS);
      var newData := chartData + [point];
      chartData := KeepLast(newData, MAX_POINTS);
    }
  }
}
