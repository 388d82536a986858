/** Growth counters and plateau detection (class GrowthStatsTracker of src/stats/growth_stats.cpp). */
module GrowthStats {
  import opened Base
  import opened Ordering
  import opened Prefix
  import opened Selection
  import opened RoutingState

  datatype PlateauSettings = PlateauSettings(enabled: bool, window: nat, threshold: real, minRuntime: real)

  datatype PlateauStatus = PlateauStatus(detected: bool, detectedOnThisSample: bool, plateauUptime: real)

  datatype GrowthSample = GrowthSample(
    uptime: real,
    totalAsns: nat, totalPrefixes: nat,
    activeV4: nat, activeV6: nat, active: nat,
    newAsns: nat, newPrefixes: nat,
    newAsnsPerSec: real, newPrefixesPerSec: real,
    rawMessages: nat, parsedEvents: nat, announces: nat, withdraws: nat)

  // ----- What the detector should do, over the whole history of samples -----

  /** The prefix discovery rate of one sample and the uptime it was taken at. */
  datatype Moment = Moment(rate: real, uptime: real)

  lemma GrowsByInsert<T>(s: set<T>, x: T)
    ensures |s| <= |s + {x}| <= |s| + 1
  {
    if x in s {
      assert s + {x} == s;
    }
  }

  /** So many in so long; nothing is reported for an empty interval. */
  function Rate(n: nat, interval: real): real {
    if interval > 0.0 then n as real / interval else 0.0
  }

  /** That many are found at this rate in that time. */
  lemma RateMeans(n: nat, interval: real)
    ensures interval > 0.0 ==> Rate(n, interval) * interval == n as real
    ensures interval <= 0.0 ==> Rate(n, interval) == 0.0
  {}

  ghost function Sum(rates: seq<real>): real {
    if rates == [] then 0.0 else Sum(rates[..|rates| - 1]) + rates[|rates| - 1]
  }

  lemma {:induction false} SumFromFront(rates: seq<real>)
    requires rates != []
    ensures Sum(rates) == rates[0] + Sum(rates[1..])
  {
    var n := |rates|;
    if n == 1 {
    } else {
      SumFromFront(rates[..n - 1]);
      assert rates[..n - 1][1..] == rates[1..][..n - 2];
    }
  }

  ghost function Rates(history: seq<Moment>): (rates: seq<real>)
    ensures |rates| == |history|
    ensures forall i :: 0 <= i < |history| ==> rates[i] == history[i].rate
  {
    seq(|history|, i requires 0 <= i < |history| => history[i].rate)
  }

  /** The last `window` elements, or all of them while there are fewer. */
  function LastOf(rates: seq<real>, window: nat): seq<real> {
    if |rates| <= window then rates else rates[|rates| - window..]
  }

  ghost function LastRates(history: seq<Moment>, window: nat): seq<real> {
    LastOf(Rates(history), window)
  }

  lemma WindowOneMore(history: seq<Moment>, m: Moment, window: nat)
    ensures LastOf(LastRates(history, window) + [m.rate], window) == LastRates(history + [m], window)
  {
    assert Rates(history + [m]) == Rates(history) + [m.rate];
  }

  /** The deque takes the new rate in at the back and lets the oldest out at the front. */
  method SlideWindow(rates: seq<real>, sum: real, rate: real, window: nat) returns (rates': seq<real>, sum': real)
    requires window > 0 && |rates| <= window && sum == Sum(rates)
    ensures rates' == LastOf(rates + [rate], window) && sum' == Sum(rates')
  {
    rates', sum' := rates + [rate], sum + rate;
    assert rates'[..|rates|] == rates;
    while |rates'| > window
      invariant sum' == Sum(rates') && |rates'| <= |rates| + 1
      invariant |rates'| == |rates| + 1 ==> rates' == rates + [rate]
      invariant |rates'| != |rates| + 1 ==> rates' == LastOf(rates + [rate], window)
      decreases |rates'|
    {
      SumFromFront(rates');
      sum' := sum' - rates'[0];
      rates' := rates'[1..];
    }
  }

  /** The latest sample closes a full window, late enough, whose average rate is below the threshold. */
  ghost predicate Calm(settings: PlateauSettings, history: seq<Moment>) {
    && settings.enabled && settings.window > 0
    && |history| >= settings.window
    && history[|history| - 1].uptime >= settings.minRuntime
    && Sum(LastRates(history, settings.window)) / settings.window as real < settings.threshold
  }

  /** The first calm sample so far, found by replaying the history. */
  ghost function FirstCalm(settings: PlateauSettings, history: seq<Moment>): (at: Option<nat>)
    ensures at.Some? ==> at.value < |history|
  {
    if history == [] then None
    else
      var earlier := FirstCalm(settings, history[..|history| - 1]);
      if earlier.Some? then earlier
      else if Calm(settings, history) then Some(|history| - 1)
      else None
  }

  ghost predicate CalmAt(settings: PlateauSettings, history: seq<Moment>, at: nat) {
    at < |history| && Calm(settings, history[..at + 1])
  }

  /** It is the least index whose sample was calm when taken. */
  lemma {:induction false} FirstCalmIsLeast(settings: PlateauSettings, history: seq<Moment>)
    ensures match FirstCalm(settings, history)
      case None => forall at: nat :: !CalmAt(settings, history, at)
      case Some(first) => CalmAt(settings, history, first) && forall at: nat :: at < first ==> !CalmAt(settings, history, at)
  {
    if history == [] {
    } else {
      var front := history[..|history| - 1];
      FirstCalmIsLeast(settings, front);
      forall at: nat
        ensures CalmAt(settings, history, at)
           <==> if at == |history| - 1 then Calm(settings, history) else CalmAt(settings, front, at)
      {
        CalmAtFront(settings, history, at);
      }
    }
  }

  lemma CalmAtFront(settings: PlateauSettings, history: seq<Moment>, at: nat)
    requires history != []
    ensures CalmAt(settings, history, at)
       <==> if at == |history| - 1 then Calm(settings, history) else CalmAt(settings, history[..|history| - 1], at)
  {
    if at < |history| - 1 {
      assert history[..|history| - 1][..at + 1] == history[..at + 1];
    }
    assert history[..|history|] == history;
  }

  /** The rates of the samples from `from` up to `to` together. */
  ghost function RateSum(history: seq<Moment>, from: nat, to: nat): real
    requires from <= to <= |history|
  {
    if from == to then 0.0 else RateSum(history, from, to - 1) + history[to - 1].rate
  }

  lemma {:induction false} RateSumIsSum(history: seq<Moment>, from: nat, to: nat)
    requires from <= to <= |history|
    ensures RateSum(history, from, to) == Sum(Rates(history[..to])[from..])
  {
    var rates := Rates(history[..to])[from..];
    if from == to {
      assert rates == [];
    } else {
      RateSumIsSum(history, from, to - 1);
      assert rates[..|rates| - 1] == Rates(history[..to - 1])[from..];
    }
  }

  /** A sample is calm when it ends a full window, late enough, that found less than the threshold on average. */
  lemma CalmMeans(settings: PlateauSettings, history: seq<Moment>, at: nat)
    requires at < |history|
    ensures CalmAt(settings, history, at) <==>
      && settings.enabled && 0 < settings.window <= at + 1
      && history[at].uptime >= settings.minRuntime
      && RateSum(history, at + 1 - settings.window, at + 1) / settings.window as real < settings.threshold
  {
    var upTo := history[..at + 1];
    if 0 < settings.window <= at + 1 {
      LastSum(history, at + 1, settings.window);
    }
  }

  lemma LastSum(history: seq<Moment>, n: nat, window: nat)
    requires 0 < window <= n <= |history|
    ensures Sum(LastRates(history[..n], window)) == RateSum(history, n - window, n)
  {
    RateSumIsSum(history, n - window, n);
    assert LastRates(history[..n], window) == Rates(history[..n])[n - window..];
  }

  /** A plateau is reported with the uptime of the first calm sample, and as new on that sample only. */
  lemma StatusMeans(settings: PlateauSettings, history: seq<Moment>, status: PlateauStatus, at: nat)
    requires Reports(settings, history, status)
    requires CalmAt(settings, history, at) && forall earlier: nat :: earlier < at ==> !CalmAt(settings, history, earlier)
    ensures status.detected && status.plateauUptime == history[at].uptime
    ensures status.detectedOnThisSample <==> at == |history| - 1
  {
    FirstCalmIsLeast(settings, history);
  }

  /** Without a calm sample there is nothing to report. */
  lemma NoStatusMeans(settings: PlateauSettings, history: seq<Moment>, status: PlateauStatus)
    requires Reports(settings, history, status) && forall at: nat :: !CalmAt(settings, history, at)
    ensures !status.detected && !status.detectedOnThisSample
  {
    FirstCalmIsLeast(settings, history);
  }

  /** What the status must say: nothing before the first calm sample, and that sample for ever after. */
  ghost predicate Reports(settings: PlateauSettings, history: seq<Moment>, status: PlateauStatus) {
    var first := FirstCalm(settings, history);
    && (status.detected <==> first.Some?)
    && (status.detected ==> status.plateauUptime == history[first.value].uptime)
    && (status.detectedOnThisSample <==> history != [] && first == Some(|history| - 1))
  }

  /** One more sample: the latch stays, or is set when the sample is the first calm one. */
  lemma ReportsOneMore(settings: PlateauSettings, history: seq<Moment>, m: Moment, before: PlateauStatus, after: PlateauStatus)
    requires Reports(settings, history, before)
    requires after == if !before.detected && Calm(settings, history + [m]) then PlateauStatus(true, true, m.uptime)
                      else before.(detectedOnThisSample := false)
    ensures Reports(settings, history + [m], after)
  {
    assert (history + [m])[..|history + [m]| - 1] == history;
  }

  /** The three tests of the code are the definition of a calm sample. */
  lemma CalmTests(settings: PlateauSettings, history: seq<Moment>)
    requires settings.enabled && settings.window > 0 && history != []
    ensures var rates := LastRates(history, settings.window);
      Calm(settings, history) <==>
        && |rates| == settings.window
        && history[|history| - 1].uptime >= settings.minRuntime
        && Sum(rates) / |rates| as real < settings.threshold
  {}

  /** The deque is the last rates of the history and the running sum is its sum. */
  ghost predicate WindowExact(settings: PlateauSettings, history: seq<Moment>, rates: seq<real>, sum: real) {
    if settings.enabled && settings.window > 0 then
      rates == LastRates(history, settings.window) && sum == Sum(rates)
    else
      rates == [] && sum == 0.0
  }

  /** The plateau part of a sample: slide the window, then test the latch. */
  method Detect(settings: PlateauSettings, rates: seq<real>, sum: real, status: PlateauStatus,
                rate: real, uptime: real, ghost history: seq<Moment>)
    returns (rates': seq<real>, sum': real, status': PlateauStatus)
    requires WindowExact(settings, history, rates, sum) && Reports(settings, history, status)
    ensures WindowExact(settings, history + [Moment(rate, uptime)], rates', sum')
    ensures Reports(settings, history + [Moment(rate, uptime)], status')
  {
    ghost var m := Moment(rate, uptime);
    rates', sum', status' := rates, sum, status.(detectedOnThisSample := false);
    if settings.enabled && settings.window > 0 {
      rates', sum' := SlideWindow(rates, sum, rate, settings.window);
      WindowOneMore(history, m, settings.window);
      status' := TestLatch(settings, rates', sum', status', uptime, history + [m]);
    }
    ReportsOneMore(settings, history, m, status, status');
  }

  /** The latch is set by a calm sample, unless it is set already. */
  method TestLatch(settings: PlateauSettings, rates: seq<real>, sum: real, status: PlateauStatus,
                   uptime: real, ghost history: seq<Moment>)
    returns (status': PlateauStatus)
    requires settings.enabled && settings.window > 0
    requires history != [] && history[|history| - 1].uptime == uptime
    requires rates == LastRates(history, settings.window) && sum == Sum(rates)
    ensures status' == if !status.detected && Calm(settings, history) then PlateauStatus(true, true, uptime) else status
  {
    status' := status;
    CalmTests(settings, history);
    if !status.detected && |rates| == settings.window && uptime >= settings.minRuntime {
      var averageRate := sum / |rates| as real;
      if averageRate < settings.threshold {
        status' := PlateauStatus(true, true, uptime);
      }
    }
  }

  // ----- The tracker -----

  class GrowthStatsTracker {
    const settings: PlateauSettings
    const startedAt: real
    var everSeenAsns: set<uint32>
    var everSeenV4: set<PrefixV4>
    var everSeenV6: set<PrefixV6>
    var rawMessages: nat
    var parsedEvents: nat
    var announces: nat
    var withdraws: nat
    var activeV4: nat
    var activeV6: nat
    var lastSampleAsns: nat
    var lastSamplePrefixes: nat
    var lastSampleAt: real
    var recentRates: seq<real>
    var recentSum: real
    var plateauDetected: bool
    var plateauUptime: real
    var detectedOnLastSample: bool

    /** Every sample taken so far, and the totals at the time of seeding. */
    ghost var history: seq<Moment>
    ghost var seededAsns: nat
    ghost var seededPrefixes: nat
    ghost var reportedAsns: nat
    ghost var reportedPrefixes: nat

    ghost predicate Valid()
      reads this
    {
      startedAt <= lastSampleAt && Telescopes() && DetectorExact()
    }

    /** The reported deltas add up to what was seen since seeding, and the next one is not negative. */
    ghost predicate Telescopes()
      reads `everSeenAsns, `everSeenV4, `everSeenV6, `lastSampleAsns, `lastSamplePrefixes
      reads `seededAsns, `seededPrefixes, `reportedAsns, `reportedPrefixes
    {
      && seededAsns + reportedAsns == lastSampleAsns <= |everSeenAsns|
      && seededPrefixes + reportedPrefixes == lastSamplePrefixes <= |everSeenV4| + |everSeenV6|
    }

    /** The window is exact and the latch reports the first calm sample; closed, see Base.Key. */
    ghost predicate DetectorExact()
      reads `recentRates, `recentSum, `plateauDetected, `plateauUptime, `detectedOnLastSample, `history
    {
      forall k {:trigger Key(DetectorDoor, k)} :: Key(DetectorDoor, k) ==>
        WindowExact(settings, history, recentRates, recentSum) && Reports(settings, history, Status())
    }

    lemma OpenDetector()
      requires DetectorExact()
      ensures WindowExact(settings, history, recentRates, recentSum) && Reports(settings, history, Status())
    {
      assert Key(DetectorDoor, 0);
    }

    ghost function Status(): PlateauStatus
      reads `plateauDetected, `plateauUptime, `detectedOnLastSample
    {
      PlateauStatus(plateauDetected, detectedOnLastSample, plateauUptime)
    }

    ghost function EverSeen(): set<BinaryPrefix>
      reads `everSeenV4, `everSeenV6
    {
      Keys(everSeenV4, everSeenV6)
    }

    constructor (settings: PlateauSettings, now: real)
      ensures Valid() && this.settings == settings && startedAt == lastSampleAt == now && history == []
      ensures everSeenAsns == {} && EverSeen() == {}
      ensures rawMessages == parsedEvents == announces == withdraws == activeV4 == activeV6 == 0
      ensures reportedAsns == reportedPrefixes == 0
    {
      this.settings := settings;
      startedAt, lastSampleAt := now, now;
      everSeenAsns, everSeenV4, everSeenV6 := {}, {}, {};
      rawMessages, parsedEvents, announces, withdraws := 0, 0, 0, 0;
      activeV4, activeV6, lastSampleAsns, lastSamplePrefixes := 0, 0, 0, 0;
      recentRates, recentSum := [], 0.0;
      plateauDetected, plateauUptime, detectedOnLastSample := false, 0.0, false;
      history, seededAsns, seededPrefixes, reportedAsns, reportedPrefixes := [], 0, 0, 0, 0;
    }

    /** Everything a restored state observes counts as seen, and later deltas start from there. */
    method SeedFromState(state: RoutingState)
      requires Valid() && state.Valid()
      modifies `everSeenAsns, `everSeenV4, `everSeenV6, `activeV4, `activeV6, `lastSampleAsns, `lastSamplePrefixes,
        `seededAsns, `seededPrefixes, `reportedAsns, `reportedPrefixes
      ensures Valid()
      ensures EverSeen() == old(EverSeen()) + state.observed.Keys
      ensures everSeenAsns == old(everSeenAsns) + ObservedAsns(state.observed)
      ensures activeV4 == |OfFamily(state.observed.Keys, FamilyV4)|
      ensures activeV6 == |OfFamily(state.observed.Keys, FamilyV6)|
      ensures seededAsns == |everSeenAsns| && seededPrefixes == |EverSeen()| && reportedAsns == reportedPrefixes == 0
    {
      var asns, prefixesV4, prefixesV6, countV4, countV6 := Survey(state);
      Adopt(asns, prefixesV4, prefixesV6);
      SetActivePrefixCounts(countV4, countV6);
      SeenCount();
    }

    method Adopt(asns: set<uint32>, prefixesV4: set<PrefixV4>, prefixesV6: set<PrefixV6>)
      requires Valid()
      modifies `everSeenAsns, `everSeenV4, `everSeenV6, `lastSampleAsns, `lastSamplePrefixes,
        `seededAsns, `seededPrefixes, `reportedAsns, `reportedPrefixes
      ensures Valid()
      ensures EverSeen() == old(EverSeen()) + Keys(prefixesV4, prefixesV6)
      ensures everSeenAsns == old(everSeenAsns) + asns
      ensures seededAsns == |everSeenAsns| && seededPrefixes == |everSeenV4| + |everSeenV6| && reportedAsns == reportedPrefixes == 0
    {
      KeysUnion(everSeenV4, prefixesV4, everSeenV6, prefixesV6);
      everSeenAsns, everSeenV4, everSeenV6 := everSeenAsns + asns, everSeenV4 + prefixesV4, everSeenV6 + prefixesV6;
      StartCounting();
    }

    lemma SeenCount()
      ensures |EverSeen()| == |everSeenV4| + |everSeenV6|
    {
      FamilySizes(everSeenV4, everSeenV6);
    }

    /** The next deltas count from here. */
    method StartCounting()
      requires startedAt <= lastSampleAt && DetectorExact()
      modifies `lastSampleAsns, `lastSamplePrefixes, `seededAsns, `seededPrefixes, `reportedAsns, `reportedPrefixes
      ensures Valid()
      ensures seededAsns == |everSeenAsns| && seededPrefixes == |everSeenV4| + |everSeenV6| && reportedAsns == reportedPrefixes == 0
    {
      var asns, prefixes := |everSeenAsns|, |everSeenV4| + |everSeenV6|;
      lastSampleAsns, lastSamplePrefixes, seededAsns, seededPrefixes, reportedAsns, reportedPrefixes :=
        asns, prefixes, asns, prefixes, 0, 0;
    }

    method InsertPrefix(prefix: BinaryPrefix)
      modifies `everSeenV4, `everSeenV6
      ensures EverSeen() == old(EverSeen()) + {prefix}
      ensures |everSeenV4| + |everSeenV6| >= old(|everSeenV4| + |everSeenV6|)
    {
      match prefix
      case V4(p) =>
        GrowsByInsert(everSeenV4, p);
        everSeenV4 := everSeenV4 + {p};
      case V6(p) =>
        GrowsByInsert(everSeenV6, p);
        everSeenV6 := everSeenV6 + {p};
    }

    method OnMessageReceived()
      requires Valid()
      modifies `rawMessages
      ensures Valid() && rawMessages == old(rawMessages) + 1
    {
      rawMessages := rawMessages + 1;
    }

    method OnParsedEvents(n: nat)
      requires Valid()
      modifies `parsedEvents
      ensures Valid() && parsedEvents == old(parsedEvents) + n
    {
      parsedEvents := parsedEvents + n;
    }

    method OnAnnounce(asn: uint32, prefix: BinaryPrefix)
      requires Valid()
      modifies `everSeenAsns, `everSeenV4, `everSeenV6, `announces
      ensures Valid() && announces == old(announces) + 1
      ensures everSeenAsns == old(everSeenAsns) + {asn} && EverSeen() == old(EverSeen()) + {prefix}
    {
      GrowsByInsert(everSeenAsns, asn);
      everSeenAsns := everSeenAsns + {asn};
      InsertPrefix(prefix);
      announces := announces + 1;
    }

    /** A withdrawn prefix counts as seen, a withdrawal names no ASN. */
    method OnWithdraw(prefix: BinaryPrefix)
      requires Valid()
      modifies `everSeenV4, `everSeenV6, `withdraws
      ensures Valid() && withdraws == old(withdraws) + 1
      ensures EverSeen() == old(EverSeen()) + {prefix}
    {
      InsertPrefix(prefix);
      withdraws := withdraws + 1;
    }

    method SetActivePrefixCounts(v4: nat, v6: nat)
      requires Valid()
      modifies `activeV4, `activeV6
      ensures Valid() && activeV4 == v4 && activeV6 == v6
    {
      activeV4, activeV6 := v4, v6;
    }

    /**
     * Takes a sample. The deltas are the growth since the last sample, all deltas together the
     * growth since seeding; the detector sees the rate once, and Valid says what it must report.
     */
    method SampleNow(now: real) returns (sample: GrowthSample)
      requires Valid() && lastSampleAt <= now
      modifies `lastSampleAsns, `lastSamplePrefixes, `lastSampleAt, `recentRates, `recentSum,
        `plateauDetected, `plateauUptime, `detectedOnLastSample, `history, `reportedAsns, `reportedPrefixes
      ensures Valid() && lastSampleAt == now
      ensures history == old(history) + [Moment(sample.newPrefixesPerSec, sample.uptime)]
      ensures sample.uptime == now - startedAt
      ensures sample.totalAsns == |everSeenAsns| && sample.totalPrefixes == |everSeenV4| + |everSeenV6|
      ensures sample.activeV4 == activeV4 && sample.activeV6 == activeV6 && sample.active == activeV4 + activeV6
      ensures reportedAsns == old(reportedAsns) + sample.newAsns
      ensures reportedPrefixes == old(reportedPrefixes) + sample.newPrefixes
      ensures lastSampleAsns == sample.totalAsns && lastSamplePrefixes == sample.totalPrefixes
      ensures sample.newAsns == |everSeenAsns| - old(lastSampleAsns)
      ensures sample.newPrefixes == |everSeenV4| + |everSeenV6| - old(lastSamplePrefixes)
      ensures now > old(lastSampleAt) ==> sample.newPrefixesPerSec * (now - old(lastSampleAt)) == sample.newPrefixes as real
      ensures now > old(lastSampleAt) ==> sample.newAsnsPerSec * (now - old(lastSampleAt)) == sample.newAsns as real
      ensures now == old(lastSampleAt) ==> sample.newPrefixesPerSec == sample.newAsnsPerSec == 0.0
      ensures sample.rawMessages == rawMessages && sample.parsedEvents == parsedEvents
      ensures sample.announces == announces && sample.withdraws == withdraws
    {
      var uptime, interval := now - startedAt, now - lastSampleAt;
      var totalAsns, totalPrefixes := |everSeenAsns|, |everSeenV4| + |everSeenV6|;
      var newAsns: nat := totalAsns - lastSampleAsns;
      var newPrefixes: nat := totalPrefixes - lastSamplePrefixes;
      var asnRate, prefixRate := Rate(newAsns, interval), Rate(newPrefixes, interval);
      RateMeans(newAsns, interval);
      RateMeans(newPrefixes, interval);
      sample := GrowthSample(uptime, totalAsns, totalPrefixes, activeV4, activeV6, activeV4 + activeV6,
        newAsns, newPrefixes, asnRate, prefixRate, rawMessages, parsedEvents, announces, withdraws);

      FinishSample(now, prefixRate, uptime);
    }

    method FinishSample(now: real, prefixRate: real, uptime: real)
      requires Valid() && lastSampleAt <= now
      modifies `lastSampleAsns, `lastSamplePrefixes, `lastSampleAt, `recentRates, `recentSum,
        `plateauDetected, `plateauUptime, `detectedOnLastSample, `history, `reportedAsns, `reportedPrefixes
      ensures Valid() && lastSampleAt == now && history == old(history) + [Moment(prefixRate, uptime)]
      ensures lastSampleAsns == |everSeenAsns| && lastSamplePrefixes == |everSeenV4| + |everSeenV6|
      ensures reportedAsns == old(reportedAsns) + |everSeenAsns| - old(lastSampleAsns)
      ensures reportedPrefixes == old(reportedPrefixes) + |everSeenV4| + |everSeenV6| - old(lastSamplePrefixes)
    {
      UpdatePlateau(prefixRate, uptime);
      CloseInterval(now);
    }

    /** The current totals become the last sampled ones. */
    method CloseInterval(now: real)
      requires Telescopes()
      modifies `lastSampleAsns, `lastSamplePrefixes, `lastSampleAt, `reportedAsns, `reportedPrefixes
      ensures Telescopes() && lastSampleAt == now
      ensures lastSampleAsns == |everSeenAsns| && lastSamplePrefixes == |everSeenV4| + |everSeenV6|
      ensures reportedAsns == old(reportedAsns) + |everSeenAsns| - old(lastSampleAsns)
      ensures reportedPrefixes == old(reportedPrefixes) + |everSeenV4| + |everSeenV6| - old(lastSamplePrefixes)
    {
      var asns, prefixes := |everSeenAsns|, |everSeenV4| + |everSeenV6|;
      lastSampleAsns, lastSamplePrefixes, lastSampleAt, reportedAsns, reportedPrefixes :=
        asns, prefixes, now, reportedAsns + (asns - lastSampleAsns), reportedPrefixes + (prefixes - lastSamplePrefixes);
    }

    method UpdatePlateau(rate: real, uptime: real)
      requires DetectorExact()
      modifies `recentRates, `recentSum, `plateauDetected, `plateauUptime, `detectedOnLastSample, `history
      ensures DetectorExact() && history == old(history) + [Moment(rate, uptime)]
    {
      OpenDetector();
      var status := PlateauStatus(plateauDetected, detectedOnLastSample, plateauUptime);
      var rates, sum, status' := Detect(settings, recentRates, recentSum, status, rate, uptime, history);
      recentRates, recentSum, plateauDetected, plateauUptime, detectedOnLastSample, history :=
        rates, sum, status'.detected, status'.plateauUptime, status'.detectedOnThisSample, history + [Moment(rate, uptime)];
    }

    /** Right after a sample all deltas together are the growth since seeding. */
    lemma DeltasAddUp()
      requires Valid()
      requires lastSampleAsns == |everSeenAsns| && lastSamplePrefixes == |everSeenV4| + |everSeenV6|
      ensures reportedAsns == |everSeenAsns| - seededAsns
      ensures reportedPrefixes == |EverSeen()| - seededPrefixes
    {
      SeenCount();
    }

    method PlateauStatusNow() returns (status: PlateauStatus)
      requires Valid()
      ensures Reports(settings, history, status)
    {
      OpenDetector();
      status := PlateauStatus(plateauDetected, detectedOnLastSample, plateauUptime);
    }
  }

  lemma KeysUnion(a4: set<PrefixV4>, b4: set<PrefixV4>, a6: set<PrefixV6>, b6: set<PrefixV6>)
    ensures Keys(a4 + b4, a6 + b6) == Keys(a4, a6) + Keys(b4, b6)
  {}

  /** What a tracker collects from a routing state when it is seeded. */
  method Survey(state: RoutingState)
    returns (asns: set<uint32>, prefixesV4: set<PrefixV4>, prefixesV6: set<PrefixV6>, countV4: nat, countV6: nat)
    requires state.Valid()
    ensures asns == ObservedAsns(state.observed) && Keys(prefixesV4, prefixesV6) == state.observed.Keys
    ensures countV4 == |OfFamily(state.observed.Keys, FamilyV4)| && countV6 == |OfFamily(state.observed.Keys, FamilyV6)|
  {
    var stored := state.StoredObservations();
    countV4 := state.ActivePrefixesV4Count();
    countV6 := state.ActivePrefixesV6Count();
    state.AggregatedIsRecount();
    asns, prefixesV4, prefixesV6 := CollectSeen(stored, state.observed);
  }

  method CollectSeen(stored: seq<StoredObservation>, ghost view: View<BinaryPrefix, uint32>)
    returns (asns: set<uint32>, prefixesV4: set<PrefixV4>, prefixesV6: set<PrefixV6>)
    requires Lists(stored, Observations(view)) && NoEmptyRows(view)
    ensures asns == ObservedAsns(view) && Keys(prefixesV4, prefixesV6) == view.Keys
  {
    asns, prefixesV4, prefixesV6 := {}, {}, {};
    for i := 0 to |stored|
      invariant asns == set j | 0 <= j < i :: stored[j].seen.asn
      invariant Keys(prefixesV4, prefixesV6) == set j | 0 <= j < i :: stored[j].prefix
    {
      asns := asns + {stored[i].seen.asn};
      match stored[i].prefix
      case V4(p) =>
        KeysUnion(prefixesV4, {p}, prefixesV6, {});
        prefixesV4 := prefixesV4 + {p};
      case V6(p) =>
        KeysUnion(prefixesV4, {}, prefixesV6, {p});
        prefixesV6 := prefixesV6 + {p};
    }
    ListedPrefixes(view, stored);
    ListedAsns(view, stored);
  }

  ghost function ObservedAsns(view: View<BinaryPrefix, uint32>): set<uint32> {
    set o | o in Observations(view) :: o.seen.asn
  }

  lemma ListedOnce(view: View<BinaryPrefix, uint32>, stored: seq<StoredObservation>, o: StoredObservation)
    requires Lists(stored, Observations(view))
    ensures IsObserved(view, o) <==> exists j :: 0 <= j < |stored| && stored[j] == o
  {
    assert o in stored <==> o in (set x | x in stored);
  }

  lemma ListedPrefixes(view: View<BinaryPrefix, uint32>, stored: seq<StoredObservation>)
    requires Lists(stored, Observations(view)) && NoEmptyRows(view)
    ensures (set j | 0 <= j < |stored| :: stored[j].prefix) == view.Keys
  {
    forall p | p in view ensures exists j :: 0 <= j < |stored| && stored[j].prefix == p {
      assert view[p] != map[];
      var q :| q in view[p];
      ListedOnce(view, stored, StoredObservation(p, q, view[p][q]));
      var j :| 0 <= j < |stored| && stored[j] == StoredObservation(p, q, view[p][q]);
    }
    forall j | 0 <= j < |stored| ensures stored[j].prefix in view {
      ListedOnce(view, stored, stored[j]);
    }
  }

  lemma ListedAsns(view: View<BinaryPrefix, uint32>, stored: seq<StoredObservation>)
    requires Lists(stored, Observations(view))
    ensures (set j | 0 <= j < |stored| :: stored[j].seen.asn) == ObservedAsns(view)
  {
    forall j | 0 <= j < |stored| ensures stored[j].seen.asn in ObservedAsns(view) {
      ListedOnce(view, stored, stored[j]);
      assert stored[j] in Observations(view);
    }
    forall asn | asn in ObservedAsns(view) ensures exists j :: 0 <= j < |stored| && stored[j].seen.asn == asn {
      var o :| o in Observations(view) && o.seen.asn == asn;
      ListedOnce(view, stored, o);
      var j :| 0 <= j < |stored| && stored[j] == o;
    }
  }
}
